/** The `EmailSender` Celery task (`emails/tasks.py`): it builds a message,
    renders each (template, content type) pair into the body or an
    alternative part, and sends the message once. Template rendering is the
    parameter `render` (None when the template cannot be loaded or
    rendered); sending appends to an outbox; logging appends to a log. */
module Emails {
  import opened Wrappers

  type Context = map<string, string>

  /** One `[template_name, content_type]` pair; the template name may be
      `None` (the default `email_template`). */
  datatype Content = Content(template: Option<string>, contentType: string)

  datatype EmailError =
    | TemplateError
      /** A method the message does not have. */
    | AttributeError(name: string)
      /** An unexpected keyword argument. */
    | TypeError(name: string)

  const PlainText: string := "text/plain"
  const Html: string := "text/html"

  /** The name of the message method that adds an alternative part. */
  const AttachAlternative: string := "attach_alternative"

  /** The name the task calls instead. */
  const AttachAlternativesAsWritten: string := "attach_alternatives"

  /** `__get_contents`: the plain-text template, then the HTML template.
      The first entry, and only it, sets the body; every later one is an
      alternative part. */
  function GetContents(emailPlaintext: string, emailTemplate: Option<string>): (contents: seq<Content>)
    ensures |contents| == 2
    ensures forall i :: 0 <= i < |contents| ==> (contents[i].contentType == PlainText <==> i == 0)
    ensures contents[0].template == Some(emailPlaintext) && contents[1].template == emailTemplate
  {
    [Content(Some(emailPlaintext), PlainText), Content(emailTemplate, Html)]
  }

  /** The parts of a message the content loop changes, and the failure that
      stopped the loop, if any. */
  datatype ContentState = ContentState(body: string, alternatives: seq<(string, string)>, failure: Option<EmailError>)

  /** One iteration of `__update_message_content`: render, then set the body
      for plain text or call `attachMethod` for any other type. A failed
      state is left as it is: the exception ends the loop. */
  function Step(st: ContentState, c: Content, context: Context,
                render: (string, Context) -> Option<string>, attachMethod: string): ContentState
  {
    if st.failure.Some? then st
    else if c.template.None? || render(c.template.value, context).None? then st.(failure := Some(TemplateError))
    else
      var content := render(c.template.value, context).value;
      if c.contentType == PlainText then st.(body := content)
      else if attachMethod == AttachAlternative then st.(alternatives := st.alternatives + [(content, c.contentType)])
      else st.(failure := Some(AttributeError(attachMethod)))
  }

  /** The loop over `contents`, in list order. */
  function Filled(st: ContentState, contents: seq<Content>, context: Context,
                  render: (string, Context) -> Option<string>, attachMethod: string): ContentState
  {
    if contents == [] then st
    else Step(Filled(st, contents[..|contents| - 1], context, render, attachMethod), contents[|contents| - 1],
              context, render, attachMethod)
  }

  /** Once the loop has failed, later entries change nothing. */
  lemma {:induction false} FilledSticky(st: ContentState, contents: seq<Content>, more: seq<Content>, context: Context,
                                        render: (string, Context) -> Option<string>, attachMethod: string)
    requires Filled(st, contents, context, render, attachMethod).failure.Some?
    ensures Filled(st, contents + more, context, render, attachMethod) == Filled(st, contents, context, render, attachMethod)
    decreases |more|
  {
    if more == [] {
      assert contents + more == contents;
    } else {
      var front := more[..|more| - 1];
      assert (contents + more)[..|contents + more| - 1] == contents + front;
      FilledSticky(st, contents, front, context, render, attachMethod);
    }
  }

  /** Every entry names a template that renders. */
  predicate AllRender(contents: seq<Content>, context: Context, render: (string, Context) -> Option<string>) {
    forall i :: 0 <= i < |contents| ==>
      contents[i].template.Some? && render(contents[i].template.value, context).Some?
  }

  /** Reference: the body is the rendering of the last plain-text entry, or
      the old body when there is none. */
  function PlainBody(body: string, contents: seq<Content>, context: Context,
                     render: (string, Context) -> Option<string>): string
    requires AllRender(contents, context, render)
  {
    if contents == [] then body
    else
      var last := contents[|contents| - 1];
      if last.contentType == PlainText then render(last.template.value, context).value
      else PlainBody(body, contents[..|contents| - 1], context, render)
  }

  /** Reference: the renderings of the other entries with their types, in
      list order. */
  function Alternatives(contents: seq<Content>, context: Context,
                        render: (string, Context) -> Option<string>): seq<(string, string)>
    requires AllRender(contents, context, render)
  {
    if contents == [] then []
    else
      var last := contents[|contents| - 1];
      var front := Alternatives(contents[..|contents| - 1], context, render);
      if last.contentType == PlainText then front
      else front + [(render(last.template.value, context).value, last.contentType)]
  }

  /** With `attach_alternative` and templates that render, the loop leaves
      the body of the last plain entry and appends every other entry, in
      order, and does not fail. */
  lemma {:induction false} FilledMatchesReference(body: string, alternatives: seq<(string, string)>, contents: seq<Content>,
                                                  context: Context, render: (string, Context) -> Option<string>)
    requires AllRender(contents, context, render)
    ensures Filled(ContentState(body, alternatives, None), contents, context, render, AttachAlternative) ==
            ContentState(PlainBody(body, contents, context, render),
                         alternatives + Alternatives(contents, context, render), None)
  {
    if contents != [] {
      var front := contents[..|contents| - 1];
      assert AllRender(front, context, render) by {
        forall i | 0 <= i < |front|
          ensures front[i].template.Some? && render(front[i].template.value, context).Some?
        {
          assert front[i] == contents[i];
        }
      }
      FilledMatchesReference(body, alternatives, front, context, render);
      var last := contents[|contents| - 1];
      assert last == contents[|contents| - 1];
      if last.contentType != PlainText {
        assert alternatives + Alternatives(contents, context, render) ==
               (alternatives + Alternatives(front, context, render)) + [(render(last.template.value, context).value, last.contentType)];
      }
    }
  }

  /** The task's own contents, corrected: the plain rendering becomes the
      body and the HTML rendering the single alternative. */
  lemma DefaultContents(emailPlaintext: string, emailTemplate: string, context: Context,
                        render: (string, Context) -> Option<string>)
    requires render(emailPlaintext, context).Some? && render(emailTemplate, context).Some?
    ensures Filled(ContentState("", [], None), GetContents(emailPlaintext, Some(emailTemplate)), context, render, AttachAlternative)
         == ContentState(render(emailPlaintext, context).value, [(render(emailTemplate, context).value, Html)], None)
  {
    var contents := GetContents(emailPlaintext, Some(emailTemplate));
    var start := ContentState("", [], None);
    var first := contents[..1];
    assert first[..0] == [] && first[0] == contents[0];
    assert Filled(start, first, context, render, AttachAlternative) == Step(start, contents[0], context, render, AttachAlternative);
    assert contents[..|contents| - 1] == first;
  }

  /** As written, the HTML entry calls `attach_alternatives`, which the
      message does not have: the body is set, no alternative is attached,
      and the loop fails. */
  lemma DefaultContentsAsWrittenFail(emailPlaintext: string, emailTemplate: string, context: Context,
                                     render: (string, Context) -> Option<string>)
    requires render(emailPlaintext, context).Some? && render(emailTemplate, context).Some?
    ensures Filled(ContentState("", [], None), GetContents(emailPlaintext, Some(emailTemplate)), context, render,
                   AttachAlternativesAsWritten)
         == ContentState(render(emailPlaintext, context).value, [], Some(AttributeError(AttachAlternativesAsWritten)))
  {
    var contents := GetContents(emailPlaintext, Some(emailTemplate));
    var start := ContentState("", [], None);
    var first := contents[..1];
    assert first[..0] == [] && first[0] == contents[0];
    assert Filled(start, first, context, render, AttachAlternativesAsWritten) == Step(start, contents[0], context, render, AttachAlternativesAsWritten);
    assert contents[..|contents| - 1] == first;
  }

  /** `EmailMultiAlternatives` */
  class EmailMessage {
    const subject: string
    const fromEmail: string
    const to: seq<string>
    var body: string
    var alternatives: seq<(string, string)>

    constructor (subject: string, fromEmail: string, to: seq<string>)
      ensures this.subject == subject && this.fromEmail == fromEmail && this.to == to
      ensures body == "" && alternatives == []
    {
      this.subject := subject;
      this.fromEmail := fromEmail;
      this.to := to;
      body := "";
      alternatives := [];
    }
  }

  /** The keyword arguments `EmailMultiAlternatives` accepts besides the
      positional subject. */
  const MessageKeywords: set<string> :=
    {"body", "from_email", "to", "bcc", "connection", "attachments", "headers", "alternatives", "cc", "reply_to"}

  /** A message as it was handed to the mail backend. */
  datatype SentMail = SentMail(subject: string, fromEmail: string, to: seq<string>, body: string,
                               alternatives: seq<(string, string)>)

  class Outbox {
    var sent: seq<SentMail>

    constructor ()
      ensures sent == []
    {
      sent := [];
    }
  }

  /** `__update_message_content`: the loop over `contents`, calling
      `attachMethod` for entries that are not plain text. */
  method UpdateMessageContent(message: EmailMessage, contents: seq<Content>, context: Context,
                              render: (string, Context) -> Option<string>, attachMethod: string)
    returns (failure: Option<EmailError>)
    modifies message
    ensures var after := Filled(ContentState(old(message.body), old(message.alternatives), None), contents,
                                context, render, attachMethod);
      message.body == after.body && message.alternatives == after.alternatives && failure == after.failure
  {
    ghost var start := ContentState(message.body, message.alternatives, None);
    var i := 0;
    while i < |contents|
      invariant 0 <= i <= |contents|
      invariant var st := Filled(start, contents[..i], context, render, attachMethod);
        message.body == st.body && message.alternatives == st.alternatives && st.failure.None?
    {
      var c := contents[i];
      assert contents[..i + 1][..i] == contents[..i] && contents[..i + 1][i] == c;
      ghost var next := Step(Filled(start, contents[..i], context, render, attachMethod), c, context, render, attachMethod);
      if c.template.None? || render(c.template.value, context).None? {
        failure := Some(TemplateError);
        FilledSticky(start, contents[..i + 1], contents[i + 1..], context, render, attachMethod);
        assert contents[..i + 1] + contents[i + 1..] == contents;
        return;
      }
      var content := render(c.template.value, context).value;
      if c.contentType == PlainText {
        message.body := content;
      } else if attachMethod == AttachAlternative {
        message.alternatives := message.alternatives + [(content, c.contentType)];
      } else {
        failure := Some(AttributeError(attachMethod));
        FilledSticky(start, contents[..i + 1], contents[i + 1..], context, render, attachMethod);
        assert contents[..i + 1] + contents[i + 1..] == contents;
        return;
      }
      i := i + 1;
    }
    assert contents[..i] == contents;
    failure := None;
  }

  /** `recipients()` is not empty: some address of `to` is non-empty (the
      message has no `cc` or `bcc`). */
  predicate HasRecipient(to: seq<string>) {
    exists i :: 0 <= i < |to| && to[i] != ""
  }

  /** `__send_message`, that is `message.send()`: with no recipient it
      returns 0 without reaching the backend; otherwise the backend takes
      the message and 1 is returned. */
  method SendMessage(message: EmailMessage, outbox: Outbox) returns (count: nat)
    modifies outbox
    ensures count == 1 <==> HasRecipient(message.to)
    ensures count == 0 <==> !HasRecipient(message.to)
    ensures HasRecipient(message.to) ==>
      outbox.sent == old(outbox.sent) + [SentMail(message.subject, message.fromEmail, message.to,
                                                  message.body, message.alternatives)]
    ensures !HasRecipient(message.to) ==> outbox.sent == old(outbox.sent)
  {
    var i := 0;
    while i < |message.to| && message.to[i] == ""
      invariant 0 <= i <= |message.to|
      invariant forall j :: 0 <= j < i ==> message.to[j] == ""
    {
      i := i + 1;
    }
    if i == |message.to| {
      return 0;
    }
    outbox.sent := outbox.sent + [SentMail(message.subject, message.fromEmail, message.to, message.body, message.alternatives)];
    return 1;
  }

  /** Building the message from keyword names: an unexpected keyword is a
      TypeError. */
  method NewMessage(subject: string, keywords: seq<string>, fromEmail: string, to: seq<string>)
    returns (r: Result<EmailMessage, EmailError>)
    ensures r.Ok? <==> forall i :: 0 <= i < |keywords| ==> keywords[i] in MessageKeywords
    ensures r.Err? ==> exists i :: 0 <= i < |keywords| && keywords[i] !in MessageKeywords && r.error == TypeError(keywords[i])
    ensures r.Ok? ==> fresh(r.value) && r.value.subject == subject && r.value.fromEmail == fromEmail &&
                      r.value.to == to && r.value.body == "" && r.value.alternatives == []
  {
    var i := 0;
    while i < |keywords|
      invariant 0 <= i <= |keywords|
      invariant forall j :: 0 <= j < i ==> keywords[j] in MessageKeywords
    {
      if keywords[i] !in MessageKeywords {
        return Err(TypeError(keywords[i]));
      }
      i := i + 1;
    }
    var message := new EmailMessage(subject, fromEmail, to);
    return Ok(message);
  }

  /** How the task ended: the message was handed to the backend, `send()`
      found no recipient and sent nothing, or an exception was raised. */
  datatype Outcome = Sent | NoRecipient | Failed(error: EmailError)

  /** `run` as written: the message is built with the keyword `email_from`,
      which `EmailMultiAlternatives` does not accept, so nothing is rendered
      and nothing is sent. */
  method RunAsWritten(outbox: Outbox, emailSubject: string, emailTo: string, emailPlaintext: string,
                      emailTemplate: Option<string>, context: Context,
                      render: (string, Context) -> Option<string>, defaultFromEmail: string)
    returns (outcome: Outcome)
    modifies outbox
    ensures outcome == Failed(TypeError("email_from"))
    ensures outbox.sent == old(outbox.sent)
  {
    var keywords := ["email_from", "to"];
    assert keywords[0] !in MessageKeywords && keywords[1] in MessageKeywords;
    var built := NewMessage(emailSubject, keywords, defaultFromEmail, [emailTo]);
    if built.Ok? {
      assert false;
    }
    return Failed(built.error);
  }

  /** `run` with `from_email` and `attach_alternative`: build, fill, and send
      exactly once when filling succeeded and the address is not empty;
      otherwise send nothing. */
  method Run(outbox: Outbox, emailSubject: string, emailTo: string, emailPlaintext: string,
             emailTemplate: Option<string>, context: Context,
             render: (string, Context) -> Option<string>, defaultFromEmail: string)
    returns (outcome: Outcome)
    modifies outbox
    ensures var filled := Filled(ContentState("", [], None), GetContents(emailPlaintext, emailTemplate),
                                 context, render, AttachAlternative);
      && (filled.failure.None? && emailTo != "" ==>
            outcome == Sent &&
            outbox.sent == old(outbox.sent) + [SentMail(emailSubject, defaultFromEmail, [emailTo], filled.body, filled.alternatives)])
      && (filled.failure.None? && emailTo == "" ==> outcome == NoRecipient && outbox.sent == old(outbox.sent))
      && (filled.failure.Some? ==> outcome == Failed(filled.failure.value) && outbox.sent == old(outbox.sent))
  {
    var keywords := ["from_email", "to"];
    assert keywords[0] in MessageKeywords && keywords[1] in MessageKeywords;
    var built := NewMessage(emailSubject, keywords, defaultFromEmail, [emailTo]);
    if built.Err? {
      assert false;
    }
    var message := built.value;
    var failure := UpdateMessageContent(message, GetContents(emailPlaintext, emailTemplate), context, render, AttachAlternative);
    if failure.Some? {
      return Failed(failure.value);
    }
    assert emailTo != "" ==> message.to[0] != "";
    var count := SendMessage(message, outbox);
    if count == 0 {
      return NoRecipient;
    }
    return Sent;
  }

  // ------------------------------------------------------------ on_failure

  /** A `logging.error(msg, *args)` call. */
  datatype LogRecord = LogRecord(msg: string, args: seq<string>)

  /** `msg % args` for the `%s` and `%%` directives; None for the TypeError
      of a missing or a leftover argument, or an unsupported directive. */
  function PercentFormat(msg: string, args: seq<string>): (r: Option<string>)
    ensures '%' !in msg && args != [] ==> r.None?
    decreases |msg|
  {
    if msg == [] then (if args == [] then Some([]) else None)
    else if msg[0] != '%' then
      match PercentFormat(msg[1..], args)
      case None => None
      case Some(rest) => Some([msg[0]] + rest)
    else if |msg| >= 2 && msg[1] == '%' then
      match PercentFormat(msg[2..], args)
      case None => None
      case Some(rest) => Some("%" + rest)
    else if |msg| >= 2 && msg[1] == 's' && args != [] then
      match PercentFormat(msg[2..], args[1..])
      case None => None
      case Some(rest) => Some(args[0] + rest)
    else None
  }

  /** `LogRecord.getMessage`: formatting happens only when there are
      arguments. */
  function Message(record: LogRecord): Option<string> {
    if record.args == [] then Some(record.msg) else PercentFormat(record.msg, record.args)
  }

  class Log {
    var records: seq<LogRecord>

    constructor ()
      ensures records == []
    {
      records := [];
    }
  }

  function FailureLine(taskId: string, exc: string): string {
    taskId + " failed: " + exc + "\n"
  }

  function RecipientLine(emailTo: Option<string>): string {
    "Failed to send email to '" + emailTo.GetOr("None") + "'\n"
  }

  /** `on_failure` as written: the second f-string is passed as a formatting
      argument of the first. */
  method OnFailureAsWritten(log: Log, taskId: string, exc: string, emailTo: Option<string>)
    modifies log
    ensures log.records == old(log.records) + [LogRecord(FailureLine(taskId, exc), [RecipientLine(emailTo)])]
  {
    log.records := log.records + [LogRecord(FailureLine(taskId, exc), [RecipientLine(emailTo)])];
  }

  /** `on_failure` with the two lines joined into one message. */
  method OnFailure(log: Log, taskId: string, exc: string, emailTo: Option<string>)
    modifies log
    ensures log.records == old(log.records) + [LogRecord(FailureLine(taskId, exc) + RecipientLine(emailTo), [])]
  {
    log.records := log.records + [LogRecord(FailureLine(taskId, exc) + RecipientLine(emailTo), [])];
  }

  /** The record `on_failure` logs as written cannot be formatted when the
      task id and exception text hold no `%`: the recipient line never
      appears in the log. */
  lemma FailureRecordAsWrittenUnformattable(taskId: string, exc: string, emailTo: Option<string>)
    requires '%' !in taskId && '%' !in exc
    ensures Message(LogRecord(FailureLine(taskId, exc), [RecipientLine(emailTo)])).None?
  {
    assert '%' !in FailureLine(taskId, exc);
  }

  /** The joined record reads as both lines, whatever text they hold. */
  lemma FailureRecordFormatted(taskId: string, exc: string, emailTo: Option<string>)
    ensures Message(LogRecord(FailureLine(taskId, exc) + RecipientLine(emailTo), [])) ==
            Some(FailureLine(taskId, exc) + RecipientLine(emailTo))
  {
  }
}
