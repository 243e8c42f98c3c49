/** Text handling shared by the serializers and the user manager: Python's
    `str.strip()`, `str.rsplit(sep, 1)` and ASCII lower-casing, and the input
    rules of Django REST framework's `CharField` (which `EmailField` is):
    surrounding whitespace is trimmed, an all-whitespace value is refused
    unless blank input is allowed, and the trimmed text is held to the
    field's length bounds and may not contain the NUL character. */
module TextFields {
  import opened Wrappers

  /** The characters `str.isspace()` accepts, which `str.strip()` removes. */
  predicate IsSpace(c: char) {
    var n := c as int;
    n == 32 || 9 <= n <= 13 || 28 <= n <= 31 || n == 0x85 || n == 0xA0 || n == 0x1680 ||
    0x2000 <= n <= 0x200A || n == 0x2028 || n == 0x2029 || n == 0x202F || n == 0x205F || n == 0x3000
  }

  predicate AllSpace(s: string) {
    forall i :: 0 <= i < |s| ==> IsSpace(s[i])
  }

  /** Neither end of `s` is whitespace. */
  predicate Unpadded(s: string) {
    s == [] || (!IsSpace(s[0]) && !IsSpace(s[|s| - 1]))
  }

  /** `s.lstrip()` */
  function TrimStart(s: string): string {
    if s != [] && IsSpace(s[0]) then TrimStart(s[1..]) else s
  }

  /** `lstrip` keeps a suffix, drops only whitespace, and leaves no
      whitespace at the front. */
  lemma {:induction false} TrimStartKeepsSuffix(s: string)
    ensures var r := TrimStart(s);
      && |r| <= |s| && r == s[|s| - |r|..]
      && AllSpace(s[..|s| - |r|])
      && (r == [] || !IsSpace(r[0]))
  {
    if s != [] && IsSpace(s[0]) {
      TrimStartKeepsSuffix(s[1..]);
      var r := TrimStart(s[1..]);
      assert s[..|s| - |r|] == [s[0]] + s[1..][..|s| - 1 - |r|];
    }
  }

  /** `s.rstrip()` */
  function TrimEnd(s: string): string {
    if s != [] && IsSpace(s[|s| - 1]) then TrimEnd(s[..|s| - 1]) else s
  }

  /** `rstrip` keeps a prefix, drops only whitespace, and leaves no
      whitespace at the back. */
  lemma {:induction false} TrimEndKeepsPrefix(s: string)
    ensures var r := TrimEnd(s);
      && |r| <= |s| && r == s[..|r|]
      && AllSpace(s[|r|..])
      && (r == [] || !IsSpace(r[|r| - 1]))
  {
    if s != [] && IsSpace(s[|s| - 1]) {
      TrimEndKeepsPrefix(s[..|s| - 1]);
      var r := TrimEnd(s[..|s| - 1]);
      assert s[|r|..] == s[..|s| - 1][|r|..] + [s[|s| - 1]];
    }
  }

  /** `s.strip()`: no whitespace is left at either end, and nothing but
      whitespace strips to the empty text. */
  function Strip(s: string): (r: string)
    ensures Unpadded(r)
    ensures r == [] <==> AllSpace(s)
  {
    var front := TrimStart(s);
    TrimStartKeepsSuffix(s);
    TrimEndKeepsPrefix(front);
    var r := TrimEnd(front);
    StripEnds(s, front, r);
    r
  }

  /** The facts `Strip` rests on, about the halves of the trimming. */
  lemma StripEnds(s: string, front: string, r: string)
    requires |front| <= |s| && front == s[|s| - |front|..] && AllSpace(s[..|s| - |front|])
    requires front == [] || !IsSpace(front[0])
    requires |r| <= |front| && r == front[..|r|] && AllSpace(front[|r|..])
    requires r == [] || !IsSpace(r[|r| - 1])
    ensures Unpadded(r)
    ensures r == [] <==> AllSpace(s)
  {
    if r == [] {
      assert AllSpace(front);
      assert s == s[..|s| - |front|] + front;
    }
    assert front != [] ==> front[0] == s[|s| - |front|];
  }

  /** `lstrip` removes exactly the leading whitespace `pre`. */
  lemma {:induction false} TrimStartPadded(pre: string, rest: string)
    requires AllSpace(pre) && (rest == [] || !IsSpace(rest[0]))
    ensures TrimStart(pre + rest) == rest
  {
    if pre != [] {
      assert (pre + rest)[1..] == pre[1..] + rest;
      TrimStartPadded(pre[1..], rest);
    }
  }

  /** `rstrip` removes exactly the trailing whitespace `post`. */
  lemma {:induction false} TrimEndPadded(body: string, post: string)
    requires AllSpace(post) && (body == [] || !IsSpace(body[|body| - 1]))
    ensures TrimEnd(body + post) == body
  {
    if post != [] {
      var shorter := post[..|post| - 1];
      assert (body + post)[..|body + post| - 1] == body + shorter;
      TrimEndPadded(body, shorter);
    }
  }

  /** `strip` removes exactly the surrounding whitespace: an unpadded text
      with any whitespace around it strips to itself. */
  lemma StripPadded(pre: string, s: string, post: string)
    requires AllSpace(pre) && AllSpace(post) && Unpadded(s)
    ensures Strip(pre + s + post) == s
  {
    if s == [] {
      assert pre + s + post == (pre + post) + [];
      TrimStartPadded(pre + post, []);
    } else {
      assert pre + s + post == pre + (s + post);
      TrimStartPadded(pre, s + post);
      TrimEndPadded(s, post);
    }
  }

  /** Text with no whitespace at either end strips to itself. */
  lemma StripUnpadded(s: string)
    requires Unpadded(s)
    ensures Strip(s) == s
  {
    assert [] + s + [] == s;
    StripPadded([], s, []);
  }

  /** Stripping twice is stripping once. */
  lemma StripIdempotent(s: string)
    ensures Strip(Strip(s)) == Strip(s)
  {
    StripUnpadded(Strip(s));
  }

  /** Position of the last `c` in `s`. */
  function LastIndexOf(s: string, c: char): (r: Option<nat>)
    ensures r.Some? ==> r.value < |s| && s[r.value] == c && c !in s[r.value + 1..]
    ensures r.None? ==> c !in s
  {
    if |s| == 0 then None
    else if s[|s| - 1] == c then Some(|s| - 1)
    else
      var r := LastIndexOf(s[..|s| - 1], c);
      assert r.Some? ==> s[r.value + 1..] == s[..|s| - 1][r.value + 1..] + [s[|s| - 1]];
      assert r.None? ==> s == s[..|s| - 1] + [s[|s| - 1]];
      r
  }

  /** The last `c` is the one no later `c` follows. */
  lemma LastIndexOfUnique(s: string, c: char, i: nat)
    requires i < |s| && s[i] == c && c !in s[i + 1..]
    ensures LastIndexOf(s, c) == Some(i)
  {
    var r := LastIndexOf(s, c);
    assert s[i] in s;
    var j := r.value;
    assert forall k :: j < k < |s| ==> s[k] != c by {
      forall k | j < k < |s| ensures s[k] != c {
        assert s[k] == s[j + 1..][k - j - 1];
      }
    }
    assert forall k :: i < k < |s| ==> s[k] != c by {
      forall k | i < k < |s| ensures s[k] != c {
        assert s[k] == s[i + 1..][k - i - 1];
      }
    }
  }

  /** `c.lower()` for ASCII letters; every other character is kept. */
  function LowerChar(c: char): char {
    if 'A' <= c <= 'Z' then (c as int + 32) as char else c
  }

  /** `s.lower()`, letter by letter. */
  function Lower(s: string): (r: string)
    ensures |r| == |s| && forall i :: 0 <= i < |s| ==> r[i] == LowerChar(s[i])
  {
    seq(|s|, i requires 0 <= i < |s| => LowerChar(s[i]))
  }

  // ------------------------------------------------------ CharField input

  /** The field-level errors: "This field may not be blank.", the
      messages of the maximum- and minimum-length validators, and that of
      the validator every `CharField` carries against the NUL character
      ("Null characters are not allowed."). */
  datatype FieldError = Blank | TooLong | TooShort | NullCharacter

  /** `CharField.run_validation` for text input, with `trim_whitespace`
      on (the default): a value that strips to nothing is `""` when blank
      input is allowed and a Blank error otherwise; any other value is
      stripped and then held to `max_length`, `min_length` and the ban on
      `'\0'`, in the order the field lists its validators. The first
      failing validator is reported. */
  function CharFieldValue(data: string, allowBlank: bool, maxLength: Option<nat>, minLength: Option<nat>)
    : (r: Result<string, FieldError>)
    ensures r == Err(Blank) <==> AllSpace(data) && !allowBlank
    ensures r == Err(TooLong) <==> !AllSpace(data) && maxLength.Some? && |Strip(data)| > maxLength.value
    ensures r == Err(TooShort) <==>
      && !AllSpace(data)
      && !(maxLength.Some? && |Strip(data)| > maxLength.value)
      && minLength.Some? && |Strip(data)| < minLength.value
    ensures r == Err(NullCharacter) <==>
      && !AllSpace(data)
      && !(maxLength.Some? && |Strip(data)| > maxLength.value)
      && !(minLength.Some? && |Strip(data)| < minLength.value)
      && '\0' in Strip(data)
    ensures r.Ok? ==> r.value == Strip(data) && Unpadded(r.value) && '\0' !in r.value
  {
    var value := Strip(data);
    if value == [] then
      if allowBlank then Ok([]) else Err(Blank)
    else if maxLength.Some? && |value| > maxLength.value then Err(TooLong)
    else if minLength.Some? && |value| < minLength.value then Err(TooShort)
    else if '\0' in value then Err(NullCharacter)
    else Ok(value)
  }
}
