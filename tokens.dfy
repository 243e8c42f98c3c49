/** The share-token framing of `codespace/tokens.py`: a payload built from a
    codespace uuid and an expiry time is encrypted with AES-GCM under a key
    derived from the project secret, and the result is url-safe base64
    encoded (section 5 of RFC 4648). The cryptographic and codec primitives
    are parameters; only the framing around them is modelled. */
module Tokens {
  import opened Wrappers
  import opened TextFields

  newtype byte = x: int | 0 <= x < 256

  type bytes = seq<byte>

  /** The exceptions the decoding can raise: binascii.Error, the two
      ValueErrors of AESGCM (a key that is not 16, 24 or 32 bytes, a nonce
      outside 8 to 128 bytes), InvalidTag, UnicodeDecodeError, a payload
      that does not parse, and the AttributeError of calling `encode` on
      bytes. */
  datatype TokenError =
    | InvalidBase64
    | KeyLength
    | NonceLength
    | InvalidTag
    | NotUtf8
    | MalformedPayload
    | AttributeError

  /** MD5, AES-GCM (NIST SP 800-38D) encrypt and decrypt taking key, nonce,
      data and associated data, url-safe base64, and the UTF-8 codec. */
  datatype Primitives = Primitives(
    md5: bytes -> bytes,
    encrypt: (bytes, bytes, bytes, bytes) -> bytes,
    decrypt: (bytes, bytes, bytes, bytes) -> Option<bytes>,
    b64encode: bytes -> bytes,
    b64decode: bytes -> Option<bytes>,
    encodeText: string -> bytes,
    decodeText: bytes -> Option<string>)
  {
    /** The laws the framing relies on: MD5 digests are 16 bytes, AES-GCM
        output is the ciphertext (as long as the plaintext) followed by a
        16-byte tag, AES-GCM opens what it sealed under the same 32-byte
        key, 12-byte nonce and associated data, and both codecs round-trip. */
    ghost predicate Lawful() {
      && (forall data :: |md5(data)| == 16)
      && (forall key, nonce, plain, aad :: |encrypt(key, nonce, plain, aad)| == |plain| + TagSize)
      && (forall key, nonce, plain, aad ::
            |key| == 32 && |nonce| == NonceSize ==> decrypt(key, nonce, encrypt(key, nonce, plain, aad), aad) == Some(plain))
      && (forall raw :: b64decode(b64encode(raw)) == Some(raw))
      && (forall text :: decodeText(encodeText(text)) == Some(text))
    }
  }

  /** `secrets.token_bytes(12)`: the nonce length. */
  const NonceSize: nat := 12

  /** `associated_data=b""` on both sides. */
  const NoAssociatedData: bytes := []

  /** The key lengths AESGCM accepts (128, 192 or 256 bits). */
  const AesKeySizes: set<nat> := {16, 24, 32}

  /** The nonce lengths AESGCM accepts. */
  const MinNonceSize: nat := 8
  const MaxNonceSize: nat := 128

  /** The length of the AES-GCM authentication tag. */
  const TagSize: nat := 16

  /** `AESGCM(key).decrypt(nonce, data, b"")`: the constructor refuses a key
      of the wrong length, the call refuses a nonce of the wrong length, data
      shorter than a tag cannot authenticate, and otherwise the primitive
      decides. */
  function AesGcmDecrypt(p: Primitives, key: bytes, nonce: bytes, data: bytes): (r: Result<bytes, TokenError>)
    ensures r == Err(KeyLength) <==> |key| !in AesKeySizes
    ensures r == Err(NonceLength) <==> |key| in AesKeySizes && !(MinNonceSize <= |nonce| <= MaxNonceSize)
    ensures r.Ok? ==> |data| >= TagSize && p.decrypt(key, nonce, data, NoAssociatedData) == Some(r.value)
  {
    if |key| !in AesKeySizes then Err(KeyLength)
    else if !(MinNonceSize <= |nonce| <= MaxNonceSize) then Err(NonceLength)
    else if |data| < TagSize then Err(InvalidTag)
    else match p.decrypt(key, nonce, data, NoAssociatedData)
      case None => Err(InvalidTag)
      case Some(plain) => Ok(plain)
  }

  /** Under lawful primitives, decryption opens what encryption sealed with
      the same 32-byte key and 12-byte nonce. */
  lemma AesGcmOpensSealed(p: Primitives, key: bytes, nonce: bytes, plain: bytes)
    requires p.Lawful() && |key| == 32 && |nonce| == NonceSize
    ensures AesGcmDecrypt(p, key, nonce, p.encrypt(key, nonce, plain, NoAssociatedData)) == Ok(plain)
  {
    assert |p.encrypt(key, nonce, plain, NoAssociatedData)| == |plain| + TagSize;
    assert p.decrypt(key, nonce, p.encrypt(key, nonce, plain, NoAssociatedData), NoAssociatedData) == Some(plain);
  }

  /** `token[:12]` ends where the decoded token or the 12-byte nonce does. */
  function NonceEnd(raw: bytes): (n: nat)
    ensures n <= |raw| && n <= NonceSize
    ensures n == NonceSize || n == |raw|
  {
    if |raw| < NonceSize then |raw| else NonceSize
  }

  // ---------------------------------------------------------------- key

  /** ASCII code of the lowercase hexadecimal digit `d`. */
  function HexDigit(d: int): byte
    requires 0 <= d < 16
  {
    if d < 10 then (48 + d) as byte else (87 + d) as byte
  }

  predicate IsHexDigit(c: byte) {
    48 <= c <= 57 || 97 <= c <= 102
  }

  function HexValue(c: byte): int
    requires IsHexDigit(c)
  {
    if c <= 57 then c as int - 48 else c as int - 87
  }

  /** `hexdigest()` followed by `str.encode`: two ASCII hex digits per byte,
      high nibble first. */
  function HexDigest(digest: bytes): (hex: bytes)
    ensures |hex| == 2 * |digest|
    ensures forall i :: 0 <= i < |hex| ==> IsHexDigit(hex[i])
  {
    if digest == [] then []
    else [HexDigit(digest[0] as int / 16), HexDigit(digest[0] as int % 16)] + HexDigest(digest[1..])
  }

  /** Reading a hex text back into bytes. */
  function HexDecode(hex: bytes): Option<bytes>
    decreases |hex|
  {
    if hex == [] then Some([])
    else if |hex| < 2 || !IsHexDigit(hex[0]) || !IsHexDigit(hex[1]) then None
    else match HexDecode(hex[2..])
      case None => None
      case Some(rest) => Some([(HexValue(hex[0]) * 16 + HexValue(hex[1])) as byte] + rest)
  }

  /** The hex text determines the digest it was made from. */
  lemma {:induction false} HexDigestRoundTrip(digest: bytes)
    ensures HexDecode(HexDigest(digest)) == Some(digest)
  {
    if digest != [] {
      var hex := HexDigest(digest);
      assert hex[2..] == HexDigest(digest[1..]);
      HexDigestRoundTrip(digest[1..]);
      assert [digest[0]] + digest[1..] == digest;
    }
  }

  /** `CodeSpaceAccessToken.secret`: the MD5 hex digest of the UTF-8
      encoded `SECRET_KEY`, as ASCII bytes. */
  function Secret(p: Primitives, secretKey: string): (key: bytes)
    ensures |key| == 2 * |p.md5(p.encodeText(secretKey))|
    ensures forall i :: 0 <= i < |key| ==> IsHexDigit(key[i])
  {
    HexDigest(p.md5(p.encodeText(secretKey)))
  }

  /** With a lawful MD5 the key is the 32 bytes AES-256 needs, and it
      determines the digest it came from. */
  lemma SecretIsAes256Key(p: Primitives, secretKey: string)
    requires p.Lawful()
    ensures |Secret(p, secretKey)| == 32
    ensures HexDecode(Secret(p, secretKey)) == Some(p.md5(p.encodeText(secretKey)))
  {
    HexDigestRoundTrip(p.md5(p.encodeText(secretKey)));
  }

  // ----------------------------------------------------------- decimals

  function DigitChar(d: int): char
    requires 0 <= d < 10
  {
    (48 + d) as char
  }

  predicate AllDigits(s: string) {
    forall i :: 0 <= i < |s| ==> '0' <= s[i] <= '9'
  }

  /** The decimal digits of `n`, most significant first, no leading zero. */
  function NatDigits(n: nat): (s: string)
    ensures |s| >= 1 && AllDigits(s)
  {
    if n < 10 then [DigitChar(n)] else NatDigits(n / 10) + [DigitChar(n % 10)]
  }

  /** Python's `str(expire_time)` for an int. */
  function Decimal(t: int): (s: string)
    ensures ':' !in s
  {
    if t < 0 then "-" + NatDigits(-t) else NatDigits(t)
  }

  function DigitValue(c: char): nat
    requires '0' <= c <= '9'
  {
    c as int - '0' as int
  }

  /** The value of a nonempty digit string. */
  function DigitsValue(s: string): nat
    requires |s| >= 1 && AllDigits(s)
  {
    if |s| == 1 then DigitValue(s[0])
    else DigitsValue(s[..|s| - 1]) * 10 + DigitValue(s[|s| - 1])
  }

  lemma {:induction false} DigitsValueOfNatDigits(n: nat)
    ensures DigitsValue(NatDigits(n)) == n
  {
    if n >= 10 {
      var s := NatDigits(n);
      assert s[..|s| - 1] == NatDigits(n / 10);
      DigitsValueOfNatDigits(n / 10);
    }
  }

  /** Reads back exactly the texts `Decimal` produces. */
  function ParseDecimal(s: string): (r: Option<int>)
    ensures r.Some? ==> Decimal(r.value) == s
  {
    if |s| >= 1 && AllDigits(s) then
      var v := DigitsValue(s);
      if NatDigits(v) == s then Some(v) else None
    else if |s| >= 2 && s[0] == '-' && AllDigits(s[1..]) then
      var v: int := DigitsValue(s[1..]);
      if v > 0 && NatDigits(v) == s[1..] then Some(-v) else None
    else None
  }

  lemma ParseDecimalOfDecimal(t: int)
    ensures ParseDecimal(Decimal(t)) == Some(t)
  {
    var s := Decimal(t);
    if t < 0 {
      assert s == "-" + NatDigits(-t);
      assert s[1..] == NatDigits(-t);
      assert !AllDigits(s) by { assert s[0] == '-'; }
      DigitsValueOfNatDigits(-t);
      assert DigitsValue(s[1..]) == -t;
    } else {
      assert s == NatDigits(t);
      DigitsValueOfNatDigits(t);
      assert DigitsValue(s) == t;
    }
  }

  // ------------------------------------------------------------ payload

  /** `__make_token_hash`: the uuid immediately followed by the expiry. */
  function TokenHashAsWritten(uuid: string, expireTime: int): (text: string)
    ensures uuid <= text && text[|uuid|..] == Decimal(expireTime)
  {
    uuid + Decimal(expireTime)
  }

  /** Every expiry of two digits or more reads the same as its last digit
      preceded by a longer uuid: the payload does not determine the pair. */
  lemma {:induction false} TokenHashAsWrittenIsAmbiguous(uuid: string, expireTime: nat)
    requires expireTime >= 10
    ensures TokenHashAsWritten(uuid + NatDigits(expireTime / 10), expireTime % 10) == TokenHashAsWritten(uuid, expireTime)
    ensures uuid + NatDigits(expireTime / 10) != uuid
  {
    assert NatDigits(expireTime) == NatDigits(expireTime / 10) + [DigitChar(expireTime % 10)];
    assert Decimal(expireTime % 10) == [DigitChar(expireTime % 10)];
    assert |uuid + NatDigits(expireTime / 10)| > |uuid|;
  }

  /** The payload with a separator that the expiry text cannot contain. */
  function TokenPayload(uuid: string, expireTime: int): string {
    uuid + ":" + Decimal(expireTime)
  }

  /** Splits a decrypted payload at its last `:` into uuid and expiry. */
  function ParsePayload(text: string): (r: Option<(string, int)>)
    ensures r.Some? ==> TokenPayload(r.value.0, r.value.1) == text
  {
    match LastIndexOf(text, ':')
    case None => None
    case Some(i) =>
      match ParseDecimal(text[i + 1..])
      case None => None
      case Some(t) =>
        assert text == text[..i] + ":" + text[i + 1..];
        Some((text[..i], t))
  }

  lemma ParsePayloadOfTokenPayload(uuid: string, expireTime: int)
    ensures ParsePayload(TokenPayload(uuid, expireTime)) == Some((uuid, expireTime))
  {
    var text := TokenPayload(uuid, expireTime);
    var d := Decimal(expireTime);
    var i := LastIndexOf(text, ':');
    assert text[|uuid|] == ':';
    assert i.Some?;
    assert text[|uuid| + 1..] == d;
    assert text[..|uuid|] == uuid;
    ParseDecimalOfDecimal(expireTime);
  }

  /** Distinct (uuid, expiry) pairs give distinct payloads. */
  lemma TokenPayloadInjective(u1: string, t1: int, u2: string, t2: int)
    requires TokenPayload(u1, t1) == TokenPayload(u2, t2)
    ensures u1 == u2 && t1 == t2
  {
    ParsePayloadOfTokenPayload(u1, t1);
    ParsePayloadOfTokenPayload(u2, t2);
  }

  // -------------------------------------------------------------- token

  /** `make_token` as written: the AES-GCM output alone is encoded; the
      nonce it was sealed with is not part of the token. Under lawful
      primitives the decoded token is exactly as long as the payload plus
      its tag, so it has no room for the nonce. */
  function MakeTokenAsWritten(p: Primitives, key: bytes, uuid: string, expireTime: int, nonce: bytes): (token: bytes)
    ensures p.Lawful() ==>
      && p.b64decode(token).Some?
      && |p.b64decode(token).value| == |p.encodeText(TokenHashAsWritten(uuid, expireTime))| + TagSize
  {
    p.b64encode(p.encrypt(key, nonce, p.encodeText(TokenHashAsWritten(uuid, expireTime)), NoAssociatedData))
  }

  /** `decrypt_token` as written: the first 12 decoded bytes (or fewer) are
      taken as the nonce, and a successful decryption is followed by
      `.encode("utf8")` on the resulting bytes, which raises
      AttributeError. */
  function DecryptTokenAsWritten(p: Primitives, key: bytes, token: string): (r: Result<(string, int), TokenError>)
    ensures r.Err?
    ensures r == Err(AttributeError) <==>
      (p.b64decode(p.encodeText(token)).Some? &&
       var raw := p.b64decode(p.encodeText(token)).value;
       AesGcmDecrypt(p, key, raw[..NonceEnd(raw)], raw[NonceEnd(raw)..]).Ok?)
    ensures
      (p.b64decode(p.encodeText(token)).Some? && |key| in AesKeySizes &&
       |p.b64decode(p.encodeText(token)).value| < MinNonceSize) ==> r == Err(NonceLength)
  {
    match p.b64decode(p.encodeText(token))
    case None => Err(InvalidBase64)
    case Some(raw) =>
      match AesGcmDecrypt(p, key, raw[..NonceEnd(raw)], raw[NonceEnd(raw)..])
      case Err(e) => Err(e)
      case Ok(_) => Err(AttributeError)
  }

  /** `make_token` with the nonce prepended to the sealed payload and a
      separator in the payload: under lawful primitives the token carries
      its nonce and opens to the payload. */
  function MakeToken(p: Primitives, key: bytes, uuid: string, expireTime: int, nonce: bytes): (token: bytes)
    ensures p.Lawful() ==> p.b64decode(token).Some? && nonce <= p.b64decode(token).value
    ensures p.Lawful() && |key| == 32 && |nonce| == NonceSize ==>
      OpenToken(p, key, token) == Ok(TokenPayload(uuid, expireTime))
  {
    var raw := nonce + p.encrypt(key, nonce, p.encodeText(TokenPayload(uuid, expireTime)), NoAssociatedData);
    SealedTokenOpens(p, key, uuid, expireTime, nonce, raw);
    p.b64encode(raw)
  }

  /** The proof behind `MakeToken`'s contract: the decoded token is the
      nonce followed by the sealed payload, which opens under the same key
      and nonce. */
  lemma SealedTokenOpens(p: Primitives, key: bytes, uuid: string, expireTime: int, nonce: bytes, raw: bytes)
    requires raw == nonce + p.encrypt(key, nonce, p.encodeText(TokenPayload(uuid, expireTime)), NoAssociatedData)
    ensures p.Lawful() ==> p.b64decode(p.b64encode(raw)) == Some(raw) && nonce <= raw
    ensures p.Lawful() && |key| == 32 && |nonce| == NonceSize ==>
      OpenToken(p, key, p.b64encode(raw)) == Ok(TokenPayload(uuid, expireTime))
  {
    var plain := p.encodeText(TokenPayload(uuid, expireTime));
    if p.Lawful() {
      assert p.b64decode(p.b64encode(raw)) == Some(raw);
      assert raw[..|nonce|] == nonce;
      if |key| == 32 && |nonce| == NonceSize {
        assert raw[..NonceEnd(raw)] == nonce;
        assert raw[NonceEnd(raw)..] == p.encrypt(key, nonce, plain, NoAssociatedData);
        AesGcmOpensSealed(p, key, nonce, plain);
      }
    }
  }

  /** The decoded, authenticated and UTF-8 decoded payload of a token. */
  function OpenToken(p: Primitives, key: bytes, token: bytes): (r: Result<string, TokenError>)
    ensures p.b64decode(token).None? ==> r == Err(InvalidBase64)
    ensures
      (p.b64decode(token).Some? && |key| in AesKeySizes &&
       |p.b64decode(token).value| < MinNonceSize) ==> r == Err(NonceLength)
    ensures r.Ok? ==>
      (p.b64decode(token).Some? &&
       var raw := p.b64decode(token).value;
       var plain := AesGcmDecrypt(p, key, raw[..NonceEnd(raw)], raw[NonceEnd(raw)..]);
       plain.Ok? && p.decodeText(plain.value) == Some(r.value))
  {
    match p.b64decode(token)
    case None => Err(InvalidBase64)
    case Some(raw) =>
      match AesGcmDecrypt(p, key, raw[..NonceEnd(raw)], raw[NonceEnd(raw)..])
      case Err(e) => Err(e)
      case Ok(plain) =>
        match p.decodeText(plain)
        case None => Err(NotUtf8)
        case Some(text) => Ok(text)
  }

  /** `decrypt_token` corrected: the pair is returned only when the opened
      payload is exactly the payload of that pair. */
  function DecryptToken(p: Primitives, key: bytes, token: bytes): (r: Result<(string, int), TokenError>)
    ensures r.Ok? <==> OpenToken(p, key, token).Ok? && ParsePayload(OpenToken(p, key, token).value).Some?
    ensures r.Ok? ==> OpenToken(p, key, token) == Ok(TokenPayload(r.value.0, r.value.1))
  {
    match OpenToken(p, key, token)
    case Err(e) => Err(e)
    case Ok(text) =>
      match ParsePayload(text)
      case None => Err(MalformedPayload)
      case Some(pair) => Ok(pair)
  }

  /** A token made under the project secret decrypts to the uuid and expiry
      it was made from, whatever 12-byte nonce was drawn. */
  lemma TokenRoundTrip(p: Primitives, secretKey: string, uuid: string, expireTime: int, nonce: bytes)
    requires p.Lawful() && |nonce| == NonceSize
    ensures var key := Secret(p, secretKey);
      DecryptToken(p, key, MakeToken(p, key, uuid, expireTime, nonce)) == Ok((uuid, expireTime))
  {
    var key := Secret(p, secretKey);
    SecretIsAes256Key(p, secretKey);
    var plain := p.encodeText(TokenPayload(uuid, expireTime));
    var sealed := p.encrypt(key, nonce, plain, NoAssociatedData);
    var raw := nonce + sealed;
    assert p.b64decode(p.b64encode(raw)) == Some(raw);
    assert raw[..NonceEnd(raw)] == nonce && raw[NonceEnd(raw)..] == sealed;
    AesGcmOpensSealed(p, key, nonce, plain);
    assert p.decodeText(plain) == Some(TokenPayload(uuid, expireTime));
    ParsePayloadOfTokenPayload(uuid, expireTime);
  }

  // ------------------------------------------------- a lawful instance

  /** A 16-byte tag made of the nonce, cut or padded with zeros. */
  function ToyTag(nonce: bytes): (tag: bytes)
    ensures |tag| == TagSize
  {
    seq(TagSize, i requires 0 <= i < TagSize => if i < |nonce| then nonce[i] else 0)
  }

  /** A sealing that leaves the plaintext as it is and appends the tag. */
  function ToyEncrypt(key: bytes, nonce: bytes, plain: bytes, aad: bytes): bytes {
    plain + ToyTag(nonce)
  }

  function ToyDecrypt(key: bytes, nonce: bytes, sealed: bytes, aad: bytes): Option<bytes> {
    if |sealed| >= TagSize && sealed[|sealed| - TagSize..] == ToyTag(nonce) then Some(sealed[..|sealed| - TagSize])
    else None
  }

  /** Three bytes per Unicode scalar value, big-endian. */
  function ToyEncodeText(s: string): (b: bytes)
    ensures |b| == 3 * |s|
  {
    if s == [] then []
    else
      CharBytes(s[0]) + ToyEncodeText(s[1..])
  }

  function CharBytes(c: char): bytes {
    var v := c as int;
    [(v / 65536) as byte, (v % 65536 / 256) as byte, (v % 65536 % 256) as byte]
  }

  lemma CharBytesValue(c: char)
    ensures var b := CharBytes(c); b[0] as int * 65536 + b[1] as int * 256 + b[2] as int == c as int
  {
    var v := c as int;
    assert v % 65536 == v % 65536 / 256 * 256 + v % 65536 % 256;
    assert v == v / 65536 * 65536 + v % 65536;
  }

  function ToyDecodeText(b: bytes): Option<string>
    decreases |b|
  {
    if b == [] then Some([])
    else if |b| < 3 then None
    else
      var v := b[0] as int * 65536 + b[1] as int * 256 + b[2] as int;
      if !(v < 0xD800 || 0xE000 <= v < 0x11_0000) then None
      else match ToyDecodeText(b[3..])
        case None => None
        case Some(rest) => Some([v as char] + rest)
  }

  lemma {:induction false} ToyTextRoundTrip(s: string)
    ensures ToyDecodeText(ToyEncodeText(s)) == Some(s)
  {
    if s != [] {
      var b := ToyEncodeText(s);
      assert b[..3] == CharBytes(s[0]);
      CharBytesValue(s[0]);
      var v := b[0] as int * 65536 + b[1] as int * 256 + b[2] as int;
      assert v == s[0] as int;
      assert b[3..] == ToyEncodeText(s[1..]);
      ToyTextRoundTrip(s[1..]);
      assert ToyDecodeText(b) == Some([v as char] + s[1..]);
      assert [s[0]] + s[1..] == s;
    }
  }

  function ToyMd5(data: bytes): bytes {
    seq(16, _ => 0 as byte)
  }

  function Identity(raw: bytes): bytes {
    raw
  }

  function Decoded(raw: bytes): Option<bytes> {
    Some(raw)
  }

  function Toy(): Primitives {
    Primitives(ToyMd5, ToyEncrypt, ToyDecrypt, Identity, Decoded, ToyEncodeText, ToyDecodeText)
  }

  /** The laws are satisfiable: the toy primitives obey all of them. */
  lemma ToyIsLawful()
    ensures Toy().Lawful()
  {
    var p := Toy();
    forall text: string
      ensures p.decodeText(p.encodeText(text)) == Some(text)
    {
      ToyTextRoundTrip(text);
    }
    forall key: bytes, nonce: bytes, plain: bytes, aad: bytes
      ensures p.decrypt(key, nonce, p.encrypt(key, nonce, plain, aad), aad) == Some(plain)
    {
      var sealed := plain + ToyTag(nonce);
      assert sealed[|sealed| - TagSize..] == ToyTag(nonce);
      assert sealed[..|sealed| - TagSize] == plain;
    }
  }

  /** One lawful counterexample: with the toy primitives, the secret "k",
      the uuid "u" and the expiry 1, a token made as written does not
      decrypt even with the corrected decoder, which reads the first 12
      bytes of the ciphertext as the nonce and is left with fewer bytes than
      a tag. */
  lemma NoncelessTokenDoesNotRoundTrip(nonce: bytes)
    requires |nonce| == NonceSize
    ensures Toy().Lawful()
    ensures var key := Secret(Toy(), "k");
      DecryptToken(Toy(), key, MakeTokenAsWritten(Toy(), key, "u", 1, nonce)) == Err(InvalidTag)
  {
    ToyIsLawful();
    var p := Toy();
    var key := Secret(p, "k");
    SecretIsAes256Key(p, "k");
    var plain := p.encodeText(TokenHashAsWritten("u", 1));
    assert |plain| == 6;
    var raw := p.encrypt(key, nonce, plain, NoAssociatedData);
    assert |raw| == 22 && |raw[NonceEnd(raw)..]| == 10;
  }
}
