/**
 * The stored form of a comment: `JSON.stringify` of `{ id, date, author, content }`, and a decoder for
 * that form. Strings are escaped as ECMAScript's `QuoteJSONString` escapes them: `"` and `\` with a
 * backslash, backspace, tab, newline, form feed and carriage return by letter, every other control
 * character as `\u00xx` in lower-case hex. Characters are Unicode scalar values, so the lone-surrogate
 * case of `QuoteJSONString` does not arise.
 */
module CommentJson {
  import opened Wrappers
  import Strings

  datatype CommentData = CommentData(id: string, date: int, author: string, content: string)

  function HexDigit(d: nat): (c: char)
    requires d < 16
    ensures IsHexDigit(c) && HexValue(c) == d
  {
    "0123456789abcdef"[d]
  }

  predicate IsHexDigit(c: char) {
    ('0' <= c <= '9') || ('a' <= c <= 'f') || ('A' <= c <= 'F')
  }

  function HexValue(c: char): (v: nat)
    requires IsHexDigit(c)
    ensures v < 16
  {
    if '0' <= c <= '9' then c as int - '0' as int
    else if 'a' <= c <= 'f' then c as int - 'a' as int + 10
    else c as int - 'A' as int + 10
  }

  /** The escape of one character inside a JSON string. */
  function EscapeChar(c: char): (r: string)
    ensures |r| >= 1
    ensures r[0] != '"' && (r[0] as int) >= 0x20
    ensures |r| == 1 <==> r == [c]
  {
    if c == '"' then "\\\""
    else if c == '\\' then "\\\\"
    else if c == '\U{8}' then "\\b"
    else if c == '\t' then "\\t"
    else if c == '\n' then "\\n"
    else if c == '\U{C}' then "\\f"
    else if c == '\r' then "\\r"
    else if (c as int) < 0x20 then "\\u00" + [HexDigit(c as int / 16), HexDigit(c as int % 16)]
    else [c]
  }

  /** The body of a JSON string literal for `s`. */
  function Escape(s: string): (r: string)
    ensures |r| >= |s|
  {
    if |s| == 0 then "" else EscapeChar(s[0]) + Escape(s[1..])
  }

  /** The escape sequence at the head of `s`: the character it stands for and how many characters it spans. */
  function UnescapeAt(s: string): (r: Option<(char, nat)>)
    requires |s| >= 2 && s[0] == '\\'
    ensures r.Some? ==> 2 <= r.value.1 <= |s|
  {
    match s[1]
    case '"' => Some(('"', 2))
    case '\\' => Some(('\\', 2))
    case '/' => Some(('/', 2))
    case 'b' => Some(('\U{8}', 2))
    case 't' => Some(('\t', 2))
    case 'n' => Some(('\n', 2))
    case 'f' => Some(('\U{C}', 2))
    case 'r' => Some(('\r', 2))
    case 'u' =>
      if |s| >= 6 && IsHexDigit(s[2]) && IsHexDigit(s[3]) && IsHexDigit(s[4]) && IsHexDigit(s[5]) then
        var v := ((HexValue(s[2]) * 16 + HexValue(s[3])) * 16 + HexValue(s[4])) * 16 + HexValue(s[5]);
        if v < 0xD800 || 0xE000 <= v then Some((v as char, 6)) else None
      else None
    case _ => None
  }

  /** `c` in front of a parsed string, if there was one. */
  function Prepend(c: char, o: Option<(string, string)>): Option<(string, string)> {
    if o.None? then None else Some(([c] + o.value.0, o.value.1))
  }

  /**
   * The body of a JSON string literal at the head of `s`, up to and including its closing quote:
   * the string it denotes and what follows. Raw control characters are rejected, as JSON requires.
   */
  function ParseStringBody(s: string): (r: Option<(string, string)>)
    ensures r.Some? ==> |r.value.1| < |s|
    decreases |s|
  {
    if |s| == 0 then None
    else if s[0] == '"' then Some(("", s[1..]))
    else if s[0] == '\\' then
      if |s| < 2 then None
      else
        var u := UnescapeAt(s);
        if u.None? then None else Prepend(u.value.0, ParseStringBody(s[u.value.1..]))
    else if (s[0] as int) < 0x20 then None
    else Prepend(s[0], ParseStringBody(s[1..]))
  }

  lemma EscapeCharParses(c: char, t: string)
    ensures ParseStringBody(EscapeChar(c) + t) == Prepend(c, ParseStringBody(t))
  {
    if (c as int) < 0x20 && !(c in {'\U{8}', '\t', '\n', '\U{C}', '\r'}) {
      HexEscapeParses(c, t);
    } else {
      var e := EscapeChar(c);
      assert (e + t)[|e|..] == t;
    }
  }

  /** A control character without a letter escape is read back from its `\u00xx` form. */
  lemma HexEscapeParses(c: char, t: string)
    requires (c as int) < 0x20 && !(c in {'\U{8}', '\t', '\n', '\U{C}', '\r'})
    ensures ParseStringBody(EscapeChar(c) + t) == Prepend(c, ParseStringBody(t))
  {
    var e := EscapeChar(c);
    assert (e + t)[6..] == t;
    var hi, lo := c as int / 16, c as int % 16;
    assert (e + t)[..6] == ['\\', 'u', '0', '0', HexDigit(hi), HexDigit(lo)];
    assert UnescapeAt(e + t) == Some((c, 6));
  }

  /** The decoder reads back exactly the string the encoder escaped, and leaves what follows the closing quote. */
  lemma {:induction false} EscapeParses(x: string, rest: string)
    ensures ParseStringBody(Escape(x) + "\"" + rest) == Some((x, rest))
    decreases |x|
  {
    if |x| == 0 {
      assert Escape(x) + "\"" + rest == ['"'] + rest;
    } else {
      EscapeParses(x[1..], rest);
      EscapeConsShape(x, rest);
      EscapeCharParses(x[0], Escape(x[1..]) + "\"" + rest);
      assert [x[0]] + x[1..] == x;
    }
  }

  lemma EscapeConsShape(x: string, rest: string)
    requires |x| > 0
    ensures Escape(x) + "\"" + rest == EscapeChar(x[0]) + (Escape(x[1..]) + "\"" + rest)
  {
    Regroup(EscapeChar(x[0]), Escape(x[1..]), "\"", rest);
  }

  /** The longest prefix of `s` made of decimal digits. */
  function TakeDigits(s: string): (d: string)
    ensures Strings.AllDigits(d) && |d| <= |s| && d == s[..|d|]
    ensures |d| < |s| ==> !Strings.IsDigit(s[|d|])
  {
    if |s| == 0 || !Strings.IsDigit(s[0]) then "" else [s[0]] + TakeDigits(s[1..])
  }

  lemma {:induction false} TakeDigitsStops(d: string, rest: string)
    requires Strings.AllDigits(d)
    requires |rest| == 0 || !Strings.IsDigit(rest[0])
    ensures TakeDigits(d + rest) == d
    decreases |d|
  {
    if |d| > 0 {
      TakeDigitsStops(d[1..], rest);
      assert (d + rest)[1..] == d[1..] + rest;
    } else {
      assert d + rest == rest;
    }
  }

  /** A run of digits at the head of `s`: the number and what follows. */
  function ParseNat(s: string): (r: Option<(nat, string)>)
    ensures r.Some? ==> |r.value.1| < |s|
  {
    var d := TakeDigits(s);
    if |d| == 0 then None else Some((Strings.DigitsToNat(d), s[|d|..]))
  }

  /** An optional `-` and a run of digits at the head of `s`: the integer and what follows. */
  function ParseInt(s: string): (r: Option<(int, string)>)
    ensures r.Some? ==> |r.value.1| < |s|
  {
    if |s| > 0 && s[0] == '-' then
      var m := ParseNat(s[1..]);
      if m.None? then None else Some((-(m.value.0 as int), m.value.1))
    else
      var m := ParseNat(s);
      if m.None? then None else Some((m.value.0 as int, m.value.1))
  }

  /** A run of digits that is not followed by another digit reads as its value. */
  lemma DigitsParse(d: string, rest: string)
    requires |d| > 0 && Strings.AllDigits(d)
    requires |rest| == 0 || !Strings.IsDigit(rest[0])
    ensures ParseNat(d + rest) == Some((Strings.DigitsToNat(d), rest))
  {
    TakeDigitsStops(d, rest);
    assert (d + rest)[|d|..] == rest;
  }

  /** The decoder reads back the integer the encoder printed when no digit follows it. */
  lemma IntParses(n: int, rest: string)
    requires |rest| > 0 && !Strings.IsDigit(rest[0])
    ensures ParseInt(Strings.IntToString(n) + rest) == Some((n, rest))
  {
    if n < 0 {
      NegativeParses(n, rest);
    } else {
      NonNegativeParses(n, rest);
    }
  }

  lemma NegativeParses(n: int, rest: string)
    requires n < 0 && |rest| > 0 && !Strings.IsDigit(rest[0])
    ensures ParseInt(Strings.IntToString(n) + rest) == Some((n, rest))
  {
    var m: nat := -n;
    NatParses(m, rest);
    NegativeShape(n, rest);
    MinusParses(Strings.IntToString(n) + rest, Strings.NatToString(m) + rest, n, rest);
  }

  lemma MinusParses(s: string, t: string, n: int, rest: string)
    requires n < 0 && s == "-" + t && ParseNat(t) == Some(((-n) as nat, rest))
    ensures ParseInt(s) == Some((n, rest))
  {
    ParseAfterMinus(t);
  }

  /** A printed natural number followed by a non-digit reads back as that number. */
  lemma NatParses(m: nat, rest: string)
    requires |rest| > 0 && !Strings.IsDigit(rest[0])
    ensures ParseNat(Strings.NatToString(m) + rest) == Some((m, rest))
  {
    DigitsParse(Strings.NatToString(m), rest);
    Strings.NatToStringRoundTrip(m);
  }

  lemma NegativeShape(n: int, rest: string)
    requires n < 0
    ensures Strings.IntToString(n) + rest == "-" + (Strings.NatToString(-n) + rest)
  {
  }

  /** After a `-`, the integer is the negated number the digits give. */
  lemma ParseAfterMinus(t: string)
    requires ParseNat(t).Some?
    ensures ParseInt("-" + t) == Some((-(ParseNat(t).value.0 as int), ParseNat(t).value.1))
  {
    var s := "-" + t;
    assert s[0] == '-' && s[1..] == t;
  }

  lemma NonNegativeParses(n: int, rest: string)
    requires n >= 0 && |rest| > 0 && !Strings.IsDigit(rest[0])
    ensures ParseInt(Strings.IntToString(n) + rest) == Some((n, rest))
  {
    var digits := Strings.NatToString(n);
    Strings.NatToStringRoundTrip(n);
    DigitsParse(digits, rest);
    assert digits[0] != '-';
  }

  /** `s` with the literal `lit` removed from its head, if it starts with it. */
  function Expect(lit: string, s: string): (r: Option<string>)
    ensures r.Some? <==> Strings.StartsWith(s, lit)
    ensures r.Some? ==> s == lit + r.value
  {
    if Strings.StartsWith(s, lit) then
      assert s == s[..|lit|] + s[|lit|..];
      Some(s[|lit|..])
    else None
  }

  lemma ExpectLiteral(lit: string, rest: string)
    ensures Expect(lit, lit + rest) == Some(rest)
  {
    assert (lit + rest)[..|lit|] == lit;
  }

  const IdOpen := "{\"id\":\""
  const DateOpen := ",\"date\":"
  const AuthorOpen := ",\"author\":\""
  const ContentOpen := ",\"content\":\""
  const Close := "}"

  function EncodeContent(content: string): string {
    ContentOpen + Escape(content) + "\"" + Close
  }

  function EncodeAuthor(author: string, content: string): string {
    AuthorOpen + Escape(author) + "\"" + EncodeContent(content)
  }

  function EncodeDate(date: int, author: string, content: string): string {
    DateOpen + Strings.IntToString(date) + EncodeAuthor(author, content)
  }

  /** `JSON.stringify(comment)`, with the fields in the order the object literal declares them. */
  function Encode(c: CommentData): string {
    IdOpen + Escape(c.id) + "\"" + EncodeDate(c.date, c.author, c.content)
  }

  /** `,"content":"…"}` and nothing after it. */
  function ReadContent(s: string): Option<string> {
    var s1 := Expect(ContentOpen, s);
    if s1.None? then None else
    var content := ParseStringBody(s1.value);
    if content.None? || content.value.1 != Close then None else Some(content.value.0)
  }

  /** `,"author":"…"` followed by the content field. */
  function ReadAuthor(s: string): Option<(string, string)> {
    var s1 := Expect(AuthorOpen, s);
    if s1.None? then None else
    var author := ParseStringBody(s1.value);
    if author.None? then None else
    var content := ReadContent(author.value.1);
    if content.None? then None else Some((author.value.0, content.value))
  }

  /** `,"date":<integer>` followed by the author and content fields. */
  function ReadDate(s: string): Option<(int, string, string)> {
    var s1 := Expect(DateOpen, s);
    if s1.None? then None else
    var date := ParseInt(s1.value);
    if date.None? then None else
    var rest := ReadAuthor(date.value.1);
    if rest.None? then None else Some((date.value.0, rest.value.0, rest.value.1))
  }

  /** The comment a stored string encodes, when it has the form `Encode` produces. */
  function Decode(text: string): (r: Option<CommentData>)
  {
    var s1 := Expect(IdOpen, text);
    if s1.None? then None else
    var id := ParseStringBody(s1.value);
    if id.None? then None else
    var rest := ReadDate(id.value.1);
    if rest.None? then None else Some(CommentData(id.value.0, rest.value.0, rest.value.1, rest.value.2))
  }

  lemma ReadContentEncoded(content: string)
    ensures ReadContent(EncodeContent(content)) == Some(content)
  {
    ExpectLiteral(ContentOpen, Escape(content) + "\"" + Close);
    assert EncodeContent(content) == ContentOpen + (Escape(content) + "\"" + Close);
    EscapeParses(content, Close);
  }

  lemma ReadAuthorEncoded(author: string, content: string)
    ensures ReadAuthor(EncodeAuthor(author, content)) == Some((author, content))
  {
    var tail := EncodeContent(content);
    assert EncodeAuthor(author, content) == AuthorOpen + (Escape(author) + "\"" + tail);
    ExpectLiteral(AuthorOpen, Escape(author) + "\"" + tail);
    EscapeParses(author, tail);
    ReadContentEncoded(content);
  }

  lemma ReadDateEncoded(date: int, author: string, content: string)
    ensures ReadDate(EncodeDate(date, author, content)) == Some((date, author, content))
  {
    var tail := EncodeAuthor(author, content);
    DateShape(date, author, content);
    ExpectLiteral(DateOpen, Strings.IntToString(date) + tail);
    IntParses(date, tail);
    ReadAuthorEncoded(author, content);
  }

  lemma DateShape(date: int, author: string, content: string)
    ensures EncodeDate(date, author, content) == DateOpen + (Strings.IntToString(date) + EncodeAuthor(author, content))
    ensures |EncodeAuthor(author, content)| > 0 && !Strings.IsDigit(EncodeAuthor(author, content)[0])
  {
    assert EncodeAuthor(author, content)[0] == ',';
  }

  lemma IdShape(c: CommentData)
    ensures Encode(c) == IdOpen + (Escape(c.id) + "\"" + EncodeDate(c.date, c.author, c.content))
  {
    Regroup(IdOpen, Escape(c.id), "\"", EncodeDate(c.date, c.author, c.content));
  }

  lemma Regroup(a: string, b: string, c: string, d: string)
    ensures a + b + c + d == a + (b + c + d)
  {
  }

  /** Every comment the handler stores is read back unchanged. */
  lemma DecodeEncode(c: CommentData)
    ensures Decode(Encode(c)) == Some(c)
  {
    var tail := EncodeDate(c.date, c.author, c.content);
    IdShape(c);
    ExpectLiteral(IdOpen, Escape(c.id) + "\"" + tail);
    EscapeParses(c.id, tail);
    ReadDateEncoded(c.date, c.author, c.content);
  }
}
