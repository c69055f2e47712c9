/** The JSON text of a `ZipCode`: the body `json.Marshal` produces for the
    front service's forward, and a decoder for that form.

    The encoder follows `encoding/json`'s string escaping: `"` and `\` are
    backslash-escaped, newline, carriage return and tab get their short
    escapes, the other control characters, the HTML-sensitive `<`, `>`,
    `&` and the separators U+2028 and U+2029 become `\u` with four
    lower-case hex digits, and every other character is written as is. */
module ZipCodeJson {

  import opened Wire

  /** The text before the code: `{"cep":"`. */
  const Prefix := "{\"cep\":\""

  /** The text after the code: `"}`. */
  const Suffix := "\"}"

  function HexDigit(d: nat): (c: char)
    requires d < 16
    ensures HexValue(c) == Some(d)
  {
    if d < 10 then ('0' as int + d) as char else ('a' as int + d - 10) as char
  }

  /** The value of a hex digit in either case. */
  function HexValue(c: char): Option<nat> {
    if '0' <= c <= '9' then Some(c as int - '0' as int)
    else if 'a' <= c <= 'f' then Some(c as int - 'a' as int + 10)
    else if 'A' <= c <= 'F' then Some(c as int - 'A' as int + 10)
    else None
  }

  /** Four hex digits, most significant first. */
  function Hex4(n: nat): (h: string)
    requires n < 0x1_0000
    ensures |h| == 4
  {
    [HexDigit(n / 0x1000), HexDigit(n % 0x1000 / 0x100), HexDigit(n % 0x100 / 0x10), HexDigit(n % 0x10)]
  }

  function ParseHex4(h: string): Option<nat>
    requires |h| == 4
  {
    match (HexValue(h[0]), HexValue(h[1]), HexValue(h[2]), HexValue(h[3]))
    case (Some(a), Some(b), Some(c), Some(d)) => Some(a * 0x1000 + b * 0x100 + c * 0x10 + d)
    case _ => None
  }

  lemma ParseHex4RoundTrip(n: nat)
    requires n < 0x1_0000
    ensures ParseHex4(Hex4(n)) == Some(n)
  {
    var a, b, c, d := n / 0x1000, n % 0x1000 / 0x100, n % 0x100 / 0x10, n % 0x10;
    assert n == a * 0x1000 + b * 0x100 + c * 0x10 + d;
  }

  /** Characters written as `\u` and four hex digits. */
  predicate NeedsHexEscape(c: char) {
    || (c < ' ' && c != '\n' && c != '\r' && c != '\t')
    || c == '<' || c == '>' || c == '&'
    || c == '\U{2028}' || c == '\U{2029}'
  }

  function EscapeChar(c: char): string {
    if c == '"' then "\\\""
    else if c == '\\' then "\\\\"
    else if c == '\n' then "\\n"
    else if c == '\r' then "\\r"
    else if c == '\t' then "\\t"
    else if NeedsHexEscape(c) then "\\u" + Hex4(c as int)
    else [c]
  }

  /** The contents of a JSON string literal holding `s`, without quotes. */
  function Escape(s: string): string {
    if |s| == 0 then "" else EscapeChar(s[0]) + Escape(s[1..])
  }

  /** Reads the escape sequence after a backslash: the character it stands
      for and how many characters it occupies. A lone surrogate is
      refused. */
  function ReadEscape(t: string): (r: Option<(char, nat)>)
    ensures r.Some? ==> 1 <= r.value.1 <= |t|
  {
    if |t| == 0 then None
    else if t[0] == '"' then Some(('"', 1))
    else if t[0] == '\\' then Some(('\\', 1))
    else if t[0] == '/' then Some(('/', 1))
    else if t[0] == 'b' then Some(('\U{8}', 1))
    else if t[0] == 'f' then Some(('\U{C}', 1))
    else if t[0] == 'n' then Some(('\n', 1))
    else if t[0] == 'r' then Some(('\r', 1))
    else if t[0] == 't' then Some(('\t', 1))
    else if t[0] == 'u' && |t| >= 5 then
      match ParseHex4(t[1..5])
      case Some(v) =>
        if 0xD800 <= v < 0xE000 then None else Some((v as char, 5))
      case None => None
    else None
  }

  /** Reads the inside of a JSON string literal up to its closing quote:
      the decoded text and what follows the quote. Raw control characters
      are refused, as JSON requires. */
  function ParseString(t: string): Option<(string, string)>
    decreases |t|
  {
    if |t| == 0 then None
    else if t[0] == '"' then Some(("", t[1..]))
    else if t[0] < ' ' then None
    else if t[0] == '\\' then
      match ReadEscape(t[1..])
      case None => None
      case Some((c, n)) =>
        match ParseString(t[1 + n..])
        case None => None
        case Some((v, rest)) => Some(([c] + v, rest))
    else
      match ParseString(t[1..])
      case None => None
      case Some((v, rest)) => Some(([t[0]] + v, rest))
  }

  /** `json.Marshal(ZipCode{cep})` */
  function EncodeZipCode(z: ZipCode): string {
    Prefix + Escape(z.cep) + Suffix
  }

  /** Decodes the compact form `{"cep":"..."}`; anything else is `None`. */
  function DecodeZipCode(body: string): Option<ZipCode> {
    if |body| >= |Prefix| && body[..|Prefix|] == Prefix then
      match ParseString(body[|Prefix|..])
      case Some((cep, rest)) => if rest == "}" then Some(ZipCode(cep)) else None
      case None => None
    else
      None
  }

  /** Reading one escaped character yields that character in front of
      whatever the rest reads as. */
  lemma ParseEscapedChar(c: char, x: string)
    ensures ParseString(EscapeChar(c) + x) ==
      match ParseString(x)
      case None => None
      case Some((v, rest)) => Some(([c] + v, rest))
  {
    var t := EscapeChar(c) + x;
    if c == '"' || c == '\\' || c == '\n' || c == '\r' || c == '\t' {
      assert t[1..][1..] == x;
      assert t[1 + 1..] == x;
    } else if NeedsHexEscape(c) {
      var h := Hex4(c as int);
      assert t == "\\u" + h + x;
      var u := t[1..];
      assert u == "u" + h + x;
      assert u[1..] == h + x;
      assert u[1..5] == (h + x)[..4] == h;
      ParseHex4RoundTrip(c as int);
      assert t[1 + 5..] == x;
    } else {
      assert t[1..] == x;
    }
  }

  /** The escaped text followed by a closing quote reads back as the
      original string, leaving what came after the quote. */
  lemma {:induction false} ParseEscaped(s: string, rest: string)
    ensures ParseString(Escape(s) + "\"" + rest) == Some((s, rest))
    decreases |s|
  {
    if |s| == 0 {
      assert Escape(s) + "\"" + rest == "\"" + rest;
      assert ("\"" + rest)[1..] == rest;
    } else {
      var x := Escape(s[1..]) + "\"" + rest;
      assert Escape(s) + "\"" + rest == EscapeChar(s[0]) + x;
      ParseEscaped(s[1..], rest);
      ParseEscapedChar(s[0], x);
      assert [s[0]] + s[1..] == s;
    }
  }

  /** Decoding the encoded body gives back the same `ZipCode`, whatever the
      code holds. */
  lemma DecodeEncode(z: ZipCode)
    ensures DecodeZipCode(EncodeZipCode(z)) == Some(z)
  {
    var body := EncodeZipCode(z);
    assert body[..|Prefix|] == Prefix;
    assert body[|Prefix|..] == Escape(z.cep) + "\"" + "}";
    ParseEscaped(z.cep, "}");
  }

  /** Digits and hyphens need no escaping. */
  lemma {:induction false} PlainTextUnescaped(s: string)
    requires forall i :: 0 <= i < |s| ==> '0' <= s[i] <= '9' || s[i] == '-'
    ensures Escape(s) == s
    decreases |s|
  {
    if |s| > 0 {
      PlainTextUnescaped(s[1..]);
      assert [s[0]] + s[1..] == s;
    }
  }
}
