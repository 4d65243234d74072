/** JSON.stringify applied to a string (QuoteJSONString of ECMAScript, in
    the form section 7 of RFC 8259 allows), and a reader for the strings it
    produces. */
module Json {
  import opened Wrappers

  const HexDigits := "0123456789abcdef"

  function HexValue(c: char): Option<nat> {
    if '0' <= c <= '9' then Some(c as int - '0' as int)
    else if 'a' <= c <= 'f' then Some(c as int - 'a' as int + 10)
    else if 'A' <= c <= 'F' then Some(c as int - 'A' as int + 10)
    else None
  }

  /** The escape JSON.stringify writes for one character. */
  function EscapeChar(c: char): (e: string)
    ensures |e| >= 1 && forall i :: 0 <= i < |e| ==> e[i] >= ' '
    ensures e[0] != '"'
    ensures |e| == 1 <==> c >= ' ' && c != '"' && c != '\\'
    ensures |e| == 1 ==> e[0] == c
  {
    if c == '\U{8}' then "\\b"
    else if c == '\t' then "\\t"
    else if c == '\n' then "\\n"
    else if c == '\U{C}' then "\\f"
    else if c == '\r' then "\\r"
    else if c == '"' then "\\\""
    else if c == '\\' then "\\\\"
    else if c < ' ' then "\\u00" + [HexDigits[c as int / 16], HexDigits[c as int % 16]]
    else [c]
  }

  function Escape(s: string): (e: string)
    ensures forall i :: 0 <= i < |e| ==> e[i] >= ' '
  {
    if s == [] then [] else EscapeChar(s[0]) + Escape(s[1..])
  }

  /** JSON.stringify of a string: quoted, and without any control character,
      so in particular without a line break. */
  function Quote(s: string): (q: string)
    ensures |q| >= 2 && q[0] == '"' && q[|q| - 1] == '"'
    ensures forall i :: 0 <= i < |q| ==> q[i] >= ' '
  {
    "\"" + Escape(s) + "\""
  }

  /** Reads the body of a JSON string literal. */
  function Unescape(t: string): Option<string>
    decreases |t|
  {
    if t == [] then Some([])
    else if t[0] == '\\' then
      if |t| < 2 then None
      else
        var c := t[1];
        var simple :=
          if c == 'b' then Some('\U{8}') else if c == 't' then Some('\t')
          else if c == 'n' then Some('\n') else if c == 'f' then Some('\U{C}')
          else if c == 'r' then Some('\r') else if c == '"' then Some('"')
          else if c == '\\' then Some('\\') else if c == '/' then Some('/')
          else None;
        if simple.Some? then
          match Unescape(t[2..])
          case Some(rest) => Some([simple.value] + rest)
          case None => None
        else if c == 'u' && |t| >= 6 then
          var a, b, d, e := HexValue(t[2]), HexValue(t[3]), HexValue(t[4]), HexValue(t[5]);
          if a.None? || b.None? || d.None? || e.None? then None
          else
            var code := ((a.value * 16 + b.value) * 16 + d.value) * 16 + e.value;
            if 0xD800 <= code < 0xE000 then None
            else
              match Unescape(t[6..])
              case Some(rest) => Some([code as char] + rest)
              case None => None
        else None
    else if t[0] == '"' || t[0] < ' ' then None
    else
      match Unescape(t[1..])
      case Some(rest) => Some([t[0]] + rest)
      case None => None
  }

  /** Reads a JSON string literal. */
  function Unquote(q: string): Option<string> {
    if |q| >= 2 && q[0] == '"' && q[|q| - 1] == '"' then Unescape(q[1..|q| - 1]) else None
  }

  lemma UnescapeChar(c: char, rest: string)
    ensures Unescape(EscapeChar(c) + rest) ==
      match Unescape(rest) case Some(r) => Some([c] + r) case None => None
  {
    var e := EscapeChar(c);
    if |e| == 1 {
      assert (e + rest)[1..] == rest;
    } else if c < ' ' && c != '\U{8}' && c != '\t' && c != '\n' && c != '\U{C}' && c != '\r' {
      UnescapeHex(c, rest);
    } else {
      assert (e + rest)[2..] == rest;
    }
  }

  /** The \u00XX escape of a control character without a short escape. */
  lemma UnescapeHex(c: char, rest: string)
    requires c < ' ' && c != '\U{8}' && c != '\t' && c != '\n' && c != '\U{C}' && c != '\r'
    ensures Unescape(EscapeChar(c) + rest) ==
      match Unescape(rest) case Some(r) => Some([c] + r) case None => None
  {
    var hi, lo := c as int / 16, c as int % 16;
    var t := "\\u00" + [HexDigits[hi], HexDigits[lo]] + rest;
    assert EscapeChar(c) + rest == t;
    assert t[6..] == rest;
    assert t[0] == '\\' && t[1] == 'u';
    assert HexValue(t[2]) == Some(0) && HexValue(t[3]) == Some(0);
    assert HexValue(t[4]) == Some(hi) && HexValue(t[5]) == Some(lo);
    assert ((0 * 16 + 0) * 16 + hi) * 16 + lo == c as int;
  }

  lemma {:induction false} UnescapeEscape(s: string)
    ensures Unescape(Escape(s)) == Some(s)
  {
    if s != [] {
      UnescapeEscape(s[1..]);
      UnescapeChar(s[0], Escape(s[1..]));
      assert [s[0]] + s[1..] == s;
    }
  }

  /** The quoted text reads back as the original string. */
  lemma UnquoteQuote(s: string)
    ensures Unquote(Quote(s)) == Some(s)
  {
    var q := Quote(s);
    assert q[1..|q| - 1] == Escape(s);
    UnescapeEscape(s);
  }

  /** Quoting is injective: different strings give different cells. */
  lemma QuoteInjective(s: string, t: string)
    requires Quote(s) == Quote(t)
    ensures s == t
  {
    UnquoteQuote(s);
    UnquoteQuote(t);
  }
}
