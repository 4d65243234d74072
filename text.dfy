/** Character classes, trimming, joining and splitting, and integer text: the
    pieces of JavaScript's string library that the modelled code relies on. */
module Text {
  import opened Wrappers

  /** The class of the regular-expression escape \d: ASCII digits only. */
  predicate IsDigit(c: char) {
    '0' <= c <= '9'
  }

  /** ECMAScript WhiteSpace and LineTerminator code points: what
      String.prototype.trim removes and what the escape \s matches. */
  predicate IsJsSpace(c: char) {
    || c == '\t' || c == '\n' || c == '\U{B}' || c == '\U{C}' || c == '\r'
    || c == ' ' || c == '\U{A0}' || c == '\U{1680}'
    || ('\U{2000}' <= c <= '\U{200A}')
    || c == '\U{2028}' || c == '\U{2029}' || c == '\U{202F}' || c == '\U{205F}'
    || c == '\U{3000}' || c == '\U{FEFF}'
  }

  predicate AllDigits(s: string) {
    forall i :: 0 <= i < |s| ==> IsDigit(s[i])
  }

  predicate IsBlank(s: string) {
    forall i :: 0 <= i < |s| ==> IsJsSpace(s[i])
  }

  function DigitValue(c: char): (d: nat)
    requires IsDigit(c)
    ensures d < 10
  {
    (c as int) - ('0' as int)
  }

  function DigitChar(d: nat): (c: char)
    requires d < 10
    ensures IsDigit(c) && DigitValue(c) == d
  {
    ('0' as int + d) as char
  }

  function Pow10(n: nat): (p: nat)
    ensures p >= 1
  {
    if n == 0 then 1 else 10 * Pow10(n - 1)
  }

  /** The value of a string of decimal digits, most significant first. */
  function DigitsValue(s: string): (v: nat)
    requires AllDigits(s)
    ensures v < Pow10(|s|)
  {
    if s == [] then 0 else DigitsValue(s[..|s| - 1]) * 10 + DigitValue(s[|s| - 1])
  }

  // ---------------------------------------------------------------------
  // String.prototype.trim

  function TrimStart(s: string): (t: string)
    ensures |t| <= |s|
    ensures t == [] || !IsJsSpace(t[0])
    decreases |s|
  {
    if |s| > 0 && IsJsSpace(s[0]) then TrimStart(s[1..]) else s
  }

  /** TrimStart(s) is the suffix of s from some offset a, with only white
      space before it. */
  lemma {:induction false} TrimStartAt(s: string) returns (a: nat)
    ensures a <= |s| && TrimStart(s) == s[a..] && IsBlank(s[..a])
    decreases |s|
  {
    if |s| > 0 && IsJsSpace(s[0]) {
      var b := TrimStartAt(s[1..]);
      a := b + 1;
      assert s[1..][b..] == s[a..];
      assert forall i :: 1 <= i < a ==> s[..a][i] == s[1..][..b][i - 1];
    } else {
      a := 0;
    }
  }

  function TrimEnd(s: string): (t: string)
    ensures |t| <= |s|
    ensures t == [] || !IsJsSpace(t[|t| - 1])
    decreases |s|
  {
    if |s| > 0 && IsJsSpace(s[|s| - 1]) then TrimEnd(s[..|s| - 1]) else s
  }

  /** TrimEnd(s) is a prefix of s, with only white space after it. */
  lemma {:induction false} TrimEndAt(s: string)
    ensures TrimEnd(s) == s[..|TrimEnd(s)|] && IsBlank(s[|TrimEnd(s)|..])
    decreases |s|
  {
    if |s| > 0 && IsJsSpace(s[|s| - 1]) {
      var u := s[..|s| - 1];
      var t := TrimEnd(u);
      TrimEndAt(u);
      assert u[..|t|] == s[..|t|];
      assert s[|t|..] == u[|t|..] + [s[|s| - 1]];
    }
  }

  predicate IsTrimmed(t: string) {
    t == [] || (!IsJsSpace(t[0]) && !IsJsSpace(t[|t| - 1]))
  }

  /** String.prototype.trim: the infix of s left after removing leading and
      trailing white space. */
  function Trim(s: string): (t: string)
    ensures |t| <= |s| && IsTrimmed(t)
  {
    var u := TrimStart(s);
    var t := TrimEnd(u);
    TrimEndAt(u);
    assert t != [] ==> t[0] == u[0];
    t
  }

  /** What Trim removes is white space on both sides: the lemma gives the
      position a where the trimmed text starts. */
  lemma TrimInfix(s: string) returns (a: nat)
    ensures a + |Trim(s)| <= |s| && s[a..a + |Trim(s)|] == Trim(s)
    ensures IsBlank(s[..a]) && IsBlank(s[a + |Trim(s)|..])
  {
    a := TrimStartAt(s);
    TrimEndAt(TrimStart(s));
    TrimOfStart(s);
    BlankAround(s, a, TrimStart(s), TrimEnd(TrimStart(s)), Trim(s));
  }

  lemma TrimOfStart(s: string)
    ensures Trim(s) == TrimEnd(TrimStart(s))
  {
  }

  /** If u is the suffix of s from a, t a prefix of u, and the text after t
      in u is blank, then t (alias r) sits in s at a before a blank piece. */
  lemma BlankAround(s: string, a: nat, u: string, t: string, r: string)
    requires a <= |s| && u == s[a..]
    requires |t| <= |u| && t == u[..|t|] && IsBlank(u[|t|..]) && r == t
    ensures a + |r| <= |s| && s[a..a + |r|] == r && IsBlank(s[a + |r|..])
  {
    assert s[a..][..|t|] == s[a..a + |t|];
    assert s[a..][|t|..] == s[a + |t|..];
  }

  lemma {:induction false} TrimStartPadded(w: string, t: string)
    requires IsBlank(w) && (t == [] || !IsJsSpace(t[0]))
    ensures TrimStart(w + t) == t
    decreases |w|
  {
    if w != [] {
      assert (w + t)[1..] == w[1..] + t;
      TrimStartPadded(w[1..], t);
    }
  }

  lemma {:induction false} TrimEndPadded(t: string, w: string)
    requires IsBlank(w) && (t == [] || !IsJsSpace(t[|t| - 1]))
    ensures TrimEnd(t + w) == t
    decreases |w|
  {
    if w != [] {
      assert (t + w)[..|t + w| - 1] == t + w[..|w| - 1];
      TrimEndPadded(t, w[..|w| - 1]);
    }
  }

  /** Trimming removes exactly the surrounding white space: together with the
      contract of Trim this determines Trim(s) for every s. */
  lemma TrimPadded(w1: string, t: string, w2: string)
    requires IsBlank(w1) && IsBlank(w2) && IsTrimmed(t)
    ensures Trim(w1 + t + w2) == t
  {
    assert w1 + t + w2 == w1 + (t + w2);
    if t == [] {
      assert w1 + t + w2 == (w1 + w2) + [];
      TrimStartPadded(w1 + w2, []);
    } else {
      TrimStartPadded(w1, t + w2);
      TrimEndPadded(t, w2);
    }
  }

  lemma TrimIdempotent(s: string)
    ensures Trim(Trim(s)) == Trim(s)
  {
    TrimPadded([], Trim(s), []);
    assert [] + Trim(s) + [] == Trim(s);
  }

  // ---------------------------------------------------------------------
  // Array.prototype.join and String.prototype.split with a one-character separator

  function Join(parts: seq<string>, sep: string): string {
    if |parts| == 0 then ""
    else if |parts| == 1 then parts[0]
    else parts[0] + sep + Join(parts[1..], sep)
  }

  /** A character in neither the parts nor the separator is not in their join. */
  lemma {:induction false} JoinAvoids(parts: seq<string>, sep: string, c: char)
    requires c !in sep && forall i :: 0 <= i < |parts| ==> c !in parts[i]
    ensures c !in Join(parts, sep)
    decreases |parts|
  {
    if |parts| >= 2 {
      JoinAvoids(parts[1..], sep, c);
    }
  }

  function SplitOn(s: string, c: char): (parts: seq<string>)
    ensures |parts| >= 1
    decreases |s|
  {
    if |s| == 0 then [""]
    else
      var rest := SplitOn(s[1..], c);
      if s[0] == c then [""] + rest else [[s[0]] + rest[0]] + rest[1..]
  }

  lemma {:induction false} SplitNoSeparator(a: string, c: char, rest: string)
    requires c !in a
    ensures SplitOn(a + rest, c) == [a + SplitOn(rest, c)[0]] + SplitOn(rest, c)[1..]
    decreases |a|
  {
    if a != [] {
      assert (a + rest)[1..] == a[1..] + rest;
      SplitNoSeparator(a[1..], c, rest);
      assert [a[0]] + (a[1..] + SplitOn(rest, c)[0]) == a + SplitOn(rest, c)[0];
    } else {
      assert a + rest == rest;
      var r := SplitOn(rest, c);
      assert a + r[0] == r[0];
      assert r == [r[0]] + r[1..];
    }
  }

  /** Splitting a join on its (one-character) separator gives the parts back,
      as long as no part contains the separator. */
  lemma {:induction false} SplitJoin(parts: seq<string>, c: char)
    requires |parts| >= 1
    requires forall i :: 0 <= i < |parts| ==> c !in parts[i]
    ensures SplitOn(Join(parts, [c]), c) == parts
    decreases |parts|
  {
    if |parts| == 1 {
      SplitNoSeparator(parts[0], c, "");
      assert parts[0] + "" == parts[0];
    } else {
      var tail := Join(parts[1..], [c]);
      assert Join(parts, [c]) == parts[0] + ([c] + tail);
      SplitNoSeparator(parts[0], c, [c] + tail);
      assert ([c] + tail)[1..] == tail;
      SplitJoin(parts[1..], c);
      assert SplitOn([c] + tail, c) == [""] + parts[1..];
      assert parts[0] + "" == parts[0];
      assert parts == [parts[0]] + parts[1..];
    }
  }

  // ---------------------------------------------------------------------
  // Decimal text of integers (what a template literal prints for an integral Number)

  function NatText(n: nat): (s: string)
    ensures |s| >= 1 && AllDigits(s)
    ensures |s| > 1 ==> s[0] != '0'
    decreases n
  {
    if n < 10 then [DigitChar(n)] else NatText(n / 10) + [DigitChar(n % 10)]
  }

  function IntText(n: int): (s: string)
  {
    if n < 0 then "-" + NatText(-n) else NatText(n)
  }

  /** Reads back an optionally negative run of digits. */
  function ParseIntText(s: string): Option<int> {
    if |s| >= 2 && s[0] == '-' && AllDigits(s[1..]) then Some(-(DigitsValue(s[1..]) as int))
    else if |s| >= 1 && AllDigits(s) then Some(DigitsValue(s))
    else None
  }

  lemma {:induction false} NatTextValue(n: nat)
    ensures DigitsValue(NatText(n)) == n
    decreases n
  {
    if n >= 10 {
      NatTextValue(n / 10);
      var s := NatText(n);
      assert s[..|s| - 1] == NatText(n / 10);
    }
  }

  lemma IntTextRoundTrip(n: int)
    ensures ParseIntText(IntText(n)) == Some(n)
  {
    if n < 0 {
      NegativeTextRoundTrip(-n);
    } else {
      NatTextValue(n);
    }
  }

  lemma NegativeTextRoundTrip(m: nat)
    ensures ParseIntText("-" + NatText(m)) == Some(-(m as int))
  {
    var s := "-" + NatText(m);
    assert s[1..] == NatText(m);
    NatTextValue(m);
  }
}
