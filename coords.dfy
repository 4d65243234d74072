/** parseMaybeCoords (app.js and server/server.js hold the same function):
    trimmed text of the shape -?\d+(\.\d+)?\s*,\s*-?\d+(\.\d+)? with both
    numbers in range gives a latitude/longitude pair, anything else null.
    Numbers are exact decimals here, not binary floating point. */
module Coords {
  import opened Wrappers
  import opened Text

  datatype LatLon = LatLon(lat: real, lon: real)

  function Abs(x: real): real {
    if x < 0.0 then -x else x
  }

  /** The range check made after the match: |lat| <= 90 and |lon| <= 180. */
  predicate InBounds(lat: real, lon: real) {
    Abs(lat) <= 90.0 && Abs(lon) <= 180.0
  }

  // ---------------------------------------------------------------------
  // Declarative form of the pattern

  /** Index of the first '.', or |s| when there is none. */
  function DotIndex(s: string): (k: nat)
    ensures k <= |s| && (k < |s| ==> s[k] == '.')
    ensures forall m :: 0 <= m < k ==> s[m] != '.'
  {
    if s == [] || s[0] == '.' then 0 else 1 + DotIndex(s[1..])
  }

  /** \d+(\.\d+)? : digits up to the first dot, and if there is a dot,
      digits after it. */
  predicate IsUnsignedDecimal(s: string) {
    var k := DotIndex(s);
    0 < k && AllDigits(s[..k]) && (k == |s| || (k + 1 < |s| && AllDigits(s[k + 1..])))
  }

  /** -?\d+(\.\d+)? */
  predicate IsNumeral(s: string) {
    IsUnsignedDecimal(s) || (|s| > 0 && s[0] == '-' && IsUnsignedDecimal(s[1..]))
  }

  /** The whole text t, cut at a, b and c, is numeral, blank, ',', blank, numeral:
      t[..a] and t[c..] are the numbers and t[b] is the comma. */
  predicate CoordSplit(t: string, a: nat, b: nat, c: nat) {
    && a <= b < c <= |t|
    && IsNumeral(t[..a])
    && IsBlank(t[a..b])
    && t[b] == ','
    && IsBlank(t[b + 1..c])
    && IsNumeral(t[c..])
  }

  /** parseFloat of an unsigned decimal numeral, as an exact rational. */
  function UnsignedValue(s: string): real
    requires IsUnsignedDecimal(s)
  {
    var k := DotIndex(s);
    DigitsValue(s[..k]) as real
      + (if k == |s| then 0.0 else DigitsValue(s[k + 1..]) as real / Pow10(|s| - k - 1) as real)
  }

  function NumeralValue(s: string): real
    requires IsNumeral(s)
  {
    if s[0] == '-' then -UnsignedValue(s[1..]) else UnsignedValue(s)
  }

  /** The digits before the point are the integer part: the fraction is below one. */
  lemma UnsignedValueBounds(s: string)
    requires IsUnsignedDecimal(s)
    ensures DigitsValue(s[..DotIndex(s)]) as real <= UnsignedValue(s)
    ensures UnsignedValue(s) < DigitsValue(s[..DotIndex(s)]) as real + 1.0
  {
    var k := DotIndex(s);
    if k < |s| {
      FractionBelowOne(DigitsValue(s[k + 1..]), Pow10(|s| - k - 1));
    }
  }

  lemma FractionBelowOne(f: nat, p: nat)
    requires f < p
    ensures 0.0 <= f as real / p as real < 1.0
  {
    var q := f as real / p as real;
    assert q * p as real == f as real;
  }

  // ---------------------------------------------------------------------
  // The scanner

  /** The end of the longest run of characters satisfying p from position i. */
  function Span(t: string, i: nat, p: char -> bool): (j: nat)
    requires i <= |t|
    ensures i <= j <= |t| && (j == |t| || !p(t[j]))
    decreases |t| - i
  {
    if i < |t| && p(t[i]) then Span(t, i + 1, p) else i
  }

  /** Every character Span passes over satisfies p. */
  lemma {:induction false} SpanAll(t: string, i: nat, p: char -> bool)
    requires i <= |t|
    ensures forall m :: i <= m < Span(t, i, p) ==> p(t[m])
    decreases |t| - i
  {
    if i < |t| && p(t[i]) {
      SpanAll(t, i + 1, p);
    }
  }

  lemma {:induction false} SpanExact(t: string, i: nat, j: nat, p: char -> bool)
    requires i <= j <= |t| && (j == |t| || !p(t[j]))
    requires forall m :: i <= m < j ==> p(t[m])
    ensures Span(t, i, p) == j
    decreases j - i
  {
    if i < j {
      SpanExact(t, i + 1, j, p);
    }
  }

  /** Scans \d+(\.\d+)? from position i and gives the end position. */
  function ScanUnsigned(t: string, i: nat): (r: Option<nat>)
    requires i <= |t|
    ensures r.Some? ==> i < r.value <= |t|
  {
    var j := Span(t, i, IsDigit);
    if j == i then None
    else if j + 1 < |t| && t[j] == '.' && IsDigit(t[j + 1]) then Some(Span(t, j + 1, IsDigit))
    else Some(j)
  }

  /** Scans -?\d+(\.\d+)? from position i and gives the end position. */
  function ScanNumeral(t: string, i: nat): (r: Option<nat>)
    requires i <= |t|
    ensures r.Some? ==> i < r.value <= |t|
  {
    if i < |t| && t[i] == '-' then ScanUnsigned(t, i + 1) else ScanUnsigned(t, i)
  }

  /** The scan of the whole pattern: the cut points a, b, c of CoordSplit. */
  function ScanCoords(t: string): Option<(nat, nat, nat)> {
    match ScanNumeral(t, 0)
    case None => None
    case Some(a) => ScanAfterFirst(t, a)
  }

  /** The rest of the scan once the first number ends at a. */
  function ScanAfterFirst(t: string, a: nat): Option<(nat, nat, nat)>
    requires a <= |t|
  {
    var b := Span(t, a, IsJsSpace);
    if b < |t| && t[b] == ',' then
      var c := Span(t, b + 1, IsJsSpace);
      if ScanNumeral(t, c) == Some(|t|) then Some((a, b, c)) else None
    else None
  }

  lemma {:induction false} DotIndexAt(s: string, k: nat)
    requires k <= |s| && (k < |s| ==> s[k] == '.')
    requires forall m :: 0 <= m < k ==> s[m] != '.'
    ensures DotIndex(s) == k
  {
    if k > 0 {
      DotIndexAt(s[1..], k - 1);
    }
  }

  lemma ScanUnsignedSound(t: string, i: nat)
    requires i <= |t| && ScanUnsigned(t, i).Some?
    ensures i < ScanUnsigned(t, i).value <= |t|
    ensures IsUnsignedDecimal(t[i..ScanUnsigned(t, i).value])
  {
    var j := Span(t, i, IsDigit);
    var e := ScanUnsigned(t, i).value;
    var s := t[i..e];
    SpanAll(t, i, IsDigit);
    if e == j {
      DigitsSlice(t, i, j);
      DotIndexAt(s, |s|);
      assert s[..|s|] == s;
    } else {
      assert t[j] == '.' && e == Span(t, j + 1, IsDigit);
      SpanAll(t, j + 1, IsDigit);
      DigitsSlice(t, i, j);
      DigitsSlice(t, j + 1, e);
      assert s[..j - i] == t[i..j];
      assert s[j - i + 1..] == t[j + 1..e];
      DotIndexAt(s, j - i);
    }
  }

  /** A run of digits contains no '.'. */
  lemma DigitsSlice(t: string, i: nat, j: nat)
    requires i <= j <= |t| && forall m :: i <= m < j ==> IsDigit(t[m])
    ensures AllDigits(t[i..j]) && forall m :: 0 <= m < j - i ==> t[i..j][m] != '.'
  {
    forall m | 0 <= m < j - i ensures IsDigit(t[i..j][m]) {
      assert t[i..j][m] == t[i + m];
    }
  }

  lemma ScanNumeralSound(t: string, i: nat)
    requires i <= |t| && ScanNumeral(t, i).Some?
    ensures i < ScanNumeral(t, i).value <= |t|
    ensures IsNumeral(t[i..ScanNumeral(t, i).value])
  {
    var e := ScanNumeral(t, i).value;
    if i < |t| && t[i] == '-' {
      ScanUnsignedSound(t, i + 1);
      assert t[i..e][1..] == t[i + 1..e];
    } else {
      ScanUnsignedSound(t, i);
    }
  }

  lemma ScanUnsignedComplete(t: string, i: nat, e: nat)
    requires i <= e <= |t| && IsUnsignedDecimal(t[i..e])
    requires e == |t| || (!IsDigit(t[e]) && t[e] != '.')
    ensures ScanUnsigned(t, i) == Some(e)
  {
    var s := t[i..e];
    var k := DotIndex(s);
    assert forall m :: i <= m < i + k ==> IsDigit(t[m]) by {
      forall m | i <= m < i + k ensures IsDigit(t[m]) {
        assert t[m] == s[..k][m - i];
      }
    }
    if k == |s| {
      SpanExact(t, i, e, IsDigit);
    } else {
      SpanExact(t, i, i + k, IsDigit);
      assert t[i + k + 1] == s[k + 1..][0];
      assert forall m :: i + k + 1 <= m < e ==> IsDigit(t[m]) by {
        forall m | i + k + 1 <= m < e ensures IsDigit(t[m]) {
          assert t[m] == s[k + 1..][m - i - k - 1];
        }
      }
      SpanExact(t, i + k + 1, e, IsDigit);
    }
  }

  lemma ScanNumeralComplete(t: string, i: nat, e: nat)
    requires i <= e <= |t| && IsNumeral(t[i..e])
    requires e == |t| || (!IsDigit(t[e]) && t[e] != '.')
    ensures ScanNumeral(t, i) == Some(e)
  {
    var s := t[i..e];
    if IsUnsignedDecimal(s) {
      assert IsDigit(s[..DotIndex(s)][0]);
      ScanUnsignedComplete(t, i, e);
    } else {
      assert s[1..] == t[i + 1..e];
      ScanUnsignedComplete(t, i + 1, e);
    }
  }

  lemma ScanCoordsSound(t: string)
    requires ScanCoords(t).Some?
    ensures var (a, b, c) := ScanCoords(t).value; CoordSplit(t, a, b, c)
  {
    var a := ScanNumeral(t, 0).value;
    ScanCoordsFirst(t, a);
    var b := Span(t, a, IsJsSpace);
    var c := Span(t, b + 1, IsJsSpace);
    assert ScanCoords(t) == Some((a, b, c));
    ScanNumeralSound(t, 0);
    SpanIsBlank(t, a);
    SpanIsBlank(t, b + 1);
    ScanNumeralSound(t, c);
    CoordSplitOfPieces(t, a, b, c);
  }

  lemma CoordSplitOfPieces(t: string, a: nat, b: nat, c: nat)
    requires a <= b < c <= |t| && t[b] == ','
    requires IsNumeral(t[0..a]) && IsBlank(t[a..b]) && IsBlank(t[b + 1..c]) && IsNumeral(t[c..|t|])
    ensures CoordSplit(t, a, b, c)
  {
    assert t[0..a] == t[..a];
    assert t[c..|t|] == t[c..];
  }

  /** What Span skips over white space is blank. */
  lemma SpanIsBlank(t: string, i: nat)
    requires i <= |t|
    ensures IsBlank(t[i..Span(t, i, IsJsSpace)])
  {
    var j := Span(t, i, IsJsSpace);
    SpanAll(t, i, IsJsSpace);
    forall m | 0 <= m < j - i ensures IsJsSpace(t[i..j][m]) {
      assert t[i..j][m] == t[i + m];
    }
  }

  /** A blank run ended by a non-space is exactly what Span skips. */
  lemma BlankSpan(t: string, i: nat, j: nat)
    requires i <= j <= |t| && IsBlank(t[i..j]) && (j == |t| || !IsJsSpace(t[j]))
    ensures Span(t, i, IsJsSpace) == j
  {
    assert forall m :: i <= m < j ==> IsJsSpace(t[m]) by {
      forall m | i <= m < j ensures IsJsSpace(t[m]) { assert t[m] == t[i..j][m - i]; }
    }
    SpanExact(t, i, j, IsJsSpace);
  }

  /** A numeral starts with '-' or a digit, so never with white space. */
  lemma NumeralStart(s: string)
    requires IsNumeral(s)
    ensures |s| > 0 && !IsJsSpace(s[0])
  {
    if IsUnsignedDecimal(s) {
      assert IsDigit(s[..DotIndex(s)][0]);
    }
  }

  lemma FirstNumeralScanned(t: string, a: nat, b: nat, c: nat)
    requires CoordSplit(t, a, b, c)
    ensures ScanNumeral(t, 0) == Some(a)
  {
    assert t[0..a] == t[..a];
    if a < b {
      assert t[a] == t[a..b][0];
    }
    ScanNumeralComplete(t, 0, a);
  }

  lemma SecondNumeralScanned(t: string, a: nat, b: nat, c: nat)
    requires CoordSplit(t, a, b, c)
    ensures Span(t, b + 1, IsJsSpace) == c && ScanNumeral(t, c) == Some(|t|)
  {
    assert t[c..|t|] == t[c..];
    NumeralStart(t[c..]);
    assert t[c] == t[c..][0];
    BlankSpan(t, b + 1, c);
    ScanNumeralComplete(t, c, |t|);
  }

  /** Once the first number ends at a, the scan goes on from a. */
  lemma ScanCoordsFirst(t: string, a: nat)
    requires ScanNumeral(t, 0) == Some(a)
    ensures ScanCoords(t) == ScanAfterFirst(t, a)
  {
  }

  /** The remaining steps of the scan, each landing on the given cut point. */
  lemma ScanAfterFirstSteps(t: string, a: nat, b: nat, c: nat)
    requires a <= b < |t| && Span(t, a, IsJsSpace) == b && t[b] == ','
    requires Span(t, b + 1, IsJsSpace) == c && ScanNumeral(t, c) == Some(|t|)
    ensures ScanAfterFirst(t, a) == Some((a, b, c))
  {
  }

  lemma ScanCoordsComplete(t: string, a: nat, b: nat, c: nat)
    requires CoordSplit(t, a, b, c)
    ensures ScanCoords(t) == Some((a, b, c))
  {
    FirstNumeralScanned(t, a, b, c);
    BlankSpan(t, a, b);
    SecondNumeralScanned(t, a, b, c);
    ScanCoordsFirst(t, a);
    ScanAfterFirstSteps(t, a, b, c);
  }

  // ---------------------------------------------------------------------
  // parseMaybeCoords

  function ParseMaybeCoords(s: string): (r: Option<LatLon>)
    ensures r.Some? ==> -90.0 <= r.value.lat <= 90.0 && -180.0 <= r.value.lon <= 180.0
  {
    MatchTrimmed(Trim(s))
  }

  /** The match and the range check, on text that is already trimmed. */
  function MatchTrimmed(t: string): (r: Option<LatLon>)
    ensures r.Some? ==> -90.0 <= r.value.lat <= 90.0 && -180.0 <= r.value.lon <= 180.0
  {
    match ScanCoords(t)
    case None => None
    case Some((a, b, c)) =>
      ScanCoordsSound(t);
      var lat := NumeralValue(t[..a]);
      var lon := NumeralValue(t[c..]);
      if InBounds(lat, lon) then Some(LatLon(lat, lon)) else None
  }

  /** A result is only ever produced for trimmed text of the coordinate shape,
      and it holds the values of its two numerals: the lemma gives the cut points. */
  lemma ParseMaybeCoordsSound(s: string) returns (a: nat, b: nat, c: nat)
    requires ParseMaybeCoords(s).Some?
    ensures CoordSplit(Trim(s), a, b, c)
    ensures ParseMaybeCoords(s) == Some(LatLon(NumeralValue(Trim(s)[..a]), NumeralValue(Trim(s)[c..])))
  {
    var t := Trim(s);
    MatchTrimmedCut(t);
    a, b, c := ScanCoords(t).value.0, ScanCoords(t).value.1, ScanCoords(t).value.2;
  }

  lemma MatchTrimmedCut(t: string)
    requires ScanCoords(t).Some?
    ensures var cut := ScanCoords(t).value;
            && CoordSplit(t, cut.0, cut.1, cut.2)
            && var lat, lon := NumeralValue(t[..cut.0]), NumeralValue(t[cut.2..]);
               MatchTrimmed(t) == if InBounds(lat, lon) then Some(LatLon(lat, lon)) else None
  {
    ScanCoordsSound(t);
  }

  /** Every trimmed text of the coordinate shape is accepted exactly when its
      numbers are in range, with those numbers as the result. */
  lemma ParseMaybeCoordsComplete(s: string, a: nat, b: nat, c: nat)
    requires CoordSplit(Trim(s), a, b, c)
    ensures var lat, lon := NumeralValue(Trim(s)[..a]), NumeralValue(Trim(s)[c..]);
            ParseMaybeCoords(s) == if InBounds(lat, lon) then Some(LatLon(lat, lon)) else None
  {
    ScanCoordsComplete(Trim(s), a, b, c);
  }

  /** White space around the input never changes the outcome. */
  lemma ParseMaybeCoordsPadded(w1: string, t: string, w2: string)
    requires IsBlank(w1) && IsBlank(w2) && IsTrimmed(t)
    ensures ParseMaybeCoords(w1 + t + w2) == ParseMaybeCoords(t)
  {
    TrimPadded(w1, t, w2);
    TrimPadded([], t, []);
    assert [] + t + [] == t;
  }
}
