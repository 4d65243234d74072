/** fmtTemp and fmtSpeed (app.js): a rounded reading followed by the unit
    the selected unit system implies. */
module Display {
  import opened Wrappers
  import opened Text

  /** Math.round on an exact value: halves round up. */
  function Round(t: real): (n: int)
    ensures n as real - 0.5 <= t < n as real + 0.5
  {
    (t + 0.5).Floor
  }

  /** Reads the integer back from a formatted reading. */
  lemma RoundedText(t: real)
    ensures ParseIntText(IntText(Round(t))) == Some(Round(t))
  {
    IntTextRoundTrip(Round(t));
  }

  /** The temperature label: Celsius exactly when the units are 'metric',
      Fahrenheit for every other string. */
  function FmtTemp(t: real, units: string): (s: string)
    ensures |s| >= 3 && s[|s| - 2] == '\U{B0}'
    ensures s[|s| - 1] == if units == "metric" then 'C' else 'F'
    ensures s[..|s| - 2] == IntText(Round(t)) && ParseIntText(s[..|s| - 2]) == Some(Round(t))
  {
    var digits := IntText(Round(t));
    var s := digits + ['\U{B0}', if units == "metric" then 'C' else 'F'];
    RoundedText(t);
    assert s[..|s| - 2] == digits;
    s
  }

  /** The wind-speed label: metres per second exactly when the units are
      'metric', miles per hour otherwise. */
  function FmtSpeed(v: real, units: string): (s: string)
    ensures |s| >= 5
    ensures s[|s| - 4..] == if units == "metric" then " m/s" else " mph"
    ensures s[..|s| - 4] == IntText(Round(v)) && ParseIntText(s[..|s| - 4]) == Some(Round(v))
  {
    var digits := IntText(Round(v));
    var s := digits + (if units == "metric" then " m/s" else " mph");
    RoundedText(v);
    assert s[..|s| - 4] == digits;
    s
  }
}
