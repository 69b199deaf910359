/**
 * The text the tool writes for a mode, its width and height joined by an x, and the
 * reading of such a name back into a mode.
 */
module Decimal {
  import opened Wrappers
  import opened Displays

  predicate IsDigit(c: char) {
    '0' <= c <= '9'
  }

  predicate AllDigits(s: string) {
    forall i :: 0 <= i < |s| ==> IsDigit(s[i])
  }

  /** JavaScript's rendering of a non-negative integer number: its decimal digits. */
  function Digits(n: nat): (s: string)
    ensures |s| > 0 && AllDigits(s)
    ensures s[0] == '0' ==> n == 0
  {
    if n < 10 then ['0' + n as char]
    else Digits(n / 10) + ['0' + (n % 10) as char]
  }

  /** The value of a string of decimal digits. */
  function DigitsValue(s: string): nat
    requires AllDigits(s)
  {
    if s == [] then 0
    else 10 * DigitsValue(s[..|s| - 1]) + (s[|s| - 1] - '0') as nat
  }

  lemma {:induction false} DigitsRoundTrip(n: nat)
    ensures DigitsValue(Digits(n)) == n
  {
    if n >= 10 {
      DigitsRoundTrip(n / 10);
      var s := Digits(n);
      assert s[..|s| - 1] == Digits(n / 10);
    }
  }

  /** The name `WxH` of a mode. */
  function ModeName(m: Mode): string {
    Digits(m.width) + "x" + Digits(m.height)
  }

  /** A geometry value as text; a missing one reads "undefined". */
  function GeometryText(o: Option<nat>): string {
    match o
    case Some(n) => Digits(n)
    case None => "undefined"
  }

  /** The name of an output's current geometry, "undefinedxundefined" when it has none. */
  function GeometryName(d: Display): string {
    GeometryText(d.width) + "x" + GeometryText(d.height)
  }

  /** The position of the first `c` in `s`, if any. */
  function IndexOf(s: string, c: char): (r: Option<nat>)
    ensures r.Some? ==> r.value < |s| && s[r.value] == c && c !in s[..r.value]
    ensures r.None? ==> c !in s
  {
    if s == [] then None
    else if s[0] == c then Some(0)
    else match IndexOf(s[1..], c)
      case None => None
      case Some(k) =>
        assert s[..k + 1] == [s[0]] + s[1..][..k];
        Some(k + 1)
  }

  /** Reads a name `WxH` made of decimal digits back into a mode. */
  function ParseModeName(s: string): Option<Mode> {
    match IndexOf(s, 'x')
    case None => None
    case Some(k) =>
      var w, h := s[..k], s[k + 1..];
      if w != [] && h != [] && AllDigits(w) && AllDigits(h)
      then Some(Mode(DigitsValue(w), DigitsValue(h)))
      else None
  }

  /** Every mode name the tool writes reads back as that mode. */
  lemma ModeNameRoundTrip(m: Mode)
    ensures ParseModeName(ModeName(m)) == Some(m)
  {
    var w, h := Digits(m.width), Digits(m.height);
    var s := ModeName(m);
    assert 'x' !in w;
    assert s[|w|] == 'x' && s[..|w|] == w && s[|w| + 1..] == h;
    assert IndexOf(s, 'x') == Some(|w|);
    DigitsRoundTrip(m.width);
    DigitsRoundTrip(m.height);
  }

  /** The current geometry's name reads back as a mode exactly when the output is active. */
  lemma GeometryNameRoundTrip(d: Display)
    ensures ParseModeName(GeometryName(d)).Some? <==> d.width.Some? && d.height.Some?
    ensures d.width.Some? && d.height.Some? ==>
      ParseModeName(GeometryName(d)) == Some(Mode(d.width.value, d.height.value))
  {
    if d.width.Some? && d.height.Some? {
      assert GeometryName(d) == ModeName(Mode(d.width.value, d.height.value));
      ModeNameRoundTrip(Mode(d.width.value, d.height.value));
    } else {
      var s := GeometryName(d);
      if d.width.None? {
        assert s[..9] == "undefined";
        assert 'x' !in s[..9] && s[9] == 'x';
        assert IndexOf(s, 'x') == Some(9);
        assert !IsDigit(s[..9][0]);
      } else {
        var w := Digits(d.width.value);
        assert 'x' !in w && s[|w|] == 'x' && s[..|w|] == w;
        assert IndexOf(s, 'x') == Some(|w|);
        assert s[|w| + 1..] == "undefined";
        assert !IsDigit(s[|w| + 1..][0]);
      }
    }
  }
}
