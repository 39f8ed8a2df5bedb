/**
 * Prices as the tick analyser sees them. A quote is kept as the digits its
 * shortest decimal text shows (the integer part and the fractional digits),
 * which is what `price.toString()` yields for the number `parseFloat` made of
 * the feed's price. Its exact value replaces floating-point comparison.
 */
module Quotes {
  import opened Options

  /** One decimal digit. */
  type Digit = d: int | 0 <= d <= 9

  /** A price: digits before the point and the fractional digits after it. */
  datatype Quote = Quote(whole: nat, frac: seq<Digit>)

  /** One observation of the feed; `time` is None where the JavaScript had `undefined`. */
  datatype Tick = Tick(time: Option<int>, quote: Quote)

  /** The value of the fractional digits f, read as 0.f. */
  function FracValue(f: seq<Digit>): real
  {
    if f == [] then 0.0 else (f[0] as real + FracValue(f[1..])) / 10.0
  }

  /** The exact number a quote denotes. */
  function Value(q: Quote): real
  {
    q.whole as real + FracValue(q.frac)
  }

  /** `toString` never ends the fractional part with a zero. */
  predicate IsShortest(q: Quote)
  {
    q.frac == [] || q.frac[|q.frac| - 1] != 0
  }

  function Zeros(k: nat): (z: seq<Digit>)
    ensures |z| == k && forall i :: 0 <= i < k ==> z[i] == 0
  {
    seq(k, _ => 0)
  }

  /** Drops the trailing zeros of a fractional part. */
  function DropTrailingZeros(f: seq<Digit>): (r: seq<Digit>)
    ensures |r| <= |f| && f == r + Zeros(|f| - |r|)
    ensures r == [] || r[|r| - 1] != 0
  {
    if f == [] || f[|f| - 1] != 0 then
      assert f + Zeros(0) == f;
      f
    else
      var r := DropTrailingZeros(f[..|f| - 1]);
      assert f == f[..|f| - 1] + [0];
      assert Zeros(|f| - 1 - |r|) + [0] == Zeros(|f| - |r|);
      r
  }

  /** `parseFloat(price)` followed by `toString()`: the same number in its shortest form. */
  function ParseQuote(q: Quote): (r: Quote)
    ensures IsShortest(r)
    ensures r.whole == q.whole && |r.frac| <= |q.frac| && q.frac == r.frac + Zeros(|q.frac| - |r.frac|)
  {
    Quote(q.whole, DropTrailingZeros(q.frac))
  }

  lemma {:induction false} FracValueOfZeros(k: nat)
    ensures FracValue(Zeros(k)) == 0.0
  {
    if k > 0 {
      assert Zeros(k)[1..] == Zeros(k - 1);
      FracValueOfZeros(k - 1);
    }
  }

  /** Appending zeros to a fractional part does not change its value. */
  lemma {:induction false} FracValueZeroPadded(f: seq<Digit>, k: nat)
    ensures FracValue(f + Zeros(k)) == FracValue(f)
  {
    if f == [] {
      assert f + Zeros(k) == Zeros(k);
      FracValueOfZeros(k);
    } else {
      assert (f + Zeros(k))[1..] == f[1..] + Zeros(k);
      FracValueZeroPadded(f[1..], k);
    }
  }

  /** Parsing keeps the number: over/under compares what the feed sent. */
  lemma ParseKeepsValue(q: Quote)
    ensures Value(ParseQuote(q)) == Value(q)
  {
    var r := ParseQuote(q);
    FracValueZeroPadded(r.frac, |q.frac| - |r.frac|);
  }

  /** A quote already in shortest form parses to itself. */
  lemma ParseShortestIsIdentity(q: Quote)
    requires IsShortest(q)
    ensures ParseQuote(q) == q
  {
  }

  /** The largest fractional-digit length in the window (`Math.max` over the map). */
  function MaxFracLen(w: seq<Tick>): (m: nat)
    ensures forall i :: 0 <= i < |w| ==> |w[i].quote.frac| <= m
    ensures w != [] ==> exists i :: 0 <= i < |w| && |w[i].quote.frac| == m
    ensures w == [] ==> m == 0
  {
    if w == [] then 0
    else
      var rest := MaxFracLen(w[1..]);
      assert forall i :: 1 <= i < |w| ==> w[i] == w[1..][i - 1];
      Max(|w[0].quote.frac|, rest)
  }

  /**
   * detectDecimalPlaces: on an empty window the current precision stays;
   * otherwise it is the longest fractional part in the window, at least 2.
   */
  function DetectDecimalPlaces(w: seq<Tick>, current: nat): (places: nat)
    ensures w == [] ==> places == current
    ensures w != [] ==> places >= 2
    ensures w != [] ==> forall i :: 0 <= i < |w| ==> |w[i].quote.frac| <= places
    ensures w != [] && places != 2 ==> exists i :: 0 <= i < |w| && |w[i].quote.frac| == places
  {
    if w == [] then current else Max(MaxFracLen(w), 2)
  }

  /** The fractional digits right-padded with zeros up to `places` digits. */
  function PadFraction(frac: seq<Digit>, places: nat): seq<Digit>
  {
    if |frac| < places then frac + Zeros(places - |frac|) else frac
  }

  /**
   * getLastDigit as a function: the last character of the padded fractional
   * part, and 0 when that is empty (`Number('')` is 0).
   */
  function LastDigit(q: Quote, places: nat): Digit
  {
    var padded := PadFraction(q.frac, places);
    if padded == [] then 0 else padded[|padded| - 1]
  }

  /**
   * The last digit is the final fractional digit when the fraction has at
   * least `places` digits, and the padding zero otherwise.
   */
  lemma LastDigitCases(q: Quote, places: nat)
    ensures LastDigit(q, places) ==
      if places <= |q.frac| && q.frac != [] then q.frac[|q.frac| - 1] else 0
  {
  }

  /** getLastDigit: pads the fractional part with zeros in a loop, then takes its last digit. */
  method GetLastDigit(q: Quote, places: nat) returns (d: Digit)
    ensures d == LastDigit(q, places)
  {
    var decimals := q.frac;
    assert q.frac + Zeros(0) == q.frac;
    while |decimals| < places
      invariant |q.frac| <= |decimals|
      invariant decimals == q.frac + Zeros(|decimals| - |q.frac|)
      invariant |q.frac| < places ==> |decimals| <= places
      invariant places <= |q.frac| ==> decimals == q.frac
      decreases places - |decimals|
    {
      assert Zeros(|decimals| - |q.frac|) + [0] == Zeros(|decimals| + 1 - |q.frac|);
      decimals := decimals + [0];
    }
    assert decimals == PadFraction(q.frac, places);
    d := if decimals == [] then 0 else decimals[|decimals| - 1];
  }
}
