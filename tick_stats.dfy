/**
 * The statistics the analyser derives from its tick window on every update:
 * the digit histogram with its four ranked highlights, even/odd counts and
 * the recent parity strip, over/under/equal counts of consecutive quotes and
 * matches/differs counts of consecutive last digits. Each loop of the
 * JavaScript is a method proved against a function on the window.
 */
module TickStats {
  import opened Options
  import opened Quotes

  // ---------------------------------------------------------------------
  // Digit histogram
  // ---------------------------------------------------------------------

  /** How many ticks of w have last digit d. */
  function CountDigit(w: seq<Tick>, places: nat, d: Digit): nat
  {
    if w == [] then 0
    else CountDigit(w[..|w| - 1], places, d) + (if LastDigit(w[|w| - 1].quote, places) == d then 1 else 0)
  }

  /** The ten digit counts, indexed by digit. */
  function Histogram(w: seq<Tick>, places: nat): (h: seq<nat>)
    ensures |h| == 10
  {
    seq(10, d requires 0 <= d < 10 => CountDigit(w, places, d))
  }

  /** The sum of ten counts. */
  function Total(h: seq<nat>): nat
    requires |h| == 10
  {
    h[0] + h[1] + h[2] + h[3] + h[4] + h[5] + h[6] + h[7] + h[8] + h[9]
  }

  /** Every tick is counted exactly once: the ten counts add up to the window length. */
  lemma {:induction false} HistogramTotal(w: seq<Tick>, places: nat)
    ensures Total(Histogram(w, places)) == |w|
  {
    if w != [] {
      HistogramTotal(w[..|w| - 1], places);
    }
  }

  /** The histogram of a window extended by one tick differs only at that tick's digit. */
  lemma HistogramSnoc(w: seq<Tick>, t: Tick, places: nat, d: Digit)
    ensures CountDigit(w + [t], places, d) ==
      CountDigit(w, places, d) + (if LastDigit(t.quote, places) == d then 1 else 0)
  {
    assert (w + [t])[..|w + [t]| - 1] == w;
  }

  /** The `forEach` of updateDigitDisplay and updateEvenOddAnalysis, over a fresh `Array(10).fill(0)`. */
  method CountDigits(w: seq<Tick>, places: nat) returns (h: seq<nat>)
    ensures h == Histogram(w, places)
  {
    var counts := new nat[10](_ => 0);
    for i := 0 to |w|
      invariant forall d :: 0 <= d < 10 ==> counts[d] == CountDigit(w[..i], places, d)
    {
      var k := GetLastDigit(w[i].quote, places);
      assert w[..i + 1] == w[..i] + [w[i]];
      forall d | 0 <= d < 10
        ensures CountDigit(w[..i + 1], places, d) ==
          CountDigit(w[..i], places, d) + (if k == d then 1 else 0)
      {
        HistogramSnoc(w[..i], w[i], places, d);
      }
      counts[k] := counts[k] + 1;
    }
    assert w[..|w|] == w;
    h := counts[..];
  }

  /** `(count / total) * 100`, exactly. */
  function Percent(count: nat, total: nat): real
    requires total > 0
  {
    count as real / total as real * 100.0
  }

  /** At a fixed total, comparing percentages is comparing counts. */
  lemma PercentOrder(a: nat, b: nat, total: nat)
    requires total > 0
    ensures Percent(a, total) < Percent(b, total) <==> a < b
    ensures Percent(a, total) == Percent(b, total) <==> a == b
  {
    var t := total as real;
    assert Percent(a, total) == a as real * (100.0 / t);
    assert Percent(b, total) == b as real * (100.0 / t);
    assert 100.0 / t > 0.0;
  }

  /** The ten percentages, indexed by digit. */
  function Percentages(h: seq<nat>, total: nat): (p: seq<real>)
    requires |h| == 10 && total > 0
    ensures |p| == 10
  {
    seq(10, d requires 0 <= d < 10 => Percent(h[d], total))
  }

  /** A percentage is the count times the weight 100/total of one tick. */
  lemma PercentScales(count: nat, total: nat)
    requires total > 0
    ensures Percent(count, total) == count as real * (100.0 / total as real)
  {
  }

  /** The sum of ten percentages. */
  function PercentTotal(p: seq<real>): real
    requires |p| == 10
  {
    p[0] + p[1] + p[2] + p[3] + p[4] + p[5] + p[6] + p[7] + p[8] + p[9]
  }

  /** Ten values that are counts scaled by one weight add up to the scaled total. */
  lemma ScaledTotal(p: seq<real>, h: seq<nat>, u: real)
    requires |p| == 10 && |h| == 10
    requires forall d :: 0 <= d < 10 ==> p[d] == h[d] as real * u
    ensures PercentTotal(p) == Total(h) as real * u
  {
  }

  lemma OneHundredPercent(n: nat)
    requires n > 0
    ensures n as real * (100.0 / n as real) == 100.0
  {
  }

  /** Percentages of counts that add up to the total add up to 100. */
  lemma PercentagesOfTotal(h: seq<nat>, n: nat)
    requires |h| == 10 && n > 0 && Total(h) == n
    ensures PercentTotal(Percentages(h, n)) == 100.0
  {
    var p := Percentages(h, n);
    var u := 100.0 / n as real;
    assert PercentTotal(p) == Total(h) as real * u by {
      forall d | 0 <= d < 10 ensures p[d] == h[d] as real * u {
        PercentScales(h[d], n);
      }
      ScaledTotal(p, h, u);
    }
    OneHundredPercent(n);
  }

  /** For a non-empty window the ten digit percentages add up to 100. */
  lemma PercentagesSumTo100(w: seq<Tick>, places: nat)
    requires |w| > 0
    ensures PercentTotal(Percentages(Histogram(w, places), |w|)) == 100.0
  {
    HistogramTotal(w, places);
    PercentagesOfTotal(Histogram(w, places), |w|);
  }

  // ---------------------------------------------------------------------
  // Ranking: the stable descending sort of the digits by percentage
  // ---------------------------------------------------------------------

  /** Digit a comes before digit b in the ranking: a higher percentage, or an equal one and a smaller digit. */
  predicate RanksBefore(pct: seq<real>, a: Digit, b: Digit)
    requires |pct| == 10
  {
    pct[a] > pct[b] || (pct[a] == pct[b] && a < b)
  }

  predicate RankedSorted(pct: seq<real>, r: seq<Digit>)
    requires |pct| == 10
  {
    forall i, j :: 0 <= i < j < |r| ==> RanksBefore(pct, r[i], r[j])
  }

  /** Inserts d after every entry whose percentage is at least d's (a later element never overtakes an equal one). */
  function InsertRanked(d: Digit, ranked: seq<Digit>, pct: seq<real>): (r: seq<Digit>)
    requires |pct| == 10
    ensures |r| == |ranked| + 1
  {
    if ranked == [] then [d]
    else if pct[d] > pct[ranked[0]] then [d] + ranked
    else
      assert ranked == [ranked[0]] + ranked[1..];
      [ranked[0]] + InsertRanked(d, ranked[1..], pct)
  }

  /** Stable insertion sort, descending by percentage: `[...digitData].sort((a, b) => b.percentage - a.percentage)`. */
  function SortDescending(ds: seq<Digit>, pct: seq<real>): (r: seq<Digit>)
    requires |pct| == 10
    ensures |r| == |ds|
  {
    if ds == [] then []
    else
      assert ds == ds[..|ds| - 1] + [ds[|ds| - 1]];
      InsertRanked(ds[|ds| - 1], SortDescending(ds[..|ds| - 1], pct), pct)
  }

  /** Insertion adds d and loses nothing. */
  lemma {:induction false} InsertRankedPermutes(d: Digit, ranked: seq<Digit>, pct: seq<real>)
    requires |pct| == 10
    ensures multiset(InsertRanked(d, ranked, pct)) == multiset(ranked) + multiset{d}
  {
    if ranked != [] && pct[d] <= pct[ranked[0]] {
      InsertRankedPermutes(d, ranked[1..], pct);
      assert ranked == [ranked[0]] + ranked[1..];
    }
  }

  /** The sort is a permutation of its input. */
  lemma {:induction false} SortDescendingPermutes(ds: seq<Digit>, pct: seq<real>)
    requires |pct| == 10
    ensures multiset(SortDescending(ds, pct)) == multiset(ds)
  {
    if ds != [] {
      var init := ds[..|ds| - 1];
      SortDescendingPermutes(init, pct);
      InsertRankedPermutes(ds[|ds| - 1], SortDescending(init, pct), pct);
      assert ds == init + [ds[|ds| - 1]];
    }
  }

  /** The digits 0..n-1 in index order, the order `digitPercentages.map` builds them in. */
  function DigitsBelow(n: nat): (ds: seq<Digit>)
    requires n <= 10
    ensures |ds| == n
  {
    if n == 0 then [] else DigitsBelow(n - 1) + [n - 1]
  }

  lemma {:induction false} DigitsBelowIndex(n: nat)
    requires n <= 10
    ensures forall i :: 0 <= i < n ==> DigitsBelow(n)[i] == i
  {
    if n > 0 {
      DigitsBelowIndex(n - 1);
    }
  }

  /** The digits in the order the stable sort leaves them. */
  function Ranking(pct: seq<real>): (r: seq<Digit>)
    requires |pct| == 10
    ensures |r| == 10
  {
    SortDescending(DigitsBelow(|pct|), pct)
  }

  lemma {:induction false} InsertRankedSorted(d: Digit, ranked: seq<Digit>, pct: seq<real>)
    requires |pct| == 10
    requires RankedSorted(pct, ranked)
    requires forall i :: 0 <= i < |ranked| ==> ranked[i] < d
    ensures RankedSorted(pct, InsertRanked(d, ranked, pct))
  {
    if ranked != [] && pct[d] <= pct[ranked[0]] {
      InsertRankedSorted(d, ranked[1..], pct);
      var r := InsertRanked(d, ranked, pct);
      assert r == [ranked[0]] + InsertRanked(d, ranked[1..], pct);
      var tail := InsertRanked(d, ranked[1..], pct);
      InsertRankedPermutes(d, ranked[1..], pct);
      assert multiset(tail) == multiset(ranked[1..]) + multiset{d};
      forall j | 0 < j < |r| ensures RanksBefore(pct, r[0], r[j]) {
        assert r[j] == tail[j - 1];
        assert r[j] in multiset(tail);
        if r[j] != d {
          assert r[j] in multiset(ranked[1..]);
          var k :| 0 <= k < |ranked[1..]| && ranked[1..][k] == r[j];
          assert ranked[k + 1] == r[j];
        }
      }
    }
  }

  lemma {:induction false} SortDescendingSorted(ds: seq<Digit>, pct: seq<real>)
    requires |pct| == 10
    requires forall i, j :: 0 <= i < j < |ds| ==> ds[i] < ds[j]
    ensures RankedSorted(pct, SortDescending(ds, pct))
  {
    if ds != [] {
      var init := ds[..|ds| - 1];
      SortDescendingSorted(init, pct);
      var s := SortDescending(init, pct);
      SortDescendingPermutes(init, pct);
      forall i | 0 <= i < |s| ensures s[i] < ds[|ds| - 1] {
        assert s[i] in multiset(init);
        var k :| 0 <= k < |init| && init[k] == s[i];
      }
      InsertRankedSorted(ds[|ds| - 1], s, pct);
    }
  }

  /**
   * A ranking of ten percentages: the ten digits, each once, strictly
   * ordered by (percentage descending, digit ascending).
   */
  ghost predicate IsRanking(pct: seq<real>, r: seq<Digit>)
    requires |pct| == 10
  {
    |r| == 10 && (forall d: Digit :: d in multiset(r)) && RankedSorted(pct, r)
  }

  /** The stable descending sort of the digits 0..9 is a ranking. */
  lemma RankingIsStableSort(pct: seq<real>)
    requires |pct| == 10
    ensures IsRanking(pct, Ranking(pct))
  {
    var ds := DigitsBelow(|pct|);
    SortDescendingSorted(ds, pct);
    SortDescendingPermutes(ds, pct);
    DigitsBelowIndex(|pct|);
    DigitsBelowAll(ds);
  }

  lemma DigitsBelowAll(ds: seq<Digit>)
    requires |ds| == 10 && forall i :: 0 <= i < 10 ==> ds[i] == i
    ensures forall d: Digit :: d in multiset(ds)
  {
    forall d: Digit ensures d in multiset(ds) {
      assert ds[d] == d;
    }
  }

  /** Every digit has a place in a ranking. */
  lemma PositionIn(pct: seq<real>, r: seq<Digit>, d: Digit) returns (k: nat)
    requires |pct| == 10 && IsRanking(pct, r)
    ensures k < 10 && r[k] == d
  {
    assert d in multiset(r);
    k :| 0 <= k < |r| && r[k] == d;
  }

  /**
   * Ties are broken by the digit, so the ranking is determined by the
   * percentages alone: any two rankings agree.
   */
  lemma RankingUnique(pct: seq<real>, r1: seq<Digit>, r2: seq<Digit>)
    requires |pct| == 10 && IsRanking(pct, r1) && IsRanking(pct, r2)
    ensures r1 == r2
  {
    RankingsAgreeBelow(pct, r1, r2, 10);
  }

  lemma {:induction false} RankingsAgreeBelow(pct: seq<real>, r1: seq<Digit>, r2: seq<Digit>, n: nat)
    requires |pct| == 10 && IsRanking(pct, r1) && IsRanking(pct, r2) && n <= 10
    ensures forall j :: 0 <= j < n ==> r1[j] == r2[j]
  {
    if n > 0 {
      var i := n - 1;
      RankingsAgreeBelow(pct, r1, r2, i);
      // r2[i] sits at m in r1 and r1[i] at k in r2; neither can come earlier
      // (those places hold the agreed prefix), and both coming later would
      // make each rank before the other.
      var m := PositionIn(pct, r1, r2[i]);
      var k := PositionIn(pct, r2, r1[i]);
      RankedAt(pct, r2, m, i);
      RankedAt(pct, r1, k, i);
      RankedAt(pct, r1, i, m);
      RankedAt(pct, r2, i, k);
    }
  }

  /** A ranking puts the earlier of two places first. */
  lemma RankedAt(pct: seq<real>, r: seq<Digit>, i: nat, j: nat)
    requires |pct| == 10 && IsRanking(pct, r) && i < 10 && j < 10
    ensures i < j ==> RanksBefore(pct, r[i], r[j])
  {
  }

  /** The frequency class a digit's circle is drawn with. */
  datatype Highlight = MostAppearing | SecondMostAppearing | LeastAppearing | SecondLeastAppearing | Plain

  /** The else-if chain of updateDigitDisplay. */
  function HighlightOf(d: Digit, r: seq<Digit>): Highlight
    requires |r| == 10
  {
    if d == r[0] then MostAppearing
    else if d == r[1] then SecondMostAppearing
    else if d == r[9] then LeastAppearing
    else if d == r[8] then SecondLeastAppearing
    else Plain
  }

  /**
   * Because a ranking lists each digit once, the chain gives the four
   * highlights to the four ranked digits, one each, and no other digit has one.
   */
  lemma HighlightsAreDistinct(pct: seq<real>, r: seq<Digit>)
    requires |pct| == 10 && IsRanking(pct, r)
    ensures HighlightOf(r[0], r) == MostAppearing && HighlightOf(r[1], r) == SecondMostAppearing &&
      HighlightOf(r[9], r) == LeastAppearing && HighlightOf(r[8], r) == SecondLeastAppearing &&
      forall k :: 2 <= k < 8 ==> HighlightOf(r[k], r) == Plain
  {
    forall i, j | 0 <= i < j < 10 ensures r[i] != r[j] {
      assert RanksBefore(pct, r[i], r[j]);
    }
  }

  /** The percentages of a window's histogram, for short. */
  function WindowPercentages(w: seq<Tick>, places: nat): (pct: seq<real>)
    requires |w| > 0
    ensures |pct| == 10
  {
    Percentages(Histogram(w, places), |w|)
  }

  /** Most appearing (green): the smallest digit among those with the largest count. */
  lemma MostAppearingDigit(w: seq<Tick>, places: nat, r: seq<Digit>, d: Digit)
    requires |w| > 0 && IsRanking(WindowPercentages(w, places), r)
    ensures var h := Histogram(w, places); h[d] <= h[r[0]] && (h[d] == h[r[0]] ==> r[0] <= d)
  {
    var h := Histogram(w, places);
    var pct := WindowPercentages(w, places);
    var k := PositionIn(pct, r, d);
    if k > 0 { assert RanksBefore(pct, r[0], r[k]); }
    PercentOrder(h[d], h[r[0]], |w|);
  }

  /** Second most appearing (blue): the same, among the digits other than the most appearing one. */
  lemma SecondMostAppearingDigit(w: seq<Tick>, places: nat, r: seq<Digit>, d: Digit)
    requires |w| > 0 && IsRanking(WindowPercentages(w, places), r)
    ensures var h := Histogram(w, places);
      r[1] != r[0] && (d != r[0] ==> h[d] <= h[r[1]] && (h[d] == h[r[1]] ==> r[1] <= d))
  {
    var h := Histogram(w, places);
    var pct := WindowPercentages(w, places);
    var k := PositionIn(pct, r, d);
    assert RanksBefore(pct, r[0], r[1]);
    if k > 1 { assert RanksBefore(pct, r[1], r[k]); }
    PercentOrder(h[d], h[r[1]], |w|);
  }

  /** Least appearing (red): the largest digit among those with the smallest count. */
  lemma LeastAppearingDigit(w: seq<Tick>, places: nat, r: seq<Digit>, d: Digit)
    requires |w| > 0 && IsRanking(WindowPercentages(w, places), r)
    ensures var h := Histogram(w, places); h[r[9]] <= h[d] && (h[d] == h[r[9]] ==> d <= r[9])
  {
    var h := Histogram(w, places);
    var pct := WindowPercentages(w, places);
    var k := PositionIn(pct, r, d);
    if k < 9 { assert RanksBefore(pct, r[k], r[9]); }
    PercentOrder(h[d], h[r[9]], |w|);
  }

  /** Second least appearing (orange): the same, among the digits other than the least appearing one. */
  lemma SecondLeastAppearingDigit(w: seq<Tick>, places: nat, r: seq<Digit>, d: Digit)
    requires |w| > 0 && IsRanking(WindowPercentages(w, places), r)
    ensures var h := Histogram(w, places);
      r[8] != r[9] && (d != r[9] ==> h[r[8]] <= h[d] && (h[d] == h[r[8]] ==> d <= r[8]))
  {
    var h := Histogram(w, places);
    var pct := WindowPercentages(w, places);
    var k := PositionIn(pct, r, d);
    assert RanksBefore(pct, r[8], r[9]);
    if k < 8 { assert RanksBefore(pct, r[k], r[8]); }
    PercentOrder(h[d], h[r[8]], |w|);
  }

  /** The highlight of each digit 0..9 under a ranking. */
  function Highlights(r: seq<Digit>): (hs: seq<Highlight>)
    requires |r| == 10
    ensures |hs| == 10 && forall d: Digit :: hs[d] == HighlightOf(d, r)
  {
    seq(10, d requires 0 <= d < 10 => HighlightOf(d, r))
  }

  /** What updateDigitDisplay draws: counts, percentages, highlights per digit and the current digit. */
  datatype DigitDisplay = DigitDisplay(
    counts: seq<nat>, percentages: seq<real>, highlights: seq<Highlight>, current: Digit)

  function DigitDisplayOf(w: seq<Tick>, places: nat): DigitDisplay
    requires |w| > 0
  {
    var pct := WindowPercentages(w, places);
    DigitDisplay(Histogram(w, places), pct, Highlights(Ranking(pct)), LastDigit(w[|w| - 1].quote, places))
  }

  /** updateDigitDisplay, which updateUI calls only on a non-empty window. */
  method UpdateDigitDisplay(w: seq<Tick>, places: nat) returns (view: DigitDisplay)
    requires |w| > 0
    ensures view == DigitDisplayOf(w, places)
    ensures |view.counts| == 10 && Total(view.counts) == |w|
    ensures view.current == LastDigit(w[|w| - 1].quote, places)
  {
    var counts := CountDigits(w, places);
    HistogramTotal(w, places);
    var pct := Percentages(counts, |w|);
    var current := GetLastDigit(w[|w| - 1].quote, places);
    view := DigitDisplay(counts, pct, Highlights(Ranking(pct)), current);
  }

  // ---------------------------------------------------------------------
  // Even / odd
  // ---------------------------------------------------------------------

  datatype Parity = Even | Odd

  function ParityOf(d: Digit): Parity
  {
    if d % 2 == 0 then Even else Odd
  }

  /** `digitCounts.filter((_, i) => i % 2 === 0).reduce(...)` */
  function EvenTotal(h: seq<nat>): nat
    requires |h| == 10
  {
    h[0] + h[2] + h[4] + h[6] + h[8]
  }

  /** `digitCounts.filter((_, i) => i % 2 !== 0).reduce(...)` */
  function OddTotal(h: seq<nat>): nat
    requires |h| == 10
  {
    h[1] + h[3] + h[5] + h[7] + h[9]
  }

  /** The number of ticks whose last digit has parity p, counted tick by tick. */
  function CountParity(w: seq<Tick>, places: nat, p: Parity): nat
  {
    if w == [] then 0
    else CountParity(w[..|w| - 1], places, p) + (if ParityOf(LastDigit(w[|w| - 1].quote, places)) == p then 1 else 0)
  }

  /** Summing the even buckets of the histogram counts the even ticks. */
  lemma {:induction false} EvenTotalCountsTicks(w: seq<Tick>, places: nat)
    ensures EvenTotal(Histogram(w, places)) == CountParity(w, places, Even)
  {
    if w != [] {
      EvenTotalCountsTicks(w[..|w| - 1], places);
    }
  }

  /** Summing the odd buckets of the histogram counts the odd ticks. */
  lemma {:induction false} OddTotalCountsTicks(w: seq<Tick>, places: nat)
    ensures OddTotal(Histogram(w, places)) == CountParity(w, places, Odd)
  {
    if w != [] {
      OddTotalCountsTicks(w[..|w| - 1], places);
    }
  }

  /** even + odd is the window length. */
  lemma EvenOddPartition(w: seq<Tick>, places: nat)
    ensures CountParity(w, places, Even) + CountParity(w, places, Odd) == |w|
  {
    EvenTotalCountsTicks(w, places);
    OddTotalCountsTicks(w, places);
    HistogramTotal(w, places);
  }

  /** The strip covers the last min(20, |w|) ticks, oldest first, one parity each. */
  predicate IsRecentStrip(strip: seq<Parity>, w: seq<Tick>, places: nat)
  {
    |strip| == Min(20, |w|) &&
    forall i :: 0 <= i < |strip| ==> strip[i] == ParityOf(LastDigit(w[|w| - |strip| + i].quote, places))
  }

  /** updateRecentEvenOdd: `tickHistory.slice(-20)` and one dot per tick. */
  method RecentEvenOdd(w: seq<Tick>, places: nat) returns (strip: seq<Parity>)
    ensures IsRecentStrip(strip, w, places)
  {
    var recent := w[|w| - Min(20, |w|)..];
    strip := [];
    for i := 0 to |recent|
      invariant |strip| == i
      invariant forall j :: 0 <= j < i ==> strip[j] == ParityOf(LastDigit(recent[j].quote, places))
    {
      var digit := GetLastDigit(recent[i].quote, places);
      strip := strip + [if digit % 2 == 0 then Even else Odd];
    }
  }

  /** A window has exactly one parity strip. */
  lemma RecentStripUnique(s1: seq<Parity>, s2: seq<Parity>, w: seq<Tick>, places: nat)
    requires IsRecentStrip(s1, w, places) && IsRecentStrip(s2, w, places)
    ensures s1 == s2
  {
  }

  /** The parity strip of a window. */
  function RecentStrip(w: seq<Tick>, places: nat): (strip: seq<Parity>)
    ensures IsRecentStrip(strip, w, places)
  {
    var n := Min(20, |w|);
    seq(n, i requires 0 <= i < n => ParityOf(LastDigit(w[|w| - n + i].quote, places)))
  }

  datatype EvenOdd = EvenOdd(even: nat, odd: nat, evenPercent: real, oddPercent: real, recent: seq<Parity>)

  /** What updateEvenOddAnalysis shows, or None when the window is empty. */
  function EvenOddOf(w: seq<Tick>, places: nat): (r: Option<EvenOdd>)
    ensures r.None? <==> |w| == 0
  {
    if |w| == 0 then None
    else
      var h := Histogram(w, places);
      Some(EvenOdd(EvenTotal(h), OddTotal(h), Percent(EvenTotal(h), |w|), Percent(OddTotal(h), |w|),
                   RecentStrip(w, places)))
  }

  lemma PercentPairSum(a: nat, b: nat, n: nat)
    requires n > 0 && a + b == n
    ensures Percent(a, n) + Percent(b, n) == 100.0
  {
    var u := 100.0 / n as real;
    PercentScales(a, n);
    PercentScales(b, n);
    assert a as real * u + b as real * u == (a + b) as real * u;
    OneHundredPercent(n);
  }

  /**
   * The even/odd counts are the numbers of even and odd ticks, they
   * partition the window, the percentages add up to 100 and the strip
   * shows the last min(20, |w|) ticks.
   */
  lemma EvenOddMeaning(w: seq<Tick>, places: nat)
    requires |w| > 0
    ensures var r := EvenOddOf(w, places);
      r.Some? && IsRecentStrip(r.value.recent, w, places) &&
      r.value.even == CountParity(w, places, Even)
    ensures var r := EvenOddOf(w, places); r.Some? && r.value.odd == CountParity(w, places, Odd)
    ensures var r := EvenOddOf(w, places); r.Some? && r.value.even + r.value.odd == |w|
    ensures var r := EvenOddOf(w, places); r.Some? && r.value.evenPercent + r.value.oddPercent == 100.0
  {
    var r := EvenOddOf(w, places);
    EvenTotalCountsTicks(w, places);
    OddTotalCountsTicks(w, places);
    EvenOddPartition(w, places);
    PercentPairSum(r.value.even, r.value.odd, |w|);
  }

  /** updateEvenOddAnalysis: recounts the digits, sums the even and the odd buckets, then draws the strip. */
  method UpdateEvenOddAnalysis(w: seq<Tick>, places: nat) returns (r: Option<EvenOdd>)
    ensures r == EvenOddOf(w, places)
  {
    var counts := CountDigits(w, places);
    var evenCount := counts[0] + counts[2] + counts[4] + counts[6] + counts[8];
    var oddCount := counts[1] + counts[3] + counts[5] + counts[7] + counts[9];
    var total := |w|;
    if total == 0 {
      return None;
    }
    var strip := RecentEvenOdd(w, places);
    RecentStripUnique(strip, RecentStrip(w, places), w, places);
    r := Some(EvenOdd(evenCount, oddCount, Percent(evenCount, total), Percent(oddCount, total), strip));
  }

  // ---------------------------------------------------------------------
  // Over / under / equal on consecutive quotes
  // ---------------------------------------------------------------------

  datatype Trend = Over | Under | Equal

  /** How the current quote compares with the previous one. */
  function TrendOf(previous: Quote, current: Quote): Trend
  {
    if Value(current) > Value(previous) then Over
    else if Value(current) < Value(previous) then Under
    else Equal
  }

  /** The number of positions i in 1..|w|-1 whose tick moved by t from tick i-1. */
  function CountTrend(w: seq<Tick>, t: Trend): nat
  {
    if |w| < 2 then 0
    else CountTrend(w[..|w| - 1], t) + (if TrendOf(w[|w| - 2].quote, w[|w| - 1].quote) == t then 1 else 0)
  }

  /** over + under + equal is the number of consecutive pairs. */
  lemma {:induction false} TrendPartition(w: seq<Tick>)
    requires |w| >= 1
    ensures CountTrend(w, Over) + CountTrend(w, Under) + CountTrend(w, Equal) == |w| - 1
  {
    if |w| >= 2 {
      TrendPartition(w[..|w| - 1]);
    }
  }

  datatype OverUnder = OverUnder(over: nat, under: nat, equal: nat,
                                 overPercent: real, underPercent: real, equalPercent: real)

  /** What updateOverUnderAnalysis shows; None on fewer than two ticks. */
  function OverUnderOf(w: seq<Tick>): Option<OverUnder>
  {
    if |w| < 2 then None
    else
      var n := |w| - 1;
      var o, u, e := CountTrend(w, Over), CountTrend(w, Under), CountTrend(w, Equal);
      Some(OverUnder(o, u, e, Percent(o, n), Percent(u, n), Percent(e, n)))
  }

  /** updateOverUnderAnalysis: one pass over the consecutive pairs. */
  method UpdateOverUnderAnalysis(w: seq<Tick>) returns (r: Option<OverUnder>)
    ensures r == OverUnderOf(w)
    ensures r.None? <==> |w| < 2
    ensures r.Some? ==> r.value.over + r.value.under + r.value.equal == |w| - 1
  {
    if |w| < 2 {
      return None;
    }
    var underCount, overCount, equalCount := 0, 0, 0;
    for i := 1 to |w|
      invariant overCount == CountTrend(w[..i], Over)
      invariant underCount == CountTrend(w[..i], Under)
      invariant equalCount == CountTrend(w[..i], Equal)
    {
      var current := Value(w[i].quote);
      var previous := Value(w[i - 1].quote);
      assert w[..i + 1][..i] == w[..i];
      if current > previous {
        overCount := overCount + 1;
      } else if current < previous {
        underCount := underCount + 1;
      } else {
        equalCount := equalCount + 1;
      }
    }
    assert w[..|w|] == w;
    TrendPartition(w);
    var total := |w| - 1;
    r := Some(OverUnder(overCount, underCount, equalCount,
                        Percent(overCount, total), Percent(underCount, total), Percent(equalCount, total)));
  }

  // ---------------------------------------------------------------------
  // Matches / differs on consecutive last digits
  // ---------------------------------------------------------------------

  /** The number of positions i in 1..|w|-1 whose last digit equals (same) or differs from (!same) tick i-1's. */
  function CountMatches(w: seq<Tick>, places: nat, same: bool): nat
  {
    if |w| < 2 then 0
    else
      var m := LastDigit(w[|w| - 1].quote, places) == LastDigit(w[|w| - 2].quote, places);
      CountMatches(w[..|w| - 1], places, same) + (if m == same then 1 else 0)
  }

  /** matches + differs is the number of consecutive pairs. */
  lemma {:induction false} MatchesPartition(w: seq<Tick>, places: nat)
    requires |w| >= 1
    ensures CountMatches(w, places, true) + CountMatches(w, places, false) == |w| - 1
  {
    if |w| >= 2 {
      MatchesPartition(w[..|w| - 1], places);
    }
  }

  datatype MatchesDiffers = MatchesDiffers(matches: nat, differs: nat, matchesPercent: real, differsPercent: real)

  /** What updateMatchesDiffersAnalysis shows; None on fewer than two ticks. */
  function MatchesDiffersOf(w: seq<Tick>, places: nat): Option<MatchesDiffers>
  {
    if |w| < 2 then None
    else
      var n := |w| - 1;
      var m, d := CountMatches(w, places, true), CountMatches(w, places, false);
      Some(MatchesDiffers(m, d, Percent(m, n), Percent(d, n)))
  }

  /** updateMatchesDiffersAnalysis: one pass over the consecutive pairs of last digits. */
  method UpdateMatchesDiffersAnalysis(w: seq<Tick>, places: nat) returns (r: Option<MatchesDiffers>)
    ensures r == MatchesDiffersOf(w, places)
    ensures r.None? <==> |w| < 2
    ensures r.Some? ==> r.value.matches + r.value.differs == |w| - 1
  {
    if |w| < 2 {
      return None;
    }
    var matchesCount, differsCount := 0, 0;
    for i := 1 to |w|
      invariant matchesCount == CountMatches(w[..i], places, true)
      invariant differsCount == CountMatches(w[..i], places, false)
    {
      var currentDigit := GetLastDigit(w[i].quote, places);
      var previousDigit := GetLastDigit(w[i - 1].quote, places);
      assert w[..i + 1][..i] == w[..i];
      if currentDigit == previousDigit {
        matchesCount := matchesCount + 1;
      } else {
        differsCount := differsCount + 1;
      }
    }
    assert w[..|w|] == w;
    MatchesPartition(w, places);
    var total := |w| - 1;
    r := Some(MatchesDiffers(matchesCount, differsCount, Percent(matchesCount, total), Percent(differsCount, total)));
  }
}
