/** src/block.py get_vdf_iterations: the VDF difficulty rule, and what it amounts to. */
module Difficulty {
  import opened Params
  import opened Prelude
  import opened Types

  const INTERVAL: int := VDF_ADJUST_INTERVAL

  function Itself(): real -> real {
    (x: real) => x
  }

  /** statistics.median. */
  function Median(s: seq<real>): real
    requires s != []
  {
    var t := SortBy(s, Itself());
    var mid := |t| / 2;
    if |t| % 2 == 1 then t[mid] else (t[mid - 1] + t[mid]) / 2.0
  }

  /** Timestamp gaps between consecutive blocks, for heights lo to hi - 1. */
  function Gaps(chain: seq<Block>, lo: nat, hi: nat): (r: seq<real>)
    requires 1 <= lo <= hi <= |chain|
    ensures |r| == hi - lo
  {
    seq(hi - lo, i requires 0 <= i < hi - lo =>
      (chain[lo + i].timestamp - chain[lo + i - 1].timestamp) as real / SECOND as real)
  }

  /** The median gap of the blocks from height start to end - 1 is below the threshold. Block 0 has no gap. */
  predicate FastWindow(chain: seq<Block>, start: nat, end: nat)
    requires start <= end && 1 <= end <= |chain|
  {
    var deltas := Gaps(chain, if start > 1 then start else 1, end);
    deltas != [] && Median(deltas) < VDF_ADJUST_MIN_SECONDS
  }

  /** int(x * VDF_ADJUST_FACTOR). */
  function Bump(iterations: int): int {
    iterations * 102 / 100
  }

  /** get_vdf_iterations: a lookup inside an epoch, one window's median at its boundary. */
  function GetVdfIterations(chain: seq<Block>): int {
    var next := |chain|;
    if next < INTERVAL then VDF_ITERATIONS
    else
      var lastBoundary := (next / INTERVAL) * INTERVAL;
      if next > lastBoundary then chain[lastBoundary].vdfIterations
      else
        var windowStart := lastBoundary - INTERVAL;
        var prior := chain[windowStart].vdfIterations;
        if FastWindow(chain, windowStart, lastBoundary) then Bump(prior) else prior
  }

  /** Starting from VDF_ITERATIONS, one bump for every fast window. */
  function Decide(fast: seq<bool>): int {
    if fast == [] then VDF_ITERATIONS
    else
      var before := Decide(fast[..|fast| - 1]);
      if fast[|fast| - 1] then Bump(before) else before
  }

  /** Which of the first windows were fast. */
  function Windows(chain: seq<Block>, epochs: nat): (r: seq<bool>)
    requires epochs * INTERVAL <= |chain|
    ensures |r| == epochs
  {
    seq(epochs, i requires 0 <= i < epochs => FastWindow(chain, i * INTERVAL, (i + 1) * INTERVAL))
  }

  /** The rule of reference: decide every completed window from genesis on, from timestamps alone. */
  function EpochIterations(chain: seq<Block>, epoch: nat): int
    requires epoch * INTERVAL <= |chain|
  {
    Decide(Windows(chain, epoch))
  }

  /** Every block carries the iteration count the rule asked for when it was accepted
      (the comparison in _check_builder_and_vdf). */
  ghost predicate FollowsRule(chain: seq<Block>) {
    && chain != []
    && chain[0].vdfIterations == VDF_ITERATIONS
    && forall i :: 0 < i < |chain| ==> chain[i].vdfIterations == GetVdfIterations(chain[..i])
  }

  lemma WindowOfPrefix(chain: seq<Block>, n: nat, start: nat, end: nat)
    requires start <= end && 1 <= end <= n <= |chain|
    ensures FastWindow(chain[..n], start, end) == FastWindow(chain, start, end)
  {
    var lo := if start > 1 then start else 1;
    assert Gaps(chain[..n], lo, end) == Gaps(chain, lo, end);
  }

  lemma EpochOfPrefix(chain: seq<Block>, n: nat, epoch: nat)
    requires n <= |chain| && epoch * INTERVAL <= n
    ensures EpochIterations(chain[..n], epoch) == EpochIterations(chain, epoch)
  {
    var a, b := Windows(chain[..n], epoch), Windows(chain, epoch);
    forall i | 0 <= i < epoch ensures a[i] == b[i] {
      WindowOfPrefix(chain, n, i * INTERVAL, (i + 1) * INTERVAL);
    }
    assert a == b;
  }

  lemma EpochStep(chain: seq<Block>, epoch: nat)
    requires 0 < epoch && epoch * INTERVAL <= |chain|
    ensures EpochIterations(chain, epoch)
         == if FastWindow(chain, (epoch - 1) * INTERVAL, epoch * INTERVAL)
            then Bump(EpochIterations(chain, epoch - 1)) else EpochIterations(chain, epoch - 1)
  {
    assert Windows(chain, epoch)[..epoch - 1] == Windows(chain, epoch - 1);
  }

  /** The stored count the lookup relies on: the last boundary's, or the one before at a boundary. */
  function Consulted(next: nat): nat
    requires next >= INTERVAL
  {
    if next % INTERVAL == 0 then next - INTERVAL else next - next % INTERVAL
  }

  lemma LookupStep(chain: seq<Block>)
    requires |chain| >= INTERVAL
    requires chain[Consulted(|chain|)].vdfIterations == EpochIterations(chain, Consulted(|chain|) / INTERVAL)
    ensures GetVdfIterations(chain) == EpochIterations(chain, |chain| / INTERVAL)
  {
    hide EpochIterations, FastWindow, Bump;
    var next := |chain|;
    var epoch := next / INTERVAL;
    if next % INTERVAL == 0 {
      assert Consulted(next) == (epoch - 1) * INTERVAL;
      EpochStep(chain, epoch);
    } else {
      assert Consulted(next) == epoch * INTERVAL;
    }
  }

  /** Each block carries the count of its epoch. */
  lemma {:induction false} BlockCarriesEpoch(chain: seq<Block>, i: nat)
    requires FollowsRule(chain) && i < |chain|
    ensures chain[i].vdfIterations == EpochIterations(chain, i / INTERVAL)
    decreases i
  {
    if i > 0 {
      if i >= INTERVAL {
        var c := Consulted(i);
        BlockCarriesEpoch(chain, c);
        EpochOfPrefix(chain, i, c / INTERVAL);
        LookupStep(chain[..i]);
      }
      EpochOfPrefix(chain, i, i / INTERVAL);
    }
  }

  /** The constant-time lookup equals the recomputation from genesis, for every chain length. */
  lemma LookupIsRecomputation(chain: seq<Block>)
    requires FollowsRule(chain)
    ensures GetVdfIterations(chain) == EpochIterations(chain, |chain| / INTERVAL)
  {
    if |chain| >= INTERVAL {
      BlockCarriesEpoch(chain, Consulted(|chain|));
      LookupStep(chain);
    }
  }

  lemma {:induction false} DecideRises(fast: seq<bool>, n: nat)
    requires n <= |fast|
    ensures VDF_ITERATIONS <= Decide(fast[..n]) <= Decide(fast)
    decreases |fast|
  {
    if n < |fast| {
      var shorter := fast[..|fast| - 1];
      assert shorter[..n] == fast[..n];
      DecideRises(shorter, n);
    } else {
      assert fast[..n] == fast;
      if fast != [] {
        DecideRises(fast[..n - 1], n - 1);
        assert fast[..n - 1][..n - 1] == fast[..n - 1];
      }
    }
  }

  lemma EpochsRise(chain: seq<Block>, a: nat, b: nat)
    requires a <= b && b * INTERVAL <= |chain|
    ensures VDF_ITERATIONS <= EpochIterations(chain, a) <= EpochIterations(chain, b)
  {
    assert Windows(chain, b)[..a] == Windows(chain, a);
    DecideRises(Windows(chain, b), a);
  }

  /** On a chain that follows the rule the count is constant inside an epoch, never decreases, and
      never falls below VDF_ITERATIONS; the next block's count is no exception. */
  lemma DifficultyNeverFalls(chain: seq<Block>, i: nat, j: nat)
    requires FollowsRule(chain) && i <= j < |chain|
    ensures VDF_ITERATIONS <= chain[i].vdfIterations <= chain[j].vdfIterations <= GetVdfIterations(chain)
    ensures i / INTERVAL == j / INTERVAL ==> chain[i].vdfIterations == chain[j].vdfIterations
  {
    BlockCarriesEpoch(chain, i);
    BlockCarriesEpoch(chain, j);
    LookupIsRecomputation(chain);
    EpochsRise(chain, i / INTERVAL, j / INTERVAL);
    EpochsRise(chain, j / INTERVAL, |chain| / INTERVAL);
  }

  // ------------------------------------------------------------- what the median comparison means

  function Below(m: real): real -> bool {
    (x: real) => x < m
  }

  lemma {:induction false} LowHalf(t: seq<real>, m: real, k: nat)
    requires SortedBy(t, Itself()) && k < |t| && t[k] < m
    ensures |Filter(t, Below(m))| >= k + 1
  {
    LowPrefix(t, m, k);
    hide SortedBy, Filter;
    FilterAll(t[..k + 1], Below(m));
    CountSplit(t, m, k + 1);
  }

  lemma {:induction false} CountSplit(t: seq<real>, m: real, k: nat)
    requires k <= |t|
    ensures |Filter(t, Below(m))| == |Filter(t[..k], Below(m))| + |Filter(t[k..], Below(m))|
  {
    hide Filter;
    FilterConcat(t[..k], t[k..], Below(m));
    assert t[..k] + t[k..] == t;
  }

  lemma LowPrefix(t: seq<real>, m: real, k: nat)
    requires SortedBy(t, Itself()) && k < |t| && t[k] < m
    ensures forall x :: x in t[..k + 1] ==> Below(m)(x)
  {
    forall i | 0 <= i <= k ensures t[i] < m {
      assert i < k ==> Itself()(t[i]) <= Itself()(t[k]);
    }
  }

  lemma {:induction false} HighHalf(t: seq<real>, m: real, k: nat)
    requires SortedBy(t, Itself()) && k < |t| && t[k] >= m
    ensures |Filter(t, Below(m))| <= k
  {
    HighSuffix(t, m, k);
    hide SortedBy, Filter;
    FilterNone(t[k..], Below(m));
    CountSplit(t, m, k);
  }

  lemma HighSuffix(t: seq<real>, m: real, k: nat)
    requires SortedBy(t, Itself()) && k < |t| && t[k] >= m
    ensures forall x :: x in t[k..] ==> !Below(m)(x)
  {
    forall i | k <= i < |t| ensures t[i] >= m {
      assert k < i ==> Itself()(t[k]) <= Itself()(t[i]);
    }
  }

  /** A bump needs at least half of the window's gaps below the threshold; without one, at most half
      are below it. */
  lemma {:induction false} MedianSplits(s: seq<real>, m: real)
    requires s != []
    ensures Median(s) < m ==> 2 * |Filter(s, Below(m))| >= |s|
    ensures Median(s) >= m ==> 2 * |Filter(s, Below(m))| <= |s|
  {
    var t := SortBy(s, Itself());
    SortByIsSort(s, Itself());
    FilterSort(s, Itself(), Below(m));
    var mid := |t| / 2;
    if |t| % 2 == 0 {
      assert Itself()(t[mid - 1]) <= Itself()(t[mid]);
    }
    hide SortBy, Filter, SortedBy;
    if Median(s) < m {
      LowHalf(t, m, if |t| % 2 == 1 then mid else mid - 1);
    } else {
      HighHalf(t, m, mid);
    }
  }

  // ----------------------------------------------------------------- what a bump says of the timestamps

  /** How long block h took, in microseconds. */
  function GapAt(chain: seq<Block>, h: int): int
    requires 1 <= h < |chain|
  {
    chain[h].timestamp - chain[h - 1].timestamp
  }

  /** The blocks from height lo to hi - 1 that came less than 100 seconds after their parents. */
  ghost function Quick(chain: seq<Block>, lo: nat, hi: nat): set<int>
    requires 1 <= lo <= hi <= |chain|
  {
    set h | lo <= h < hi && GapAt(chain, h) < 100 * SECOND
  }

  lemma QuickGrows(chain: seq<Block>, lo: nat, hi: nat)
    requires 1 <= lo < hi <= |chain|
    ensures |Quick(chain, lo, hi)|
         == |Quick(chain, lo, hi - 1)| + if GapAt(chain, hi - 1) < 100 * SECOND then 1 else 0
  {
    var before := Quick(chain, lo, hi - 1);
    assert Quick(chain, lo, hi) == if GapAt(chain, hi - 1) < 100 * SECOND then before + {hi - 1} else before;
  }

  lemma GapsGrow(chain: seq<Block>, lo: nat, hi: nat)
    requires 1 <= lo < hi <= |chain|
    ensures Gaps(chain, lo, hi) == Gaps(chain, lo, hi - 1) + [GapAt(chain, hi - 1) as real / SECOND as real]
  {
  }

  lemma {:induction false} QuickCount(chain: seq<Block>, lo: nat, hi: nat)
    requires 1 <= lo <= hi <= |chain|
    ensures |Filter(Gaps(chain, lo, hi), Below(VDF_ADJUST_MIN_SECONDS))| == |Quick(chain, lo, hi)|
    decreases hi
  {
    if lo == hi {
      assert Quick(chain, lo, hi) == {};
    } else {
      var gap := GapAt(chain, hi - 1) as real / SECOND as real;
      GapsGrow(chain, lo, hi);
      QuickGrows(chain, lo, hi);
      QuickCount(chain, lo, hi - 1);
      OneMoreBelow(Gaps(chain, lo, hi - 1), gap);
      hide Filter, Gaps, Quick;
    }
  }

  lemma {:induction false} OneMoreBelow(gaps: seq<real>, gap: real)
    ensures var m := Below(VDF_ADJUST_MIN_SECONDS);
      |Filter(gaps + [gap], m)| == |Filter(gaps, m)| + if gap < VDF_ADJUST_MIN_SECONDS then 1 else 0
  {
    var m := Below(VDF_ADJUST_MIN_SECONDS);
    FilterConcat(gaps, [gap], m);
    FilterFirst([gap], m);
    assert [gap][1..] == [] && Filter([], m) == [];
    hide Filter;
  }

  lemma {:induction false} TieSplits(t: seq<real>, m: real)
    requires t != [] && SortedBy(t, Itself()) && 2 * |Filter(t, Below(m))| == |t|
    ensures t[|t| / 2 - 1] < m <= t[|t| / 2]
  {
    hide SortedBy, Filter;
    var mid := |t| / 2;
    if t[mid - 1] >= m {
      HighHalf(t, m, mid - 1);
    }
    if t[mid] < m {
      LowHalf(t, m, mid);
    }
  }

  lemma SortedAround(t: seq<real>, k: nat, x: real)
    requires SortedBy(t, Itself()) && 0 < k < |t| && x in t
    ensures x <= t[k - 1] || t[k] <= x
  {
    var n :| 0 <= n < |t| && t[n] == x;
    if n < k {
      assert n < k - 1 ==> Itself()(t[n]) <= Itself()(t[k - 1]);
    } else {
      assert k < n ==> Itself()(t[k]) <= Itself()(t[n]);
    }
  }

  lemma PlaceOf(s: seq<real>, x: real) returns (i: nat)
    requires x in s
    ensures i < |s| && s[i] == x
  {
    i :| 0 <= i < |s| && s[i] == x;
  }

  lemma {:induction false} SortedCopy(s: seq<real>, m: real)
    ensures
      var t := SortBy(s, Itself());
      && |t| == |s| && SortedBy(t, Itself()) && |Filter(t, Below(m))| == |Filter(s, Below(m))|
      && forall x :: x in s <==> x in t
  {
    SortByIsSort(s, Itself());
    FilterSort(s, Itself(), Below(m));
    SortKeepsMembers(s, Itself());
    hide SortBy, Filter;
  }

  /** Half of s below m, half not: the median lies between the largest below and the smallest not below. */
  lemma MedianTie(s: seq<real>, m: real) returns (i: nat, j: nat)
    requires s != [] && 2 * |Filter(s, Below(m))| == |s|
    ensures i < |s| && j < |s| && s[i] < m <= s[j] && Median(s) == (s[i] + s[j]) / 2.0
    ensures forall k :: 0 <= k < |s| ==> s[k] <= s[i] || s[j] <= s[k]
  {
    SortedCopy(s, m);
    hide SortBy, Filter, SortedBy;
    var t := SortBy(s, Itself());
    var mid := |s| / 2;
    TieSplits(t, m);
    i := PlaceOf(s, t[mid - 1]);
    j := PlaceOf(s, t[mid]);
    forall k | 0 <= k < |s| ensures s[k] <= s[i] || s[j] <= s[k] {
      SortedAround(t, mid, s[k]);
    }
  }

  /** next is the right count for the block after chain, at the end of a window. With more than half of its gaps
      under 100 seconds it is 1.02 times the window's, rounded down; with less than half it is the window's. With
      exactly half, it rises if and only if the largest of those gaps and the smallest of the others add up to less
      than 200 seconds. */
  ghost predicate Retargeted(chain: seq<Block>, next: int)
    requires chain != [] && |chain| % INTERVAL == 0
  {
    var n := |chain|;
    var start := n - INTERVAL;
    var lo := if start > 1 then start else 1;
    var prior, quick := chain[start].vdfIterations, |Quick(chain, lo, n)|;
    && (next == prior || next == prior * 102 / 100)
    && (2 * quick > n - lo ==> next == prior * 102 / 100)
    && (2 * quick < n - lo ==> next == prior)
    && (2 * quick == n - lo ==> exists q, s ::
          && Middle(chain, lo, q, s)
          && next == if GapAt(chain, q) + GapAt(chain, s) < 200 * SECOND then prior * 102 / 100 else prior)
  }

  /** Block q took longest of the quick ones from height lo on, block s shortest of the others. */
  ghost predicate Middle(chain: seq<Block>, lo: nat, q: int, s: int)
    requires 1 <= lo <= |chain|
  {
    var quick := Quick(chain, lo, |chain|);
    && q in quick && lo <= s < |chain| && s !in quick
    && (forall h :: h in quick ==> GapAt(chain, h) <= GapAt(chain, q))
    && forall h :: lo <= h < |chain| && h !in quick ==> GapAt(chain, s) <= GapAt(chain, h)
  }

  /** The rule in timestamps. */
  lemma RetargetMeaning(chain: seq<Block>)
    requires chain != [] && |chain| % INTERVAL == 0
    ensures Retargeted(chain, GetVdfIterations(chain))
  {
    var n := |chain|;
    var start := n - INTERVAL;
    var lo := if start > 1 then start else 1;
    BoundaryCount(chain);
    hide GetVdfIterations, FastWindow, Median, Filter, Gaps, Quick, GapAt, Middle;
    MedianSplits(Gaps(chain, lo, n), VDF_ADJUST_MIN_SECONDS);
    QuickCount(chain, lo, n);
    if 2 * |Quick(chain, lo, n)| == n - lo {
      var q, s := MiddleIs(chain, lo);
    }
  }

  lemma MiddleIs(chain: seq<Block>, lo: nat) returns (q: int, s: int)
    requires 1 <= lo < |chain| && 2 * |Quick(chain, lo, |chain|)| == |chain| - lo
    ensures Middle(chain, lo, q, s)
    ensures GapAt(chain, q) + GapAt(chain, s) < 200 * SECOND
       <==> Median(Gaps(chain, lo, |chain|)) < VDF_ADJUST_MIN_SECONDS
  {
    hide Median, Filter, Gaps, Quick, GapAt;
    QuickCount(chain, lo, |chain|);
    var i, j := MedianTie(Gaps(chain, lo, |chain|), VDF_ADJUST_MIN_SECONDS);
    TieInSeconds(chain, lo, |chain|, i, j);
    q, s := lo + i, lo + j;
  }

  lemma BoundaryCount(chain: seq<Block>)
    requires chain != [] && |chain| % INTERVAL == 0
    ensures
      var n := |chain|;
      var start := n - INTERVAL;
      var gaps, prior := Gaps(chain, if start > 1 then start else 1, n), chain[start].vdfIterations;
      gaps != []
      && GetVdfIterations(chain) == if Median(gaps) < VDF_ADJUST_MIN_SECONDS then prior * 102 / 100 else prior
  {
    hide Median;
    assert (|chain| / INTERVAL) * INTERVAL == |chain|;
  }

  lemma TieInSeconds(chain: seq<Block>, lo: nat, n: nat, i: nat, j: nat)
    requires 1 <= lo <= n == |chain| && i < n - lo && j < n - lo
    requires
      var gaps := Gaps(chain, lo, n);
      && gaps[i] < VDF_ADJUST_MIN_SECONDS <= gaps[j]
      && forall k :: 0 <= k < |gaps| ==> gaps[k] <= gaps[i] || gaps[j] <= gaps[k]
    ensures
      var gaps, q, s, quick := Gaps(chain, lo, n), lo + i, lo + j, Quick(chain, lo, n);
      && q in quick && s !in quick
      && (forall h :: h in quick ==> GapAt(chain, h) <= GapAt(chain, q))
      && (forall h :: lo <= h < n && h !in quick ==> GapAt(chain, s) <= GapAt(chain, h))
      && ((gaps[i] + gaps[j]) / 2.0 < VDF_ADJUST_MIN_SECONDS <==> GapAt(chain, q) + GapAt(chain, s) < 200 * SECOND)
  {
    var gaps := Gaps(chain, lo, n);
    forall h | lo <= h < n
      ensures gaps[h - lo] == GapAt(chain, h) as real / SECOND as real
      ensures GapAt(chain, h) <= GapAt(chain, lo + i) || GapAt(chain, lo + j) <= GapAt(chain, h)
    {
      assert gaps[h - lo] <= gaps[i] || gaps[j] <= gaps[h - lo];
    }
  }

  /** Between the ends of windows the count is the one stored at the last end. */
  lemma BetweenRetargets(chain: seq<Block>)
    requires |chain| % INTERVAL != 0
    ensures
      var last := |chain| - |chain| % INTERVAL;
      GetVdfIterations(chain) == if last == 0 then VDF_ITERATIONS else chain[last].vdfIterations
  {
    assert |chain| == (|chain| / INTERVAL) * INTERVAL + |chain| % INTERVAL;
  }
}
