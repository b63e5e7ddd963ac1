/** Weighted selection arithmetic: which pool entry a draw lands on, and how many of the
    2^32 session hashes each entry receives. Sums are kept in 64 bits, as the code keeps them. */
module Selection {
  import opened Wrappers

  /** Number of values a CRC-32 checksum can take. */
  const HASHES: nat := 0x1_0000_0000

  ghost predicate Weights(ws: seq<int>) {
    ws != [] && forall i | 0 <= i < |ws| :: 0 <= ws[i]
  }

  ghost predicate Positive(ws: seq<int>) {
    ws != [] && forall i | 0 <= i < |ws| :: 1 <= ws[i]
  }

  /** The scan counts a weight of zero as one. */
  function Share(w: int): int {
    if w == 0 then 1 else w
  }

  /** Sum of the weights as configured, zeros included. */
  function Sum(ws: seq<int>): int {
    if ws == [] then 0 else Sum(ws[..|ws| - 1]) + ws[|ws| - 1]
  }

  /** Number of values a draw is taken from. */
  function Total(ws: seq<int>): int {
    if Sum(ws) == 0 then |ws| else Sum(ws)
  }

  /** Where entry i starts: the shares of the entries before it. */
  function Start(ws: seq<int>, i: nat): int
    requires i <= |ws|
  {
    if i == 0 then 0 else Start(ws, i - 1) + Share(ws[i - 1])
  }

  /** The entry whose interval contains the draw, searched from the last entry down. */
  function Slot(ws: seq<int>, draw: int): (i: nat)
    requires Weights(ws)
    requires 0 <= draw < Start(ws, |ws|)
    ensures i < |ws|
    ensures Start(ws, i) <= draw < Start(ws, i + 1)
  {
    SlotBelow(ws, draw, |ws|)
  }

  function SlotBelow(ws: seq<int>, draw: int, n: nat): (i: nat)
    requires n <= |ws|
    requires 0 <= draw < Start(ws, n)
    ensures i < n
    ensures Start(ws, i) <= draw < Start(ws, i + 1)
  {
    if Start(ws, n - 1) <= draw then n - 1 else SlotBelow(ws, draw, n - 1)
  }

  // ----- The selection as the code does it -----------------------------------------------------

  /** The total of the first loop: a wrapped sum, or the number of entries for a sum of zero. */
  function CodeTotal(ws: seq<int>): int {
    if Wrap64(Sum(ws)) == 0 then |ws| else Wrap64(Sum(ws))
  }

  /** The running total before entry i. */
  function Running(ws: seq<int>, i: nat): Int64
    requires i <= |ws|
  {
    Wrap64(Start(ws, i))
  }

  /** The first entry from k on whose running total exceeds the draw; none is |ws|. */
  function FirstAbove(ws: seq<int>, draw: int, k: nat): (i: nat)
    requires k <= |ws|
    ensures k <= i <= |ws|
    ensures i < |ws| ==> draw < Running(ws, i + 1)
    ensures forall j: nat | k < j <= i :: Running(ws, j) <= draw
    decreases |ws| - k
  {
    if k == |ws| || draw < Running(ws, k + 1) then k else FirstAbove(ws, draw, k + 1)
  }

  /** The entry the scan returns: the first one when it falls through. */
  function Scanned(ws: seq<int>, draw: int): (i: nat)
    requires ws != []
    ensures i < |ws|
  {
    if FirstAbove(ws, draw, 0) < |ws| then FirstAbove(ws, draw, 0) else 0
  }

  method WeightTotal(ws: seq<int>) returns (total: int)
    ensures total == CodeTotal(ws)
  {
    total := 0;
    for i := 0 to |ws|
      invariant total == Wrap64(Sum(ws[..i]))
    {
      assert ws[..i + 1][..i] == ws[..i];
      WrapAdd(Sum(ws[..i]), ws[i]);
      total := Wrap64(total + ws[i]);
    }
    assert ws[..|ws|] == ws;
    if total == 0 {
      total := |ws|;
    }
  }

  lemma RunningNext(ws: seq<int>, k: nat)
    requires k < |ws|
    ensures Wrap64(Running(ws, k) + Share(ws[k])) == Running(ws, k + 1)
  {
    WrapAdd(Start(ws, k), Share(ws[k]));
  }

  /** The scan of Router.Pick, fall-through included. */
  method Scan(ws: seq<int>, draw: int) returns (i: nat)
    requires ws != []
    ensures i == Scanned(ws, draw)
  {
    var acc := 0;
    for k := 0 to |ws|
      invariant acc == Running(ws, k)
      invariant FirstAbove(ws, draw, 0) == FirstAbove(ws, draw, k)
    {
      var w := ws[k];
      if w == 0 {
        w := 1;
      }
      RunningNext(ws, k);
      acc := Wrap64(acc + w);
      if draw < acc {
        return k;
      }
    }
    return 0;
  }

  // ----- Intervals -----------------------------------------------------------------------------

  lemma {:induction false} StartMonotone(ws: seq<int>, i: nat, j: nat)
    requires Weights(ws)
    requires i <= j <= |ws|
    ensures j - i <= Start(ws, j) - Start(ws, i)
    decreases j
  {
    if i < j {
      StartMonotone(ws, i, j - 1);
    }
  }

  lemma {:induction false} StartOfPrefix(ws: seq<int>, n: nat, i: nat)
    requires i <= n <= |ws|
    ensures Start(ws[..n], i) == Start(ws, i)
  {
    if 0 < i {
      StartOfPrefix(ws, n, i - 1);
    }
  }

  lemma {:induction false} SumWithinShares(ws: seq<int>)
    requires forall i | 0 <= i < |ws| :: 0 <= ws[i]
    ensures 0 <= Sum(ws) <= Start(ws, |ws|)
    ensures |ws| <= Start(ws, |ws|)
    ensures (forall i | 0 <= i < |ws| :: 1 <= ws[i]) ==> Sum(ws) == Start(ws, |ws|)
  {
    if ws != [] {
      var front := ws[..|ws| - 1];
      SumWithinShares(front);
      StartOfPrefix(ws, |ws| - 1, |ws| - 1);
    }
  }

  /** A draw never runs past the last interval, whatever mix of zero and positive weights;
      with positive weights the intervals end exactly at the total. */
  lemma TotalWithinShares(ws: seq<int>)
    requires Weights(ws)
    ensures 1 <= Total(ws) <= Start(ws, |ws|)
    ensures Positive(ws) ==> Total(ws) == Start(ws, |ws|)
  {
    SumWithinShares(ws);
  }

  /** Entry i is chosen by exactly the draws of its own interval. */
  lemma SlotIsInterval(ws: seq<int>, draw: int, i: nat)
    requires Weights(ws)
    requires i < |ws|
    requires 0 <= draw < Start(ws, |ws|)
    ensures Slot(ws, draw) == i <==> Start(ws, i) <= draw < Start(ws, i + 1)
  {
    var k := Slot(ws, draw);
    if i < k {
      StartMonotone(ws, i + 1, k);
    } else if k < i {
      StartMonotone(ws, k + 1, i);
    }
  }

  // ----- Exactly when 64 bits are enough -------------------------------------------------------

  /** Where the last entry that a draw can reach ends. */
  function Reach(ws: seq<int>): int
    requires Weights(ws)
  {
    TotalWithinShares(ws);
    Start(ws, Slot(ws, Total(ws) - 1) + 1)
  }

  /** The code draws below the true total, and every draw selects the entry of its interval. */
  ghost predicate Exact(ws: seq<int>)
    requires Weights(ws)
  {
    TotalWithinShares(ws);
    && CodeTotal(ws) == Total(ws)
    && forall draw | 0 <= draw < Total(ws) :: Scanned(ws, draw) == Slot(ws, draw)
  }

  /** As long as the running totals fit, the scan stops in the interval of the draw. */
  lemma ScanFindsSlot(ws: seq<int>, draw: int)
    requires Weights(ws) && 0 <= draw < Start(ws, |ws|)
    requires Start(ws, Slot(ws, draw) + 1) < LIMIT
    ensures Scanned(ws, draw) == Slot(ws, draw)
    ensures FirstAbove(ws, draw, 0) < |ws|
  {
    var i, j := Slot(ws, draw), FirstAbove(ws, draw, 0);
    if j < i {
      StartMonotone(ws, 0, j + 1);
      StartMonotone(ws, j + 1, i);
    }
    StartMonotone(ws, 0, i + 1);
    assert draw < Running(ws, i + 1);
  }

  /** When the running total wraps at the draw's own entry, the scan misses that entry. */
  lemma ScanMissesSlot(ws: seq<int>, draw: int)
    requires Weights(ws) && 0 <= draw < Start(ws, |ws|) && draw < LIMIT
    requires forall i | 0 <= i < |ws| :: ws[i] < LIMIT
    requires LIMIT <= Start(ws, Slot(ws, draw) + 1)
    ensures Scanned(ws, draw) != Slot(ws, draw)
  {
  }

  /** Selection is by intervals, and the fall-through never taken, if and only if the intervals
      that draws can reach end below 2^63. */
  lemma ExactIffReach(ws: seq<int>)
    requires Weights(ws) && |ws| < LIMIT && forall i | 0 <= i < |ws| :: ws[i] < LIMIT
    ensures Exact(ws) <==> Reach(ws) < LIMIT
    ensures Exact(ws) ==> forall draw | 0 <= draw < Total(ws) :: FirstAbove(ws, draw, 0) < |ws|
  {
    TotalWithinShares(ws);
    SumWithinShares(ws);
    if Reach(ws) < LIMIT {
      forall draw | 0 <= draw < Total(ws)
        ensures Scanned(ws, draw) == Slot(ws, draw) && FirstAbove(ws, draw, 0) < |ws|
      {
        ScanWithinReach(ws, draw);
      }
    } else if Exact(ws) {
      ScanMissesSlot(ws, Total(ws) - 1);
    }
  }

  lemma ScanWithinReach(ws: seq<int>, draw: int)
    requires Weights(ws) && 0 <= draw < Total(ws) && Reach(ws) < LIMIT
    ensures draw < Start(ws, |ws|) && Scanned(ws, draw) == Slot(ws, draw)
    ensures FirstAbove(ws, draw, 0) < |ws|
  {
    TotalWithinShares(ws);
    SlotsAscend(ws, draw, Total(ws) - 1);
    StartMonotone(ws, Slot(ws, draw) + 1, Slot(ws, Total(ws) - 1) + 1);
    ScanFindsSlot(ws, draw);
  }

  lemma SlotsAscend(ws: seq<int>, d: int, e: int)
    requires Weights(ws) && 0 <= d <= e < Start(ws, |ws|)
    ensures Slot(ws, d) <= Slot(ws, e)
  {
    if Slot(ws, e) < Slot(ws, d) {
      StartMonotone(ws, Slot(ws, e) + 1, Slot(ws, d));
    }
  }

  /** With weights of at least 1, as the loader leaves them, that is: if and only if the weights
      add up to less than 2^63. */
  lemma ExactIffSumFits(ws: seq<int>)
    requires Positive(ws) && |ws| < LIMIT && forall i | 0 <= i < |ws| :: ws[i] < LIMIT
    ensures Exact(ws) <==> Sum(ws) < LIMIT
  {
    TotalWithinShares(ws);
    SumWithinShares(ws);
    ExactIffReach(ws);
    SlotIsInterval(ws, Total(ws) - 1, |ws| - 1);
  }

  lemma OneWeight(a: int)
    ensures Sum([a]) == a
  {
    assert [a][..0] == [];
  }

  lemma TwoWeights(a: int, b: int)
    ensures Sum([a, b]) == a + b
    ensures Start([a, b], 1) == Share(a) && Start([a, b], 2) == Share(a) + Share(b)
  {
    assert [a, b][..1] == [a];
    OneWeight(a);
    assert Start([a, b], 0) == 0;
  }

  /** A pool the validator accepts whose weights are 1 and 2^63 - 1: the total wraps to -2^63, the
      running total to the same, and every draw but 0 falls through to the first entry, though its
      interval is the second one's. */
  lemma OverflowFallsThrough(draw: int)
    requires 1 <= draw < LIMIT
    ensures var ws := [1, LIMIT - 1];
            && Weights(ws) && CodeTotal(ws) == -LIMIT
            && FirstAbove(ws, draw, 0) == |ws| && Scanned(ws, draw) == 0
            && draw < Start(ws, |ws|) && Slot(ws, draw) == 1
  {
    var ws := [1, LIMIT - 1];
    TwoWeights(1, LIMIT - 1);
    SlotIsInterval(ws, draw, 1);
    assert Running(ws, 1) == 1 && Running(ws, 2) == -LIMIT;
  }

  /** The integers in [lo, hi). */
  function Interval(lo: int, hi: int): (r: set<int>)
    ensures forall d :: d in r <==> lo <= d < hi
    ensures |r| == if lo < hi then hi - lo else 0
    decreases hi - lo
  {
    if hi <= lo then {} else Interval(lo, hi - 1) + {hi - 1}
  }

  /** The draws below the code's total for which its scan returns entry i. */
  ghost function DrawsFor(ws: seq<int>, i: nat): set<int>
    requires ws != []
  {
    set draw | 0 <= draw < CodeTotal(ws) && Scanned(ws, draw) == i
  }

  lemma DrawsAreInterval(ws: seq<int>, i: nat)
    requires Positive(ws) && Sum(ws) < LIMIT
    requires i < |ws|
    ensures CodeTotal(ws) == Sum(ws)
    ensures DrawsFor(ws, i) == Interval(Start(ws, i), Start(ws, i + 1))
  {
    SumWithinShares(ws);
    StartMonotone(ws, 0, i);
    StartMonotone(ws, i + 1, |ws|);
    forall d ensures d in DrawsFor(ws, i) <==> Start(ws, i) <= d < Start(ws, i + 1) {
      if 0 <= d < Sum(ws) {
        ScanIsSlot(ws, d);
        SlotIsInterval(ws, d, i);
      }
    }
  }

  /** With positive weights that add up within 64 bits, the draws for entry i are exactly the
      integers between its prefix sums, there are weight-many of them, every draw belongs to
      exactly one entry, and none falls through. */
  lemma DrawsArePartition(ws: seq<int>, i: nat)
    requires Positive(ws) && Sum(ws) < LIMIT
    requires i < |ws|
    ensures CodeTotal(ws) == Sum(ws)
    ensures DrawsFor(ws, i) == Interval(Start(ws, i), Start(ws, i + 1))
    ensures |DrawsFor(ws, i)| == ws[i]
    ensures forall d | 0 <= d < Sum(ws) ::
              FirstAbove(ws, d, 0) < |ws| && exists k: nat :: k < |ws| && d in DrawsFor(ws, k)
    ensures forall k: nat | k < |ws| && k != i :: DrawsFor(ws, k) !! DrawsFor(ws, i)
  {
    DrawsAreInterval(ws, i);
    forall d | 0 <= d < Sum(ws)
      ensures FirstAbove(ws, d, 0) < |ws| && exists k: nat :: k < |ws| && d in DrawsFor(ws, k)
    {
      ScanIsSlot(ws, d);
      assert d in DrawsFor(ws, Scanned(ws, d));
    }
  }

  lemma ScanIsSlot(ws: seq<int>, draw: int)
    requires Positive(ws) && Sum(ws) < LIMIT && 0 <= draw < Sum(ws)
    ensures draw < Start(ws, |ws|) && Scanned(ws, draw) == Slot(ws, draw)
    ensures FirstAbove(ws, draw, 0) < |ws|
  {
    SumWithinShares(ws);
    StartMonotone(ws, Slot(ws, draw) + 1, |ws|);
    ScanFindsSlot(ws, draw);
  }

  lemma AtLeastOnce(d: int, t: int)
    requires 1 <= d && 0 < t
    ensures t <= d * t
  {
  }

  lemma Distribute(a: int, b: int, t: int)
    ensures (a - b) * t == a * t - b * t
  {
  }

  lemma DivisionUnique(q: int, r: int, q': int, r': int, t: int)
    requires 0 <= r < t && 0 <= r' < t
    requires q * t + r == q' * t + r'
    ensures q == q' && r == r'
  {
    Distribute(q, q', t);
    Distribute(q', q, t);
    if q' < q {
      AtLeastOnce(q - q', t);
    } else if q < q' {
      AtLeastOnce(q' - q, t);
    }
  }

  lemma Division(n: int, t: int)
    requires 0 < t
    ensures n == (n / t) * t + n % t
    ensures 0 <= n % t < t
  {
  }

  lemma Remainder(n: int, q: int, r: int, t: int)
    requires 0 <= r < t
    requires n == q * t + r
    ensures n % t == r && n / t == q
  {
    Division(n, t);
    DivisionUnique(q, r, n / t, n % t, t);
  }

  /** The hashes below n whose remainder by total falls in [lo, hi). */
  ghost function Residues(n: nat, total: int, lo: int, hi: int): set<int>
    requires 0 < total
  {
    set h | 0 <= h < n && lo <= h % total < hi
  }

  ghost function Tally(n: nat, total: int, lo: int, hi: int): nat
    requires 0 < total
  {
    if n == 0 then 0 else Tally(n - 1, total, lo, hi) + if lo <= (n - 1) % total < hi then 1 else 0
  }

  lemma {:induction false} TallyCounts(n: nat, total: int, lo: int, hi: int)
    requires 0 < total
    ensures Tally(n, total, lo, hi) == |Residues(n, total, lo, hi)|
  {
    if n == 0 {
      assert Residues(n, total, lo, hi) == {};
    } else {
      TallyCounts(n - 1, total, lo, hi);
      var rest := Residues(n - 1, total, lo, hi);
      assert Residues(n, total, lo, hi) == if lo <= (n - 1) % total < hi then rest + {n - 1} else rest;
    }
  }

  /** Size of the overlap of [lo, hi) with [0, r). */
  function Overlap(r: int, lo: int, hi: int): int {
    if r <= lo then 0 else if r < hi then r - lo else hi - lo
  }

  /** Multiplication as repeated addition, which keeps the counting proof linear. */
  ghost function Times(a: int, q: nat): int {
    if q == 0 then 0 else Times(a, q - 1) + a
  }

  lemma {:induction false} TimesIsProduct(a: int, q: nat)
    ensures Times(a, q) == q * a
  {
    if q != 0 {
      TimesIsProduct(a, q - 1);
      Distribute(q, 1, a);
    }
  }

  lemma RemainderOfTimes(q: nat, r: nat, total: int)
    requires r < total
    ensures (Times(total, q) + r) % total == r
  {
    TimesIsProduct(total, q);
    Remainder(q * total + r, q, r, total);
  }

  lemma {:induction false} TallyClosedForm(n: nat, q: nat, r: nat, total: int, lo: int, hi: int)
    requires 0 <= lo <= hi <= total && r < total
    requires n == Times(total, q) + r
    ensures Tally(n, total, lo, hi) == Times(hi - lo, q) + Overlap(r, lo, hi)
    decreases q, r
  {
    if r != 0 {
      RemainderOfTimes(q, r - 1, total);
      TimesIsNonNegative(total, q);
      TallyClosedForm(n - 1, q, r - 1, total, lo, hi);
    } else if q != 0 {
      RemainderOfTimes(q - 1, total - 1, total);
      TimesIsNonNegative(total, q - 1);
      TallyClosedForm(n - 1, q - 1, total - 1, total, lo, hi);
    }
  }

  lemma {:induction false} TimesIsNonNegative(a: nat, q: nat)
    ensures 0 <= Times(a, q)
  {
    if q != 0 {
      TimesIsNonNegative(a, q - 1);
    }
  }

  lemma Ceiling(n: nat, t: int)
    requires 0 < t
    ensures (n + t - 1) / t == n / t + if n % t == 0 then 0 else 1
  {
    Division(n, t);
    if n % t == 0 {
      Remainder(n + t - 1, n / t, t - 1, t);
    } else {
      Distribute(n / t + 1, 1, t);
      Remainder(n + t - 1, n / t + 1, n % t - 1, t);
    }
  }

  /** The entry the code selects for a session hash. The remainder of a number that is not negative
      is the same in Go for a positive and a negative total. */
  function HashPick(ws: seq<int>, h: nat): (i: nat)
    requires ws != []
    ensures i < |ws|
  {
    Scanned(ws, h % CodeTotal(ws))
  }

  /** The session hashes, out of all 2^32, for which the code selects entry i. */
  ghost function HashesFor(ws: seq<int>, i: nat): set<int>
    requires ws != []
  {
    set h: nat | h < HASHES && HashPick(ws, h) == i
  }

  lemma HashesAreResidues(ws: seq<int>, i: nat)
    requires Positive(ws) && Sum(ws) < LIMIT
    requires i < |ws|
    ensures 0 < Sum(ws)
    ensures HashesFor(ws, i) == Residues(HASHES, Sum(ws), Start(ws, i), Start(ws, i + 1))
  {
    SumWithinShares(ws);
    StartMonotone(ws, 0, i);
    forall h: int
      ensures h in HashesFor(ws, i) <==> h in Residues(HASHES, Sum(ws), Start(ws, i), Start(ws, i + 1))
    {
      if 0 <= h < HASHES {
        Division(h, Sum(ws));
        ScanIsSlot(ws, h % Sum(ws));
        SlotIsInterval(ws, h % Sum(ws), i);
      }
    }
  }

  lemma QuotientOfNat(n: nat, t: int)
    requires 0 < t
    ensures 0 <= n / t && 0 <= n % t < t && n == (n / t) * t + n % t
  {
  }

  lemma ResidueCount(n: nat, total: int, lo: int, hi: int)
    requires 0 <= lo <= hi <= total && 0 < total
    ensures |Residues(n, total, lo, hi)| == (n / total) * (hi - lo) + Overlap(n % total, lo, hi)
  {
    QuotientOfNat(n, total);
    var q, r := n / total, n % total;
    TallyCounts(n, total, lo, hi);
    TimesIsProduct(total, q);
    TallyClosedForm(n, q, r, total, lo, hi);
    TimesIsProduct(hi - lo, q);
  }

  /** Exact share of the hash space: weight times the quotient of 2^32 by the total, plus the
      part of the entry's interval below the remainder. */
  lemma HashShare(ws: seq<int>, i: nat)
    requires Positive(ws) && Sum(ws) < LIMIT
    requires i < |ws|
    ensures 0 < Sum(ws)
    ensures |HashesFor(ws, i)| ==
            (HASHES / Sum(ws)) * ws[i] + Overlap(HASHES % Sum(ws), Start(ws, i), Start(ws, i + 1))
  {
    SumWithinShares(ws);
    HashesAreResidues(ws, i);
    StartMonotone(ws, 0, i);
    StartMonotone(ws, i + 1, |ws|);
    ResidueCount(HASHES, Sum(ws), Start(ws, i), Start(ws, i + 1));
  }

  lemma OneStep(w: int, q: int)
    ensures (q + 1) * w == q * w + w
  {
  }

  /** So every entry's share is proportional up to one rounding step: between its weight times
      the floor and its weight times the ceiling of 2^32 over the total. */
  lemma HashShareIsProportional(ws: seq<int>, i: nat)
    requires Positive(ws) && Sum(ws) < LIMIT
    requires i < |ws|
    ensures 0 < Sum(ws)
    ensures (HASHES / Sum(ws)) * ws[i] <= |HashesFor(ws, i)|
                                       <= ((HASHES + Sum(ws) - 1) / Sum(ws)) * ws[i]
  {
    HashShare(ws, i);
    StartMonotone(ws, 0, i);
    BetweenProducts(HASHES, Sum(ws), ws[i], Overlap(HASHES % Sum(ws), Start(ws, i), Start(ws, i + 1)));
  }

  lemma BetweenProducts(n: nat, t: int, w: int, part: int)
    requires 0 < t && 0 <= part <= w && (n % t == 0 ==> part == 0)
    ensures (n / t) * w <= (n / t) * w + part <= ((n + t - 1) / t) * w
  {
    Ceiling(n, t);
    OneStep(w, n / t);
  }
}
