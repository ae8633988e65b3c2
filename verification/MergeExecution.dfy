/** MapReduce::Execute's merge phase on its result array, and its merge rounds as concurrent runs. */
module MergeExecution {
  import opened Base
  import opened Merging
  import opened MergeSchedule

  // ---- Blocks ---------------------------------------------------------------------------

  function Pow2(j: nat): (p: nat)
    ensures p >= 1
  {
    if j == 0 then 1 else 2 * Pow2(j - 1)
  }

  function AfterRounds<T>(lt: (T, T) -> bool, shards: seq<seq<T>>, j: nat): Runs<T> {
    if j == 0 then Runs(shards, []) else Round(lt, AfterRounds(lt, shards, j - 1))
  }

  /** How many tasks a round of step 2 * half has. */
  function TaskCount(n: nat, half: nat): nat
    requires half >= 1
  {
    QuotientPositive(n, 2 * half);
    n / (2 * half)
  }

  lemma QuotientPositive(n: nat, d: nat)
    requires d > 0
    ensures n / d >= 0
  {
    assert n == d * (n / d) + n % d;
    MulBound(d, n / d);
  }

  lemma HalfOf(n: nat, p: nat)
    requires p >= 1
    ensures n / p / 2 == n / (2 * p)
  {
    var q, h := n / p, n / p / 2;
    assert n == p * q + n % p && q == 2 * h + q % 2;
    var rest := p * (q % 2) + n % p;
    assert p * q == p * (2 * h) + p * (q % 2);
    assert p * (2 * h) == (2 * p) * h;
    assert n == (2 * p) * h + rest;
    assert rest <= 2 * p - 1 by {
      if q % 2 == 1 {
        assert p * 1 == p;
      } else {
        assert p * 0 == 0;
      }
    }
    QuotientIs(n, 2 * p, h, rest);
  }

  lemma MulBound(d: int, e: int)
    requires d > 0
    ensures e >= 1 ==> d * e >= d
    ensures e <= -1 ==> d * e <= -d
  {
    if e >= 1 {
      assert d * e == d + d * (e - 1);
    } else if e <= -1 {
      assert d * e == -d + d * (e + 1);
    }
  }

  lemma QuotientIs(n: int, d: int, q: int, r: int)
    requires d > 0 && n == d * q + r && 0 <= r < d
    ensures n / d == q
  {
    var e := n / d - q;
    assert d * e == d * (n / d) - d * q;
    assert d * (n / d) + n % d == n;
    MulBound(d, e);
  }

  lemma BlockFits(n: nat, p: nat, k: nat)
    requires p >= 1 && k < n / p
    ensures 0 <= k * p <= (k + 1) * p <= n
  {
    assert (k + 1) * p <= (n / p) * p <= n;
    assert (k + 1) * p == k * p + p;
  }

  /** The k-th aligned block of p shards. */
  function Block<T>(shards: seq<seq<T>>, p: nat, k: nat): seq<seq<T>> {
    if k * p <= (k + 1) * p <= |shards| then shards[k * p..(k + 1) * p] else []
  }

  /** `run` holds exactly the rows of a full aligned block. */
  ghost predicate BlockOf<T>(shards: seq<seq<T>>, p: nat, k: nat, run: seq<T>) {
    (k + 1) * p <= |shards| && multiset(run) == multiset(Concat(Block(shards, p, k)))
  }

  /** For every shard count: after j rounds there is one run per full aligned block of 2^j shards,
      it is sorted, and it holds exactly the rows of those shards. */
  lemma {:induction false} BlocksAfterRounds<T(!new)>(lt: (T, T) -> bool, dom: iset<T>, shards: seq<seq<T>>, j: nat)
    requires WeakOrder(lt, dom) && GoodRuns(lt, dom, shards)
    ensures var r := AfterRounds(lt, shards, j);
            && |r.full| == |shards| / Pow2(j)
            && GoodRuns(lt, dom, r.full)
            && forall k | 0 <= k < |r.full| :: BlockOf(shards, Pow2(j), k, r.full[k])
  {
    var r := AfterRounds(lt, shards, j);
    if j == 0 {
      forall k | 0 <= k < |shards| ensures BlockOf(shards, 1, k, r.full[k]) {
        assert Block(shards, 1, k) == [shards[k]];
        ConcatSingle(shards[k]);
      }
    } else {
      var p := Pow2(j - 1);
      var before := AfterRounds(lt, shards, j - 1);
      BlocksAfterRounds(lt, dom, shards, j - 1);
      PairUpGood(lt, dom, before.full);
      HalfOf(|shards|, p);
      forall k | 0 <= k < |r.full| ensures BlockOf(shards, Pow2(j), k, r.full[k]) {
        PairUpAt(lt, before.full, k);
        JoinBlocks(lt, shards, p, k, before.full[2 * k], before.full[2 * k + 1]);
      }
    }
  }

  lemma Doubled(p: nat, k: nat)
    ensures k * (2 * p) == (2 * k) * p
    ensures (2 * k + 1) * p == (2 * k) * p + p
    ensures (k + 1) * (2 * p) == (2 * k) * p + 2 * p == (2 * k + 1 + 1) * p
  {
  }

  lemma BlockSplit<T>(shards: seq<seq<T>>, p: nat, k: nat)
    requires p >= 1 && k < |shards| / (2 * p)
    ensures (k + 1) * (2 * p) <= |shards|
    ensures Block(shards, 2 * p, k) == Block(shards, p, 2 * k) + Block(shards, p, 2 * k + 1)
  {
    BlockFits(|shards|, 2 * p, k);
    Doubled(p, k);
  }

  lemma JoinBlocks<T>(lt: (T, T) -> bool, shards: seq<seq<T>>, p: nat, k: nat, x: seq<T>, y: seq<T>)
    requires p >= 1 && k < |shards| / (2 * p)
    requires BlockOf(shards, p, 2 * k, x) && BlockOf(shards, p, 2 * k + 1, y)
    ensures BlockOf(shards, 2 * p, k, Merge(lt, x, y))
  {
    var a, b := Block(shards, p, 2 * k), Block(shards, p, 2 * k + 1);
    BlockSplit(shards, p, k);
    ConcatAppend(a, b);
    MergeKeepsRows(lt, x, y);
    assert multiset(Concat(a) + Concat(b)) == multiset(Concat(a)) + multiset(Concat(b));
  }

  // ---- The array ------------------------------------------------------------------------

  /** What one merge does to the whole array: only the slice `[lo, hi)` changes. */
  function SliceMerged<T>(lt: (T, T) -> bool, s: seq<T>, lo: nat, mid: nat, hi: nat): (r: seq<T>)
    requires lo <= mid <= hi <= |s|
    ensures |r| == |s|
  {
    s[..lo] + Merge(lt, s[lo..mid], s[mid..hi]) + s[hi..]
  }

  /** What `std::inplace_merge` demands: two adjacent sorted halves. */
  ghost predicate HalvesSorted<T>(lt: (T, T) -> bool, s: seq<T>, lo: nat, mid: nat, hi: nat) {
    lo <= mid <= hi <= |s| && Sorted(lt, s[lo..mid]) && Sorted(lt, s[mid..hi])
  }

  /** Stand-in for `std::inplace_merge`. */
  method InplaceMerge<T>(lt: (T, T) -> bool, a: array<T>, lo: nat, mid: nat, hi: nat)
    requires HalvesSorted(lt, a[..], lo, mid, hi)
    modifies a
    ensures a[..] == SliceMerged(lt, old(a[..]), lo, mid, hi)
  {
    ghost var was := a[..];
    var merged := Merge(lt, a[lo..mid], a[mid..hi]);
    assert was[lo..mid] == a[lo..mid] && was[mid..hi] == a[mid..hi];
    for i := 0 to |merged|
      invariant forall k | 0 <= k < i :: a[lo + k] == merged[k]
      invariant forall k | 0 <= k < lo || lo + i <= k < a.Length :: a[k] == was[k]
    {
      a[lo + i] := merged[i];
    }
    assert a[..] == SliceMerged(lt, was, lo, mid, hi);
  }

  /** `offsets` are the starts of the shards inside the result array, with one entry for its end. */
  ghost predicate Offsets<T>(offsets: seq<nat>, shards: seq<seq<T>>) {
    && |offsets| == |shards| + 1
    && forall k | 0 <= k <= |shards| :: offsets[k] == |Concat(shards[..k])|
  }

  /** The runs of step/2 shards start where `offsets` says. */
  ghost predicate Aligned<T>(offsets: seq<nat>, half: nat, n: nat, full: seq<seq<T>>) {
    && half >= 1
    && |offsets| == n + 1
    && |full| == n / half
    && forall k | 0 <= k <= |full| :: 0 <= k * half <= n && offsets[k * half] == |Concat(full[..k])|
  }

  lemma {:induction false} PairUpPrefix<T>(lt: (T, T) -> bool, runs: seq<seq<T>>, k: nat)
    requires k <= |runs| / 2
    ensures |Concat(PairUp(lt, runs)[..k])| == |Concat(runs[..2 * k])|
    decreases k
  {
    if k > 0 {
      PairUpPrefix(lt, runs, k - 1);
      PairUpAt(lt, runs, k - 1);
      var p := PairUp(lt, runs);
      assert p[..k] == p[..k - 1] + [p[k - 1]];
      ConcatAppend(p[..k - 1], [p[k - 1]]);
      ConcatSingle(p[k - 1]);
      assert runs[..2 * k] == runs[..2 * k - 2] + runs[2 * k - 2..2 * k];
      ConcatAppend(runs[..2 * k - 2], runs[2 * k - 2..2 * k]);
      ConcatTwo(runs[2 * k - 2..2 * k]);
    }
  }

  lemma NextAligned<T>(lt: (T, T) -> bool, offsets: seq<nat>, half: nat, n: nat, full: seq<seq<T>>)
    requires Aligned(offsets, half, n, full)
    ensures Aligned(offsets, 2 * half, n, PairUp(lt, full))
  {
    HalfOf(n, half);
    var p := PairUp(lt, full);
    forall k | 0 <= k <= |p| ensures 0 <= k * (2 * half) <= n && offsets[k * (2 * half)] == |Concat(p[..k])| {
      assert k * (2 * half) == (2 * k) * half;
      PairUpPrefix(lt, full, k);
    }
  }

  /** The array in the middle of a round: the first k pairs are merged, the others are not. */
  ghost function MidRound<T>(lt: (T, T) -> bool, r: Runs<T>, k: nat): seq<T>
    requires 2 * k <= |r.full|
  {
    Concat(PairUp(lt, r.full)[..k]) + Concat(r.full[2 * k..]) + Concat(r.tail)
  }

  lemma {:induction false} SlicePieces<T>(lt: (T, T) -> bool, x: seq<T>, a: seq<T>, b: seq<T>, y: seq<T>)
    ensures SliceMerged(lt, x + a + b + y, |x|, |x| + |a|, |x| + |a| + |b|) == x + Merge(lt, a, b) + y
    ensures HalvesSorted(lt, x + a + b + y, |x|, |x| + |a|, |x| + |a| + |b|) <==> Sorted(lt, a) && Sorted(lt, b)
  {
    var s := x + a + b + y;
    assert s[..|x|] == x && s[|x|..|x| + |a|] == a;
    assert s[|x| + |a|..|x| + |a| + |b|] == b && s[|x| + |a| + |b|..] == y;
  }

  /** A merge of the whole array. */
  lemma {:induction false} WholeSlice<T>(lt: (T, T) -> bool, a: seq<T>, b: seq<T>)
    ensures SliceMerged(lt, a + b, 0, |a|, |a| + |b|) == Merge(lt, a, b)
    ensures HalvesSorted(lt, a + b, 0, |a|, |a| + |b|) <==> Sorted(lt, a) && Sorted(lt, b)
  {
    hide Merge, Sorted;
    var s := a + b;
    assert s[0..|a|] == a && s[|a|..|a| + |b|] == b;
    assert [] + Merge(lt, a, b) + [] == Merge(lt, a, b);
  }

  lemma StepOffsets<T>(offsets: seq<nat>, half: nat, n: nat, full: seq<seq<T>>, k: nat)
    requires Aligned(offsets, half, n, full) && k < |full| / 2
    ensures var i := k * (2 * half);
            var at := |Concat(full[..2 * k])|;
            && i + 2 * half <= n
            && offsets[i] == at
            && offsets[i + half] == at + |full[2 * k]|
            && offsets[i + 2 * half] == at + |full[2 * k]| + |full[2 * k + 1]|
  {
    var i := k * (2 * half);
    assert i == (2 * k) * half && i + half == (2 * k + 1) * half && i + 2 * half == (2 * k + 1 + 1) * half;
    PrefixStep(full, 2 * k);
    PrefixStep(full, 2 * k + 1);
  }

  lemma Reassociate<T>(x: seq<T>, a: seq<T>, b: seq<T>, c: seq<T>, t: seq<T>)
    ensures x + (a + b + c) + t == x + a + b + (c + t)
  {
  }

  lemma MidRoundPieces<T>(lt: (T, T) -> bool, r: Runs<T>, k: nat)
    requires k < |r.full| / 2
    ensures var x := Concat(PairUp(lt, r.full)[..k]);
            var y := Concat(r.full[2 * k + 2..]) + Concat(r.tail);
            var a, b := r.full[2 * k], r.full[2 * k + 1];
            MidRound(lt, r, k) == x + a + b + y && MidRound(lt, r, k + 1) == x + Merge(lt, a, b) + y
  {
    var p := PairUp(lt, r.full);
    var x, c, t := Concat(p[..k]), Concat(r.full[2 * k + 2..]), Concat(r.tail);
    var a, b := r.full[2 * k], r.full[2 * k + 1];
    assert MidRound(lt, r, k) == x + (a + b + c) + t by {
      ConcatTwo(r.full[2 * k..]);
      assert r.full[2 * k..][2..] == r.full[2 * k + 2..];
    }
    Reassociate(x, a, b, c, t);
    assert Concat(p[..k + 1]) == x + Merge(lt, a, b) by {
      PairUpAt(lt, r.full, k);
      assert p[..k + 1] == p[..k] + [p[k]];
      ConcatAppend(p[..k], [p[k]]);
      ConcatSingle(p[k]);
    }
    assert 2 * (k + 1) == 2 * k + 2;
    assert MidRound(lt, r, k + 1) == x + Merge(lt, a, b) + c + t;
    assert x + Merge(lt, a, b) + c + t == x + Merge(lt, a, b) + (c + t);
  }

  /** One task of a round, on the array. */
  lemma MergeStep<T>(lt: (T, T) -> bool, offsets: seq<nat>, half: nat, n: nat, r: Runs<T>, k: nat)
    requires Aligned(offsets, half, n, r.full) && k < |r.full| / 2
    ensures var i := k * (2 * half);
            && i + 2 * half <= n
            && offsets[i] <= offsets[i + half] <= offsets[i + 2 * half] <= |MidRound(lt, r, k)|
            && SliceMerged(lt, MidRound(lt, r, k), offsets[i], offsets[i + half], offsets[i + 2 * half])
               == MidRound(lt, r, k + 1)
            && (HalvesSorted(lt, MidRound(lt, r, k), offsets[i], offsets[i + half], offsets[i + 2 * half])
                <==> Sorted(lt, r.full[2 * k]) && Sorted(lt, r.full[2 * k + 1]))
  {
    hide Merge;
    StepOffsets(offsets, half, n, r.full, k);
    MidRoundPieces(lt, r, k);
    PairUpPrefix(lt, r.full, k);
    SlicePieces(lt, Concat(PairUp(lt, r.full)[..k]), r.full[2 * k], r.full[2 * k + 1],
                Concat(r.full[2 * k + 2..]) + Concat(r.tail));
  }

  lemma PrefixStep<T>(runs: seq<seq<T>>, k: nat)
    requires k < |runs|
    ensures |Concat(runs[..k + 1])| == |Concat(runs[..k])| + |runs[k]|
  {
    assert runs[..k + 1] == runs[..k] + [runs[k]];
    ConcatAppend(runs[..k], [runs[k]]);
    ConcatSingle(runs[k]);
  }

  lemma RoundDone<T>(lt: (T, T) -> bool, r: Runs<T>)
    ensures 2 * (|r.full| / 2) <= |r.full|
    ensures MidRound(lt, r, |r.full| / 2) == Concat(Round(lt, r).full) + Concat(Round(lt, r).tail)
  {
    var h := |r.full| / 2;
    assert PairUp(lt, r.full)[..h] == PairUp(lt, r.full);
    assert r.full[2 * h..] == Leftover(r.full);
    ConcatAppend(Leftover(r.full), r.tail);
  }

  /** Every full aligned block of p shards is one sorted slice of the array, with exactly its rows. */
  ghost predicate BlocksSorted<T>(lt: (T, T) -> bool, shards: seq<seq<T>>, offsets: seq<nat>, p: nat, s: seq<T>) {
    p >= 1 && |offsets| == |shards| + 1 && forall k | 0 <= k < |shards| / p :: BlockSorted(lt, shards, offsets, p, k, s)
  }

  ghost predicate BlockSorted<T>(lt: (T, T) -> bool, shards: seq<seq<T>>, offsets: seq<nat>, p: nat, k: nat,
                                 s: seq<T>) {
    && |offsets| == |shards| + 1 && k * p <= (k + 1) * p <= |shards|
    && offsets[k * p] <= offsets[(k + 1) * p] <= |s|
    && Sorted(lt, s[offsets[k * p]..offsets[(k + 1) * p]])
    && BlockOf(shards, p, k, s[offsets[k * p]..offsets[(k + 1) * p]])
  }

  lemma RunAt<T>(runs: seq<seq<T>>, rest: seq<T>, k: nat)
    requires k < |runs|
    ensures var lo := |Concat(runs[..k])|; var hi := |Concat(runs[..k + 1])|;
            lo <= hi <= |Concat(runs) + rest| && (Concat(runs) + rest)[lo..hi] == runs[k]
  {
    PrefixStep(runs, k);
    assert runs == runs[..k + 1] + runs[k + 1..];
    ConcatAppend(runs[..k + 1], runs[k + 1..]);
    assert runs[..k + 1] == runs[..k] + [runs[k]];
    ConcatAppend(runs[..k], [runs[k]]);
    ConcatSingle(runs[k]);
  }

  /** What the rounds say of the runs holds of the array. */
  lemma {:induction false} BlocksInArray<T(!new)>(lt: (T, T) -> bool, dom: iset<T>, shards: seq<seq<T>>,
                                           offsets: seq<nat>, j: nat)
    requires WeakOrder(lt, dom) && GoodRuns(lt, dom, shards) && |offsets| == |shards| + 1
    requires Aligned(offsets, Pow2(j), |shards|, AfterRounds(lt, shards, j).full)
    ensures var r := AfterRounds(lt, shards, j);
            BlocksSorted(lt, shards, offsets, Pow2(j), Concat(r.full) + Concat(r.tail))
  {
    hide Merge, AfterRounds;
    var r, p := AfterRounds(lt, shards, j), Pow2(j);
    BlocksAfterRounds(lt, dom, shards, j);
    forall k | 0 <= k < |shards| / p ensures BlockSorted(lt, shards, offsets, p, k, Concat(r.full) + Concat(r.tail)) {
      BlockFits(|shards|, p, k);
      RunAt(r.full, Concat(r.tail), k);
      assert 0 <= (k + 1) * p <= |shards| && offsets[(k + 1) * p] == |Concat(r.full[..k + 1])|;
    }
  }

  /** One round on the array, its merges made in index order, each of them on sorted halves. Afterwards
      every full aligned block of `step` shards is sorted, whatever the shard count. */
  method MergeRound<T(!new)>(lt: (T, T) -> bool, results: array<T>, offsets: seq<nat>, step: nat,
                             ghost dom: iset<T>, ghost shards: seq<seq<T>>, ghost j: nat)
    requires WeakOrder(lt, dom) && GoodRuns(lt, dom, shards)
    requires step == 2 * Pow2(j) && |offsets| == |shards| + 1 && |shards| / step > 0
    requires Aligned(offsets, step / 2, |shards|, AfterRounds(lt, shards, j).full)
    requires var r := AfterRounds(lt, shards, j); results[..] == Concat(r.full) + Concat(r.tail)
    modifies results
    ensures var r := AfterRounds(lt, shards, j + 1); results[..] == Concat(r.full) + Concat(r.tail)
    ensures BlocksSorted(lt, shards, offsets, step, results[..])
  {
    hide Merge, AfterRounds, PairUp, Concat, BlocksSorted, GoodRuns, Aligned, Pow2, WeakOrder, SliceMerged, MidRound,
         HalvesSorted;
    var n := |offsets| - 1;
    ghost var r := AfterRounds(lt, shards, j);
    RoundTasks(lt, shards, offsets, j);
    NextRuns(lt, shards, offsets, j);
    ghost var k := 0;
    var i := 0;
    MoreTasks(n, step, 0);
    RoundStart(lt, r);
    while i <= n - step
      invariant 0 <= k <= n / step == |r.full| / 2
      invariant i == k * step
      invariant i <= n - step <==> k < n / step
      invariant results[..] == MidRound(lt, r, k)
    {
      RoundTask(lt, dom, shards, offsets, j, k);
      var hi := Min(i + step, n);
      InplaceMerge(lt, results, offsets[i], offsets[i + step / 2], offsets[hi]);
      MoreTasks(n, step, k + 1);
      i := i + step;
      k := k + 1;
    }
    RoundDone(lt, r);
    BlocksInArray(lt, dom, shards, offsets, j + 1);
  }

  lemma RoundTasks<T>(lt: (T, T) -> bool, shards: seq<seq<T>>, offsets: seq<nat>, j: nat)
    requires Aligned(offsets, Pow2(j), |shards|, AfterRounds(lt, shards, j).full)
    ensures |shards| / (2 * Pow2(j)) == |AfterRounds(lt, shards, j).full| / 2
  {
    hide AfterRounds, Concat, Pow2;
    HalfOf(|shards|, Pow2(j));
  }

  /** One task of a round after j others: it is legal, and merges its pair. */
  lemma {:induction false} RoundTask<T(!new)>(lt: (T, T) -> bool, dom: iset<T>, shards: seq<seq<T>>,
                                       offsets: seq<nat>, j: nat, k: nat)
    requires WeakOrder(lt, dom) && GoodRuns(lt, dom, shards) && |offsets| == |shards| + 1
    requires Aligned(offsets, Pow2(j), |shards|, AfterRounds(lt, shards, j).full)
    requires k < |AfterRounds(lt, shards, j).full| / 2
    ensures var r, step := AfterRounds(lt, shards, j), 2 * Pow2(j);
            var i := k * step;
            && i + step <= |shards|
            && HalvesSorted(lt, MidRound(lt, r, k), offsets[i], offsets[i + Pow2(j)], offsets[i + step])
            && SliceMerged(lt, MidRound(lt, r, k), offsets[i], offsets[i + Pow2(j)], offsets[i + step])
               == MidRound(lt, r, k + 1)
  {
    hide Merge, AfterRounds, Concat, Pow2, WeakOrder, SliceMerged, MidRound;
    var r := AfterRounds(lt, shards, j);
    MergeStep(lt, offsets, Pow2(j), |shards|, r, k);
    BlocksAfterRounds(lt, dom, shards, j);
    assert Sorted(lt, r.full[2 * k]) && Sorted(lt, r.full[2 * k + 1]);
  }

  lemma RoundStart<T>(lt: (T, T) -> bool, r: Runs<T>)
    ensures MidRound(lt, r, 0) == Concat(r.full) + Concat(r.tail)
  {
    assert r.full[0..] == r.full && PairUp(lt, r.full)[..0] == [];
  }

  lemma NextRuns<T>(lt: (T, T) -> bool, shards: seq<seq<T>>, offsets: seq<nat>, j: nat)
    requires Aligned(offsets, Pow2(j), |shards|, AfterRounds(lt, shards, j).full)
    ensures AfterRounds(lt, shards, j + 1) == Round(lt, AfterRounds(lt, shards, j))
    ensures Pow2(j + 1) == 2 * Pow2(j)
    ensures Aligned(offsets, 2 * Pow2(j), |shards|, AfterRounds(lt, shards, j + 1).full)
  {
    hide PairUp;
    NextAligned(lt, offsets, Pow2(j), |shards|, AfterRounds(lt, shards, j).full);
  }

  /** The loop `i <= n - step` runs exactly floor(n / step) times. */
  lemma MoreTasks(n: nat, step: nat, k: nat)
    requires step > 0 && k <= n / step
    ensures k * step <= n - step <==> k < n / step
    ensures k > 0 ==> k * step == (k - 1) * step + step
  {
    if k < n / step {
      BlockFits(n, step, k);
    } else {
      assert k * step == step * (n / step) == n - n % step;
    }
  }

  lemma LastOffsets<T>(offsets: seq<nat>, half: nat, n: nat, shards: seq<seq<T>>, full: seq<seq<T>>)
    requires Aligned(offsets, half, n, full) && Offsets(offsets, shards) && |full| == 1
    ensures Concat(full) == full[0]
    ensures half <= n
    ensures offsets[0] == 0 && offsets[half] == |full[0]| && offsets[n] == |Concat(shards)|
  {
    assert full == [full[0]] && full[..1] == full && full[..0] == [];
    ConcatSingle(full[0]);
    assert 1 * half == half && 0 * half == 0;
    assert shards[..n] == shards;
  }

  /** The merge after the last round: everything behind the longest run is taken as one run. */
  method MergeLast<T>(lt: (T, T) -> bool, results: array<T>, offsets: seq<nat>, step: nat,
                      ghost shards: seq<seq<T>>, ghost r: Runs<T>)
    requires step >= 2 && step % 2 == 0 && Offsets(offsets, shards) && |r.full| == 1
    requires Aligned(offsets, step / 2, |offsets| - 1, r.full) && |offsets| - 1 < step
    requires results.Length == |Concat(shards)|
    requires results[..] == Concat(r.full) + Concat(r.tail)
    requires Sorted(lt, r.full[0]) && Sorted(lt, Concat(r.tail))
    modifies results
    ensures results[..] == FinalMerge(lt, r)
  {
    assert |offsets| >= 1;
    hide Merge, Concat, Sorted, Aligned, Offsets;
    var n := |offsets| - 1;
    ghost var f, t := r.full[0], Concat(r.tail);
    LastOffsets(offsets, step / 2, n, shards, r.full);
    WholeSlice(lt, f, t);
    var hi := Min(step, n);
    InplaceMerge(lt, results, offsets[0], offsets[step / 2], offsets[hi]);
  }

  /** Where the merge phase stands before the round of `step`, the j-th from zero. */
  ghost predicate Progress<T>(lt: (T, T) -> bool, offsets: seq<nat>, step: nat, shards: seq<seq<T>>, j: nat) {
    && step == 2 * Pow2(j)
    && Offsets(offsets, shards)
    && Aligned(offsets, Pow2(j), |shards|, AfterRounds(lt, shards, j).full)
    && Rounds(lt, AfterRounds(lt, shards, j)) == Rounds(lt, Runs(shards, []))
    && (shards == [] || AfterRounds(lt, shards, j).full != [])
  }

  lemma FirstRound<T>(lt: (T, T) -> bool, offsets: seq<nat>, shards: seq<seq<T>>)
    requires Offsets(offsets, shards)
    ensures Progress(lt, offsets, 2, shards, 0)
  {
    assert |shards| / 1 == |shards|;
  }

  lemma NextRound<T>(lt: (T, T) -> bool, offsets: seq<nat>, step: nat, shards: seq<seq<T>>, j: nat)
    requires Progress(lt, offsets, step, shards, j)
    ensures var cur := AfterRounds(lt, shards, j);
            && (|shards| / step > 0 <==> |cur.full| >= 2)
            && (|cur.full| >= 2 ==> Progress(lt, offsets, step * 2, shards, j + 1))
            && (|cur.full| < 2 ==> cur == Rounds(lt, Runs(shards, [])))
            && (|cur.full| < 2 ==> |shards| < step && (|shards| % step > 0 <==> |cur.full| == 1))
  {
    hide Merge, Concat, PairUp, Pow2;
    var cur := AfterRounds(lt, shards, j);
    HalfOf(|shards|, step / 2);
    NextRuns(lt, shards, offsets, j);
    if |cur.full| < 2 {
      StillBelow(|shards|, step);
      if shards == [] {
        assert 0 / (step / 2) == 0;
      }
    }
  }

  lemma StillBelow(n: nat, step: nat)
    requires step > 0 && n / step == 0
    ensures n < step && n % step == n
  {
    assert n == step * (n / step) + n % step;
  }

  /** What holds of the array before the round of `step`. */
  ghost predicate Standing<T>(lt: (T, T) -> bool, shards: seq<seq<T>>, offsets: seq<nat>, step: nat, j: nat,
                              s: seq<T>) {
    && Progress(lt, offsets, step, shards, j)
    && s == Concat(AfterRounds(lt, shards, j).full) + Concat(AfterRounds(lt, shards, j).tail)
    && BlocksSorted(lt, shards, offsets, step / 2, s)
  }

  lemma RoundsStart<T(!new)>(lt: (T, T) -> bool, dom: iset<T>, shards: seq<seq<T>>, offsets: seq<nat>)
    requires WeakOrder(lt, dom) && GoodRuns(lt, dom, shards) && Offsets(offsets, shards)
    ensures |offsets| == |shards| + 1 && Standing(lt, shards, offsets, 2, 0, Concat(shards))
  {
    hide Concat, WeakOrder, GoodRuns, BlocksSorted, AfterRounds;
    FirstRound(lt, offsets, shards);
    NoRound(lt, shards);
    BlocksInArray(lt, dom, shards, offsets, 0);
  }

  lemma RoundDue<T>(lt: (T, T) -> bool, shards: seq<seq<T>>, offsets: seq<nat>, step: nat, j: nat, s: seq<T>)
    requires Standing(lt, shards, offsets, step, j, s)
    ensures Progress(lt, offsets, step, shards, j) && step == 2 * Pow2(j) && |offsets| == |shards| + 1
    ensures var r := AfterRounds(lt, shards, j);
            Aligned(offsets, step / 2, |shards|, r.full) && s == Concat(r.full) + Concat(r.tail)
  {
    hide Concat, AfterRounds, Rounds, Aligned, Pow2, BlocksSorted;
  }

  lemma StandsNext<T>(lt: (T, T) -> bool, shards: seq<seq<T>>, offsets: seq<nat>, step: nat, j: nat, s: seq<T>)
    requires step > 0 && |shards| / step > 0 && Progress(lt, offsets, step, shards, j)
    requires var r := AfterRounds(lt, shards, j + 1); s == Concat(r.full) + Concat(r.tail)
    requires BlocksSorted(lt, shards, offsets, step, s)
    ensures Standing(lt, shards, offsets, step * 2, j + 1, s)
  {
    hide Concat, AfterRounds, BlocksSorted, Progress;
    NextRound(lt, offsets, step, shards, j);
  }

  lemma RoundsOver<T>(lt: (T, T) -> bool, shards: seq<seq<T>>, offsets: seq<nat>, step: nat, j: nat, s: seq<T>)
    requires step > 0 && |shards| / step == 0 && Standing(lt, shards, offsets, step, j, s)
    ensures step >= 2 && step % 2 == 0 && |shards| < step
    ensures var r := Rounds(lt, Runs(shards, []));
            && s == Concat(r.full) + Concat(r.tail)
            && Aligned(offsets, step / 2, |shards|, r.full)
            && (|shards| % step > 0 <==> |r.full| == 1)
    ensures BlocksSorted(lt, shards, offsets, step / 2, s)
  {
    hide Concat, AfterRounds, Rounds, BlocksSorted, Aligned, Pow2;
    NextRound(lt, offsets, step, shards, j);
  }

  /** The rounds on the array, for any shard count. */
  method MergeRounds<T(!new)>(lt: (T, T) -> bool, results: array<T>, offsets: seq<nat>,
                              ghost dom: iset<T>, ghost shards: seq<seq<T>>) returns (step: nat)
    requires WeakOrder(lt, dom) && GoodRuns(lt, dom, shards) && Offsets(offsets, shards)
    requires results[..] == Concat(shards)
    modifies results
    ensures step >= 2 && step % 2 == 0 && |shards| < step
    ensures var r := Rounds(lt, Runs(shards, []));
            && results[..] == Concat(r.full) + Concat(r.tail)
            && Aligned(offsets, step / 2, |shards|, r.full)
            && (|shards| % step > 0 <==> |r.full| == 1)
    ensures BlocksSorted(lt, shards, offsets, step / 2, results[..])
  {
    hide *;
    var n := |offsets| - 1;
    step := 2;
    ghost var j := 0;
    RoundsStart(lt, dom, shards, offsets);
    while n / step > 0
      invariant n == |shards| && step >= 2
      invariant Standing(lt, shards, offsets, step, j, results[..])
      decreases n - step
    {
      RoundDue(lt, shards, offsets, step, j, results[..]);
      MergeRound(lt, results, offsets, step, dom, shards, j);
      StandsNext(lt, shards, offsets, step, j, results[..]);
      step := step * 2;
      j := j + 1;
    }
    RoundsOver(lt, shards, offsets, step, j, results[..]);
  }

  lemma NoRound<T>(lt: (T, T) -> bool, shards: seq<seq<T>>)
    ensures AfterRounds(lt, shards, 0) == Runs(shards, [])
    ensures Concat(shards) + Concat([]) == Concat(shards)
  {
    assert Concat<T>([]) == [];
  }

  /** The merge phase: the shard rows, concatenated, become their one sorted arrangement. Every call merges
      sorted halves; for the last one that takes the guard on the shard count. */
  method MergeResults<T(!new)>(lt: (T, T) -> bool, results: array<T>, offsets: seq<nat>,
                               ghost dom: iset<T>, ghost shards: seq<seq<T>>)
    requires WeakOrder(lt, dom) && GoodRuns(lt, dom, shards) && PopCount(|shards|) <= 2
    requires Offsets(offsets, shards)
    requires results[..] == Concat(shards)
    modifies results
    ensures results[..] == Schedule(lt, shards)
    ensures Sorted(lt, results[..]) && multiset(results[..]) == multiset(Concat(shards))
  {
    hide Merge, Rounds, Aligned, FinalMerge, PopCount;
    var n := |offsets| - 1;
    var step := MergeRounds(lt, results, offsets, dom, shards);
    ghost var r := Rounds(lt, Runs(shards, []));
    GuardedFinalMergeLegal(lt, dom, shards);
    RoundsGood(lt, dom, Runs(shards, []));
    ScheduleKeepsRows(lt, shards);
    if n % step > 0 {
      MergeLast(lt, results, offsets, step, shards, r);
    } else {
      NothingLeft(lt, shards, step);
    }
  }

  lemma NothingLeft<T>(lt: (T, T) -> bool, shards: seq<seq<T>>, step: nat)
    requires |shards| < step && |shards| % step == 0
    ensures var r := Rounds(lt, Runs(shards, [])); Schedule(lt, shards) == Concat(r.full) + Concat(r.tail)
  {
    hide Rounds, Concat, Schedule, Merge;
    QuotientIs(|shards|, step, 0, |shards|);
    StillBelow(|shards|, step);
    NoShards(lt);
  }

  lemma NoShards<T>(lt: (T, T) -> bool)
    ensures var r := Rounds(lt, Runs<T>.Runs([], []));
            Schedule<T>(lt, []) == [] && Concat(r.full) + Concat(r.tail) == []
  {
    assert Rounds(lt, Runs<T>.Runs([], [])) == Runs([], []);
    assert Concat<T>([]) == [];
  }
}
