/** The doubling-step merge of MapReduce::Execute: what it leaves in the result array for
    every shard count, and exactly which shard counts it sorts. */
module MergeSchedule {
  import opened Merging

  // ---- The schedule on runs -------------------------------------------------------------

  /** One round: neighbouring full runs are merged two by two; an odd last run is left alone. */
  function PairUp<T>(lt: (T, T) -> bool, runs: seq<seq<T>>): (r: seq<seq<T>>)
    ensures |r| == |runs| / 2
  {
    if |runs| < 2 then [] else [Merge(lt, runs[0], runs[1])] + PairUp(lt, runs[2..])
  }

  /** The run a round leaves behind: the last one when their number is odd. */
  function Leftover<T>(runs: seq<seq<T>>): (r: seq<seq<T>>)
    ensures |r| == |runs| % 2
  {
    if |runs| % 2 == 1 then [runs[|runs| - 1]] else []
  }

  /** The runs of the result array: `full` ones of the current step and the shorter tail. */
  datatype Runs<T> = Runs(full: seq<seq<T>>, tail: seq<seq<T>>)

  function Round<T>(lt: (T, T) -> bool, r: Runs<T>): Runs<T> {
    Runs(PairUp(lt, r.full), Leftover(r.full) + r.tail)
  }

  function Rounds<T>(lt: (T, T) -> bool, r: Runs<T>): (res: Runs<T>)
    ensures |res.full| == if r.full == [] then 0 else 1
    decreases |r.full|
  {
    if |r.full| < 2 then r else Rounds(lt, Round(lt, r))
  }

  /** After the rounds one last merge joins the longest run with everything behind it. */
  function FinalMerge<T>(lt: (T, T) -> bool, r: Runs<T>): seq<T>
    requires |r.full| <= 1
  {
    if r.full == [] then [] else Merge(lt, r.full[0], Concat(r.tail))
  }

  function Schedule<T>(lt: (T, T) -> bool, shards: seq<seq<T>>): seq<T> {
    FinalMerge(lt, Rounds(lt, Runs(shards, [])))
  }

  function PopCount(n: nat): nat {
    if n == 0 then 0 else n % 2 + PopCount(n / 2)
  }

  // ---- Rows are kept --------------------------------------------------------------------

  lemma ConcatTwo<T>(runs: seq<seq<T>>)
    requires |runs| >= 2
    ensures Concat(runs) == runs[0] + runs[1] + Concat(runs[2..])
  {
    assert runs[1..][1..] == runs[2..];
    assert Concat(runs) == runs[0] + (runs[1] + Concat(runs[2..]));
  }

  lemma Regroup<T>(a: multiset<T>, l: multiset<T>, r: multiset<T>, x: multiset<T>, y: multiset<T>)
    requires a + l == r
    ensures (x + y + a) + l == x + y + r
  {
  }

  lemma {:induction false} PairUpRows<T>(lt: (T, T) -> bool, runs: seq<seq<T>>)
    requires |runs| >= 2
    ensures multiset(Concat(PairUp(lt, runs)))
            == multiset(runs[0]) + multiset(runs[1]) + multiset(Concat(PairUp(lt, runs[2..])))
  {
    var m := Merge(lt, runs[0], runs[1]);
    MergeKeepsRows(lt, runs[0], runs[1]);
    assert PairUp(lt, runs)[1..] == PairUp(lt, runs[2..]);
    assert Concat(PairUp(lt, runs)) == m + Concat(PairUp(lt, runs[2..]));
  }

  lemma UnpairedRow<T>(lt: (T, T) -> bool, runs: seq<seq<T>>)
    requires |runs| < 2
    ensures PairUp(lt, runs) == [] && Leftover(runs) == runs && Concat(PairUp(lt, runs)) == []
  {
  }

  lemma {:induction false} PairUpKeepsRows<T>(lt: (T, T) -> bool, runs: seq<seq<T>>)
    ensures multiset(Concat(PairUp(lt, runs))) + multiset(Concat(Leftover(runs))) == multiset(Concat(runs))
    decreases |runs|
  {
    hide Merge, PairUp, Concat;
    if |runs| < 2 {
      UnpairedRow(lt, runs);
    } else {
      var rest := runs[2..];
      PairUpKeepsRows(lt, rest);
      PairUpRows(lt, runs);
      ConcatTwo(runs);
      assert Leftover(runs) == Leftover(rest);
      Regroup(multiset(Concat(PairUp(lt, rest))), multiset(Concat(Leftover(rest))), multiset(Concat(rest)),
              multiset(runs[0]), multiset(runs[1]));
    }
  }

  lemma {:induction false} RoundsKeepRows<T>(lt: (T, T) -> bool, r: Runs<T>)
    ensures var e := Rounds(lt, r);
            multiset(Concat(e.full)) + multiset(Concat(e.tail)) == multiset(Concat(r.full)) + multiset(Concat(r.tail))
    decreases |r.full|
  {
    if |r.full| >= 2 {
      PairUpKeepsRows(lt, r.full);
      ConcatAppend(Leftover(r.full), r.tail);
      RoundsKeepRows(lt, Round(lt, r));
    }
  }

  /** Whatever the shard count, the schedule neither loses nor invents a row. */
  lemma ScheduleKeepsRows<T>(lt: (T, T) -> bool, shards: seq<seq<T>>)
    ensures multiset(Schedule(lt, shards)) == multiset(Concat(shards))
  {
    RoundsKeepRows(lt, Runs(shards, []));
    var e := Rounds(lt, Runs(shards, []));
    if e.full != [] {
      assert e.full == [e.full[0]];
      ConcatSingle(e.full[0]);
      MergeKeepsRows(lt, e.full[0], Concat(e.tail));
    }
  }

  // ---- Every run stays sorted -----------------------------------------------------------

  ghost predicate GoodRuns<T(!new)>(lt: (T, T) -> bool, dom: iset<T>, ss: seq<seq<T>>) {
    AllWithin(ss, dom) && AllSorted(lt, ss)
  }

  lemma {:induction false} PairUpGood<T(!new)>(lt: (T, T) -> bool, dom: iset<T>, runs: seq<seq<T>>)
    requires WeakOrder(lt, dom) && GoodRuns(lt, dom, runs)
    ensures GoodRuns(lt, dom, PairUp(lt, runs)) && GoodRuns(lt, dom, Leftover(runs))
    decreases |runs|
  {
    if |runs| >= 2 {
      PairUpGood(lt, dom, runs[2..]);
      MergeSorted(lt, dom, runs[0], runs[1]);
      MergeWithin(lt, runs[0], runs[1], dom);
    }
  }

  /** After any number of rounds every full block and every run left behind is sorted. */
  lemma {:induction false} RoundsGood<T(!new)>(lt: (T, T) -> bool, dom: iset<T>, r: Runs<T>)
    requires WeakOrder(lt, dom) && GoodRuns(lt, dom, r.full) && GoodRuns(lt, dom, r.tail)
    ensures GoodRuns(lt, dom, Rounds(lt, r).full) && GoodRuns(lt, dom, Rounds(lt, r).tail)
    decreases |r.full|
  {
    if |r.full| >= 2 {
      PairUpGood(lt, dom, r.full);
      RoundsGood(lt, dom, Round(lt, r));
    }
  }

  /** The number of runs the last merge has to treat as one: a run for each 1-bit but the first. */
  lemma {:induction false} TailCount<T>(lt: (T, T) -> bool, r: Runs<T>)
    requires r.full != []
    ensures |Rounds(lt, r).tail| == PopCount(|r.full|) - 1 + |r.tail|
    decreases |r.full|
  {
    if |r.full| >= 2 {
      TailCount(lt, Round(lt, r));
    } else {
      assert PopCount(1) == 1 + PopCount(0);
    }
  }

  // ---- Which shard counts are sorted ----------------------------------------------------

  /** The last merge may be made: both of its halves are sorted. */
  ghost predicate FinalMergeLegal<T>(lt: (T, T) -> bool, shards: seq<seq<T>>) {
    Sorted(lt, Concat(Rounds(lt, Runs(shards, [])).tail))
  }

  lemma {:induction false} GuardedFinalMergeLegal<T(!new)>(lt: (T, T) -> bool, dom: iset<T>, shards: seq<seq<T>>)
    requires WeakOrder(lt, dom) && GoodRuns(lt, dom, shards)
    requires PopCount(|shards|) <= 2
    ensures FinalMergeLegal(lt, shards)
    ensures Sorted(lt, Schedule(lt, shards))
  {
    var r := Runs(shards, []);
    RoundsGood(lt, dom, r);
    var e := Rounds(lt, r);
    if shards != [] {
      TailCount(lt, r);
      assert |e.tail| <= 1;
      if |e.tail| == 1 {
        ConcatSingle(e.tail[0]);
        assert e.tail == [e.tail[0]];
      }
      MergeSorted(lt, dom, e.full[0], Concat(e.tail));
    }
  }

  // The counterexample family: every shard holds one row, the last 2^z shards (2^z the lowest
  // 1-bit of their number) the smaller of two rows, all the others the larger one.

  function LowBit(n: nat): (b: nat)
    requires n > 0
    ensures 1 <= b <= n
  {
    if n % 2 == 1 then 1 else 2 * LowBit(n / 2)
  }

  function Adversary<T>(x: T, y: T, n: nat): (shards: seq<seq<T>>)
    requires n > 0
    ensures |shards| == n
  {
    seq(n, i => if i < n - LowBit(n) then [y] else [x])
  }

  lemma {:induction false} PairUpAt<T>(lt: (T, T) -> bool, runs: seq<seq<T>>, k: nat)
    requires k < |runs| / 2
    ensures PairUp(lt, runs)[k] == Merge(lt, runs[2 * k], runs[2 * k + 1])
    decreases |runs|
  {
    if k > 0 {
      PairUpAt(lt, runs[2..], k - 1);
    }
  }

  /** Every run is non-empty and holds only `v`. */
  ghost predicate Only<T(!new)>(v: T, runs: seq<seq<T>>) {
    forall i | 0 <= i < |runs| :: runs[i] != [] && Within(runs[i], iset{v})
  }

  lemma {:induction false} PairUpOnly<T(!new)>(lt: (T, T) -> bool, v: T, runs: seq<seq<T>>)
    requires Only(v, runs)
    ensures Only(v, PairUp(lt, runs))
    decreases |runs|
  {
    if |runs| >= 2 {
      PairUpOnly(lt, v, runs[2..]);
      MergeWithin(lt, runs[0], runs[1], iset{v});
    }
  }

  lemma {:induction false} LeftBehind<T(!new)>(lt: (T, T) -> bool, v: T, r: Runs<T>) returns (front: seq<seq<T>>)
    requires Only(v, r.full) && r.full != []
    ensures Rounds(lt, r).tail == front + r.tail
    ensures |front| == PopCount(|r.full|) - 1 && Only(v, front)
    decreases |r.full|
  {
    TailCount(lt, r);
    if |r.full| < 2 {
      front := [];
    } else {
      PairUpOnly(lt, v, r.full);
      var next := Round(lt, r);
      var f := LeftBehind(lt, v, next);
      front := f + Leftover(r.full);
      assert f + (Leftover(r.full) + r.tail) == front + r.tail;
      TailCount(lt, next);
    }
  }

  /** The shape of the family: larger rows first, then a lowest-bit block of smaller ones. */
  ghost predicate Adverse<T(!new)>(x: T, y: T, full: seq<seq<T>>) {
    && full != []
    && var c := |full| - LowBit(|full|);
       forall i | 0 <= i < |full| :: full[i] != [] && Within(full[i], iset{if i < c then y else x})
  }

  /** An even round halves the family. */
  lemma {:induction false} AdverseHalves<T(!new)>(lt: (T, T) -> bool, x: T, y: T, full: seq<seq<T>>)
    requires Adverse(x, y, full) && |full| % 2 == 0
    ensures Adverse(x, y, PairUp(lt, full))
  {
    var p := PairUp(lt, full);
    assert LowBit(|full|) == 2 * LowBit(|full| / 2);
    var d := |p| - LowBit(|p|);
    forall k | 0 <= k < |p| ensures p[k] != [] && Within(p[k], iset{if k < d then y else x}) {
      PairUpAt(lt, full, k);
      MergeWithin(lt, full[2 * k], full[2 * k + 1], iset{if k < d then y else x});
    }
  }

  /** An odd round leaves the one smaller row at the end of the tail. */
  lemma {:induction false} AdverseOdd<T(!new)>(lt: (T, T) -> bool, x: T, y: T, full: seq<seq<T>>)
    requires Adverse(x, y, full) && |full| % 2 == 1
    ensures Only(y, PairUp(lt, full))
    ensures Leftover(full)[0] != [] && Within(Leftover(full)[0], iset{x})
  {
    var p := PairUp(lt, full);
    forall k | 0 <= k < |p| ensures p[k] != [] && Within(p[k], iset{y}) {
      PairUpAt(lt, full, k);
      MergeWithin(lt, full[2 * k], full[2 * k + 1], iset{y});
    }
  }

  lemma {:induction false} AdversaryWins<T(!new)>(lt: (T, T) -> bool, x: T, y: T, full: seq<seq<T>>)
    requires lt(x, y)
    requires PopCount(|full|) >= 3 && Adverse(x, y, full)
    ensures !Sorted(lt, Concat(Rounds(lt, Runs(full, [])).tail))
    decreases |full|
  {
    var next := Round(lt, Runs(full, []));
    if |full| % 2 == 1 {
      AdverseOdd(lt, x, y, full);
      var front := LeftBehind(lt, y, next);
      assert next.tail == [Leftover(full)[0]];
      UnsortedTail(lt, x, y, front, Leftover(full)[0]);
    } else {
      AdverseHalves(lt, x, y, full);
      assert next == Runs(PairUp(lt, full), []);
      AdversaryWins(lt, x, y, next.full);
    }
  }

  lemma UnsortedTail<T(!new)>(lt: (T, T) -> bool, x: T, y: T, front: seq<seq<T>>, last: seq<T>)
    requires lt(x, y) && front != [] && Only(y, front)
    requires last != [] && Within(last, iset{x})
    ensures !Sorted(lt, Concat(front + [last]))
  {
    var s := Concat(front + [last]);
    ConcatAppend(front, [last]);
    ConcatSingle(last);
    assert s == front[0] + Concat(front[1..]) + last;
    assert s[0] == front[0][0] == y;
    assert s[|s| - 1] == last[|last| - 1] == x;
  }

  lemma AdversaryRefutes<T(!new)>(lt: (T, T) -> bool, dom: iset<T>, x: T, y: T, n: nat)
    requires x in dom && y in dom && lt(x, y) && PopCount(n) >= 3
    ensures GoodRuns(lt, dom, Adversary(x, y, n)) && !FinalMergeLegal(lt, Adversary(x, y, n))
  {
    AdversaryWins(lt, x, y, Adversary(x, y, n));
  }

  /** The exact guard: with two distinguishable rows in the domain, the last merge meets the
      sorted-halves precondition on all sorted shards iff the shard count has at most two 1-bits. */
  lemma {:induction false} ScheduleGuard<T(!new)>(lt: (T, T) -> bool, dom: iset<T>, x: T, y: T, n: nat)
    requires WeakOrder(lt, dom) && x in dom && y in dom && lt(x, y)
    ensures (forall shards: seq<seq<T>> | |shards| == n && GoodRuns(lt, dom, shards) :: FinalMergeLegal(lt, shards))
            <==> PopCount(n) <= 2
  {
    if PopCount(n) <= 2 {
      forall shards: seq<seq<T>> | |shards| == n && GoodRuns(lt, dom, shards) ensures FinalMergeLegal(lt, shards) {
        GuardedFinalMergeLegal(lt, dom, shards);
      }
    } else {
      AdversaryRefutes(lt, dom, x, y, n);
      assert |Adversary(x, y, n)| == n;
    }
  }

  /** The store makes two shards per processor, so the guard is about the processor count. */
  lemma GuardOnProcessors(cpus: nat)
    ensures PopCount(2 * cpus) == PopCount(cpus)
  {
    if cpus == 0 {
    } else {
      assert (2 * cpus) / 2 == cpus;
    }
  }

  function LessInt(a: int, b: int): bool {
    a < b
  }

  lemma SevenShardRounds()
    ensures Rounds(LessInt, Runs([[1], [1], [1], [1], [1], [1], [0]], [])) == Runs([[1, 1, 1, 1]], [[1, 1], [0]])
  {
    var r0 := Runs([[1], [1], [1], [1], [1], [1], [0]], []);
    var r1 := Runs([[1, 1], [1, 1], [1, 1]], [[0]]);
    var r2 := Runs([[1, 1, 1, 1]], [[1, 1], [0]]);
    assert Round(LessInt, r0) == r1 by {
      assert Merge(LessInt, [1], [1]) == [1, 1];
      assert PairUp(LessInt, [[1], [1], [0]]) == [[1, 1]];
      assert r0.full[2..][2..] == [[1], [1], [0]];
      assert PairUp(LessInt, r0.full[2..]) == [[1, 1], [1, 1]];
    }
    assert Round(LessInt, r1) == r2 by {
      assert Merge(LessInt, [1], [1, 1]) == [1, 1, 1];
      assert Merge(LessInt, [1, 1], [1, 1]) == [1] + Merge(LessInt, [1], [1, 1]) == [1, 1, 1, 1];
      assert r1.full[2..] == [[1, 1]];
      assert PairUp(LessInt, [[1, 1]]) == [];
      assert PairUp(LessInt, r1.full) == [[1, 1, 1, 1]];
    }
    assert Rounds(LessInt, r0) == Rounds(LessInt, r1);
    assert Rounds(LessInt, r1) == Rounds(LessInt, r2) == r2;
  }

  /** Seven one-row shards: the tail of the array is two unmerged runs in the wrong order, so the
      last merge is not legal, and a merge that ignores its precondition leaves the array unsorted. */
  lemma SevenShards()
    ensures var shards := [[1], [1], [1], [1], [1], [1], [0]];
            PopCount(7) == 3 && !FinalMergeLegal(LessInt, shards) &&
            !Sorted(LessInt, Schedule(LessInt, shards))
  {
    assert PopCount(7) == 1 + PopCount(3) && PopCount(3) == 1 + PopCount(1) && PopCount(1) == 1 + PopCount(0);
    SevenShardRounds();
    var tail := [[1, 1], [0]];
    ConcatTwo(tail);
    assert Concat(tail) == [1, 1, 0];
    assert LessInt(Concat(tail)[2], Concat(tail)[1]);
    var m1 := Merge(LessInt, [1], [1, 1, 0]);
    assert m1 == [1, 1, 1, 0];
    var m3 := Merge(LessInt, [1, 1, 1], [1, 1, 0]);
    assert Merge(LessInt, [1, 1], [1, 1, 0]) == [1] + m1;
    assert m3 == [1] + ([1] + m1);
    var m := Merge(LessInt, [1, 1, 1, 1], [1, 1, 0]);
    assert m == [1] + m3;
    assert LessInt(m[6], m[0]);
  }

  /** Fourteen one-row shards, as seven processors make them. */
  lemma FourteenShards()
    ensures var shards := [[1], [1], [1], [1], [1], [1], [1], [1], [1], [1], [1], [1], [0], [0]];
            PopCount(14) == 3 && GoodRuns(LessInt, iset{0, 1}, shards) && !FinalMergeLegal(LessInt, shards)
  {
    var shards := [[1], [1], [1], [1], [1], [1], [1], [1], [1], [1], [1], [1], [0], [0]];
    GuardOnProcessors(7);
    assert PopCount(7) == 1 + PopCount(3);
    assert PopCount(3) == 1 + PopCount(1) && PopCount(1) == 1 + PopCount(0);
    assert LowBit(14) == 2 * LowBit(7) && LowBit(7) == 1;
    assert Adversary(0, 1, 14) == shards;
    AdversaryRefutes(LessInt, iset{0, 1}, 0, 1, 14);
  }
}
