/** One merge round with its merges posted to the thread pool: the tasks run in any order, each
    writes its slice and then decrements `threads`, and the requester spins until it is zero. */
module RoundBarrier {
  import opened Base
  import opened Merging
  import opened MergeSchedule
  import opened MergeExecution

  datatype Phase = Posted | Merged | Counted

  datatype Config<!T(!new)> = Config(lt: (T, T) -> bool, runs: Runs<T>, offsets: seq<nat>, half: nat) {
    function Tasks(): nat { |runs.full| / 2 }

    ghost predicate Shaped() {
      |offsets| >= 1 && half >= 1
    }

    /** The value put into `threads`, n / step. */
    function Posted(): nat
      requires Shaped()
    {
      TaskCount(|offsets| - 1, half)
    }

    /** `half` is step / 2; the offsets are those of the runs the round starts from. */
    ghost predicate Valid() {
      |offsets| >= 1 && Aligned(offsets, half, |offsets| - 1, runs.full)
    }
  }

  datatype State<T> = State(content: seq<T>, phases: seq<Phase>, threads: int)

  datatype Step = RunMerge(k: nat) | Decrement(k: nat)

  /** The round is posted on some array: as many tasks as the counter is given. */
  ghost predicate Init<T(!new)>(c: Config<T>, content: seq<T>, s: State<T>)
    requires c.Shaped()
  {
    && s.content == content
    && s.phases == seq(c.Posted(), _ => Phase.Posted)
    && s.threads == c.Posted()
  }

  ghost predicate Next<T(!new)>(c: Config<T>, s: State<T>, t: State<T>, step: Step) {
    match step
    case RunMerge(k) =>
      && k < |s.phases| && s.phases[k] == Posted
      && t.phases == s.phases[k := Merged] && t.threads == s.threads
      && var lo := k * (2 * c.half);
         && lo + 2 * c.half < |c.offsets|
         && c.offsets[lo] <= c.offsets[lo + c.half] <= c.offsets[lo + 2 * c.half] <= |s.content|
         && t.content == SliceMerged(c.lt, s.content, c.offsets[lo], c.offsets[lo + c.half], c.offsets[lo + 2 * c.half])
    case Decrement(k) =>
      && k < |s.phases| && s.phases[k] == Merged
      && t == s.(phases := s.phases[k := Counted], threads := s.threads - 1)
  }

  ghost predicate IsRunFrom<T(!new)>(c: Config<T>, content: seq<T>, trace: seq<State<T>>, steps: seq<Step>)
    requires c.Shaped()
  {
    && |trace| == |steps| + 1
    && Init(c, content, trace[0])
    && forall i | 0 <= i < |steps| :: Next(c, trace[i], trace[i + 1], steps[i])
  }

  /** A run of the round on the array of its runs. */
  ghost predicate IsRun<T(!new)>(c: Config<T>, trace: seq<State<T>>, steps: seq<Step>)
    requires c.Shaped()
  {
    IsRunFrom(c, Concat(c.runs.full) + Concat(c.runs.tail), trace, steps)
  }

  // ---- The invariant --------------------------------------------------------------------

  function Slot<T(!new)>(c: Config<T>, phase: Phase, k: nat): seq<T>
    requires k < c.Tasks()
  {
    var a, b := c.runs.full[2 * k], c.runs.full[2 * k + 1];
    if phase == Posted then a + b else Merge(c.lt, a, b)
  }

  function Slots<T(!new)>(c: Config<T>, phases: seq<Phase>): seq<seq<T>>
    requires |phases| <= c.Tasks()
  {
    seq(|phases|, k requires 0 <= k < |phases| => Slot(c, phases[k], k))
  }

  function Uncounted(phases: seq<Phase>): nat {
    if phases == [] then 0 else (if phases[0] == Counted then 0 else 1) + Uncounted(phases[1..])
  }

  /** The array when exactly the tasks no longer `Posted` have merged their pair. */
  ghost function Content<T(!new)>(c: Config<T>, phases: seq<Phase>): seq<T>
    requires |phases| == c.Tasks()
  {
    Concat(Slots(c, phases)) + (Concat(c.runs.full[2 * c.Tasks()..]) + Concat(c.runs.tail))
  }

  ghost predicate Inv<T(!new)>(c: Config<T>, s: State<T>) {
    && |s.phases| == c.Tasks()
    && s.content == Content(c, s.phases)
    && s.threads == Uncounted(s.phases)
  }

  lemma {:induction false} UncountedUpdate(phases: seq<Phase>, k: nat, p: Phase)
    requires k < |phases|
    ensures Uncounted(phases[k := p]) == Uncounted(phases)
              - (if phases[k] == Counted then 0 else 1) + (if p == Counted then 0 else 1)
  {
    if k == 0 {
      assert phases[0 := p][1..] == phases[1..];
    } else {
      assert phases[k := p][1..] == phases[1..][k - 1 := p];
      UncountedUpdate(phases[1..], k - 1, p);
    }
  }

  lemma {:induction false} UncountedAll(phases: seq<Phase>)
    requires forall k | 0 <= k < |phases| :: phases[k] != Counted
    ensures Uncounted(phases) == |phases|
  {
    if phases != [] {
      UncountedAll(phases[1..]);
    }
  }

  lemma {:induction false} UncountedZero(phases: seq<Phase>)
    ensures Uncounted(phases) == 0 <==> forall k | 0 <= k < |phases| :: phases[k] == Counted
  {
    if phases != [] {
      UncountedZero(phases[1..]);
      assert forall k | 1 <= k < |phases| :: phases[k] == phases[1..][k - 1];
      if forall k | 0 <= k < |phases| :: phases[k] == Counted {
        assert phases[0] == Counted;
      }
    }
  }

  lemma {:induction false} SlotPrefix<T(!new)>(c: Config<T>, phases: seq<Phase>, k: nat)
    requires |phases| == c.Tasks() && k <= |phases|
    ensures |Concat(Slots(c, phases)[..k])| == |Concat(c.runs.full[..2 * k])|
    decreases k
  {
    var s := Slots(c, phases);
    if k > 0 {
      SlotPrefix(c, phases, k - 1);
      PrefixStep(s, k - 1);
      PrefixStep(c.runs.full, 2 * k - 2);
      PrefixStep(c.runs.full, 2 * k - 1);
    }
  }

  lemma SplitAt<T>(s: seq<seq<T>>, k: nat)
    requires k < |s|
    ensures Concat(s) == Concat(s[..k]) + s[k] + Concat(s[k + 1..])
  {
    assert s == s[..k] + s[k..];
    ConcatAppend(s[..k], s[k..]);
    assert s[k..][1..] == s[k + 1..];
    assert Concat(s[..k]) + (s[k] + Concat(s[k + 1..])) == Concat(s[..k]) + s[k] + Concat(s[k + 1..]);
  }

  lemma {:induction false} AllUnmerged<T(!new)>(c: Config<T>, h: nat)
    requires h <= c.Tasks()
    ensures Concat(Slots(c, seq(h, _ => Posted))) == Concat(c.runs.full[..2 * h])
    decreases h
  {
    var s := Slots(c, seq(h, _ => Posted));
    if h > 0 {
      AllUnmerged(c, h - 1);
      assert s == Slots(c, seq(h - 1, _ => Posted)) + [s[h - 1]];
      ConcatAppend(s[..h - 1], [s[h - 1]]);
      ConcatSingle(s[h - 1]);
      var f := c.runs.full;
      assert f[..2 * h] == f[..2 * h - 2] + f[2 * h - 2..2 * h];
      ConcatAppend(f[..2 * h - 2], f[2 * h - 2..2 * h]);
      ConcatTwo(f[2 * h - 2..2 * h]);
    }
  }

  /** The counter is given the number of tasks the round posts. */
  lemma InitInv<T(!new)>(c: Config<T>, s: State<T>)
    requires c.Valid() && Init(c, Concat(c.runs.full) + Concat(c.runs.tail), s)
    ensures Inv(c, s)
  {
    var h := c.Tasks();
    HalfOf(|c.offsets| - 1, c.half);
    assert s.phases == seq(h, _ => Posted);
    UncountedAll(s.phases);
    AllUnmerged(c, h);
    assert c.runs.full == c.runs.full[..2 * h] + c.runs.full[2 * h..];
    ConcatAppend(c.runs.full[..2 * h], c.runs.full[2 * h..]);
  }

  lemma SlotsUpdate<T(!new)>(c: Config<T>, phases: seq<Phase>, k: nat)
    requires |phases| == c.Tasks() && k < |phases| && phases[k] == Posted
    ensures var x := Concat(Slots(c, phases)[..k]);
            var y := Concat(Slots(c, phases)[k + 1..]);
            var a, b := c.runs.full[2 * k], c.runs.full[2 * k + 1];
            && Concat(Slots(c, phases)) == x + (a + b) + y
            && Concat(Slots(c, phases[k := Merged])) == x + Merge(c.lt, a, b) + y
  {
    var before, after := Slots(c, phases), Slots(c, phases[k := Merged]);
    SplitAt(before, k);
    SplitAt(after, k);
    assert before[..k] == after[..k] && before[k + 1..] == after[k + 1..];
  }

  lemma Regroup<T>(x: seq<T>, m: seq<T>, y: seq<T>, z: seq<T>)
    ensures x + m + y + z == x + m + (y + z)
  {
  }

  lemma Flatten<T>(x: seq<T>, a: seq<T>, b: seq<T>, w: seq<T>, z: seq<T>)
    ensures x + (a + b) + w + z == x + a + b + (w + z)
  {
  }

  lemma TaskOffsets<T(!new)>(c: Config<T>, phases: seq<Phase>, k: nat)
    requires c.Valid() && |phases| == c.Tasks() && k < |phases|
    ensures var lo := k * (2 * c.half);
            var at := |Concat(Slots(c, phases)[..k])|;
            && lo + 2 * c.half < |c.offsets|
            && c.offsets[lo] == at
            && c.offsets[lo + c.half] == at + |c.runs.full[2 * k]|
            && c.offsets[lo + 2 * c.half] == at + |c.runs.full[2 * k]| + |c.runs.full[2 * k + 1]|
  {
    StepOffsets(c.offsets, c.half, |c.offsets| - 1, c.runs.full, k);
    SlotPrefix(c, phases, k);
  }

  lemma ContentUpdate<T(!new)>(c: Config<T>, phases: seq<Phase>, k: nat) returns (x: seq<T>, y: seq<T>)
    requires |phases| == c.Tasks() && k < |phases| && phases[k] == Posted
    ensures x == Concat(Slots(c, phases)[..k])
    ensures Content(c, phases) == x + c.runs.full[2 * k] + c.runs.full[2 * k + 1] + y
    ensures Content(c, phases[k := Merged]) == x + Merge(c.lt, c.runs.full[2 * k], c.runs.full[2 * k + 1]) + y
  {
    assert |Slots(c, phases)| == |phases|;
    hide Merge, Slots, Concat;
    x := Concat(Slots(c, phases)[..k]);
    var w := Concat(Slots(c, phases)[k + 1..]);
    var z := Concat(c.runs.full[2 * c.Tasks()..]) + Concat(c.runs.tail);
    var a, b := c.runs.full[2 * k], c.runs.full[2 * k + 1];
    y := w + z;
    SlotsUpdate(c, phases, k);
    Flatten(x, a, b, w, z);
    Regroup(x, Merge(c.lt, a, b), w, z);
  }

  /** What an unmerged task k will do: its slice is the pair, and merging it gives the next content. */
  lemma TaskEffect<T(!new)>(c: Config<T>, phases: seq<Phase>, k: nat)
    requires c.Valid() && |phases| == c.Tasks() && k < |phases| && phases[k] == Posted
    ensures var lo := k * (2 * c.half);
            && lo + 2 * c.half < |c.offsets|
            && c.offsets[lo] <= c.offsets[lo + c.half] <= c.offsets[lo + 2 * c.half] <= |Content(c, phases)|
            && SliceMerged(c.lt, Content(c, phases), c.offsets[lo], c.offsets[lo + c.half], c.offsets[lo + 2 * c.half])
               == Content(c, phases[k := Merged])
            && (HalvesSorted(c.lt, Content(c, phases),
                             c.offsets[lo], c.offsets[lo + c.half], c.offsets[lo + 2 * c.half])
                <==> Sorted(c.lt, c.runs.full[2 * k]) && Sorted(c.lt, c.runs.full[2 * k + 1]))
  {
    hide Merge;
    TaskOffsets(c, phases, k);
    var x, y := ContentUpdate(c, phases, k);
    SlicePieces(c.lt, x, c.runs.full[2 * k], c.runs.full[2 * k + 1], y);
  }

  lemma NextInv<T(!new)>(c: Config<T>, s: State<T>, t: State<T>, step: Step)
    requires c.Valid() && Inv(c, s) && Next(c, s, t, step)
    ensures Inv(c, t)
  {
    hide Merge, SliceMerged, HalvesSorted, Aligned;
    match step
    case RunMerge(k) =>
      UncountedUpdate(s.phases, k, Merged);
      TaskEffect(c, s.phases, k);
    case Decrement(k) =>
      UncountedUpdate(s.phases, k, Counted);
      assert Slots(c, t.phases) == Slots(c, s.phases);
  }

  lemma {:induction false} RunInv<T(!new)>(c: Config<T>, trace: seq<State<T>>, steps: seq<Step>)
    requires c.Valid() && IsRun(c, trace, steps)
    ensures Inv(c, trace[|steps|])
    decreases |steps|
  {
    if steps == [] {
      InitInv(c, trace[0]);
    } else {
      var n := |steps| - 1;
      RunInv(c, trace[..n + 1], steps[..n]);
      NextInv(c, trace[n], trace[n + 1], steps[n]);
    }
  }

  // ---- What the barrier guarantees ------------------------------------------------------

  /** Whatever the interleaving, the spin loop ends only on the array the in-order round gives,
      and with no task still to come. */
  lemma BarrierOpens<T(!new)>(c: Config<T>, trace: seq<State<T>>, steps: seq<Step>)
    requires c.Valid() && IsRun(c, trace, steps)
    requires trace[|steps|].threads == 0
    ensures var next := Round(c.lt, c.runs);
            trace[|steps|].content == Concat(next.full) + Concat(next.tail)
    ensures forall k | 0 <= k < |trace[|steps|].phases| :: trace[|steps|].phases[k] == Counted
  {
    RunInv(c, trace, steps);
    var s := trace[|steps|];
    UncountedZero(s.phases);
    var p := PairUp(c.lt, c.runs.full);
    forall k | 0 <= k < |p| ensures Slots(c, s.phases)[k] == p[k] {
      PairUpAt(c.lt, c.runs.full, k);
    }
    assert Slots(c, s.phases) == p;
    RoundDone(c.lt, c.runs);
    assert p[..c.Tasks()] == p;
  }

  /** The steps a task has still to make. */
  function Work(phases: seq<Phase>): nat {
    if phases == [] then 0
    else (match phases[0] case Posted => 2 case Merged => 1 case Counted => 0) + Work(phases[1..])
  }

  lemma {:induction false} WorkUpdate(phases: seq<Phase>, k: nat, p: Phase)
    requires k < |phases| && ((phases[k] == Posted && p == Merged) || (phases[k] == Merged && p == Counted))
    ensures Work(phases[k := p]) == Work(phases) - 1
  {
    if k == 0 {
      assert phases[0 := p][1..] == phases[1..];
    } else {
      assert phases[k := p][1..] == phases[1..][k - 1 := p];
      WorkUpdate(phases[1..], k - 1, p);
    }
  }

  lemma {:induction false} WorkAtStart(h: nat)
    ensures Work(seq(h, _ => Posted)) == 2 * h
  {
    if h > 0 {
      WorkAtStart(h - 1);
      assert seq(h, _ => Posted)[1..] == seq(h - 1, _ => Posted);
    }
  }

  /** A run makes two steps per task and no more. With BarrierProgress, the requester spins only until then. */
  lemma {:induction false} RoundIsShort<T(!new)>(c: Config<T>, content: seq<T>, trace: seq<State<T>>, steps: seq<Step>)
    requires c.Shaped() && IsRunFrom(c, content, trace, steps)
    ensures |steps| + Work(trace[|steps|].phases) == 2 * c.Posted()
    decreases |steps|
  {
    hide SliceMerged, TaskCount;
    if steps == [] {
      WorkAtStart(c.Posted());
    } else {
      var n := |steps| - 1;
      RoundIsShort(c, content, trace[..n + 1], steps[..n]);
      assert Next(c, trace[n], trace[n + 1], steps[n]);
      WorkUpdate(trace[n].phases, steps[n].k, if steps[n].RunMerge? then Merged else Counted);
    }
  }

  lemma MergeCanRun<T(!new)>(c: Config<T>, s: State<T>, k: nat) returns (t: State<T>)
    requires c.Valid() && Inv(c, s) && k < |s.phases| && s.phases[k] == Posted
    ensures Next(c, s, t, RunMerge(k))
  {
    hide Merge, SliceMerged, Slots, Content, HalvesSorted, Aligned;
    TaskEffect(c, s.phases, k);
    var i := k * (2 * c.half);
    t := State(SliceMerged(c.lt, s.content, c.offsets[i], c.offsets[i + c.half], c.offsets[i + 2 * c.half]),
               s.phases[k := Merged], s.threads);
  }

  /** While the counter is positive some task can move. */
  lemma BarrierProgress<T(!new)>(c: Config<T>, trace: seq<State<T>>, steps: seq<Step>)
    requires c.Valid() && IsRun(c, trace, steps)
    requires trace[|steps|].threads != 0
    ensures exists step, t :: Next(c, trace[|steps|], t, step)
  {
    var s := trace[|steps|];
    hide IsRunFrom, Content;
    RunInv(c, trace, steps);
    UncountedZero(s.phases);
    var k :| 0 <= k < |s.phases| && s.phases[k] != Counted;
    if s.phases[k] == Merged {
      assert Next(c, s, s.(phases := s.phases[k := Counted], threads := s.threads - 1), Decrement(k));
    } else {
      var t := MergeCanRun(c, s, k);
    }
  }

  /** Two tasks of a round never touch the same position of the array. */
  lemma SlicesDisjoint<T(!new)>(c: Config<T>, j: nat, k: nat)
    requires c.Valid() && j < k < c.Tasks()
    ensures j * (2 * c.half) + 2 * c.half < |c.offsets| && k * (2 * c.half) < |c.offsets|
    ensures c.offsets[j * (2 * c.half) + 2 * c.half] <= c.offsets[k * (2 * c.half)]
  {
    StepOffsets(c.offsets, c.half, |c.offsets| - 1, c.runs.full, j);
    StepOffsets(c.offsets, c.half, |c.offsets| - 1, c.runs.full, k);
    PrefixStep(c.runs.full, 2 * j);
    PrefixStep(c.runs.full, 2 * j + 1);
    var f := c.runs.full;
    assert f[..2 * k] == f[..2 * j + 2] + f[2 * j + 2..2 * k];
    ConcatAppend(f[..2 * j + 2], f[2 * j + 2..2 * k]);
  }

  /** Every merge still to come is legal whenever it is made: its halves are sorted. */
  lemma MergesAreLegal<T(!new)>(c: Config<T>, dom: iset<T>, trace: seq<State<T>>, steps: seq<Step>, k: nat)
    requires c.Valid() && GoodRuns(c.lt, dom, c.runs.full) && IsRun(c, trace, steps)
    requires k < |trace[|steps|].phases| && trace[|steps|].phases[k] == Posted
    ensures var lo := k * (2 * c.half);
            && lo + 2 * c.half < |c.offsets|
            && HalvesSorted(c.lt, trace[|steps|].content,
                            c.offsets[lo], c.offsets[lo + c.half], c.offsets[lo + 2 * c.half])
  {
    hide Merge, SliceMerged, HalvesSorted, TaskCount, Aligned, Next;
    RunInv(c, trace, steps);
    TaskEffect(c, trace[|steps|].phases, k);
    assert Sorted(c.lt, c.runs.full[2 * k]) && Sorted(c.lt, c.runs.full[2 * k + 1]);
  }

  // ---- The whole merge phase --------------------------------------------------------------

  function RoundConfig<T(!new)>(lt: (T, T) -> bool, shards: seq<seq<T>>, offsets: seq<nat>, j: nat): Config<T> {
    Config(lt, AfterRounds(lt, shards, j), offsets, Pow2(j))
  }

  /** The merge after the rounds, if the shard count leaves one. */
  ghost predicate LastMerged<T>(lt: (T, T) -> bool, offsets: seq<nat>, half: nat, content: seq<T>, final: seq<T>)
    requires |offsets| >= 1 && half >= 1
  {
    var n := |offsets| - 1;
    if n % (2 * half) > 0 then
      && half <= n
      && offsets[0] <= offsets[half] <= offsets[Min(2 * half, n)] <= |content|
      && final == SliceMerged(lt, content, offsets[0], offsets[half], offsets[Min(2 * half, n)])
    else final == content
  }

  /** The phase from its j-th round on: each round is some run, on the array the one before it left, that
      opens the barrier; then comes the last merge. */
  ghost predicate IsPhase<T(!new)>(lt: (T, T) -> bool, shards: seq<seq<T>>, offsets: seq<nat>, j: nat, content: seq<T>,
                                   traces: seq<seq<State<T>>>, rounds: seq<seq<Step>>, final: seq<T>)
    requires |offsets| >= 1
    decreases |traces|
  {
    if TaskCount(|offsets| - 1, Pow2(j)) == 0 then
      traces == [] && LastMerged(lt, offsets, Pow2(j), content, final)
    else
      && traces != [] && |rounds| == |traces|
      && IsRunFrom(RoundConfig(lt, shards, offsets, j), content, traces[0], rounds[0])
      && var s := traces[0][|rounds[0]|];
         s.threads == 0 && IsPhase(lt, shards, offsets, j + 1, s.content, traces[1..], rounds[1..], final)
  }

  lemma {:induction false} LastSlice<T>(lt: (T, T) -> bool, shards: seq<seq<T>>, offsets: seq<nat>, p: nat, r: Runs<T>)
    requires Aligned(offsets, p, |shards|, r.full) && Offsets(offsets, shards) && |r.full| == 1
    requires |Concat(r.full) + Concat(r.tail)| == |Concat(shards)|
    ensures p <= |shards|
    ensures offsets[0] <= offsets[p] <= offsets[|shards|] <= |Concat(r.full) + Concat(r.tail)|
    ensures SliceMerged(lt, Concat(r.full) + Concat(r.tail), offsets[0], offsets[p], offsets[|shards|])
            == FinalMerge(lt, r)
  {
    assert |offsets| == |shards| + 1;
    hide Merge, Concat, Aligned, Offsets, SliceMerged;
    LastOffsets(offsets, p, |shards|, shards, r.full);
    var f, t := r.full[0], Concat(r.tail);
    WholeSlice(lt, f, t);
    assert Concat(r.full) + Concat(r.tail) == f + t;
    assert offsets[0] == 0 && offsets[p] == |f| && offsets[|shards|] == |f| + |t|;
  }

  lemma LastRight<T>(lt: (T, T) -> bool, shards: seq<seq<T>>, offsets: seq<nat>, j: nat, final: seq<T>)
    requires Progress(lt, offsets, 2 * Pow2(j), shards, j) && TaskCount(|shards|, Pow2(j)) == 0
    requires var r := AfterRounds(lt, shards, j);
             LastMerged(lt, offsets, Pow2(j), Concat(r.full) + Concat(r.tail), final)
    ensures final == Schedule(lt, shards)
  {
    assert |offsets| == |shards| + 1;
    hide Merge, Rounds, AfterRounds, Pow2, Concat, Aligned, Offsets, FinalMerge, SliceMerged;
    NextRound(lt, offsets, 2 * Pow2(j), shards, j);
    var r := AfterRounds(lt, shards, j);
    if |r.full| == 1 {
      AllRows(lt, shards, j);
      LastSlice(lt, shards, offsets, Pow2(j), r);
    } else {
      NothingLeft(lt, shards, 2 * Pow2(j));
    }
  }

  lemma {:induction false} AllRows<T>(lt: (T, T) -> bool, shards: seq<seq<T>>, j: nat)
    ensures var r := AfterRounds(lt, shards, j); |Concat(r.full) + Concat(r.tail)| == |Concat(shards)|
  {
    hide Merge, PairUp;
    if j == 0 {
      NoRound(lt, shards);
    } else {
      var r := AfterRounds(lt, shards, j - 1);
      AllRows(lt, shards, j - 1);
      PairUpKeepsRows(lt, r.full);
      ConcatAppend(Leftover(r.full), r.tail);
      var a, b, c := Concat(PairUp(lt, r.full)), Concat(Leftover(r.full)), Concat(r.full);
      assert |multiset(a) + multiset(b)| == |a| + |b| && |multiset(c)| == |c|;
    }
  }

  lemma PhaseGoesOn<T(!new)>(lt: (T, T) -> bool, shards: seq<seq<T>>, offsets: seq<nat>, j: nat)
    requires Progress(lt, offsets, 2 * Pow2(j), shards, j)
    ensures |offsets| == |shards| + 1 && RoundConfig(lt, shards, offsets, j).Valid()
    ensures TaskCount(|shards|, Pow2(j)) > 0 ==> Progress(lt, offsets, 2 * Pow2(j + 1), shards, j + 1)
    ensures AfterRounds(lt, shards, j + 1) == Round(lt, AfterRounds(lt, shards, j))
  {
    hide Merge, Rounds, Concat, PairUp;
    NextRound(lt, offsets, 2 * Pow2(j), shards, j);
    NextRuns(lt, shards, offsets, j);
  }

  lemma {:induction false} PhaseFrom<T(!new)>(lt: (T, T) -> bool, shards: seq<seq<T>>, offsets: seq<nat>, j: nat,
      traces: seq<seq<State<T>>>, rounds: seq<seq<Step>>, final: seq<T>)
    requires |offsets| >= 1 && Progress(lt, offsets, 2 * Pow2(j), shards, j)
    requires var r := AfterRounds(lt, shards, j);
             IsPhase(lt, shards, offsets, j, Concat(r.full) + Concat(r.tail), traces, rounds, final)
    ensures final == Schedule(lt, shards)
    decreases |traces|
  {
    hide Merge, Rounds, Schedule, Concat, Aligned, Offsets, AfterRounds, Round, Next, TaskCount, Pow2, Progress;
    PhaseGoesOn(lt, shards, offsets, j);
    if TaskCount(|shards|, Pow2(j)) == 0 {
      LastRight(lt, shards, offsets, j, final);
    } else {
      var c := RoundConfig(lt, shards, offsets, j);
      BarrierOpens(c, traces[0], rounds[0]);
      PhaseFrom(lt, shards, offsets, j + 1, traces[1..], rounds[1..], final);
    }
  }

  /** Whatever the interleavings of its rounds, the merge phase leaves the same array, for any shard count. */
  lemma WholePhase<T(!new)>(lt: (T, T) -> bool, shards: seq<seq<T>>, offsets: seq<nat>,
                            traces: seq<seq<State<T>>>, rounds: seq<seq<Step>>, final: seq<T>)
    requires Offsets(offsets, shards)
    requires IsPhase(lt, shards, offsets, 0, Concat(shards), traces, rounds, final)
    ensures final == Schedule(lt, shards)
  {
    FirstRound(lt, offsets, shards);
    NoRound(lt, shards);
    PhaseFrom(lt, shards, offsets, 0, traces, rounds, final);
  }
}
