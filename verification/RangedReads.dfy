/** The ranged query beside running writers: it reads the sequence number, then copies one shard after the
    other, each under its own lock. */
module RangedReads {
  import opened Base
  import opened Pages
  import opened Shards
  import opened Store
  import opened History
  import opened Listings
  import opened StoreMachine
  import opened StoreSafety
  import opened StoreTheorems
  import opened StoreProgress
  import AllDocs
  import BulkWrites

  ghost predicate Unlocked(c: Config, s: State, i: nat) {
    i < c.n == |s.shards| == |s.locks| && s.locks[i] == None
  }

  /** The query starts at one state of the run; shard i is copied at a later one, at which no writer is in it. */
  ghost predicate Query(c: Config, trace: seq<State>, start: nat, copies: seq<nat>)
    requires c.n > 0
  {
    && |copies| == c.n && start <= copies[0]
    && (forall i | 0 < i < c.n :: copies[i - 1] <= copies[i])
    && (forall i | 0 <= i < c.n :: copies[i] < |trace| && Unlocked(c, trace[copies[i]], i))
  }

  /** What the query gets to merge. */
  ghost function Parts(c: Config, trace: seq<State>, start: nat, copies: seq<nat>): (parts: seq<seq<Doc>>)
    requires c.n > 0 && Query(c, trace, start, copies)
    ensures |parts| == c.n
  {
    seq(c.n, i requires 0 <= i < c.n => trace[copies[i]].shards[i])
  }

  /** How many writes were logged when the shard of an id was copied. */
  ghost function SeenAt(c: Config, trace: seq<State>, start: nat, copies: seq<nat>, id: string): nat
    requires c.n > 0 && Query(c, trace, start, copies)
  {
    |trace[copies[ShardOf(c.env, c.n, id)]].log|
  }

  lemma {:induction false} CopiesOrdered(copies: seq<nat>, i: nat, j: nat)
    requires i <= j < |copies| && forall k | 0 < k < |copies| :: copies[k - 1] <= copies[k]
    ensures copies[i] <= copies[j]
  {
    if i < j {
      CopiesOrdered(copies, i, j - 1);
    }
  }

  lemma UnlockedShard(c: Config, s: State, i: nat)
    requires c.n > 0 && Inv(c, s) && Unlocked(c, s, i)
    ensures s.shards[i] == Replay(c.env, c.n, s.log)[i]
  {
    hide LockInv, ShardInv, LogInv, AnswerInv, CountInv, CacheInv, ListingInv, Replay;
    ShardIsCurrent(c, s, i);
  }

  /** A copied shard is the shard of the replayed log of its moment. */
  lemma CopyIsCurrent(c: Config, trace: seq<State>, steps: seq<Step>, k: nat, i: nat)
    requires c.n > 0 && IsRun(c, trace, steps) && k <= |steps| && Unlocked(c, trace[k], i)
    ensures trace[k].log <= trace[|steps|].log
    ensures trace[k].shards[i] == Replay(c.env, c.n, trace[|steps|].log[..|trace[k].log|])[i]
  {
    hide Next, Init, Inv, Replay;
    StateInv(c, trace, steps, k);
    UnlockedShard(c, trace[k], i);
    LogGrows(c, trace, steps, k, |steps|);
    assert trace[|steps|].log[..|trace[k].log|] == trace[k].log;
  }

  /** The moment an id is seen lies between the start of the query and its last copy. */
  lemma SeenMeanwhile(c: Config, trace: seq<State>, steps: seq<Step>, start: nat, copies: seq<nat>, id: string)
    requires c.n > 0 && IsRun(c, trace, steps) && Query(c, trace, start, copies)
    ensures var seen := SeenAt(c, trace, start, copies, id);
            |trace[start].log| <= seen <= |trace[copies[c.n - 1]].log| <= |trace[|steps|].log|
  {
    hide Next, Init;
    var i := ShardOf(c.env, c.n, id);
    CopiesOrdered(copies, 0, i);
    CopiesOrdered(copies, i, c.n - 1);
    LogGrows(c, trace, steps, start, copies[i]);
    LogGrows(c, trace, steps, copies[i], copies[c.n - 1]);
    LogGrows(c, trace, steps, copies[c.n - 1], |steps|);
  }

  lemma PlacedState(c: Config, s: State)
    requires c.n > 0 && Inv(c, s)
    ensures WellPlaced(c.env, s.shards) && |s.shards| == c.n
    ensures s.updateSeq == Wrap64(|s.log|)
  {
    hide LockInv, AnswerInv, CountInv, CacheInv, ListingInv, WellPlaced, Replay;
  }

  /** What is merged is a well-placed store, and the reported sequence number counts the writes at the start. */
  lemma PartsPlaced(c: Config, trace: seq<State>, steps: seq<Step>, start: nat, copies: seq<nat>)
    requires c.n > 0 && IsRun(c, trace, steps) && Query(c, trace, start, copies)
    ensures WellPlaced(c.env, Parts(c, trace, start, copies))
    ensures trace[start].updateSeq == Wrap64(|trace[start].log|)
  {
    hide Next, Init, Inv;
    var parts := Parts(c, trace, start, copies);
    forall i: nat | i < c.n ensures WellPlaced(c.env, trace[copies[i]].shards) && |trace[copies[i]].shards| == c.n {
      StateInv(c, trace, steps, copies[i]);
      PlacedState(c, trace[copies[i]]);
    }
    StateInv(c, trace, steps, start);
    PlacedState(c, trace[start]);
  }

  lemma WantedMeans(o: AllDocs.Options, d: Doc)
    ensures AllDocs.Wanted(o)(d) <==> AllDocs.Asked(o, d.id)
  {
    AllDocs.WantedIsAsked(o, d.id);
  }

  /** What the page is cut from: exactly the wanted documents, each as of the moment its shard was copied. */
  lemma QueryShows(c: Config, trace: seq<State>, steps: seq<Step>, start: nat, copies: seq<nat>, o: AllDocs.Options,
                   d: Doc)
    requires c.n > 0 && IsRun(c, trace, steps) && Query(c, trace, start, copies)
    ensures WellPlaced(c.env, Parts(c, trace, start, copies))
    ensures trace[start].updateSeq == Wrap64(|trace[start].log|)
    ensures var log, seen := trace[|steps|].log, SeenAt(c, trace, start, copies, d.id);
            && |trace[start].log| <= seen <= |trace[copies[c.n - 1]].log| <= |log|
            && (d in Filter(AllDocs.Wanted(o), MergeAll(DocLess, Parts(c, trace, start, copies))) <==>
                AllDocs.Asked(o, d.id) && DocAt(c.env, c.n, log, seen, d.id) == Some(d))
  {
    hide Next, Init, Filter, Find, WellPlaced, Replay, MergeAll, AllDocs.Wanted, AllDocs.Asked;
    var parts := Parts(c, trace, start, copies);
    var i := ShardOf(c.env, c.n, d.id);
    PartsPlaced(c, trace, steps, start, copies);
    SeenMeanwhile(c, trace, steps, start, copies, d.id);
    CopyIsCurrent(c, trace, steps, copies[i], i);
    ListingOfStore(c.env, parts);
    FilterMembers(AllDocs.Wanted(o), MergeAll(DocLess, parts), d);
    WantedMeans(o, d);
    FoundIs(MergeAll(DocLess, parts), d);
  }

  /** A document nobody writes to during the query is shown exactly if it is wanted and stored. */
  lemma UntouchedShown(c: Config, trace: seq<State>, steps: seq<Step>, start: nat, copies: seq<nat>,
                       o: AllDocs.Options, d: Doc)
    requires c.n > 0 && IsRun(c, trace, steps) && Query(c, trace, start, copies)
    requires forall k | |trace[start].log| <= k < |trace[copies[c.n - 1]].log| && k < |trace[|steps|].log| ::
               trace[|steps|].log[k].id != d.id
    ensures |trace[start].log| <= |trace[|steps|].log|
    ensures d in Filter(AllDocs.Wanted(o), MergeAll(DocLess, Parts(c, trace, start, copies))) <==>
            AllDocs.Asked(o, d.id) && DocAt(c.env, c.n, trace[|steps|].log, |trace[start].log|, d.id) == Some(d)
  {
    hide Next, Init, Filter, Find, WellPlaced, DocAt, MergeAll, AllDocs.Wanted, Parts;
    QueryShows(c, trace, steps, start, copies, o, d);
    UntouchedLookup(c.env, c.n, trace[|steps|].log, d.id, |trace[start].log|, SeenAt(c, trace, start, copies, d.id));
  }

  /** If no write is logged during the query at all, it is answered from the store of its sequence number. */
  lemma QuietQuery(c: Config, trace: seq<State>, steps: seq<Step>, start: nat, copies: seq<nat>)
    requires c.n > 0 && IsRun(c, trace, steps) && Query(c, trace, start, copies)
    requires |trace[copies[c.n - 1]].log| == |trace[start].log|
    ensures Parts(c, trace, start, copies) == Replay(c.env, c.n, trace[start].log)
  {
    hide Next, Init, Inv, Replay;
    var parts := Parts(c, trace, start, copies);
    forall i | 0 <= i < c.n ensures parts[i] == Replay(c.env, c.n, trace[start].log)[i] {
      CopiesOrdered(copies, 0, i);
      CopiesOrdered(copies, i, c.n - 1);
      LogGrows(c, trace, steps, start, copies[i]);
      LogGrows(c, trace, steps, copies[i], copies[c.n - 1]);
      assert trace[copies[i]].log == trace[start].log;
      StateInv(c, trace, steps, copies[i]);
      UnlockedShard(c, trace[copies[i]], i);
    }
  }

  // ---- No single moment -------------------------------------------------------------------

  ghost function EmptyState(c: Config): State
    requires c.n > 0
  {
    State(EmptyStore(c.n), seq(c.n, _ => None), 0, 0, 0, seq(c.threads, _ => Idle), None, 0, [], [], 0,
          seq(c.n, _ => 0), [], [])
  }

  /** What the query has merged is the store as it stood after some number of writes, none of them older than
      the reported sequence number. */
  ghost predicate OneMoment(c: Config, trace: seq<State>, start: nat, copies: seq<nat>, log: seq<Op>)
    requires c.n > 0 && Query(c, trace, start, copies)
  {
    exists k :: |trace[start].log| <= k <= |log| && Parts(c, trace, start, copies) == Replay(c.env, c.n, log[..k])
  }

  function FirstWrite(id: string): Op {
    Set(id, None, Body("", None))
  }

  lemma NothingAtFirst(env: Env, n: nat, log: seq<Op>, id: string)
    requires n > 0
    ensures DocAt(env, n, log, 0, id) == None
  {
    assert Replay(env, n, log[..0]) == EmptyStore(n);
  }

  /** Of two first writes the second is never stored without the first. */
  lemma SecondAfterFirst(env: Env, n: nat, a: string, b: string, k: nat)
    requires n > 0 && a != b && k <= 2
    ensures var log := [FirstWrite(a), FirstWrite(b)];
            DocAt(env, n, log, k, a).Some? || DocAt(env, n, log, k, b).None?
  {
    hide Create, DocAt;
    var log := [FirstWrite(a), FirstWrite(b)];
    NothingAtFirst(env, n, log, a);
    NothingAtFirst(env, n, log, b);
    StepAt(env, n, log, 0, a);
    StepAt(env, n, log, 0, b);
    StepAt(env, n, log, 1, a);
  }

  /** A first write is accepted, and is what its shard then holds. */
  lemma FirstStored(env: Env, id: string)
    ensures OutcomeOn(env, [], FirstWrite(id)).Stored?
    ensures Find(Applied(env, [], FirstWrite(id)), id).Some?
  {
  }

  /** A run in which two documents are written, one after the other, between the copies of their shards: the
      query is shown the second without the first, which the store at no moment was. */
  lemma TornQuery(c: Config, a: string, b: string) returns (trace: seq<State>, steps: seq<Step>, copies: seq<nat>)
    requires c.n > 0 && c.threads >= 1 && ShardOf(c.env, c.n, a) < ShardOf(c.env, c.n, b)
    ensures IsRun(c, trace, steps) && Query(c, trace, 0, copies)
    ensures var parts := Parts(c, trace, 0, copies);
            Lookup(c.env, parts, a) == None && Lookup(c.env, parts, b).Some?
    ensures !OneMoment(c, trace, 0, copies, trace[|steps|].log)
  {
    hide Next, Replay, DocAt, OutcomeOn, Applied;
    trace, steps := [EmptyState(c)], [];
    var i, j := ShardOf(c.env, c.n, a), ShardOf(c.env, c.n, b);
    FirstStored(c.env, a);
    FirstStored(c.env, b);
    trace, steps := EveryRequest(c, trace, steps, 0, FirstWrite(a));
    trace, steps := EveryRequest(c, trace, steps, 0, FirstWrite(b));
    copies := seq(c.n, k => if k <= i then 0 else |steps|);
    var parts := Parts(c, trace, 0, copies);
    assert parts[i] == [] && parts[j] == Applied(c.env, [], FirstWrite(b));
    var log := trace[|steps|].log;
    assert log == [FirstWrite(a), FirstWrite(b)];
    forall k: nat | k <= |log| ensures parts != Replay(c.env, c.n, log[..k]) {
      SecondAfterFirst(c.env, c.n, a, b, k);
      LookedUp(c, log, k, a);
      LookedUp(c, log, k, b);
    }
  }

  lemma LookedUp(c: Config, log: seq<Op>, k: nat, id: string)
    requires c.n > 0 && k <= |log|
    ensures DocAt(c.env, c.n, log, k, id) == Lookup(c.env, Replay(c.env, c.n, log[..k]), id)
  {
  }

  /** Every query of every run is answered from one moment. */
  ghost predicate AlwaysOneMoment(c: Config)
    requires c.n > 0
  {
    forall trace: seq<State>, steps: seq<Step>, start: nat, copies: seq<nat>
      | IsRun(c, trace, steps) && Query(c, trace, start, copies) ::
      OneMoment(c, trace, start, copies, trace[|steps|].log)
  }

  lemma SingleShard(c: Config, trace: seq<State>, steps: seq<Step>, start: nat, copies: seq<nat>)
    requires c.n == 1 && IsRun(c, trace, steps) && Query(c, trace, start, copies)
    ensures OneMoment(c, trace, start, copies, trace[|steps|].log)
  {
    hide Next, Init, Replay;
    var log, k := trace[|steps|].log, |trace[copies[0]].log|;
    CopyIsCurrent(c, trace, steps, copies[0], 0);
    LogGrows(c, trace, steps, start, copies[0]);
    assert Parts(c, trace, start, copies) == Replay(c.env, c.n, log[..k]);
  }

  /** With at least one writer, and ids for every shard, that is so exactly for a single shard. */
  lemma OneMomentExactly(c: Config)
    requires c.n > 0 && c.threads >= 1
    requires forall i | 0 <= i < c.n :: BulkWrites.Reaches(c.env, c.n, i)
    ensures AlwaysOneMoment(c) <==> c.n == 1
  {
    hide Next, Init, Query, OneMoment;
    if c.n == 1 {
      forall trace: seq<State>, steps: seq<Step>, start: nat, copies: seq<nat>
        | IsRun(c, trace, steps) && Query(c, trace, start, copies)
        ensures |trace| == |steps| + 1 && OneMoment(c, trace, start, copies, trace[|steps|].log)
      {
        SingleShard(c, trace, steps, start, copies);
      }
    } else {
      assert BulkWrites.Reaches(c.env, c.n, 0) && BulkWrites.Reaches(c.env, c.n, 1);
      var a :| ShardOf(c.env, c.n, a) == 0;
      var b :| ShardOf(c.env, c.n, b) == 1;
      var trace, steps, copies := TornQuery(c, a, b);
      assert IsRun(c, trace, steps) && Query(c, trace, 0, copies);
    }
  }
}
