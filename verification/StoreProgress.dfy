/** The concurrent store can always answer: from any state it reaches, an idle thread that finds the lock free gets
    its request through. */
module StoreProgress {
  import opened Base
  import opened Merging
  import opened Shards
  import opened Store
  import opened History
  import opened StoreMachine
  import opened StoreSafety
  import opened StoreTheorems

  /** One more step of a run. */
  lemma Continue(c: Config, trace: seq<State>, steps: seq<Step>, s: State, step: Step)
    returns (trace': seq<State>, steps': seq<Step>)
    requires c.n > 0 && IsRun(c, trace, steps)
    requires var last := trace[|steps|]; |last.shards| == c.n == |last.locks| && Next(c, last, s, step)
    ensures IsRun(c, trace', steps') && trace <= trace' && |steps| < |steps'| && trace'[|steps'|] == s
  {
    hide Next, Init;
    trace', steps' := trace + [s], steps + [step];
  }

  /** A state with other counters, and with another program counter for thread t. */
  function WithPc(s: State, s': State, t: nat, pc: Pc): State
    requires t < |s.threads|
  {
    s.(docCount := s'.docCount, dataSize := s'.dataSize, threads := s.threads[t := pc])
  }

  /** All counter changes that are due are made. */
  lemma {:induction false} PayAll(c: Config, trace: seq<State>, steps: seq<Step>, t: nat)
    returns (trace': seq<State>, steps': seq<Step>)
    requires c.n > 0 && IsRun(c, trace, steps)
    requires var s := trace[|steps|];
             && |s.shards| == c.n == |s.locks| && t < |s.threads| && s.threads[t].Counting?
             && !(s.threads[t].held && s.threads[t].unlockFirst)
    ensures IsRun(c, trace', steps') && trace <= trace'
    ensures var s, s' := trace[|steps|], trace'[|steps'|]; s' == WithPc(s, s', t, s.threads[t].(pending := []))
    decreases |trace[|steps|].threads[t].pending|
  {
    assert |trace| == |steps| + 1;
    var s := trace[|steps|];
    var pc := s.threads[t];
    if pc.pending == [] {
      trace', steps' := trace, steps;
      assert s.threads[t := pc] == s.threads;
    } else {
      var rest := s.(threads := s.threads[t := pc.(pending := pc.pending[1..])]);
      var s1 := match pc.pending[0]
                case Count(d) => rest.(docCount := Wrap64(s.docCount + d))
                case Size(d) => rest.(dataSize := Wrap64(s.dataSize + d));
      hide IsRun;
      trace', steps' := Continue(c, trace, steps, s1, AdjustCounter(t));
      trace', steps' := PayAll(c, trace', steps', t);
      assert s1.threads[t := pc.(pending := [])] == s.threads[t := pc.(pending := [])];
    }
  }

  /** Thread t has just locked the shard of the request. */
  ghost predicate Entered(c: Config, s: State, t: nat, op: Op)
    requires c.n > 0
  {
    && |s.shards| == c.n == |s.locks| && t < |s.threads|
    && s.threads[t] == Holding(ShardOf(c.env, c.n, op.id), op.BulkSet?)
  }

  /** The request is answered, the shard unlocked and the thread idle; besides, only counters have changed. */
  ghost predicate Answered(c: Config, s: State, t: nat, op: Op, s': State)
    requires c.n > 0 && |s.shards| == c.n == |s.locks| && t < |s.threads|
  {
    var i := ShardOf(c.env, c.n, op.id);
    var o := OutcomeOn(c.env, s.shards[i], op);
    s' == s.(shards := ApplyOp(c.env, s.shards, op),
             locks := s.locks[i := None],
             threads := s.threads[t := Idle],
             updateSeq := if o.Failed? then s.updateSeq else Wrap64(s.updateSeq + 1),
             docCount := s'.docCount, dataSize := s'.dataSize,
             log := if o.Failed? then s.log else s.log + [op],
             answers := s.answers + [Answer(op, o, |s.log|)])
  }

  lemma AnswerRefused(c: Config, trace: seq<State>, steps: seq<Step>, t: nat, op: Op)
    returns (trace': seq<State>, steps': seq<Step>)
    requires c.n > 0 && IsRun(c, trace, steps) && Entered(c, trace[|steps|], t, op)
    requires OutcomeOn(c.env, trace[|steps|].shards[ShardOf(c.env, c.n, op.id)], op).Failed?
    ensures IsRun(c, trace', steps') && trace <= trace' && Answered(c, trace[|steps|], t, op, trace'[|steps'|])
  {
    assert |trace| == |steps| + 1;
    hide IsRun, Decide, Find;
    var s, i := trace[|steps|], ShardOf(c.env, c.n, op.id);
    var o := OutcomeOn(c.env, s.shards[i], op);
    var s1 := s.(answers := s.answers + [Answer(op, o, |s.log|)],
                 locks := if op.BulkSet? then s.locks else s.locks[i := None],
                 threads := if op.BulkSet? then s.threads else s.threads[t := Idle]);
    assert s.shards[i := s.shards[i]] == s.shards;
    trace', steps' := Continue(c, trace, steps, s1, Refuse(t, op));
    if op.BulkSet? {
      var s2 := s1.(locks := s1.locks[i := None], threads := s1.threads[t := Idle]);
      trace', steps' := Continue(c, trace', steps', s2, Release(t));
    }
  }

  lemma AnswerRemoved(c: Config, trace: seq<State>, steps: seq<Step>, t: nat, op: Op)
    returns (trace': seq<State>, steps': seq<Step>)
    requires c.n > 0 && IsRun(c, trace, steps) && Entered(c, trace[|steps|], t, op)
    requires OutcomeOn(c.env, trace[|steps|].shards[ShardOf(c.env, c.n, op.id)], op).Removed?
    ensures IsRun(c, trace', steps') && trace <= trace' && Answered(c, trace[|steps|], t, op, trace'[|steps'|])
  {
    assert |trace| == |steps| + 1 && !op.BulkSet?;
    hide IsRun, Decide, Find, Erase;
    var s, i := trace[|steps|], ShardOf(c.env, c.n, op.id);
    var o := OutcomeOn(c.env, s.shards[i], op);
    var s1 := s.(shards := s.shards[i := Erase(s.shards[i], op.id)], threads := s.threads[t := Erased(i, op, o.doc)]);
    var pc := Counting(i, false, true, false, RemovedAdjusts(c.env, o.doc));
    var s2 := s1.(updateSeq := Wrap64(s1.updateSeq + 1), log := s1.log + [op],
                  answers := s1.answers + [Answer(op, Removed(o.doc), |s1.log|)], threads := s1.threads[t := pc]);
    trace', steps' := Continue(c, trace, steps, s1, EraseDoc(t, op));
    trace', steps' := Continue(c, trace', steps', s2, BumpErased(t));
    trace', steps' := PayAll(c, trace', steps', t);
    var s3 := trace'[|steps'|];
    var s4 := s3.(locks := s3.locks[i := None], threads := s3.threads[t := Idle]);
    trace', steps' := Continue(c, trace', steps', s4, Finish(t));
    assert s4.threads == s.threads[t := Idle];
  }

  /** What is left to do once a document is inserted. */
  lemma Leave(c: Config, trace: seq<State>, steps: seq<Step>, t: nat) returns (trace': seq<State>, steps': seq<Step>)
    requires c.n > 0 && IsRun(c, trace, steps)
    requires var s := trace[|steps|];
             && |s.shards| == c.n == |s.locks| && t < |s.threads| && s.threads[t].Counting?
             && s.threads[t].shard < c.n && s.threads[t].held && s.threads[t].unlockFirst == !s.threads[t].bulk
    ensures IsRun(c, trace', steps') && trace <= trace'
    ensures var s, s' := trace[|steps|], trace'[|steps'|];
            s' == WithPc(s, s', t, Idle).(locks := s.locks[s.threads[t].shard := None])
  {
    assert |trace| == |steps| + 1;
    hide IsRun;
    var s := trace[|steps|];
    var pc := s.threads[t];
    var i, bulk := pc.shard, pc.bulk;
    trace', steps' := trace, steps;
    if !bulk {
      var s1 := s.(locks := s.locks[i := None], threads := s.threads[t := pc.(held := false)]);
      trace', steps' := Continue(c, trace', steps', s1, UnlockEarly(t));
    }
    trace', steps' := PayAll(c, trace', steps', t);
    var s2 := trace'[|steps'|];
    var s3 := s2.(threads := s2.threads[t := if bulk then Holding(i, true) else Idle]);
    trace', steps' := Continue(c, trace', steps', s3, Finish(t));
    if bulk {
      var s4 := s3.(locks := s3.locks[i := None], threads := s3.threads[t := Idle]);
      trace', steps' := Continue(c, trace', steps', s4, Release(t));
    }
    assert trace'[|steps'|].threads == s.threads[t := Idle];
  }

  lemma AnswerStored(c: Config, trace: seq<State>, steps: seq<Step>, t: nat, op: Op)
    returns (trace': seq<State>, steps': seq<Step>)
    requires c.n > 0 && IsRun(c, trace, steps) && Entered(c, trace[|steps|], t, op)
    requires OutcomeOn(c.env, trace[|steps|].shards[ShardOf(c.env, c.n, op.id)], op).Stored?
    ensures IsRun(c, trace', steps') && trace <= trace' && Answered(c, trace[|steps|], t, op, trace'[|steps'|])
  {
    assert |trace| == |steps| + 1;
    hide IsRun, Decide, Find, Insert;
    var s, i, bulk := trace[|steps|], ShardOf(c.env, c.n, op.id), op.BulkSet?;
    var o := OutcomeOn(c.env, s.shards[i], op);
    var s1 := s.(updateSeq := Wrap64(s.updateSeq + 1), log := s.log + [op],
                 answers := s.answers + [Answer(op, o, |s.log|)],
                 threads := s.threads[t := Bumped(i, bulk, op, o.doc)]);
    var owed := StoredAdjusts(c.env, Find(s.shards[i], op.id), o.doc);
    var s2 := s1.(shards := s1.shards[i := Insert(s1.shards[i], o.doc)],
                  threads := s1.threads[t := Counting(i, bulk, true, !bulk, owed)]);
    trace', steps' := Continue(c, trace, steps, s1, Bump(t, op));
    trace', steps' := Continue(c, trace', steps', s2, InsertDoc(t));
    trace', steps' := Leave(c, trace', steps', t);
    assert trace'[|steps'|].threads == s.threads[t := Idle];
  }

  lemma SinceLocked(c: Config, s: State, t: nat, op: Op, s': State)
    requires c.n > 0 && |s.shards| == c.n == |s.locks| && t < |s.threads|
    requires var i := ShardOf(c.env, c.n, op.id);
             var locked := s.(locks := s.locks[i := Some(t)], threads := s.threads[t := Holding(i, op.BulkSet?)]);
             Answered(c, locked, t, op, s')
    ensures Answered(c, s, t, op, s')
  {
    hide OutcomeOn, ApplyOp;
    var i := ShardOf(c.env, c.n, op.id);
    assert s.locks[i := Some(t)][i := None] == s.locks[i := None];
    assert s.threads[t := Holding(i, op.BulkSet?)][t := Idle] == s.threads[t := Idle];
  }

  /** An idle thread that finds the shard of its request unlocked can have it answered. */
  lemma EveryRequest(c: Config, trace: seq<State>, steps: seq<Step>, t: nat, op: Op)
    returns (trace': seq<State>, steps': seq<Step>)
    requires c.n > 0 && IsRun(c, trace, steps)
    requires var s := trace[|steps|];
             && |s.shards| == c.n == |s.locks| && t < |s.threads| && s.threads[t].Idle?
             && s.locks[ShardOf(c.env, c.n, op.id)] == None
    ensures IsRun(c, trace', steps') && trace <= trace'
    ensures Answered(c, trace[|steps|], t, op, trace'[|steps'|])
  {
    assert |trace| == |steps| + 1;
    hide IsRun, OutcomeOn, Answered;
    var s, i := trace[|steps|], ShardOf(c.env, c.n, op.id);
    var s1 := s.(locks := s.locks[i := Some(t)], threads := s.threads[t := Holding(i, op.BulkSet?)]);
    var trace1, steps1 := Continue(c, trace, steps, s1, Lock(t, i, op.BulkSet?));
    match OutcomeOn(c.env, s1.shards[i], op) {
      case Failed(_) => trace', steps' := AnswerRefused(c, trace1, steps1, t, op);
      case Stored(_) => trace', steps' := AnswerStored(c, trace1, steps1, t, op);
      case Removed(_) => trace', steps' := AnswerRemoved(c, trace1, steps1, t, op);
    }
    SinceLocked(c, s, t, op, trace'[|steps'|]);
  }

  // ---- Listings -----------------------------------------------------------------------------

  lemma {:induction false} CopyAll(c: Config, trace: seq<State>, steps: seq<Step>, t: nat)
    returns (trace': seq<State>, steps': seq<Step>)
    requires c.n > 0 && IsRun(c, trace, steps)
    requires var s := trace[|steps|];
             && |s.shards| == c.n == |s.locks| && (forall i | 0 <= i < c.n :: s.locks[i] == None)
             && t < |s.threads| && s.threads[t].Copying? && s.threads[t].next <= c.n
    ensures IsRun(c, trace', steps') && trace <= trace'
    ensures var s, s' := trace[|steps|], trace'[|steps'|];
            && t < |s'.threads| && s'.threads[t].Copying? && s'.threads[t].next == c.n
            && s' == s.(threads := s.threads[t := s'.threads[t]])
    decreases c.n - trace[|steps|].threads[t].next
  {
    assert |trace| == |steps| + 1;
    var s := trace[|steps|];
    var pc := s.threads[t];
    if pc.next == c.n {
      trace', steps' := trace, steps;
      assert s.threads[t := pc] == s.threads;
    } else {
      var s1 := s.(threads := s.threads[t := pc.(next := pc.next + 1,
                     acc := Merge(DocLess, pc.acc, s.shards[pc.next]), times := pc.times + [|s.log|])]);
      hide IsRun;
      trace', steps' := Continue(c, trace, steps, s1, CopyShard(t));
      trace', steps' := CopyAll(c, trace', steps', t);
      var s' := trace'[|steps'|];
      assert s1.threads[t := s'.threads[t]] == s.threads[t := s'.threads[t]];
    }
  }

  /** An idle thread that finds the cache and the shards unlocked can have a listing: from the cache exactly if
      its number is still the current one. Afterwards it is. */
  lemma EveryListing(c: Config, trace: seq<State>, steps: seq<Step>, t: nat)
    returns (trace': seq<State>, steps': seq<Step>)
    requires c.n > 0 && IsRun(c, trace, steps)
    requires var s := trace[|steps|];
             && |s.shards| == c.n == |s.locks| && (forall i | 0 <= i < c.n :: s.locks[i] == None)
             && t < |s.threads| && s.threads[t].Idle? && s.cacheLock == None
    ensures IsRun(c, trace', steps') && trace <= trace'
    ensures var s, s' := trace[|steps|], trace'[|steps'|];
            && |s'.listings| == |s.listings| + 1 && s'.listings[..|s.listings|] == s.listings
            && (s'.listings[|s.listings|].hit <==> s.cacheSeq == s.updateSeq)
            && s'.cacheSeq == s'.updateSeq == s.updateSeq
            && s'.shards == s.shards && s'.log == s.log && s'.locks == s.locks && s'.threads == s.threads
            && s'.cacheLock == None
  {
    assert |trace| == |steps| + 1;
    hide IsRun;
    var s := trace[|steps|];
    var s1 := s.(cacheLock := Some(t), threads := s.threads[t := CacheLocked]);
    trace', steps' := Continue(c, trace, steps, s1, LockCache(t));
    if s.cacheSeq == s.updateSeq {
      var found := Listing(true, s1.cacheSeq, s1.cacheDocs, s1.cachedAt, s1.cacheTimes, |s1.log|);
      var s2 := s1.(cacheLock := None, threads := s1.threads[t := Idle], listings := s1.listings + [found]);
      trace', steps' := Continue(c, trace', steps', s2, CompareCache(t));
      assert s2.threads == s.threads;
    } else {
      var s2 := s1.(threads := s1.threads[t := CacheMissed]);
      trace', steps' := Continue(c, trace', steps', s2, CompareCache(t));
      var s3 := s2.(cacheSeq := s2.updateSeq, cachedAt := |s2.log|,
                    threads := s2.threads[t := Copying(|s2.log|, 0, [], [])]);
      trace', steps' := Continue(c, trace', steps', s3, ReadSequence(t));
      trace', steps' := CopyAll(c, trace', steps', t);
      var s4 := trace'[|steps'|];
      var pc := s4.threads[t];
      var made := Listing(false, s4.cacheSeq, pc.acc, pc.at, pc.times, |s4.log|);
      var s5 := s4.(cacheDocs := pc.acc, cacheTimes := pc.times, cacheLock := None, threads := s4.threads[t := Idle],
                    listings := s4.listings + [made]);
      trace', steps' := Continue(c, trace', steps', s5, PublishCache(t));
      assert s5.threads == s.threads;
    }
  }

  /** So a second listing, nobody writing in between, comes from the cache. */
  lemma SecondListingHits(c: Config, trace: seq<State>, steps: seq<Step>, t: nat)
    returns (trace': seq<State>, steps': seq<Step>)
    requires c.n > 0 && IsRun(c, trace, steps)
    requires var s := trace[|steps|];
             && |s.shards| == c.n == |s.locks| && (forall i | 0 <= i < c.n :: s.locks[i] == None)
             && t < |s.threads| && s.threads[t].Idle? && s.cacheLock == None
    ensures IsRun(c, trace', steps') && trace <= trace'
    ensures var s, s' := trace[|steps|], trace'[|steps'|];
            |s'.listings| == |s.listings| + 2 && s'.listings[|s.listings| + 1].hit && s'.log == s.log
  {
    trace', steps' := EveryListing(c, trace, steps, t);
    trace', steps' := EveryListing(c, trace', steps', t);
  }
}
