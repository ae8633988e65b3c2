/** Every reachable state of the concurrent store keeps the invariant of StoreMachine, and what
    that means for writers, counters and readers of the all-documents cache. */
module StoreSafety {
  import opened Base
  import opened Merging
  import opened Pages
  import opened Shards
  import opened Store
  import opened History
  import opened StoreMachine

  // ---- Locks ------------------------------------------------------------------------------

  lemma KeepLocks(n: nat, threads: seq<Pc>, locks: seq<Option<nat>>, cacheLock: Option<nat>, t: nat, pc: Pc)
    requires LocksOk(n, threads, locks, cacheLock) && t < |threads|
    requires Held(pc) == Held(threads[t]) && HoldsCache(pc) == HoldsCache(threads[t])
    ensures LocksOk(n, threads[t := pc], locks, cacheLock)
  {
  }

  lemma AcquireShard(n: nat, threads: seq<Pc>, locks: seq<Option<nat>>, cacheLock: Option<nat>, t: nat, pc: Pc, i: nat)
    requires LocksOk(n, threads, locks, cacheLock) && t < |threads| && i < n && locks[i] == None
    requires Held(threads[t]) == None && Held(pc) == Some(i) && HoldsCache(pc) == HoldsCache(threads[t])
    ensures LocksOk(n, threads[t := pc], locks[i := Some(t)], cacheLock)
  {
  }

  lemma ReleaseShard(n: nat, threads: seq<Pc>, locks: seq<Option<nat>>, cacheLock: Option<nat>, t: nat, pc: Pc, i: nat)
    requires LocksOk(n, threads, locks, cacheLock) && t < |threads| && i < n
    requires Held(threads[t]) == Some(i) && Held(pc) == None && HoldsCache(pc) == HoldsCache(threads[t])
    ensures LocksOk(n, threads[t := pc], locks[i := None], cacheLock)
  {
  }

  lemma MoveCache(n: nat, threads: seq<Pc>, locks: seq<Option<nat>>, cacheLock: Option<nat>, t: nat, pc: Pc)
    requires LocksOk(n, threads, locks, cacheLock) && t < |threads|
    requires Held(threads[t]) == None && Held(pc) == None
    requires HoldsCache(pc) ==> cacheLock == None || cacheLock == Some(t)
    requires HoldsCache(pc) || HoldsCache(threads[t])
    ensures LocksOk(n, threads[t := pc], locks, if HoldsCache(pc) then Some(t) else None)
  {
  }

  lemma LockStep(c: Config, s: State, s': State, step: Step)
    requires c.n > 0 && LockInv(c, s) && Next(c, s, s', step)
    ensures LockInv(c, s')
  {
    var t := step.t;
    var pc := s.threads[t];
    var pc' := s'.threads[t];
    match step
    case Lock(_, i, _) => AcquireShard(c.n, s.threads, s.locks, s.cacheLock, t, pc', i);
    case Refuse(_, _) =>
      if !pc.bulk {
        ReleaseShard(c.n, s.threads, s.locks, s.cacheLock, t, pc', pc.shard);
      }
    case UnlockEarly(_) => ReleaseShard(c.n, s.threads, s.locks, s.cacheLock, t, pc', pc.shard);
    case Release(_) => ReleaseShard(c.n, s.threads, s.locks, s.cacheLock, t, pc', pc.shard);
    case Finish(_) =>
      if pc.held && !pc.bulk {
        ReleaseShard(c.n, s.threads, s.locks, s.cacheLock, t, pc', pc.shard);
      } else {
        KeepLocks(c.n, s.threads, s.locks, s.cacheLock, t, pc');
      }
    case LockCache(_) => MoveCache(c.n, s.threads, s.locks, s.cacheLock, t, pc');
    case CompareCache(_) => MoveCache(c.n, s.threads, s.locks, s.cacheLock, t, pc');
    case PublishCache(_) => MoveCache(c.n, s.threads, s.locks, s.cacheLock, t, pc');
    case _ => KeepLocks(c.n, s.threads, s.locks, s.cacheLock, t, pc');
  }

  // ---- Shards and log ---------------------------------------------------------------------

  /** Steps that touch neither the shards nor the log, between points of no write in progress. */
  predicate Settled(pc: Pc) {
    !pc.Bumped? && !pc.Erased?
  }

  lemma QuietShards(c: Config, s: State, s': State, t: nat)
    requires c.n > 0 && LockInv(c, s) && LockInv(c, s') && ShardInv(c, s)
    requires t < |s.threads| && s'.shards == s.shards && s'.log == s.log
    requires |s'.threads| == |s.threads| && forall u | 0 <= u < |s.threads| && u != t :: s'.threads[u] == s.threads[u]
    requires Settled(s.threads[t]) && Settled(s'.threads[t])
    ensures ShardInv(c, s')
  {
    forall i | 0 <= i < c.n
      ensures ShardAgrees(c.env, c.n, i, Owner(s', i), s'.shards[i], Replay(c.env, c.n, s'.log)[i])
    {
      assert ShardAgrees(c.env, c.n, i, Owner(s, i), s.shards[i], Replay(c.env, c.n, s.log)[i]);
      if Settled(Owner(s, i)) {
        if s'.locks[i].Some? && s'.locks[i].value != t {
          assert Held(s.threads[s'.locks[i].value]) == Some(i);
        }
      } else {
        var u := s.locks[i].value;
        assert u != t && Held(s'.threads[u]) == Some(i);
      }
    }
  }

  lemma ShardBump(c: Config, s: State, s': State, t: nat, op: Op)
    requires c.n > 0 && LockInv(c, s) && ShardInv(c, s) && Next(c, s, s', Bump(t, op))
    ensures ShardInv(c, s')
    ensures !Decide(c.env, Lookup(c.env, Replay(c.env, c.n, s.log), op.id), op).Failed?
  {
    var k := s.threads[t].shard;
    ReplayAppend(c.env, c.n, s.log, op);
    assert Owner(s, k) == s.threads[t];
    assert ShardAgrees(c.env, c.n, k, Owner(s, k), s.shards[k], Replay(c.env, c.n, s.log)[k]);
    forall i | 0 <= i < c.n
      ensures ShardAgrees(c.env, c.n, i, Owner(s', i), s'.shards[i], Replay(c.env, c.n, s'.log)[i])
    {
      assert ShardAgrees(c.env, c.n, i, Owner(s, i), s.shards[i], Replay(c.env, c.n, s.log)[i]);
      if i != k {
        assert s.locks[i] != Some(t);
      }
    }
  }

  lemma ShardInsert(c: Config, s: State, s': State, t: nat)
    requires c.n > 0 && LockInv(c, s) && ShardInv(c, s) && Next(c, s, s', InsertDoc(t))
    ensures ShardInv(c, s')
  {
    var pc := s.threads[t];
    var k := pc.shard;
    assert Owner(s, k) == pc;
    assert ShardAgrees(c.env, c.n, k, pc, s.shards[k], Replay(c.env, c.n, s.log)[k]);
    assert s'.shards == ApplyOp(c.env, s.shards, pc.op);
    ApplyOpWellPlaced(c.env, s.shards, pc.op);
    forall i | 0 <= i < c.n
      ensures ShardAgrees(c.env, c.n, i, Owner(s', i), s'.shards[i], Replay(c.env, c.n, s'.log)[i])
    {
      assert ShardAgrees(c.env, c.n, i, Owner(s, i), s.shards[i], Replay(c.env, c.n, s.log)[i]);
      if i != k {
        assert s.locks[i] != Some(t);
      }
    }
  }

  lemma ShardErase(c: Config, s: State, s': State, t: nat, op: Op)
    requires c.n > 0 && LockInv(c, s) && ShardInv(c, s) && Next(c, s, s', EraseDoc(t, op))
    ensures ShardInv(c, s')
  {
    var k := s.threads[t].shard;
    assert Owner(s, k) == s.threads[t];
    assert ShardAgrees(c.env, c.n, k, s.threads[t], s.shards[k], Replay(c.env, c.n, s.log)[k]);
    assert s'.shards == ApplyOp(c.env, s.shards, op);
    ApplyOpWellPlaced(c.env, s.shards, op);
    forall i | 0 <= i < c.n
      ensures ShardAgrees(c.env, c.n, i, Owner(s', i), s'.shards[i], Replay(c.env, c.n, s'.log)[i])
    {
      assert ShardAgrees(c.env, c.n, i, Owner(s, i), s.shards[i], Replay(c.env, c.n, s.log)[i]);
      if i != k {
        assert s.locks[i] != Some(t);
      }
    }
  }

  lemma ShardBumpErased(c: Config, s: State, s': State, t: nat)
    requires c.n > 0 && LockInv(c, s) && ShardInv(c, s) && Next(c, s, s', BumpErased(t))
    ensures ShardInv(c, s')
    ensures var pc := s.threads[t];
            Decide(c.env, Lookup(c.env, Replay(c.env, c.n, s.log), pc.op.id), pc.op) == Removed(pc.gone)
  {
    var pc := s.threads[t];
    var k := pc.shard;
    ReplayAppend(c.env, c.n, s.log, pc.op);
    assert Owner(s, k) == pc;
    assert ShardAgrees(c.env, c.n, k, pc, s.shards[k], Replay(c.env, c.n, s.log)[k]);
    forall i | 0 <= i < c.n
      ensures ShardAgrees(c.env, c.n, i, Owner(s', i), s'.shards[i], Replay(c.env, c.n, s'.log)[i])
    {
      assert ShardAgrees(c.env, c.n, i, Owner(s, i), s.shards[i], Replay(c.env, c.n, s.log)[i]);
      if i != k {
        assert s.locks[i] != Some(t);
      }
    }
  }

  predicate Writes(step: Step) {
    step.Bump? || step.InsertDoc? || step.EraseDoc? || step.BumpErased?
  }

  lemma QuietEffect(c: Config, s: State, s': State, step: Step)
    requires c.n > 0 && LockInv(c, s) && Next(c, s, s', step) && !Writes(step)
    ensures s'.shards == s.shards && s'.log == s.log && s'.updateSeq == s.updateSeq
    ensures |s'.threads| == |s.threads| && s'.threads == s.threads[step.t := s'.threads[step.t]]
    ensures Settled(s.threads[step.t]) && Settled(s'.threads[step.t])
  {
  }

  lemma QuietStep(c: Config, s: State, s': State, step: Step)
    requires c.n > 0 && LockInv(c, s) && ShardInv(c, s) && Next(c, s, s', step) && !Writes(step)
    ensures ShardInv(c, s')
  {
    assert |s.shards| == c.n && |s.locks| == c.n;
    hide ShardInv, LockInv, Next, Settled;
    LockStep(c, s, s', step);
    QuietEffect(c, s, s', step);
    QuietShards(c, s, s', step.t);
  }

  lemma ShardStep(c: Config, s: State, s': State, step: Step)
    requires c.n > 0 && LockInv(c, s) && ShardInv(c, s) && Next(c, s, s', step)
    ensures ShardInv(c, s')
  {
    assert |s.shards| == c.n && |s.locks| == c.n;
    hide ShardInv, LockInv, Next;
    match step
    case Bump(t, op) => ShardBump(c, s, s', t, op);
    case InsertDoc(t) => ShardInsert(c, s, s', t);
    case EraseDoc(t, op) => ShardErase(c, s, s', t, op);
    case BumpErased(t) => ShardBumpErased(c, s, s', t);
    case _ => QuietStep(c, s, s', step);
  }

  lemma WrapSuccessor(x: nat)
    ensures Wrap64(Wrap64(x) + 1) == Wrap64(x + 1)
  {
  }

  /** The steps that take a sequence number, and the write they log. */
  predicate Logs(step: Step) {
    step.Bump? || step.BumpErased?
  }

  function LoggedOp(s: State, step: Step): Op
    requires Logs(step) && step.t < |s.threads| && (step.BumpErased? ==> s.threads[step.t].Erased?)
  {
    match step
    case Bump(_, op) => op
    case BumpErased(t) => s.threads[t].op
  }

  lemma LogAppend(c: Config, s: State, s': State, op: Op)
    requires c.n > 0 && LogInv(c, s)
    requires !Decide(c.env, Lookup(c.env, Replay(c.env, c.n, s.log), op.id), op).Failed?
    requires s'.log == s.log + [op] && s'.updateSeq == Wrap64(s.updateSeq + 1)
    ensures LogInv(c, s')
  {
    hide AllAccepted, Replay, Lookup, Decide;
    WrapSuccessor(|s.log|);
    AcceptedAppend(c.env, c.n, s.log, op);
  }

  lemma LogStep(c: Config, s: State, s': State, step: Step)
    requires c.n > 0 && LockInv(c, s) && ShardInv(c, s) && LogInv(c, s) && Next(c, s, s', step)
    ensures LogInv(c, s')
    ensures s'.log == if Logs(step) then s.log + [LoggedOp(s, step)] else s.log
  {
    match step
    case Bump(t, op) =>
      ShardBump(c, s, s', t, op);
      LogAppend(c, s, s', op);
    case BumpErased(t) =>
      ShardBumpErased(c, s, s', t);
      LogAppend(c, s, s', s.threads[t].op);
    case InsertDoc(_) =>
    case EraseDoc(_, _) =>
    case _ => QuietEffect(c, s, s', step);
  }

  // ---- Answers ----------------------------------------------------------------------------

  lemma AnswerKept(c: Config, log: seq<Op>, op: Op, a: Answer)
    requires c.n > 0 && AnswerRight(c, log, a)
    ensures AnswerRight(c, log + [op], a)
  {
    PrefixKept(log, op, a.at);
  }

  lemma AnswersKept(c: Config, s: State, s': State, step: Step)
    requires c.n > 0 && LockInv(c, s) && ShardInv(c, s) && LogInv(c, s) && AnswerInv(c, s) && Next(c, s, s', step)
    ensures forall k | 0 <= k < |s.answers| :: AnswerRight(c, s'.log, s.answers[k])
  {
    LogStep(c, s, s', step);
    forall k | 0 <= k < |s.answers| ensures AnswerRight(c, s'.log, s.answers[k]) {
      if Logs(step) {
        AnswerKept(c, s.log, LoggedOp(s, step), s.answers[k]);
      }
    }
  }

  /** What the holder of a lock reads in its shard is what the whole log says. */
  lemma ShardIsCurrent(c: Config, s: State, i: nat)
    requires c.n > 0 && LockInv(c, s) && ShardInv(c, s) && i < c.n
    requires s.locks[i] == None || Settled(s.threads[s.locks[i].value])
    ensures s.shards[i] == Replay(c.env, c.n, s.log)[i]
  {
    assert ShardAgrees(c.env, c.n, i, Owner(s, i), s.shards[i], Replay(c.env, c.n, s.log)[i]);
  }

  lemma OrderedMore(log: seq<Op>, answers: seq<Answer>, a: Answer)
    requires AnswersInOrder(log, answers) && a.at == |log|
    ensures AnswersInOrder(if a.outcome.Failed? then log else log + [a.op], answers + [a])
  {
    var more := answers + [a];
    assert more[..|answers|] == answers;
    forall k | 0 <= k < |more| ensures more[k].at == |AcceptedOps(more[..k])| {
      if k < |answers| {
        assert more[..k] == answers[..k];
      }
    }
  }

  lemma NewAnswerRight(c: Config, s: State, s': State, step: Step)
    requires c.n > 0 && LockInv(c, s) && ShardInv(c, s) && LogInv(c, s) && Next(c, s, s', step)
    requires step.Refuse? || Logs(step)
    ensures |s'.answers| == |s.answers| + 1 && s'.answers[..|s.answers|] == s.answers
    ensures var a := s'.answers[|s.answers|];
            && AnswerRight(c, s'.log, a) && a.at == |s.log|
            && s'.log == if a.outcome.Failed? then s.log else s.log + [a.op]
  {
    LogStep(c, s, s', step);
    assert s'.log[..|s.log|] == s.log;
    if step.BumpErased? {
      ShardBumpErased(c, s, s', step.t);
    } else {
      ShardIsCurrent(c, s, s.threads[step.t].shard);
    }
  }

  lemma SameAnswers(c: Config, s: State, s': State, step: Step)
    requires c.n > 0 && LockInv(c, s) && Next(c, s, s', step) && !step.Refuse? && !Logs(step)
    ensures s'.answers == s.answers && s'.log == s.log
  {
  }

  lemma AnswerMore(c: Config, s: State, s': State, a: Answer)
    requires c.n > 0 && AnswerInv(c, s)
    requires forall k | 0 <= k < |s.answers| :: AnswerRight(c, s'.log, s.answers[k])
    requires s'.answers == s.answers + [a] && AnswerRight(c, s'.log, a) && a.at == |s.log|
    requires s'.log == if a.outcome.Failed? then s.log else s.log + [a.op]
    ensures AnswerInv(c, s')
  {
    hide AnswerRight, AcceptedOps, AnswersInOrder;
    OrderedMore(s.log, s.answers, a);
  }

  lemma AnswerStep(c: Config, s: State, s': State, step: Step)
    requires c.n > 0 && LockInv(c, s) && ShardInv(c, s) && LogInv(c, s) && AnswerInv(c, s) && Next(c, s, s', step)
    ensures AnswerInv(c, s')
    ensures s.answers <= s'.answers && s.log <= s'.log
  {
    assert |s.shards| == c.n && |s.locks| == c.n;
    hide Next, LockInv, ShardInv, LogInv, AnswerInv, AnswerRight, AcceptedOps, AnswersInOrder;
    AnswersKept(c, s, s', step);
    if step.Refuse? || Logs(step) {
      NewAnswerRight(c, s, s', step);
      var a := s'.answers[|s.answers|];
      assert s'.answers == s.answers + [a];
      AnswerMore(c, s, s', a);
    } else {
      SameAnswers(c, s, s', step);
      SameInv(c, s, s');
    }
  }

  lemma SameInv(c: Config, s: State, s': State)
    requires c.n > 0 && AnswerInv(c, s) && s'.answers == s.answers && s'.log == s.log
    ensures AnswerInv(c, s')
  {
  }

  // ---- Counters ---------------------------------------------------------------------------

  lemma {:induction false} OwedUpdate(env: Env, threads: seq<Pc>, t: nat, pc: Pc)
    requires t < |threads|
    ensures OwedCount(env, threads[t := pc])
            == OwedCount(env, threads) - PendingCount(Owed(env, threads[t])) + PendingCount(Owed(env, pc))
    ensures OwedSize(env, threads[t := pc])
            == OwedSize(env, threads) - PendingSize(Owed(env, threads[t])) + PendingSize(Owed(env, pc))
  {
    if t == 0 {
      assert threads[0 := pc][1..] == threads[1..];
    } else {
      assert threads[t := pc][1..] == threads[1..][t - 1 := pc];
      OwedUpdate(env, threads[1..], t - 1, pc);
    }
  }

  lemma PendingPair(x: Adjust, y: Adjust)
    ensures PendingCount([x, y]) == (if x.Count? then x.d else 0) + (if y.Count? then y.d else 0)
    ensures PendingSize([x, y]) == (if x.Size? then x.d else 0) + (if y.Size? then y.d else 0)
  {
    assert [x, y][1..] == [y] && [y][1..] == [];
    assert PendingCount([]) == 0 && PendingSize([]) == 0;
    assert PendingCount([y]) == if y.Count? then y.d else 0;
    assert PendingSize([y]) == if y.Size? then y.d else 0;
  }

  lemma OwedByStored(env: Env, prev: Option<Doc>, d: Doc)
    ensures PendingCount(StoredAdjusts(env, prev, d)) == 1 - One(prev)
    ensures PendingSize(StoredAdjusts(env, prev, d)) == env.size(d) - SizeOf(env.size, prev)
  {
    var first := if prev.None? then Count(1) else Size(-(env.size(prev.value) as int));
    assert StoredAdjusts(env, prev, d) == [first, Size(env.size(d))];
    PendingPair(first, Size(env.size(d)));
  }

  lemma OwedByRemoved(env: Env, d: Doc)
    ensures PendingCount(RemovedAdjusts(env, d)) == -1
    ensures PendingSize(RemovedAdjusts(env, d)) == -(env.size(d) as int)
  {
    PendingPair(Count(-1), Size(-(env.size(d) as int)));
  }

  lemma WrapAdd(x: int, d: int)
    ensures Wrap64(Wrap64(x) + d) == Wrap64(x + d)
  {
  }

  /** A thread that moves a document owes exactly what the document changes. */
  lemma Balanced(c: Config, s: State, s': State, t: nat, count: int, size: int)
    requires CountInv(c, s) && t < |s.threads| == |s'.threads| && s'.threads == s.threads[t := s'.threads[t]]
    requires s'.docCount == s.docCount && s'.dataSize == s.dataSize
    requires PendingCount(Owed(c.env, s'.threads[t])) == PendingCount(Owed(c.env, s.threads[t])) + count
    requires PendingSize(Owed(c.env, s'.threads[t])) == PendingSize(Owed(c.env, s.threads[t])) + size
    requires DocTotal(s'.shards) == DocTotal(s.shards) + count
    requires SizeTotal(c.env, s'.shards) == SizeTotal(c.env, s.shards) + size
    ensures CountInv(c, s')
  {
    OwedUpdate(c.env, s.threads, t, s'.threads[t]);
  }

  lemma InsertTotals(c: Config, s: State, s': State, t: nat)
    requires c.n > 0 && LockInv(c, s) && ShardInv(c, s) && Next(c, s, s', InsertDoc(t))
    ensures var pc := s.threads[t];
            var prev := Find(s.shards[pc.shard], pc.op.id);
            && DocTotal(s'.shards) == DocTotal(s.shards) + 1 - One(prev)
            && SizeTotal(c.env, s'.shards) == SizeTotal(c.env, s.shards) + c.env.size(pc.doc) - SizeOf(c.env.size, prev)
  {
    var pc := s.threads[t];
    assert Owner(s, pc.shard) == pc;
    assert ShardAgrees(c.env, c.n, pc.shard, pc, s.shards[pc.shard], Replay(c.env, c.n, s.log)[pc.shard]);
    assert s'.shards == ApplyOp(c.env, s.shards, pc.op);
    ApplyOpEffect(c.env, s.shards, pc.op, pc.op.id);
  }

  lemma CountInsert(c: Config, s: State, s': State, t: nat)
    requires c.n > 0 && LockInv(c, s) && ShardInv(c, s) && CountInv(c, s) && Next(c, s, s', InsertDoc(t))
    ensures CountInv(c, s')
  {
    var pc := s.threads[t];
    var prev := Find(s.shards[pc.shard], pc.op.id);
    InsertTotals(c, s, s', t);
    OwedByStored(c.env, prev, pc.doc);
    Balanced(c, s, s', t, 1 - One(prev), c.env.size(pc.doc) - SizeOf(c.env.size, prev));
  }

  lemma EraseTotals(c: Config, s: State, s': State, t: nat, op: Op)
    requires c.n > 0 && LockInv(c, s) && ShardInv(c, s) && Next(c, s, s', EraseDoc(t, op))
    ensures var d := OutcomeOn(c.env, s.shards[s.threads[t].shard], op).doc;
            && DocTotal(s'.shards) == DocTotal(s.shards) - 1
            && SizeTotal(c.env, s'.shards) == SizeTotal(c.env, s.shards) - c.env.size(d)
  {
    assert s'.shards == ApplyOp(c.env, s.shards, op);
    ApplyOpEffect(c.env, s.shards, op, op.id);
  }

  lemma CountErase(c: Config, s: State, s': State, t: nat, op: Op)
    requires c.n > 0 && LockInv(c, s) && ShardInv(c, s) && CountInv(c, s) && Next(c, s, s', EraseDoc(t, op))
    ensures CountInv(c, s')
  {
    var d := OutcomeOn(c.env, s.shards[s.threads[t].shard], op).doc;
    EraseTotals(c, s, s', t, op);
    OwedByRemoved(c.env, d);
    Balanced(c, s, s', t, -1, -(c.env.size(d) as int));
  }

  /** Paying the first debt: what the counter gains is what is no longer owed. */
  lemma Paid(total: int, owed: int, d: int, counter: nat)
    requires counter == Wrap64(total - owed)
    ensures Wrap64(counter + d) == Wrap64(total - (owed - d))
  {
    WrapAdd(total - owed, d);
  }

  lemma PayOff(c: Config, s: State, s': State, t: nat, a: Adjust, rest: seq<Adjust>)
    requires CountInv(c, s) && t < |s.threads| == |s'.threads| && s'.threads == s.threads[t := s'.threads[t]]
    requires Owed(c.env, s.threads[t]) == [a] + rest && Owed(c.env, s'.threads[t]) == rest
    requires s'.shards == s.shards
    requires s'.docCount == (if a.Count? then Wrap64(s.docCount + a.d) else s.docCount)
    requires s'.dataSize == (if a.Size? then Wrap64(s.dataSize + a.d) else s.dataSize)
    ensures CountInv(c, s')
  {
    OwedUpdate(c.env, s.threads, t, s'.threads[t]);
    assert ([a] + rest)[1..] == rest;
    if a.Count? {
      Paid(DocTotal(s.shards), OwedCount(c.env, s.threads), a.d, s.docCount);
    } else {
      Paid(SizeTotal(c.env, s.shards), OwedSize(c.env, s.threads), a.d, s.dataSize);
    }
  }

  lemma CountAdjust(c: Config, s: State, s': State, t: nat)
    requires c.n > 0 && LockInv(c, s) && CountInv(c, s) && Next(c, s, s', AdjustCounter(t))
    ensures CountInv(c, s')
  {
    var pending := s.threads[t].pending;
    assert pending == [pending[0]] + pending[1..];
    PayOff(c, s, s', t, pending[0], pending[1..]);
  }

  /** The steps that move no document and settle no debt. */
  lemma NothingMoves(c: Config, s: State, s': State, step: Step)
    requires c.n > 0 && LockInv(c, s) && Next(c, s, s', step)
    requires !step.InsertDoc? && !step.EraseDoc? && !step.AdjustCounter?
    ensures s'.shards == s.shards && s'.docCount == s.docCount && s'.dataSize == s.dataSize
    ensures |s'.threads| == |s.threads| && s'.threads == s.threads[step.t := s'.threads[step.t]]
    ensures Owed(c.env, s'.threads[step.t]) == Owed(c.env, s.threads[step.t])
  {
  }

  lemma CountStep(c: Config, s: State, s': State, step: Step)
    requires c.n > 0 && LockInv(c, s) && ShardInv(c, s) && CountInv(c, s) && Next(c, s, s', step)
    ensures CountInv(c, s')
  {
    match step
    case InsertDoc(t) => CountInsert(c, s, s', t);
    case EraseDoc(t, op) => CountErase(c, s, s', t, op);
    case AdjustCounter(t) => CountAdjust(c, s, s', t);
    case _ =>
      NothingMoves(c, s, s', step);
      Balanced(c, s, s', step.t, 0, 0);
  }

  // ---- Cache ------------------------------------------------------------------------------

  lemma CopiedKept(c: Config, log: seq<Op>, op: Op, times: seq<nat>)
    requires c.n > 0 && |times| <= c.n && forall i | 0 <= i < |times| :: times[i] <= |log|
    ensures Copied(c, log + [op], times) == Copied(c, log, times)
  {
    forall i | 0 <= i < |times| ensures Copied(c, log + [op], times)[i] == Copied(c, log, times)[i] {
      PrefixKept(log, op, times[i]);
    }
  }

  lemma AssembledKept(c: Config, log: seq<Op>, op: Op, docs: seq<Doc>, at: nat, times: seq<nat>, copied: nat)
    requires c.n > 0 && Assembled(c, log, docs, at, times, copied)
    ensures Assembled(c, log + [op], docs, at, times, copied)
  {
    CopiedKept(c, log, op, times);
  }

  lemma AssembledStep(c: Config, log: seq<Op>, docs: seq<Doc>, at: nat, times: seq<nat>, copied: nat)
    requires c.n > 0 && Assembled(c, log, docs, at, times, copied) && copied < c.n
    ensures Assembled(c, log, Merge(DocLess, docs, Replay(c.env, c.n, log)[copied]), at, times + [|log|], copied + 1)
  {
    hide Replay, Merge;
    var more := Copied(c, log, times + [|log|]);
    assert log[..|log|] == log;
    assert more[..copied] == Copied(c, log, times);
    assert more[copied] == Replay(c.env, c.n, log)[copied];
  }

  lemma CacheLogged(c: Config, s: State, s': State, step: Step)
    requires c.n > 0 && LockInv(c, s) && ShardInv(c, s) && LogInv(c, s) && CacheInv(c, s) && Next(c, s, s', step)
    requires Logs(step)
    ensures CacheInv(c, s')
  {
    LogStep(c, s, s', step);
    var op := LoggedOp(s, step);
    forall u | 0 <= u < |s'.threads| && s'.threads[u].Copying?
      ensures Assembled(c, s'.log, s'.threads[u].acc, s'.threads[u].at, s'.threads[u].times, s'.threads[u].next)
    {
      assert s'.threads[u] == s.threads[u];
      AssembledKept(c, s.log, op, s.threads[u].acc, s.threads[u].at, s.threads[u].times, s.threads[u].next);
    }
    if forall u | 0 <= u < |s'.threads| :: !s'.threads[u].Copying? {
      forall u | 0 <= u < |s.threads| ensures !s.threads[u].Copying? {
        assert u == step.t || s'.threads[u] == s.threads[u];
      }
      AssembledKept(c, s.log, op, s.cacheDocs, s.cachedAt, s.cacheTimes, c.n);
    }
  }

  lemma OneCacheHolder(c: Config, s: State, t: nat, u: nat)
    requires LockInv(c, s) && t < |s.threads| && u < |s.threads|
    requires HoldsCache(s.threads[t]) && HoldsCache(s.threads[u])
    ensures t == u
  {
    assert s.cacheLock == Some(t) && s.cacheLock == Some(u);
  }

  lemma CacheRead(c: Config, s: State, s': State, t: nat)
    requires c.n > 0 && LockInv(c, s) && LogInv(c, s) && CacheInv(c, s) && Next(c, s, s', ReadSequence(t))
    ensures CacheInv(c, s')
  {
    assert MergeAll(DocLess, Copied(c, s.log, [])) == [];
    forall u | 0 <= u < |s'.threads| && s'.threads[u].Copying? ensures u == t {
      if u != t {
        OneCacheHolder(c, s, t, u);
      }
    }
    assert s'.threads[t].Copying?;
  }

  lemma CacheCopy(c: Config, s: State, s': State, t: nat)
    requires c.n > 0 && LockInv(c, s) && ShardInv(c, s) && LogInv(c, s) && CacheInv(c, s)
    requires Next(c, s, s', CopyShard(t))
    ensures CacheInv(c, s')
  {
    var pc := s.threads[t];
    ShardIsCurrent(c, s, pc.next);
    AssembledStep(c, s.log, pc.acc, pc.at, pc.times, pc.next);
    assert s'.threads[t].Copying?;
    forall u | 0 <= u < |s'.threads| && s'.threads[u].Copying? ensures u == t {
      if u != t {
        OneCacheHolder(c, s, t, u);
      }
    }
  }

  lemma CachePublish(c: Config, s: State, s': State, t: nat)
    requires c.n > 0 && LockInv(c, s) && CacheInv(c, s) && Next(c, s, s', PublishCache(t))
    ensures CacheInv(c, s')
  {
    assert HoldsCache(s.threads[t]);
    forall u | 0 <= u < |s'.threads| ensures !s'.threads[u].Copying? {
      assert u != t ==> s'.threads[u] == s.threads[u] && (HoldsCache(s.threads[u]) ==> s.cacheLock == Some(u));
    }
  }

  /** The steps that leave the cache, the log and every copy in progress alone. */
  lemma CacheQuiet(c: Config, s: State, s': State, step: Step)
    requires c.n > 0 && CacheInv(c, s) && |s.threads| == |s'.threads| && step.t < |s.threads|
    requires s'.log == s.log && s'.cacheSeq == s.cacheSeq && s'.cachedAt == s.cachedAt
    requires s'.cacheDocs == s.cacheDocs && s'.cacheTimes == s.cacheTimes
    requires s'.threads == s.threads[step.t := s'.threads[step.t]]
    requires !s.threads[step.t].Copying? && !s'.threads[step.t].Copying?
    ensures CacheInv(c, s')
  {
    if forall u | 0 <= u < |s'.threads| :: !s'.threads[u].Copying? {
      forall u | 0 <= u < |s.threads| ensures !s.threads[u].Copying? {
        assert u == step.t || s'.threads[u] == s.threads[u];
      }
    }
  }

  lemma CacheStep(c: Config, s: State, s': State, step: Step)
    requires c.n > 0 && LockInv(c, s) && ShardInv(c, s) && LogInv(c, s) && CacheInv(c, s) && Next(c, s, s', step)
    ensures CacheInv(c, s')
  {
    match step
    case Bump(_, _) => CacheLogged(c, s, s', step);
    case BumpErased(_) => CacheLogged(c, s, s', step);
    case ReadSequence(t) => CacheRead(c, s, s', t);
    case CopyShard(t) => CacheCopy(c, s, s', t);
    case PublishCache(t) => CachePublish(c, s, s', t);
    case _ => CacheQuiet(c, s, s', step);
  }

  // ---- Listings ---------------------------------------------------------------------------

  lemma ListingKept(c: Config, log: seq<Op>, op: Op, l: Listing)
    requires c.n > 0 && ListingRight(c, log, l)
    ensures ListingRight(c, log + [op], l)
  {
    AssembledKept(c, log, op, l.docs, l.at, l.times, c.n);
  }

  lemma ListingsKept(c: Config, s: State, s': State, step: Step)
    requires c.n > 0 && LockInv(c, s) && ShardInv(c, s) && LogInv(c, s) && ListingInv(c, s) && Next(c, s, s', step)
    ensures forall k | 0 <= k < |s.listings| :: ListingRight(c, s'.log, s.listings[k])
  {
    LogStep(c, s, s', step);
    forall k | 0 <= k < |s.listings| ensures ListingRight(c, s'.log, s.listings[k]) {
      if Logs(step) {
        ListingKept(c, s.log, LoggedOp(s, step), s.listings[k]);
      }
    }
  }

  lemma NewListingRight(c: Config, s: State, s': State, step: Step)
    requires c.n > 0 && LockInv(c, s) && LogInv(c, s) && CacheInv(c, s) && Next(c, s, s', step)
    requires |s'.listings| > |s.listings|
    ensures |s'.listings| == |s.listings| + 1 && s'.listings[..|s.listings|] == s.listings && s'.log == s.log
    ensures ListingRight(c, s'.log, s'.listings[|s.listings|])
  {
    if step.CompareCache? {
      forall u | 0 <= u < |s.threads| ensures !s.threads[u].Copying? {
        assert HoldsCache(s.threads[step.t]);
        assert HoldsCache(s.threads[u]) ==> s.cacheLock == Some(u);
      }
    }
  }

  lemma ListingStep(c: Config, s: State, s': State, step: Step)
    requires c.n > 0 && LockInv(c, s) && ShardInv(c, s) && LogInv(c, s) && CacheInv(c, s) && ListingInv(c, s)
    requires Next(c, s, s', step)
    ensures ListingInv(c, s')
  {
    ListingsKept(c, s, s', step);
    if |s'.listings| > |s.listings| {
      NewListingRight(c, s, s', step);
      forall k | 0 <= k < |s'.listings| ensures ListingRight(c, s'.log, s'.listings[k]) {
        if k < |s.listings| {
          assert s'.listings[k] == s'.listings[..|s.listings|][k];
        }
      }
    } else {
      assert s'.listings == s.listings;
    }
  }

  // ---- Every reachable state --------------------------------------------------------------

  lemma {:induction false} NothingOwedYet(env: Env, n: nat)
    ensures OwedCount(env, seq(n, _ => Idle)) == 0 && OwedSize(env, seq(n, _ => Idle)) == 0
    decreases n
  {
    if n > 0 {
      NothingOwedYet(env, n - 1);
      assert seq(n, _ => Idle)[1..] == seq(n - 1, _ => Idle);
    }
  }

  lemma {:induction false} NothingStoredYet(env: Env, n: nat)
    ensures DocTotal(EmptyStore(n)) == 0 && SizeTotal(env, EmptyStore(n)) == 0
    ensures MergeAll(DocLess, EmptyStore(n)) == []
    decreases n
  {
    if n > 0 {
      NothingStoredYet(env, n - 1);
      assert EmptyStore(n)[1..] == EmptyStore(n - 1);
      assert EmptyStore(n)[..n - 1] == EmptyStore(n - 1);
    }
  }

  lemma InitCache(c: Config, s: State)
    requires c.n > 0 && Init(c, s)
    ensures CacheInv(c, s)
  {
    NothingStoredYet(c.env, c.n);
    assert s.log[..0] == [];
    assert Copied(c, s.log, s.cacheTimes) == EmptyStore(c.n);
  }

  lemma InitCounts(c: Config, s: State)
    requires c.n > 0 && Init(c, s)
    ensures CountInv(c, s)
  {
    NothingOwedYet(c.env, c.threads);
    NothingStoredYet(c.env, c.n);
  }

  lemma InitShards(c: Config, s: State)
    requires c.n > 0 && Init(c, s)
    ensures ShardInv(c, s)
  {
    ReplayWellPlaced(c.env, c.n, []);
  }

  lemma InitInv(c: Config, s: State)
    requires c.n > 0 && Init(c, s)
    ensures Inv(c, s)
  {
    hide ShardInv, CountInv, CacheInv, ListingRight, AnswerRight, Replay;
    InitShards(c, s);
    InitCounts(c, s);
    InitCache(c, s);
  }

  lemma NextInv(c: Config, s: State, s': State, step: Step)
    requires c.n > 0 && Inv(c, s) && Next(c, s, s', step)
    ensures Inv(c, s')
  {
    LockStep(c, s, s', step);
    ShardStep(c, s, s', step);
    LogStep(c, s, s', step);
    AnswerStep(c, s, s', step);
    CountStep(c, s, s', step);
    CacheStep(c, s, s', step);
    ListingStep(c, s, s', step);
  }

  lemma {:induction false} RunInv(c: Config, trace: seq<State>, steps: seq<Step>)
    requires c.n > 0 && IsRun(c, trace, steps)
    ensures Inv(c, trace[|steps|])
    decreases |steps|
  {
    hide Inv, Init, Next;
    if steps == [] {
      InitInv(c, trace[0]);
    } else {
      var k := |steps| - 1;
      RunInv(c, trace[..k + 1], steps[..k]);
      NextInv(c, trace[k], trace[k + 1], steps[k]);
    }
  }
}
