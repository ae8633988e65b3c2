/** What every run of the concurrent store guarantees. */
module StoreTheorems {
  import opened Base
  import opened Pages
  import opened Shards
  import opened Store
  import opened History
  import opened Listings
  import opened StoreMachine
  import opened StoreSafety
  import opened WriteRules

  /** The answers, in the order they were given, are a sequential execution: each is the one the rules give
      on the store that the accepted writes among the answers before it have left. The log is these
      accepted writes, so each of its entries is the answer to one write, and to one only. */
  lemma WritesLinearize(c: Config, trace: seq<State>, steps: seq<Step>, k: nat)
    requires c.n > 0 && IsRun(c, trace, steps)
    requires k < |trace[|steps|].answers|
    ensures var s := trace[|steps|];
            var a := s.answers[k];
            var before := AcceptedOps(s.answers[..k]);
            && s.log == AcceptedOps(s.answers) && before <= s.log && a.at == |before|
            && a.outcome == Decide(c.env, Lookup(c.env, Replay(c.env, c.n, before), a.op.id), a.op)
            && (!a.outcome.Failed? ==> before + [a.op] <= s.log)
  {
    hide Inv, Next, Replay, Decide, Lookup, AcceptedOps;
    RunInv(c, trace, steps);
    StateLinear(c, trace[|steps|], k);
  }

  lemma StateLinear(c: Config, s: State, k: nat)
    requires c.n > 0 && Inv(c, s) && k < |s.answers|
    ensures var a := s.answers[k];
            var before := AcceptedOps(s.answers[..k]);
            && s.log == AcceptedOps(s.answers) && before <= s.log && a.at == |before|
            && a.outcome == Decide(c.env, Lookup(c.env, Replay(c.env, c.n, before), a.op.id), a.op)
            && (!a.outcome.Failed? ==> before + [a.op] <= s.log)
  {
    hide Replay, Decide, Lookup, LockInv, ShardInv, LogInv, CountInv, CacheInv, ListingInv, AcceptedOps;
    assert AnswerRight(c, s.log, s.answers[k]);
    AcceptedPrefix(s.answers, k);
    assert s.log[..s.answers[k].at] == AcceptedOps(s.answers[..k]);
  }

  lemma {:induction false} AcceptedPrefix(answers: seq<Answer>, k: nat)
    requires k <= |answers|
    ensures AcceptedOps(answers[..k]) <= AcceptedOps(answers)
    decreases |answers|
  {
    if k == |answers| {
      assert answers[..k] == answers;
    } else {
      var init := answers[..|answers| - 1];
      AcceptedPrefix(init, k);
      assert init[..k] == answers[..k];
    }
  }

  /** In every run each answer is the one the rules promise, on the store that the accepted writes among the
      answers before it have left, and what it leaves is what they promise. */
  lemma AnswersByRules(c: Config, trace: seq<State>, steps: seq<Step>, k: nat)
    requires c.n > 0 && IsRun(c, trace, steps)
    requires k < |trace[|steps|].answers|
    ensures var answers := trace[|steps|].answers;
            Rule(c.env, Replay(c.env, c.n, AcceptedOps(answers[..k])), answers[k].op, answers[k].outcome,
                 Replay(c.env, c.n, AcceptedOps(answers[..k + 1])))
  {
    hide Inv, Next, Replay, Decide, Lookup, AcceptedOps, Rule, WellPlaced;
    WritesLinearize(c, trace, steps, k);
    var answers := trace[|steps|].answers;
    var before := AcceptedOps(answers[..k]);
    ReplayWellPlaced(c.env, c.n, before);
    RuleFollowed(c.env, Replay(c.env, c.n, before), answers[k].op);
    ReplayOneMore(c, answers, k);
  }

  lemma AcceptedMore(answers: seq<Answer>)
    requires answers != []
    ensures var m := |answers| - 1;
            AcceptedOps(answers) ==
            if answers[m].outcome.Failed? then AcceptedOps(answers[..m])
            else AcceptedOps(answers[..m]) + [answers[m].op]
  {
  }

  lemma ReplayOneMore(c: Config, answers: seq<Answer>, k: nat)
    requires c.n > 0 && k < |answers|
    requires var before := Replay(c.env, c.n, AcceptedOps(answers[..k]));
             answers[k].outcome == Decide(c.env, Lookup(c.env, before, answers[k].op.id), answers[k].op)
    ensures Replay(c.env, c.n, AcceptedOps(answers[..k + 1]))
            == ApplyOp(c.env, Replay(c.env, c.n, AcceptedOps(answers[..k])), answers[k].op)
  {
    hide Replay, Decide, ApplyOp, Lookup, WellPlaced, Stores, Drops, Has, AcceptedOps;
    var before := AcceptedOps(answers[..k]);
    assert answers[..k + 1][..k] == answers[..k];
    AcceptedMore(answers[..k + 1]);
    ReplayWellPlaced(c.env, c.n, before);
    ApplyStores(c.env, Replay(c.env, c.n, before), answers[k].op);
    ReplayAppend(c.env, c.n, before, answers[k].op);
  }

  /** Read-back, in every run: until the next accepted write to its id, what an accepted write stored is what is
      found there, and after a deletion nothing is. */
  lemma AcceptedIsRead(c: Config, trace: seq<State>, steps: seq<Step>, k: nat, m: nat)
    requires c.n > 0 && IsRun(c, trace, steps)
    requires var s := trace[|steps|];
             && k < |s.answers| && !s.answers[k].outcome.Failed? && s.answers[k].at < m <= |s.log|
             && forall p | s.answers[k].at < p < m :: s.log[p].id != s.answers[k].op.id
    ensures var s := trace[|steps|];
            var a := s.answers[k];
            forall d :: Has(Replay(c.env, c.n, s.log[..m]), a.op.id, d) <==> a.outcome.Stored? && d == a.outcome.doc
  {
    hide Inv, Next, Replay, Decide, Lookup, AcceptedOps, WellPlaced, Has;
    WritesLinearize(c, trace, steps, k);
    var s := trace[|steps|];
    var a := s.answers[k];
    var id := a.op.id;
    assert s.log[..a.at] == AcceptedOps(s.answers[..k]) && s.log[a.at] == a.op;
    StepAt(c.env, c.n, s.log, a.at, id);
    UntouchedLookup(c.env, c.n, s.log, id, a.at + 1, m);
    ReplayWellPlaced(c.env, c.n, s.log[..m]);
    LookupHas(c.env, Replay(c.env, c.n, s.log[..m]), id);
  }

  lemma PrefixIsRun(c: Config, trace: seq<State>, steps: seq<Step>, i: nat)
    requires c.n > 0 && IsRun(c, trace, steps) && i <= |steps|
    ensures IsRun(c, trace[..i + 1], steps[..i]) && trace[..i + 1][i] == trace[i]
  {
    hide Next;
  }

  lemma GrowStep(c: Config, s: State, s': State, step: Step)
    requires c.n > 0 && Inv(c, s) && Next(c, s, s', step)
    ensures s.answers <= s'.answers && s.log <= s'.log
  {
    hide Next, LockInv, ShardInv, LogInv, AnswerInv;
    AnswerStep(c, s, s', step);
  }

  lemma {:induction false} RunGrows(c: Config, trace: seq<State>, steps: seq<Step>, i: nat)
    requires c.n > 0 && IsRun(c, trace, steps) && i <= |steps|
    ensures trace[i].answers <= trace[|steps|].answers && trace[i].log <= trace[|steps|].log
    decreases |steps|
  {
    hide Next, Inv, Init;
    if i < |steps| {
      var k := |steps| - 1;
      PrefixIsRun(c, trace, steps, k);
      RunGrows(c, trace[..k + 1], steps[..k], i);
      RunInv(c, trace[..k + 1], steps[..k]);
      assert Next(c, trace[k], trace[k + 1], steps[k]);
      GrowStep(c, trace[k], trace[k + 1], steps[k]);
    }
  }

  lemma LogGrows(c: Config, trace: seq<State>, steps: seq<Step>, i: nat, j: nat)
    requires c.n > 0 && IsRun(c, trace, steps) && i <= j <= |steps|
    ensures trace[i].log <= trace[j].log
  {
    hide Next, Init;
    PrefixIsRun(c, trace, steps, j);
    RunGrows(c, trace[..j + 1], steps[..j], i);
  }

  lemma StateInv(c: Config, trace: seq<State>, steps: seq<Step>, i: nat)
    requires c.n > 0 && IsRun(c, trace, steps) && i <= |steps|
    ensures Inv(c, trace[i])
  {
    hide Next, Init, Inv;
    PrefixIsRun(c, trace, steps, i);
    RunInv(c, trace[..i + 1], steps[..i]);
  }

  /** The order is that of real time: a write answered by some moment of the run comes before every write
      answered later, and the log only grows behind what it held at that moment. */
  lemma RealTimeOrder(c: Config, trace: seq<State>, steps: seq<Step>, i: nat, k: nat)
    requires c.n > 0 && IsRun(c, trace, steps) && i <= |steps|
    requires k < |trace[|steps|].answers|
    ensures var now, end := trace[i], trace[|steps|];
            var a := end.answers[k];
            && now.log <= end.log
            && (k < |now.answers| ==>
                  a == now.answers[k] && a.at <= |now.log| && (!a.outcome.Failed? ==> a.at < |now.log|))
            && (k >= |now.answers| ==> a.at >= |now.log|)
  {
    hide Next, Init, Inv;
    RunGrows(c, trace, steps, i);
    RunInv(c, trace, steps);
    StateInv(c, trace, steps, i);
    EarlierFirst(c, trace[i], trace[|steps|], k);
  }

  lemma EarlierFirst(c: Config, now: State, end: State, k: nat)
    requires c.n > 0 && Inv(c, now) && Inv(c, end) && k < |end.answers|
    requires now.answers <= end.answers && now.log <= end.log
    ensures var a := end.answers[k];
            && (k < |now.answers| ==>
                  a == now.answers[k] && a.at <= |now.log| && (!a.outcome.Failed? ==> a.at < |now.log|))
            && (k >= |now.answers| ==> a.at >= |now.log|)
  {
    hide LockInv, ShardInv, LogInv, CountInv, CacheInv, ListingInv;
    if k < |now.answers| {
      assert AnswerRight(c, now.log, now.answers[k]);
    } else {
      assert end.answers[..k][..|now.answers|] == now.answers;
      AcceptedPrefix(end.answers[..k], |now.answers|);
    }
  }

  /** A reader that takes a shard lock finds there exactly what the log so far has stored. */
  lemma ReadsAreCurrent(c: Config, trace: seq<State>, steps: seq<Step>, id: string)
    requires c.n > 0 && IsRun(c, trace, steps)
    requires var s := trace[|steps|]; |s.locks| == c.n && s.locks[ShardOf(c.env, c.n, id)] == None
    ensures var s := trace[|steps|];
            && |s.shards| == c.n
            && Lookup(c.env, s.shards, id) == Lookup(c.env, Replay(c.env, c.n, s.log), id)
  {
    RunInv(c, trace, steps);
    ShardIsCurrent(c, trace[|steps|], ShardOf(c.env, c.n, id));
  }

  /** At every reachable state the counters, plus what the writers still owe them, are the number
      and the total size of the stored documents, modulo 2^64; every id is in its own shard. */
  lemma Conservation(c: Config, trace: seq<State>, steps: seq<Step>)
    requires c.n > 0 && IsRun(c, trace, steps)
    ensures var s := trace[|steps|];
            && Wrap64(s.docCount + OwedCount(c.env, s.threads)) == Wrap64(DocTotal(s.shards))
            && Wrap64(s.dataSize + OwedSize(c.env, s.threads)) == Wrap64(SizeTotal(c.env, s.shards))
            && WellPlaced(c.env, s.shards)
  {
    RunCounts(c, trace, steps);
    CountersRepaid(c, trace[|steps|]);
  }

  lemma RunCounts(c: Config, trace: seq<State>, steps: seq<Step>)
    requires c.n > 0 && IsRun(c, trace, steps)
    ensures CountInv(c, trace[|steps|]) && WellPlaced(c.env, trace[|steps|].shards)
  {
    RunInv(c, trace, steps);
  }

  lemma CountersRepaid(c: Config, s: State)
    requires CountInv(c, s)
    ensures Wrap64(s.docCount + OwedCount(c.env, s.threads)) == Wrap64(DocTotal(s.shards))
    ensures Wrap64(s.dataSize + OwedSize(c.env, s.threads)) == Wrap64(SizeTotal(c.env, s.shards))
  {
    Repaid(DocTotal(s.shards), OwedCount(c.env, s.threads));
    Repaid(SizeTotal(c.env, s.shards), OwedSize(c.env, s.threads));
  }

  lemma Repaid(total: int, owed: int)
    ensures Wrap64(Wrap64(total - owed) + owed) == Wrap64(total)
  {
  }

  lemma {:induction false} IdleOwesNothing(env: Env, threads: seq<Pc>)
    requires forall t | 0 <= t < |threads| :: threads[t].Idle?
    ensures OwedCount(env, threads) == 0 && OwedSize(env, threads) == 0
  {
    if threads != [] {
      IdleOwesNothing(env, threads[1..]);
    }
  }

  /** Once every thread is idle the store is the replayed log and the counters are exact. */
  lemma Quiescence(c: Config, trace: seq<State>, steps: seq<Step>)
    requires c.n > 0 && IsRun(c, trace, steps)
    requires forall t | 0 <= t < |trace[|steps|].threads| :: trace[|steps|].threads[t].Idle?
    ensures var s := trace[|steps|];
            && s.shards == Replay(c.env, c.n, s.log)
            && s.docCount == Wrap64(DocTotal(s.shards)) && s.dataSize == Wrap64(SizeTotal(c.env, s.shards))
            && s.updateSeq == Wrap64(|s.log|)
  {
    RunInv(c, trace, steps);
    QuietState(c, trace[|steps|]);
  }

  lemma QuietState(c: Config, s: State)
    requires c.n > 0 && Inv(c, s) && forall t | 0 <= t < |s.threads| :: s.threads[t].Idle?
    ensures s.shards == Replay(c.env, c.n, s.log) && s.updateSeq == Wrap64(|s.log|)
    ensures s.docCount == Wrap64(DocTotal(s.shards)) && s.dataSize == Wrap64(SizeTotal(c.env, s.shards))
  {
    hide LockInv, ShardInv, AnswerInv, CacheInv, ListingInv, Replay, DocTotal, SizeTotal, OwedCount, OwedSize;
    IdleOwesNothing(c.env, s.threads);
    IdleIsCurrent(c, s);
  }

  lemma IdleIsCurrent(c: Config, s: State)
    requires c.n > 0 && LockInv(c, s) && ShardInv(c, s)
    requires forall t | 0 <= t < |s.threads| :: s.threads[t].Idle?
    ensures s.shards == Replay(c.env, c.n, s.log)
  {
    forall i | 0 <= i < c.n ensures s.shards[i] == Replay(c.env, c.n, s.log)[i] {
      ShardIsCurrent(c, s, i);
    }
  }

  // ---- The all-documents cache ------------------------------------------------------------

  lemma CopiedPlaced(c: Config, log: seq<Op>, times: seq<nat>)
    requires c.n > 0 && |times| == c.n && forall i | 0 <= i < |times| :: times[i] <= |log|
    ensures Placed(c.env, c.n, Copied(c, log, times))
  {
    var parts := Copied(c, log, times);
    forall i | 0 <= i < c.n
      ensures StrictlySorted(parts[i]) && forall d: Doc | d in parts[i] :: ShardOf(c.env, c.n, d.id) == i
    {
      ReplayWellPlaced(c.env, c.n, log[..times[i]]);
      WellPlacedParts(c.env, Replay(c.env, c.n, log[..times[i]]));
    }
  }

  /** Whatever the interleaving, a listing is sorted and shows every id as of some point between
      the sequence number it reports and its return: no write up to that number is missing. */
  lemma ListingIsFresh(c: Config, trace: seq<State>, steps: seq<Step>, k: nat, id: string) returns (when: nat)
    requires c.n > 0 && IsRun(c, trace, steps)
    requires k < |trace[|steps|].listings|
    ensures var s := trace[|steps|];
            var l := s.listings[k];
            && l.reported == Wrap64(l.at)
            && l.at <= when <= l.end <= |s.log|
            && StrictlySorted(l.docs)
            && Find(l.docs, id) == DocAt(c.env, c.n, s.log, when, id)
  {
    RunInv(c, trace, steps);
    var s := trace[|steps|];
    var l := s.listings[k];
    assert ListingRight(c, s.log, l);
    var parts := Copied(c, s.log, l.times);
    CopiedPlaced(c, s.log, l.times);
    MergeAllListing(c.env, c.n, parts);
    FindInListing(c.env, parts, id);
    when := l.times[ShardOf(c.env, c.n, id)];
  }

  /** A hit is exact: the cached array is the sorted contents of the store after precisely the
      writes its sequence number counts (as long as the 64-bit sequence has not wrapped). */
  lemma HitIsExact(c: Config, trace: seq<State>, steps: seq<Step>, k: nat)
    requires c.n > 0 && IsRun(c, trace, steps)
    requires k < |trace[|steps|].listings|
    requires trace[|steps|].listings[k].hit && trace[|steps|].listings[k].end < TWO64
    ensures var s := trace[|steps|];
            var l := s.listings[k];
            && l.reported == l.end <= |s.log|
            && l.docs == MergeAll(DocLess, Replay(c.env, c.n, s.log[..l.reported]))
            && StrictlySorted(l.docs)
            && forall id :: Find(l.docs, id) == DocAt(c.env, c.n, s.log, l.reported, id)
  {
    RunInv(c, trace, steps);
    var s := trace[|steps|];
    var l := s.listings[k];
    assert ListingRight(c, s.log, l);
    HitTimes(c, s.log, l);
    ReplayWellPlaced(c.env, c.n, s.log[..l.end]);
    ListingOfStore(c.env, Replay(c.env, c.n, s.log[..l.end]));
  }

  /** A hit leaves no room between the sequence read and the return: all copies are of one moment. */
  lemma HitTimes(c: Config, log: seq<Op>, l: Listing)
    requires c.n > 0 && ListingRight(c, log, l) && l.hit && l.end < TWO64
    ensures l.at == l.end && l.reported == l.end
    ensures l.docs == MergeAll(DocLess, Replay(c.env, c.n, log[..l.end]))
  {
    assert l.at <= l.times[0] <= l.end;
    SameWrap(l.at, l.end);
    CopiesAt(c, log, l.times, l.end);
  }

  lemma SameWrap(x: nat, y: nat)
    requires x <= y < TWO64 && Wrap64(x) == Wrap64(y)
    ensures x == y == Wrap64(y)
  {
  }

  lemma CopiesAt(c: Config, log: seq<Op>, times: seq<nat>, k: nat)
    requires c.n > 0 && |times| == c.n && k <= |log| && forall i | 0 <= i < |times| :: times[i] == k
    ensures Copied(c, log, times) == Replay(c.env, c.n, log[..k])
  {
  }

  /** From one answer to just before another the document is only edited: neither deleted nor imported. */
  ghost predicate OnlyEditsAnswered(answers: seq<Answer>, id: string, j: nat, k: nat)
    requires j <= k < |answers|
  {
    forall i | j <= i < k && !answers[i].outcome.Failed? && answers[i].op.id == id :: Edit(answers[i].op)
  }

  /** Which answer an entry of the log is. */
  lemma {:induction false} AnswerOf(answers: seq<Answer>, p: nat) returns (i: nat)
    requires p < |AcceptedOps(answers)|
    ensures i < |answers| && !answers[i].outcome.Failed?
    ensures |AcceptedOps(answers[..i])| == p && AcceptedOps(answers)[p] == answers[i].op
    decreases |answers|
  {
    var n := |answers| - 1;
    var init := answers[..n];
    if p < |AcceptedOps(init)| {
      i := AnswerOf(init, p);
      assert init[..i] == answers[..i];
    } else {
      i := n;
    }
  }

  /** Later answers stand later in the log. */
  lemma AcceptedOrder(answers: seq<Answer>, j: nat, k: nat)
    requires j < k <= |answers|
    ensures |AcceptedOps(answers[..j])| <= |AcceptedOps(answers[..k])|
    ensures !answers[j].outcome.Failed? ==> |AcceptedOps(answers[..j])| < |AcceptedOps(answers[..k])|
  {
    assert answers[..k][..j + 1] == answers[..j + 1] && answers[..j + 1][..j] == answers[..j];
    AcceptedPrefix(answers[..k], j + 1);
  }

  lemma OnlyEditedLog(answers: seq<Answer>, id: string, j: nat, k: nat)
    requires j < k < |answers| && !answers[j].outcome.Failed? && !answers[k].outcome.Failed?
    requires OnlyEditsAnswered(answers, id, j, k)
    ensures var log, aj, ak := AcceptedOps(answers), |AcceptedOps(answers[..j])|, |AcceptedOps(answers[..k])|;
            && aj < ak < |log| && log[aj] == answers[j].op && log[ak] == answers[k].op
            && OnlyEdited(log, id, aj, ak)
  {
    var log := AcceptedOps(answers);
    var aj, ak := |AcceptedOps(answers[..j])|, |AcceptedOps(answers[..k])|;
    AcceptedOrder(answers, j, k);
    EntryIs(answers, j);
    EntryIs(answers, k);
    forall p | aj <= p < ak && log[p].id == id ensures Edit(log[p]) {
      var i := AnswerOf(answers, p);
      if i < j {
        AcceptedOrder(answers, i, j);
      } else if i > k {
        AcceptedOrder(answers, k, i);
      } else if i == k {
        assert false;
      }
    }
  }

  lemma EntryIs(answers: seq<Answer>, k: nat)
    requires k < |answers| && !answers[k].outcome.Failed?
    ensures |AcceptedOps(answers[..k])| < |AcceptedOps(answers)|
    ensures AcceptedOps(answers)[|AcceptedOps(answers[..k])|] == answers[k].op
  {
    AcceptedPrefix(answers, k + 1);
    assert answers[..k + 1][..k] == answers[..k];
  }

  /** No lost update, in every run: of the answered requests that quote one revision of a document, between
      two deletions or imports of it at most one was accepted, the deletion at the end included. */
  lemma RunsLoseNoUpdate(c: Config, trace: seq<State>, steps: seq<Step>, id: string, j: nat, k: nat)
    requires c.n > 0 && IsRun(c, trace, steps)
    requires var answers := trace[|steps|].answers;
             && j < k < |answers| && |answers| < TWO64
             && answers[j].op.id == id && answers[k].op.id == id
             && !answers[j].outcome.Failed? && Quoted(answers[j].op).Some?
             && OnlyEditsAnswered(answers, id, j, k) && (Edit(answers[k].op) || answers[k].op.Delete?)
             && Quoted(answers[k].op) == Quoted(answers[j].op)
    ensures trace[|steps|].answers[k].outcome.Failed?
  {
    RunInv(c, trace, steps);
    var s := trace[|steps|];
    hide IsRun, LockInv, ShardInv, CountInv, CacheInv, ListingInv, AnswerRight, AllAccepted, AcceptedOps, Edit;
    if !s.answers[k].outcome.Failed? {
      OnlyEditedLog(s.answers, id, j, k);
      NoLostUpdate(c.env, c.n, s.log, id, s.answers[j].at, s.answers[k].at);
    }
  }
}
