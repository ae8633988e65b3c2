/** A bulk write beside other writers: what it answers for the positions of one shard is decided by that shard
    as it was when its lock was taken. */
module BulkSections {
  import opened Base
  import opened Shards
  import opened Store
  import opened Rotation
  import opened BulkWrites
  import opened History
  import opened StoreMachine
  import opened StoreSafety
  import opened StoreTheorems

  /** From state j to state k of the run thread t has the lock of shard i, and at both it is between writes. */
  ghost predicate Section(c: Config, trace: seq<State>, t: nat, i: nat, j: nat, k: nat) {
    && j <= k < |trace| && i < c.n
    && (forall m | j <= m <= k :: |trace[m].locks| == c.n && trace[m].locks[i] == Some(t))
    && t < |trace[j].threads| && trace[j].threads[t] == Holding(i, true)
    && t < |trace[k].threads| && trace[k].threads[t] == Holding(i, true)
  }

  /** The answers to writes on shard i. */
  function OnShard(env: Env, n: nat, answers: seq<Answer>, i: nat): (own: seq<Answer>)
    requires n > 0
  {
    if answers == [] then []
    else
      var last := answers[|answers| - 1];
      OnShard(env, n, answers[..|answers| - 1], i) + if ShardOf(env, n, last.op.id) == i then [last] else []
  }

  /** What was answered on shard i between two states. */
  function Given(c: Config, s: State, s': State, i: nat): seq<Answer>
    requires c.n > 0
  {
    if |s.answers| <= |s'.answers| then OnShard(c.env, c.n, s'.answers[|s.answers|..], i) else []
  }

  // ---- Whose answers they are ---------------------------------------------------------------

  /** While a thread has the lock of a shard, only its own steps answer writes on it. */
  lemma OnlyOwner(c: Config, s: State, s': State, step: Step, t: nat, i: nat)
    requires c.n > 0 && Inv(c, s) && Next(c, s, s', step) && i < c.n && s.locks[i] == Some(t)
    requires |s'.answers| > |s.answers| && ShardOf(c.env, c.n, s'.answers[|s.answers|].op.id) == i
    ensures step.t == t
  {
    hide LogInv, AnswerInv, CountInv, CacheInv, ListingInv, Replay, Decide;
    var pc := s.threads[step.t];
    assert Held(pc).Some?;
    if step.BumpErased? {
      assert Owner(s, pc.shard) == pc;
      assert ShardAgrees(c.env, c.n, pc.shard, pc, s.shards[pc.shard], Replay(c.env, c.n, s.log)[pc.shard]);
    }
  }

  // ---- One shard's answers, one after the other ---------------------------------------------

  /** The k-th answer is the one of the rules after the accepted writes before it. */
  ghost predicate LinearAt(c: Config, answers: seq<Answer>, k: nat)
    requires c.n > 0 && k < |answers|
  {
    var before := Replay(c.env, c.n, AcceptedOps(answers[..k]));
    answers[k].outcome == Decide(c.env, Lookup(c.env, before, answers[k].op.id), answers[k].op)
  }

  ghost predicate Linear(c: Config, answers: seq<Answer>)
    requires c.n > 0
  {
    forall k | 0 <= k < |answers| :: LinearAt(c, answers, k)
  }

  /** A shard after the writes of the answers. */
  function After(env: Env, s: seq<Doc>, answers: seq<Answer>): seq<Doc> {
    if answers == [] then s
    else Applied(env, After(env, s, answers[..|answers| - 1]), answers[|answers| - 1].op)
  }

  ghost predicate ServedInOrder(env: Env, s: seq<Doc>, answers: seq<Answer>) {
    forall p | 0 <= p < |answers| :: answers[p].outcome == OutcomeOn(env, After(env, s, answers[..p]), answers[p].op)
  }

  lemma ServedMore(env: Env, s: seq<Doc>, answers: seq<Answer>, a: Answer)
    requires ServedInOrder(env, s, answers) && a.outcome == OutcomeOn(env, After(env, s, answers), a.op)
    ensures ServedInOrder(env, s, answers + [a])
    ensures After(env, s, answers + [a]) == Applied(env, After(env, s, answers), a.op)
  {
    hide After, OutcomeOn;
    var more := answers + [a];
    assert more[..|answers|] == answers;
    assert forall p | 0 <= p < |answers| :: more[..p] == answers[..p];
    assert After(env, s, more) == Applied(env, After(env, s, answers), a.op) by { LastApplied(env, s, answers, a); }
  }

  lemma LastApplied(env: Env, s: seq<Doc>, answers: seq<Answer>, a: Answer)
    ensures After(env, s, answers + [a]) == Applied(env, After(env, s, answers), a.op)
  {
    assert (answers + [a])[..|answers|] == answers;
  }

  lemma AppliedAt(env: Env, shards: seq<seq<Doc>>, op: Op, i: nat)
    requires i < |shards|
    ensures var s, here := shards[i], ShardOf(env, |shards|, op.id) == i;
            var o := Decide(env, Lookup(env, shards, op.id), op);
            && ApplyOp(env, shards, op)[i] == (if here then Applied(env, s, op) else s)
            && (here ==> o == OutcomeOn(env, s, op))
            && (here && o.Failed? ==> Applied(env, s, op) == s)
  {
    hide Find, Decide;
  }

  /** The replayed shard after one more answer. */
  lemma ReplayOnShard(c: Config, answers: seq<Answer>, i: nat)
    requires c.n > 0 && i < c.n && answers != [] && LinearAt(c, answers, |answers| - 1)
    ensures var m := |answers| - 1;
            var before := Replay(c.env, c.n, AcceptedOps(answers[..m]))[i];
            var here := ShardOf(c.env, c.n, answers[m].op.id) == i;
            && Replay(c.env, c.n, AcceptedOps(answers))[i]
               == (if here then Applied(c.env, before, answers[m].op) else before)
            && (here ==> answers[m].outcome == OutcomeOn(c.env, before, answers[m].op))
  {
    hide Replay, Decide, AcceptedOps, Lookup, Applied, OutcomeOn, ApplyOp;
    var m := |answers| - 1;
    var before := AcceptedOps(answers[..m]);
    AcceptedMore(answers);
    AppliedAt(c.env, Replay(c.env, c.n, before), answers[m].op, i);
    ReplayAppend(c.env, c.n, before, answers[m].op);
  }

  lemma LinearPrefix(c: Config, answers: seq<Answer>)
    requires c.n > 0 && answers != [] && Linear(c, answers)
    ensures Linear(c, answers[..|answers| - 1])
  {
    hide Replay, Decide, AcceptedOps, Lookup;
    var init := answers[..|answers| - 1];
    forall k | 0 <= k < |init| ensures LinearAt(c, init, k) {
      assert LinearAt(c, answers, k) && init[..k] == answers[..k];
    }
  }

  lemma OnShardMore(env: Env, n: nat, answers: seq<Answer>, i: nat, m: nat)
    requires n > 0 && m < |answers|
    ensures var k := |answers| - 1;
            OnShard(env, n, answers[m..], i) == OnShard(env, n, answers[..k][m..], i) +
            if ShardOf(env, n, answers[k].op.id) == i then [answers[k]] else []
  {
    var k := |answers| - 1;
    assert answers[m..][..k - m] == answers[..k][m..];
  }

  lemma NothingServed(env: Env, n: nat, s: seq<Doc>, i: nat)
    requires n > 0
    ensures ServedInOrder(env, s, OnShard(env, n, [], i)) && After(env, s, OnShard(env, n, [], i)) == s
  {
  }

  /** The answers on a shard, whatever others are given in between, are those of running its writes on it
      alone, and leave it as these do. */
  lemma {:induction false} ShardAlone(c: Config, answers: seq<Answer>, i: nat, m: nat)
    requires c.n > 0 && i < c.n && Linear(c, answers) && m <= |answers|
    ensures var first := Replay(c.env, c.n, AcceptedOps(answers[..m]))[i];
            var own := OnShard(c.env, c.n, answers[m..], i);
            && ServedInOrder(c.env, first, own)
            && After(c.env, first, own) == Replay(c.env, c.n, AcceptedOps(answers))[i]
    decreases |answers|
  {
    hide Replay, AcceptedOps, OutcomeOn, Applied, ServedInOrder, After, OnShard, LinearAt;
    if m == |answers| {
      assert answers[..m] == answers && answers[m..] == [];
      NothingServed(c.env, c.n, Replay(c.env, c.n, AcceptedOps(answers))[i], i);
    } else {
      var k := |answers| - 1;
      LinearPrefix(c, answers);
      ShardAlone(c, answers[..k], i, m);
      ReplayOnShard(c, answers, i);
      assert answers[..k][..m] == answers[..m];
      OnShardMore(c.env, c.n, answers, i, m);
      var own := OnShard(c.env, c.n, answers[..k][m..], i);
      assert LinearAt(c, answers, k);
      if ShardOf(c.env, c.n, answers[k].op.id) == i {
        ServedMore(c.env, Replay(c.env, c.n, AcceptedOps(answers[..m]))[i], own, answers[k]);
      } else {
        assert own + [] == own;
      }
    }
  }

  // ---- One shard of a request ---------------------------------------------------------------

  lemma LinearAnswers(c: Config, s: State)
    requires c.n > 0 && Inv(c, s)
    ensures Linear(c, s.answers) && s.log == AcceptedOps(s.answers)
  {
    hide LockInv, ShardInv, LogInv, CountInv, CacheInv, ListingInv, AnswerRight, Replay, Decide, AcceptedOps, Lookup;
    forall k | 0 <= k < |s.answers| ensures LinearAt(c, s.answers, k) {
      StateLinear(c, s, k);
    }
  }

  lemma HeldShard(c: Config, s: State, t: nat, i: nat)
    requires c.n > 0 && Inv(c, s) && i < c.n && s.locks[i] == Some(t) && s.threads[t] == Holding(i, true)
    ensures |s.shards| == c.n && s.shards[i] == Replay(c.env, c.n, s.log)[i]
  {
    hide LogInv, AnswerInv, CountInv, CacheInv, ListingInv, Replay;
    ShardIsCurrent(c, s, i);
  }

  /** From lock to unlock a shard sees the writes of one thread, each decided after those before it, and
      nothing else. */
  lemma SectionIsAlone(c: Config, trace: seq<State>, steps: seq<Step>, t: nat, i: nat, j: nat, k: nat)
    requires c.n > 0 && IsRun(c, trace, steps) && Section(c, trace, t, i, j, k)
    ensures |trace[j].shards| == c.n == |trace[k].shards|
    ensures var own := Given(c, trace[j], trace[k], i);
            && ServedInOrder(c.env, trace[j].shards[i], own)
            && After(c.env, trace[j].shards[i], own) == trace[k].shards[i]
  {
    hide Next, Init, Inv, Replay, ServedInOrder, After, OnShard, Linear, AcceptedOps;
    StateInv(c, trace, steps, j);
    StateInv(c, trace, steps, k);
    HeldShard(c, trace[j], t, i);
    HeldShard(c, trace[k], t, i);
    LinearAnswers(c, trace[j]);
    LinearAnswers(c, trace[k]);
    PrefixIsRun(c, trace, steps, k);
    RunGrows(c, trace[..k + 1], steps[..k], j);
    assert trace[k].answers[..|trace[j].answers|] == trace[j].answers;
    ShardAlone(c, trace[k].answers, i, |trace[j].answers|);
  }

  /** Whose writes they are: the answers on the shard come from the steps of the thread that has it. */
  lemma SectionIsOwn(c: Config, trace: seq<State>, steps: seq<Step>, t: nat, i: nat, j: nat, k: nat, m: nat)
    requires c.n > 0 && IsRun(c, trace, steps) && Section(c, trace, t, i, j, k) && j <= m < k
    requires |trace[m + 1].answers| > |trace[m].answers|
    requires ShardOf(c.env, c.n, trace[m + 1].answers[|trace[m].answers|].op.id) == i
    ensures steps[m].t == t
  {
    hide Init, Inv;
    StateInv(c, trace, steps, m);
    OnlyOwner(c, trace[m], trace[m + 1], steps[m], t, i);
  }

  /** The answers are to the group of the batch that goes to the shard, in its order. */
  ghost predicate AnswersGroup(batch: seq<Op>, group: seq<nat>, own: seq<Answer>) {
    && Below(group, |batch|) && |own| == |group|
    && forall p | 0 <= p < |group| :: own[p].op == batch[group[p]]
  }

  lemma {:induction false} AfterGroup(env: Env, s: seq<Doc>, batch: seq<Op>, group: seq<nat>, own: seq<Answer>)
    requires AnswersGroup(batch, group, own)
    ensures After(env, s, own) == RunGroup(env, s, batch, group)
    decreases |own|
  {
    hide Applied;
    if own != [] {
      AfterGroup(env, s, batch, group[..|group| - 1], own[..|own| - 1]);
    }
  }

  /** What a bulk request does in one shard, whatever other threads do: shard and results are those of its
      group alone, on the shard as it was when the lock was taken. */
  lemma GroupIsAtomic(c: Config, trace: seq<State>, steps: seq<Step>, t: nat, i: nat, j: nat, k: nat,
                      batch: seq<Op>, results: Results)
    requires c.n > 0 && IsRun(c, trace, steps) && Section(c, trace, t, i, j, k) && |results| == |batch|
    requires AnswersGroup(batch, Group(c.env, c.n, batch, i, |batch|), Given(c, trace[j], trace[k], i))
    ensures |trace[j].shards| == c.n == |trace[k].shards|
    ensures var group, own := Group(c.env, c.n, batch, i, |batch|), Given(c, trace[j], trace[k], i);
            var s := trace[j].shards[i];
            && trace[k].shards[i] == RunGroup(c.env, s, batch, group)
            && forall p | 0 <= p < |group| ::
                 GroupResults(c.env, s, batch, group, results)[group[p]] == Some(own[p].outcome)
  {
    hide Next, Init, Given, OutcomeOn, Group, RunGroup, After, GroupResults;
    var group, own := Group(c.env, c.n, batch, i, |batch|), Given(c, trace[j], trace[k], i);
    SectionIsAlone(c, trace, steps, t, i, j, k);
    var s := trace[j].shards[i];
    AfterGroup(c.env, s, batch, group, own);
    GroupIncreasing(c.env, c.n, batch, i, |batch|);
    forall p | 0 <= p < |group|
      ensures GroupResults(c.env, s, batch, group, results)[group[p]] == Some(own[p].outcome)
    {
      ResultInGroup(c.env, s, batch, group, results, p);
      AfterGroup(c.env, s, batch, group[..p], own[..p]);
    }
  }

  // ---- A whole request ----------------------------------------------------------------------

  /** A bulk request in a run: one shard after the other, in the order of the visits, each from state
      `sections[v].0`, its lock taken, to `sections[v].1`, its group answered. */
  ghost predicate Request(c: Config, trace: seq<State>, t: nat, batch: seq<Op>, visits: seq<nat>,
                          sections: seq<(nat, nat)>)
    requires c.n > 0
  {
    && Below(visits, c.n) && |sections| == |visits|
    && (forall v | 0 < v < |visits| :: sections[v - 1].1 < sections[v].0)
    && (forall v | 0 <= v < |visits| ::
         && Section(c, trace, t, visits[v], sections[v].0, sections[v].1)
         && AnswersGroup(batch, Group(c.env, c.n, batch, visits[v], |batch|),
                         Given(c, trace[sections[v].0], trace[sections[v].1], visits[v])))
  }

  /** Each position of the batch is answered in the one visit of its shard, by the rules, on that shard as it
      was when its lock was taken and after the positions before it that go there too. */
  lemma RequestAnswers(c: Config, trace: seq<State>, steps: seq<Step>, t: nat, batch: seq<Op>, visits: seq<nat>,
                       sections: seq<(nat, nat)>, x: nat) returns (v: nat, p: nat)
    requires c.n > 0 && IsRun(c, trace, steps) && Request(c, trace, t, batch, visits, sections)
    requires EachOnce(visits, c.n) && x < |batch|
    ensures v < |visits| && visits[v] == ShardOf(c.env, c.n, batch[x].id)
    ensures forall w | 0 <= w < |visits| && visits[w] == visits[v] :: w == v
    ensures var i, s, s' := visits[v], trace[sections[v].0], trace[sections[v].1];
            var own := Given(c, s, s', i);
            && p < |own| && own[p].op == batch[x] && i < |s.shards|
            && own[p].outcome
               == OutcomeOn(c.env, RunGroup(c.env, s.shards[i], batch, Group(c.env, c.n, batch, i, x)), batch[x])
  {
    hide Next, Init, Given, OutcomeOn, Group, RunGroup, GroupResults;
    NoneMissed(visits, c.n);
    var i := ShardOf(c.env, c.n, batch[x].id);
    assert 0 <= i < c.n && i in visits;
    v :| 0 <= v < |visits| && visits[v] == i;
    var j, k := sections[v].0, sections[v].1;
    var group := Group(c.env, c.n, batch, i, |batch|);
    var results := seq(|batch|, _ => None);
    p := GroupPrefix(c.env, c.n, batch, i, x, |batch|);
    GroupIsAtomic(c, trace, steps, t, i, j, k, batch, results);
    GroupIncreasing(c.env, c.n, batch, i, |batch|);
    ResultInGroup(c.env, trace[j].shards[i], batch, group, results, p);
  }
}
