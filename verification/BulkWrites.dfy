/** Bulk writes: grouped by shard and visited in rotated order, against one by one in input order. */
module BulkWrites {
  import opened Base
  import opened Shards
  import opened Store
  import opened Rotation

  // ---- The reference: one by one ------------------------------------------------------------

  function OneByOne(env: Env, shards: seq<seq<Doc>>, ops: seq<Op>): (r: seq<seq<Doc>>)
    requires |shards| > 0
    ensures |r| == |shards|
  {
    if ops == [] then shards else ApplyOp(env, OneByOne(env, shards, ops[..|ops| - 1]), ops[|ops| - 1])
  }

  function OutcomeAt(env: Env, shards: seq<seq<Doc>>, ops: seq<Op>, k: nat): Outcome
    requires |shards| > 0 && k < |ops|
  {
    Decide(env, Lookup(env, OneByOne(env, shards, ops[..k]), ops[k].id), ops[k])
  }

  // ---- The code: shard by shard -------------------------------------------------------------

  /** The positions of the batch that go to shard i, among the first k, in input order. */
  function Group(env: Env, n: nat, ops: seq<Op>, i: nat, k: nat): (g: seq<nat>)
    requires n > 0 && k <= |ops|
    ensures forall j | 0 <= j < |g| :: g[j] < k && ShardOf(env, n, ops[g[j]].id) == i
    decreases k
  {
    if k == 0 then []
    else
      var g := Group(env, n, ops, i, k - 1);
      if ShardOf(env, n, ops[k - 1].id) == i then g + [k - 1] else g
  }

  predicate Below(positions: seq<nat>, n: nat) {
    forall j | 0 <= j < |positions| :: positions[j] < n
  }

  /** A shard after the writes at the given positions. */
  function RunGroup(env: Env, s: seq<Doc>, ops: seq<Op>, group: seq<nat>): seq<Doc>
    requires Below(group, |ops|)
  {
    if group == [] then s
    else Applied(env, RunGroup(env, s, ops, group[..|group| - 1]), ops[group[|group| - 1]])
  }

  /** Per position: nothing yet, or the outcome of its write. */
  type Results = seq<Option<Outcome>>

  function GroupResults(env: Env, s: seq<Doc>, ops: seq<Op>, group: seq<nat>, results: Results): (r: Results)
    requires |results| == |ops| && Below(group, |ops|)
    ensures |r| == |results|
  {
    if group == [] then results
    else
      var last := group[|group| - 1];
      var before := group[..|group| - 1];
      GroupResults(env, s, ops, before, results)[last := Some(OutcomeOn(env, RunGroup(env, s, ops, before), ops[last]))]
  }

  datatype Bulk = Bulk(shards: seq<seq<Doc>>, results: Results)

  function VisitShard(env: Env, ops: seq<Op>, b: Bulk, i: nat): (r: Bulk)
    requires |b.results| == |ops| && i < |b.shards|
    ensures |r.shards| == |b.shards| && |r.results| == |ops|
  {
    var group := Group(env, |b.shards|, ops, i, |ops|);
    Bulk(b.shards[i := RunGroup(env, b.shards[i], ops, group)],
         GroupResults(env, b.shards[i], ops, group, b.results))
  }

  function RunVisits(env: Env, ops: seq<Op>, b: Bulk, visits: seq<nat>): (r: Bulk)
    requires |b.results| == |ops| && Below(visits, |b.shards|)
    ensures |r.shards| == |b.shards| && |r.results| == |ops|
  {
    if visits == [] then b
    else VisitShard(env, ops, RunVisits(env, ops, b, visits[..|visits| - 1]), visits[|visits| - 1])
  }

  /** How many writes at the given positions are accepted: the sequence numbers they take. */
  function GroupBumps(env: Env, s: seq<Doc>, ops: seq<Op>, group: seq<nat>): nat
    requires Below(group, |ops|)
  {
    if group == [] then 0
    else
      var last := group[|group| - 1];
      var before := group[..|group| - 1];
      GroupBumps(env, s, ops, before) +
      (if OutcomeOn(env, RunGroup(env, s, ops, before), ops[last]).Stored? then 1 else 0)
  }

  function RunBumps(env: Env, ops: seq<Op>, b: Bulk, visits: seq<nat>): nat
    requires |b.results| == |ops| && Below(visits, |b.shards|)
  {
    if visits == [] then 0
    else
      var i := visits[|visits| - 1];
      var before := visits[..|visits| - 1];
      RunBumps(env, ops, b, before) +
      GroupBumps(env, RunVisits(env, ops, b, before).shards[i], ops, Group(env, |b.shards|, ops, i, |ops|))
  }

  function Fresh(shards: seq<seq<Doc>>, ops: seq<Op>): Bulk {
    Bulk(shards, seq(|ops|, _ => None))
  }

  // ---- Each shard sees its own writes only --------------------------------------------------

  lemma {:induction false} OneMoreOp(env: Env, shards: seq<seq<Doc>>, ops: seq<Op>, k: nat)
    requires |shards| > 0 && k < |ops|
    ensures OneByOne(env, shards, ops[..k + 1]) == ApplyOp(env, OneByOne(env, shards, ops[..k]), ops[k])
  {
    assert ops[..k + 1][..k] == ops[..k];
  }

  lemma OneMoreMember(env: Env, s: seq<Doc>, ops: seq<Op>, group: seq<nat>, k: nat)
    requires Below(group, |ops|) && k < |ops|
    ensures Below(group + [k], |ops|)
    ensures RunGroup(env, s, ops, group + [k]) == Applied(env, RunGroup(env, s, ops, group), ops[k])
  {
    assert (group + [k])[..|group|] == group;
  }

  /** The first k writes, as shard i sees them. */
  lemma {:induction false} ShardView(env: Env, shards: seq<seq<Doc>>, ops: seq<Op>, i: nat, k: nat)
    requires i < |shards| && k <= |ops|
    ensures OneByOne(env, shards, ops[..k])[i] == RunGroup(env, shards[i], ops, Group(env, |shards|, ops, i, k))
    decreases k
  {
    if k > 0 {
      ShardView(env, shards, ops, i, k - 1);
      OneMoreOp(env, shards, ops, k - 1);
      OneMoreMember(env, shards[i], ops, Group(env, |shards|, ops, i, k - 1), k - 1);
    }
  }

  /** The group of shard i up to its member x is a prefix of the whole group. */
  lemma {:induction false} GroupPrefix(env: Env, n: nat, ops: seq<Op>, i: nat, x: nat, k: nat) returns (p: nat)
    requires n > 0 && x < k <= |ops| && ShardOf(env, n, ops[x].id) == i
    ensures p < |Group(env, n, ops, i, k)| && Group(env, n, ops, i, k)[p] == x
    ensures Group(env, n, ops, i, k)[..p] == Group(env, n, ops, i, x)
    decreases k
  {
    if x == k - 1 {
      p := |Group(env, n, ops, i, k - 1)|;
    } else {
      p := GroupPrefix(env, n, ops, i, x, k - 1);
    }
  }

  lemma {:induction false} GroupIncreasing(env: Env, n: nat, ops: seq<Op>, i: nat, k: nat)
    requires n > 0 && k <= |ops|
    ensures Distinct(Group(env, n, ops, i, k))
    decreases k
  {
    if k > 0 {
      GroupIncreasing(env, n, ops, i, k - 1);
    }
  }

  /** The result at a position of the group, given the ones before it in the group. */
  lemma {:induction false} ResultInGroup(env: Env, s: seq<Doc>, ops: seq<Op>, group: seq<nat>, results: Results, p: nat)
    requires |results| == |ops| && Below(group, |ops|) && Distinct(group) && p < |group|
    ensures GroupResults(env, s, ops, group, results)[group[p]]
            == Some(OutcomeOn(env, RunGroup(env, s, ops, group[..p]), ops[group[p]]))
    decreases |group|
  {
    hide OutcomeOn, RunGroup;
    var m := |group| - 1;
    if p < m {
      assert group[..m][..p] == group[..p] && group[..m][p] == group[p];
      ResultInGroup(env, s, ops, group[..m], results, p);
    }
  }

  lemma {:induction false} ResultOutside(env: Env, s: seq<Doc>, ops: seq<Op>, group: seq<nat>, results: Results, x: nat)
    requires |results| == |ops| && Below(group, |ops|) && x < |ops| && x !in group
    ensures GroupResults(env, s, ops, group, results)[x] == results[x]
    decreases |group|
  {
    if group != [] {
      ResultOutside(env, s, ops, group[..|group| - 1], results, x);
    }
  }

  /** What one visit does: its shard is brought to its final state and its positions are answered
      as the one-by-one run answers them; nothing else changes. */
  lemma VisitEffect(env: Env, shards: seq<seq<Doc>>, ops: seq<Op>, b: Bulk, i: nat)
    requires |b.results| == |ops| && i < |shards| == |b.shards| && b.shards[i] == shards[i]
    ensures var r := VisitShard(env, ops, b, i);
            && r.shards == b.shards[i := OneByOne(env, shards, ops)[i]]
            && forall x | 0 <= x < |ops| ::
                 r.results[x] == if ShardOf(env, |shards|, ops[x].id) == i then Some(OutcomeAt(env, shards, ops, x))
                                 else b.results[x]
  {
    var n := |shards|;
    var group := Group(env, n, ops, i, |ops|);
    var r := VisitShard(env, ops, b, i);
    ShardView(env, shards, ops, i, |ops|);
    assert ops[..|ops|] == ops;
    GroupIncreasing(env, n, ops, i, |ops|);
    forall x | 0 <= x < |ops|
      ensures r.results[x] ==
              if ShardOf(env, n, ops[x].id) == i then Some(OutcomeAt(env, shards, ops, x)) else b.results[x]
    {
      if ShardOf(env, n, ops[x].id) == i {
        var p := GroupPrefix(env, n, ops, i, x, |ops|);
        ResultInGroup(env, shards[i], ops, group, b.results, p);
        ShardView(env, shards, ops, i, x);
      } else {
        ResultOutside(env, shards[i], ops, group, b.results, x);
      }
    }
  }

  /** Exactly the visited shards are done, and exactly their positions answered. */
  ghost predicate Visited(env: Env, shards: seq<seq<Doc>>, ops: seq<Op>, visits: seq<nat>, b: Bulk)
    requires |shards| > 0
  {
    && |b.shards| == |shards| && |b.results| == |ops|
    && (forall i | 0 <= i < |shards| ::
         b.shards[i] == if i in visits then OneByOne(env, shards, ops)[i] else shards[i])
    && (forall x | 0 <= x < |ops| ::
         b.results[x] == if ShardOf(env, |shards|, ops[x].id) in visits
                         then Some(OutcomeAt(env, shards, ops, x)) else None)
  }

  lemma VisitedMore(env: Env, shards: seq<seq<Doc>>, ops: seq<Op>, visits: seq<nat>, b: Bulk, i: nat)
    requires |shards| > 0 && Visited(env, shards, ops, visits, b) && i < |shards| && i !in visits
    ensures Visited(env, shards, ops, visits + [i], VisitShard(env, ops, b, i))
  {
    VisitEffect(env, shards, ops, b, i);
  }

  lemma {:induction false} VisitsEffect(env: Env, shards: seq<seq<Doc>>, ops: seq<Op>, visits: seq<nat>)
    requires |shards| > 0 && Below(visits, |shards|) && Distinct(visits)
    ensures Visited(env, shards, ops, visits, RunVisits(env, ops, Fresh(shards, ops), visits))
    decreases |visits|
  {
    hide Group, RunGroup, GroupResults, OneByOne, OutcomeAt;
    if visits != [] {
      var m := |visits| - 1;
      VisitsEffect(env, shards, ops, visits[..m]);
      assert visits == visits[..m] + [visits[m]];
      assert visits[m] !in visits[..m];
      VisitedMore(env, shards, ops, visits[..m], RunVisits(env, ops, Fresh(shards, ops), visits[..m]), visits[m]);
    }
  }

  /** With every shard visited once, the grouped, rotated bulk write gives the stored documents and
      the per-position outcomes of the one-by-one run. */
  lemma {:induction false} BulkIsSequential(env: Env, shards: seq<seq<Doc>>, ops: seq<Op>, visits: seq<nat>)
    requires |shards| > 0 && EachOnce(visits, |shards|)
    ensures var r := RunVisits(env, ops, Fresh(shards, ops), visits);
            && r.shards == OneByOne(env, shards, ops)
            && forall x | 0 <= x < |ops| :: r.results[x] == Some(OutcomeAt(env, shards, ops, x))
  {
    NoneMissed(visits, |shards|);
    VisitsEffect(env, shards, ops, visits);
  }

  function CountStored(results: Results): nat {
    if results == [] then 0
    else CountStored(results[1..]) + (if results[0].Some? && results[0].value.Stored? then 1 else 0)
  }

  /** The positions of the stored results. */
  ghost function StoredAt(results: Results): set<nat> {
    set k: nat | k < |results| && results[k].Some? && results[k].value.Stored?
  }

  lemma CountSnoc(results: Results, o: Option<Outcome>)
    ensures CountStored(results + [o]) == CountStored(results) + (if o.Some? && o.value.Stored? then 1 else 0)
    decreases |results|
  {
    if results != [] {
      CountSnoc(results[1..], o);
      assert (results + [o])[1..] == results[1..] + [o];
    }
  }

  lemma {:induction false} CountIsNumber(results: Results)
    ensures CountStored(results) == |StoredAt(results)|
    decreases |results|
  {
    if results != [] {
      var n := |results| - 1;
      CountIsNumber(results[..n]);
      CountSnoc(results[..n], results[n]);
      assert results == results[..n] + [results[n]];
      var last := results[n].Some? && results[n].value.Stored?;
      assert StoredAt(results) == if last then StoredAt(results[..n]) + {n} else StoredAt(results[..n]);
    }
  }

  lemma {:induction false} CountUpdate(results: Results, x: nat, o: Outcome)
    requires x < |results| && results[x].None?
    ensures CountStored(results[x := Some(o)]) == CountStored(results) + (if o.Stored? then 1 else 0)
  {
    if x == 0 {
      assert results[0 := Some(o)][1..] == results[1..];
    } else {
      assert results[x := Some(o)][1..] == results[1..][x - 1 := Some(o)];
      CountUpdate(results[1..], x - 1, o);
    }
  }

  lemma {:induction false} CountNone(n: nat)
    ensures CountStored(seq(n, _ => None)) == 0
    decreases n
  {
    if n > 0 {
      CountNone(n - 1);
      var none: Results := seq(n, _ => None);
      assert none[1..] == seq(n - 1, _ => None);
    }
  }

  lemma {:induction false} BumpsInGroup(env: Env, s: seq<Doc>, ops: seq<Op>, group: seq<nat>, results: Results)
    requires |results| == |ops| && Below(group, |ops|) && Distinct(group)
    requires forall p | 0 <= p < |group| :: results[group[p]].None?
    ensures CountStored(GroupResults(env, s, ops, group, results))
            == CountStored(results) + GroupBumps(env, s, ops, group)
    decreases |group|
  {
    if group != [] {
      var m := |group| - 1;
      var before := group[..m];
      BumpsInGroup(env, s, ops, before, results);
      assert group[m] !in before;
      ResultOutside(env, s, ops, before, results, group[m]);
      CountUpdate(GroupResults(env, s, ops, before, results), group[m],
                  OutcomeOn(env, RunGroup(env, s, ops, before), ops[group[m]]));
    }
  }

  /** With every shard visited once, the sequence numbers taken are the writes accepted. */
  lemma {:induction false} BumpsAreAccepted(env: Env, shards: seq<seq<Doc>>, ops: seq<Op>, visits: seq<nat>)
    requires |shards| > 0 && Below(visits, |shards|) && Distinct(visits)
    ensures RunBumps(env, ops, Fresh(shards, ops), visits)
            == CountStored(RunVisits(env, ops, Fresh(shards, ops), visits).results)
    decreases |visits|
  {
    if visits == [] {
      CountNone(|ops|);
    } else {
      var m := |visits| - 1;
      var before := visits[..m];
      BumpsAreAccepted(env, shards, ops, before);
      VisitsEffect(env, shards, ops, before);
      var b := RunVisits(env, ops, Fresh(shards, ops), before);
      var group := Group(env, |shards|, ops, visits[m], |ops|);
      GroupIncreasing(env, |shards|, ops, visits[m], |ops|);
      assert visits[m] !in before;
      BumpsInGroup(env, b.shards[visits[m]], ops, group, b.results);
    }
  }

  /** A write to a shard the rotation misses is neither made nor answered. */
  lemma {:induction false} MissedWrite(env: Env, shards: seq<seq<Doc>>, op: Op, visits: seq<nat>)
    requires |shards| > 0 && Below(visits, |shards|)
    requires ShardOf(env, |shards|, op.id) !in visits
    ensures RunVisits(env, [op], Fresh(shards, [op]), visits).results == [None]
    decreases |visits|
  {
    if visits != [] {
      var m := |visits| - 1;
      assert visits == visits[..m] + [visits[m]];
      MissedWrite(env, shards, op, visits[..m]);
      assert Group(env, |shards|, [op], visits[m], 1) == [] by {
        assert Group(env, |shards|, [op], visits[m], 0) == [];
      }
    }
  }

  /** The bulk write agrees with the one-by-one run on every store and batch. */
  ghost predicate AlwaysSequential(env: Env, n: nat, visits: seq<nat>)
    requires n > 0 && Below(visits, n)
  {
    forall shards: seq<seq<Doc>>, ops: seq<Op> | |shards| == n ::
      var r := RunVisits(env, ops, Fresh(shards, ops), visits);
      && r.shards == OneByOne(env, shards, ops)
      && forall x | 0 <= x < |ops| :: r.results[x] == Some(OutcomeAt(env, shards, ops, x))
  }

  /** Some id hashes to shard i. */
  ghost predicate Reaches(env: Env, n: nat, i: nat)
    requires n > 0
  {
    exists id :: ShardOf(env, n, id) == i
  }

  /** Exactly when: the start index does not wrap during the visit, or the shard count divides 2^32
      (given that the id hash can reach every shard). */
  lemma BulkExactly(env: Env, n: nat, start: nat)
    requires 0 < n < TWO32 && start < TWO32
    requires forall i | 0 <= i < n :: Reaches(env, n, i)
    ensures Below(Visits(start, n), n)
    ensures AlwaysSequential(env, n, Visits(start, n)) <==> start + n <= TWO32 || TWO32 % n == 0
  {
    var visits := Visits(start, n);
    RotationExactly(start, n);
    if start + n <= TWO32 || TWO32 % n == 0 {
      forall shards: seq<seq<Doc>>, ops: seq<Op> | |shards| == n
        ensures var r := RunVisits(env, ops, Fresh(shards, ops), visits);
                && r.shards == OneByOne(env, shards, ops)
                && forall x | 0 <= x < |ops| :: r.results[x] == Some(OutcomeAt(env, shards, ops, x))
      {
        BulkIsSequential(env, shards, ops, visits);
      }
    } else {
      NoneMissed(visits, n);
      var i :| 0 <= i < n && i !in visits;
      assert Reaches(env, n, i);
      var id :| ShardOf(env, n, id) == i;
      var shards := seq(n, _ => []);
      var op := BulkSet(id, None, Body("", None), true);
      MissedWrite(env, shards, op, visits);
      assert RunVisits(env, [op], Fresh(shards, [op]), visits).results[0] == None;
    }
  }

  /** Which bulk requests that is, counted from the first: all but the n - 1 behind the n-th, and those a
      multiple of 2^32 later. */
  lemma RequestExactly(env: Env, n: nat, m: nat)
    requires 0 < n < TWO32
    requires forall i | 0 <= i < n :: Reaches(env, n, i)
    ensures var visits := Visits(StartOfRequest(n, m), n);
            && Below(visits, n)
            && (AlwaysSequential(env, n, visits) <==> TWO32 % n == 0 || !(1 <= (m - n) % TWO32 < n))
  {
    hide AlwaysSequential, Visits, StartOfRequest;
    var start := StartOfRequest(n, m);
    BulkExactly(env, n, start);
    RotationExactly(start, n);
    RequestsExactly(n, m);
  }
}
