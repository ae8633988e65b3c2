/** Logs of successful writes: replaying them, and what MVCC promises about the writes to one id. */
module History {
  import opened Base
  import opened Revisions
  import opened Shards
  import opened Store

  function EmptyStore(n: nat): seq<seq<Doc>> {
    seq(n, _ => [])
  }

  /** The store of n shards after a log of writes, oldest first. */
  function Replay(env: Env, n: nat, log: seq<Op>): (shards: seq<seq<Doc>>)
    requires n > 0
    ensures |shards| == n
  {
    if log == [] then EmptyStore(n) else ApplyOp(env, Replay(env, n, log[..|log| - 1]), log[|log| - 1])
  }

  function DocAt(env: Env, n: nat, log: seq<Op>, k: nat, id: string): Option<Doc>
    requires n > 0 && k <= |log|
  {
    Lookup(env, Replay(env, n, log[..k]), id)
  }

  /** The k-th write was accepted by the store it met. */
  ghost predicate Accepted(env: Env, n: nat, log: seq<Op>, k: nat)
    requires n > 0 && k < |log|
  {
    !Decide(env, DocAt(env, n, log, k, log[k].id), log[k]).Failed?
  }

  ghost predicate AllAccepted(env: Env, n: nat, log: seq<Op>)
    requires n > 0
  {
    forall k {:trigger Accepted(env, n, log, k)} | 0 <= k < |log| :: Accepted(env, n, log, k)
  }

  lemma {:induction false} ReplayWellPlaced(env: Env, n: nat, log: seq<Op>)
    requires n > 0
    ensures WellPlaced(env, Replay(env, n, log))
    decreases |log|
  {
    if log != [] {
      ReplayWellPlaced(env, n, log[..|log| - 1]);
      ApplyOpWellPlaced(env, Replay(env, n, log[..|log| - 1]), log[|log| - 1]);
    }
  }

  /** Appending to a log does not change its prefixes. */
  lemma PrefixKept(log: seq<Op>, op: Op, k: nat)
    requires k <= |log|
    ensures (log + [op])[..k] == log[..k]
  {
  }

  lemma ReplayAppend(env: Env, n: nat, log: seq<Op>, op: Op)
    requires n > 0
    ensures Replay(env, n, log + [op]) == ApplyOp(env, Replay(env, n, log), op)
  {
    PrefixKept(log, op, |log|);
    assert (log + [op])[..|log + [op]| - 1] == log;
  }

  lemma AcceptedAppend(env: Env, n: nat, log: seq<Op>, op: Op)
    requires n > 0 && AllAccepted(env, n, log)
    requires !Decide(env, Lookup(env, Replay(env, n, log), op.id), op).Failed?
    ensures AllAccepted(env, n, log + [op])
  {
    forall k | 0 <= k < |log + [op]| ensures Accepted(env, n, log + [op], k) {
      PrefixKept(log, op, k);
      if k == |log| {
        assert log[..k] == log;
      } else {
        assert Accepted(env, n, log, k);
      }
    }
  }

  // ---- Revisions of one document ----------------------------------------------------------

  /** The revision a write quotes, if it quotes one. */
  function Quoted(op: Op): Option<string> {
    match op
    case Set(_, rev, _) => rev
    case Delete(_, quoted) => Some(quoted)
    case SetAttachment(_, quoted, _, _, _) => Some(quoted)
    case DeleteAttachment(_, quoted, _) => Some(quoted)
    case BulkSet(_, rev, _, _) => rev
  }

  /** A write that stores a new version of the document under the MVCC rule. */
  predicate Edit(op: Op) {
    !op.Delete? && !(op.BulkSet? && !op.newEdits)
  }

  /** Between positions j and k the document is only edited: neither deleted nor imported. */
  ghost predicate OnlyEdited(log: seq<Op>, id: string, j: nat, k: nat)
    requires j <= k <= |log|
  {
    forall i | j <= i < k && log[i].id == id :: Edit(log[i])
  }

  /** How many of the writes j..k are to the document. */
  function EditsOf(log: seq<Op>, id: string, j: nat, k: nat): (c: nat)
    requires j <= k <= |log|
    ensures c <= k - j
    decreases k
  {
    if j == k then 0 else EditsOf(log, id, j, k - 1) + (if log[k - 1].id == id then 1 else 0)
  }

  /** An accepted edit stores the next version of whatever revision it quoted, with the digest of the
      body it stores. */
  lemma EditBumps(env: Env, prev: Option<Doc>, op: Op)
    requires Edit(op) && !Decide(env, prev, op).Failed?
    ensures Decide(env, prev, op).Stored? && Decide(env, prev, op).doc.id == op.id
    ensures Strtoul(Decide(env, prev, op).doc.rev) == NextVersion(Quoted(op))
    ensures var d := Decide(env, prev, op).doc;
            ValidRev(d.rev) && RevisionOf(d.rev) == Revision(NextVersion(Quoted(op)), env.hash(d.body))
    ensures prev.Some? ==> Quoted(op) == Some(prev.value.rev)
  {
    hide Strtoul, WellFormed, RevisionOf, FormatRevision, NextVersion;
    var d := Decide(env, prev, op).doc;
    RoundTrip(Revision(NextVersion(Quoted(op)), env.hash(d.body)));
  }

  lemma StepAt(env: Env, n: nat, log: seq<Op>, k: nat, id: string)
    requires n > 0 && k < |log|
    ensures var prev := DocAt(env, n, log, k, log[k].id);
            DocAt(env, n, log, k + 1, id) ==
            if id != log[k].id then DocAt(env, n, log, k, id)
            else match Decide(env, prev, log[k])
                 case Failed(_) => prev
                 case Stored(d) => Some(d)
                 case Removed(_) => None
  {
    hide Replay, Lookup, Decide, ApplyOp, WellPlaced;
    ReplayWellPlaced(env, n, log[..k]);
    ApplyOpEffect(env, Replay(env, n, log[..k]), log[k], id);
    assert log[..k + 1] == log[..k] + [log[k]];
    ReplayAppend(env, n, log[..k], log[k]);
  }

  /** Nobody writes to the document, so it stays. */
  lemma {:induction false} UntouchedLookup(env: Env, n: nat, log: seq<Op>, id: string, j: nat, k: nat)
    requires n > 0 && j <= k <= |log| && forall p | j <= p < k :: log[p].id != id
    ensures DocAt(env, n, log, k, id) == DocAt(env, n, log, j, id)
    decreases k
  {
    hide DocAt, Decide;
    if j < k {
      UntouchedLookup(env, n, log, id, j, k - 1);
      StepAt(env, n, log, k - 1, id);
    }
  }

  /** The version number in a stored revision. */
  function Version(rev: Option<string>): Option<nat> {
    if rev.Some? then Some(Strtoul(rev.value)) else None
  }

  function VersionAt(env: Env, n: nat, log: seq<Op>, k: nat, id: string): Option<nat>
    requires n > 0 && k <= |log|
  {
    var d := DocAt(env, n, log, k, id);
    if d.Some? then Some(Strtoul(d.value.rev)) else None
  }

  lemma EditStep(env: Env, n: nat, log: seq<Op>, k: nat)
    requires n > 0 && AllAccepted(env, n, log) && k < |log| && Edit(log[k])
    ensures VersionAt(env, n, log, k + 1, log[k].id) == Some(NextVersion(Quoted(log[k])))
    ensures VersionAt(env, n, log, k, log[k].id).Some? ==>
              VersionAt(env, n, log, k, log[k].id) == Version(Quoted(log[k]))
  {
    assert Accepted(env, n, log, k);
    EditBumps(env, DocAt(env, n, log, k, log[k].id), log[k]);
    StepAt(env, n, log, k, log[k].id);
  }

  lemma OtherStep(env: Env, n: nat, log: seq<Op>, k: nat, id: string)
    requires n > 0 && k < |log| && log[k].id != id
    ensures VersionAt(env, n, log, k + 1, id) == VersionAt(env, n, log, k, id)
  {
    StepAt(env, n, log, k, id);
  }

  lemma NextOf(rev: Option<string>)
    requires rev.Some?
    ensures NextVersion(rev) == Wrap64(Version(rev).value + 1)
  {
  }

  /** One write, seen as a step of the document's version. */
  ghost predicate CountStep(versions: seq<Option<nat>>, log: seq<Op>, id: string, i: nat)
    requires |versions| == |log| + 1 && i < |log|
  {
    if log[i].id == id then versions[i].Some? ==> versions[i + 1] == Some(Wrap64(versions[i].value + 1))
    else versions[i + 1] == versions[i]
  }

  /** The arithmetic of the count: versions step by one, modulo 2^64, at each edit. */
  lemma {:induction false} CountVersions(versions: seq<Option<nat>>, log: seq<Op>, id: string, first: nat,
                                         j: nat, k: nat)
    requires |versions| == |log| + 1 && j < k <= |log| && log[j].id == id && first < TWO64
    requires versions[j + 1] == Some(first)
    requires forall i {:trigger CountStep(versions, log, id, i)} | j < i < k :: CountStep(versions, log, id, i)
    ensures EditsOf(log, id, j, k) >= 1
    ensures versions[k] == Some(Wrap64(first + EditsOf(log, id, j, k) - 1))
    decreases k
  {
    if j + 1 == k {
      assert EditsOf(log, id, j, j) == 0;
    } else {
      CountVersions(versions, log, id, first, j, k - 1);
      assert CountStep(versions, log, id, k - 1);
    }
  }

  function Versions(env: Env, n: nat, log: seq<Op>, id: string): (v: seq<Option<nat>>)
    requires n > 0
    ensures |v| == |log| + 1
  {
    seq(|log| + 1, k requires 0 <= k <= |log| => VersionAt(env, n, log, k, id))
  }

  lemma VersionStep(env: Env, n: nat, log: seq<Op>, id: string, i: nat)
    requires n > 0 && AllAccepted(env, n, log) && i < |log|
    requires log[i].id == id ==> Edit(log[i])
    ensures CountStep(Versions(env, n, log, id), log, id, i)
    ensures log[i].id == id ==> Versions(env, n, log, id)[i + 1] == Some(NextVersion(Quoted(log[i])))
  {
    if log[i].id == id {
      EditStep(env, n, log, i);
      if VersionAt(env, n, log, i, id).Some? {
        NextOf(Quoted(log[i]));
      }
    } else {
      OtherStep(env, n, log, i, id);
    }
  }

  lemma VersionSteps(env: Env, n: nat, log: seq<Op>, id: string, j: nat, k: nat)
    requires n > 0 && AllAccepted(env, n, log) && j <= k <= |log|
    requires OnlyEdited(log, id, j, k)
    ensures var versions := Versions(env, n, log, id);
            forall i {:trigger CountStep(versions, log, id, i)} | j <= i < k :: CountStep(versions, log, id, i)
  {
    forall i {:trigger CountStep(Versions(env, n, log, id), log, id, i)} | j <= i < k
      ensures CountStep(Versions(env, n, log, id), log, id, i)
    {
      VersionStep(env, n, log, id, i);
    }
  }

  lemma VersionsAt(env: Env, n: nat, log: seq<Op>, id: string, k: nat)
    requires n > 0 && k <= |log|
    ensures Versions(env, n, log, id)[k] == VersionAt(env, n, log, k, id)
  {
  }

  lemma FirstVersion(env: Env, n: nat, log: seq<Op>, id: string, j: nat)
    requires n > 0 && AllAccepted(env, n, log) && j < |log| && log[j].id == id && Edit(log[j])
    ensures Versions(env, n, log, id)[j + 1] == Some(NextVersion(Quoted(log[j])))
  {
    VersionStep(env, n, log, id, j);
  }

  lemma CountedVersions(env: Env, n: nat, log: seq<Op>, id: string, first: nat, j: nat, k: nat)
    requires n > 0 && AllAccepted(env, n, log) && j < k <= |log|
    requires log[j].id == id && OnlyEdited(log, id, j, k) && first < TWO64
    requires Versions(env, n, log, id)[j + 1] == Some(first)
    ensures EditsOf(log, id, j, k) >= 1
    ensures Versions(env, n, log, id)[k] == Some(Wrap64(first + EditsOf(log, id, j, k) - 1))
  {
    VersionSteps(env, n, log, id, j, k);
    CountVersions(Versions(env, n, log, id), log, id, first, j, k);
  }

  /** The version of the live document: the version first stored plus the accepted edits since. */
  lemma VersionCounts(env: Env, n: nat, log: seq<Op>, id: string, j: nat, k: nat)
    requires n > 0 && AllAccepted(env, n, log) && j < k <= |log|
    requires log[j].id == id && OnlyEdited(log, id, j, k)
    ensures EditsOf(log, id, j, k) >= 1
    ensures VersionAt(env, n, log, k, id) == Some(Wrap64(NextVersion(Quoted(log[j])) + EditsOf(log, id, j, k) - 1))
  {
    hide AllAccepted, Versions, VersionAt, NextVersion, EditsOf, Wrap64;
    var first := NextVersion(Quoted(log[j]));
    FirstVersion(env, n, log, id, j);
    CountedVersions(env, n, log, id, first, j, k);
    VersionsAt(env, n, log, id, k);
  }

  /** A deletion that is accepted quotes the stored revision. */
  lemma DeletionQuotes(env: Env, n: nat, log: seq<Op>, k: nat)
    requires n > 0 && AllAccepted(env, n, log) && k < |log| && log[k].Delete?
    ensures VersionAt(env, n, log, k, log[k].id) == Version(Quoted(log[k]))
  {
    hide Replay, Lookup, Strtoul, ValidRev;
    assert Accepted(env, n, log, k);
  }

  /** No lost update: of any writes to one id that quote the same revision, with no deletion and no
      import in between, at most one is accepted (within 2^64 writes). The last may be a deletion. */
  lemma NoLostUpdate(env: Env, n: nat, log: seq<Op>, id: string, j: nat, k: nat)
    requires n > 0 && AllAccepted(env, n, log) && j < k < |log|
    requires log[j].id == id && log[k].id == id && OnlyEdited(log, id, j, k)
    requires Edit(log[k]) || log[k].Delete?
    requires Quoted(log[j]).Some? && k - j < TWO64
    ensures Quoted(log[k]) != Quoted(log[j])
  {
    hide AllAccepted, VersionAt, EditsOf, NextVersion, Version;
    VersionCounts(env, n, log, id, j, k);
    if log[k].Delete? {
      DeletionQuotes(env, n, log, k);
    } else {
      EditStep(env, n, log, k);
    }
    WrapApart(Quoted(log[j]), EditsOf(log, id, j, k));
  }

  lemma WrapApart(rev: Option<string>, e: nat)
    requires rev.Some? && 1 <= e < TWO64
    ensures Version(rev) != Some(Wrap64(NextVersion(rev) + e - 1))
  {
    var v := Strtoul(rev.value);
    if v + 1 < TWO64 {
      assert NextVersion(rev) == v + 1;
    }
  }
}
