/** What one write does to the document store: the MVCC rules of documents.cpp and the revision
    rule of Document::Create, on the shards of the store. */
module Store {
  import opened Base
  import opened Revisions
  import opened Shards

  type Digest = d: seq<Byte> | |d| == DIGEST_LENGTH witness seq(DIGEST_LENGTH, _ => 0)

  /** What the model takes from outside: the content hash, the object size, the id hash, and for
      attachments the digest of their bytes and the encoding of bytes as text. */
  datatype Env = Env(hash: Body -> Digest, size: Doc -> nat, idHash: string -> nat,
                     md5: seq<Byte> -> Digest, base64: seq<Byte> -> string)

  datatype Op =
    | Set(id: string, rev: Option<string>, body: Body)
    | Delete(id: string, quoted: string)
    | SetAttachment(id: string, quoted: string, name: string, contentType: string, data: seq<Byte>)
    | DeleteAttachment(id: string, quoted: string, name: string)
    | BulkSet(id: string, rev: Option<string>, body: Body, newEdits: bool)

  datatype Error = Missing | Conflict | BadRevision | NoAttachment

  datatype Outcome = Failed(error: Error) | Stored(doc: Doc) | Removed(doc: Doc)

  predicate ValidRev(rev: string) {
    |rev| <= MAX_REV_STRING_LENGTH && WellFormed(rev)
  }

  /** Document::Create: a new revision string unless an imported one is to be kept. */
  function Create(env: Env, id: string, body: Body, objRev: Option<string>, incrementRev: bool): Doc {
    var rev := if incrementRev || objRev.None?
               then FormatRevision(Revision(NextVersion(objRev), env.hash(body)))
               else objRev.value;
    Doc(id, rev, body)
  }

  function WithAttachment(env: Env, prev: Doc, op: Op): Body
    requires op.SetAttachment?
  {
    var existing := if prev.body.attachments.Some? then prev.body.attachments.value else map[];
    var added := Attachment(op.contentType, NextVersion(Some(op.quoted)), "md5-" + env.base64(env.md5(op.data)),
                            env.base64(op.data), |op.data|);
    prev.body.(attachments := Some(existing[op.name := added]))
  }

  function WithoutAttachment(prev: Doc, name: string): Body
    requires prev.body.attachments.Some?
  {
    var existing := prev.body.attachments.value;
    if |existing| == 1 then prev.body.(attachments := None)
    else prev.body.(attachments := Some(existing - {name}))
  }

  /** The decision a writer takes under the shard lock, given the stored document. */
  function Decide(env: Env, prev: Option<Doc>, op: Op): Outcome {
    match op
    case Set(id, rev, body) =>
      if prev.Some? then
        if rev.None? || rev.value != prev.value.rev then Failed(Conflict)
        else Stored(Create(env, id, body, rev, true))
      else if rev.Some? && !ValidRev(rev.value) then Failed(BadRevision)
      else Stored(Create(env, id, body, rev, true))
    case Delete(id, quoted) =>
      if prev.None? then Failed(Missing)
      else if !ValidRev(quoted) then Failed(BadRevision)
      else if quoted != prev.value.rev then Failed(Conflict)
      else Removed(prev.value)
    case SetAttachment(id, quoted, _, _, _) =>
      if prev.None? then Failed(Missing)
      else if quoted != prev.value.rev then Failed(Conflict)
      else Stored(Create(env, id, WithAttachment(env, prev.value, op), Some(prev.value.rev), true))
    case DeleteAttachment(id, quoted, name) =>
      if prev.None? then Failed(Missing)
      else if quoted != prev.value.rev then Failed(Conflict)
      else if prev.value.body.attachments.None? then Failed(NoAttachment)
      else if name !in prev.value.body.attachments.value then Failed(NoAttachment)
      else Stored(Create(env, id, WithoutAttachment(prev.value, name), Some(prev.value.rev), true))
    case BulkSet(id, rev, body, newEdits) =>
      if prev.Some? && newEdits && (rev.None? || rev.value != prev.value.rev) then Failed(Conflict)
      else Stored(Create(env, id, body, rev, newEdits))
  }

  /** The shard after the decision. */
  function Commit(s: seq<Doc>, id: string, outcome: Outcome): seq<Doc> {
    match outcome
    case Failed(_) => s
    case Stored(d) => Insert(s, d)
    case Removed(_) => Erase(s, id)
  }

  function OutcomeOn(env: Env, s: seq<Doc>, op: Op): Outcome {
    Decide(env, Find(s, op.id), op)
  }

  function Applied(env: Env, s: seq<Doc>, op: Op): seq<Doc> {
    Commit(s, op.id, OutcomeOn(env, s, op))
  }

  lemma StoredKeepsId(env: Env, prev: Option<Doc>, op: Op)
    ensures Decide(env, prev, op).Stored? ==> Decide(env, prev, op).doc.id == op.id
  {
  }

  // ---- Shards ---------------------------------------------------------------------------

  function ShardOf(env: Env, n: nat, id: string): nat
    requires n > 0
  {
    env.idHash(id) % n
  }

  /** Every id sits only in its own shard, at most once, and every shard is sorted. */
  ghost predicate WellPlaced(env: Env, shards: seq<seq<Doc>>) {
    && |shards| > 0
    && (forall i | 0 <= i < |shards| :: StrictlySorted(shards[i]))
    && (forall i, j | 0 <= i < |shards| && 0 <= j < |shards[i]| :: ShardOf(env, |shards|, shards[i][j].id) == i)
  }

  function Lookup(env: Env, shards: seq<seq<Doc>>, id: string): Option<Doc>
    requires |shards| > 0
  {
    Find(shards[ShardOf(env, |shards|, id)], id)
  }

  ghost predicate InStore(shards: seq<seq<Doc>>, d: Doc) {
    exists i :: 0 <= i < |shards| && d in shards[i]
  }

  /** A lookup finds exactly the one stored document with the id. */
  lemma LookupIsMember(env: Env, shards: seq<seq<Doc>>, id: string, d: Doc)
    requires WellPlaced(env, shards)
    ensures Lookup(env, shards, id) == Some(d) <==> InStore(shards, d) && d.id == id
  {
    var k := ShardOf(env, |shards|, id);
    FindIsMember(shards[k], id);
    if InStore(shards, d) && d.id == id {
      var i :| 0 <= i < |shards| && d in shards[i];
      var j :| 0 <= j < |shards[i]| && shards[i][j] == d;
      assert ShardOf(env, |shards|, shards[i][j].id) == i;
      FindAt(shards[k], j);
    }
  }

  function ApplyOp(env: Env, shards: seq<seq<Doc>>, op: Op): seq<seq<Doc>>
    requires |shards| > 0
  {
    var i := ShardOf(env, |shards|, op.id);
    shards[i := Applied(env, shards[i], op)]
  }

  function DocTotal(shards: seq<seq<Doc>>): nat {
    if shards == [] then 0 else |shards[0]| + DocTotal(shards[1..])
  }

  function SizeTotal(env: Env, shards: seq<seq<Doc>>): nat {
    if shards == [] then 0 else SizeSum(env.size, shards[0]) + SizeTotal(env, shards[1..])
  }

  lemma AppliedSorted(env: Env, s: seq<Doc>, op: Op)
    requires StrictlySorted(s)
    ensures StrictlySorted(Applied(env, s, op))
    ensures forall d | d in Applied(env, s, op) :: d.id == op.id || d in s
  {
    var o := OutcomeOn(env, s, op);
    StoredKeepsId(env, Find(s, op.id), op);
    match o
    case Failed(_) =>
    case Stored(d) =>
      InsertSorted(s, d);
      forall x | x in Insert(s, d) ensures x.id == op.id || x in s {
        InsertMembers(s, d, x);
      }
    case Removed(_) => EraseSorted(s, op.id);
  }

  /** Every write keeps every id in its own shard, at most once. */
  lemma ApplyOpWellPlaced(env: Env, shards: seq<seq<Doc>>, op: Op)
    requires WellPlaced(env, shards)
    ensures WellPlaced(env, ApplyOp(env, shards, op))
  {
    var k := ShardOf(env, |shards|, op.id);
    var after: seq<seq<Doc>> := ApplyOp(env, shards, op);
    AppliedSorted(env, shards[k], op);
    forall i: nat, j: nat | i < |after| && j < |after[i]| ensures ShardOf(env, |after|, after[i][j].id) == i {
      if i == k {
        var d := after[k][j];
        assert d in Applied(env, shards[k], op);
      }
    }
  }

  lemma {:induction false} TotalsUpdate(env: Env, shards: seq<seq<Doc>>, i: nat, s: seq<Doc>)
    requires i < |shards|
    ensures DocTotal(shards[i := s]) == DocTotal(shards) - |shards[i]| + |s|
    ensures SizeTotal(env, shards[i := s])
            == SizeTotal(env, shards) - SizeSum(env.size, shards[i]) + SizeSum(env.size, s)
  {
    if i == 0 {
      assert shards[0 := s][1..] == shards[1..];
    } else {
      assert shards[i := s][1..] == shards[1..][i - 1 := s];
      TotalsUpdate(env, shards[1..], i - 1, s);
    }
  }

  /** What a write changes: the document under its id, and the totals by exactly that document. */
  lemma ApplyOpEffect(env: Env, shards: seq<seq<Doc>>, op: Op, id: string)
    requires WellPlaced(env, shards)
    ensures var prev := Lookup(env, shards, op.id);
            var after: seq<seq<Doc>> := ApplyOp(env, shards, op);
            match Decide(env, prev, op)
            case Failed(_) => after == shards
            case Stored(d) =>
              && Lookup(env, after, id) == (if id == op.id then Some(d) else Lookup(env, shards, id))
              && DocTotal(after) == DocTotal(shards) + 1 - One(prev)
              && SizeTotal(env, after) == SizeTotal(env, shards) + env.size(d) - SizeOf(env.size, prev)
            case Removed(d) =>
              && prev == Some(d)
              && Lookup(env, after, id) == (if id == op.id then None else Lookup(env, shards, id))
              && DocTotal(after) == DocTotal(shards) - 1
              && SizeTotal(env, after) == SizeTotal(env, shards) - env.size(d)
  {
    var k := ShardOf(env, |shards|, op.id);
    var s := shards[k];
    var o := OutcomeOn(env, s, op);
    StoredKeepsId(env, Find(s, op.id), op);
    TotalsUpdate(env, shards, k, Applied(env, s, op));
    match o
    case Failed(_) => assert shards[k := s] == shards;
    case Stored(d) => InsertEffect(env.size, s, d, id);
    case Removed(d) => EraseEffect(env.size, s, op.id, id);
  }
}
