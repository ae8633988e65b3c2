/** The Documents class, one thread at a time: its writers on the shards and counters. What several
    threads do to each other is in StoreMachine. */
module DocumentsClass {
  import opened Base
  import opened Revisions
  import opened Shards
  import opened Store
  import opened Rotation
  import opened BulkWrites
  import opened WriteRules

  /** One entry of a bulk request. */
  datatype Item = Item(id: Option<string>, rev: Option<string>, body: Body)

  /** The writes of a batch: an entry without an id gets the next generated one. */
  function BatchOps(items: seq<Item>, uuids: seq<string>, newEdits: bool): (ops: seq<Op>)
    requires |uuids| == |items|
    ensures |ops| == |items|
  {
    seq(|items|, k requires 0 <= k < |items| =>
      BulkSet(if items[k].id.Some? then items[k].id.value else uuids[k], items[k].rev, items[k].body, newEdits))
  }

  predicate AllRevsValid(items: seq<Item>) {
    forall k | 0 <= k < |items| && items[k].rev.Some? :: ValidRev(items[k].rev.value)
  }

  /** Pending writes of a bulk request, their revisions already checked. */
  predicate Checked(op: Op) {
    op.BulkSet? && (op.rev.Some? ==> ValidRev(op.rev.value))
  }

  ghost predicate AllBulk(ops: seq<Op>) {
    forall k | 0 <= k < |ops| :: Checked(ops[k])
  }

  /** One list of positions per shard. */
  ghost predicate Grouped(env: Env, n: nat, ops: seq<Op>, pending: seq<seq<nat>>) {
    n > 0 && |pending| == n && forall i | 0 <= i < n :: pending[i] == Group(env, n, ops, i, |ops|)
  }

  /** The sequence word after a number of accepted writes. */
  predicate Advanced(seq0: nat, bumps: nat, sequence: nat) {
    Holds(sequence, seq0 + bumps)
  }

  /** A shard, the results and the sequence after the writes of one group. */
  ghost predicate GroupServed(env: Env, s0: seq<Doc>, ops: seq<Op>, group: seq<nat>, results0: Results, seq0: nat,
                              s: seq<Doc>, results: Results, sequence: nat) {
    && Below(group, |ops|) && |results0| == |results| == |ops|
    && s == RunGroup(env, s0, ops, group)
    && results == GroupResults(env, s0, ops, group, results0)
    && Advanced(seq0, GroupBumps(env, s0, ops, group), sequence)
  }

  /** The store, the results and the sequence after a bulk write that visited `visits`. */
  ghost predicate Served(env: Env, ops: seq<Op>, start: Bulk, visits: seq<nat>, seq0: nat, done: Bulk, sequence: nat) {
    && |start.results| == |ops| && Below(visits, |start.shards|)
    && done == RunVisits(env, ops, start, visits)
    && Advanced(seq0, RunBumps(env, ops, start, visits), sequence)
  }

  /** Entry by entry, in input order, each on the store that the ones before it left: one result per entry, by
      the bulk rule on the entry's own id (or the generated one), revision and object. With new edits it is what
      SetDocument gives for them. */
  ghost predicate EntriesServed(env: Env, items: seq<Item>, uuids: seq<string>, newEdits: bool,
                                turns: seq<seq<seq<Doc>>>, results: Results)
    requires |uuids| == |items|
  {
    && |turns| == |items| + 1 && |results| == |items|
    && forall k | 0 <= k < |items| ::
         EntryServed(env, items[k], uuids[k], newEdits, turns[k], results[k], turns[k + 1])
  }

  ghost predicate EntryServed(env: Env, item: Item, uuid: string, newEdits: bool, before: seq<seq<Doc>>,
                              result: Option<Outcome>, after: seq<seq<Doc>>) {
    var id := if item.id.Some? then item.id.value else uuid;
    && result.Some?
    && BulkRule(env, before, id, item.rev, item.body, newEdits, result.value, after)
    && (newEdits ==> SetRule(env, before, id, item.rev, item.body, result.value, after))
  }

  /** The bulk write as a whole: the entries served in turn, from the store before to the store after, and a
      sequence number taken for every stored one. */
  ghost predicate BulkPromise(env: Env, items: seq<Item>, uuids: seq<string>, newEdits: bool,
                              before: seq<seq<Doc>>, seq0: nat, results: Results,
                              after: seq<seq<Doc>>, sequence: nat)
    requires |uuids| == |items|
  {
    && (exists turns :: && EntriesServed(env, items, uuids, newEdits, turns, results)
                        && turns[0] == before && turns[|items|] == after)
    && Advanced(seq0, |StoredAt(results)|, sequence)
  }

  /** The stores between the entries of a batch. */
  ghost function Turns(env: Env, shards: seq<seq<Doc>>, ops: seq<Op>): (turns: seq<seq<seq<Doc>>>)
    requires |shards| > 0
    ensures |turns| == |ops| + 1
  {
    seq(|ops| + 1, k requires 0 <= k <= |ops| => OneByOne(env, shards, ops[..k]))
  }

  lemma {:induction false} OneByOnePlaced(env: Env, shards: seq<seq<Doc>>, ops: seq<Op>)
    requires WellPlaced(env, shards)
    ensures WellPlaced(env, OneByOne(env, shards, ops))
    decreases |ops|
  {
    hide WellPlaced, ApplyOp;
    if ops != [] {
      assert |shards| > 0 by { PlacedShards(env, shards); }
      var init := ops[..|ops| - 1];
      OneByOnePlaced(env, shards, init);
      ApplyOpWellPlaced(env, OneByOne(env, shards, init), ops[|ops| - 1]);
    }
  }

  lemma PlacedShards(env: Env, shards: seq<seq<Doc>>)
    requires WellPlaced(env, shards)
    ensures |shards| > 0
  {
  }

  lemma EntriesFollow(env: Env, shards: seq<seq<Doc>>, items: seq<Item>, uuids: seq<string>, newEdits: bool,
                      seq0: nat, done: Bulk, sequence: nat)
    requires WellPlaced(env, shards) && |uuids| == |items| && AllRevsValid(items)
    requires Sequential(env, shards, BatchOps(items, uuids, newEdits), seq0, done, sequence)
    ensures var turns := Turns(env, shards, BatchOps(items, uuids, newEdits));
            && EntriesServed(env, items, uuids, newEdits, turns, done.results)
            && turns[0] == shards && turns[|items|] == done.shards
  {
    hide WellPlaced, ApplyOp, BulkRule, SetRule, Decide, Lookup, ValidRev, Advanced;
    var ops := BatchOps(items, uuids, newEdits);
    var turns := Turns(env, shards, ops);
    assert ops[..0] == [] && ops[..|ops|] == ops;
    forall k | 0 <= k < |items|
      ensures EntryServed(env, items[k], uuids[k], newEdits, turns[k], done.results[k], turns[k + 1])
    {
      OneByOnePlaced(env, shards, ops[..k]);
      OneMoreOp(env, shards, ops, k);
      var before := turns[k];
      BulkFollows(env, before, ops[k].id, items[k].rev, items[k].body, newEdits);
      if newEdits {
        BulkEntryIsSet(env, before, ops[k].id, items[k].rev, items[k].body, done.results[k].value, turns[k + 1]);
      }
    }
  }

  lemma BulkPromised(env: Env, shards: seq<seq<Doc>>, items: seq<Item>, uuids: seq<string>, newEdits: bool,
                     seq0: nat, done: Bulk, sequence: nat)
    requires WellPlaced(env, shards) && |uuids| == |items| && AllRevsValid(items)
    requires Sequential(env, shards, BatchOps(items, uuids, newEdits), seq0, done, sequence)
    ensures BulkPromise(env, items, uuids, newEdits, shards, seq0, done.results, done.shards, sequence)
  {
    hide WellPlaced, Advanced, StoredAt, EntryServed, ValidRev;
    EntriesFollow(env, shards, items, uuids, newEdits, seq0, done, sequence);
    CountIsNumber(done.results);
  }

  /** The rotation reaches every shard: see RotationExactly. */
  predicate GoodStart(start: nat, n: nat) {
    n > 0 && (start + n <= TWO32 || TWO32 % n == 0)
  }

  /** What processing the batch one by one, in input order, would have left: the store, one result per
      position, and one sequence number per stored document. */
  ghost predicate Sequential(env: Env, shards: seq<seq<Doc>>, ops: seq<Op>, seq0: nat, done: Bulk, sequence: nat) {
    && |shards| > 0 && |done.results| == |ops|
    && done.shards == OneByOne(env, shards, ops)
    && (forall x | 0 <= x < |ops| :: done.results[x] == Some(OutcomeAt(env, shards, ops, x)))
    && Advanced(seq0, CountStored(done.results), sequence)
  }

  lemma ServedIsSequential(env: Env, shards: seq<seq<Doc>>, ops: seq<Op>, start: nat, seq0: nat,
                           done: Bulk, sequence: nat)
    requires 0 < |shards| < TWO32 && start < TWO32 && GoodStart(start, |shards|)
    requires Served(env, ops, Fresh(shards, ops), Visits(start, |shards|), seq0, done, sequence)
    ensures Sequential(env, shards, ops, seq0, done, sequence)
  {
    var visits := Visits(start, |shards|);
    RotationExactly(start, |shards|);
    BulkIsSequential(env, shards, ops, visits);
    BumpsAreAccepted(env, shards, ops, visits);
  }

  /** The totals before and after storing a document over the old one, if any. */
  ghost predicate TotalsMove(env: Env, oldDoc: Option<Doc>, newDoc: Doc, docs: nat, size: nat, docs2: nat, size2: nat) {
    docs2 == docs + 1 - One(oldDoc) && size2 == size + env.size(newDoc) - SizeOf(env.size, oldDoc)
  }

  class Documents {
    const env: Env
    var shards: seq<seq<Doc>>
    var docCount: nat
    var dataSize: nat
    var updateSeq: nat
    /** In the original one counter shared by all databases. */
    var rollingStartIndex: nat

    /** Documents sit in their shards under valid revisions, and the counters are the totals, modulo 2^64. */
    ghost predicate Valid()
      reads this
    {
      && WellPlaced(env, shards) && Revised(shards)
      && Holds(docCount, DocTotal(shards)) && Holds(dataSize, SizeTotal(env, shards))
      && |shards| < TWO32 && rollingStartIndex < TWO32 && updateSeq < TWO64
    }

    constructor (env: Env, collections: nat)
      requires 0 < collections < TWO32
      ensures Valid() && this.env == env && |shards| == collections
      ensures forall id :: Lookup(env, shards, id) == None
      ensures docCount == 0 && dataSize == 0 && updateSeq == 0
    {
      this.env := env;
      shards := seq(collections, _ => []);
      docCount, dataSize, updateSeq := 0, 0, 0;
      rollingStartIndex := collections;
      new;
      EmptyTotals(env, collections);
    }

    /** The document stored under the id, in whatever shard, or none if no shard holds one. */
    method GetDocument(id: string) returns (doc: Option<Doc>)
      requires Valid()
      ensures forall d :: doc == Some(d) <==> InStore(shards, d) && d.id == id
    {
      doc := Find(shards[ShardOf(env, |shards|, id)], id);
      forall d ensures doc == Some(d) <==> InStore(shards, d) && d.id == id {
        LookupIsMember(env, shards, id, d);
      }
    }

    /** The tail every accepted store shares: next sequence number, insert, then the counters. */
    method Adopt(coll: nat, ghost op: Op, oldDoc: Option<Doc>, newDoc: Doc)
      requires Valid() && coll == ShardOf(env, |shards|, op.id)
      requires oldDoc == Find(shards[coll], op.id) && Decide(env, oldDoc, op) == Stored(newDoc)
      requires ValidRev(newDoc.rev)
      modifies this`shards, this`docCount, this`dataSize, this`updateSeq
      ensures Valid()
      ensures shards == old(shards)[coll := Insert(old(shards)[coll], newDoc)] == ApplyOp(env, old(shards), op)
      ensures Advanced(old(updateSeq), 1, updateSeq)
    {
      assert |shards| > 0 && oldDoc == Lookup(env, shards, op.id);
      hide Revised, ValidRev, Find, Insert, DocTotal, SizeTotal, WellPlaced, Holds, Advanced, ApplyOp, Decide, Wrap64,
           TotalsMove, ShardOf, Lookup;
      Adopted(env, shards, op, oldDoc, newDoc);
      Bumped(updateSeq);
      ghost var after := ApplyOp(env, shards, op);
      ghost var docs, size := DocTotal(shards), SizeTotal(env, shards);
      ghost var docs2, size2 := DocTotal(after), SizeTotal(env, after);
      updateSeq := Wrap64(updateSeq + 1);
      AdjustCounters(oldDoc, newDoc, docs, size, docs2, size2);
      shards := shards[coll := Insert(shards[coll], newDoc)];
      assert shards == after;
    }

    /** The counters after a stored document: one more if it is new, its size for the old one's. */
    method AdjustCounters(oldDoc: Option<Doc>, newDoc: Doc, ghost docs: nat, ghost size: nat,
                          ghost docs2: nat, ghost size2: nat)
      requires Holds(docCount, docs) && Holds(dataSize, size)
      requires TotalsMove(env, oldDoc, newDoc, docs, size, docs2, size2)
      modifies this`docCount, this`dataSize
      ensures Holds(docCount, docs2) && Holds(dataSize, size2)
    {
      if oldDoc.None? {
        HoldsAdd(docCount, docs, 1);
        docCount := Wrap64(docCount + 1);
      } else {
        HoldsAdd(dataSize, size, -(env.size(oldDoc.value) as int));
        dataSize := Wrap64(dataSize - env.size(oldDoc.value));
      }
      HoldsAdd(dataSize, size - SizeOf(env.size, oldDoc), env.size(newDoc));
      dataSize := Wrap64(dataSize + env.size(newDoc));
    }

    method SetDocument(id: string, objRev: Option<string>, obj: Body) returns (o: Outcome)
      requires Valid()
      modifies this`shards, this`docCount, this`dataSize, this`updateSeq
      ensures Valid()
      ensures o == Decide(env, Lookup(env, old(shards), id), Set(id, objRev, obj))
      ensures shards == ApplyOp(env, old(shards), Set(id, objRev, obj))
      ensures Advanced(old(updateSeq), if o.Failed? then 0 else 1, updateSeq)
      ensures SetRule(env, old(shards), id, objRev, obj, o, shards)
    {
      hide SetRule, Revised, NextRevision, Find, WellFormed, FormatRevision, NextVersion;
      var coll := ShardOf(env, |shards|, id);
      var oldDoc := Find(shards[coll], id);
      RefusalKeeps(env, shards, Set(id, objRev, obj));
      SetFollows(env, shards, id, objRev, obj);
      CreatedValid(env, id, obj, objRev);
      if oldDoc.Some? {
        if objRev.None? || objRev.value != oldDoc.value.rev {
          return Failed(Conflict);
        }
      } else if objRev.Some? {
        var valid := Validate(objRev);
        if !valid {
          return Failed(BadRevision);
        }
      }
      var newDoc := Create(env, id, obj, objRev, true);
      Adopt(coll, Set(id, objRev, obj), oldDoc, newDoc);
      o := Stored(newDoc);
    }

    method DeleteDocument(id: string, rev: string) returns (o: Outcome)
      requires Valid()
      modifies this`shards, this`docCount, this`dataSize, this`updateSeq
      ensures Valid()
      ensures o == Decide(env, Lookup(env, old(shards), id), Delete(id, rev))
      ensures shards == ApplyOp(env, old(shards), Delete(id, rev))
      ensures Advanced(old(updateSeq), if o.Failed? then 0 else 1, updateSeq)
      ensures DeleteRule(old(shards), id, rev, o, shards)
    {
      DeleteCases(env, shards, id, rev);
      Bumped(updateSeq);
      hide DeleteRule, Revised, WellPlaced, WellFormed, Erase, ApplyOp, Decide, Holds, Advanced, DocTotal, SizeTotal;
      var coll := ShardOf(env, |shards|, id);
      var doc := Find(shards[coll], id);
      if doc.None? {
        return Failed(Missing);
      }
      var valid := Validate(Some(rev));
      if !valid {
        return Failed(BadRevision);
      }
      if rev != doc.value.rev {
        return Failed(Conflict);
      }
      Discard(coll, id, rev, doc.value);
      o := Removed(doc.value);
    }

    /** The tail of an accepted deletion: erase, next sequence number, then the counters. */
    method Discard(coll: nat, id: string, ghost rev: string, doc: Doc)
      requires Valid() && coll == ShardOf(env, |shards|, id)
      requires Decide(env, Lookup(env, shards, id), Delete(id, rev)) == Removed(doc)
      modifies this`shards, this`docCount, this`dataSize, this`updateSeq
      ensures Valid()
      ensures shards == ApplyOp(env, old(shards), Delete(id, rev))
      ensures Advanced(old(updateSeq), 1, updateSeq)
    {
      Discarded(env, shards, id, rev);
      CountedOut(env, shards, id, rev, docCount);
      SizedOut(env, shards, id, rev, dataSize);
      Bumped(updateSeq);
      hide Revised, WellPlaced, Erase, ApplyOp, Decide, Holds, Advanced, DocTotal, SizeTotal, Lookup, Wrap64;
      shards := shards[coll := Erase(shards[coll], id)];
      updateSeq := Wrap64(updateSeq + 1);
      docCount := Wrap64(docCount - 1);
      dataSize := Wrap64(dataSize - env.size(doc));
    }

    method SetDocumentAttachment(id: string, rev: string, name: string, contentType: string, data: seq<Byte>)
      returns (o: Outcome)
      requires Valid()
      modifies this`shards, this`docCount, this`dataSize, this`updateSeq
      ensures Valid()
      ensures o == Decide(env, Lookup(env, old(shards), id), SetAttachment(id, rev, name, contentType, data))
      ensures shards == ApplyOp(env, old(shards), SetAttachment(id, rev, name, contentType, data))
      ensures Advanced(old(updateSeq), if o.Failed? then 0 else 1, updateSeq)
      ensures SetAttachmentRule(env, old(shards), id, rev, name, contentType, data, o, shards)
    {
      hide SetAttachmentRule, Revised, ValidRev, NextRevision;
      var op := SetAttachment(id, rev, name, contentType, data);
      var coll := ShardOf(env, |shards|, id);
      var oldDoc := Find(shards[coll], id);
      SetAttachmentFollows(env, shards, op);
      if oldDoc.None? {
        return Failed(Missing);
      }
      if rev != oldDoc.value.rev {
        return Failed(Conflict);
      }
      CreatedValid(env, id, WithAttachment(env, oldDoc.value, op), Some(oldDoc.value.rev));
      var newDoc := Create(env, id, WithAttachment(env, oldDoc.value, op), Some(oldDoc.value.rev), true);
      Adopt(coll, op, oldDoc, newDoc);
      o := Stored(newDoc);
    }

    method DeleteDocumentAttachment(id: string, rev: string, name: string) returns (o: Outcome)
      requires Valid()
      modifies this`shards, this`docCount, this`dataSize, this`updateSeq
      ensures Valid()
      ensures o == Decide(env, Lookup(env, old(shards), id), DeleteAttachment(id, rev, name))
      ensures shards == ApplyOp(env, old(shards), DeleteAttachment(id, rev, name))
      ensures Advanced(old(updateSeq), if o.Failed? then 0 else 1, updateSeq)
      ensures DeleteAttachmentRule(env, old(shards), id, rev, name, o, shards)
    {
      hide DeleteAttachmentRule, Revised, ValidRev, NextRevision;
      var coll := ShardOf(env, |shards|, id);
      var oldDoc := Find(shards[coll], id);
      DeleteAttachmentFollows(env, shards, DeleteAttachment(id, rev, name));
      if oldDoc.None? {
        return Failed(Missing);
      }
      if rev != oldDoc.value.rev {
        return Failed(Conflict);
      }
      if oldDoc.value.body.attachments.None? {
        return Failed(NoAttachment);
      }
      if name !in oldDoc.value.body.attachments.value {
        return Failed(NoAttachment);
      }
      CreatedValid(env, id, WithoutAttachment(oldDoc.value, name), Some(oldDoc.value.rev));
      var newDoc := Create(env, id, WithoutAttachment(oldDoc.value, name), Some(oldDoc.value.rev), true);
      Adopt(coll, DeleteAttachment(id, rev, name), oldDoc, newDoc);
      o := Stored(newDoc);
    }

    /** The batch sorted into one list of positions per shard, every revision checked on the way. */
    method GroupPending(items: seq<Item>, ops: seq<Op>) returns (pendingDocs: Option<seq<seq<nat>>>)
      requires |shards| > 0 && |ops| == |items|
      ensures pendingDocs.Some? <==> AllRevsValid(items)
      ensures pendingDocs.Some? ==> Grouped(env, |shards|, ops, pendingDocs.value)
    {
      var n := |shards|;
      var pending: seq<seq<nat>> := seq(n, _ => []);
      for k := 0 to |items|
        invariant |pending| == n
        invariant forall i | 0 <= i < n :: pending[i] == Group(env, n, ops, i, k)
        invariant forall j | 0 <= j < k && items[j].rev.Some? :: ValidRev(items[j].rev.value)
      {
        if items[k].rev.Some? {
          var valid := Validate(items[k].rev);
          if !valid {
            return None;
          }
        }
        var coll := ShardOf(env, n, ops[k].id);
        pending := pending[coll := pending[coll] + [k]];
      }
      pendingDocs := Some(pending);
    }

    /** A malformed revision anywhere in the batch stops it before anything is changed. */
    method PostBulkDocuments(items: seq<Item>, newEdits: bool, uuids: seq<string>) returns (r: Option<Results>)
      requires Valid() && |uuids| == |items|
      modifies this
      ensures Valid()
      ensures r.Some? <==> AllRevsValid(items)
      ensures r.None? ==> unchanged(this)
      ensures r.Some? ==> rollingStartIndex == Decremented(old(rollingStartIndex))
      ensures r.Some? ==>
                var ops := BatchOps(items, uuids, newEdits);
                Served(env, ops, Fresh(old(shards), ops), Visits(rollingStartIndex, |old(shards)|), old(updateSeq),
                       Bulk(shards, r.value), updateSeq)
      ensures r.Some? && GoodStart(rollingStartIndex, |old(shards)|) ==>
                Sequential(env, old(shards), BatchOps(items, uuids, newEdits), old(updateSeq),
                           Bulk(shards, r.value), updateSeq)
      ensures r.Some? && GoodStart(rollingStartIndex, |old(shards)|) ==>
                BulkPromise(env, items, uuids, newEdits, old(shards), old(updateSeq), r.value, shards, updateSeq)
    {
      hide BulkPromise, Sequential, Revised;
      var ops := BatchOps(items, uuids, newEdits);
      var pendingDocs := GroupPending(items, ops);
      if pendingDocs.None? {
        return None;
      }
      rollingStartIndex := Decremented(rollingStartIndex);
      var results := PostShards(ops, pendingDocs.value);
      r := Some(results);
      if GoodStart(rollingStartIndex, |shards|) {
        ServedIsSequential(env, old(shards), ops, rollingStartIndex, old(updateSeq), Bulk(shards, results), updateSeq);
        BulkPromised(env, old(shards), items, uuids, newEdits, old(updateSeq), Bulk(shards, results), updateSeq);
      }
    }

    /** The loop over the shards, from the rolling start index. */
    method PostShards(ops: seq<Op>, pendingDocs: seq<seq<nat>>) returns (results: Results)
      requires Valid() && AllBulk(ops) && Grouped(env, |shards|, ops, pendingDocs)
      modifies this`shards, this`docCount, this`dataSize, this`updateSeq
      ensures Valid()
      ensures Served(env, ops, Fresh(old(shards), ops), Visits(rollingStartIndex, |old(shards)|), old(updateSeq),
                     Bulk(shards, results), updateSeq)
    {
      hide IndexAt, RunVisits, RunBumps, WellPlaced, Group;
      var n := |shards|;
      results := seq(|ops|, _ => None);
      ghost var start, seq0, visits := Fresh(shards, ops), updateSeq, Visits(rollingStartIndex, n);
      var startIndex := rollingStartIndex;
      FirstIndex(rollingStartIndex);
      VisitsBelow(rollingStartIndex, n);
      ServedNone(env, ops, start, updateSeq);
      for i := 0 to n
        invariant Valid() && |shards| == n
        invariant startIndex == IndexAt(rollingStartIndex, i)
        invariant Served(env, ops, start, visits[..i], seq0, Bulk(shards, results), updateSeq)
      {
        var index := startIndex % n;
        VisitIs(rollingStartIndex, i, n);
        OneMore(visits, i);
        results := PostVisit(ops, index, pendingDocs[index], results, start, visits[..i], seq0);
        NextIndex(rollingStartIndex, i);
        startIndex := (startIndex + 1) % TWO32;
      }
      assert visits[..n] == visits;
    }

    /** One more visited shard. */
    method PostVisit(ops: seq<Op>, index: nat, pending: seq<nat>, results0: Results,
                     ghost start: Bulk, ghost visits: seq<nat>, ghost seq0: nat) returns (results: Results)
      requires Valid() && AllBulk(ops) && index < |shards|
      requires pending == Group(env, |shards|, ops, index, |ops|)
      requires Served(env, ops, start, visits, seq0, Bulk(shards, results0), updateSeq)
      modifies this`shards, this`docCount, this`dataSize, this`updateSeq
      ensures Valid() && |shards| == |old(shards)|
      ensures Served(env, ops, start, visits + [index], seq0, Bulk(shards, results), updateSeq)
    {
      ghost var b, seq1 := Bulk(shards, results0), updateSeq;
      results := PostShard(ops, index, pending, results0);
      ServedStep(env, ops, start, visits, index, seq0, b, seq1, Bulk(shards, results), updateSeq);
    }

    /** The pending documents of one shard, under its lock. */
    method PostShard(ops: seq<Op>, index: nat, pending: seq<nat>, results0: Results) returns (results: Results)
      requires Valid() && index < |shards| && |results0| == |ops| && AllBulk(ops)
      requires pending == Group(env, |shards|, ops, index, |ops|)
      modifies this`shards, this`docCount, this`dataSize, this`updateSeq
      ensures Valid()
      ensures |shards| == |old(shards)| && shards == old(shards)[index := shards[index]]
      ensures GroupServed(env, old(shards)[index], ops, pending, results0, old(updateSeq),
                          shards[index], results, updateSeq)
    {
      results := results0;
      ghost var s0, seq0 := shards[index], updateSeq;
      GroupServedNone(env, s0, ops, results0, seq0);
      hide WellPlaced, Revised, Holds, DocTotal, SizeTotal, GroupServed, Group;
      assert shards == shards[index := s0];
      for j := 0 to |pending|
        invariant Valid()
        invariant |shards| == |old(shards)| && shards == old(shards)[index := shards[index]]
        invariant GroupServed(env, s0, ops, pending[..j], results0, seq0, shards[index], results, updateSeq)
      {
        results := PostNext(ops, index, pending, j, results, s0, results0, seq0);
      }
      assert pending[..|pending|] == pending;
    }

    /** One more pending document of the shard. */
    method PostNext(ops: seq<Op>, index: nat, pending: seq<nat>, j: nat, results1: Results,
                    ghost s0: seq<Doc>, ghost results0: Results, ghost seq0: nat) returns (results: Results)
      requires Valid() && index < |shards| && AllBulk(ops) && j < |pending|
      requires pending == Group(env, |shards|, ops, index, |ops|)
      requires GroupServed(env, s0, ops, pending[..j], results0, seq0, shards[index], results1, updateSeq)
      modifies this`shards, this`docCount, this`dataSize, this`updateSeq
      ensures Valid()
      ensures |shards| == |old(shards)| && shards == old(shards)[index := shards[index]]
      ensures GroupServed(env, s0, ops, pending[..j + 1], results0, seq0, shards[index], results, updateSeq)
    {
      assert pending[j] < |ops| && |results1| == |ops|;
      assert Checked(ops[pending[j]]) && ShardOf(env, |shards|, ops[pending[j]].id) == index;
      hide WellPlaced, Revised, Holds, DocTotal, SizeTotal, GroupServed, Group, BulkRule, OutcomeOn, Applied, Checked,
           AllBulk, Advanced;
      ghost var s1, seq1 := shards[index], updateSeq;
      var o := PostOne(index, ops[pending[j]]);
      results := results1[pending[j] := Some(o)];
      GroupServedStep(env, s0, ops, pending, j, results0, seq0, s1, results1, seq1, shards[index], results, updateSeq);
    }

    /** One pending document. */
    method PostOne(index: nat, op: Op) returns (o: Outcome)
      requires Valid() && Checked(op) && index == ShardOf(env, |shards|, op.id)
      modifies this`shards, this`docCount, this`dataSize, this`updateSeq
      ensures Valid()
      ensures o == OutcomeOn(env, old(shards)[index], op)
      ensures shards == old(shards)[index := Applied(env, old(shards)[index], op)]
      ensures Advanced(old(updateSeq), if o.Stored? then 1 else 0, updateSeq)
      ensures BulkRule(env, old(shards), op.id, op.rev, op.body, op.newEdits, o, shards)
    {
      hide BulkRule, Revised, NextRevision;
      BulkFollows(env, shards, op.id, op.rev, op.body, op.newEdits);
      var oldDoc := Find(shards[index], op.id);
      if oldDoc.Some? && op.newEdits && (op.rev.None? || op.rev.value != oldDoc.value.rev) {
        o := Failed(Conflict);
      } else {
        CreatedValid(env, op.id, op.body, op.rev);
        var newDoc := Create(env, op.id, op.body, op.rev, op.newEdits);
        Adopt(index, op, oldDoc, newDoc);
        o := Stored(newDoc);
      }
    }
  }

  lemma CreatedValid(env: Env, id: string, body: Body, quoted: Option<string>)
    ensures ValidRev(Create(env, id, body, quoted, true).rev)
  {
    CreatedRevision(env, id, body, quoted);
  }

  lemma GroupServedNone(env: Env, s0: seq<Doc>, ops: seq<Op>, results0: Results, seq0: nat)
    requires |results0| == |ops| && seq0 < TWO64
    ensures GroupServed(env, s0, ops, [], results0, seq0, s0, results0, seq0)
  {
  }

  lemma GroupServedStep(env: Env, s0: seq<Doc>, ops: seq<Op>, group: seq<nat>, j: nat, results0: Results, seq0: nat,
                        s1: seq<Doc>, results1: Results, seq1: nat, s2: seq<Doc>, results2: Results, seq2: nat)
    requires j < |group| && GroupServed(env, s0, ops, group[..j], results0, seq0, s1, results1, seq1)
    requires group[j] < |ops|
    requires var o := OutcomeOn(env, s1, ops[group[j]]);
             && s2 == Applied(env, s1, ops[group[j]])
             && results2 == results1[group[j] := Some(o)]
             && Advanced(seq1, if o.Stored? then 1 else 0, seq2)
    ensures GroupServed(env, s0, ops, group[..j + 1], results0, seq0, s2, results2, seq2)
  {
    hide OutcomeOn, Applied, Decide, Find;
    assert group[..j + 1][..j] == group[..j];
    ServedSequence(seq0, GroupBumps(env, s0, ops, group[..j]), GroupBumps(env, s0, ops, group[..j + 1]),
                   if OutcomeOn(env, s1, ops[group[j]]).Stored? then 1 else 0, seq1, seq2);
  }

  lemma VisitMore(env: Env, ops: seq<Op>, start: Bulk, visits: seq<nat>, i: nat)
    requires |start.results| == |ops| && Below(visits, |start.shards|) && i < |start.shards|
    ensures RunVisits(env, ops, start, visits + [i]) == VisitShard(env, ops, RunVisits(env, ops, start, visits), i)
  {
    assert (visits + [i])[..|visits|] == visits;
  }

  lemma BumpsMore(env: Env, ops: seq<Op>, start: Bulk, visits: seq<nat>, i: nat)
    requires |start.results| == |ops| && Below(visits, |start.shards|) && i < |start.shards|
    ensures RunBumps(env, ops, start, visits + [i]) == RunBumps(env, ops, start, visits) +
              GroupBumps(env, RunVisits(env, ops, start, visits).shards[i], ops,
                         Group(env, |start.shards|, ops, i, |ops|))
  {
    assert (visits + [i])[..|visits|] == visits;
  }

  lemma ServedNone(env: Env, ops: seq<Op>, start: Bulk, seq0: nat)
    requires |start.results| == |ops| && seq0 < TWO64
    ensures Served(env, ops, start, [], seq0, start, seq0)
  {
  }

  lemma ShardVisited(env: Env, ops: seq<Op>, b1: Bulk, i: nat, b2: Bulk)
    requires |b1.results| == |ops| && i < |b1.shards| == |b2.shards| && b2.shards == b1.shards[i := b2.shards[i]]
    requires var group := Group(env, |b1.shards|, ops, i, |ops|);
             && b2.shards[i] == RunGroup(env, b1.shards[i], ops, group)
             && b2.results == GroupResults(env, b1.shards[i], ops, group, b1.results)
    ensures b2 == VisitShard(env, ops, b1, i)
  {
  }

  lemma ServedStep(env: Env, ops: seq<Op>, start: Bulk, visits: seq<nat>, i: nat, seq0: nat,
                   b1: Bulk, seq1: nat, b2: Bulk, seq2: nat)
    requires |start.results| == |ops| && Below(visits, |start.shards|) && i < |start.shards| == |b1.shards|
    requires Served(env, ops, start, visits, seq0, b1, seq1)
    requires |b2.shards| == |b1.shards| && b2.shards == b1.shards[i := b2.shards[i]]
    requires GroupServed(env, b1.shards[i], ops, Group(env, |b1.shards|, ops, i, |ops|), b1.results, seq1,
                         b2.shards[i], b2.results, seq2)
    ensures Served(env, ops, start, visits + [i], seq0, b2, seq2)
  {
    ShardVisited(env, ops, b1, i, b2);
    VisitMore(env, ops, start, visits, i);
    BumpsMore(env, ops, start, visits, i);
    ServedSequence(seq0, RunBumps(env, ops, start, visits), RunBumps(env, ops, start, visits + [i]),
                   GroupBumps(env, b1.shards[i], ops, Group(env, |b1.shards|, ops, i, |ops|)), seq1, seq2);
  }

  lemma ServedSequence(seq0: nat, bumps: nat, bumps2: nat, more: nat, seq1: nat, seq2: nat)
    requires bumps2 == bumps + more
    requires Advanced(seq0, bumps, seq1) && Advanced(seq1, more, seq2)
    ensures Advanced(seq0, bumps2, seq2)
  {
    HoldsAdd(seq1, seq0 + bumps, more);
  }

  lemma Bumped(sequence: nat)
    requires sequence < TWO64
    ensures Advanced(sequence, 0, sequence)
    ensures Advanced(sequence, 1, Wrap64(sequence + 1)) && Wrap64(sequence + 1) < TWO64
  {
  }

  lemma VisitIs(start: nat, i: nat, n: nat)
    requires i < n
    ensures Visits(start, n)[i] == IndexAt(start, i) % n < n
  {
  }

  lemma FirstIndex(start: nat)
    requires start < TWO32
    ensures IndexAt(start, 0) == start
  {
  }

  lemma NextIndex(start: nat, i: nat)
    ensures (IndexAt(start, i) + 1) % TWO32 == IndexAt(start, i + 1)
  {
  }

  lemma OneMore(visits: seq<nat>, i: nat)
    requires i < |visits|
    ensures visits[..i + 1] == visits[..i] + [visits[i]]
  {
  }

  lemma {:induction false} EmptyTotals(env: Env, n: nat)
    ensures DocTotal(seq(n, _ => [])) == 0 && SizeTotal(env, seq(n, _ => [])) == 0
    decreases n
  {
    if n > 0 {
      EmptyTotals(env, n - 1);
      var none: seq<seq<Doc>> := seq(n, _ => []);
      assert none[1..] == seq(n - 1, _ => []);
    }
  }

  /** What every writer relies on: placement and totals after its decision. */
  lemma WriteEffect(env: Env, shards: seq<seq<Doc>>, op: Op)
    requires WellPlaced(env, shards)
    ensures WellPlaced(env, ApplyOp(env, shards, op))
    ensures var prev := Lookup(env, shards, op.id);
            var after := ApplyOp(env, shards, op);
            match Decide(env, prev, op)
            case Failed(_) => after == shards
            case Stored(d) =>
              && DocTotal(after) == DocTotal(shards) + 1 - One(prev)
              && SizeTotal(env, after) == SizeTotal(env, shards) + env.size(d) - SizeOf(env.size, prev)
            case Removed(d) =>
              && DocTotal(after) == DocTotal(shards) - 1
              && SizeTotal(env, after) == SizeTotal(env, shards) - env.size(d)
  {
    ApplyOpWellPlaced(env, shards, op);
    ApplyOpEffect(env, shards, op, op.id);
  }

  /** The cases of a deletion. */
  lemma DeleteCases(env: Env, shards: seq<seq<Doc>>, id: string, rev: string)
    requires WellPlaced(env, shards) && Revised(shards)
    ensures var prev, op := Lookup(env, shards, id), Delete(id, rev);
            var o, after := Decide(env, prev, op), ApplyOp(env, shards, op);
            && o == (if prev.None? then Failed(Missing)
                     else if |rev| > MAX_REV_STRING_LENGTH || !WellFormed(rev) then Failed(BadRevision)
                     else if rev != prev.value.rev then Failed(Conflict)
                     else Removed(prev.value))
            && (o.Failed? ==> after == shards)
            && (o.Removed? ==>
                  && after == shards[ShardOf(env, |shards|, id) := Erase(shards[ShardOf(env, |shards|, id)], id)]
                  && WellPlaced(env, after) && Revised(after)
                  && DocTotal(after) == DocTotal(shards) - 1
                  && SizeTotal(env, after) == SizeTotal(env, shards) - env.size(o.doc))
            && DeleteRule(shards, id, rev, o, after)
  {
    hide Find, Erase, DocTotal, SizeTotal, DeleteRule, Revised, WellFormed;
    WriteEffect(env, shards, Delete(id, rev));
    StillRevised(env, shards, Delete(id, rev));
    DeleteFollows(env, shards, id, rev);
  }

  lemma Discarded(env: Env, shards: seq<seq<Doc>>, id: string, rev: string)
    requires WellPlaced(env, shards) && Revised(shards)
    requires Decide(env, Lookup(env, shards, id), Delete(id, rev)).Removed?
    ensures var after := ApplyOp(env, shards, Delete(id, rev));
            && after == shards[ShardOf(env, |shards|, id) := Erase(shards[ShardOf(env, |shards|, id)], id)]
            && WellPlaced(env, after) && Revised(after)
  {
    assert |shards| > 0;
    hide Find, Erase, DeleteRule, Revised, WellFormed, WellPlaced, ApplyOp, Decide, Lookup, ShardOf;
    DeleteCases(env, shards, id, rev);
  }

  lemma CountedOut(env: Env, shards: seq<seq<Doc>>, id: string, rev: string, docCount: nat)
    requires WellPlaced(env, shards) && Revised(shards) && Holds(docCount, DocTotal(shards))
    requires Decide(env, Lookup(env, shards, id), Delete(id, rev)).Removed?
    ensures Holds(Wrap64(docCount - 1), DocTotal(ApplyOp(env, shards, Delete(id, rev))))
  {
    assert |shards| > 0;
    hide DocTotal, SizeTotal, Revised, WellPlaced, ApplyOp, Decide, Lookup, Holds, Wrap64;
    WriteEffect(env, shards, Delete(id, rev));
    HoldsLess(docCount, DocTotal(shards), 1);
  }

  lemma SizedOut(env: Env, shards: seq<seq<Doc>>, id: string, rev: string, dataSize: nat)
    requires WellPlaced(env, shards) && Revised(shards) && Holds(dataSize, SizeTotal(env, shards))
    requires Decide(env, Lookup(env, shards, id), Delete(id, rev)).Removed?
    ensures var doc := Decide(env, Lookup(env, shards, id), Delete(id, rev)).doc;
            Holds(Wrap64(dataSize - env.size(doc)), SizeTotal(env, ApplyOp(env, shards, Delete(id, rev))))
  {
    assert |shards| > 0;
    hide DocTotal, SizeTotal, Revised, WellPlaced, ApplyOp, Decide, Lookup, Holds, Wrap64;
    WriteEffect(env, shards, Delete(id, rev));
    HoldsLess(dataSize, SizeTotal(env, shards), env.size(Decide(env, Lookup(env, shards, id), Delete(id, rev)).doc));
  }

  lemma Adopted(env: Env, shards: seq<seq<Doc>>, op: Op, oldDoc: Option<Doc>, newDoc: Doc)
    requires WellPlaced(env, shards) && Revised(shards) && ValidRev(newDoc.rev)
    requires oldDoc == Lookup(env, shards, op.id) && Decide(env, oldDoc, op) == Stored(newDoc)
    ensures var i, after := ShardOf(env, |shards|, op.id), ApplyOp(env, shards, op);
            && after == shards[i := Insert(shards[i], newDoc)]
            && WellPlaced(env, after) && Revised(after)
            && TotalsMove(env, oldDoc, newDoc, DocTotal(shards), SizeTotal(env, shards),
                          DocTotal(after), SizeTotal(env, after))
  {
    StoredIs(env, shards, op);
    hide Revised, ValidRev, DocTotal, SizeTotal, WellPlaced, ApplyOp, Decide, Lookup, One, SizeOf, Insert;
    WriteEffect(env, shards, op);
    StillRevised(env, shards, op);
  }

  lemma StoredIs(env: Env, shards: seq<seq<Doc>>, op: Op)
    requires |shards| > 0 && Decide(env, Lookup(env, shards, op.id), op).Stored?
    ensures var i := ShardOf(env, |shards|, op.id);
            ApplyOp(env, shards, op) == shards[i := Insert(shards[i], Decide(env, Lookup(env, shards, op.id), op).doc)]
  {
  }

  lemma RefusalKeeps(env: Env, shards: seq<seq<Doc>>, op: Op)
    requires |shards| > 0
    ensures Decide(env, Lookup(env, shards, op.id), op).Failed? ==> ApplyOp(env, shards, op) == shards
  {
  }

  lemma VisitsBelow(start: nat, n: nat)
    requires n > 0
    ensures Below(Visits(start, n), n)
  {
  }
}
