/** What a client may rely on when it writes, said of the stored documents alone: when each request is accepted or
    refused, what it stores under which revision, and what it leaves as it was. */
module WriteRules {
  import opened Base
  import opened Revisions
  import opened Shards
  import opened Store
  import opened Attachments

  /** d is stored under the id. */
  ghost predicate Has(shards: seq<seq<Doc>>, id: string, d: Doc) {
    InStore(shards, d) && d.id == id
  }

  ghost predicate HasNone(shards: seq<seq<Doc>>, id: string) {
    forall d | InStore(shards, d) :: d.id != id
  }

  /** Afterwards d is the one document under its id, and every other id has what it had. */
  ghost predicate Stores(before: seq<seq<Doc>>, after: seq<seq<Doc>>, d: Doc) {
    forall x :: InStore(after, x) <==> x == d || (InStore(before, x) && x.id != d.id)
  }

  /** Afterwards nothing is stored under the id, and every other id has what it had. */
  ghost predicate Drops(before: seq<seq<Doc>>, after: seq<seq<Doc>>, id: string) {
    forall x :: InStore(after, x) <==> InStore(before, x) && x.id != id
  }

  /** The revision of d parses to the version after the quoted one, or to version 1 if none is quoted, and the
      digest of its body; it is written in normal form. */
  ghost predicate NextRevision(env: Env, quoted: Option<string>, d: Doc) {
    && ValidRev(d.rev)
    && FormatRevision(RevisionOf(d.rev)) == d.rev
    && RevisionOf(d.rev).digest == env.hash(d.body)
    && (quoted.None? ==> RevisionOf(d.rev).version == 1)
    && (quoted.Some? ==> RevisionOf(d.rev).version == (Strtoul(quoted.value) + 1) % TWO64)
    && (quoted.Some? && WellFormed(quoted.value) ==>
          RevisionOf(d.rev).version == (RevisionOf(quoted.value).version + 1) % TWO64)
  }

  /** Storing a document: over an existing one its revision must be quoted; a new one may quote any valid
      revision, or none. */
  ghost predicate SetRule(env: Env, before: seq<seq<Doc>>, id: string, quoted: Option<string>, obj: Body,
                          o: Outcome, after: seq<seq<Doc>>) {
    && (o.Stored? <==>
          || (exists d :: Has(before, id, d) && quoted == Some(d.rev))
          || (HasNone(before, id) && (quoted.None? || ValidRev(quoted.value))))
    && (o == Failed(Conflict) <==> exists d :: Has(before, id, d) && quoted != Some(d.rev))
    && (o == Failed(BadRevision) <==> HasNone(before, id) && quoted.Some? && !ValidRev(quoted.value))
    && (o.Stored? ==>
          && o.doc.id == id && o.doc.body == obj && NextRevision(env, quoted, o.doc)
          && Stores(before, after, o.doc))
    && (o.Failed? ==> after == before)
  }

  /** Deleting one: it must exist, and a valid revision that is its own must be quoted. */
  ghost predicate DeleteRule(before: seq<seq<Doc>>, id: string, quoted: string, o: Outcome, after: seq<seq<Doc>>) {
    && (o.Removed? <==> exists d :: Has(before, id, d) && ValidRev(quoted) && d.rev == quoted)
    && (o == Failed(Missing) <==> HasNone(before, id))
    && (o == Failed(BadRevision) <==> !HasNone(before, id) && !ValidRev(quoted))
    && (o == Failed(Conflict) <==> exists d :: Has(before, id, d) && ValidRev(quoted) && d.rev != quoted)
    && (o.Removed? ==> Has(before, id, o.doc) && o.doc.rev == quoted && Drops(before, after, id))
    && (o.Failed? ==> after == before)
  }

  /** Setting an attachment: the document must exist and its revision be quoted. */
  ghost predicate EditAnswer(before: seq<seq<Doc>>, id: string, quoted: string, o: Outcome) {
    && (o.Stored? <==> exists d :: Has(before, id, d) && d.rev == quoted)
    && (o == Failed(Missing) <==> HasNone(before, id))
    && (o == Failed(Conflict) <==> exists d :: Has(before, id, d) && d.rev != quoted)
  }

  /** The attachment replaces the one of its name; nothing else of the body changes. */
  ghost predicate SetAttachmentRule(env: Env, before: seq<seq<Doc>>, id: string, quoted: string, name: string,
                                    contentType: string, data: seq<Byte>, o: Outcome, after: seq<seq<Doc>>) {
    && EditAnswer(before, id, quoted, o)
    && (o.Stored? ==>
          && o.doc.id == id && NextRevision(env, Some(quoted), o.doc) && Stores(before, after, o.doc)
          && Carries(env, o.doc, name, contentType, data)
          && OthersKept(before, o.doc, name))
    && (o.Failed? ==> after == before)
  }

  /** The attachment of d under the name: the version of d, the digest, the encoded bytes and their number. */
  ghost predicate Carries(env: Env, d: Doc, name: string, contentType: string, data: seq<Byte>) {
    && WellFormed(d.rev)
    && AttachmentOf(d.body, name) ==
       Some(Attachment(contentType, RevisionOf(d.rev).version, "md5-" + env.base64(env.md5(data)),
                       env.base64(data), |data|))
  }

  /** d keeps the content and every other attachment of the document stored before under its id. */
  ghost predicate OthersKept(before: seq<seq<Doc>>, d: Doc, name: string) {
    forall d0 | Has(before, d.id, d0) :: SameBut(d0.body, d.body, name)
  }

  ghost predicate SameBut(a: Body, b: Body, name: string) {
    && b.content == a.content
    && forall other | other != name :: AttachmentOf(b, other) == AttachmentOf(a, other)
  }

  /** Deleting one: that attachment must be there too. */
  ghost predicate DeletionAnswer(before: seq<seq<Doc>>, id: string, quoted: string, name: string, o: Outcome) {
    && (o.Stored? <==> exists d :: Has(before, id, d) && d.rev == quoted && AttachmentOf(d.body, name).Some?)
    && (o == Failed(Missing) <==> HasNone(before, id))
    && (o == Failed(Conflict) <==> exists d :: Has(before, id, d) && d.rev != quoted)
    && (o == Failed(NoAttachment) <==>
          exists d :: Has(before, id, d) && d.rev == quoted && AttachmentOf(d.body, name).None?)
  }

  ghost predicate DeleteAttachmentRule(env: Env, before: seq<seq<Doc>>, id: string, quoted: string, name: string,
                                       o: Outcome, after: seq<seq<Doc>>) {
    && DeletionAnswer(before, id, quoted, name, o)
    && (o.Stored? ==>
          && o.doc.id == id && NextRevision(env, Some(quoted), o.doc) && Stores(before, after, o.doc)
          && AttachmentOf(o.doc.body, name) == None && o.doc.body.attachments != Some(map[])
          && OthersKept(before, o.doc, name))
    && (o.Failed? ==> after == before)
  }

  /** One entry of a bulk write: with new edits it conflicts unless it quotes the stored revision, if there is
      one; without, it replaces what is there, and a given revision is kept. */
  ghost predicate BulkRule(env: Env, before: seq<seq<Doc>>, id: string, quoted: Option<string>, obj: Body,
                           newEdits: bool, o: Outcome, after: seq<seq<Doc>>) {
    && (o == Failed(Conflict) <==> newEdits && exists d :: Has(before, id, d) && quoted != Some(d.rev))
    && (o.Stored? <==> o != Failed(Conflict))
    && (o.Stored? ==>
          && o.doc.id == id && o.doc.body == obj && Stores(before, after, o.doc)
          && if newEdits || quoted.None? then NextRevision(env, quoted, o.doc) else o.doc.rev == quoted.value)
    && (o.Failed? ==> after == before)
  }

  // ---- The decisions follow the rules -------------------------------------------------------

  /** A lookup is the one document under the id. */
  lemma LookupHas(env: Env, shards: seq<seq<Doc>>, id: string)
    requires WellPlaced(env, shards)
    ensures var prev := Lookup(env, shards, id);
            && (prev.None? <==> HasNone(shards, id))
            && (forall d :: Has(shards, id, d) <==> prev == Some(d))
  {
    assert |shards| > 0;
    hide Lookup, InStore, WellPlaced;
    forall d ensures Has(shards, id, d) <==> Lookup(env, shards, id) == Some(d) {
      LookupIsMember(env, shards, id, d);
    }
    if Lookup(env, shards, id).Some? {
      assert Has(shards, id, Lookup(env, shards, id).value);
    } else {
      forall d | InStore(shards, d) ensures d.id != id {
        assert !Has(shards, id, d);
      }
    }
  }

  /** What a write leaves stored. */
  lemma ApplyStores(env: Env, shards: seq<seq<Doc>>, op: Op)
    requires WellPlaced(env, shards)
    ensures var o := Decide(env, Lookup(env, shards, op.id), op);
            var after: seq<seq<Doc>> := ApplyOp(env, shards, op);
            && (o.Failed? ==> after == shards)
            && (o.Stored? ==> o.doc.id == op.id && Stores(shards, after, o.doc))
            && (o.Removed? ==> Has(shards, op.id, o.doc) && Drops(shards, after, op.id))
  {
    assert |shards| > 0;
    hide Lookup, InStore, WellPlaced, ApplyOp, Decide;
    var o := Decide(env, Lookup(env, shards, op.id), op);
    var after: seq<seq<Doc>> := ApplyOp(env, shards, op);
    ApplyOpWellPlaced(env, shards, op);
    StoredKeepsId(env, Lookup(env, shards, op.id), op);
    LookupHas(env, shards, op.id);
    forall x
      ensures o.Stored? ==> (InStore(after, x) <==> x == o.doc || (InStore(shards, x) && x.id != o.doc.id))
      ensures o.Removed? ==> (InStore(after, x) <==> InStore(shards, x) && x.id != op.id)
      ensures o.Failed? ==> after == shards
    {
      ApplyOpEffect(env, shards, op, x.id);
      LookupIsMember(env, shards, x.id, x);
      LookupIsMember(env, after, x.id, x);
    }
    ApplyOpEffect(env, shards, op, op.id);
  }

  lemma StrtoulOfRevision(s: string)
    requires WellFormed(s)
    ensures Strtoul(s) == RevisionOf(s).version
  {
    DigitRunIs(s, |s| - DIGEST_STRING_LENGTH - 1);
  }

  /** What Document::Create makes of a quoted revision. */
  lemma CreatedRevision(env: Env, id: string, body: Body, quoted: Option<string>)
    ensures var d := Create(env, id, body, quoted, true);
            d.id == id && d.body == body && NextRevision(env, quoted, d)
  {
    hide Strtoul, FormatRevision, WellFormed, RevisionOf;
    var r := Revision(NextVersion(quoted), env.hash(body));
    RoundTrip(r);
    if quoted.Some? && WellFormed(quoted.value) {
      StrtoulOfRevision(quoted.value);
    }
  }

  /** The revision rule leaves one choice. */
  lemma NextRevisionUnique(env: Env, quoted: Option<string>, a: Doc, b: Doc)
    requires NextRevision(env, quoted, a) && NextRevision(env, quoted, b) && a.body == b.body
    ensures a.rev == b.rev
  {
    hide Strtoul, FormatRevision, WellFormed, RevisionOf;
    assert RevisionOf(a.rev).version == RevisionOf(b.rev).version;
    SameRevision(RevisionOf(a.rev), RevisionOf(b.rev));
  }

  lemma SameRevision(a: Revision, b: Revision)
    requires a.version == b.version && a.digest == b.digest
    ensures a == b
  {
  }

  lemma SetDecided(env: Env, prev: Option<Doc>, id: string, quoted: Option<string>, obj: Body)
    ensures Decide(env, prev, Set(id, quoted, obj)) ==
            if prev.Some? && quoted != Some(prev.value.rev) then Failed(Conflict)
            else if prev.None? && quoted.Some? && !ValidRev(quoted.value) then Failed(BadRevision)
            else Stored(Create(env, id, obj, quoted, true))
  {
  }

  lemma SetFollows(env: Env, shards: seq<seq<Doc>>, id: string, quoted: Option<string>, obj: Body)
    requires WellPlaced(env, shards)
    ensures var op := Set(id, quoted, obj);
            SetRule(env, shards, id, quoted, obj, Decide(env, Lookup(env, shards, id), op), ApplyOp(env, shards, op))
  {
    assert |shards| > 0;
    hide Lookup, InStore, WellPlaced, ApplyOp, Create, NextRevision, HasNone, Stores, ValidRev, Has, Decide;
    LookupHas(env, shards, id);
    ApplyStores(env, shards, Set(id, quoted, obj));
    SetDecided(env, Lookup(env, shards, id), id, quoted, obj);
    CreatedRevision(env, id, obj, quoted);
  }

  lemma DeleteFollows(env: Env, shards: seq<seq<Doc>>, id: string, quoted: string)
    requires WellPlaced(env, shards)
    ensures var op := Delete(id, quoted);
            DeleteRule(shards, id, quoted, Decide(env, Lookup(env, shards, id), op), ApplyOp(env, shards, op))
  {
    assert |shards| > 0;
    hide Lookup, InStore, WellPlaced, ApplyOp, HasNone, Drops, ValidRev, Has;
    LookupHas(env, shards, id);
    ApplyStores(env, shards, Delete(id, quoted));
  }

  lemma BulkFollows(env: Env, shards: seq<seq<Doc>>, id: string, quoted: Option<string>, obj: Body, newEdits: bool)
    requires WellPlaced(env, shards)
    ensures var op := BulkSet(id, quoted, obj, newEdits);
            BulkRule(env, shards, id, quoted, obj, newEdits, Decide(env, Lookup(env, shards, id), op),
                     ApplyOp(env, shards, op))
  {
    assert |shards| > 0;
    hide Lookup, InStore, WellPlaced, ApplyOp, NextRevision, HasNone, Stores, Has;
    LookupHas(env, shards, id);
    ApplyStores(env, shards, BulkSet(id, quoted, obj, newEdits));
    CreatedRevision(env, id, obj, quoted);
  }

  /** With new edits a bulk entry whose revision is valid gets what SetDocument gives. */
  lemma BulkEntryIsSet(env: Env, before: seq<seq<Doc>>, id: string, quoted: Option<string>, obj: Body, o: Outcome,
                       after: seq<seq<Doc>>)
    requires quoted.None? || ValidRev(quoted.value)
    requires WellPlaced(env, before)
    requires BulkRule(env, before, id, quoted, obj, true, o, after)
    ensures SetRule(env, before, id, quoted, obj, o, after)
  {
    assert |before| > 0;
    hide NextRevision, Stores, ValidRev, WellPlaced, HasNone, Has, Lookup;
    LookupHas(env, before, id);
  }

  lemma SetAttachmentFollows(env: Env, shards: seq<seq<Doc>>, op: Op)
    requires WellPlaced(env, shards) && op.SetAttachment?
    ensures SetAttachmentRule(env, shards, op.id, op.quoted, op.name, op.contentType, op.data,
                              Decide(env, Lookup(env, shards, op.id), op), ApplyOp(env, shards, op))
  {
    assert |shards| > 0;
    hide Lookup, InStore, WellPlaced, ApplyOp, NextRevision, HasNone, Stores, Has, WithAttachment, Decide, Create,
         Carries, OthersKept, EditAnswer;
    EditAnswered(env, shards, op);
    ApplyStores(env, shards, op);
    var prev := Lookup(env, shards, op.id);
    EditDecided(env, prev, op);
    if prev.Some? && prev.value.rev == op.quoted {
      var body := WithAttachment(env, prev.value, op);
      var d := Create(env, op.id, body, Some(op.quoted), true);
      CreatedRevision(env, op.id, body, Some(op.quoted));
      AttachmentSet(env, prev.value, op);
      KeptFrom(env, shards, prev.value, d, op.name);
    }
  }

  lemma EditAnswered(env: Env, shards: seq<seq<Doc>>, op: Op)
    requires WellPlaced(env, shards) && op.SetAttachment?
    ensures EditAnswer(shards, op.id, op.quoted, Decide(env, Lookup(env, shards, op.id), op))
  {
    assert |shards| > 0;
    hide Lookup, InStore, WellPlaced, HasNone, Has, WithAttachment, Decide, Create;
    StoredRevision(env, shards, op.id, op.quoted);
    EditDecided(env, Lookup(env, shards, op.id), op);
  }

  /** Which revision is stored, if any. */
  lemma StoredRevision(env: Env, shards: seq<seq<Doc>>, id: string, quoted: string)
    requires WellPlaced(env, shards)
    ensures var prev := Lookup(env, shards, id);
            && (prev.None? <==> HasNone(shards, id))
            && ((exists d :: Has(shards, id, d) && d.rev == quoted) <==> prev.Some? && prev.value.rev == quoted)
            && ((exists d :: Has(shards, id, d) && d.rev != quoted) <==> prev.Some? && prev.value.rev != quoted)
  {
    assert |shards| > 0;
    hide Lookup, WellPlaced, HasNone, Has;
    LookupHas(env, shards, id);
  }

  lemma StoredAttachment(env: Env, shards: seq<seq<Doc>>, id: string, quoted: string, name: string)
    requires WellPlaced(env, shards)
    ensures var prev := Lookup(env, shards, id);
            && ((exists d :: Has(shards, id, d) && d.rev == quoted && AttachmentOf(d.body, name).Some?) <==>
                prev.Some? && prev.value.rev == quoted && AttachmentOf(prev.value.body, name).Some?)
            && ((exists d :: Has(shards, id, d) && d.rev == quoted && AttachmentOf(d.body, name).None?) <==>
                prev.Some? && prev.value.rev == quoted && AttachmentOf(prev.value.body, name).None?)
  {
    assert |shards| > 0;
    hide Lookup, WellPlaced, HasNone, Has, AttachmentOf;
    LookupHas(env, shards, id);
  }

  lemma KeptFrom(env: Env, shards: seq<seq<Doc>>, prev: Doc, d: Doc, name: string)
    requires WellPlaced(env, shards) && Lookup(env, shards, d.id) == Some(prev) && SameBut(prev.body, d.body, name)
    ensures OthersKept(shards, d, name)
  {
    assert |shards| > 0;
    hide Lookup, WellPlaced, HasNone, Has, SameBut;
    LookupHas(env, shards, d.id);
  }

  lemma EditDecided(env: Env, prev: Option<Doc>, op: Op)
    requires op.SetAttachment?
    ensures Decide(env, prev, op) ==
            if prev.None? then Failed(Missing)
            else if prev.value.rev != op.quoted then Failed(Conflict)
            else Stored(Create(env, op.id, WithAttachment(env, prev.value, op), Some(op.quoted), true))
  {
  }

  lemma AttachmentSet(env: Env, prev: Doc, op: Op)
    requires op.SetAttachment? && op.quoted == prev.rev
    ensures var body := WithAttachment(env, prev, op);
            && Carries(env, Create(env, op.id, body, Some(op.quoted), true), op.name, op.contentType, op.data)
            && SameBut(prev.body, body, op.name)
  {
    hide FormatRevision, WellFormed, RevisionOf, NextVersion;
    RoundTrip(Revision(NextVersion(Some(prev.rev)), env.hash(WithAttachment(env, prev, op))));
  }

  lemma DeleteAttachmentFollows(env: Env, shards: seq<seq<Doc>>, op: Op)
    requires WellPlaced(env, shards) && op.DeleteAttachment?
    ensures DeleteAttachmentRule(env, shards, op.id, op.quoted, op.name,
                                 Decide(env, Lookup(env, shards, op.id), op), ApplyOp(env, shards, op))
  {
    assert |shards| > 0;
    hide Lookup, InStore, WellPlaced, ApplyOp, NextRevision, HasNone, Stores, Has, WithoutAttachment, SameBut, Decide,
         Create, AttachmentOf, OthersKept, DeletionAnswer;
    DeletionAnswered(env, shards, op);
    ApplyStores(env, shards, op);
    var prev := Lookup(env, shards, op.id);
    DeletionDecided(env, prev, op);
    if prev.Some? && prev.value.rev == op.quoted && AttachmentOf(prev.value.body, op.name).Some? {
      var body := WithoutAttachment(prev.value, op.name);
      CreatedRevision(env, op.id, body, Some(op.quoted));
      AttachmentGone(prev.value, op.name);
      KeptFrom(env, shards, prev.value, Create(env, op.id, body, Some(op.quoted), true), op.name);
    }
  }

  lemma DeletionAnswered(env: Env, shards: seq<seq<Doc>>, op: Op)
    requires WellPlaced(env, shards) && op.DeleteAttachment?
    ensures DeletionAnswer(shards, op.id, op.quoted, op.name, Decide(env, Lookup(env, shards, op.id), op))
  {
    assert |shards| > 0;
    hide Lookup, InStore, WellPlaced, HasNone, Has, WithoutAttachment, Decide, Create, AttachmentOf;
    StoredRevision(env, shards, op.id, op.quoted);
    StoredAttachment(env, shards, op.id, op.quoted, op.name);
    DeletionDecided(env, Lookup(env, shards, op.id), op);
  }

  lemma DeletionDecided(env: Env, prev: Option<Doc>, op: Op)
    requires op.DeleteAttachment?
    ensures Decide(env, prev, op) ==
            if prev.None? then Failed(Missing)
            else if prev.value.rev != op.quoted then Failed(Conflict)
            else if AttachmentOf(prev.value.body, op.name).None? then Failed(NoAttachment)
            else Stored(Create(env, op.id, WithoutAttachment(prev.value, op.name), Some(op.quoted), true))
  {
  }

  lemma AttachmentGone(prev: Doc, name: string)
    requires AttachmentOf(prev.body, name).Some?
    ensures var body := WithoutAttachment(prev, name);
            AttachmentOf(body, name) == None && body.attachments != Some(map[]) && SameBut(prev.body, body, name)
  {
    var existing := prev.body.attachments.value;
    OnlyOne(existing, name);
    assert forall other :: other != name && other in existing ==> other in existing - {name};
  }

  /** The rule of a request. */
  ghost predicate Rule(env: Env, before: seq<seq<Doc>>, op: Op, o: Outcome, after: seq<seq<Doc>>) {
    match op
    case Set(id, quoted, obj) => SetRule(env, before, id, quoted, obj, o, after)
    case Delete(id, quoted) => DeleteRule(before, id, quoted, o, after)
    case SetAttachment(id, quoted, name, contentType, data) =>
      SetAttachmentRule(env, before, id, quoted, name, contentType, data, o, after)
    case DeleteAttachment(id, quoted, name) => DeleteAttachmentRule(env, before, id, quoted, name, o, after)
    case BulkSet(id, quoted, obj, newEdits) => BulkRule(env, before, id, quoted, obj, newEdits, o, after)
  }

  lemma RuleFollowed(env: Env, shards: seq<seq<Doc>>, op: Op)
    requires WellPlaced(env, shards)
    ensures Rule(env, shards, op, Decide(env, Lookup(env, shards, op.id), op), ApplyOp(env, shards, op))
  {
    assert |shards| > 0;
    hide SetRule, DeleteRule, SetAttachmentRule, DeleteAttachmentRule, BulkRule, WellPlaced, Decide, Lookup, ApplyOp;
    match op
    case Set(id, quoted, obj) => SetFollows(env, shards, id, quoted, obj);
    case Delete(id, quoted) => DeleteFollows(env, shards, id, quoted);
    case SetAttachment(_, _, _, _, _) => SetAttachmentFollows(env, shards, op);
    case DeleteAttachment(_, _, _) => DeleteAttachmentFollows(env, shards, op);
    case BulkSet(id, quoted, obj, newEdits) => BulkFollows(env, shards, id, quoted, obj, newEdits);
  }

  // ---- And the rules leave no other choice --------------------------------------------------

  lemma SameDoc(a: Doc, b: Doc)
    requires a.id == b.id && a.rev == b.rev && a.body == b.body
    ensures a == b
  {
  }

  /** The rule of SetDocument has one outcome. */
  lemma SetDecides(env: Env, before: seq<seq<Doc>>, id: string, quoted: Option<string>, obj: Body,
                   a: Outcome, after: seq<seq<Doc>>, b: Outcome, after': seq<seq<Doc>>)
    requires WellPlaced(env, before)
    requires SetRule(env, before, id, quoted, obj, a, after) && SetRule(env, before, id, quoted, obj, b, after')
    ensures a == b && forall d :: InStore(after, d) <==> InStore(after', d)
  {
    assert |before| > 0;
    hide NextRevision, ValidRev, WellPlaced, Lookup, InStore, HasNone, Has;
    LookupHas(env, before, id);
    if a.Stored? && b.Stored? {
      NextRevisionUnique(env, quoted, a.doc, b.doc);
      SameDoc(a.doc, b.doc);
    }
  }

  // ---- Stored revisions ---------------------------------------------------------------------

  /** Every stored document has a valid revision. */
  ghost predicate Revised(shards: seq<seq<Doc>>) {
    forall d | InStore(shards, d) :: ValidRev(d.rev)
  }

  lemma StillRevised(env: Env, shards: seq<seq<Doc>>, op: Op)
    requires WellPlaced(env, shards) && Revised(shards)
    requires var o := Decide(env, Lookup(env, shards, op.id), op); o.Stored? ==> ValidRev(o.doc.rev)
    ensures Revised(ApplyOp(env, shards, op))
  {
    assert |shards| > 0;
    hide Lookup, InStore, WellPlaced, ApplyOp, Decide, ValidRev;
    ApplyStores(env, shards, op);
  }
}
