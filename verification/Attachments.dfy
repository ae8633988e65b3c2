/** What attachment edits do to a document, beyond the revision rules they share with other writes. */
module Attachments {
  import opened Base
  import opened Revisions
  import opened Shards
  import opened Store
  import opened History

  /** The attachment under a name, if there is one. */
  function AttachmentOf(b: Body, name: string): Option<Attachment> {
    if b.attachments.Some? && name in b.attachments.value then Some(b.attachments.value[name]) else None
  }

  /** Setting an attachment replaces that one, with the version being written, the digest and the length of
      its bytes, and leaves the content and every other attachment alone. */
  lemma SetEffect(env: Env, prev: Doc, op: Op, other: string)
    requires op.SetAttachment? && op.quoted == prev.rev
    ensures Decide(env, Some(prev), op).Stored?
    ensures var d := Decide(env, Some(prev), op).doc;
            && d.body.content == prev.body.content
            && AttachmentOf(d.body, op.name) ==
               Some(Attachment(op.contentType, Strtoul(d.rev), "md5-" + env.base64(env.md5(op.data)),
                               env.base64(op.data), |op.data|))
            && (other != op.name ==> AttachmentOf(d.body, other) == AttachmentOf(prev.body, other))
  {
    hide Strtoul, NextVersion;
    EditBumps(env, Some(prev), op);
  }

  /** Deleting an attachment removes that one only; with the last one the field itself goes. */
  lemma DeleteEffect(env: Env, prev: Doc, op: Op, other: string)
    requires op.DeleteAttachment? && op.quoted == prev.rev
    ensures Decide(env, Some(prev), op).Stored? <==> AttachmentOf(prev.body, op.name).Some?
    ensures Decide(env, Some(prev), op).Stored? ==>
              var d := Decide(env, Some(prev), op).doc;
              && d.body.content == prev.body.content
              && AttachmentOf(d.body, op.name) == None
              && (other != op.name ==> AttachmentOf(d.body, other) == AttachmentOf(prev.body, other))
              && (d.body.attachments.Some? ==> d.body.attachments.value != map[])
  {
    if AttachmentOf(prev.body, op.name).Some? {
      var existing := prev.body.attachments.value;
      OnlyOne(existing, op.name);
      assert other != op.name && other in existing ==> other in existing - {op.name};
    }
  }

  lemma OnlyOne<T>(m: map<string, T>, name: string)
    requires name in m
    ensures |m| == 1 <==> m - {name} == map[]
  {
    assert m == (m - {name})[name := m[name]];
    assert |m| == |m - {name}| + 1;
  }

  /** Adding an attachment under a new name and deleting it again, each quoting the revision before it,
      restores the document's body exactly when that had no empty attachments field. */
  lemma SetThenDelete(env: Env, prev: Doc, name: string, contentType: string, data: seq<Byte>)
    requires AttachmentOf(prev.body, name).None?
    ensures var edit := SetAttachment(prev.id, prev.rev, name, contentType, data);
            var stored := Decide(env, Some(prev), edit);
            && stored.Stored?
            && var deleted := Decide(env, Some(stored.doc), DeleteAttachment(prev.id, stored.doc.rev, name));
               && deleted.Stored?
               && (deleted.doc.body == prev.body <==> prev.body.attachments != Some(map[]))
  {
    hide Strtoul, NextVersion, FormatRevision;
    var edit := SetAttachment(prev.id, prev.rev, name, contentType, data);
    var body := WithAttachment(env, prev, edit);
    var existing := if prev.body.attachments.Some? then prev.body.attachments.value else map[];
    var added := body.attachments.value;
    assert added - {name} == existing;
    OnlyOne(added, name);
    var stored := Decide(env, Some(prev), edit).doc;
    DeleteEffect(env, stored, DeleteAttachment(prev.id, stored.rev, name), name);
  }
}
