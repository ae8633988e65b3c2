/** One shard: a set of documents kept strictly sorted by id (the contract of LazyFlatSet). */
module Shards {
  import opened Base
  import opened CStrings

  /** `data` is the encoded text, `length` the number of bytes before encoding. */
  datatype Attachment = Attachment(contentType: string, revpos: nat, digest: string, data: string, length: nat)

  /** A document's object, apart from its `_id` and `_rev`. */
  datatype Body = Body(content: string, attachments: Option<map<string, Attachment>>)

  datatype Doc = Doc(id: string, rev: string, body: Body)

  /** Document::Less. */
  predicate DocLess(a: Doc, b: Doc) {
    StrLess(a.id, b.id)
  }

  ghost predicate StrictlySorted(s: seq<Doc>) {
    forall i, j | 0 <= i < j < |s| :: StrLess(s[i].id, s[j].id)
  }

  function Find(s: seq<Doc>, id: string): Option<Doc> {
    if s == [] then None else if s[0].id == id then Some(s[0]) else Find(s[1..], id)
  }

  /** Insert, replacing the document with the same id. */
  function Insert(s: seq<Doc>, d: Doc): seq<Doc> {
    if s == [] || StrLess(d.id, s[0].id) then [d] + s
    else if s[0].id == d.id then [d] + s[1..]
    else [s[0]] + Insert(s[1..], d)
  }

  function Erase(s: seq<Doc>, id: string): seq<Doc> {
    if s == [] then [] else if s[0].id == id then s[1..] else [s[0]] + Erase(s[1..], id)
  }

  /** Total size of the documents, as each one's object reports it. */
  function SizeSum(size: Doc -> nat, s: seq<Doc>): nat {
    if s == [] then 0 else size(s[0]) + SizeSum(size, s[1..])
  }

  function SizeOf(size: Doc -> nat, d: Option<Doc>): nat {
    if d.Some? then size(d.value) else 0
  }

  function One(d: Option<Doc>): nat {
    if d.Some? then 1 else 0
  }

  lemma {:induction false} FindIsMember(s: seq<Doc>, id: string)
    ensures Find(s, id).Some? ==> Find(s, id).value in s && Find(s, id).value.id == id
    ensures Find(s, id).None? ==> forall i | 0 <= i < |s| :: s[i].id != id
  {
    if s != [] && s[0].id != id {
      FindIsMember(s[1..], id);
      assert forall i | 1 <= i < |s| :: s[i] == s[1..][i - 1];
    }
  }

  lemma {:induction false} FindAt(s: seq<Doc>, i: nat)
    requires StrictlySorted(s) && i < |s|
    ensures Find(s, s[i].id) == Some(s[i])
  {
    if i > 0 {
      StrcmpZero(s[0].id, s[i].id);
      FindAt(s[1..], i - 1);
    }
  }

  lemma FoundIs(s: seq<Doc>, d: Doc)
    requires StrictlySorted(s)
    ensures d in s <==> Find(s, d.id) == Some(d)
  {
    FindIsMember(s, d.id);
    if d in s {
      var k :| 0 <= k < |s| && s[k] == d;
      FindAt(s, k);
    }
  }

  lemma TailSorted(s: seq<Doc>)
    requires s != [] && StrictlySorted(s)
    ensures StrictlySorted(s[1..])
  {
  }

  lemma {:induction false} InsertMembers(s: seq<Doc>, d: Doc, x: Doc)
    requires x in Insert(s, d)
    ensures x == d || x in s
  {
    if s != [] && !StrLess(d.id, s[0].id) && s[0].id != d.id && x != s[0] {
      InsertMembers(s[1..], d, x);
    }
  }

  lemma ConsSorted(x: Doc, s: seq<Doc>)
    requires StrictlySorted(s) && forall y | y in s :: StrLess(x.id, y.id)
    ensures StrictlySorted([x] + s)
  {
  }

  lemma {:induction false} InsertSorted(s: seq<Doc>, d: Doc)
    requires StrictlySorted(s)
    ensures StrictlySorted(Insert(s, d))
  {
    if s == [] {
    } else if StrLess(d.id, s[0].id) {
      forall y | y in s ensures StrLess(d.id, y.id) {
        var k :| 0 <= k < |s| && s[k] == y;
        if k > 0 {
          StrcmpTransitive(d.id, s[0].id, y.id);
        }
      }
      ConsSorted(d, s);
    } else if s[0].id == d.id {
      TailSorted(s);
      ConsSorted(d, s[1..]);
    } else {
      TailSorted(s);
      InsertSorted(s[1..], d);
      StrcmpAntisymmetric(d.id, s[0].id);
      StrcmpZero(d.id, s[0].id);
      forall y | y in Insert(s[1..], d) ensures StrLess(s[0].id, y.id) {
        InsertMembers(s[1..], d, y);
      }
      ConsSorted(s[0], Insert(s[1..], d));
    }
  }

  lemma {:induction false} InsertEffect(size: Doc -> nat, s: seq<Doc>, d: Doc, id: string)
    requires StrictlySorted(s)
    ensures Find(Insert(s, d), id) == if id == d.id then Some(d) else Find(s, id)
    ensures |Insert(s, d)| == |s| + 1 - One(Find(s, d.id))
    ensures SizeSum(size, Insert(s, d)) == SizeSum(size, s) + size(d) - SizeOf(size, Find(s, d.id))
  {
    if s == [] {
    } else if StrLess(d.id, s[0].id) {
      AbsentBelow(s, d.id);
      assert ([d] + s)[1..] == s;
    } else if s[0].id == d.id {
      assert ([d] + s[1..])[1..] == s[1..];
    } else {
      TailSorted(s);
      InsertEffect(size, s[1..], d, id);
      assert ([s[0]] + Insert(s[1..], d))[1..] == Insert(s[1..], d);
    }
  }

  /** An id below the first one is not in the shard. */
  lemma AbsentBelow(s: seq<Doc>, id: string)
    requires StrictlySorted(s) && s != [] && StrLess(id, s[0].id)
    ensures Find(s, id).None?
  {
    FindIsMember(s, id);
    if Find(s, id).Some? {
      var k :| 0 <= k < |s| && s[k].id == id;
      StrcmpZero(id, id);
      if k > 0 {
        StrcmpTransitive(id, s[0].id, s[k].id);
      }
    }
  }

  lemma {:induction false} EraseSorted(s: seq<Doc>, id: string)
    requires StrictlySorted(s)
    ensures StrictlySorted(Erase(s, id))
    ensures forall y | y in Erase(s, id) :: y in s
  {
    if s != [] && s[0].id != id {
      TailSorted(s);
      EraseSorted(s[1..], id);
      ConsSorted(s[0], Erase(s[1..], id));
    }
  }

  lemma {:induction false} EraseEffect(size: Doc -> nat, s: seq<Doc>, id: string, other: string)
    requires StrictlySorted(s)
    ensures Find(Erase(s, id), other) == if other == id then None else Find(s, other)
    ensures |Erase(s, id)| == |s| - One(Find(s, id))
    ensures SizeSum(size, Erase(s, id)) == SizeSum(size, s) - SizeOf(size, Find(s, id))
  {
    if s == [] {
    } else if s[0].id == id {
      TailSorted(s);
      if other == id {
        FindIsMember(s[1..], id);
        if Find(s[1..], id).Some? {
          var k :| 0 <= k < |s[1..]| && s[1..][k].id == id;
          assert s[k + 1].id == id;
          StrcmpZero(id, id);
        }
      }
    } else {
      TailSorted(s);
      EraseEffect(size, s[1..], id, other);
      assert ([s[0]] + Erase(s[1..], id))[1..] == Erase(s[1..], id);
    }
  }
}
