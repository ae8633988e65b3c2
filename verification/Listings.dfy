/** The one sorted list the shards of a store merge into. */
module Listings {
  import opened CStrings
  import opened Merging
  import opened Pages
  import opened Shards
  import opened Store

  /** Every id of `parts` sits in its own part out of n, and the parts are sorted. */
  ghost predicate Placed(env: Env, n: nat, parts: seq<seq<Doc>>) {
    && 0 < n && |parts| <= n
    && (forall i | 0 <= i < |parts| :: StrictlySorted(parts[i]))
    && (forall i, d | 0 <= i < |parts| && d in parts[i] :: ShardOf(env, n, d.id) == i)
  }

  lemma WellPlacedParts(env: Env, shards: seq<seq<Doc>>)
    requires WellPlaced(env, shards)
    ensures Placed(env, |shards|, shards)
  {
    forall i, d | 0 <= i < |shards| && d in shards[i] ensures ShardOf(env, |shards|, d.id) == i {
      var j :| 0 <= j < |shards[i]| && shards[i][j] == d;
    }
  }

  ghost predicate Apart(a: seq<Doc>, b: seq<Doc>) {
    forall x, y | x in a && y in b :: x.id != y.id
  }

  lemma MergeMembers(a: seq<Doc>, b: seq<Doc>, d: Doc)
    ensures d in Merge(DocLess, a, b) <==> d in a || d in b
  {
    MergeKeepsRows(DocLess, a, b);
    assert d in Merge(DocLess, a, b) <==> d in multiset(Merge(DocLess, a, b));
    assert d in a <==> d in multiset(a);
    assert d in b <==> d in multiset(b);
  }

  lemma HeadLeast(s: seq<Doc>, d: Doc)
    requires s != [] && StrictlySorted(s) && d in s
    ensures d == s[0] || StrLess(s[0].id, d.id)
  {
    var k :| 0 <= k < |s| && s[k] == d;
  }

  lemma {:induction false} MergeStrict(a: seq<Doc>, b: seq<Doc>)
    requires StrictlySorted(a) && StrictlySorted(b) && Apart(a, b)
    ensures StrictlySorted(Merge(DocLess, a, b))
  {
    if a != [] && b != [] {
      StrcmpAntisymmetric(a[0].id, b[0].id);
      StrcmpZero(a[0].id, b[0].id);
      assert a[0] in a && b[0] in b;
      if DocLess(b[0], a[0]) {
        TailSorted(b);
        MergeStrict(a, b[1..]);
        BelowMerge(b[0], a, b[1..], b);
        ConsSorted(b[0], Merge(DocLess, a, b[1..]));
      } else {
        TailSorted(a);
        MergeStrict(a[1..], b);
        BelowMerge(a[0], b, a[1..], a);
        forall y | y in Merge(DocLess, a[1..], b) ensures StrLess(a[0].id, y.id) {
          MergeMembers(a[1..], b, y);
          MergeMembers(b, a[1..], y);
        }
        ConsSorted(a[0], Merge(DocLess, a[1..], b));
      }
    }
  }

  /** The smaller head is below everything that is left. */
  lemma BelowMerge(x: Doc, other: seq<Doc>, rest: seq<Doc>, run: seq<Doc>)
    requires run != [] && run[0] == x && rest == run[1..] && other != []
    requires StrictlySorted(run) && StrictlySorted(other) && StrLess(x.id, other[0].id)
    ensures forall y | y in Merge(DocLess, other, rest) :: StrLess(x.id, y.id)
  {
    forall y | y in Merge(DocLess, other, rest) ensures StrLess(x.id, y.id) {
      MergeMembers(other, rest, y);
      if y in other {
        HeadLeast(other, y);
        if y != other[0] {
          StrcmpTransitive(x.id, other[0].id, y.id);
        }
      } else {
        var k :| 0 <= k < |rest| && rest[k] == y;
        assert run[k + 1] == y;
      }
    }
  }

  lemma {:induction false} MergeAllListing(env: Env, n: nat, parts: seq<seq<Doc>>)
    requires Placed(env, n, parts)
    ensures StrictlySorted(MergeAll(DocLess, parts))
    ensures forall d :: d in MergeAll(DocLess, parts) <==> exists i :: 0 <= i < |parts| && d in parts[i]
    decreases |parts|
  {
    if parts != [] {
      var k := |parts| - 1;
      var front := parts[..k];
      MergeAllListing(env, n, front);
      var done := MergeAll(DocLess, front);
      forall x, y | x in done && y in parts[k] ensures x.id != y.id {
        var i :| 0 <= i < |front| && x in front[i];
        assert x in parts[i];
      }
      MergeStrict(done, parts[k]);
      forall d ensures d in MergeAll(DocLess, parts) <==> exists i :: 0 <= i < |parts| && d in parts[i] {
        MergeMembers(done, parts[k], d);
        if d in done {
          var i :| 0 <= i < |front| && d in front[i];
          assert d in parts[i];
        }
        if i :| 0 <= i < |parts| && d in parts[i] {
          assert i == k || front[i] == parts[i];
        }
      }
    }
  }

  /** Looking an id up in the merged list is looking it up in its shard. */
  lemma {:induction false} FindInListing(env: Env, parts: seq<seq<Doc>>, id: string)
    requires Placed(env, |parts|, parts)
    ensures Find(MergeAll(DocLess, parts), id) == Find(parts[ShardOf(env, |parts|, id)], id)
  {
    var all, own := MergeAll(DocLess, parts), parts[ShardOf(env, |parts|, id)];
    MergeAllListing(env, |parts|, parts);
    FindIsMember(all, id);
    FindIsMember(own, id);
    if Find(own, id).Some? {
      var d := Find(own, id).value;
      assert d in all;
      var k :| 0 <= k < |all| && all[k] == d;
      FindAt(all, k);
    }
  }

  /** The sorted contents of a store: one strictly sorted list, where every id finds its document. */
  lemma {:induction false} ListingOfStore(env: Env, shards: seq<seq<Doc>>)
    requires WellPlaced(env, shards)
    ensures StrictlySorted(MergeAll(DocLess, shards))
    ensures forall id :: Find(MergeAll(DocLess, shards), id) == Lookup(env, shards, id)
  {
    WellPlacedParts(env, shards);
    MergeAllListing(env, |shards|, shards);
    forall id ensures Find(MergeAll(DocLess, shards), id) == Lookup(env, shards, id) {
      FindInListing(env, shards, id);
    }
  }
}
