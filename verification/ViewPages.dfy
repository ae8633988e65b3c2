/** What a view query promises, said of its own fields: which rows it asks for, and which place each row it
    delivers has among them. */
module ViewPages {
  import opened Base
  import opened CStrings
  import opened Merging
  import opened Pages
  import opened Ranks
  import opened Collation
  import opened Windows
  import opened ViewRows

  /** Rows come in the order of their keys, and under one key by document id. */
  predicate PairBefore(a: RowKey, b: RowKey) {
    Before(a.key, b.key) || (a.key == b.key && Precedes(a.id, b.id))
  }

  /** Against a key of the query: its document id counts only if it has one. */
  predicate RowBefore(r: RowKey, k: QueryKey) {
    Before(r.key, k.key) || (r.key == k.key && k.id != "" && Precedes(r.id, k.id))
  }

  predicate RowAfter(r: RowKey, k: QueryKey) {
    Before(k.key, r.key) || (r.key == k.key && k.id != "" && Precedes(k.id, r.id))
  }

  predicate RowAt(r: RowKey, k: QueryKey) {
    r.key == k.key && (k.id == "" || r.id == k.id)
  }

  /** From the start key on, that key included, up to the end key in the direction of the query, that key
      included if asked. */
  predicate Asked(q: Query, r: RowKey) {
    && (q.startKey.None? || RowAt(r, q.startKey.value)
        || (if q.descending then RowBefore(r, q.startKey.value) else RowAfter(r, q.startKey.value)))
    && (q.endKey.None? || (RowAt(r, q.endKey.value) && q.inclusiveEnd)
        || (if q.descending then RowAfter(r, q.endKey.value) else RowBefore(r, q.endKey.value)))
  }

  /** The rows that come before the first one asked for. */
  predicate Passed(q: Query, r: RowKey) {
    q.startKey.Some? && if q.descending then RowAfter(r, q.startKey.value) else RowBefore(r, q.startKey.value)
  }

  function AskedBy(q: Query): RowKey -> bool {
    (r: RowKey) => Asked(q, r)
  }

  function PassedBy(q: Query): RowKey -> bool {
    (r: RowKey) => Passed(q, r)
  }

  /** One row ahead of another in the direction of the query. */
  function AheadBy(descending: bool): (RowKey, RowKey) -> bool {
    (a: RowKey, b: RowKey) => if descending then PairBefore(b, a) else PairBefore(a, b)
  }

  /** Row k delivered has the place skip + k among the rows asked for: no more than so many are ahead of it, and
      with those that equal it there are more. */
  ghost predicate HasPlace(q: Query, keys: seq<RowKey>, r: RowKey, place: nat) {
    && CountIf(Both(AskedBy(q), AheadOf(AheadBy(q.descending), r)), keys) <= place
    && place < CountIf(Both(AskedBy(q), NotBehind(AheadBy(q.descending), r)), keys)
  }

  /** The answer over the rows of a view: as many as there are behind `skip`, up to `limit`, all of them asked
      for and each in its place; and the offset counts the rows passed over. */
  ghost predicate ViewPage(q: Query, keys: seq<RowKey>, delivered: seq<RowKey>, offset: nat, totalRows: nat) {
    && |delivered| == Min(q.limit, Max(0, CountIf(AskedBy(q), keys) - q.skip))
    && (forall k | 0 <= k < |delivered| :: Asked(q, delivered[k]) && HasPlace(q, keys, delivered[k], q.skip + k))
    && offset == CountIf(PassedBy(q), keys) + Min(q.skip, CountIf(AskedBy(q), keys))
    && totalRows == |keys|
  }

  // ---- The query is that one ----------------------------------------------------------------

  lemma KeyDiffMeans(leaves: iset<Value>, k: QueryKey, r: RowKey)
    requires LeavesOk(leaves) && Tree(leaves, k.key) && Tree(leaves, r.key)
    ensures KeyDiff(k, r) < 0 <==> RowAfter(r, k)
    ensures KeyDiff(k, r) > 0 <==> RowBefore(r, k)
    ensures KeyDiff(k, r) == 0 <==> RowAt(r, k)
  {
    hide LeavesOk, Tree, Precedes, Order, Before;
    ValueSigns(leaves, k.key, r.key);
    ValueStandard(leaves, k.key, r.key);
    ValueStandard(leaves, r.key, k.key);
    StrcmpPrecedes(k.id, r.id);
    StrcmpPrecedes(r.id, k.id);
    StrcmpAntisymmetric(k.id, r.id);
    StrcmpZero(k.id, r.id);
  }

  /** The bounds of the search are those of the query. */
  lemma RangeMeans(leaves: iset<Value>, q: Query, r: RowKey)
    requires LeavesOk(leaves) && BoundOver(leaves, LowBound(q)) && BoundOver(leaves, HighBound(q))
    requires Tree(leaves, r.key)
    ensures InRange(q, r) <==> Asked(q, r)
    ensures BeforeRange(q, r) <==> Passed(q, r)
  {
    hide LeavesOk, Tree, KeyDiff, RowAt, RowBefore, RowAfter;
    if q.startKey.Some? {
      KeyDiffMeans(leaves, q.startKey.value, r);
    }
    if q.endKey.Some? {
      KeyDiffMeans(leaves, q.endKey.value, r);
    }
  }

  /** The rows a cut is sure of: those between the keys of the query, and those beyond one of them. */
  lemma StrictMeans(leaves: iset<Value>, q: Query, r: RowKey)
    requires LeavesOk(leaves) && BoundOver(leaves, LowBound(q)) && BoundOver(leaves, HighBound(q))
    requires Tree(leaves, r.key)
    ensures var atKey := || (q.startKey.Some? && RowAt(r, q.startKey.value))
                         || (q.endKey.Some? && RowAt(r, q.endKey.value));
            && (StrictlyInside(q, r) <==> Asked(q, r) && !atKey)
            && (StrictlyOutside(q, r) ==> !Asked(q, r))
            && (!Asked(q, r) && !atKey ==> StrictlyOutside(q, r))
  {
    hide LeavesOk, Tree, KeyDiff, RowAt, RowBefore, RowAfter;
    if q.startKey.Some? {
      KeyDiffMeans(leaves, q.startKey.value, r);
    }
    if q.endKey.Some? {
      KeyDiffMeans(leaves, q.endKey.value, r);
    }
  }

  lemma PairOrder(leaves: iset<Value>, a: RowKey, b: RowKey)
    requires LeavesOk(leaves) && Tree(leaves, a.key) && Tree(leaves, b.key)
    ensures KeyLess(a, b) <==> PairBefore(a, b)
  {
    hide LeavesOk, Tree, Precedes, Order, Before;
    ValueSigns(leaves, a.key, b.key);
    ValueStandard(leaves, a.key, b.key);
    StrcmpPrecedes(a.id, b.id);
  }

  lemma ListInOrder(leaves: iset<Value>, descending: bool, rows: seq<RowKey>)
    requires LeavesOk(leaves) && Within(rows, KeysOver(leaves)) && Sorted(KeyLess, rows)
    ensures InOrder(AheadBy(descending), Directed(descending, rows))
  {
    var v := Directed(descending, rows);
    forall i, j | 0 <= i <= j < |v| ensures !AheadBy(descending)(v[j], v[i]) {
      var n := |rows| - 1;
      if descending {
        ReverseAt(rows, i);
        ReverseAt(rows, j);
        NotBefore(leaves, rows, n - j, n - i);
      } else {
        NotBefore(leaves, rows, i, j);
      }
    }
  }

  lemma NotBefore(leaves: iset<Value>, rows: seq<RowKey>, i: nat, j: nat)
    requires LeavesOk(leaves) && Within(rows, KeysOver(leaves)) && Sorted(KeyLess, rows) && i <= j < |rows|
    ensures !PairBefore(rows[j], rows[i])
  {
    hide LeavesOk, Tree, PairBefore;
    assert rows[i] in KeysOver(leaves) && rows[j] in KeysOver(leaves);
    PairOrder(leaves, rows[j], rows[i]);
    KeysTotal(leaves, rows[i], rows[i], rows[i]);
  }

  /** Filter, direction and page give that answer. */
  lemma ViewPageOf(leaves: iset<Value>, q: Query, keys: seq<RowKey>, rows: seq<RowKey>, delivered: seq<RowKey>,
                   offset: nat)
    requires LeavesOk(leaves) && BoundOver(leaves, LowBound(q)) && BoundOver(leaves, HighBound(q))
    requires Within(keys, KeysOver(leaves)) && Sorted(KeyLess, keys) && multiset(rows) == multiset(keys)
    requires var wanted := Filter(Wanted(q), keys);
             && delivered == Page(Directed(q.descending, wanted), q.skip, q.limit)
             && offset == Count(Skipped(q), keys) + Min(q.skip, |wanted|)
    ensures ViewPage(q, rows, delivered, offset, |keys|)
  {
    hide LeavesOk, Tree, Sorted, Asked, Passed, InRange, BeforeRange, KeyLess, Filter, Reverse, CountIf, Both, AheadOf,
         NotBehind, AheadBy, InOrder, BoundOver;
    KeysFiltered(leaves, q, keys);
    KeyOrder(leaves);
    FilterSorted(KeyLess, KeysOver(leaves), AskedBy(q), keys);
    ListInOrder(leaves, q.descending, Filter(AskedBy(q), keys));
    CountIfFilter(AskedBy(q), keys);
    CountIfFilter(PassedBy(q), keys);
    CountIfPermuted(AskedBy(q), rows, keys);
    CountIfPermuted(PassedBy(q), rows, keys);
    PageSize(Directed(q.descending, Filter(AskedBy(q), keys)), q.skip, q.limit);
    forall k | 0 <= k < |delivered| ensures Asked(q, delivered[k]) && HasPlace(q, rows, delivered[k], q.skip + k) {
      var r := delivered[k];
      PageRank(AskedBy(q), AheadBy(q.descending), keys, q.descending, q.skip, q.limit, k);
      CountIfPermuted(Both(AskedBy(q), AheadOf(AheadBy(q.descending), r)), rows, keys);
      CountIfPermuted(Both(AskedBy(q), NotBehind(AheadBy(q.descending), r)), rows, keys);
    }
    assert |multiset(rows)| == |rows| && |multiset(keys)| == |keys|;
  }

  lemma KeysFiltered(leaves: iset<Value>, q: Query, keys: seq<RowKey>)
    requires LeavesOk(leaves) && BoundOver(leaves, LowBound(q)) && BoundOver(leaves, HighBound(q))
    requires Within(keys, KeysOver(leaves))
    ensures Filter(Wanted(q), keys) == Filter(AskedBy(q), keys)
    ensures Filter(Skipped(q), keys) == Filter(PassedBy(q), keys)
  {
    hide LeavesOk, Tree, Asked, Passed, InRange, BeforeRange, BoundOver;
    forall r | r in keys ensures (Wanted(q)(r) <==> AskedBy(q)(r)) && (Skipped(q)(r) <==> PassedBy(q)(r)) {
      var i :| 0 <= i < |keys| && keys[i] == r;
      assert keys[i] in KeysOver(leaves);
      RangeMeans(leaves, q, r);
    }
    SameFilter(Wanted(q), AskedBy(q), keys);
    SameFilter(Skipped(q), PassedBy(q), keys);
  }
}
