/** The two document queries, with no writer running: the ranged one over the shards and the
    multi-key one over the array of all documents. */
module AllDocs {
  import opened Base
  import opened CStrings
  import opened Merging
  import opened Pages
  import opened Shards
  import opened Store
  import opened Listings
  import opened Windows
  import opened DocSearch

  datatype Options = Options(key: string, startKey: string, endKey: string, inclusiveEnd: bool, descending: bool,
                             skip: nat, limit: nat)

  // ---- What a range means -----------------------------------------------------------------

  datatype Bound = Unbounded | At(key: string, inclusive: bool)

  /** The ids a query asks for, from low to high whatever its direction. */
  datatype Range = Range(lo: Bound, hi: Bound)

  function BoundOf(key: string, inclusive: bool): Bound {
    if key == "" then Unbounded else At(key, inclusive)
  }

  /** A single key is its own range; otherwise a descending query starts from the high end, and
      only the end key can be excluded. */
  function RangeOf(o: Options): Range {
    if o.key != "" then Range(At(o.key, true), At(o.key, true))
    else if o.descending then Range(BoundOf(o.endKey, o.inclusiveEnd), BoundOf(o.startKey, true))
    else Range(BoundOf(o.startKey, true), BoundOf(o.endKey, o.inclusiveEnd))
  }

  predicate PassesBound(side: Side, b: Bound, id: string) {
    b.Unbounded? || Passes(side, b.inclusive, Strcmp(Target(b.key), id))
  }

  predicate InRange(r: Range, id: string) {
    PassesBound(Below, r.lo, id) && PassesBound(Above, r.hi, id)
  }

  /** The rows that come before the range in the direction of the query. */
  predicate BeforeRange(descending: bool, r: Range, id: string) {
    if descending then !PassesBound(Above, r.hi, id) else !PassesBound(Below, r.lo, id)
  }

  function Wanted(o: Options): Doc -> bool {
    (d: Doc) => InRange(RangeOf(o), d.id)
  }

  function Skipped(o: Options): Doc -> bool {
    (d: Doc) => BeforeRange(o.descending, RangeOf(o), d.id)
  }

  // ---- What a query promises, said of its own fields ---------------------------------------

  /** a comes before b in the direction of the query. */
  predicate Ahead(descending: bool, a: string, b: string) {
    if descending then Precedes(b, a) else Precedes(a, b)
  }

  /** With a single key the document of that id. Otherwise every id from the start key on, that key included, up
      to the end key in the direction of the query, that key included if asked; an empty key is no bound. */
  predicate Asked(o: Options, id: string) {
    if o.key != "" then id == Target(o.key)
    else
      && (o.startKey == "" || id == Target(o.startKey) || Ahead(o.descending, Target(o.startKey), id))
      && (o.endKey == "" || (id == Target(o.endKey) && o.inclusiveEnd) || Ahead(o.descending, id, Target(o.endKey)))
  }

  /** The ids that come before the first one asked for. */
  predicate Passed(o: Options, id: string) {
    if o.key != "" then Ahead(o.descending, id, Target(o.key))
    else o.startKey != "" && Ahead(o.descending, id, Target(o.startKey))
  }

  ghost function StoredDocs(shards: seq<seq<Doc>>): set<Doc> {
    set i, j | 0 <= i < |shards| && 0 <= j < |shards[i]| :: shards[i][j]
  }

  ghost function AskedDocs(o: Options, docs: set<Doc>): set<Doc> {
    set d | d in docs && Asked(o, d.id)
  }

  ghost function DocsAhead(o: Options, docs: set<Doc>, d: Doc): set<Doc> {
    set e | e in docs && Ahead(o.descending, e.id, d.id)
  }

  ghost function PassedDocs(o: Options, docs: set<Doc>): set<Doc> {
    set d | d in docs && Passed(o, d.id)
  }

  /** The answer over the stored documents: as many rows as there are behind `skip`, up to `limit`; row k is the
      document asked for that has exactly skip + k of those asked for ahead of it; and the offset counts the
      documents passed over. */
  ghost predicate PageRight(o: Options, docs: set<Doc>, results: seq<Doc>, offset: nat, totalDocs: nat) {
    var asked := AskedDocs(o, docs);
    && |results| == Min(o.limit, Max(0, |asked| - o.skip))
    && (forall k | 0 <= k < |results| ::
          results[k] in asked && |DocsAhead(o, asked, results[k])| == o.skip + k)
    && offset == |PassedDocs(o, docs)| + Min(o.skip, |asked|)
    && totalDocs == |docs|
  }

  lemma BoundMeans(key: string, id: string)
    ensures Strcmp(key, id) < 0 <==> Precedes(key, id)
    ensures Strcmp(key, id) > 0 <==> Precedes(id, key)
    ensures Strcmp(key, id) == 0 <==> id == key
  {
    StrcmpPrecedes(key, id);
    StrcmpPrecedes(id, key);
    StrcmpAntisymmetric(key, id);
    StrcmpZero(key, id);
  }

  lemma WantedIsAsked(o: Options, id: string)
    ensures InRange(RangeOf(o), id) <==> Asked(o, id)
    ensures BeforeRange(o.descending, RangeOf(o), id) <==> Passed(o, id)
  {
    hide Precedes, Strcmp, Target;
    BoundMeans(Target(o.key), id);
    BoundMeans(Target(o.startKey), id);
    BoundMeans(Target(o.endKey), id);
  }

  lemma {:induction false} FilterStrict(p: Doc -> bool, s: seq<Doc>)
    requires StrictlySorted(s)
    ensures StrictlySorted(Filter(p, s))
  {
    if s != [] {
      TailSorted(s);
      FilterStrict(p, s[1..]);
      if p(s[0]) {
        forall y | y in Filter(p, s[1..]) ensures StrLess(s[0].id, y.id) {
          FilterMembers(p, s[1..], y);
          HeadLeast(s, y);
          var k :| 0 <= k < |s[1..]| && s[1..][k] == y;
          assert s[k + 1] == y;
        }
        ConsSorted(s[0], Filter(p, s[1..]));
      }
    }
  }

  /** A strictly sorted list has no document twice. */
  lemma {:induction false} StrictSize(s: seq<Doc>)
    requires StrictlySorted(s)
    ensures |set d | d in s| == |s|
  {
    if s != [] {
      TailSorted(s);
      StrictSize(s[1..]);
      if s[0] in s[1..] {
        var k :| 0 <= k < |s[1..]| && s[1..][k] == s[0];
        assert StrLess(s[0].id, s[k + 1].id);
        StrcmpZero(s[0].id, s[0].id);
      }
      assert (set d | d in s) == (set d | d in s[1..]) + {s[0]};
    }
  }

  lemma CountStrict(p: Doc -> bool, s: seq<Doc>)
    requires StrictlySorted(s)
    ensures |set d | d in s && p(d)| == |Filter(p, s)|
  {
    FilterStrict(p, s);
    StrictSize(Filter(p, s));
    forall d ensures d in Filter(p, s) <==> d in s && p(d) {
      FilterMembers(p, s, d);
    }
    assert (set d | d in s && p(d)) == set d | d in Filter(p, s);
  }

  /** The place of a document in a strictly sorted list, from either end. */
  lemma PlaceInList(s: seq<Doc>, i: nat)
    requires StrictlySorted(s) && i < |s|
    ensures |set d | d in s && Precedes(d.id, s[i].id)| == i
    ensures |set d | d in s && Precedes(s[i].id, d.id)| == |s| - 1 - i
  {
    forall j | 0 <= j < |s|
      ensures Precedes(s[j].id, s[i].id) <==> j < i
      ensures Precedes(s[i].id, s[j].id) <==> i < j
    {
      StrcmpPrecedes(s[j].id, s[i].id);
      StrcmpPrecedes(s[i].id, s[j].id);
      StrcmpAntisymmetric(s[i].id, s[j].id);
      StrcmpZero(s[i].id, s[j].id);
    }
    hide Precedes;
    var before, behind := s[..i], s[i + 1..];
    StrictSize(before);
    StrictSize(behind);
    assert (set d | d in s && Precedes(d.id, s[i].id)) == set d | d in before;
    assert (set d | d in s && Precedes(s[i].id, d.id)) == set d | d in behind;
  }

  /** Filter, direction and page give that answer. */
  lemma PageMeans(o: Options, all: seq<Doc>, results: seq<Doc>, offset: nat)
    requires StrictlySorted(all)
    requires var wanted := Filter(Wanted(o), all);
             && results == Page(Directed(o.descending, wanted), o.skip, o.limit)
             && offset == Count(Skipped(o), all) + Min(o.skip, |wanted|)
    ensures PageRight(o, (set d | d in all), results, offset, |all|)
  {
    hide Filter, StrictlySorted, Ahead, Asked, Passed, InRange, BeforeRange, Reverse;
    var docs := set d | d in all;
    var wanted := Filter(Wanted(o), all);
    var asked := AskedDocs(o, docs);
    forall d: Doc ensures Wanted(o)(d) <==> Asked(o, d.id) {
      WantedIsAsked(o, d.id);
    }
    forall d: Doc ensures Skipped(o)(d) <==> Passed(o, d.id) {
      WantedIsAsked(o, d.id);
    }
    StrictSize(all);
    CountStrict(Wanted(o), all);
    CountStrict(Skipped(o), all);
    FilterStrict(Wanted(o), all);
    assert asked == set d | d in all && Wanted(o)(d);
    assert PassedDocs(o, docs) == set d | d in all && Skipped(o)(d);
    forall k | 0 <= k < |results| ensures results[k] in asked && |DocsAhead(o, asked, results[k])| == o.skip + k {
      PageRow(o, all, wanted, results, k);
    }
  }

  lemma PageRow(o: Options, all: seq<Doc>, wanted: seq<Doc>, results: seq<Doc>, k: nat)
    requires StrictlySorted(wanted) && wanted == Filter(Wanted(o), all)
    requires results == Page(Directed(o.descending, wanted), o.skip, o.limit) && k < |results|
    ensures var asked := AskedDocs(o, (set d | d in all));
            results[k] in asked && |DocsAhead(o, asked, results[k])| == o.skip + k
  {
    hide Filter, StrictlySorted, Precedes, Asked, InRange, Reverse;
    var asked := AskedDocs(o, (set d | d in all));
    forall d: Doc ensures d in asked <==> d in wanted {
      WantedIsAsked(o, d.id);
      FilterMembers(Wanted(o), all, d);
    }
    var i := if o.descending then |wanted| - 1 - (o.skip + k) else o.skip + k;
    if o.descending {
      ReverseAt(wanted, o.skip + k);
    }
    assert results[k] == wanted[i];
    PlaceInList(wanted, i);
    if o.descending {
      assert DocsAhead(o, asked, wanted[i]) == set d | d in wanted && Precedes(wanted[i].id, d.id);
    } else {
      assert DocsAhead(o, asked, wanted[i]) == set d | d in wanted && Precedes(d.id, wanted[i].id);
    }
  }

  /** There is no other: the promise fixes every row of the answer. */
  lemma PageOnly(o: Options, all: seq<Doc>, results: seq<Doc>, offset: nat, totalDocs: nat)
    requires StrictlySorted(all) && PageRight(o, (set d | d in all), results, offset, totalDocs)
    ensures results == Page(Directed(o.descending, Filter(Wanted(o), all)), o.skip, o.limit)
  {
    hide Filter, StrictlySorted, Precedes, Asked, InRange, Reverse, Passed;
    var wanted := Filter(Wanted(o), all);
    var asked := AskedDocs(o, (set d | d in all));
    forall d: Doc ensures Wanted(o)(d) <==> Asked(o, d.id) {
      WantedIsAsked(o, d.id);
    }
    CountStrict(Wanted(o), all);
    assert asked == set d | d in all && Wanted(o)(d);
    FilterStrict(Wanted(o), all);
    var page := Page(Directed(o.descending, wanted), o.skip, o.limit);
    assert |results| == |page|;
    forall k | 0 <= k < |results| ensures results[k] == page[k] {
      FilterMembers(Wanted(o), all, results[k]);
      RowOnly(o, all, wanted, results[k], o.skip + k);
    }
  }

  lemma RowOnly(o: Options, all: seq<Doc>, wanted: seq<Doc>, d: Doc, place: nat)
    requires StrictlySorted(wanted) && wanted == Filter(Wanted(o), all) && place < |wanted|
    requires d in wanted && |DocsAhead(o, AskedDocs(o, (set d | d in all)), d)| == place
    ensures Directed(o.descending, wanted)[place] == d
  {
    hide Filter, StrictlySorted, Precedes, Asked, InRange, Reverse;
    var asked := AskedDocs(o, (set d | d in all));
    forall d: Doc ensures d in asked <==> d in wanted {
      WantedIsAsked(o, d.id);
      FilterMembers(Wanted(o), all, d);
    }
    var i :| 0 <= i < |wanted| && wanted[i] == d;
    PlaceInList(wanted, i);
    if o.descending {
      assert DocsAhead(o, asked, d) == set e | e in wanted && Precedes(d.id, e.id);
      ReverseAt(wanted, place);
    } else {
      assert DocsAhead(o, asked, d) == set e | e in wanted && Precedes(e.id, d.id);
    }
  }

  /** A range with both ends included, asked for the other way round: the answer is the same, reversed. */
  lemma ReversedQuery(o: Options, all: seq<Doc>, results: seq<Doc>, offset: nat, results': seq<Doc>, offset': nat)
    requires StrictlySorted(all) && o.key == "" && o.inclusiveEnd && o.skip == 0 && o.limit >= |all|
    requires PageRight(o, (set d | d in all), results, offset, |all|)
    requires var turned := o.(startKey := o.endKey, endKey := o.startKey, descending := !o.descending);
             PageRight(turned, (set d | d in all), results', offset', |all|)
    ensures results' == Reverse(results)
  {
    hide PageRight, StrictlySorted, InRange, Filter, Reverse;
    var turned := o.(startKey := o.endKey, endKey := o.startKey, descending := !o.descending);
    PageOnly(o, all, results, offset, |all|);
    PageOnly(turned, all, results', offset', |all|);
    forall d: Doc ensures Wanted(turned)(d) <==> Wanted(o)(d) {
      WantedIsAsked(o, d.id);
      WantedIsAsked(turned, d.id);
    }
    SameFilter(Wanted(o), Wanted(turned), all);
    FilterShorter(Wanted(o), all);
    PageIsSlice(Directed(o.descending, Filter(Wanted(o), all)), 0, o.limit);
    PageIsSlice(Directed(turned.descending, Filter(Wanted(o), all)), 0, o.limit);
    ReverseTwice(Filter(Wanted(o), all));
  }

  // ---- One shard --------------------------------------------------------------------------

  function Ids(docs: seq<Doc>): (ids: seq<string>)
    ensures |ids| == |docs|
  {
    seq(|docs|, i requires 0 <= i < |docs| => docs[i].id)
  }

  /** The search reads a character behind an empty id only for a lone quote. */
  ghost predicate SafeKey(key: string, docs: seq<Doc>) {
    |key| < TWO64 && (key == "\"" ==> forall i | 0 <= i < |docs| :: docs[i].id != "")
  }

  ghost predicate SafeOptions(o: Options, docs: seq<Doc>) {
    SafeKey(o.key, docs) && SafeKey(o.startKey, docs) && SafeKey(o.endKey, docs)
  }

  lemma IdsAreSorted(docs: seq<Doc>)
    requires StrictlySorted(docs)
    ensures IdsSorted(false, Ids(docs))
  {
  }

  /** Where a present bound cuts the shard. */
  method FindCut(side: Side, docs: seq<Doc>, key: string, inclusive: bool) returns (cut: nat)
    requires |docs| < TWO63 && StrictlySorted(docs) && key != "" && SafeKey(key, docs)
    ensures cut <= |docs|
    ensures forall i | 0 <= i < |docs| ::
              PassesBound(side, At(key, inclusive), docs[i].id) <==> (if side == Below then i >= cut else i < cut)
  {
    IdsAreSorted(docs);
    var ids := Ids(docs);
    var index := FindDocument(ids, key, false);
    DiffsDescend(false, key, ids);
    ghost var diffs := Diffs(false, key, ids);
    CutSeparates(side, diffs, index, inclusive);
    CutExact(side, diffs, index, inclusive);
    forall i | 0 <= i < |docs| ensures diffs[i] == Strcmp(Target(key), docs[i].id) {
    }
    if Missed(index) {
      cut := Complement(index);
    } else {
      cut := index;
      if side == Below {
        if !inclusive {
          cut := cut + 1;
        }
      } else if inclusive {
        cut := cut + 1;
      }
    }
  }

  /** The window of a single key: its document, or the empty place where it would be. */
  method FindKey(docs: seq<Doc>, key: string) returns (startIndex: nat, endIndex: nat)
    requires |docs| < TWO63 && StrictlySorted(docs) && key != "" && SafeKey(key, docs)
    ensures startIndex <= endIndex <= |docs|
    ensures forall i | 0 <= i < |docs| :: PassesBound(Below, At(key, true), docs[i].id) <==> i >= startIndex
    ensures forall i | 0 <= i < |docs| :: PassesBound(Above, At(key, true), docs[i].id) <==> i < endIndex
  {
    IdsAreSorted(docs);
    startIndex := FindDocument(Ids(docs), key, false);
    DiffsDescend(false, key, Ids(docs));
    ghost var diffs := Diffs(false, key, Ids(docs));
    CutExact(Below, diffs, startIndex, true);
    CutExact(Above, diffs, startIndex, true);
    forall i | 0 <= i < |docs| ensures diffs[i] == Strcmp(Target(key), docs[i].id) {
    }
    if Missed(startIndex) {
      startIndex := Complement(startIndex);
      endIndex := startIndex;
    } else {
      endIndex := startIndex + 1;
    }
  }

  /** The constructor of DocumentCollectionResults. */
  method RangeWindow(docs: seq<Doc>, limit: nat, o: Options) returns (w: Window)
    requires |docs| < TWO63 && StrictlySorted(docs) && SafeOptions(o, docs)
    ensures w.Valid() && w.size == |docs| && w.limit == Min(limit, |docs|) && w.descending == o.descending
    ensures forall i | 0 <= i < |docs| :: w.start <= i < w.end <==> InRange(RangeOf(o), docs[i].id)
    ensures w.Offset() == Count(Skipped(o), docs)
  {
    var startIndex, endIndex := 0, |docs|;
    if o.key != "" {
      startIndex, endIndex := FindKey(docs, o.key);
    } else {
      var startKey, endKey := o.startKey, o.endKey;
      if o.descending {
        startKey, endKey := endKey, startKey;
      }
      if startKey != "" {
        var inclusiveStart := if o.descending then o.inclusiveEnd else true;
        startIndex := FindCut(Below, docs, startKey, inclusiveStart);
      }
      if endKey != "" {
        var inclusiveEnd := if !o.descending then o.inclusiveEnd else true;
        endIndex := FindCut(Above, docs, endKey, inclusiveEnd);
      }
    }
    w := MakeWindow(startIndex, endIndex, limit, |docs|, o.descending);
    var r := RangeOf(o);
    assert forall i | 0 <= i < |docs| :: PassesBound(Below, r.lo, docs[i].id) <==> i >= startIndex;
    assert forall i | 0 <= i < |docs| :: PassesBound(Above, r.hi, docs[i].id) <==> i < endIndex;
    if o.descending {
      FilterIsWindow(Skipped(o), docs, endIndex, |docs|);
    } else {
      FilterIsWindow(Skipped(o), docs, 0, startIndex);
    }
  }

  // ---- All shards -------------------------------------------------------------------------

  ghost function StoreDocs(shards: seq<seq<Doc>>): iset<Doc> {
    iset d | InStore(shards, d)
  }

  /** The documents of one store are totally ordered by id: no two share one. */
  lemma StoreOrder(env: Env, shards: seq<seq<Doc>>)
    requires WellPlaced(env, shards)
    ensures TotalOrder(DocLess, StoreDocs(shards))
    ensures AllWithin(shards, StoreDocs(shards)) && AllSorted(DocLess, shards)
  {
    WellPlacedParts(env, shards);
    forall a, b | a in StoreDocs(shards) && b in StoreDocs(shards) && !DocLess(a, b) && !DocLess(b, a) ensures a == b {
      SameIdSameDoc(env, shards, a, b);
    }
    forall a, b ensures DocLess(a, b) ==> !DocLess(b, a) {
      StrcmpAntisymmetric(a.id, b.id);
    }
    forall a, b, c | !DocLess(a, b) && !DocLess(b, c) ensures !DocLess(a, c) {
      StrcmpAntisymmetric(a.id, b.id);
      StrcmpAntisymmetric(b.id, c.id);
      StrcmpAntisymmetric(a.id, c.id);
      StrcmpTransitive(c.id, b.id, a.id);
    }
    forall i, j, k | 0 <= i < |shards| && 0 <= j < k < |shards[i]| ensures !DocLess(shards[i][k], shards[i][j]) {
      StrcmpAntisymmetric(shards[i][j].id, shards[i][k].id);
    }
  }

  lemma SameIdSameDoc(env: Env, shards: seq<seq<Doc>>, a: Doc, b: Doc)
    requires Placed(env, |shards|, shards) && a in StoreDocs(shards) && b in StoreDocs(shards)
    requires !DocLess(a, b) && !DocLess(b, a)
    ensures a == b
  {
    StrcmpAntisymmetric(a.id, b.id);
    StrcmpZero(a.id, b.id);
    var i :| 0 <= i < |shards| && a in shards[i];
    var j :| 0 <= j < |shards| && b in shards[j];
    assert ShardOf(env, |shards|, a.id) == i && ShardOf(env, |shards|, b.id) == j;
    var x :| 0 <= x < |shards[i]| && shards[i][x] == a;
    var y :| 0 <= y < |shards[i]| && shards[i][y] == b;
    StrcmpZero(a.id, b.id);
  }

  /** The shard window keeps enough rows for the page. */
  lemma WindowSuffices(docs: seq<Doc>, o: Options, w: Window)
    requires w.Valid() && w.size == |docs| && w.descending == o.descending
    requires w.limit == Min(o.skip + Min(o.limit, |docs|), |docs|)
    requires forall i | 0 <= i < |docs| :: w.start <= i < w.end <==> InRange(RangeOf(o), docs[i].id)
    ensures docs[w.start..w.end] == Filter(Wanted(o), docs)
    ensures KeepsLeading(o.descending, Filter(Wanted(o), docs), w.Slice(docs), o.skip + o.limit)
  {
    FilterIsWindow(Wanted(o), docs, w.start, w.end);
    SliceKeepsLeading(w, docs, o.skip + o.limit);
  }

  lemma SliceGood(dom: iset<Doc>, docs: seq<Doc>, w: Window)
    requires w.Valid() && w.size == |docs| && Within(docs, dom) && Sorted(DocLess, docs)
    ensures Within(w.Slice(docs), dom) && Sorted(DocLess, w.Slice(docs)) && |w.Slice(docs)| <= |docs|
  {
    w.WindowBounds();
  }

  /** What the loop over the shards has collected after some of them. */
  ghost predicate Collected(dom: iset<Doc>, shards: seq<seq<Doc>>, o: Options, cuts: seq<seq<Doc>>,
                            results: seq<Doc>, offset: nat, totalDocs: nat) {
    && |cuts| == |shards|
    && AllWithin(cuts, dom) && AllSorted(DocLess, cuts)
    && (forall i | 0 <= i < |cuts| ::
         KeepsLeading(o.descending, Filter(Wanted(o), shards[i]), cuts[i], o.skip + o.limit))
    && results == MergeAll(DocLess, cuts)
    && offset == |Rows(FilterEach(Skipped(o), shards))|
    && totalDocs == |Rows(shards)|
    && |results| <= totalDocs
  }

  lemma RowsMore<T>(parts: seq<seq<T>>, part: seq<T>)
    ensures |Rows(parts + [part])| == |Rows(parts)| + |part|
  {
    assert (parts + [part])[..|parts|] == parts;
  }

  lemma FilterEachMore<T>(p: T -> bool, parts: seq<seq<T>>, part: seq<T>)
    ensures FilterEach(p, parts + [part]) == FilterEach(p, parts) + [Filter(p, part)]
  {
  }

  lemma MergeAllMore<T>(lt: (T, T) -> bool, parts: seq<seq<T>>, part: seq<T>)
    ensures MergeAll(lt, parts + [part]) == Merge(lt, MergeAll(lt, parts), part)
  {
    assert (parts + [part])[..|parts|] == parts;
  }

  lemma CollectedMore(dom: iset<Doc>, shards: seq<seq<Doc>>, o: Options, cuts: seq<seq<Doc>>, results: seq<Doc>,
                      offset: nat, totalDocs: nat, docs: seq<Doc>, cut: seq<Doc>)
    requires Collected(dom, shards, o, cuts, results, offset, totalDocs)
    requires Within(cut, dom) && Sorted(DocLess, cut) && |cut| <= |docs|
    requires KeepsLeading(o.descending, Filter(Wanted(o), docs), cut, o.skip + o.limit)
    ensures Collected(dom, shards + [docs], o, cuts + [cut], Merge(DocLess, results, cut),
                      offset + Count(Skipped(o), docs), totalDocs + |docs|)
  {
    hide KeepsLeading, Filter, Rows, MergeAll, FilterEach, Merge;
    MergeAllMore(DocLess, cuts, cut);
    RowsMore(shards, docs);
    FilterEachMore(Skipped(o), shards, docs);
    RowsMore(FilterEach(Skipped(o), shards), Filter(Skipped(o), docs));
  }

  lemma PageIsSlice<T>(s: seq<T>, skip: nat, limit: nat)
    ensures skip >= |s| ==> Page(s, skip, limit) == []
    ensures skip < |s| ==> Page(s, skip, limit) == s[skip..Min(skip + limit, |s|)]
    ensures skip == 0 && limit >= |s| ==> Page(s, skip, limit) == s
  {
    if skip < |s| {
      var rest := s[skip..];
      assert limit <= |rest| ==> rest[..limit] == s[skip..skip + limit];
      assert limit > |rest| ==> rest == s[skip..|s|];
    }
  }

  /** The end of the query: reversal, then the page and its share of the offset. */
  method CutPage(collected: seq<Doc>, o: Options) returns (results: seq<Doc>, more: nat)
    requires o.skip + |collected| < TWO64
    ensures results == Page(Directed(o.descending, collected), o.skip, o.limit)
    ensures more == Min(o.skip, |collected|)
  {
    hide Page, Reverse;
    results := collected;
    if o.descending {
      results := Reverse(results);
    }
    PageIsSlice(results, o.skip, o.limit);
    more := 0;
    var skip := o.skip;
    var limit := Min(o.limit, |results|);
    if (skip > 0 && skip < |results|) || limit < |results| {
      var startIndex := Min(skip, |results|);
      var endIndex := Min(Wrap64(skip + limit), |results|);
      results := results[startIndex..endIndex];
      more := startIndex;
    } else if skip >= |results| {
      more := |results|;
      results := [];
    }
  }

  /** The ranged query: each shard cut to its leading rows, merged, reversed if asked, paged. It equals
      the page of the one sorted list of all documents, and the offset counts what precedes it. */
  method GetDocuments(env: Env, shards: seq<seq<Doc>>, o: Options)
    returns (results: seq<Doc>, offset: nat, totalDocs: nat)
    requires WellPlaced(env, shards)
    requires o.skip + |MergeAll(DocLess, shards)| < TWO64 && forall i | 0 <= i < |shards| :: |shards[i]| < TWO63
    requires forall i | 0 <= i < |shards| :: SafeOptions(o, shards[i]) && o.skip + |shards[i]| < TWO64
    ensures var all := MergeAll(DocLess, shards);
            var wanted := Filter(Wanted(o), all);
            && results == Page(Directed(o.descending, wanted), o.skip, o.limit)
            && offset == Count(Skipped(o), all) + Min(o.skip, |wanted|)
            && totalDocs == |all|
    ensures PageRight(o, StoredDocs(shards), results, offset, totalDocs)
  {
    hide Page, Directed, Filter, MergeAll, Collected, SafeOptions, TotalOrder, Find, PageRight, StoredDocs;
    results, offset, totalDocs := [], 0, 0;
    ghost var cuts: seq<seq<Doc>> := [];
    ghost var dom := StoreDocs(shards);
    StoreOrder(env, shards);
    CollectedNone(dom, o);
    for i := 0 to |shards|
      invariant Collected(dom, shards[..i], o, cuts, results, offset, totalDocs)
    {
      assert shards[..i + 1] == shards[..i] + [shards[i]];
      ghost var cut;
      results, offset, totalDocs, cut := AddShard(dom, shards[..i], shards[i], o, cuts, results, offset, totalDocs);
      cuts := cuts + [cut];
    }
    assert shards[..|shards|] == shards;
    PipelinePage(dom, shards, o, cuts, results, offset, totalDocs);
    PipelineOffset(dom, shards, o, cuts, results, offset, totalDocs);
    var more;
    results, more := CutPage(results, o);
    offset := offset + more;
    ListedDocs(env, shards);
    PageMeans(o, MergeAll(DocLess, shards), results, offset);
  }

  lemma {:induction false} TotalSnoc(shards: seq<seq<Doc>>, docs: seq<Doc>)
    ensures DocTotal(shards + [docs]) == DocTotal(shards) + |docs|
  {
    if shards != [] {
      TotalSnoc(shards[1..], docs);
      assert (shards + [docs])[1..] == shards[1..] + [docs];
    }
  }

  lemma {:induction false} TotalListed(shards: seq<seq<Doc>>)
    ensures DocTotal(shards) == |MergeAll(DocLess, shards)|
    decreases |shards|
  {
    if shards != [] {
      var n := |shards| - 1;
      TotalListed(shards[..n]);
      TotalSnoc(shards[..n], shards[n]);
      assert shards == shards[..n] + [shards[n]];
    }
  }

  /** The total the document counter follows is the number of stored documents. */
  lemma TotalIsNumber(env: Env, shards: seq<seq<Doc>>)
    requires WellPlaced(env, shards)
    ensures DocTotal(shards) == |StoredDocs(shards)|
  {
    TotalListed(shards);
    ListedDocs(env, shards);
    StrictSize(MergeAll(DocLess, shards));
  }

  lemma ListedDocs(env: Env, shards: seq<seq<Doc>>)
    requires WellPlaced(env, shards)
    ensures StrictlySorted(MergeAll(DocLess, shards))
    ensures StoredDocs(shards) == set d | d in MergeAll(DocLess, shards)
  {
    hide MergeAll;
    WellPlacedParts(env, shards);
    MergeAllListing(env, |shards|, shards);
  }

  /** One shard: its window goes behind the results so far and is merged in place. */
  method AddShard(ghost dom: iset<Doc>, ghost shards: seq<seq<Doc>>, docs: seq<Doc>, o: Options,
                  ghost cuts: seq<seq<Doc>>, results0: seq<Doc>, offset0: nat, totalDocs0: nat)
    returns (results: seq<Doc>, offset: nat, totalDocs: nat, ghost cut: seq<Doc>)
    requires |docs| < TWO63 && StrictlySorted(docs) && SafeOptions(o, docs) && o.skip + |docs| < TWO64
    requires Within(docs, dom) && Sorted(DocLess, docs)
    requires Collected(dom, shards, o, cuts, results0, offset0, totalDocs0)
    ensures Collected(dom, shards + [docs], o, cuts + [cut], results, offset, totalDocs)
  {
    hide Collected, KeepsLeading, Filter, InRange, RangeOf, Merge, SafeOptions, StrictlySorted, Sorted, Within;
    var w := RangeWindow(docs, Wrap64(o.skip + Min(o.limit, |docs|)), o);
    WindowSuffices(docs, o, w);
    SliceGood(dom, docs, w);
    cut := w.Slice(docs);
    CollectedMore(dom, shards, o, cuts, results0, offset0, totalDocs0, docs, cut);
    results := Merge(DocLess, results0, w.Slice(docs));
    offset := offset0 + w.Offset();
    totalDocs := totalDocs0 + w.size;
  }

  lemma CollectedNone(dom: iset<Doc>, o: Options)
    ensures Collected(dom, [], o, [], [], 0, 0)
  {
  }

  lemma {:induction false} PipelinePage(dom: iset<Doc>, shards: seq<seq<Doc>>, o: Options, cuts: seq<seq<Doc>>,
                                        results: seq<Doc>,
                     offset: nat, totalDocs: nat)
    requires TotalOrder(DocLess, dom) && AllWithin(shards, dom) && AllSorted(DocLess, shards)
    requires Collected(dom, shards, o, cuts, results, offset, totalDocs)
    ensures var wanted := Filter(Wanted(o), MergeAll(DocLess, shards));
            && Page(Directed(o.descending, results), o.skip, o.limit)
               == Page(Directed(o.descending, wanted), o.skip, o.limit)
            && Min(o.skip, |results|) == Min(o.skip, |wanted|)
  {
    hide Page, Directed, Filter, MergeAll, KeepsLeading, Rows, WeakOrder, Sorted, Within;
    MergeAllGood(DocLess, dom, shards);
    FilterOfMerge(DocLess, dom, Wanted(o), shards, MergeAll(DocLess, shards));
    TruncatedPage(DocLess, dom, o.descending, FilterEach(Wanted(o), shards), cuts, o.skip, o.limit);
  }

  lemma {:induction false} PipelineOffset(dom: iset<Doc>, shards: seq<seq<Doc>>, o: Options,
                                          cuts: seq<seq<Doc>>, results: seq<Doc>,
                       offset: nat, totalDocs: nat)
    requires TotalOrder(DocLess, dom) && AllWithin(shards, dom) && AllSorted(DocLess, shards)
    requires Collected(dom, shards, o, cuts, results, offset, totalDocs)
    ensures var all := MergeAll(DocLess, shards);
            offset == Count(Skipped(o), all) && totalDocs == |all| && |results| <= |all|
  {
    hide Filter, MergeAll, KeepsLeading, Rows, WeakOrder, Sorted, Within;
    var all := MergeAll(DocLess, shards);
    MergeAllGood(DocLess, dom, shards);
    CountRows(Skipped(o), all, shards);
    assert |multiset(all)| == |all|;
  }

  /** The list the query is compared with is the sorted list of the store: strictly sorted by id,
      with the document of every id. */
  lemma AllDocumentsListed(env: Env, shards: seq<seq<Doc>>, all: seq<Doc>)
    requires WellPlaced(env, shards)
    requires Sorted(DocLess, all) && multiset(all) == Rows(shards)
    ensures all == MergeAll(DocLess, shards)
  {
    var dom := StoreDocs(shards);
    StoreOrder(env, shards);
    MergeAllGood(DocLess, dom, shards);
    forall i | 0 <= i < |all| ensures all[i] in dom {
      assert all[i] in multiset(all);
      assert all[i] in multiset(MergeAll(DocLess, shards));
      var j :| 0 <= j < |MergeAll(DocLess, shards)| && MergeAll(DocLess, shards)[j] == all[i];
    }
    SortedUnique(DocLess, dom, all, MergeAll(DocLess, shards));
  }

  // ---- Many keys --------------------------------------------------------------------------

  /** What a key of the request stands for: the document with that id, or null. */
  function Answer(docs: seq<Doc>, key: string): Option<Doc> {
    if key == "" then None else Find(docs, Target(key))
  }

  function Answers(docs: seq<Doc>, keys: seq<string>): (a: seq<Option<Doc>>)
    ensures |a| == |keys|
  {
    seq(|keys|, k requires 0 <= k < |keys| => Answer(docs, keys[k]))
  }

  /** As many rows as there are keys behind `skip`, up to `limit`; row k answers the key with that place, from the
      last one if the query is descending, with the document of its id if there is one. */
  ghost predicate AnswersRight(docs: seq<Doc>, keys: seq<string>, descending: bool, skip: nat, limit: nat,
                               results: seq<Option<Doc>>) {
    && |results| == Min(limit, Max(0, |keys| - skip))
    && forall k | 0 <= k < |results| ::
         var key := keys[if descending then |keys| - 1 - (skip + k) else skip + k];
         forall d :: results[k] == Some(d) <==> key != "" && d in docs && d.id == Target(key)
  }

  lemma AnswersMean(docs: seq<Doc>, keys: seq<string>, descending: bool, skip: nat, limit: nat)
    requires StrictlySorted(docs)
    ensures AnswersRight(docs, keys, descending, skip, limit,
                         Page(Directed(descending, Answers(docs, keys)), skip, limit))
  {
    hide Find, Target, Reverse, StrictlySorted;
    var answers := Answers(docs, keys);
    var results := Page(Directed(descending, answers), skip, limit);
    forall k | 0 <= k < |results|
      ensures var key := keys[if descending then |keys| - 1 - (skip + k) else skip + k];
              forall d :: results[k] == Some(d) <==> key != "" && d in docs && d.id == Target(key)
    {
      var i := if descending then |keys| - 1 - (skip + k) else skip + k;
      if descending {
        ReverseAt(answers, skip + k);
      }
      assert results[k] == Answer(docs, keys[i]);
      forall d ensures Find(docs, Target(keys[i])) == Some(d) <==> d in docs && d.id == Target(keys[i]) {
        FindIsMember(docs, Target(keys[i]));
        FoundIs(docs, d);
      }
    }
  }

  /** A search result, read back as a document. */
  lemma SearchFinds(docs: seq<Doc>, key: string, index: nat)
    requires StrictlySorted(docs) && SearchResult(Diffs(false, key, Ids(docs)), index)
    ensures Find(docs, Target(key)) == if Missed(index) then None else Some(docs[index])
  {
    var diffs := Diffs(false, key, Ids(docs));
    if Missed(index) {
      FindIsMember(docs, Target(key));
      forall i | 0 <= i < |docs| ensures docs[i].id != Target(key) {
        StrcmpZero(Target(key), docs[i].id);
        assert diffs[i] != 0;
      }
    } else {
      StrcmpZero(Target(key), docs[index].id);
      FindAt(docs, index);
    }
  }

  /** One key of the request. */
  method AnswerKey(docs: seq<Doc>, key: string) returns (found: Option<Doc>)
    requires |docs| < TWO63 && StrictlySorted(docs) && SafeKey(key, docs)
    ensures found == Answer(docs, key)
  {
    hide Find, Target, StrictlySorted;
    found := None;
    if |key| > 0 {
      IdsAreSorted(docs);
      var index := FindDocument(Ids(docs), key, false);
      SearchFinds(docs, key, index);
      if !Missed(index) {
        found := Some(docs[index]);
      }
    }
  }

  /** The multi-key query: one answer per key, in the order of the keys or reversed, then the page. */
  method PostDocuments(docs: seq<Doc>, keys: seq<string>, descending: bool, skip: nat, limit: nat)
    returns (results: seq<Option<Doc>>, totalDocs: nat)
    requires |docs| < TWO63 && StrictlySorted(docs)
    requires forall k | 0 <= k < |keys| :: SafeKey(keys[k], docs)
    requires skip < |keys| ==> skip + limit < TWO64
    ensures results == Page(Directed(descending, Answers(docs, keys)), skip, limit)
    ensures AnswersRight(docs, keys, descending, skip, limit, results)
    ensures totalDocs == |docs|
  {
    hide Page, Reverse, Find, Target, AnswersRight, StrictlySorted;
    AnswersMean(docs, keys, descending, skip, limit);
    results := [];
    for k := 0 to |keys|
      invariant results == Answers(docs, keys)[..k]
    {
      var found := AnswerKey(docs, keys[k]);
      results := results + [found];
    }
    assert results == Answers(docs, keys);
    totalDocs := |docs|;
    if descending {
      results := Reverse(results);
    }
    PageIsSlice(results, skip, limit);
    var startIndex, endIndex := skip, |results|;
    if startIndex < endIndex {
      endIndex := Min(Wrap64(startIndex + limit), endIndex);
      endIndex := Min(endIndex, |results|);
      results := results[startIndex..endIndex];
    } else {
      results := [];
    }
  }
}
