/** A view query from the shard results on (MapReduce::Execute after the map rendezvous): windows,
    concatenation in completion order, the merge phase, the final window. */
module MapReduce {
  import opened Base
  import opened Merging
  import opened Pages
  import opened Collation
  import opened Windows
  import opened MergeSchedule
  import opened MergeExecution
  import opened ViewRows
  import opened ViewResults
  import opened ViewPages

  function KeysOf(rows: seq<Row>): (k: seq<RowKey>)
    ensures |k| == |rows|
  {
    seq(|rows|, i requires 0 <= i < |rows| => KeyOf(rows[i]))
  }

  function KeysEach(parts: seq<seq<Row>>): (k: seq<seq<RowKey>>)
    ensures |k| == |parts|
  {
    seq(|parts|, i requires 0 <= i < |parts| => KeysOf(parts[i]))
  }

  // ---- From rows to keys ------------------------------------------------------------------

  lemma KeysCons(r: Row, rows: seq<Row>)
    ensures KeysOf([r] + rows) == [KeyOf(r)] + KeysOf(rows)
  {
  }

  lemma {:induction false} KeysOfFilter(p: RowKey -> bool, rows: seq<Row>)
    ensures KeysOf(Filter((r: Row) => p(KeyOf(r)), rows)) == Filter(p, KeysOf(rows))
  {
    if rows != [] {
      KeysOfFilter(p, rows[1..]);
      assert KeysOf(rows)[1..] == KeysOf(rows[1..]);
      var rest := Filter((r: Row) => p(KeyOf(r)), rows[1..]);
      KeysCons(rows[0], rest);
    }
  }

  lemma {:induction false} KeysOfReverse(rows: seq<Row>)
    ensures KeysOf(Reverse(rows)) == Reverse(KeysOf(rows))
  {
    if rows != [] {
      KeysOfReverse(rows[1..]);
      assert KeysOf(rows)[1..] == KeysOf(rows[1..]);
      assert KeysOf(Reverse(rows[1..]) + [rows[0]]) == KeysOf(Reverse(rows[1..])) + [KeyOf(rows[0])];
    }
  }

  lemma KeysOfDirected(descending: bool, rows: seq<Row>)
    ensures KeysOf(Directed(descending, rows)) == Directed(descending, KeysOf(rows))
  {
    if descending {
      KeysOfReverse(rows);
    }
  }

  lemma KeysOfPage(rows: seq<Row>, skip: nat, limit: nat)
    ensures KeysOf(Page(rows, skip, limit)) == Page(KeysOf(rows), skip, limit)
  {
  }

  lemma RemoveAt<T>(s: seq<T>, j: nat)
    requires j < |s|
    ensures multiset(s[..j] + s[j + 1..]) == multiset(s) - multiset{s[j]}
  {
    assert s == s[..j] + [s[j]] + s[j + 1..];
  }

  lemma KeysWithout(rows: seq<Row>, j: nat)
    requires j < |rows|
    ensures multiset(KeysOf(rows)) == multiset(KeysOf(rows[..j] + rows[j + 1..])) + multiset{KeyOf(rows[j])}
  {
    assert KeysOf(rows[..j] + rows[j + 1..]) == KeysOf(rows)[..j] + KeysOf(rows)[j + 1..];
    assert KeysOf(rows) == KeysOf(rows)[..j] + [KeysOf(rows)[j]] + KeysOf(rows)[j + 1..];
  }

  lemma MemberAt(rows: seq<Row>, other: seq<Row>) returns (j: nat)
    requires multiset(rows) == multiset(other) && rows != []
    ensures j < |other| && other[j] == rows[0]
  {
    assert rows[0] in multiset(rows);
    j :| 0 <= j < |other| && other[j] == rows[0];
  }

  lemma DropFirst(rows: seq<Row>)
    requires rows != []
    ensures multiset(rows[1..]) == multiset(rows) - multiset{rows[0]}
    ensures multiset(KeysOf(rows)) == multiset(KeysOf(rows[1..])) + multiset{KeyOf(rows[0])}
  {
    assert rows == [rows[0]] + rows[1..];
    assert KeysOf(rows) == [KeyOf(rows[0])] + KeysOf(rows[1..]);
  }

  lemma {:induction false} KeyRows(rows: seq<Row>, other: seq<Row>)
    requires multiset(rows) == multiset(other)
    ensures multiset(KeysOf(rows)) == multiset(KeysOf(other))
    decreases |rows|
  {
    hide KeysOf, KeyOf;
    if rows == [] {
      assert |multiset(other)| == |other|;
    } else {
      var j := MemberAt(rows, other);
      DropFirst(rows);
      RemoveAt(other, j);
      KeysWithout(other, j);
      KeyRows(rows[1..], other[..j] + other[j + 1..]);
    }
  }

  lemma {:induction false} ConcatRows<T>(parts: seq<seq<T>>)
    ensures multiset(Concat(parts)) == Rows(parts)
    decreases |parts|
  {
    if parts != [] {
      var n := |parts| - 1;
      ConcatRows(parts[..n]);
      assert parts == parts[..n] + [parts[n]];
      ConcatAppend(parts[..n], [parts[n]]);
      ConcatSingle(parts[n]);
    }
  }

  lemma {:induction false} KeysOfConcat(parts: seq<seq<Row>>)
    ensures KeysOf(Concat(parts)) == Concat(KeysEach(parts))
    decreases |parts|
  {
    if parts != [] {
      KeysOfConcat(parts[1..]);
      assert KeysEach(parts)[1..] == KeysEach(parts[1..]);
      assert KeysOf(parts[0] + Concat(parts[1..])) == KeysOf(parts[0]) + KeysOf(Concat(parts[1..]));
    }
  }

  lemma KeysGood(leaves: iset<Value>, rows: seq<Row>)
    requires Within(rows, RowsOver(leaves)) && Sorted(RowLess, rows)
    ensures Within(KeysOf(rows), KeysOver(leaves)) && Sorted(KeyLess, KeysOf(rows))
  {
    forall i | 0 <= i < |rows| ensures KeysOf(rows)[i] in KeysOver(leaves) {
      assert rows[i] in RowsOver(leaves);
    }
    forall i, j | 0 <= i < j < |rows| ensures !KeyLess(KeysOf(rows)[j], KeysOf(rows)[i]) {
      assert !RowLess(rows[j], rows[i]);
    }
  }

  lemma KeysEachGood(leaves: iset<Value>, parts: seq<seq<Row>>)
    requires AllWithin(parts, RowsOver(leaves)) && AllSorted(RowLess, parts)
    ensures AllWithin(KeysEach(parts), KeysOver(leaves)) && AllSorted(KeyLess, KeysEach(parts))
  {
    forall i | 0 <= i < |parts|
      ensures Within(KeysEach(parts)[i], KeysOver(leaves)) && Sorted(KeyLess, KeysEach(parts)[i])
    {
      KeysGood(leaves, parts[i]);
    }
  }

  /** Any sorted arrangement of the rows of some parts has the keys of the merged parts. */
  lemma KeysOfArrangement(leaves: iset<Value>, parts: seq<seq<Row>>, rows: seq<Row>)
    requires LeavesOk(leaves) && AllWithin(parts, RowsOver(leaves)) && AllSorted(RowLess, parts)
    requires Sorted(RowLess, rows) && multiset(rows) == multiset(Concat(parts))
    ensures KeysOf(rows) == MergeAll(KeyLess, KeysEach(parts))
    ensures Within(rows, RowsOver(leaves))
  {
    hide RowLess, KeyLess, Tree, Sorted, MergeAll;
    var dom := KeysOver(leaves);
    KeyOrder(leaves);
    ArrangedWithin(leaves, parts, rows);
    KeysGood(leaves, rows);
    KeysEachGood(leaves, parts);
    MergeAllGood(KeyLess, dom, KeysEach(parts));
    KeyRows(rows, Concat(parts));
    KeysOfConcat(parts);
    ConcatRows(KeysEach(parts));
    SortedUnique(KeyLess, dom, KeysOf(rows), MergeAll(KeyLess, KeysEach(parts)));
  }

  lemma ArrangedWithin(leaves: iset<Value>, parts: seq<seq<Row>>, rows: seq<Row>)
    requires AllWithin(parts, RowsOver(leaves)) && multiset(rows) == multiset(Concat(parts))
    ensures Within(rows, RowsOver(leaves))
  {
    forall i | 0 <= i < |rows| ensures rows[i] in RowsOver(leaves) {
      assert rows[i] in multiset(Concat(parts)) by { assert rows[i] in multiset(rows); }
      InConcat(leaves, parts, rows[i]);
    }
  }

  lemma {:induction false} InConcat(leaves: iset<Value>, parts: seq<seq<Row>>, r: Row)
    requires AllWithin(parts, RowsOver(leaves)) && r in Concat(parts)
    ensures r in RowsOver(leaves)
    decreases |parts|
  {
    if r in parts[0] {
      var j :| 0 <= j < |parts[0]| && parts[0][j] == r;
    } else {
      InConcat(leaves, parts[1..], r);
    }
  }

  // ---- The query --------------------------------------------------------------------------

  /** What the query promises, given one globally sorted list of all rows: the rows the iterator delivers
      are rows of the view, each no more often than there, their (key, id) pairs are the page of the
      wanted ones, and the offset counts what precedes them. */
  ghost predicate ViewRight(q: Query, all: seq<Row>, results: Results<Row>) {
    && results.Valid()
    && var wanted := Filter(Wanted(q), KeysOf(all));
       && KeysOf(Delivered(results)) == Page(Directed(q.descending, wanted), q.skip, q.limit)
       && multiset(Delivered(results)) <= multiset(all)
       && results.Offset() == Count(Skipped(q), KeysOf(all)) + Min(q.skip, |wanted|)
       && results.totalRows == |all|
  }

  /** The shard results, sorted by their map workers, over well-chosen leaves. */
  ghost predicate ShardsReady(leaves: iset<Value>, q: Query, sources: seq<seq<Row>>) {
    && LeavesOk(leaves) && BoundOver(leaves, LowBound(q)) && BoundOver(leaves, HighBound(q))
    && AllWithin(sources, RowsOver(leaves)) && AllSorted(RowLess, sources)
    && |Concat(sources)| < TWO63 && q.skip + |Concat(sources)| < TWO64
  }

  /** No shard repeats a row equal to a bound. */
  ghost predicate BoundsUnrepeated(q: Query, sources: seq<seq<Row>>) {
    forall i | 0 <= i < |sources| :: Unrepeated(LowBound(q), sources[i]) && Unrepeated(HighBound(q), sources[i])
  }

  lemma {:induction false} PartFits<T>(parts: seq<seq<T>>, i: nat)
    requires i < |parts|
    ensures |parts[i]| <= |Concat(parts)|
    decreases |parts|
  {
    if i > 0 {
      PartFits(parts[1..], i - 1);
    }
  }

  /** What a map worker leaves behind for one shard. */
  ghost predicate WindowRight(q: Query, rows: seq<Row>, w: Window) {
    && w.Valid() && w.size == |rows| && w.descending == q.descending
    && w.limit == Min(q.skip + Min(q.limit, |rows|), |rows|)
    && (forall i | 0 <= i < |rows| :: w.start <= i < w.end <==> InRange(q, KeyOf(rows[i])))
    && w.Offset() == Count(Skipped(q), KeysOf(rows))
  }

  lemma WindowIsFilter(q: Query, rows: seq<Row>, w: Window)
    requires WindowRight(q, rows, w)
    ensures Filter(Wanted(q), KeysOf(rows)) == KeysOf(rows)[w.start..w.end]
  {
    var keys := KeysOf(rows);
    assert forall i | 0 <= i < |keys| :: Wanted(q)(keys[i]) <==> w.start <= i < w.end;
    FilterIsWindow(Wanted(q), keys, w.start, w.end);
  }

  lemma WindowKeepsLeading(q: Query, rows: seq<Row>, w: Window)
    requires WindowRight(q, rows, w)
    ensures KeepsLeading(q.descending, Filter(Wanted(q), KeysOf(rows)), KeysOf(w.Slice(rows)), q.skip + q.limit)
  {
    hide InRange, KeyOf, Filter, KeepsLeading;
    WindowIsFilter(q, rows, w);
    w.WindowBounds();
    assert KeysOf(w.Slice(rows)) == w.Slice(KeysOf(rows));
    SliceKeepsLeading(w, KeysOf(rows), q.skip + q.limit);
  }

  /** The window a map worker cuts from its sorted rows. */
  function ShardWindow(q: Query, rows: seq<Row>): (w: Window)
    requires HasCuts(q, rows)
    ensures w.Valid() && w.size == |rows|
  {
    WindowOf(rows, Wrap64(q.skip + Min(q.limit, |rows|)), q)
  }

  lemma ShardWindowRight(q: Query, rows: seq<Row>, leaves: iset<Value>)
    requires LeavesOk(leaves) && BoundOver(leaves, LowBound(q)) && BoundOver(leaves, HighBound(q))
    requires Within(rows, RowsOver(leaves)) && Sorted(RowLess, rows) && |rows| < TWO63
    requires Unrepeated(LowBound(q), rows) && Unrepeated(HighBound(q), rows)
    requires q.skip + |rows| < TWO64
    ensures HasCuts(q, rows) && WindowRight(q, rows, ShardWindow(q, rows))
  {
    hide RowLess, Tree, Sorted, Within, LeavesOk, InRange, BeforeRange, StrictlyInside, StrictlyOutside, RowCut,
         HasCuts,
         Filter, KeyOf;
    WindowOfRight(rows, Wrap64(q.skip + Min(q.limit, |rows|)), q, leaves);
    KeysOfFilter(Skipped(q), rows);
    var p := Skipped(q);
    assert Count((r: Row) => p(KeyOf(r)), rows) == Count(p, KeysOf(rows));
    SameFilter((r: Row) => p(KeyOf(r)), (r: Row) => BeforeRange(q, KeyOf(r)), rows);
  }

  method MapWindow(rows: seq<Row>, q: Query, ghost leaves: iset<Value>) returns (w: Window)
    requires LeavesOk(leaves) && BoundOver(leaves, LowBound(q)) && BoundOver(leaves, HighBound(q))
    requires Within(rows, RowsOver(leaves)) && Sorted(RowLess, rows) && |rows| < TWO63
    requires q.skip + |rows| < TWO64
    ensures HasCuts(q, rows) && w == ShardWindow(q, rows)
    ensures Unrepeated(LowBound(q), rows) && Unrepeated(HighBound(q), rows) ==> WindowRight(q, rows, w)
  {
    hide RowLess, Tree, Within, Sorted, LeavesOk, WindowRight, InRange, StrictlyInside, StrictlyOutside, HasCuts,
         RowCut;
    w := ResultWindow(rows, Wrap64(q.skip + Min(q.limit, |rows|)), q, leaves);
    if Unrepeated(LowBound(q), rows) && Unrepeated(HighBound(q), rows) {
      ShardWindowRight(q, rows, leaves);
    }
  }

  /** The truncated windows of all shards. */
  ghost predicate CutsRight(q: Query, sources: seq<seq<Row>>, windows: seq<Window>) {
    |windows| == |sources| && forall i | 0 <= i < |windows| :: WindowRight(q, sources[i], windows[i])
  }

  /** Windows that fit their shards. */
  ghost predicate CutsFit(sources: seq<seq<Row>>, windows: seq<Window>) {
    |windows| == |sources| && forall i | 0 <= i < |windows| :: windows[i].Valid() && windows[i].size == |sources[i]|
  }

  ghost predicate AllCut(q: Query, sources: seq<seq<Row>>) {
    forall i | 0 <= i < |sources| :: HasCuts(q, sources[i])
  }

  ghost function WindowsOf(q: Query, sources: seq<seq<Row>>): (w: seq<Window>)
    requires AllCut(q, sources)
    ensures CutsFit(sources, w)
  {
    seq(|sources|, i requires 0 <= i < |sources| => ShardWindow(q, sources[i]))
  }

  lemma CutsAreRight(leaves: iset<Value>, q: Query, sources: seq<seq<Row>>)
    requires ShardsReady(leaves, q, sources) && BoundsUnrepeated(q, sources) && AllCut(q, sources)
    ensures CutsRight(q, sources, WindowsOf(q, sources))
  {
    hide RowLess, Tree, LeavesOk, InRange, Filter, HasCuts, WindowRight;
    forall i | 0 <= i < |sources| ensures WindowRight(q, sources[i], WindowsOf(q, sources)[i]) {
      PartFits(sources, i);
      assert Within(sources[i], RowsOver(leaves)) && Sorted(RowLess, sources[i]);
      ShardWindowRight(q, sources[i], leaves);
    }
  }

  function Slices(sources: seq<seq<Row>>, windows: seq<Window>): (cuts: seq<seq<Row>>)
    requires |windows| == |sources|
    requires forall i | 0 <= i < |windows| :: windows[i].Valid() && windows[i].size == |sources[i]|
    ensures |cuts| == |sources|
  {
    seq(|sources|, i requires 0 <= i < |sources| => windows[i].Slice(sources[i]))
  }

  lemma SlicesGood(leaves: iset<Value>, sources: seq<seq<Row>>, windows: seq<Window>)
    requires AllWithin(sources, RowsOver(leaves)) && AllSorted(RowLess, sources) && CutsFit(sources, windows)
    ensures GoodRuns(RowLess, RowsOver(leaves), Slices(sources, windows))
  {
    hide RowLess, Tree;
    var cuts := Slices(sources, windows);
    forall i | 0 <= i < |cuts| ensures Within(cuts[i], RowsOver(leaves)) && Sorted(RowLess, cuts[i]) {
      assert Within(sources[i], RowsOver(leaves)) && Sorted(RowLess, sources[i]);
      windows[i].WindowBounds();
    }
  }

  lemma CutsKeepLeading(q: Query, sources: seq<seq<Row>>, windows: seq<Window>)
    requires CutsRight(q, sources, windows)
    ensures var full, cut := FilterEach(Wanted(q), KeysEach(sources)), KeysEach(Slices(sources, windows));
            forall i | 0 <= i < |full| :: KeepsLeading(q.descending, full[i], cut[i], q.skip + q.limit)
  {
    hide KeepsLeading, Filter;
    forall i | 0 <= i < |sources|
      ensures KeepsLeading(q.descending, FilterEach(Wanted(q), KeysEach(sources))[i],
                           KeysEach(Slices(sources, windows))[i], q.skip + q.limit)
    {
      WindowKeepsLeading(q, sources[i], windows[i]);
    }
  }

  /** The page of the merged windows is the page of the one sorted list. */
  lemma PageOfView(leaves: iset<Value>, q: Query, sources: seq<seq<Row>>, windows: seq<Window>,
                   rows: seq<Row>, all: seq<Row>)
    requires ShardsReady(leaves, q, sources) && CutsRight(q, sources, windows)
    requires Sorted(RowLess, rows) && multiset(rows) == multiset(Concat(Slices(sources, windows)))
    requires Sorted(RowLess, all) && multiset(all) == multiset(Concat(sources))
    ensures var wanted := Filter(Wanted(q), KeysOf(all));
            && Page(Directed(q.descending, KeysOf(rows)), q.skip, q.limit)
               == Page(Directed(q.descending, wanted), q.skip, q.limit)
            && Min(q.skip, |rows|) == Min(q.skip, |wanted|)
  {
    assert CutsFit(sources, windows);
    hide RowLess, KeyLess, Tree, Sorted, MergeAll, Page, Directed, Filter, KeepsLeading, WeakOrder, LeavesOk,
         KeysEach, KeysOf, Slices, FilterEach, AllWithin, AllSorted, Within;
    var dom := KeysOver(leaves);
    var cuts := Slices(sources, windows);
    SlicesGood(leaves, sources, windows);
    KeyOrder(leaves);
    KeysOfArrangement(leaves, cuts, rows);
    KeysOfArrangement(leaves, sources, all);
    KeysEachGood(leaves, cuts);
    KeysEachGood(leaves, sources);
    MergeAllGood(KeyLess, dom, KeysEach(sources));
    FilterOfMerge(KeyLess, dom, Wanted(q), KeysEach(sources), KeysOf(all));
    CutsKeepLeading(q, sources, windows);
    TruncatedPage(KeyLess, dom, q.descending, FilterEach(Wanted(q), KeysEach(sources)), KeysEach(cuts), q.skip,
                  q.limit);
  }

  function OffsetSum(windows: seq<Window>): nat
    requires forall i | 0 <= i < |windows| :: windows[i].Valid()
  {
    if windows == [] then 0 else OffsetSum(windows[..|windows| - 1]) + windows[|windows| - 1].Offset()
  }

  lemma {:induction false} OffsetIsCount(q: Query, sources: seq<seq<Row>>, windows: seq<Window>)
    requires CutsRight(q, sources, windows)
    ensures OffsetSum(windows) == |Rows(FilterEach(Skipped(q), KeysEach(sources)))|
    decreases |sources|
  {
    if sources != [] {
      var n := |sources| - 1;
      OffsetIsCount(q, sources[..n], windows[..n]);
      var skipped := FilterEach(Skipped(q), KeysEach(sources));
      assert skipped[..n] == FilterEach(Skipped(q), KeysEach(sources[..n]));
      assert skipped[n] == Filter(Skipped(q), KeysOf(sources[n]));
    }
  }

  lemma {:induction false} OffsetOfView(leaves: iset<Value>, q: Query, sources: seq<seq<Row>>,
                                        windows: seq<Window>, all: seq<Row>)
    requires ShardsReady(leaves, q, sources) && CutsRight(q, sources, windows)
    requires Sorted(RowLess, all) && multiset(all) == multiset(Concat(sources))
    ensures OffsetSum(windows) == Count(Skipped(q), KeysOf(all))
  {
    hide RowLess, KeyLess, Tree, Sorted, Filter, LeavesOk, WindowRight;
    OffsetIsCount(q, sources, windows);
    KeyRows(all, Concat(sources));
    KeysOfConcat(sources);
    ConcatRows(KeysEach(sources));
    CountRows(Skipped(q), KeysOf(all), KeysEach(sources));
  }

  // ---- The whole execution ----------------------------------------------------------------

  /** The start of each shard's rows in the result array. */
  method RowOffsets(cuts: seq<seq<Row>>) returns (offsets: seq<nat>)
    ensures Offsets(offsets, cuts)
  {
    offsets := [];
    var filteredRows := 0;
    for k := 0 to |cuts|
      invariant |offsets| == k && filteredRows == |Concat(cuts[..k])|
      invariant forall j | 0 <= j < k :: offsets[j] == |Concat(cuts[..j])|
    {
      offsets := offsets + [filteredRows];
      PrefixStep(cuts, k);
      filteredRows := filteredRows + |cuts[k]|;
    }
    offsets := offsets + [filteredRows];
  }

  /** The windows of the shards, with the totals the requester adds up from them. */
  method MapShards(sources: seq<seq<Row>>, q: Query, ghost leaves: iset<Value>)
    returns (windows: seq<Window>, offset: nat, totalRows: nat)
    requires ShardsReady(leaves, q, sources)
    ensures AllCut(q, sources) && windows == WindowsOf(q, sources)
    ensures offset == OffsetSum(windows) && totalRows == |Concat(sources)|
  {
    hide RowLess, Tree, LeavesOk, InRange, Filter, HasCuts, WindowRight, Unrepeated, ShardWindow;
    windows, offset, totalRows := [], 0, 0;
    for i := 0 to |sources|
      invariant |windows| == i && CutsFit(sources[..i], windows)
      invariant forall k | 0 <= k < i :: HasCuts(q, sources[k]) && windows[k] == ShardWindow(q, sources[k])
      invariant offset == OffsetSum(windows) && totalRows == |Concat(sources[..i])|
    {
      PartFits(sources, i);
      var w := MapWindow(sources[i], q, leaves);
      assert sources[..i + 1] == sources[..i] + [sources[i]];
      assert (windows + [w])[..i] == windows;
      PrefixStep(sources, i);
      windows := windows + [w];
      offset := offset + w.Offset();
      totalRows := totalRows + w.size;
    }
    assert sources[..|sources|] == sources;
  }

  lemma {:induction false} SlicesFit(sources: seq<seq<Row>>, windows: seq<Window>)
    requires CutsFit(sources, windows)
    ensures |Concat(Slices(sources, windows))| <= |Concat(sources)|
    decreases |sources|
  {
    if sources != [] {
      SlicesFit(sources[1..], windows[1..]);
      windows[0].WindowBounds();
      assert Slices(sources, windows)[1..] == Slices(sources[1..], windows[1..]);
    }
  }

  /** What an execution leaves behind for the iterator. */
  ghost predicate Computed(q: Query, sources: seq<seq<Row>>, results: Results<Row>) {
    && AllCut(q, sources)
    && var windows := WindowsOf(q, sources);
       var rows := Schedule(RowLess, Slices(sources, windows));
       && |rows| < TWO63
       && results == MakeResults(rows, OffsetSum(windows), |Concat(sources)|, q.skip, q.limit, q.descending)
  }

  /** The view query, whatever order the shards completed in: for a guarded shard count, and if no shard
      repeats a bound, what the iterator delivers is the page of the one globally sorted list. */
  method Execute(sources: seq<seq<Row>>, q: Query, ghost leaves: iset<Value>) returns (results: Results<Row>)
    requires ShardsReady(leaves, q, sources)
    requires PopCount(|sources|) <= 2
    ensures Computed(q, sources, results)
    ensures BoundsUnrepeated(q, sources) ==>
              forall all: seq<Row> | Sorted(RowLess, all) && multiset(all) == multiset(Concat(sources)) ::
                ViewRight(q, all, results)
    ensures BoundsUnrepeated(q, sources) ==>
              && results.Valid()
              && ViewPage(q, KeysOf(Concat(sources)), KeysOf(Delivered(results)), results.Offset(), results.totalRows)
  {
    hide RowLess, LeavesOk, Schedule, HasCuts, BoundsUnrepeated, ViewRight, Concat, Tree, ViewPage, Delivered;
    var windows, offset, totalRows := MapShards(sources, q, leaves);
    var cuts := Slices(sources, windows);
    var offsets := RowOffsets(cuts);
    var filtered := Concat(cuts);
    var merged := new Row[|filtered|](i requires 0 <= i < |filtered| => filtered[i]);
    assert merged[..] == filtered;
    RowOrder(leaves);
    SlicesGood(leaves, sources, windows);
    MergeResults(RowLess, merged, offsets, RowsOver(leaves), cuts);
    var rows := merged[..];
    SlicesFit(sources, windows);
    assert |rows| == |filtered|;
    results := MakeResults(rows, offset, totalRows, q.skip, q.limit, q.descending);
    if BoundsUnrepeated(q, sources) {
      forall all: seq<Row> | Sorted(RowLess, all) && multiset(all) == multiset(Concat(sources))
        ensures ViewRight(q, all, results)
      {
        ComputedIsRight(leaves, q, sources, all, results);
      }
      ViewPromised(leaves, q, sources, results);
    }
  }

  /** The page of the one sorted list is the answer the query promises. */
  lemma ViewPromised(leaves: iset<Value>, q: Query, sources: seq<seq<Row>>, results: Results<Row>)
    requires ShardsReady(leaves, q, sources) && PopCount(|sources|) <= 2
    requires forall all: seq<Row> | Sorted(RowLess, all) && multiset(all) == multiset(Concat(sources)) ::
               ViewRight(q, all, results)
    ensures results.Valid()
    ensures ViewPage(q, KeysOf(Concat(sources)), KeysOf(Delivered(results)), results.Offset(), results.totalRows)
  {
    hide RowLess, KeyLess, LeavesOk, Schedule, Concat, Tree, ViewPage, Delivered, Filter, Page, Sorted;
    var all := Schedule(RowLess, sources);
    RowOrder(leaves);
    GuardedFinalMergeLegal(RowLess, RowsOver(leaves), sources);
    ScheduleKeepsRows(RowLess, sources);
    assert ViewRight(q, all, results);
    ArrangedWithin(leaves, sources, all);
    KeysGood(leaves, all);
    KeyRows(all, Concat(sources));
    ViewPageOf(leaves, q, KeysOf(all), KeysOf(Concat(sources)), KeysOf(Delivered(results)), results.Offset());
  }

  /** A range with both ends included, asked for the other way round: the rows are the same, reversed. */
  lemma ReversedView(q: Query, all: seq<Row>, one: Results<Row>, other: Results<Row>)
    requires q.inclusiveEnd && q.skip == 0 && q.limit >= |all|
    requires ViewRight(q, all, one)
    requires ViewRight(q.(startKey := q.endKey, endKey := q.startKey, descending := !q.descending), all, other)
    ensures KeysOf(Delivered(other)) == Reverse(KeysOf(Delivered(one)))
  {
    hide Filter, Reverse, Delivered, KeyDiff;
    var turned := q.(startKey := q.endKey, endKey := q.startKey, descending := !q.descending);
    assert forall r :: Wanted(turned)(r) <==> Wanted(q)(r);
    SameFilter(Wanted(q), Wanted(turned), KeysOf(all));
    FilterShorter(Wanted(q), KeysOf(all));
    var wanted := Filter(Wanted(q), KeysOf(all));
    assert Page(Directed(q.descending, wanted), 0, q.limit) == Directed(q.descending, wanted);
    assert Page(Directed(!q.descending, wanted), 0, q.limit) == Directed(!q.descending, wanted);
    ReverseTwice(wanted);
  }

  lemma {:induction false} ComputedIsRight(leaves: iset<Value>, q: Query, sources: seq<seq<Row>>,
                                           all: seq<Row>, results: Results<Row>)
    requires ShardsReady(leaves, q, sources) && BoundsUnrepeated(q, sources) && PopCount(|sources|) <= 2
    requires Sorted(RowLess, all) && multiset(all) == multiset(Concat(sources))
    requires Computed(q, sources, results)
    ensures ViewRight(q, all, results)
  {
    hide RowLess, LeavesOk, Schedule, HasCuts, BoundsUnrepeated, ViewRight, Concat, Tree, Sorted, OffsetSum,
         MakeResults;
    CutsAreRight(leaves, q, sources);
    var windows := WindowsOf(q, sources);
    ViewIsRight(leaves, q, sources, windows, Schedule(RowLess, Slices(sources, windows)), all, results);
  }

  lemma ViewIsRight(leaves: iset<Value>, q: Query, sources: seq<seq<Row>>, windows: seq<Window>, rows: seq<Row>,
                    all: seq<Row>, results: Results<Row>)
    requires ShardsReady(leaves, q, sources) && CutsRight(q, sources, windows) && PopCount(|sources|) <= 2
    requires rows == Schedule(RowLess, Slices(sources, windows)) && |rows| < TWO63
    requires Sorted(RowLess, all) && multiset(all) == multiset(Concat(sources))
    requires results == MakeResults(rows, OffsetSum(windows), |Concat(sources)|, q.skip, q.limit, q.descending)
    ensures ViewRight(q, all, results)
  {
    hide RowLess, Tree, Sorted, Filter, LeavesOk, InRange, Schedule, Page, Reverse;
    var cuts := Slices(sources, windows);
    RowOrder(leaves);
    SlicesGood(leaves, sources, windows);
    GuardedFinalMergeLegal(RowLess, RowsOver(leaves), cuts);
    ScheduleKeepsRows(RowLess, cuts);
    PageOfView(leaves, q, sources, windows, rows, all);
    OffsetOfView(leaves, q, sources, windows, all);
    assert |all| == |multiset(all)| == |multiset(Concat(sources))| == |Concat(sources)|;
    DeliveredKeys(q, rows, OffsetSum(windows), |all|);
    OffsetReported(q, KeysOf(all), rows, OffsetSum(windows));
    DeliveredRows(q, rows, OffsetSum(windows), |all|);
    SlicesRows(sources, windows);
  }

  lemma PartRows<T>(rows: seq<T>, lo: nat, hi: nat)
    requires lo <= hi <= |rows|
    ensures multiset(rows[lo..hi]) <= multiset(rows)
  {
    assert rows == rows[..lo] + rows[lo..hi] + rows[hi..];
  }

  lemma DeliveredRows(q: Query, rows: seq<Row>, offset: nat, totalRows: nat)
    requires |rows| < TWO63
    ensures multiset(Delivered(MakeResults(rows, offset, totalRows, q.skip, q.limit, q.descending))) <= multiset(rows)
  {
    var r := MakeResults(rows, offset, totalRows, q.skip, q.limit, q.descending);
    r.Bounds();
    var window := rows[r.First()..r.Past()];
    ReverseRows(window);
    PartRows(rows, r.First(), r.Past());
  }

  lemma {:induction false} SlicesRows(sources: seq<seq<Row>>, windows: seq<Window>)
    requires |windows| == |sources|
    requires forall i | 0 <= i < |windows| :: windows[i].Valid() && windows[i].size == |sources[i]|
    ensures multiset(Concat(Slices(sources, windows))) <= multiset(Concat(sources))
    decreases |sources|
  {
    if sources != [] {
      SlicesRows(sources[1..], windows[1..]);
      assert Slices(sources, windows)[1..] == Slices(sources[1..], windows[1..]);
      SliceRows(windows[0], sources[0]);
    }
  }

  lemma SliceRows(w: Window, rows: seq<Row>)
    requires w.Valid() && w.size == |rows|
    ensures multiset(w.Slice(rows)) <= multiset(rows)
  {
    w.WindowBounds();
    PartRows(rows, w.First(), w.Past());
  }

  lemma DeliveredKeys(q: Query, rows: seq<Row>, offset: nat, totalRows: nat)
    requires |rows| < TWO63
    ensures KeysOf(Delivered(MakeResults(rows, offset, totalRows, q.skip, q.limit, q.descending)))
            == Page(Directed(q.descending, KeysOf(rows)), q.skip, q.limit)
  {
    hide Page, Reverse, Delivered;
    WindowIsPage(rows, offset, totalRows, q.skip, q.limit, q.descending);
    KeysOfPage(Directed(q.descending, rows), q.skip, q.limit);
    KeysOfDirected(q.descending, rows);
  }

  lemma OffsetReported(q: Query, keys: seq<RowKey>, rows: seq<Row>, offset: nat)
    requires |rows| < TWO63 && |keys| < TWO63
    requires offset == Count(Skipped(q), keys) && Min(q.skip, |rows|) == Min(q.skip, |Filter(Wanted(q), keys)|)
    ensures MakeResults(rows, offset, |keys|, q.skip, q.limit, q.descending).Offset()
            == offset + Min(q.skip, |Filter(Wanted(q), keys)|)
  {
    hide Filter;
    OffsetFits(q, keys);
  }

  lemma {:induction false} SameParts<T>(xs: seq<seq<T>>, ys: seq<seq<T>>)
    requires multiset(xs) == multiset(ys)
    ensures Rows(xs) == Rows(ys)
    decreases |xs|
  {
    assert |xs| == |multiset(xs)| == |multiset(ys)| == |ys|;
    if xs != [] {
      var n := |xs| - 1;
      assert xs[n] in multiset(ys) by { assert xs[n] in multiset(xs); }
      var j :| 0 <= j < |ys| && ys[j] == xs[n];
      RemoveAt(xs, n);
      RemoveAt(ys, j);
      assert xs[..n] + xs[n + 1..] == xs[..n];
      SameParts(xs[..n], ys[..j] + ys[j + 1..]);
      RowsWithout(ys, j);
    }
  }

  lemma {:induction false} RowsWithout<T>(parts: seq<seq<T>>, j: nat)
    requires j < |parts|
    ensures Rows(parts) == Rows(parts[..j] + parts[j + 1..]) + multiset(parts[j])
    decreases |parts|
  {
    var n := |parts| - 1;
    if j == n {
      assert parts[..j] + parts[j + 1..] == parts[..n];
    } else {
      RowsWithout(parts[..n], j);
      var without := parts[..j] + parts[j + 1..];
      assert without[..n - 1] == parts[..n][..j] + parts[..n][j + 1..];
      assert without[n - 1] == parts[n];
    }
  }

  /** The order in which the shard workers completed does not show: two executions over the same
      shard results deliver the same (key, id) pairs and report the same offset. */
  lemma CompletionOrderHidden(q: Query, one: seq<seq<Row>>, other: seq<seq<Row>>,
                              r1: Results<Row>, r2: Results<Row>, all: seq<Row>)
    requires multiset(one) == multiset(other)
    requires Sorted(RowLess, all) && multiset(all) == multiset(Concat(one))
    requires forall a: seq<Row> | Sorted(RowLess, a) && multiset(a) == multiset(Concat(one)) :: ViewRight(q, a, r1)
    requires forall a: seq<Row> | Sorted(RowLess, a) && multiset(a) == multiset(Concat(other)) :: ViewRight(q, a, r2)
    ensures r1.Valid() && r2.Valid()
    ensures KeysOf(Delivered(r1)) == KeysOf(Delivered(r2)) && r1.Offset() == r2.Offset()
  {
    hide RowLess, Filter, Sorted, Delivered, Page, Directed;
    SameParts(one, other);
    ConcatRows(one);
    ConcatRows(other);
    assert ViewRight(q, all, r1) && ViewRight(q, all, r2);
  }

  /** The rows before the range and the rows in it are different rows. */
  lemma {:induction false} OffsetFits(q: Query, keys: seq<RowKey>)
    ensures Count(Skipped(q), keys) + |Filter(Wanted(q), keys)| <= |keys|
  {
    if keys != [] {
      OffsetFits(q, keys[1..]);
    }
  }
}
