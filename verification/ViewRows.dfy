/** Rows of a view, their order, and the window one shard contributes (MapReduceShardResults). */
module ViewRows {
  import opened Base
  import opened CStrings
  import opened Merging
  import opened Pages
  import opened Collation
  import opened Windows

  datatype Row = Row(key: Value, value: Value, id: string)

  /** What rows are sorted by, and what a client can tell two positions of a result apart by. */
  datatype RowKey = RowKey(key: Value, id: string)

  function KeyOf(r: Row): RowKey {
    RowKey(r.key, r.id)
  }

  function CompareKeys(a: RowKey, b: RowKey): int {
    var diff := Order(a.key, b.key);
    if diff == 0 then Strcmp(a.id, b.id) else diff
  }

  predicate KeyLess(a: RowKey, b: RowKey) {
    CompareKeys(a, b) < 0
  }

  predicate RowLess(a: Row, b: Row) {
    KeyLess(KeyOf(a), KeyOf(b))
  }

  ghost function KeysOver(leaves: iset<Value>): iset<RowKey> {
    iset k: RowKey | Tree(leaves, k.key)
  }

  ghost function RowsOver(leaves: iset<Value>): iset<Row> {
    iset r: Row | Tree(leaves, r.key)
  }

  lemma KeysTotal(leaves: iset<Value>, a: RowKey, b: RowKey, c: RowKey)
    requires LeavesOk(leaves) && Tree(leaves, a.key) && Tree(leaves, b.key) && Tree(leaves, c.key)
    ensures Sign(CompareKeys(a, b)) == -Sign(CompareKeys(b, a))
    ensures CompareKeys(a, b) == 0 <==> a == b
    ensures CompareKeys(a, b) <= 0 && CompareKeys(b, c) <= 0 ==> CompareKeys(a, c) <= 0
  {
    ValueSigns(leaves, a.key, b.key);
    ValueSigns(leaves, b.key, c.key);
    ValueSigns(leaves, a.key, c.key);
    StrcmpAntisymmetric(a.id, b.id);
    StrcmpZero(a.id, b.id);
    if CompareKeys(a, b) <= 0 && CompareKeys(b, c) <= 0 {
      ValueTransitive(leaves, a.key, b.key, c.key);
      if a.key == c.key {
        assert a.key == b.key;
        StrcmpTransitive(a.id, b.id, c.id);
      }
    }
  }

  /** On keys over well-chosen leaves the row order is total on (key, id) pairs. */
  lemma KeyOrder(leaves: iset<Value>)
    requires LeavesOk(leaves)
    ensures TotalOrder(KeyLess, KeysOver(leaves))
  {
    var dom := KeysOver(leaves);
    forall a, b | a in dom && b in dom
      ensures KeyLess(a, b) ==> !KeyLess(b, a)
      ensures !KeyLess(a, b) && !KeyLess(b, a) ==> a == b
    {
      KeysTotal(leaves, a, b, b);
    }
    forall a, b, c | a in dom && b in dom && c in dom && !KeyLess(a, b) && !KeyLess(b, c) ensures !KeyLess(a, c) {
      KeysTotal(leaves, a, b, b);
      KeysTotal(leaves, b, c, c);
      KeysTotal(leaves, c, b, a);
      KeysTotal(leaves, a, c, c);
    }
  }

  lemma RowOrder(leaves: iset<Value>)
    requires LeavesOk(leaves)
    ensures WeakOrder(RowLess, RowsOver(leaves))
  {
    KeyOrder(leaves);
    var dom := KeysOver(leaves);
    forall a, b | a in RowsOver(leaves) && b in RowsOver(leaves) && RowLess(a, b) ensures !RowLess(b, a) {
      assert KeyOf(a) in dom && KeyOf(b) in dom;
    }
    forall a, b, c | a in RowsOver(leaves) && b in RowsOver(leaves) && c in RowsOver(leaves)
                     && !RowLess(a, b) && !RowLess(b, c)
      ensures !RowLess(a, c)
    {
      assert KeyOf(a) in dom && KeyOf(b) in dom && KeyOf(c) in dom;
    }
  }

  // ---- Search -----------------------------------------------------------------------------

  /** A query key: a value and, if not empty, a document id to break ties with. */
  datatype QueryKey = QueryKey(key: Value, id: string)

  function KeyDiff(k: QueryKey, r: RowKey): int {
    var diff := Order(k.key, r.key);
    if diff == 0 && k.id != "" then Strcmp(k.id, r.id) else diff
  }

  function RowDiffs(k: QueryKey, rows: seq<Row>): (d: seq<int>)
    ensures |d| == |rows|
  {
    seq(|rows|, i requires 0 <= i < |rows| => KeyDiff(k, KeyOf(rows[i])))
  }

  lemma DiffsFall(leaves: iset<Value>, k: QueryKey, a: RowKey, b: RowKey)
    requires LeavesOk(leaves) && Tree(leaves, k.key) && Tree(leaves, a.key) && Tree(leaves, b.key)
    requires !KeyLess(b, a)
    ensures Sign(KeyDiff(k, b)) <= Sign(KeyDiff(k, a))
  {
    KeysTotal(leaves, a, b, b);
    ValueSigns(leaves, k.key, a.key);
    ValueSigns(leaves, a.key, b.key);
    ValueSigns(leaves, k.key, b.key);
    assert Order(a.key, b.key) <= 0;
    if Order(k.key, a.key) <= 0 {
      ValueTransitive(leaves, k.key, a.key, b.key);
    }
    if k.id != "" && k.key == a.key && k.key == b.key {
      StrcmpZero(k.id, a.id);
      StrcmpZero(k.id, b.id);
      if Strcmp(k.id, a.id) <= 0 {
        StrcmpTransitive(k.id, a.id, b.id);
      }
    }
  }

  lemma RowDiffsDescend(leaves: iset<Value>, k: QueryKey, rows: seq<Row>)
    requires LeavesOk(leaves) && Tree(leaves, k.key)
    requires Within(rows, RowsOver(leaves)) && Sorted(RowLess, rows)
    ensures Descends(RowDiffs(k, rows))
  {
    forall i, j | 0 <= i < j < |rows| ensures Sign(RowDiffs(k, rows)[j]) <= Sign(RowDiffs(k, rows)[i]) {
      assert rows[i] in RowsOver(leaves) && rows[j] in RowsOver(leaves);
      DiffsFall(leaves, k, KeyOf(rows[i]), KeyOf(rows[j]));
    }
  }

  method FindResult(rows: seq<Row>, k: QueryKey, ghost leaves: iset<Value>) returns (index: nat)
    requires LeavesOk(leaves) && Tree(leaves, k.key)
    requires Within(rows, RowsOver(leaves)) && Sorted(RowLess, rows) && |rows| < TWO63
    ensures index == SearchFrom(RowDiffs(k, rows), 0, |rows|) < TWO64
    ensures SearchResult(RowDiffs(k, rows), index)
  {
    hide SearchFrom, RowLess, KeyLess, Order, Strcmp, Tree, Sorted;
    ghost var diffs := RowDiffs(k, rows);
    RowDiffsDescend(leaves, k, rows);
    SearchRight(diffs, 0, |rows|);
    if |rows| == 0 {
      SearchEmpty(diffs, 0);
      return Complement(0);
    }
    var min, mid, max := 0, 0, |rows| - 1;
    while min <= max
      invariant 0 <= min <= max + 1 <= |rows|
      invariant SearchFrom(diffs, min, max + 1) == SearchFrom(diffs, 0, |rows|)
      decreases max - min
    {
      SearchStep(diffs, min, max);
      mid := (max - min) / 2 + min;
      var diff := CompareValues(k.key, rows[mid].key);
      if diff == 0 {
        if k.id != "" {
          diff := Strcmp(k.id, rows[mid].id);
        }
      }
      assert diff == diffs[mid];
      if diff == 0 {
        return mid;
      } else if diff < 0 {
        if mid == 0 {
          break;
        }
        max := mid - 1;
      } else {
        min := mid + 1;
      }
    }
    SearchEmpty(diffs, min);
    index := Complement(min);
  }

  // ---- The window -------------------------------------------------------------------------

  datatype Query = Query(startKey: Option<QueryKey>, endKey: Option<QueryKey>, inclusiveEnd: bool, descending: bool,
                         skip: nat, limit: nat)

  datatype KeyBound = Open | Bounded(k: QueryKey, inclusive: bool)

  function LowBound(q: Query): KeyBound {
    if q.descending then (if q.endKey.Some? then Bounded(q.endKey.value, q.inclusiveEnd) else Open)
    else (if q.startKey.Some? then Bounded(q.startKey.value, true) else Open)
  }

  function HighBound(q: Query): KeyBound {
    if q.descending then (if q.startKey.Some? then Bounded(q.startKey.value, true) else Open)
    else (if q.endKey.Some? then Bounded(q.endKey.value, q.inclusiveEnd) else Open)
  }

  predicate PassesKey(side: Side, b: KeyBound, r: RowKey) {
    b.Open? || Passes(side, b.inclusive, KeyDiff(b.k, r))
  }

  /** In the asked range, bounds taken as asked. */
  predicate InRange(q: Query, r: RowKey) {
    PassesKey(Below, LowBound(q), r) && PassesKey(Above, HighBound(q), r)
  }

  predicate BeforeRange(q: Query, r: RowKey) {
    if q.descending then !PassesKey(Above, HighBound(q), r) else !PassesKey(Below, LowBound(q), r)
  }

  function Wanted(q: Query): RowKey -> bool {
    (k: RowKey) => InRange(q, k)
  }

  function Skipped(q: Query): RowKey -> bool {
    (k: RowKey) => BeforeRange(q, k)
  }

  /** Between the bounds without equalling either. */
  predicate StrictlyInside(q: Query, r: RowKey) {
    && (LowBound(q).Bounded? ==> KeyDiff(LowBound(q).k, r) < 0)
    && (HighBound(q).Bounded? ==> KeyDiff(HighBound(q).k, r) > 0)
  }

  predicate StrictlyOutside(q: Query, r: RowKey) {
    || (LowBound(q).Bounded? && KeyDiff(LowBound(q).k, r) > 0)
    || (HighBound(q).Bounded? && KeyDiff(HighBound(q).k, r) < 0)
  }

  ghost predicate BoundOver(leaves: iset<Value>, b: KeyBound) {
    b.Bounded? ==> Tree(leaves, b.k.key)
  }

  /** At most one row of the shard equals the bound. */
  ghost predicate Unrepeated(b: KeyBound, rows: seq<Row>) {
    b.Bounded? ==> AtMostOneEqual(RowDiffs(b.k, rows))
  }

  /** Where one bound cuts a shard. */
  function RowCut(side: Side, rows: seq<Row>, b: KeyBound): int {
    if b.Open? then (if side == Below then 0 else |rows|)
    else Cut(side, SearchFrom(RowDiffs(b.k, rows), 0, |rows|), b.inclusive)
  }

  /** The cut separates the rows strictly on either side of the bound, and is exact if the bound is not
      repeated. */
  lemma RowCutRight(side: Side, rows: seq<Row>, b: KeyBound, leaves: iset<Value>)
    requires LeavesOk(leaves) && BoundOver(leaves, b)
    requires Within(rows, RowsOver(leaves)) && Sorted(RowLess, rows) && |rows| < TWO63
    ensures 0 <= RowCut(side, rows, b) <= |rows|
    ensures b.Bounded? ==> forall i | 0 <= i < |rows| ::
              && (KeyDiff(b.k, KeyOf(rows[i])) > 0 ==> i < RowCut(side, rows, b))
              && (KeyDiff(b.k, KeyOf(rows[i])) < 0 ==> i >= RowCut(side, rows, b))
    ensures Unrepeated(b, rows) ==> forall i | 0 <= i < |rows| ::
              PassesKey(side, b, KeyOf(rows[i])) <==>
              (if side == Below then i >= RowCut(side, rows, b) else i < RowCut(side, rows, b))
  {
    hide KeyDiff, RowLess, Tree, Sorted, KeyOf, SearchFrom;
    if b.Bounded? {
      var diffs := RowDiffs(b.k, rows);
      RowDiffsDescend(leaves, b.k, rows);
      SearchRight(diffs, 0, |rows|);
      var r := SearchFrom(diffs, 0, |rows|);
      CutSeparates(side, diffs, r, b.inclusive);
      if AtMostOneEqual(diffs) {
        CutExact(side, diffs, r, b.inclusive);
      }
      assert forall i | 0 <= i < |rows| :: diffs[i] == KeyDiff(b.k, KeyOf(rows[i]));
    }
  }

  method FindRowCut(side: Side, rows: seq<Row>, b: KeyBound, ghost leaves: iset<Value>) returns (cut: nat)
    requires LeavesOk(leaves) && BoundOver(leaves, b)
    requires Within(rows, RowsOver(leaves)) && Sorted(RowLess, rows) && |rows| < TWO63
    ensures cut == RowCut(side, rows, b) <= |rows|
  {
    hide KeyDiff, RowLess, Tree, Sorted, KeyOf, SearchFrom;
    RowCutRight(side, rows, b, leaves);
    if b.Open? {
      cut := if side == Below then 0 else |rows|;
    } else {
      var index := FindResult(rows, b.k, leaves);
      if Missed(index) {
        cut := Complement(index);
      } else {
        cut := index;
        if side == Below {
          if !b.inclusive {
            cut := cut + 1;
          }
        } else if b.inclusive {
          cut := cut + 1;
        }
      }
    }
  }

  predicate HasCuts(q: Query, rows: seq<Row>) {
    && |rows| < TWO63
    && 0 <= RowCut(Below, rows, LowBound(q)) <= |rows|
    && 0 <= RowCut(Above, rows, HighBound(q)) <= |rows|
  }

  /** The window two searches give. */
  function WindowOf(rows: seq<Row>, limit: nat, q: Query): (w: Window)
    requires HasCuts(q, rows)
    ensures w.Valid() && w.size == |rows| && w.limit == Min(limit, |rows|) && w.descending == q.descending
  {
    MakeWindow(RowCut(Below, rows, LowBound(q)), RowCut(Above, rows, HighBound(q)), limit, |rows|, q.descending)
  }

  /** Whatever duplicates there are, the window holds every row strictly inside the range and none strictly
      outside; it is exact if no bound is repeated. */
  lemma WindowOfRight(rows: seq<Row>, limit: nat, q: Query, leaves: iset<Value>)
    requires LeavesOk(leaves) && BoundOver(leaves, LowBound(q)) && BoundOver(leaves, HighBound(q))
    requires Within(rows, RowsOver(leaves)) && Sorted(RowLess, rows) && |rows| < TWO63
    ensures HasCuts(q, rows)
    ensures var w := WindowOf(rows, limit, q);
            forall i | 0 <= i < |rows| ::
              && (StrictlyInside(q, KeyOf(rows[i])) ==> w.start <= i < w.end)
              && (StrictlyOutside(q, KeyOf(rows[i])) ==> !(w.start <= i < w.end))
    ensures var w := WindowOf(rows, limit, q);
            Unrepeated(LowBound(q), rows) && Unrepeated(HighBound(q), rows) ==>
              && (forall i | 0 <= i < |rows| :: w.start <= i < w.end <==> InRange(q, KeyOf(rows[i])))
              && w.Offset() == Count((r: Row) => BeforeRange(q, KeyOf(r)), rows)
  {
    hide KeyDiff, RowLess, Tree, Sorted, Within, KeyOf, Filter, RowCut;
    var lo, hi := LowBound(q), HighBound(q);
    RowCutRight(Below, rows, lo, leaves);
    RowCutRight(Above, rows, hi, leaves);
    var startIndex, endIndex := RowCut(Below, rows, lo), RowCut(Above, rows, hi);
    if Unrepeated(lo, rows) && Unrepeated(hi, rows) {
      var p := (r: Row) => BeforeRange(q, KeyOf(r));
      if q.descending {
        FilterIsWindow(p, rows, endIndex, |rows|);
      } else {
        FilterIsWindow(p, rows, 0, startIndex);
      }
    }
  }

  /** The constructor of MapReduceShardResults. */
  method ResultWindow(rows: seq<Row>, limit: nat, q: Query, ghost leaves: iset<Value>) returns (w: Window)
    requires LeavesOk(leaves) && BoundOver(leaves, LowBound(q)) && BoundOver(leaves, HighBound(q))
    requires Within(rows, RowsOver(leaves)) && Sorted(RowLess, rows) && |rows| < TWO63
    ensures HasCuts(q, rows) && w == WindowOf(rows, limit, q)
    ensures forall i | 0 <= i < |rows| ::
              && (StrictlyInside(q, KeyOf(rows[i])) ==> w.start <= i < w.end)
              && (StrictlyOutside(q, KeyOf(rows[i])) ==> !(w.start <= i < w.end))
    ensures Unrepeated(LowBound(q), rows) && Unrepeated(HighBound(q), rows) ==>
              && (forall i | 0 <= i < |rows| :: w.start <= i < w.end <==> InRange(q, KeyOf(rows[i])))
              && w.Offset() == Count((r: Row) => BeforeRange(q, KeyOf(r)), rows)
  {
    hide KeyDiff, RowLess, Tree, Sorted, Within, KeyOf, Filter, RowCut, StrictlyInside, StrictlyOutside, InRange,
         Unrepeated;
    var startIndex := FindRowCut(Below, rows, LowBound(q), leaves);
    var endIndex := FindRowCut(Above, rows, HighBound(q), leaves);
    WindowOfRight(rows, limit, q, leaves);
    w := MakeWindow(startIndex, endIndex, limit, |rows|, q.descending);
  }
}
