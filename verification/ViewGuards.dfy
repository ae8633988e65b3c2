/** How often a bound of a view query may be repeated: exactly once for the query to be right. */
module ViewGuards {
  import opened Base
  import opened Merging
  import opened Pages
  import opened Collation
  import opened Windows
  import opened MergeSchedule
  import opened ViewRows
  import opened ViewResults
  import opened MapReduce
  import ViewPages

  predicate MeetsAtMost(b: KeyBound, rows: seq<Row>, repeats: nat) {
    b.Bounded? ==> EqualCount(RowDiffs(b.k, rows)) <= repeats
  }

  /** No shard has more than so many rows equal to a bound. */
  ghost predicate RepeatsWithin(q: Query, sources: seq<seq<Row>>, repeats: nat) {
    forall i | 0 <= i < |sources| ::
      MeetsAtMost(LowBound(q), sources[i], repeats) && MeetsAtMost(HighBound(q), sources[i], repeats)
  }

  /** One execution on n shards, with the one sorted list it is compared with. */
  ghost predicate Instance(n: nat, repeats: nat, leaves: iset<Value>, q: Query, sources: seq<seq<Row>>, all: seq<Row>,
                           results: Results<Row>) {
    && |sources| == n && ShardsReady(leaves, q, sources) && RepeatsWithin(q, sources, repeats)
    && Sorted(RowLess, all) && multiset(all) == multiset(Concat(sources))
    && Computed(q, sources, results)
  }

  /** A bound on repetitions is enough for every query on every n shards. */
  ghost predicate AlwaysRight(n: nat, repeats: nat) {
    forall leaves, q, sources, all, results | Instance(n, repeats, leaves, q, sources, all, results) ::
      ViewRight(q, all, results)
  }

  lemma FewRepeats(q: Query, sources: seq<seq<Row>>, repeats: nat)
    requires RepeatsWithin(q, sources, repeats) && repeats <= 1
    ensures BoundsUnrepeated(q, sources)
  {
    forall i | 0 <= i < |sources| ensures Unrepeated(LowBound(q), sources[i]) && Unrepeated(HighBound(q), sources[i]) {
      assert MeetsAtMost(LowBound(q), sources[i], repeats) && MeetsAtMost(HighBound(q), sources[i], repeats);
      if LowBound(q).Bounded? {
        OneEqual(RowDiffs(LowBound(q).k, sources[i]));
      }
      if HighBound(q).Bounded? {
        OneEqual(RowDiffs(HighBound(q).k, sources[i]));
      }
    }
  }

  // ---- Two rows with one key --------------------------------------------------------------

  const FIRST := Row(Null, Null, "a")
  const SECOND := Row(Null, Null, "b")

  /** All rows up to a key, that key included, without a document id. */
  const UP_TO_NULL := Query(None, Some(QueryKey(Null, "")), true, false, 0, 2)

  function TwoRows(n: nat): (sources: seq<seq<Row>>)
    requires n > 0
    ensures |sources| == n
  {
    [[FIRST, SECOND]] + seq(n - 1, _ => [])
  }

  lemma {:induction false} OnlyFirst<T>(x: seq<T>, rest: seq<seq<T>>)
    requires forall i | 0 <= i < |rest| :: rest[i] == []
    ensures Concat([x] + rest) == x
    decreases |rest|
  {
    assert ([x] + rest)[1..] == rest;
    if rest == [] {
      assert Concat(rest) == [];
    } else {
      OnlyFirst([], rest[1..]);
      assert rest == [[]] + rest[1..];
      assert Concat(rest) == [];
    }
  }

  lemma RowFacts()
    ensures RowLess(FIRST, SECOND) && !RowLess(SECOND, FIRST)
    ensures RowDiffs(QueryKey(Null, ""), [FIRST, SECOND]) == [0, 0] && RowDiffs(QueryKey(Null, ""), []) == []
    ensures LowBound(UP_TO_NULL) == Open && HighBound(UP_TO_NULL) == Bounded(QueryKey(Null, ""), true)
  {
  }

  lemma CutOne()
    ensures HasCuts(UP_TO_NULL, [FIRST, SECOND])
    ensures ShardWindow(UP_TO_NULL, [FIRST, SECOND]).Slice([FIRST, SECOND]) == [FIRST]
  {
    hide Order, RowDiffs;
    RowFacts();
    assert SearchFrom([0, 0], 0, 2) == 0;
    assert RowCut(Above, [FIRST, SECOND], HighBound(UP_TO_NULL)) == 1;
    assert RowCut(Below, [FIRST, SECOND], LowBound(UP_TO_NULL)) == 0;
  }

  lemma CutNone()
    ensures HasCuts(UP_TO_NULL, []) && ShardWindow(UP_TO_NULL, []).Slice<Row>([]) == []
  {
    hide Order, RowDiffs;
    RowFacts();
    assert SearchFrom([], 0, 0) == Complement(0);
    assert RowCut(Above, [], HighBound(UP_TO_NULL)) == 0 && RowCut(Below, [], LowBound(UP_TO_NULL)) == 0;
  }

  /** The first shard gives one of its two rows, the others nothing. */
  lemma TwoRowsCut(n: nat)
    requires n > 0
    ensures AllCut(UP_TO_NULL, TwoRows(n))
    ensures Concat(Slices(TwoRows(n), WindowsOf(UP_TO_NULL, TwoRows(n)))) == [FIRST]
  {
    hide HasCuts, ShardWindow, Concat;
    CutOne();
    CutNone();
    var sources := TwoRows(n);
    assert sources[0] == [FIRST, SECOND] && forall i | 1 <= i < n :: sources[i] == [];
    var cuts := Slices(sources, WindowsOf(UP_TO_NULL, sources));
    assert cuts[0] == [FIRST] && forall i | 1 <= i < n :: cuts[i] == [];
    assert cuts == [cuts[0]] + cuts[1..];
    OnlyFirst(cuts[0], cuts[1..]);
  }

  lemma TwoRowsReady(n: nat)
    requires n > 0
    ensures ShardsReady(iset{Null}, UP_TO_NULL, TwoRows(n)) && Concat(TwoRows(n)) == [FIRST, SECOND]
    ensures RepeatsWithin(UP_TO_NULL, TwoRows(n), 2)
    ensures Sorted(RowLess, [FIRST, SECOND])
  {
    RowFacts();
    var sources := TwoRows(n);
    OnlyFirst([FIRST, SECOND], seq(n - 1, _ => []));
    assert forall i | 1 <= i < n :: sources[i] == [];
    assert Tree(iset{Null}, Null);
    assert Within([FIRST, SECOND], RowsOver(iset{Null})) && Sorted(RowLess, [FIRST, SECOND]);
    assert [0, 0][1..] == [0] && EqualCount([0, 0]) == 2;
  }

  /** The second row is in the range and is not delivered. */
  lemma SecondRowLost(n: nat) returns (results: Results<Row>)
    requires n > 0
    ensures Computed(UP_TO_NULL, TwoRows(n), results)
    ensures InRange(UP_TO_NULL, KeyOf(SECOND)) && ViewPages.Asked(UP_TO_NULL, KeyOf(SECOND))
    ensures |Delivered(results)| <= 1
    ensures !ViewRight(UP_TO_NULL, [FIRST, SECOND], results)
  {
    TwoRowsCut(n);
    RowFacts();
    var q, sources := UP_TO_NULL, TwoRows(n);
    var windows := WindowsOf(q, sources);
    var rows := Schedule(RowLess, Slices(sources, windows));
    ScheduleKeepsRows(RowLess, Slices(sources, windows));
    assert |multiset(rows)| == |rows| && |multiset([FIRST])| == 1;
    results := MakeResults(rows, OffsetSum(windows), |Concat(sources)|, q.skip, q.limit, q.descending);
    results.Bounds();
    WantedKeys();
  }

  lemma WantedKeys()
    ensures var keys := KeysOf([FIRST, SECOND]);
            InRange(UP_TO_NULL, KeyOf(SECOND)) && |Page(Directed(false, Filter(Wanted(UP_TO_NULL), keys)), 0, 2)| == 2
  {
    RowFacts();
    var keys := KeysOf([FIRST, SECOND]);
    assert keys == [KeyOf(FIRST), KeyOf(SECOND)];
    assert InRange(UP_TO_NULL, KeyOf(FIRST)) && InRange(UP_TO_NULL, KeyOf(SECOND));
    FilterIsWindow(Wanted(UP_TO_NULL), keys, 0, 2);
  }

  /** The exact guard: on any number of shards the merge can handle, the query is right for every store and
      every bound if and only if no shard holds two rows equal to a bound. */
  lemma ViewGuard(n: nat, repeats: nat)
    requires n > 0 && PopCount(n) <= 2
    ensures AlwaysRight(n, repeats) <==> repeats <= 1
  {
    hide ShardsReady, Computed, ViewRight, Sorted, RepeatsWithin, PopCount, RowLess;
    if repeats <= 1 {
      forall leaves, q, sources, all, results | Instance(n, repeats, leaves, q, sources, all, results)
        ensures ViewRight(q, all, results)
      {
        FewRepeats(q, sources, repeats);
        ComputedIsRight(leaves, q, sources, all, results);
      }
    } else {
      TwoRowsReady(n);
      MoreRepeats(UP_TO_NULL, TwoRows(n), repeats);
      var results := SecondRowLost(n);
      assert Instance(n, repeats, iset{Null}, UP_TO_NULL, TwoRows(n), [FIRST, SECOND], results);
    }
  }

  lemma MoreRepeats(q: Query, sources: seq<seq<Row>>, repeats: nat)
    requires RepeatsWithin(q, sources, 2) && repeats >= 2
    ensures RepeatsWithin(q, sources, repeats)
  {
    forall i | 0 <= i < |sources|
      ensures MeetsAtMost(LowBound(q), sources[i], repeats) && MeetsAtMost(HighBound(q), sources[i], repeats)
    {
      assert MeetsAtMost(LowBound(q), sources[i], 2) && MeetsAtMost(HighBound(q), sources[i], 2);
    }
  }
}
