/** Cutting sorted lists: filters, pages, reversal, and why cutting every shard to its first (last)
    m rows before merging does not change the first (last) m rows of the merge. */
module Pages {
  import opened Base
  import opened Merging

  function Filter<T>(p: T -> bool, s: seq<T>): seq<T> {
    if s == [] then [] else (if p(s[0]) then [s[0]] else []) + Filter(p, s[1..])
  }

  function Count<T>(p: T -> bool, s: seq<T>): nat {
    |Filter(p, s)|
  }

  function Reverse<T>(s: seq<T>): (r: seq<T>)
    ensures |r| == |s|
  {
    if s == [] then [] else Reverse(s[1..]) + [s[0]]
  }

  /** The rows of a list in the chosen direction. */
  function Directed<T>(descending: bool, s: seq<T>): (r: seq<T>)
    ensures |r| == |s|
  {
    if descending then Reverse(s) else s
  }

  function Take<T>(s: seq<T>, m: nat): seq<T> {
    if m <= |s| then s[..m] else s
  }

  function Last<T>(s: seq<T>, m: nat): seq<T> {
    if m <= |s| then s[|s| - m..] else s
  }

  /** Drop `skip` rows, then keep at most `limit`. */
  function Page<T>(s: seq<T>, skip: nat, limit: nat): seq<T> {
    if skip <= |s| then Take(s[skip..], limit) else []
  }

  // ---- Filters --------------------------------------------------------------------------

  lemma {:induction false} FilterNone<T>(p: T -> bool, s: seq<T>)
    requires forall i | 0 <= i < |s| :: !p(s[i])
    ensures Filter(p, s) == []
  {
    if s != [] {
      FilterNone(p, s[1..]);
    }
  }

  /** A filter that accepts exactly the positions of a window is that window. */
  lemma {:induction false} FilterIsWindow<T>(p: T -> bool, s: seq<T>, lo: nat, hi: nat)
    requires lo <= hi <= |s|
    requires forall i | 0 <= i < |s| :: p(s[i]) <==> lo <= i < hi
    ensures Filter(p, s) == s[lo..hi]
    decreases |s|
  {
    if hi == 0 {
      FilterNone(p, s);
    } else {
      var rest := s[1..];
      var lo', hi' := if lo == 0 then 0 else lo - 1, hi - 1;
      if lo == hi {
        FilterNone(p, s);
      } else {
        FilterIsWindow(p, rest, lo', hi');
        assert s[lo..hi] == (if lo == 0 then [s[0]] else []) + rest[lo'..hi'];
      }
    }
  }

  lemma {:induction false} FilterRows<T>(p: T -> bool, s: seq<T>, x: T)
    ensures multiset(Filter(p, s))[x] == if p(x) then multiset(s)[x] else 0
  {
    if s != [] {
      FilterRows(p, s[1..], x);
      assert s == [s[0]] + s[1..];
    }
  }

  lemma {:induction false} FilterMembers<T>(p: T -> bool, s: seq<T>, x: T)
    ensures x in Filter(p, s) <==> x in s && p(x)
  {
    if s != [] {
      FilterMembers(p, s[1..], x);
    }
  }

  lemma {:induction false} SameFilter<T>(p: T -> bool, q: T -> bool, s: seq<T>)
    requires forall x | x in s :: p(x) <==> q(x)
    ensures Filter(p, s) == Filter(q, s)
  {
    if s != [] {
      SameFilter(p, q, s[1..]);
    }
  }

  lemma {:induction false} FilterShorter<T>(p: T -> bool, s: seq<T>)
    ensures |Filter(p, s)| <= |s|
  {
    if s != [] {
      FilterShorter(p, s[1..]);
    }
  }

  lemma HeadIsLeast<T(!new)>(lt: (T, T) -> bool, s: seq<T>, x: T)
    requires Sorted(lt, s) && s != [] && x in s[1..]
    ensures !lt(x, s[0])
  {
    var j :| 0 <= j < |s[1..]| && s[1..][j] == x;
    assert s[j + 1] == x;
  }

  lemma FilterWithin<T(!new)>(dom: iset<T>, p: T -> bool, s: seq<T>)
    requires Within(s, dom)
    ensures Within(Filter(p, s), dom)
  {
    var kept := Filter(p, s);
    forall i | 0 <= i < |kept| ensures kept[i] in dom {
      FilterMembers(p, s, kept[i]);
    }
  }

  lemma {:induction false} FilterSorted<T(!new)>(lt: (T, T) -> bool, dom: iset<T>, p: T -> bool, s: seq<T>)
    requires WeakOrder(lt, dom) && Within(s, dom) && Sorted(lt, s)
    ensures Sorted(lt, Filter(p, s)) && Within(Filter(p, s), dom)
  {
    hide WeakOrder;
    FilterWithin(dom, p, s);
    if s != [] {
      var rest := Filter(p, s[1..]);
      FilterSorted(lt, dom, p, s[1..]);
      if rest != [] {
        FilterMembers(p, s[1..], rest[0]);
        HeadIsLeast(lt, s, rest[0]);
      }
      assert s[0] in dom;
      SortedCons(lt, dom, s[0], rest);
    }
  }

  /** Rows that the order does not tell from x. */
  function Alike<T>(lt: (T, T) -> bool, x: T): T -> bool {
    (y: T) => !lt(x, y) && !lt(y, x)
  }

  lemma NoneAlike<T(!new)>(lt: (T, T) -> bool, dom: iset<T>, a: seq<T>, x: T, y: T)
    requires WeakOrder(lt, dom) && Within(a, dom) && Sorted(lt, a) && x in dom && y in dom
    requires a != [] && lt(y, a[0]) && Alike(lt, x)(y)
    ensures Filter(Alike(lt, x), a) == []
  {
    forall i | 0 <= i < |a| ensures !Alike(lt, x)(a[i]) {
      assert a[0] in dom && a[i] in dom;
      assert i == 0 || !lt(a[i], a[0]);
    }
    FilterNone(Alike(lt, x), a);
  }

  lemma FilterHead<T>(p: T -> bool, x: T, s: seq<T>)
    ensures Filter(p, [x] + s) == (if p(x) then [x] else []) + Filter(p, s)
  {
    assert ([x] + s)[1..] == s;
  }

  /** A merge is stable: of rows that the order does not tell apart, those of the first run come first, and each
      run's own stay in their order. */
  lemma {:induction false} MergeStable<T(!new)>(lt: (T, T) -> bool, dom: iset<T>, a: seq<T>, b: seq<T>, x: T)
    requires WeakOrder(lt, dom) && Within(a, dom) && Within(b, dom) && x in dom
    requires Sorted(lt, a) && Sorted(lt, b)
    ensures Filter(Alike(lt, x), Merge(lt, a, b)) == Filter(Alike(lt, x), a) + Filter(Alike(lt, x), b)
    decreases |a| + |b|
  {
    hide WeakOrder, Alike, Filter;
    var p := Alike(lt, x);
    if a == [] || b == [] {
      assert Filter(p, []) == [] by { FilterNone(p, []); }
    } else if lt(b[0], a[0]) {
      assert b == [b[0]] + b[1..] && b[0] in dom;
      MergeStable(lt, dom, a, b[1..], x);
      FilterHead(p, b[0], Merge(lt, a, b[1..]));
      FilterHead(p, b[0], b[1..]);
      if p(b[0]) {
        NoneAlike(lt, dom, a, x, b[0]);
      }
    } else {
      assert a == [a[0]] + a[1..];
      MergeStable(lt, dom, a[1..], b, x);
      FilterHead(p, a[0], Merge(lt, a[1..], b));
      FilterHead(p, a[0], a[1..]);
    }
  }

  // ---- Pages ----------------------------------------------------------------------------

  lemma PageOfTake<T>(s: seq<T>, m: nat, skip: nat, limit: nat)
    requires skip + limit <= m
    ensures Page(Take(s, m), skip, limit) == Page(s, skip, limit)
    ensures Min(skip, |Take(s, m)|) == Min(skip, |s|)
  {
  }

  lemma {:induction false} ReverseAt<T>(s: seq<T>, k: nat)
    requires k < |s|
    ensures Reverse(s)[k] == s[|s| - 1 - k]
  {
    if k < |s| - 1 {
      ReverseAt(s[1..], k);
    }
  }

  lemma ReverseTwice<T>(s: seq<T>)
    ensures Reverse(Reverse(s)) == s
  {
    hide Reverse;
    forall k | 0 <= k < |s| ensures Reverse(Reverse(s))[k] == s[k] {
      ReverseAt(Reverse(s), k);
      ReverseAt(s, |s| - 1 - k);
    }
  }

  lemma ReverseTake<T>(s: seq<T>, m: nat)
    ensures Take(Reverse(s), m) == Reverse(Last(s, m))
  {
    var a, b := Take(Reverse(s), m), Reverse(Last(s, m));
    forall k | 0 <= k < |a| ensures a[k] == b[k] {
      ReverseAt(s, k);
      ReverseAt(Last(s, m), k);
    }
  }

  // ---- Truncating before merging --------------------------------------------------------

  /** Merge every list into the first, one after the other. */
  function MergeAll<T>(lt: (T, T) -> bool, parts: seq<seq<T>>): seq<T> {
    if parts == [] then []
    else Merge(lt, MergeAll(lt, parts[..|parts| - 1]), parts[|parts| - 1])
  }

  lemma {:induction false} MergeTake<T>(lt: (T, T) -> bool, a: seq<T>, a': seq<T>, b: seq<T>, b': seq<T>, m: nat)
    requires Take(a, m) == Take(a', m) && Take(b, m) == Take(b', m)
    ensures Take(Merge(lt, a, b), m) == Take(Merge(lt, a', b'), m)
    decreases m
  {
    if m > 0 {
      assert a == [] <==> a' == [] by { assert |Take(a, m)| == |Take(a', m)|; }
      assert b == [] <==> b' == [] by { assert |Take(b, m)| == |Take(b', m)|; }
      if a != [] && b != [] {
        assert a[0] == Take(a, m)[0] == Take(a', m)[0] == a'[0];
        assert b[0] == Take(b, m)[0] == Take(b', m)[0] == b'[0];
        if lt(b[0], a[0]) {
          TakeLess(a, a', m);
          TakeTail(b, b', m);
          MergeTake(lt, a, a', b[1..], b'[1..], m - 1);
          TakeCons(b[0], Merge(lt, a, b[1..]), Merge(lt, a', b'[1..]), m);
        } else {
          TakeTail(a, a', m);
          TakeLess(b, b', m);
          MergeTake(lt, a[1..], a'[1..], b, b', m - 1);
          TakeCons(a[0], Merge(lt, a[1..], b), Merge(lt, a'[1..], b'), m);
        }
      }
    }
  }

  lemma TakeLess<T>(a: seq<T>, b: seq<T>, m: nat)
    requires m > 0 && Take(a, m) == Take(b, m)
    ensures Take(a, m - 1) == Take(b, m - 1)
  {
    assert Take(a, m - 1) == Take(Take(a, m), m - 1);
    assert Take(b, m - 1) == Take(Take(b, m), m - 1);
  }

  lemma TakeTail<T>(a: seq<T>, b: seq<T>, m: nat)
    requires m > 0 && a != [] && b != [] && Take(a, m) == Take(b, m)
    ensures Take(a[1..], m - 1) == Take(b[1..], m - 1)
  {
    assert Take(a[1..], m - 1) == Take(a, m)[1..];
    assert Take(b[1..], m - 1) == Take(b, m)[1..];
  }

  lemma TakeCons<T>(x: T, a: seq<T>, b: seq<T>, m: nat)
    requires m > 0 && Take(a, m - 1) == Take(b, m - 1)
    ensures Take([x] + a, m) == Take([x] + b, m)
  {
    assert Take([x] + a, m) == [x] + Take(a, m - 1);
    assert Take([x] + b, m) == [x] + Take(b, m - 1);
  }

  lemma {:induction false} MergeAllTake<T>(lt: (T, T) -> bool, xs: seq<seq<T>>, ys: seq<seq<T>>, m: nat)
    requires |xs| == |ys|
    requires forall i | 0 <= i < |xs| :: Take(xs[i], m) == Take(ys[i], m)
    ensures Take(MergeAll(lt, xs), m) == Take(MergeAll(lt, ys), m)
    decreases |xs|
  {
    if xs != [] {
      var n := |xs| - 1;
      MergeAllTake(lt, xs[..n], ys[..n], m);
      MergeTake(lt, MergeAll(lt, xs[..n]), MergeAll(lt, ys[..n]), xs[n], ys[n], m);
    }
  }

  // ---- Direction ------------------------------------------------------------------------

  function Flip<T>(lt: (T, T) -> bool): (T, T) -> bool {
    (a, b) => lt(b, a)
  }

  /** The order rows come out in. */
  function Facing<T>(descending: bool, lt: (T, T) -> bool): (T, T) -> bool {
    if descending then Flip(lt) else lt
  }

  lemma FlipTotal<T(!new)>(lt: (T, T) -> bool, dom: iset<T>)
    requires TotalOrder(lt, dom)
    ensures TotalOrder(Flip(lt), dom)
  {
  }

  lemma {:induction false} ReverseRows<T>(s: seq<T>)
    ensures multiset(Reverse(s)) == multiset(s)
  {
    if s != [] {
      ReverseRows(s[1..]);
      assert s == [s[0]] + s[1..];
    }
  }

  lemma ReverseSorted<T>(lt: (T, T) -> bool, s: seq<T>)
    requires Sorted(lt, s)
    ensures Sorted(Flip(lt), Reverse(s))
  {
    forall i, j | 0 <= i < j < |s| ensures !Flip(lt)(Reverse(s)[j], Reverse(s)[i]) {
      ReverseAt(s, i);
      ReverseAt(s, j);
    }
  }

  lemma DirectedGood<T(!new)>(lt: (T, T) -> bool, dom: iset<T>, descending: bool, s: seq<T>)
    requires Within(s, dom) && Sorted(lt, s)
    ensures Within(Directed(descending, s), dom) && Sorted(Facing(descending, lt), Directed(descending, s))
    ensures multiset(Directed(descending, s)) == multiset(s)
  {
    if descending {
      ReverseSorted(lt, s);
      ReverseRows(s);
      forall i | 0 <= i < |s| ensures Reverse(s)[i] in dom {
        ReverseAt(s, i);
      }
    }
  }

  function DirectedAll<T>(descending: bool, parts: seq<seq<T>>): (r: seq<seq<T>>)
    ensures |r| == |parts|
  {
    seq(|parts|, i requires 0 <= i < |parts| => Directed(descending, parts[i]))
  }

  /** All rows of all parts. */
  function Rows<T>(parts: seq<seq<T>>): multiset<T> {
    if parts == [] then multiset{} else Rows(parts[..|parts| - 1]) + multiset(parts[|parts| - 1])
  }

  lemma {:induction false} MergeAllGood<T(!new)>(lt: (T, T) -> bool, dom: iset<T>, parts: seq<seq<T>>)
    requires WeakOrder(lt, dom) && AllWithin(parts, dom) && AllSorted(lt, parts)
    ensures Sorted(lt, MergeAll(lt, parts)) && Within(MergeAll(lt, parts), dom)
    ensures multiset(MergeAll(lt, parts)) == Rows(parts)
    decreases |parts|
  {
    if parts != [] {
      var n := |parts| - 1;
      MergeAllGood(lt, dom, parts[..n]);
      MergeSorted(lt, dom, MergeAll(lt, parts[..n]), parts[n]);
      MergeWithin(lt, MergeAll(lt, parts[..n]), parts[n], dom);
      MergeKeepsRows(lt, MergeAll(lt, parts[..n]), parts[n]);
    }
  }

  lemma {:induction false} DirectedRows<T>(descending: bool, parts: seq<seq<T>>)
    ensures Rows(DirectedAll(descending, parts)) == Rows(parts)
    decreases |parts|
  {
    if parts != [] {
      var n := |parts| - 1;
      DirectedRows(descending, parts[..n]);
      assert DirectedAll(descending, parts)[..n] == DirectedAll(descending, parts[..n]);
      ReverseRows(parts[n]);
    }
  }

  /** Merging and then reversing is merging the reversed parts by the reversed order. */
  lemma DirectedMerge<T(!new)>(lt: (T, T) -> bool, dom: iset<T>, descending: bool, parts: seq<seq<T>>)
    requires TotalOrder(lt, dom) && AllWithin(parts, dom) && AllSorted(lt, parts)
    ensures Directed(descending, MergeAll(lt, parts))
            == MergeAll(Facing(descending, lt), DirectedAll(descending, parts))
  {
    var facing, turned := Facing(descending, lt), DirectedAll(descending, parts);
    FlipTotal(lt, dom);
    MergeAllGood(lt, dom, parts);
    DirectedGood(lt, dom, descending, MergeAll(lt, parts));
    forall i | 0 <= i < |turned| ensures Within(turned[i], dom) && Sorted(facing, turned[i]) {
      DirectedGood(lt, dom, descending, parts[i]);
    }
    MergeAllGood(facing, dom, turned);
    DirectedRows(descending, parts);
    SortedUnique(facing, dom, Directed(descending, MergeAll(lt, parts)), MergeAll(facing, turned));
  }

  // ---- The two facts the query pipelines need ---------------------------------------------

  /** `cut` keeps the first rows of `full` in the chosen direction, at least m of them if there are m. */
  predicate KeepsLeading<T(==)>(descending: bool, full: seq<T>, cut: seq<T>, m: nat) {
    Take(Directed(descending, cut), m) == Take(Directed(descending, full), m)
  }

  /** A page of the merged truncated parts is that page of the merged full parts. */
  lemma {:induction false} TruncatedPage<T(!new)>(lt: (T, T) -> bool, dom: iset<T>, descending: bool,
                               full: seq<seq<T>>, cut: seq<seq<T>>, skip: nat, limit: nat)
    requires TotalOrder(lt, dom)
    requires AllWithin(full, dom) && AllSorted(lt, full) && AllWithin(cut, dom) && AllSorted(lt, cut)
    requires |cut| == |full|
    requires forall i | 0 <= i < |full| :: KeepsLeading(descending, full[i], cut[i], skip + limit)
    ensures Page(Directed(descending, MergeAll(lt, cut)), skip, limit)
            == Page(Directed(descending, MergeAll(lt, full)), skip, limit)
    ensures Min(skip, |MergeAll(lt, cut)|) == Min(skip, |MergeAll(lt, full)|)
  {
    var m := skip + limit;
    var facing := Facing(descending, lt);
    DirectedMerge(lt, dom, descending, full);
    DirectedMerge(lt, dom, descending, cut);
    MergeAllTake(facing, DirectedAll(descending, cut), DirectedAll(descending, full), m);
    PageOfTake(Directed(descending, MergeAll(lt, cut)), m, skip, limit);
    PageOfTake(Directed(descending, MergeAll(lt, full)), m, skip, limit);
  }

  function FilterEach<T>(p: T -> bool, parts: seq<seq<T>>): (r: seq<seq<T>>)
    ensures |r| == |parts|
  {
    seq(|parts|, i requires 0 <= i < |parts| => Filter(p, parts[i]))
  }

  lemma {:induction false} FilterEachRows<T>(p: T -> bool, parts: seq<seq<T>>, x: T)
    ensures Rows(FilterEach(p, parts))[x] == if p(x) then Rows(parts)[x] else 0
    decreases |parts|
  {
    if parts != [] {
      var n := |parts| - 1;
      FilterEachRows(p, parts[..n], x);
      FilterRows(p, parts[n], x);
      assert FilterEach(p, parts)[..n] == FilterEach(p, parts[..n]);
    }
  }

  /** Merging the filtered parts filters the one sorted list of all rows. */
  lemma {:induction false} FilterOfMerge<T(!new)>(lt: (T, T) -> bool, dom: iset<T>, p: T -> bool,
                                           parts: seq<seq<T>>, all: seq<T>)
    requires TotalOrder(lt, dom) && AllWithin(parts, dom) && AllSorted(lt, parts)
    requires Sorted(lt, all) && multiset(all) == Rows(parts) && Within(all, dom)
    ensures MergeAll(lt, FilterEach(p, parts)) == Filter(p, all)
    ensures AllWithin(FilterEach(p, parts), dom) && AllSorted(lt, FilterEach(p, parts))
  {
    var kept := FilterEach(p, parts);
    forall i | 0 <= i < |kept| ensures Within(kept[i], dom) && Sorted(lt, kept[i]) {
      FilterSorted(lt, dom, p, parts[i]);
    }
    MergeAllGood(lt, dom, kept);
    FilterSorted(lt, dom, p, all);
    forall x ensures Rows(kept)[x] == multiset(Filter(p, all))[x] {
      FilterEachRows(p, parts, x);
      FilterRows(p, all, x);
    }
    SortedUnique(lt, dom, MergeAll(lt, kept), Filter(p, all));
  }

  /** Counting over the sorted list is counting part by part. */
  lemma CountRows<T(!new)>(p: T -> bool, s: seq<T>, parts: seq<seq<T>>)
    requires multiset(s) == Rows(parts)
    ensures Count(p, s) == |Rows(FilterEach(p, parts))|
  {
    forall x ensures multiset(Filter(p, s))[x] == Rows(FilterEach(p, parts))[x] {
      FilterEachRows(p, parts, x);
      FilterRows(p, s, x);
    }
    assert multiset(Filter(p, s)) == Rows(FilterEach(p, parts));
    assert |multiset(Filter(p, s))| == |Filter(p, s)|;
  }
}
