/** Where a row of a page stands among all rows, by counting the rows ahead of it. */
module Ranks {
  import opened Base
  import opened Pages

  /** How many positions hold a row of the kind. */
  ghost function CountIf<T(!new)>(p: T -> bool, s: seq<T>): nat {
    |set i | 0 <= i < |s| && p(s[i])|
  }

  function Both<T>(p: T -> bool, q: T -> bool): T -> bool {
    (x: T) => p(x) && q(x)
  }

  function AheadOf<T>(ahead: (T, T) -> bool, x: T): T -> bool {
    (y: T) => ahead(y, x)
  }

  function NotBehind<T>(ahead: (T, T) -> bool, x: T): T -> bool {
    (y: T) => !ahead(x, y)
  }

  lemma {:induction false} FilterSnoc<T>(p: T -> bool, s: seq<T>, x: T)
    ensures Filter(p, s + [x]) == Filter(p, s) + if p(x) then [x] else []
  {
    if s == [] {
      assert Filter(p, [x][1..]) == [];
    } else {
      FilterSnoc(p, s[1..], x);
      assert (s + [x])[1..] == s[1..] + [x];
    }
  }

  lemma {:induction false} CountIfFilter<T(!new)>(p: T -> bool, s: seq<T>)
    ensures CountIf(p, s) == |Filter(p, s)|
    decreases |s|
  {
    if s != [] {
      var n := |s| - 1;
      var init := s[..n];
      assert s == init + [s[n]];
      CountIfFilter(p, init);
      FilterSnoc(p, init, s[n]);
      var before := set i | 0 <= i < n && p(init[i]);
      assert (set i | 0 <= i < |s| && p(s[i])) == if p(s[n]) then before + {n} else before;
    }
  }

  lemma SameRows<T(!new)>(a: seq<T>, b: seq<T>)
    requires forall x :: multiset(a)[x] == multiset(b)[x]
    ensures |a| == |b|
  {
    assert multiset(a) == multiset(b);
    assert |multiset(a)| == |a| && |multiset(b)| == |b|;
  }

  /** The order of the rows does not matter for a count. */
  lemma CountIfPermuted<T(!new)>(p: T -> bool, a: seq<T>, b: seq<T>)
    requires multiset(a) == multiset(b)
    ensures CountIf(p, a) == CountIf(p, b)
  {
    CountIfFilter(p, a);
    CountIfFilter(p, b);
    forall x ensures multiset(Filter(p, a))[x] == multiset(Filter(p, b))[x] {
      FilterRows(p, a, x);
      FilterRows(p, b, x);
    }
    SameRows(Filter(p, a), Filter(p, b));
  }

  /** Counting among the filtered rows, in either direction, is counting both conditions among all. */
  lemma CountFiltered<T(!new)>(asked: T -> bool, p: T -> bool, keys: seq<T>, descending: bool)
    ensures CountIf(p, Directed(descending, Filter(asked, keys))) == CountIf(Both(asked, p), keys)
  {
    var both := Both(asked, p);
    var listed := Filter(asked, keys);
    ReverseRows(listed);
    CountIfPermuted(p, Directed(descending, listed), listed);
    CountIfFilter(p, listed);
    CountIfFilter(both, keys);
    forall x ensures multiset(Filter(p, listed))[x] == multiset(Filter(both, keys))[x] {
      FilterRows(p, listed, x);
      FilterRows(asked, keys, x);
      FilterRows(both, keys, x);
    }
    SameRows(Filter(p, listed), Filter(both, keys));
  }

  /** No row comes behind one that is to be ahead of it. */
  ghost predicate InOrder<T(!new)>(ahead: (T, T) -> bool, v: seq<T>) {
    forall i, j | 0 <= i <= j < |v| :: !ahead(v[j], v[i])
  }

  /** At most i rows are ahead of row i, and more than i are not behind it. */
  lemma RankInList<T(!new)>(ahead: (T, T) -> bool, v: seq<T>, i: nat)
    requires InOrder(ahead, v) && i < |v|
    ensures CountIf(AheadOf(ahead, v[i]), v) <= i < CountIf(NotBehind(ahead, v[i]), v)
  {
    var before := set j | 0 <= j < |v| && AheadOf(ahead, v[i])(v[j]);
    var upTo := set j | 0 <= j < |v| && NotBehind(ahead, v[i])(v[j]);
    SubsetSize(before, Numbers(i));
    SubsetSize(Numbers(i + 1), upTo);
  }

  /** Row k of a page is the one with place skip + k among the rows asked for, in the direction of the query:
      at most so many are ahead of it, and with those that are not behind it there are more. */
  lemma PageRank<T(!new)>(asked: T -> bool, ahead: (T, T) -> bool, keys: seq<T>, descending: bool,
                          skip: nat, limit: nat, k: nat)
    requires InOrder(ahead, Directed(descending, Filter(asked, keys)))
    requires k < |Page(Directed(descending, Filter(asked, keys)), skip, limit)|
    ensures var x := Page(Directed(descending, Filter(asked, keys)), skip, limit)[k];
            && asked(x)
            && CountIf(Both(asked, AheadOf(ahead, x)), keys) <= skip + k
               < CountIf(Both(asked, NotBehind(ahead, x)), keys)
  {
    hide CountIf, Both, AheadOf, NotBehind, Filter, InOrder, Reverse;
    var v := Directed(descending, Filter(asked, keys));
    var x := v[skip + k];
    RankInList(ahead, v, skip + k);
    CountFiltered(asked, AheadOf(ahead, x), keys, descending);
    CountFiltered(asked, NotBehind(ahead, x), keys, descending);
    ReverseRows(Filter(asked, keys));
    assert x in multiset(v);
    FilterMembers(asked, keys, x);
  }

  /** How many rows a page has. */
  lemma PageSize<T>(s: seq<T>, skip: nat, limit: nat)
    ensures |Page(s, skip, limit)| == Min(limit, Max(0, |s| - skip))
  {
  }
}
