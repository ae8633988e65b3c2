/** Sorted sequences and the stable merge of `std::inplace_merge`, for an order that is
    only known to behave on a domain `dom`. */
module Merging {

  /** `lt` is a strict weak order on `dom`: the requirement of the standard algorithms. */
  ghost predicate WeakOrder<T(!new)>(lt: (T, T) -> bool, dom: iset<T>) {
    && (forall a, b | a in dom && b in dom && lt(a, b) :: !lt(b, a))
    && (forall a, b, c | a in dom && b in dom && c in dom && !lt(a, b) && !lt(b, c) :: !lt(a, c))
  }

  /** `lt` moreover tells any two members of `dom` apart. */
  ghost predicate TotalOrder<T(!new)>(lt: (T, T) -> bool, dom: iset<T>) {
    && WeakOrder(lt, dom)
    && (forall a, b | a in dom && b in dom && !lt(a, b) && !lt(b, a) :: a == b)
  }

  ghost predicate Within<T(!new)>(s: seq<T>, dom: iset<T>) {
    forall i | 0 <= i < |s| :: s[i] in dom
  }

  ghost predicate AllWithin<T(!new)>(ss: seq<seq<T>>, dom: iset<T>) {
    forall i | 0 <= i < |ss| :: Within(ss[i], dom)
  }

  ghost predicate Sorted<T>(lt: (T, T) -> bool, s: seq<T>) {
    forall i, j | 0 <= i < j < |s| :: !lt(s[j], s[i])
  }

  ghost predicate AllSorted<T>(lt: (T, T) -> bool, ss: seq<seq<T>>) {
    forall i | 0 <= i < |ss| :: Sorted(lt, ss[i])
  }

  /** Stable merge: on a tie the element of the left run goes first. */
  function Merge<T>(lt: (T, T) -> bool, a: seq<T>, b: seq<T>): (r: seq<T>)
    ensures |r| == |a| + |b|
  {
    if a == [] then b
    else if b == [] then a
    else if lt(b[0], a[0]) then [b[0]] + Merge(lt, a, b[1..])
    else [a[0]] + Merge(lt, a[1..], b)
  }

  function Concat<T>(ss: seq<seq<T>>): seq<T> {
    if ss == [] then [] else ss[0] + Concat(ss[1..])
  }

  lemma {:induction false} ConcatAppend<T>(xs: seq<seq<T>>, ys: seq<seq<T>>)
    ensures Concat(xs + ys) == Concat(xs) + Concat(ys)
  {
    if xs == [] {
      assert xs + ys == ys;
    } else {
      assert (xs + ys)[1..] == xs[1..] + ys;
      ConcatAppend(xs[1..], ys);
    }
  }

  lemma ConcatSingle<T>(x: seq<T>)
    ensures Concat([x]) == x
  {
    assert [x][1..] == [];
  }

  lemma HeadCounts<T>(s: seq<T>)
    requires s != []
    ensures multiset(s) == multiset{s[0]} + multiset(s[1..])
  {
    assert s == [s[0]] + s[1..];
  }

  /** A merge keeps every row of both runs, with its multiplicity. */
  lemma {:induction false} MergeKeepsRows<T>(lt: (T, T) -> bool, a: seq<T>, b: seq<T>)
    ensures multiset(Merge(lt, a, b)) == multiset(a) + multiset(b)
  {
    if a == [] || b == [] {
    } else if lt(b[0], a[0]) {
      MergeKeepsRows(lt, a, b[1..]);
      HeadCounts(b);
      HeadCounts(Merge(lt, a, b));
    } else {
      MergeKeepsRows(lt, a[1..], b);
      HeadCounts(a);
      HeadCounts(Merge(lt, a, b));
    }
  }

  lemma MergeWithin<T(!new)>(lt: (T, T) -> bool, a: seq<T>, b: seq<T>, dom: iset<T>)
    requires Within(a, dom) && Within(b, dom)
    ensures Within(Merge(lt, a, b), dom)
  {
    MergeKeepsRows(lt, a, b);
    var m := Merge(lt, a, b);
    forall i | 0 <= i < |m| ensures m[i] in dom {
      assert m[i] in multiset(m);
      assert m[i] in multiset(a) || m[i] in multiset(b);
    }
  }

  lemma SortedCons<T(!new)>(lt: (T, T) -> bool, dom: iset<T>, x: T, s: seq<T>)
    requires WeakOrder(lt, dom) && x in dom && Within(s, dom)
    requires Sorted(lt, s) && (s == [] || !lt(s[0], x))
    ensures Sorted(lt, [x] + s)
  {
    var t := [x] + s;
    forall i, j | 0 <= i < j < |t| ensures !lt(t[j], t[i]) {
      assert t[j] == s[j - 1] && s[0] in dom;
      if i == 0 {
        assert j == 1 || !lt(s[j - 1], s[0]);
      } else {
        assert t[i] == s[i - 1];
      }
    }
  }

  lemma SortedTail<T>(lt: (T, T) -> bool, s: seq<T>, lo: nat, hi: nat)
    requires Sorted(lt, s) && lo <= hi <= |s|
    ensures Sorted(lt, s[lo..hi])
  {
  }

  /** Merging two sorted runs gives a sorted run. */
  lemma {:induction false} MergeSorted<T(!new)>(lt: (T, T) -> bool, dom: iset<T>, a: seq<T>, b: seq<T>)
    requires WeakOrder(lt, dom) && Within(a, dom) && Within(b, dom)
    requires Sorted(lt, a) && Sorted(lt, b)
    ensures Sorted(lt, Merge(lt, a, b))
  {
    if a == [] || b == [] {
    } else {
      if lt(b[0], a[0]) {
        MergeSorted(lt, dom, a, b[1..]);
        MergeWithin(lt, a, b[1..], dom);
        SortedCons(lt, dom, b[0], Merge(lt, a, b[1..]));
      } else {
        MergeSorted(lt, dom, a[1..], b);
        MergeWithin(lt, a[1..], b, dom);
        SortedCons(lt, dom, a[0], Merge(lt, a[1..], b));
      }
    }
  }

  /** The head of a sorted run is the least of its rows. */
  lemma SortedHead<T(!new)>(lt: (T, T) -> bool, dom: iset<T>, s: seq<T>, x: T)
    requires WeakOrder(lt, dom) && Within(s, dom) && Sorted(lt, s)
    requires x in multiset(s)
    ensures s != [] && !lt(x, s[0])
  {
    var i :| 0 <= i < |s| && s[i] == x;
    assert s[0] in dom;
    assert i == 0 || !lt(s[i], s[0]);
  }

  lemma PopHead<T>(s: seq<T>)
    requires s != []
    ensures multiset(s[1..]) == multiset(s) - multiset{s[0]}
  {
    assert s == [s[0]] + s[1..];
  }

  lemma SameHead<T(!new)>(lt: (T, T) -> bool, dom: iset<T>, a: seq<T>, b: seq<T>)
    requires TotalOrder(lt, dom) && Within(a, dom) && Within(b, dom)
    requires Sorted(lt, a) && Sorted(lt, b)
    requires multiset(a) == multiset(b) && a != []
    ensures b != [] && a[0] == b[0]
    ensures multiset(a[1..]) == multiset(b[1..])
  {
    assert a[0] in multiset(a);
    SortedHead(lt, dom, b, a[0]);
    assert b[0] in multiset(b);
    SortedHead(lt, dom, a, b[0]);
    assert a[0] in dom && b[0] in dom;
    PopHead(a);
    PopHead(b);
  }

  /** On a total order the sorted arrangement of a bag of rows is unique. */
  lemma {:induction false} SortedUnique<T(!new)>(lt: (T, T) -> bool, dom: iset<T>, a: seq<T>, b: seq<T>)
    requires TotalOrder(lt, dom) && Within(a, dom) && Within(b, dom)
    requires Sorted(lt, a) && Sorted(lt, b)
    requires multiset(a) == multiset(b)
    ensures a == b
    decreases |a|
  {
    if a == [] {
      assert |multiset(b)| == |b|;
    } else {
      SameHead(lt, dom, a, b);
      var x, y := a[1..], b[1..];
      assert Sorted(lt, x) && Sorted(lt, y) by {
        SortedTail(lt, a, 1, |a|);
        SortedTail(lt, b, 1, |b|);
      }
      assert Within(x, dom) && Within(y, dom);
      SortedUnique(lt, dom, x, y);
      assert a == [a[0]] + x && b == [b[0]] + y;
    }
  }
}
