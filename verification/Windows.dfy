/** The window a shard contributes to a ranged query: binary search for the bounds, then the
    limit, in the wrap-around arithmetic of `size_t`. Shared by documents and view rows. */
module Windows {
  import opened Base
  import opened Pages

  // ---- Search results -------------------------------------------------------------------

  /** `~m`: how a search reports the insertion point m of a missing key. */
  function Complement(m: int): int {
    TWO64 - 1 - m
  }

  /** The test against FindMissedFlag, the top bit. */
  predicate Missed(r: int) {
    r >= TWO63
  }

  /** Comparisons of a key with the rows of a sorted array: positive while the rows are below the
      key, negative once they are above it. */
  ghost predicate Descends(diffs: seq<int>) {
    forall i, j | 0 <= i < j < |diffs| :: Sign(diffs[j]) <= Sign(diffs[i])
  }

  /** A correct search result: a position of an equal row or, if there is none, the complement of
      the one position where a row with the key could be inserted. */
  ghost predicate SearchResult(diffs: seq<int>, r: int) {
    if Missed(r) then
      && 0 <= Complement(r) <= |diffs|
      && (forall i | 0 <= i < Complement(r) :: diffs[i] > 0)
      && (forall i | Complement(r) <= i < |diffs| :: diffs[i] < 0)
    else
      0 <= r < |diffs| && diffs[r] == 0
  }

  /** A miss never looks like a hit, and its complement is a position. */
  lemma ComplementClash(m: int)
    requires 0 <= m < TWO63
    ensures Missed(Complement(m)) && Complement(Complement(m)) == m && !Missed(m)
  {
  }

  /** Where the binary search goes, given the comparisons: the loop of every FindDocument and FindResult
      between its `min` and one past its `max`. */
  function SearchFrom(diffs: seq<int>, min: nat, past: nat): int
    requires min <= past <= |diffs|
    decreases past - min
  {
    if min == past then Complement(min)
    else
      var mid := (past - 1 - min) / 2 + min;
      if diffs[mid] == 0 then mid
      else if diffs[mid] < 0 then SearchFrom(diffs, min, mid)
      else SearchFrom(diffs, mid + 1, past)
  }

  /** What one comparison says about the rows on either side. */
  lemma Spread(diffs: seq<int>, mid: nat)
    requires Descends(diffs) && mid < |diffs|
    ensures diffs[mid] < 0 ==> forall i | mid <= i < |diffs| :: diffs[i] < 0
    ensures diffs[mid] > 0 ==> forall i | 0 <= i <= mid :: diffs[i] > 0
  {
  }

  /** One turn of the loop. */
  lemma SearchStep(diffs: seq<int>, min: nat, max: nat)
    requires min <= max < |diffs|
    ensures var mid := (max - min) / 2 + min;
            && min <= mid <= max
            && SearchFrom(diffs, min, max + 1) ==
               if diffs[mid] == 0 then mid
               else if diffs[mid] < 0 then SearchFrom(diffs, min, mid)
               else SearchFrom(diffs, mid + 1, max + 1)
  {
  }

  lemma SearchEmpty(diffs: seq<int>, min: nat)
    requires min <= |diffs|
    ensures SearchFrom(diffs, min, min) == Complement(min)
  {
  }

  /** On sorted rows the search is right. */
  lemma {:induction false} SearchRight(diffs: seq<int>, min: nat, past: nat)
    requires Descends(diffs) && |diffs| < TWO63 && min <= past <= |diffs|
    requires forall i | 0 <= i < min :: diffs[i] > 0
    requires forall i | past <= i < |diffs| :: diffs[i] < 0
    ensures SearchResult(diffs, SearchFrom(diffs, min, past))
    ensures 0 <= SearchFrom(diffs, min, past) < TWO64
    decreases past - min
  {
    ComplementClash(past);
    if min < past {
      var mid := (past - 1 - min) / 2 + min;
      Spread(diffs, mid);
      if diffs[mid] < 0 {
        SearchRight(diffs, min, mid);
      } else if diffs[mid] > 0 {
        SearchRight(diffs, mid + 1, past);
      }
    }
  }

  // ---- Cuts -----------------------------------------------------------------------------

  datatype Side = Below | Above

  /** Where a bound cuts the rows. `Below`: the rows kept start here; `Above`: they end here. */
  function Cut(side: Side, r: int, inclusive: bool): int {
    if Missed(r) then Complement(r)
    else
      match side
      case Below => if inclusive then r else r + 1
      case Above => if inclusive then r + 1 else r
  }

  /** The rows a bound lets through, given their comparison with it. */
  predicate Passes(side: Side, inclusive: bool, diff: int) {
    match side
    case Below => diff < 0 || (inclusive && diff == 0)
    case Above => diff > 0 || (inclusive && diff == 0)
  }

  ghost predicate AtMostOneEqual(diffs: seq<int>) {
    forall i, j | 0 <= i < j < |diffs| :: !(diffs[i] == 0 && diffs[j] == 0)
  }

  /** With duplicates: every row strictly on the kept side of the bound is kept, every row strictly
      on the other side is dropped; only rows equal to the bound are undetermined. */
  lemma CutSeparates(side: Side, diffs: seq<int>, r: int, inclusive: bool)
    requires Descends(diffs) && SearchResult(diffs, r)
    ensures 0 <= Cut(side, r, inclusive) <= |diffs|
    ensures forall i | 0 <= i < |diffs| && diffs[i] > 0 :: i < Cut(side, r, inclusive)
    ensures forall i | 0 <= i < |diffs| && diffs[i] < 0 :: i >= Cut(side, r, inclusive)
  {
  }

  /** The cut is the asked bound. */
  ghost predicate CutIsExact(side: Side, diffs: seq<int>, r: int, inclusive: bool) {
    forall i | 0 <= i < |diffs| ::
      Passes(side, inclusive, diffs[i]) <==>
      (if side == Below then i >= Cut(side, r, inclusive) else i < Cut(side, r, inclusive))
  }

  /** Without duplicates of the bound the cut is exact. */
  lemma CutExact(side: Side, diffs: seq<int>, r: int, inclusive: bool)
    requires Descends(diffs) && SearchResult(diffs, r) && AtMostOneEqual(diffs)
    ensures CutIsExact(side, diffs, r, inclusive)
  {
    CutSeparates(side, diffs, r, inclusive);
  }

  /** How many rows equal the bound. */
  function EqualCount(diffs: seq<int>): (c: nat)
    ensures c <= |diffs|
  {
    if diffs == [] then 0 else (if diffs[0] == 0 then 1 else 0) + EqualCount(diffs[1..])
  }

  lemma {:induction false} NoneEqual(diffs: seq<int>)
    ensures EqualCount(diffs) == 0 <==> forall i | 0 <= i < |diffs| :: diffs[i] != 0
  {
    if diffs != [] {
      NoneEqual(diffs[1..]);
      assert forall i | 1 <= i < |diffs| :: diffs[i] == diffs[1..][i - 1];
      assert diffs[0] == diffs[0];
    }
  }

  lemma {:induction false} OneEqual(diffs: seq<int>)
    ensures EqualCount(diffs) <= 1 <==> AtMostOneEqual(diffs)
  {
    if diffs != [] {
      OneEqual(diffs[1..]);
      NoneEqual(diffs[1..]);
      assert forall i | 1 <= i < |diffs| :: diffs[i] == diffs[1..][i - 1];
      assert forall i | 0 <= i < |diffs| - 1 :: diffs[1..][i] == diffs[i + 1];
    }
  }

  /** A bound on repetitions is enough for every sorted array. */
  ghost predicate AlwaysExact(side: Side, inclusive: bool, repeats: nat) {
    forall diffs: seq<int> | Descends(diffs) && |diffs| < TWO63 && EqualCount(diffs) <= repeats ::
      CutIsExact(side, diffs, SearchFrom(diffs, 0, |diffs|), inclusive)
  }

  lemma TwoEqual(side: Side, inclusive: bool)
    ensures !CutIsExact(side, [0, 0], SearchFrom([0, 0], 0, 2), inclusive)
            || !CutIsExact(side, [0, 0, -1], SearchFrom([0, 0, -1], 0, 3), inclusive)
  {
    var two, three := [0, 0], [0, 0, -1];
    assert SearchFrom(two, 0, 2) == 0 && SearchFrom(three, 0, 3) == 1;
    assert two[1] == 0 && three[0] == 0;
  }

  /** The exact guard, on either side of the range and for either kind of bound: the cut is right on all
      sorted rows exactly when the bound may be met by one row at most. */
  lemma CutGuard(side: Side, inclusive: bool, repeats: nat)
    ensures AlwaysExact(side, inclusive, repeats) <==> repeats <= 1
  {
    if repeats <= 1 {
      forall diffs: seq<int> | Descends(diffs) && |diffs| < TWO63 && EqualCount(diffs) <= repeats
        ensures CutIsExact(side, diffs, SearchFrom(diffs, 0, |diffs|), inclusive)
      {
        OneEqual(diffs);
        SearchRight(diffs, 0, |diffs|);
        CutExact(side, diffs, SearchFrom(diffs, 0, |diffs|), inclusive);
      }
    } else {
      TwoEqual(side, inclusive);
      var two, three := [0, 0], [0, 0, -1];
      assert two[1..] == [0] && three[1..] == [0, -1] && three[1..][1..] == [-1];
      assert EqualCount(two) == 2 && EqualCount(three) == 2;
      assert |two| == 2 && |three| == 3;
    }
  }

  // ---- The window -----------------------------------------------------------------------

  /** Saturating subtraction, computed by noticing the wrap-around. */
  function Subtract(a: nat, b: nat): (v: nat)
    requires a < TWO64 && b < TWO64
    ensures v == Max(a - b, 0)
  {
    var v := Wrap64(a - b);
    if v > a then 0 else v
  }

  datatype Window = Window(start: nat, end: nat, limit: nat, size: nat, descending: bool) {
    ghost predicate Valid() {
      start <= end <= size && limit <= size < TWO63
    }

    /** cbegin: a descending window keeps its last rows. */
    function First(): nat
      requires Valid()
    {
      if !descending then start else Max(Subtract(end, limit), start)
    }

    function Past(): nat
      requires Valid()
    {
      if !descending then Min(end, Wrap64(start + limit)) else end
    }

    function Offset(): nat
      requires Valid()
    {
      if !descending then start else size - end
    }

    /** The rows the window takes from a shard. */
    function Slice<T>(rows: seq<T>): seq<T>
      requires Valid() && |rows| == size
    {
      WindowBounds();
      rows[First()..Past()]
    }

    lemma WindowBounds()
      requires Valid()
      ensures start <= First() <= Past() <= end
      ensures Past() - First() == Min(limit, end - start)
      ensures if descending then Past() == end else First() == start
    {
    }
  }

  /** The end of both constructors: a crossing range is made empty on the side it starts from. */
  function MakeWindow(lo: nat, hi: nat, limit: nat, size: nat, descending: bool): (w: Window)
    requires lo <= size && hi <= size < TWO63
    ensures w.Valid()
    ensures w.Offset() == if descending then size - hi else lo
    ensures if lo < hi then w.start == lo && w.end == hi else w.start == w.end
  {
    var start := if descending && lo > hi then hi else lo;
    var end := if !descending && hi < lo then lo else hi;
    Window(start, end, Min(limit, size), size, descending)
  }

  /** The truncated window holds the leading rows, in its direction, of the full one. */
  lemma SliceKeepsLeading<T>(w: Window, rows: seq<T>, m: nat)
    requires w.Valid() && |rows| == w.size
    requires Min(m, w.end - w.start) <= w.limit
    ensures KeepsLeading(w.descending, rows[w.start..w.end], w.Slice(rows), m)
  {
    w.WindowBounds();
    var full, cut := rows[w.start..w.end], w.Slice(rows);
    if w.descending {
      LastOfSlice(rows, w.start, w.end, m);
      LastOfSlice(rows, w.First(), w.end, m);
      ReverseTake(full, m);
      ReverseTake(cut, m);
    } else {
      TakeOfSlice(rows, w.start, w.end, m);
      TakeOfSlice(rows, w.start, w.Past(), m);
    }
  }

  lemma TakeOfSlice<T>(rows: seq<T>, lo: nat, hi: nat, m: nat)
    requires lo <= hi <= |rows|
    ensures Take(rows[lo..hi], m) == rows[lo..lo + Min(m, hi - lo)]
  {
  }

  lemma LastOfSlice<T>(rows: seq<T>, lo: nat, hi: nat, m: nat)
    requires lo <= hi <= |rows|
    ensures Last(rows[lo..hi], m) == rows[hi - Min(m, hi - lo)..hi]
  {
  }
}
