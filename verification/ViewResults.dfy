/** The final window over the merged view rows (MapReduceResults) and its iterator. */
module ViewResults {
  import opened Base
  import opened Pages
  import opened Windows

  /** The rows and the paging a results object is made from; skip and limit are clamped to the size. */
  datatype Results<T> = Results(rows: seq<T>, skip: nat, limit: nat, descending: bool, offset: nat, totalRows: nat) {
    ghost predicate Valid() {
      skip <= |rows| && limit <= |rows| && |rows| < TWO63
    }

    function First(): nat
      requires Valid()
    {
      if !descending then skip else Subtract(Subtract(|rows|, skip), limit)
    }

    function Past(): nat
      requires Valid()
    {
      if !descending then Min(|rows|, Wrap64(skip + limit)) else |rows| - skip
    }

    function Offset(): nat
      requires Valid()
    {
      Min(Wrap64(offset + skip), totalRows)
    }

    lemma Bounds()
      requires Valid()
      ensures 0 <= First() <= Past() <= |rows|
      ensures Past() - First() == Min(limit, |rows| - skip)
      ensures if descending then Past() == |rows| - skip else First() == skip
    {
    }
  }

  function MakeResults<T>(rows: seq<T>, offset: nat, totalRows: nat, skip: nat, limit: nat, descending: bool)
    : (r: Results<T>)
    requires |rows| < TWO63
    ensures r.Valid() && r.rows == rows && r.descending == descending
    ensures r.skip == Min(skip, |rows|) && r.offset == offset && r.totalRows == totalRows
  {
    Results(rows, Min(skip, |rows|), Min(limit, |rows|), descending, offset, totalRows)
  }

  /** What the iterator is to deliver: the page of the rows in the chosen direction. */
  function Delivered<T>(r: Results<T>): seq<T>
    requires r.Valid()
  {
    r.Bounds();
    Directed(r.descending, r.rows[r.First()..r.Past()])
  }

  /** The window is the page, although it is cut before the direction is applied. */
  lemma WindowIsPage<T>(rows: seq<T>, offset: nat, totalRows: nat, skip: nat, limit: nat, descending: bool)
    requires |rows| < TWO63
    ensures Delivered(MakeResults(rows, offset, totalRows, skip, limit, descending))
            == Page(Directed(descending, rows), skip, limit)
  {
    hide Reverse;
    var r := MakeResults(rows, offset, totalRows, skip, limit, descending);
    r.Bounds();
    var page := Page(Directed(descending, rows), skip, limit);
    var window := rows[r.First()..r.Past()];
    if descending {
      var d := Reverse(window);
      assert |d| == |page|;
      forall k | 0 <= k < |d| ensures d[k] == page[k] {
        ReverseAt(window, k);
        ReverseAt(rows, r.skip + k);
      }
    }
  }

  /** MapReduceResultsIterator: a position that walks from `ibegin` to `iend` in steps of `direction`. */
  class ResultsIterator<T> {
    const results: Results<T>
    const empty: bool
    const ibegin: int
    const iend: int
    const direction: int
    var iter: int

    ghost predicate Valid()
      reads this
    {
      && results.Valid()
      && direction == (if results.descending then -1 else 1)
      && empty == (results.First() == results.Past())
      && (!empty ==> ibegin == if results.descending then results.Past() - 1 else results.First())
      && (!empty ==> iend == if results.descending then results.First() - 1 else results.Past())
      && (!empty ==> 0 <= (iter - ibegin) * direction <= (iend - ibegin) * direction)
    }

    /** How many rows have been handed out. */
    ghost function Position(): (p: nat)
      requires Valid()
      reads this
      ensures p <= |Delivered(results)|
    {
      results.Bounds();
      if empty then 0 else (iter - ibegin) * direction
    }

    constructor (results: Results<T>)
      requires results.Valid()
      ensures Valid() && this.results == results && Position() == 0
    {
      results.Bounds();
      this.results := results;
      var begin: int, end: int := results.First(), results.Past();
      empty := begin == end;
      ibegin := if !results.descending || begin == end then begin else end - 1;
      iend := if !results.descending || begin == end then end else begin - 1;
      iter := if !results.descending || begin == end then begin else end - 1;
      direction := if !results.descending then 1 else -1;
    }

    /** The next row of the page, or null for ever after its end. */
    method Next() returns (row: Option<T>)
      requires Valid()
      modifies this`iter
      ensures Valid()
      ensures row == if old(Position()) < |Delivered(results)| then Some(Delivered(results)[old(Position())]) else None
      ensures Position() == if old(Position()) < |Delivered(results)| then old(Position()) + 1 else old(Position())
    {
      results.Bounds();
      if !empty && iter != iend {
        ghost var window := results.rows[results.First()..results.Past()];
        if results.descending {
          ReverseAt(window, Position());
        }
        row := Some(results.rows[iter]);
        iter := iter + direction;
      } else {
        row := None;
      }
    }
  }

  /** A client that asks until it gets null has read exactly the page. */
  method ReadAll<T>(rows: seq<T>, offset: nat, totalRows: nat, skip: nat, limit: nat, descending: bool)
    returns (read: seq<T>)
    requires |rows| < TWO63
    ensures read == Page(Directed(descending, rows), skip, limit)
  {
    var results := MakeResults(rows, offset, totalRows, skip, limit, descending);
    WindowIsPage(rows, offset, totalRows, skip, limit, descending);
    var rowsLeft := new ResultsIterator(results);
    read := [];
    var row := rowsLeft.Next();
    while row.Some?
      invariant rowsLeft.Valid() && rowsLeft.results == results && fresh(rowsLeft)
      invariant row.Some? ==> rowsLeft.Position() == |read| + 1 && row.value == Delivered(results)[|read|]
      invariant row.None? ==> rowsLeft.Position() == |read| == |Delivered(results)|
      invariant |read| <= |Delivered(results)| && read == Delivered(results)[..|read|]
      decreases |Delivered(results)| - |read|
    {
      read := read + [row.value];
      row := rowsLeft.Next();
    }
  }
}
