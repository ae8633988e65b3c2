/** Searching a sorted array of document ids for a key from the query string: quotes are stripped
    by moving a pointer, the comparison is a bounded one followed by a look at the next character. */
module DocSearch {
  import opened Base
  import opened CStrings
  import opened Windows

  /** `std::strncmp`. */
  function Strncmp(a: string, b: string, n: nat): int
    decreases n
  {
    if n == 0 then 0
    else if a == [] then (if b == [] then 0 else -1)
    else if b == [] then 1
    else if a[0] < b[0] then -1
    else if b[0] < a[0] then 1
    else Strncmp(a[1..], b[1..], n - 1)
  }

  predicate IsQuoted(key: string) {
    key != [] && key[0] == '"' && key[|key| - 1] == '"'
  }

  /** The key the search is for. A lone quote is both the first and the last character of its key. */
  function Target(key: string): string {
    if !IsQuoted(key) then key
    else if |key| == 1 then ""
    else key[1..|key| - 1]
  }

  /** Quotes around a key are dropped; any other key stands for itself. */
  lemma KeyUnquoted(s: string)
    ensures Target("\"" + s + "\"") == s
    ensures s == "" || s[0] != '"' || s[|s| - 1] != '"' ==> Target(s) == s
    ensures Target("\"") == ""
  {
    var key := "\"" + s + "\"";
    assert key[0] == '"' && key[|key| - 1] == '"' && key[1..|key| - 1] == s;
  }

  /** The pointer and the length the loop compares with: the pointer skips the opening quote, the
      length is reduced by two in a `size_t`. */
  function KeyPointer(key: string): string {
    if IsQuoted(key) then key[1..] else key
  }

  function KeyLength(key: string): nat {
    if IsQuoted(key) then Wrap64(|key| - 2) else |key|
  }

  /** The loop's `diff` for one id: equal up to the length is a match only if the id ends there.
      (An id reaching the length is read at that position; C strings hold no zero character.) */
  function IdDiff(key: string, id: string): int {
    var diff := Strncmp(KeyPointer(key), id, KeyLength(key));
    if diff == 0 && KeyLength(key) < |id| then -1 else diff
  }

  lemma {:induction false} StrncmpPrefix(a: string, tail: string, b: string)
    ensures Strncmp(a + tail, b, |a|) == 0 <==> a <= b
    ensures !(a <= b) ==> Strncmp(a + tail, b, |a|) == Strcmp(a, b)
    ensures a <= b ==> Strcmp(a, b) == if |a| < |b| then -1 else 0
  {
    if a != [] && b != [] && a[0] == b[0] {
      assert (a + tail)[1..] == a[1..] + tail;
      StrncmpPrefix(a[1..], tail, b[1..]);
      assert a <= b <==> a[1..] <= b[1..];
    } else if a != [] {
      assert (a + tail)[0] == a[0];
    }
  }

  /** The stripped, bounded comparison is plain lexicographic comparison with the target. */
  lemma DiffIsStrcmp(key: string, id: string)
    requires |key| < TWO64
    ensures IdDiff(key, id) == Strcmp(Target(key), id)
  {
    if IsQuoted(key) && |key| == 1 {
      assert KeyPointer(key) == [] && Target(key) == [];
    } else {
      var target := Target(key);
      var tail := if IsQuoted(key) then ['"'] else [];
      assert KeyPointer(key) == target + tail && KeyLength(key) == |target|;
      StrncmpPrefix(target, tail, id);
    }
  }

  /** The comparisons of a key with all ids. */
  function Diffs(descending: bool, key: string, ids: seq<string>): (d: seq<int>)
    ensures |d| == |ids|
  {
    seq(|ids|, i requires 0 <= i < |ids| =>
      if descending then -Strcmp(Target(key), ids[i]) else Strcmp(Target(key), ids[i]))
  }

  ghost predicate IdsSorted(descending: bool, ids: seq<string>) {
    forall i, j | 0 <= i < j < |ids| :: if descending then StrLess(ids[j], ids[i]) else StrLess(ids[i], ids[j])
  }

  lemma DiffsDescend(descending: bool, key: string, ids: seq<string>)
    requires IdsSorted(descending, ids)
    ensures Descends(Diffs(descending, key, ids))
    ensures AtMostOneEqual(Diffs(descending, key, ids))
  {
    var t := Target(key);
    forall i, j | 0 <= i < j < |ids|
      ensures Sign(Diffs(descending, key, ids)[j]) <= Sign(Diffs(descending, key, ids)[i])
      ensures !(Diffs(descending, key, ids)[i] == 0 && Diffs(descending, key, ids)[j] == 0)
    {
      if descending {
        SignsFall(t, ids[j], ids[i]);
      } else {
        SignsFall(t, ids[i], ids[j]);
      }
    }
  }

  lemma SignsFall(t: string, x: string, y: string)
    requires StrLess(x, y)
    ensures Sign(Strcmp(t, y)) <= Sign(Strcmp(t, x))
    ensures !(Strcmp(t, x) == 0 && Strcmp(t, y) == 0)
  {
    StrcmpZero(t, x);
    StrcmpZero(t, y);
    StrcmpAntisymmetric(t, x);
    StrcmpAntisymmetric(x, y);
    if Strcmp(t, x) <= 0 {
      StrcmpTransitive(t, x, y);
    }
  }

  /** The binary search of Documents and of DocumentCollectionResults (there never descending).
      A lone quote makes it read the id at a length of 2^64 - 1, which is harmless unless an id is empty. */
  method FindDocument(ids: seq<string>, key: string, descending: bool) returns (index: nat)
    requires |ids| < TWO63 && key != "" && |key| < TWO64
    requires IdsSorted(descending, ids)
    requires key == "\"" ==> "" !in ids
    ensures index == SearchFrom(Diffs(descending, key, ids), 0, |ids|) < TWO64
    ensures SearchResult(Diffs(descending, key, ids), index)
  {
    hide SearchFrom, Strcmp, IdDiff, Target;
    ghost var diffs := Diffs(descending, key, ids);
    DiffsDescend(descending, key, ids);
    SearchRight(diffs, 0, |ids|);
    if |ids| == 0 {
      SearchEmpty(diffs, 0);
      return Complement(0);
    }
    var min, mid, max := 0, 0, |ids| - 1;
    while min <= max
      invariant 0 <= min <= max + 1 <= |ids|
      invariant SearchFrom(diffs, min, max + 1) == SearchFrom(diffs, 0, |ids|)
      decreases max - min
    {
      SearchStep(diffs, min, max);
      mid := (max - min) / 2 + min;
      var diff := IdDiff(key, ids[mid]);
      DiffIsStrcmp(key, ids[mid]);
      diff := if descending then -diff else diff;
      if diff == 0 {
        return mid;
      } else if diff < 0 {
        if mid == 0 {
          break;
        }
        max := mid - 1;
      } else {
        min := mid + 1;
      }
    }
    SearchEmpty(diffs, min);
    index := Complement(min);
  }
}
