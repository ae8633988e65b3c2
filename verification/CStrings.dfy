/** C strings as the model sees them: the characters before the terminator, compared by code. */
module CStrings {

  /** `std::strcmp`: the end of a string compares below every character. */
  function Strcmp(a: string, b: string): int {
    if a == [] then (if b == [] then 0 else -1)
    else if b == [] then 1
    else if a[0] < b[0] then -1
    else if b[0] < a[0] then 1
    else Strcmp(a[1..], b[1..])
  }

  predicate StrLess(a: string, b: string) {
    Strcmp(a, b) < 0
  }

  /** Dictionary order: at the first difference the smaller character, or the end of a proper prefix. */
  predicate Precedes(a: string, b: string) {
    exists k :: 0 <= k <= |a| && k <= |b| && a[..k] == b[..k] &&
      k < |b| && (k == |a| || a[k] < b[k])
  }

  lemma PrecedesHead(a: string, b: string)
    ensures Precedes(a, b) <==>
            b != [] && (a == [] || a[0] < b[0] || (a[0] == b[0] && Precedes(a[1..], b[1..])))
  {
    if Precedes(a, b) && a != [] && a[0] == b[0] {
      var k :| 0 <= k <= |a| && k <= |b| && a[..k] == b[..k] && k < |b| && (k == |a| || a[k] < b[k]);
      assert k > 0;
      assert a[1..][..k - 1] == a[..k][1..] && b[1..][..k - 1] == b[..k][1..];
    }
    if a != [] && b != [] && a[0] == b[0] && Precedes(a[1..], b[1..]) {
      var s, t := a[1..], b[1..];
      var k :| 0 <= k <= |s| && k <= |t| && s[..k] == t[..k] && k < |t| && (k == |s| || s[k] < t[k]);
      assert a[..k + 1] == [a[0]] + s[..k] && b[..k + 1] == [b[0]] + t[..k];
    }
    if b != [] && (a == [] || a[0] < b[0]) {
      assert a[..0] == b[..0];
    }
  }

  /** `strcmp` is dictionary order. */
  lemma {:induction false} StrcmpPrecedes(a: string, b: string)
    ensures StrLess(a, b) <==> Precedes(a, b)
  {
    PrecedesHead(a, b);
    if a != [] && b != [] && a[0] == b[0] {
      StrcmpPrecedes(a[1..], b[1..]);
    }
  }

  lemma {:induction false} StrcmpZero(a: string, b: string)
    ensures Strcmp(a, b) == 0 <==> a == b
  {
    if a != [] && b != [] && a[0] == b[0] {
      StrcmpZero(a[1..], b[1..]);
      assert a == [a[0]] + a[1..] && b == [b[0]] + b[1..];
    }
  }

  lemma {:induction false} StrcmpAntisymmetric(a: string, b: string)
    ensures Strcmp(a, b) == -Strcmp(b, a)
  {
    if a != [] && b != [] && a[0] == b[0] {
      StrcmpAntisymmetric(a[1..], b[1..]);
    }
  }

  lemma {:induction false} StrcmpTransitive(a: string, b: string, c: string)
    requires Strcmp(a, b) <= 0 && Strcmp(b, c) <= 0
    ensures Strcmp(a, c) <= 0
    ensures Strcmp(a, b) < 0 || Strcmp(b, c) < 0 ==> Strcmp(a, c) < 0
  {
    if a != [] && b != [] && c != [] && a[0] == b[0] == c[0] {
      StrcmpTransitive(a[1..], b[1..], c[1..]);
    } else if a == [] {
      StrcmpZero(a, c);
    }
  }
}
