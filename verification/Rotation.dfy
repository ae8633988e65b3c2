/** The order in which a bulk write visits the shards: a rolling 32-bit start index, incremented
    with wrap-around and reduced modulo the shard count. */
module Rotation {
  import opened Base

  /** `--rollingStartIndex`, an unsigned 32-bit atomic. */
  function Decremented(rolling: nat): (r: nat)
    ensures r < TWO32
  {
    (rolling - 1) % TWO32
  }

  /** The unsigned start index after j increments. */
  function IndexAt(start: nat, j: nat): nat {
    (start + j) % TWO32
  }

  function VisitAt(start: nat, j: nat, n: nat): nat
    requires n > 0
  {
    IndexAt(start, j) % n
  }

  function Visits(start: nat, n: nat): (v: seq<nat>)
    requires n > 0
    ensures |v| == n
  {
    seq(n, j requires 0 <= j < n => VisitAt(start, j, n))
  }

  /** Every shard is visited exactly once. */
  ghost predicate EachOnce(visits: seq<nat>, n: nat) {
    && |visits| == n
    && (forall j | 0 <= j < n :: visits[j] < n)
    && Distinct(visits)
  }

  ghost predicate Distinct(v: seq<nat>) {
    forall a, b | 0 <= a < b < |v| :: v[a] != v[b]
  }

  // ---- Pigeons ----------------------------------------------------------------------------

  function Members(v: seq<nat>): (s: set<nat>)
    ensures forall x :: x in s <==> x in v
  {
    if v == [] then {} else Members(v[1..]) + {v[0]}
  }

  lemma DistinctTail(v: seq<nat>)
    requires v != []
    ensures Distinct(v) <==> v[0] !in v[1..] && Distinct(v[1..])
  {
    var w := v[1..];
    if Distinct(v) {
      forall k | 0 <= k < |w| ensures w[k] != v[0] {
        assert w[k] == v[k + 1];
      }
      forall a, b | 0 <= a < b < |w| ensures w[a] != w[b] {
        assert w[a] == v[a + 1] && w[b] == v[b + 1];
      }
    }
    if v[0] !in w && Distinct(w) {
      forall a, b | 0 <= a < b < |v| ensures v[a] != v[b] {
        assert v[b] == w[b - 1];
        assert a == 0 || v[a] == w[a - 1];
      }
    }
  }

  lemma {:induction false} MemberCount(v: seq<nat>)
    ensures |Members(v)| <= |v|
    ensures |Members(v)| == |v| <==> Distinct(v)
  {
    if v != [] {
      MemberCount(v[1..]);
      DistinctTail(v);
      if v[0] in v[1..] {
        assert Members(v) == Members(v[1..]);
      }
    }
  }

  /** n visits below n miss no shard exactly when none is repeated. */
  lemma NoneMissed(visits: seq<nat>, n: nat)
    requires |visits| == n && forall j | 0 <= j < n :: visits[j] < n
    ensures EachOnce(visits, n) <==> forall i | 0 <= i < n :: i in visits
  {
    var all, met := Numbers(n), Members(visits);
    MemberCount(visits);
    assert met <= all;
    SubsetSize(met, all);
    assert (forall i | 0 <= i < n :: i in visits) <==> all <= met;
    assert all <= met <==> met == all;
  }

  // ---- Residues ---------------------------------------------------------------------------

  lemma ResidueIs(x: int, n: int, q: int, r: int)
    requires n > 0 && x == n * q + r && 0 <= r < n
    ensures x % n == r
  {
    var e := x / n - q;
    assert x == n * (x / n) + x % n;
    assert n * e == n * (x / n) - n * q;
    if e >= 1 {
      assert n * e == n + n * (e - 1);
    } else if e <= -1 {
      assert n * e == -n + n * (e + 1);
    }
  }

  lemma NoMultipleBetween(n: int, e: int)
    requires n > 0
    ensures !(0 < n * e < n)
  {
    if e >= 1 {
      assert n * e == n + n * (e - 1);
    }
  }

  /** Numbers closer than n have different residues. */
  lemma CloseResidues(x: nat, y: nat, n: nat)
    requires n > 0 && x < y < x + n
    ensures x % n != y % n
  {
    var p, q := x / n, y / n;
    assert x == n * p + x % n;
    assert y == n * q + y % n;
    assert n * (q - p) == n * q - n * p;
    NoMultipleBetween(n, q - p);
  }

  /** A multiple of n may be dropped before reducing. */
  lemma DropMultiple(x: nat, m: nat, n: nat)
    requires n > 0 && m % n == 0
    ensures (x + m) % n == x % n
  {
    assert m == n * (m / n) && x == n * (x / n) + x % n;
    assert n * (x / n) + n * (m / n) == n * (x / n + m / n);
    ResidueIs(x + m, n, x / n + m / n, x % n);
  }

  lemma VisitUnwrapped(start: nat, j: nat, n: nat)
    requires 0 < n && start < TWO32 && j < n < TWO32
    ensures start + j < TWO32 ==> VisitAt(start, j, n) == (start + j) % n
    ensures start + j >= TWO32 ==> VisitAt(start, j, n) == (start + j - TWO32) % n
  {
  }

  lemma GoodRotation(start: nat, n: nat)
    requires 0 < n < TWO32 && start < TWO32
    requires start + n <= TWO32 || TWO32 % n == 0
    ensures EachOnce(Visits(start, n), n)
  {
    forall j | 0 <= j < n ensures VisitAt(start, j, n) == (start + j) % n {
      VisitUnwrapped(start, j, n);
      if start + j >= TWO32 {
        DropMultiple(start + j - TWO32, TWO32, n);
      }
    }
    forall a, b | 0 <= a < b < n ensures Visits(start, n)[a] != Visits(start, n)[b] {
      CloseResidues(start + a, start + b, n);
    }
  }

  /** Past the wrap the visits restart at 0 although the residue there should be 2^32 mod n. */
  lemma BadRotation(start: nat, n: nat) returns (a: nat, b: nat)
    requires 0 < n < TWO32 && start < TWO32
    requires start + n > TWO32 && TWO32 % n != 0
    ensures a < b < n && VisitAt(start, a, n) == VisitAt(start, b, n)
  {
    var r := TWO32 % n;
    var wrapped := start + n - TWO32;
    var q := TWO32 / n;
    assert TWO32 == n * q + r;
    var v := if r <= wrapped then r - 1 else wrapped - 1;
    a := TWO32 - (r - v) - start;
    b := TWO32 + v - start;
    VisitUnwrapped(start, a, n);
    VisitUnwrapped(start, b, n);
    ResidueIs(start + a, n, q, v);
    ResidueIs(v, n, 0, v);
  }

  /** The rotation visits every shard exactly once if and only if the start index does not wrap
      during the visit or the shard count divides 2^32. */
  lemma RotationExactly(start: nat, n: nat)
    requires 0 < n < TWO32 && start < TWO32
    ensures EachOnce(Visits(start, n), n) <==> start + n <= TWO32 || TWO32 % n == 0
  {
    if start + n <= TWO32 || TWO32 % n == 0 {
      GoodRotation(start, n);
    } else {
      var a, b := BadRotation(start, n);
      assert Visits(start, n)[a] == Visits(start, n)[b];
    }
  }

  function PowerOfTwo(k: nat): (p: nat)
    ensures p > 0
  {
    if k == 0 then 1 else 2 * PowerOfTwo(k - 1)
  }

  lemma Twice(a: nat, b: nat)
    ensures 2 * (a * b) == (2 * a) * b
  {
  }

  lemma {:induction false} PowersMultiply(j: nat, k: nat)
    ensures PowerOfTwo(j + k) == PowerOfTwo(j) * PowerOfTwo(k)
  {
    if j > 0 {
      PowersMultiply(j - 1, k);
      Twice(PowerOfTwo(j - 1), PowerOfTwo(k));
      assert j + k - 1 == j - 1 + k;
    }
  }

  /** A power-of-two shard count divides 2^32, so no start index can go wrong. */
  lemma PowersDivide(k: nat)
    requires k <= 32
    ensures TWO32 % PowerOfTwo(k) == 0
  {
    PowersMultiply(k, 32 - k);
    Power32();
    ResidueIs(TWO32, PowerOfTwo(k), PowerOfTwo(32 - k), 0);
  }

  lemma Power32()
    ensures PowerOfTwo(32) == TWO32
  {
    assert PowerOfTwo(4) == 16 && PowerOfTwo(8) == 256;
    PowersMultiply(8, 8);
    PowersMultiply(16, 16);
  }

  // ---- Requests ---------------------------------------------------------------------------

  /** The counter starts at the shard count, and every bulk request decrements it before it starts. */
  function StartOfRequest(n: nat, m: nat): (r: nat)
    requires n < TWO32
    ensures r < TWO32
  {
    if m == 0 then n else Decremented(StartOfRequest(n, m - 1))
  }

  lemma {:induction false} StartCountsDown(n: nat, m: nat)
    requires n < TWO32
    ensures StartOfRequest(n, m) == (n - m) % TWO32
  {
    if m > 0 {
      StartCountsDown(n, m - 1);
      LessOne(n - (m - 1));
    }
  }

  lemma LessOne(x: int)
    ensures (x % TWO32 - 1) % TWO32 == (x - 1) % TWO32
  {
    var q, r := x / TWO32, x % TWO32;
    assert x == TWO32 * q + r;
    if r == 0 {
      ResidueIs(x - 1, TWO32, q - 1, TWO32 - 1);
    } else {
      ResidueIs(x - 1, TWO32, q, r - 1);
    }
  }

  /** The m-th bulk request visits every shard once unless, of all requests, m is one of the n - 1 behind
      the n-th, or a multiple of 2^32 later, and the shard count does not divide 2^32. */
  lemma RequestsExactly(n: nat, m: nat)
    requires 0 < n < TWO32
    ensures EachOnce(Visits(StartOfRequest(n, m), n), n) <==> TWO32 % n == 0 || !(1 <= (m - n) % TWO32 < n)
  {
    var start, behind := StartOfRequest(n, m), (m - n) % TWO32;
    StartCountsDown(n, m);
    Opposite(m - n);
    RotationExactly(start, n);
    assert m - n == -(n - m);
    assert start == if behind == 0 then 0 else TWO32 - behind;
  }

  lemma Opposite(x: int)
    ensures (-x) % TWO32 == if x % TWO32 == 0 then 0 else TWO32 - x % TWO32
  {
    var q, r := x / TWO32, x % TWO32;
    assert x == TWO32 * q + r;
    if r == 0 {
      ResidueIs(-x, TWO32, -q, 0);
    } else {
      ResidueIs(-x, TWO32, -q - 1, TWO32 - r);
    }
  }

  /** With six shards the first six bulk requests are served, the next five are not, and the twelfth is. */
  lemma FirstRequests(m: nat)
    requires 1 <= m <= 12
    ensures EachOnce(Visits(StartOfRequest(6, m), 6), 6) <==> m <= 6 || m == 12
  {
    hide StartOfRequest, Visits, EachOnce;
    RequestsExactly(6, m);
    if m < 6 {
      ResidueIs(m - 6, TWO32, -1, TWO32 + m - 6);
    } else {
      ResidueIs(m - 6, TWO32, 0, m - 6);
    }
  }

  /** Six shards and the start index just below the wrap: shard 3 twice, shard 5 never. */
  lemma SixShards()
    ensures Visits(TWO32 - 1, 6) == [3, 0, 1, 2, 3, 4]
    ensures 5 !in Visits(TWO32 - 1, 6)
    ensures Decremented(0) == TWO32 - 1
  {
    var v := Visits(TWO32 - 1, 6);
    assert v == [v[0], v[1], v[2], v[3], v[4], v[5]];
  }
}
