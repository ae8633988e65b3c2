/** Machine-word constants and the small wrappers shared by the whole model. */
module Base {
  datatype Option<+T> = None | Some(value: T)

  /** 2^32: the width of `unsigned` and of the differences stored in an `int`. */
  const TWO32: int := 0x1_0000_0000
  const TWO31: int := 0x8000_0000

  /** 2^64: the width of `size_t`, `uint64_t` and `unsigned long`. */
  const TWO64: int := 0x1_0000_0000_0000_0000
  const TWO63: int := 0x8000_0000_0000_0000

  function Min(a: int, b: int): int {
    if a <= b then a else b
  }

  function Max(a: int, b: int): int {
    if a <= b then b else a
  }

  function Sign(x: int): int {
    if x < 0 then -1 else if x > 0 then 1 else 0
  }

  /** Unsigned 64-bit arithmetic: the value kept in a `size_t`. */
  function Wrap64(x: int): nat {
    x % 0x1_0000_0000_0000_0000
  }

  /** A 64-bit word holds an integer, modulo 2^64. */
  predicate Holds(word: nat, value: int) {
    word == Wrap64(value)
  }

  /** Adding to the word adds to the integer, whatever the wrap-around. */
  lemma HoldsAdd(word: nat, value: int, d: int)
    requires Holds(word, value)
    ensures Holds(Wrap64(word + d), value + d)
  {
  }

  lemma HoldsLess(word: nat, value: int, d: nat)
    requires Holds(word, value)
    ensures Holds(Wrap64(word - d), value - d)
  {
    HoldsAdd(word, value, -(d as int));
  }

  /** The value an `int` holds after a 32-bit difference has been computed modulo 2^32. */
  function WrapInt32(x: int): int {
    var y := x % 0x1_0000_0000;
    if y < 0x8000_0000 then y else y - 0x1_0000_0000
  }

  /** The first n numbers. */
  function Numbers(n: nat): (s: set<nat>)
    ensures |s| == n
    ensures forall i :: i in s <==> 0 <= i < n
  {
    if n == 0 then {} else Numbers(n - 1) + {n - 1}
  }

  lemma SubsetSize<T>(a: set<T>, b: set<T>)
    requires a <= b
    ensures |a| <= |b| && (|a| == |b| ==> a == b)
  {
    assert b == a + (b - a);
  }
}
