/** The order of view keys (MapReduceResultComparers): a recursive comparison of JSON-like values,
    and exactly which leaf values make it a collation. */
module Collation {
  import opened Base
  import opened CStrings

  /** An IEEE double, rounding apart: the comparison below only looks at order. `Finite(0.0)` is the
      positive zero. */
  datatype Dbl = Finite(value: real) | NegativeZero | PlusInfinity | MinusInfinity | NaN

  /** A value of a script object. `Untyped` stands for the four types the comparison has no case for
      (UInt32, Int64, UInt64 and Unknown): `tag` tells the type and `bits` the value. */
  datatype Value =
    | Null
    | Boolean(b: bool)
    | Int32(i: int)
    | Double(d: Dbl)
    | String(s: string)
    | Array(items: seq<Value>)
    | Object(fields: seq<Field>)
    | Untyped(tag: nat, bits: int)

  datatype Field = Field(name: string, value: Value)

  predicate SameType(a: Value, b: Value) {
    match a
    case Null => b.Null?
    case Boolean(_) => b.Boolean?
    case Int32(_) => b.Int32?
    case Double(_) => b.Double?
    case String(_) => b.String?
    case Array(_) => b.Array?
    case Object(_) => b.Object?
    case Untyped(t, _) => b.Untyped? && b.tag == t
  }

  function Precedence(v: Value): int {
    match v
    case Null => 0
    case Boolean(_) => 1
    case Int32(_) => 2
    case Double(_) => 2
    case String(_) => 3
    case Array(_) => 4
    case Object(_) => 5
    case Untyped(_, _) => 0
  }

  predicate DblLess(a: Dbl, b: Dbl) {
    match (a, b)
    case (NaN, _) => false
    case (_, NaN) => false
    case (PlusInfinity, _) => false
    case (_, PlusInfinity) => true
    case (_, MinusInfinity) => false
    case (MinusInfinity, _) => true
    case (_, _) => Magnitude(a) < Magnitude(b)
  }

  /** Both zeros are the number zero. */
  function Magnitude(d: Dbl): real {
    if d.Finite? then d.value else 0.0
  }

  function CompareDouble(a: Dbl, b: Dbl): int {
    if DblLess(a, b) then -1 else if DblLess(b, a) then 1 else 0
  }

  function CompareBoolean(a: bool, b: bool): int {
    if a == b then 0 else if a == false then -1 else 1
  }

  /** The order the comparison computes, on one pair of values. Differences are 32-bit. */
  function Order(a: Value, b: Value): int
    decreases a, 1
  {
    if !SameType(a, b) then Precedence(a) - Precedence(b)
    else
      match a
      case Null => 0
      case Boolean(x) => CompareBoolean(x, b.b)
      case Int32(x) => WrapInt32(x - b.i)
      case Double(x) => CompareDouble(x, b.d)
      case String(x) => Strcmp(x, b.s)
      case Array(x) => OrderItems(x, b.items)
      case Object(x) => OrderFields(x, b.fields)
      case Untyped(_, _) => 0
  }

  /** Lexicographic: the first unequal pair decides, then the difference of the lengths. */
  function OrderItems(a: seq<Value>, b: seq<Value>): int
    decreases a, 0
  {
    if a == [] || b == [] then WrapInt32(|a| - |b|)
    else
      var c := Order(a[0], b[0]);
      if c != 0 then c else OrderItems(a[1..], b[1..])
  }

  function OrderFields(a: seq<Field>, b: seq<Field>): int
    decreases a, 0
  {
    if a == [] || b == [] then WrapInt32(|a| - |b|)
    else
      var c := Strcmp(a[0].name, b[0].name);
      if c != 0 then c
      else
        var d := Order(a[0].value, b[0].value);
        if d != 0 then d else OrderFields(a[1..], b[1..])
  }

  // ---- The comparison loops -------------------------------------------------------------

  lemma {:induction false} ItemsFrom(a: seq<Value>, b: seq<Value>, i: nat)
    requires i <= |a| && i <= |b|
    requires forall k | 0 <= k < i :: Order(a[k], b[k]) == 0
    ensures OrderItems(a, b) == OrderItems(a[i..], b[i..])
    decreases i
  {
    if i == 0 {
      assert a[0..] == a && b[0..] == b;
    } else {
      ItemsFrom(a[1..], b[1..], i - 1);
      assert a[1..][i - 1..] == a[i..] && b[1..][i - 1..] == b[i..];
    }
  }

  lemma {:induction false} FieldsFrom(a: seq<Field>, b: seq<Field>, i: nat)
    requires i <= |a| && i <= |b|
    requires forall k | 0 <= k < i :: a[k].name == b[k].name && Order(a[k].value, b[k].value) == 0
    ensures OrderFields(a, b) == OrderFields(a[i..], b[i..])
    decreases i
  {
    if i == 0 {
      assert a[0..] == a && b[0..] == b;
    } else {
      StrcmpZero(a[0].name, b[0].name);
      FieldsFrom(a[1..], b[1..], i - 1);
      assert a[1..][i - 1..] == a[i..] && b[1..][i - 1..] == b[i..];
    }
  }

  /** The loop over two arrays. */
  method CompareArrays(a: seq<Value>, b: seq<Value>) returns (compare: int)
    ensures compare == OrderItems(a, b)
    decreases a, 0
  {
    compare := 0;
    var count := Min(|a|, |b|);
    var i := 0;
    while compare == 0 && i < count
      invariant 0 <= i <= count
      invariant compare == 0 ==> forall k | 0 <= k < i :: Order(a[k], b[k]) == 0
      invariant compare != 0 ==> compare == OrderItems(a, b)
    {
      compare := CompareValues(a[i], b[i]);
      if compare != 0 {
        ItemsFrom(a, b, i);
      }
      i := i + 1;
    }
    if compare == 0 {
      ItemsFrom(a, b, i);
      compare := WrapInt32(|a| - |b|);
    }
  }

  /** The loop over two objects: field names first, then the values under equal names. */
  method CompareObjects(a: seq<Field>, b: seq<Field>) returns (compare: int)
    ensures compare == OrderFields(a, b)
    decreases a, 0
  {
    compare := 0;
    var count := Min(|a|, |b|);
    var i := 0;
    while compare == 0 && i < count
      invariant 0 <= i <= count
      invariant compare == 0 ==>
        forall k | 0 <= k < i :: a[k].name == b[k].name && Order(a[k].value, b[k].value) == 0
      invariant compare != 0 ==> compare == OrderFields(a, b)
    {
      compare := Strcmp(a[i].name, b[i].name);
      StrcmpZero(a[i].name, b[i].name);
      if compare == 0 {
        compare := CompareValues(a[i].value, b[i].value);
      }
      if compare != 0 {
        FieldsFrom(a, b, i);
      }
      i := i + 1;
    }
    if compare == 0 {
      FieldsFrom(a, b, i);
      compare := WrapInt32(|a| - |b|);
    }
  }

  method CompareValues(a: Value, b: Value) returns (compare: int)
    ensures compare == Order(a, b)
    decreases a, 1
  {
    compare := 0;
    if !SameType(a, b) {
      compare := Precedence(a) - Precedence(b);
    } else {
      match a
      case Null => compare := 0;
      case Boolean(x) => compare := CompareBoolean(x, b.b);
      case Int32(x) => compare := WrapInt32(x - b.i);
      case Double(x) => compare := CompareDouble(x, b.d);
      case String(x) => compare := Strcmp(x, b.s);
      case Object(x) => compare := CompareObjects(x, b.fields);
      case Array(x) => compare := CompareArrays(x, b.items);
      case Untyped(_, _) =>
    }
  }

  // ---- When the comparison is a collation -----------------------------------------------

  /** The values built from the leaves in `leaves`, with containers of fewer than 2^31 entries. */
  ghost predicate Tree(leaves: iset<Value>, v: Value)
    decreases v, 1
  {
    match v
    case Array(items) => |items| < TWO31 && Trees(leaves, items)
    case Object(fields) => |fields| < TWO31 && FieldTrees(leaves, fields)
    case _ => v in leaves
  }

  ghost predicate Trees(leaves: iset<Value>, items: seq<Value>)
    decreases items, 0
  {
    items == [] || (Tree(leaves, items[0]) && Trees(leaves, items[1..]))
  }

  ghost predicate FieldTrees(leaves: iset<Value>, fields: seq<Field>)
    decreases fields, 0
  {
    fields == [] || (Tree(leaves, fields[0].value) && FieldTrees(leaves, fields[1..]))
  }

  ghost predicate Leaf(v: Value) {
    !v.Array? && !v.Object?
  }

  /** What a maintainer can check of the leaves in use, without comparing anything:
      no two 32-bit integers 2^31 or more apart, no integer beside a double, no NaN beside another
      double, no negative zero beside the positive one, and nothing untyped beside another value of
      precedence 0. */
  ghost predicate LeavesOk(leaves: iset<Value>) {
    && (forall a, b | a in leaves && b in leaves && a.Int32? && b.Int32? :: a.i - b.i < TWO31)
    && (forall a, b | a in leaves && b in leaves :: !(a.Int32? && b.Double?))
    && (forall a, b | a in leaves && b in leaves && a.Double? && b.Double? && a.d.NaN? :: b == a)
    && !(Double(NegativeZero) in leaves && Double(Finite(0.0)) in leaves)
    && (forall a, b | a in leaves && b in leaves && a.Untyped? && (b.Untyped? || b.Null?) :: b == a)
  }

  ghost predicate Antisymmetric(leaves: iset<Value>) {
    forall a, b | Tree(leaves, a) && Tree(leaves, b) :: Sign(Order(a, b)) == -Sign(Order(b, a))
  }

  ghost predicate Transitive(leaves: iset<Value>) {
    forall a, b, c | Tree(leaves, a) && Tree(leaves, b) && Tree(leaves, c) && Order(a, b) <= 0 && Order(b, c) <= 0 ::
      Order(a, c) <= 0
  }

  ghost predicate Discriminating(leaves: iset<Value>) {
    forall a, b | Tree(leaves, a) && Tree(leaves, b) && Order(a, b) == 0 :: a == b
  }

  // ---- The order of keys, said without the comparison ---------------------------------------

  predicate IsNumber(v: Value) {
    v.Int32? || v.Double?
  }

  /** Null, booleans, numbers, strings, arrays, objects; a type without a case counts as null. */
  predicate TypeBefore(a: Value, b: Value) {
    || ((a.Null? || a.Untyped?) && (b.Boolean? || IsNumber(b) || b.String? || b.Array? || b.Object?))
    || (a.Boolean? && (IsNumber(b) || b.String? || b.Array? || b.Object?))
    || (IsNumber(a) && (b.String? || b.Array? || b.Object?))
    || (a.String? && (b.Array? || b.Object?))
    || (a.Array? && b.Object?)
  }

  /** Doubles are ordered as numbers between the two infinities; NaN is not in the order. */
  predicate DoubleBefore(a: Dbl, b: Dbl) {
    match a
    case MinusInfinity => b.Finite? || b.NegativeZero? || b.PlusInfinity?
    case Finite(x) => b.PlusInfinity? || (b.Finite? && x < b.value) || (b.NegativeZero? && x < 0.0)
    case NegativeZero => b.PlusInfinity? || (b.Finite? && 0.0 < b.value)
    case PlusInfinity => false
    case NaN => false
  }

  /** The order of view keys: by type, then false before true, numbers by size, strings as in a dictionary, and
      arrays and objects by their first difference, a proper prefix first. */
  predicate Before(a: Value, b: Value)
    decreases a, 1
  {
    || TypeBefore(a, b)
    || (a.Boolean? && b.Boolean? && !a.b && b.b)
    || (a.Int32? && b.Int32? && a.i < b.i)
    || (a.Double? && b.Double? && DoubleBefore(a.d, b.d))
    || (a.String? && b.String? && Precedes(a.s, b.s))
    || (a.Array? && b.Array? && ItemsBefore(a.items, b.items))
    || (a.Object? && b.Object? && FieldsBefore(a.fields, b.fields))
  }

  predicate ItemsBefore(a: seq<Value>, b: seq<Value>)
    decreases a, 0
  {
    b != [] && (a == [] || Before(a[0], b[0]) || (a[0] == b[0] && ItemsBefore(a[1..], b[1..])))
  }

  /** In an object the names are compared before the values. */
  predicate FieldsBefore(a: seq<Field>, b: seq<Field>)
    decreases a, 0
  {
    b != [] && (a == []
                || Precedes(a[0].name, b[0].name)
                || (a[0].name == b[0].name && Before(a[0].value, b[0].value))
                || (a[0] == b[0] && FieldsBefore(a[1..], b[1..])))
  }

  /** The comparison is negative exactly where the order of view keys says so. */
  ghost predicate Standard(leaves: iset<Value>) {
    forall a, b | Tree(leaves, a) && Tree(leaves, b) :: Order(a, b) < 0 <==> Before(a, b)
  }

  /** A total order on every tree over the leaves, and the one of view keys. */
  ghost predicate IsCollation(leaves: iset<Value>) {
    Antisymmetric(leaves) && Transitive(leaves) && Discriminating(leaves) && Standard(leaves)
  }

  /** Of two values of different types the order is that of their types. */
  lemma TypesInOrder(a: Value, b: Value)
    requires TypeBefore(a, b)
    ensures Order(a, b) < 0 < Order(b, a)
  {
  }

  lemma DoublesInOrder(a: Dbl, b: Dbl)
    ensures Order(Double(a), Double(b)) < 0 <==> DoubleBefore(a, b)
    ensures Order(Double(a), Double(b)) > 0 <==> DoubleBefore(b, a)
  {
  }

  /** False before true, and strings as in a dictionary. */
  lemma ScalarsInOrder(x: bool, y: bool, s: string, t: string)
    ensures Order(Boolean(x), Boolean(y)) < 0 <==> !x && y
    ensures Order(String(s), String(t)) < 0 <==> Precedes(s, t)
  {
    StrcmpPrecedes(s, t);
  }

  /** The first difference decides between two arrays, and an array comes before what continues it. */
  lemma {:induction false} FirstDifference(a: seq<Value>, b: seq<Value>, k: nat)
    requires k <= |a| && k < |b| && a[..k] == b[..k]
    requires k < |a| ==> Before(a[k], b[k])
    ensures ItemsBefore(a, b)
  {
    if k > 0 {
      assert a[..k][0] == b[..k][0];
      assert a[1..][..k - 1] == a[..k][1..] && b[1..][..k - 1] == b[..k][1..];
      FirstDifference(a[1..], b[1..], k - 1);
    }
  }

  lemma {:induction false} FirstFieldDifference(a: seq<Field>, b: seq<Field>, k: nat)
    requires k <= |a| && k < |b| && a[..k] == b[..k]
    requires k < |a| ==>
               Precedes(a[k].name, b[k].name) || (a[k].name == b[k].name && Before(a[k].value, b[k].value))
    ensures FieldsBefore(a, b)
  {
    hide Precedes;
    if k > 0 {
      assert a[..k][0] == b[..k][0];
      assert a[1..][..k - 1] == a[..k][1..] && b[1..][..k - 1] == b[..k][1..];
      FirstFieldDifference(a[1..], b[1..], k - 1);
    }
  }

  lemma SmallDifference(x: int)
    requires -TWO31 < x < TWO31
    ensures WrapInt32(x) == x
  {
  }

  lemma LeafSigns(leaves: iset<Value>, a: Value, b: Value)
    requires LeavesOk(leaves) && Tree(leaves, a) && Tree(leaves, b) && Leaf(a)
    ensures Sign(Order(a, b)) == -Sign(Order(b, a))
    ensures Order(a, b) == 0 <==> a == b
  {
    if SameType(a, b) {
      match a
      case Int32(x) =>
        SmallDifference(x - b.i);
        SmallDifference(b.i - x);
      case String(x) =>
        StrcmpZero(x, b.s);
        StrcmpAntisymmetric(x, b.s);
      case _ =>
    }
  }

  lemma {:induction false} ValueSigns(leaves: iset<Value>, a: Value, b: Value)
    requires LeavesOk(leaves) && Tree(leaves, a) && Tree(leaves, b)
    ensures Sign(Order(a, b)) == -Sign(Order(b, a))
    ensures Order(a, b) == 0 <==> a == b
    decreases a, 1
  {
    if Leaf(a) {
      LeafSigns(leaves, a, b);
    } else if Leaf(b) {
      LeafSigns(leaves, b, a);
    } else if a.Array? && b.Array? {
      ItemSigns(leaves, a.items, b.items);
    } else if a.Object? && b.Object? {
      FieldSigns(leaves, a.fields, b.fields);
    }
  }

  lemma {:induction false} ItemSigns(leaves: iset<Value>, a: seq<Value>, b: seq<Value>)
    requires LeavesOk(leaves) && Trees(leaves, a) && Trees(leaves, b) && |a| < TWO31 && |b| < TWO31
    ensures Sign(OrderItems(a, b)) == -Sign(OrderItems(b, a))
    ensures OrderItems(a, b) == 0 <==> a == b
    decreases a, 0
  {
    if a == [] || b == [] {
      SmallDifference(|a| - |b|);
      SmallDifference(|b| - |a|);
    } else {
      ValueSigns(leaves, a[0], b[0]);
      ItemSigns(leaves, a[1..], b[1..]);
      assert a == [a[0]] + a[1..] && b == [b[0]] + b[1..];
    }
  }

  lemma {:induction false} FieldSigns(leaves: iset<Value>, a: seq<Field>, b: seq<Field>)
    requires LeavesOk(leaves) && FieldTrees(leaves, a) && FieldTrees(leaves, b) && |a| < TWO31 && |b| < TWO31
    ensures Sign(OrderFields(a, b)) == -Sign(OrderFields(b, a))
    ensures OrderFields(a, b) == 0 <==> a == b
    decreases a, 0
  {
    if a == [] || b == [] {
      SmallDifference(|a| - |b|);
      SmallDifference(|b| - |a|);
    } else {
      StrcmpZero(a[0].name, b[0].name);
      StrcmpAntisymmetric(a[0].name, b[0].name);
      ValueSigns(leaves, a[0].value, b[0].value);
      FieldSigns(leaves, a[1..], b[1..]);
      assert a == [a[0]] + a[1..] && b == [b[0]] + b[1..];
    }
  }

  lemma {:induction false} LeafTransitive(leaves: iset<Value>, a: Value, b: Value, c: Value)
    requires LeavesOk(leaves) && Tree(leaves, a) && Tree(leaves, b) && Tree(leaves, c)
    requires Leaf(a) && Leaf(b) && Leaf(c)
    requires Order(a, b) <= 0 && Order(b, c) <= 0
    ensures Order(a, c) <= 0
  {
    if SameType(a, b) && SameType(b, c) {
      match a
      case Int32(x) =>
        SmallDifference(x - b.i);
        SmallDifference(b.i - c.i);
        SmallDifference(x - c.i);
      case String(x) => StrcmpTransitive(x, b.s, c.s);
      case _ =>
    }
  }

  lemma {:induction false} ValueTransitive(leaves: iset<Value>, a: Value, b: Value, c: Value)
    requires LeavesOk(leaves) && Tree(leaves, a) && Tree(leaves, b) && Tree(leaves, c)
    requires Order(a, b) <= 0 && Order(b, c) <= 0
    ensures Order(a, c) <= 0
    decreases a, 1
  {
    if Leaf(a) && Leaf(b) && Leaf(c) {
      LeafTransitive(leaves, a, b, c);
    } else if a.Array? && b.Array? && c.Array? {
      ItemsTransitive(leaves, a.items, b.items, c.items);
    } else if a.Object? && b.Object? && c.Object? {
      FieldsTransitive(leaves, a.fields, b.fields, c.fields);
    }
  }

  lemma {:induction false} ItemsTransitive(leaves: iset<Value>, a: seq<Value>, b: seq<Value>, c: seq<Value>)
    requires LeavesOk(leaves) && Trees(leaves, a) && Trees(leaves, b) && Trees(leaves, c)
    requires |a| < TWO31 && |b| < TWO31 && |c| < TWO31
    requires OrderItems(a, b) <= 0 && OrderItems(b, c) <= 0
    ensures OrderItems(a, c) <= 0
    decreases a, 0
  {
    SmallDifference(|a| - |b|);
    SmallDifference(|b| - |c|);
    SmallDifference(|a| - |c|);
    if a != [] && b != [] && c != [] {
      ValueTransitive(leaves, a[0], b[0], c[0]);
      ValueSigns(leaves, a[0], b[0]);
      ValueSigns(leaves, b[0], c[0]);
      ValueSigns(leaves, a[0], c[0]);
      if Order(a[0], c[0]) == 0 {
        ItemsTransitive(leaves, a[1..], b[1..], c[1..]);
      }
    }
  }

  lemma {:induction false} FieldsTransitive(leaves: iset<Value>, a: seq<Field>, b: seq<Field>, c: seq<Field>)
    requires LeavesOk(leaves) && FieldTrees(leaves, a) && FieldTrees(leaves, b) && FieldTrees(leaves, c)
    requires |a| < TWO31 && |b| < TWO31 && |c| < TWO31
    requires OrderFields(a, b) <= 0 && OrderFields(b, c) <= 0
    ensures OrderFields(a, c) <= 0
    decreases a, 0
  {
    SmallDifference(|a| - |b|);
    SmallDifference(|b| - |c|);
    SmallDifference(|a| - |c|);
    if a != [] && b != [] && c != [] {
      NamesTransitive(a[0].name, b[0].name, c[0].name);
      if Strcmp(a[0].name, c[0].name) == 0 {
        ValueTransitive(leaves, a[0].value, b[0].value, c[0].value);
        ValueSigns(leaves, a[0].value, b[0].value);
        ValueSigns(leaves, b[0].value, c[0].value);
        ValueSigns(leaves, a[0].value, c[0].value);
        if Order(a[0].value, c[0].value) == 0 {
          FieldsTransitive(leaves, a[1..], b[1..], c[1..]);
        }
      }
    }
  }

  lemma NamesTransitive(a: string, b: string, c: string)
    requires Strcmp(a, b) <= 0 && Strcmp(b, c) <= 0
    ensures Strcmp(a, c) <= 0
    ensures Strcmp(a, c) == 0 ==> Strcmp(a, b) == 0 && Strcmp(b, c) == 0
  {
    StrcmpTransitive(a, b, c);
  }

  /** The comparison is the order of view keys. */
  lemma {:induction false} ValueStandard(leaves: iset<Value>, a: Value, b: Value)
    requires LeavesOk(leaves) && Tree(leaves, a) && Tree(leaves, b)
    ensures Order(a, b) < 0 <==> Before(a, b)
    decreases a, 1
  {
    if SameType(a, b) {
      match a
      case Boolean(x) => ScalarsInOrder(x, b.b, "", "");
      case Int32(x) => SmallDifference(x - b.i);
      case Double(x) => DoublesInOrder(x, b.d);
      case String(x) => ScalarsInOrder(false, false, x, b.s);
      case Array(x) => ItemsStandard(leaves, x, b.items);
      case Object(x) => FieldsStandard(leaves, x, b.fields);
      case _ =>
    } else if TypeBefore(a, b) {
      TypesInOrder(a, b);
    } else if TypeBefore(b, a) {
      TypesInOrder(b, a);
    }
  }

  lemma {:induction false} ItemsStandard(leaves: iset<Value>, a: seq<Value>, b: seq<Value>)
    requires LeavesOk(leaves) && Trees(leaves, a) && Trees(leaves, b) && |a| < TWO31 && |b| < TWO31
    ensures OrderItems(a, b) < 0 <==> ItemsBefore(a, b)
    decreases a, 0
  {
    hide Order, Tree, LeavesOk;
    SmallDifference(|a| - |b|);
    if a != [] && b != [] {
      ValueSigns(leaves, a[0], b[0]);
      ValueStandard(leaves, a[0], b[0]);
      ItemsStandard(leaves, a[1..], b[1..]);
    }
  }

  lemma {:induction false} FieldsStandard(leaves: iset<Value>, a: seq<Field>, b: seq<Field>)
    requires LeavesOk(leaves) && FieldTrees(leaves, a) && FieldTrees(leaves, b) && |a| < TWO31 && |b| < TWO31
    ensures OrderFields(a, b) < 0 <==> FieldsBefore(a, b)
    decreases a, 0
  {
    hide Order, Tree, LeavesOk, Precedes, Strcmp;
    SmallDifference(|a| - |b|);
    if a != [] && b != [] {
      StrcmpZero(a[0].name, b[0].name);
      StrcmpPrecedes(a[0].name, b[0].name);
      StrcmpPrecedes(b[0].name, a[0].name);
      StrcmpAntisymmetric(a[0].name, b[0].name);
      ValueSigns(leaves, a[0].value, b[0].value);
      ValueStandard(leaves, a[0].value, b[0].value);
      FieldsStandard(leaves, a[1..], b[1..]);
    }
  }

  lemma CollationOfOkLeaves(leaves: iset<Value>)
    requires LeavesOk(leaves)
    ensures IsCollation(leaves)
  {
    forall a, b | Tree(leaves, a) && Tree(leaves, b)
      ensures Sign(Order(a, b)) == -Sign(Order(b, a))
      ensures Order(a, b) == 0 <==> a == b
    {
      ValueSigns(leaves, a, b);
    }
    forall a, b, c | Tree(leaves, a) && Tree(leaves, b) && Tree(leaves, c) && Order(a, b) <= 0 && Order(b, c) <= 0
      ensures Order(a, c) <= 0
    {
      ValueTransitive(leaves, a, b, c);
    }
    forall a, b | Tree(leaves, a) && Tree(leaves, b) ensures Order(a, b) < 0 <==> Before(a, b) {
      ValueStandard(leaves, a, b);
    }
  }

  ghost predicate LeafSet(leaves: iset<Value>) {
    && (forall v | v in leaves :: Leaf(v))
    && (forall v | v in leaves && v.Int32? :: -TWO31 <= v.i < TWO31)
  }

  /** Two 32-bit integers 2^31 or more apart compare the wrong way round. */
  lemma FarIntegersMisordered(a: int, b: int)
    requires -TWO31 <= a < TWO31 && -TWO31 <= b < TWO31 && a - b >= TWO31
    ensures Order(Int32(a), Int32(b)) < 0
  {
    assert (a - b) % TWO32 == a - b;
  }

  lemma OkLeavesOfCollation(leaves: iset<Value>)
    requires LeafSet(leaves) && IsCollation(leaves)
    ensures LeavesOk(leaves)
  {
    forall a, b | a in leaves && b in leaves && a.Int32? && b.Int32? ensures a.i - b.i < TWO31 {
      assert Tree(leaves, a) && Tree(leaves, b);
      if a.i - b.i >= TWO31 {
        FarIntegersMisordered(a.i, b.i);
      }
    }
    forall a, b | a in leaves && b in leaves ensures !(a.Int32? && b.Double?) {
      assert Tree(leaves, a) && Tree(leaves, b);
      assert a.Int32? && b.Double? ==> Order(a, b) == 0;
    }
    forall a, b | a in leaves && b in leaves && a.Double? && b.Double? && a.d.NaN? ensures b == a {
      assert Tree(leaves, a) && Tree(leaves, b);
      assert Order(a, b) == 0;
    }
    forall a, b | a in leaves && b in leaves && a.Untyped? && (b.Untyped? || b.Null?) ensures b == a {
      assert Tree(leaves, a) && Tree(leaves, b);
      assert Order(a, b) == 0;
    }
    ZerosEqual();
    assert Double(NegativeZero) in leaves ==> Tree(leaves, Double(NegativeZero));
    assert Double(Finite(0.0)) in leaves ==> Tree(leaves, Double(Finite(0.0)));
  }

  /** The two zeros are different values, printed differently, that compare equal. */
  lemma ZerosEqual()
    ensures Order(Double(NegativeZero), Double(Finite(0.0))) == 0 == Order(Double(Finite(0.0)), Double(NegativeZero))
  {
    assert DblLess(NegativeZero, Finite(0.0)) <==> Magnitude(NegativeZero) < Magnitude(Finite(0.0));
  }

  /** The comparison is a collation of all the trees over a set of leaves exactly when the leaves
      are well chosen. */
  lemma CollationExactly(leaves: iset<Value>)
    requires LeafSet(leaves)
    ensures IsCollation(leaves) <==> LeavesOk(leaves)
  {
    if LeavesOk(leaves) {
      CollationOfOkLeaves(leaves);
    }
    if IsCollation(leaves) {
      OkLeavesOfCollation(leaves);
    }
  }
}
