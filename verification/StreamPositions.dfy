/** Where the write position of a response stream goes, and when the terminator that an integer conversion
    writes behind its digits stays inside the buffer. */
module StreamPositions {
  import opened Base
  import opened JsonEscape
  import opened JsonText
  import opened Revisions

  // ---- Positions ----------------------------------------------------------------------------

  function Separator(comma: bool): int {
    if comma then 1 else 0
  }

  /** The position once `need` characters have been made room for. */
  function Reserved(size: int, pos: int, need: int): int {
    if need > size - pos then 0 else pos
  }

  /** After one character, the buffer flushed if it is full. */
  function PutPos(size: int, pos: int): int {
    Reserved(size, pos, 1) + 1
  }

  /** After a text of at most `bound` characters. */
  function TextPos(size: int, pos: int, length: int, bound: int, comma: bool): int {
    Reserved(size, pos, bound + Separator(comma)) + Separator(comma) + length
  }

  /** After an integer: 20 characters are reserved, and the conversion writes one more behind its text. None
      if that one would lie outside the buffer. */
  function NumberPos(size: int, pos: int, length: int, comma: bool): Option<int> {
    var end := TextPos(size, pos, length, 20, comma);
    if end < size then Some(end) else None
  }

  /** After an escaped text in quotes: copied if it fits behind the opening quote, else written through. */
  function StringPos(size: int, pos: int, length: int, comma: bool): int {
    var need := length + 2 + Separator(comma);
    var open := Reserved(size, pos, need) + Separator(comma) + 1;
    (if need <= size - open then open + length else 0) + 1
  }

  function NamePos(size: int, pos: int, name: string, comma: bool): int {
    PutPos(size, StringPos(size, pos, |Escape(name)|, comma))
  }

  function OpenPos(size: int, pos: int, comma: bool): int {
    PutPos(size, if comma then PutPos(size, pos) else pos)
  }

  function ClosePos(size: int, pos: Option<int>): Option<int> {
    if pos.None? then None else Some(PutPos(size, pos.value))
  }

  /** After a whole value, None if some terminator on the way would lie outside. */
  function ValuePos(size: int, pos: int, v: Value, comma: bool): Option<int>
    decreases v, 1
  {
    match v
    case Null => Some(TextPos(size, pos, 4, 4, comma))
    case Boolean(b) => Some(TextPos(size, pos, if b then 4 else 5, 5, comma))
    case Signed(i) => NumberPos(size, pos, |SignedText(i)|, comma)
    case Unsigned(u) => NumberPos(size, pos, |Decimal(u)|, comma)
    case Double(text) => Some(TextPos(size, pos, |text|, |text|, comma))
    case String(s) => Some(StringPos(size, pos, |Escape(s)|, comma))
    case Array(items) => ClosePos(size, ItemsPos(size, OpenPos(size, pos, comma), items, true))
    case Object(fields) => ClosePos(size, FieldsPos(size, OpenPos(size, pos, comma), fields, true))
    case Unknown => Some(pos)
  }

  function ItemsPos(size: int, pos: int, items: seq<Value>, first: bool): Option<int>
    decreases items, 0
  {
    if items == [] then Some(pos)
    else
      var next := ValuePos(size, pos, items[0], !first);
      if next.None? then None else ItemsPos(size, next.value, items[1..], false)
  }

  function FieldsPos(size: int, pos: int, fields: seq<Field>, first: bool): Option<int>
    decreases fields, 0
  {
    if fields == [] then Some(pos)
    else
      var next := ValuePos(size, NamePos(size, pos, fields[0].name, !first), fields[0].value, false);
      if next.None? then None else FieldsPos(size, next.value, fields[1..], false)
  }

  /** After one field, its name and its value. */
  function FieldPos(size: int, pos: int, f: Field, comma: bool): Option<int> {
    ValuePos(size, NamePos(size, pos, f.name, comma), f.value, false)
  }

  // ---- Integers -----------------------------------------------------------------------------

  /** A conversion stays inside in every state of the buffer exactly when it has fewer characters than are
      reserved for it. */
  lemma NumberRoom(size: int, length: int)
    requires size >= 64 && 1 <= length <= 20
    ensures (forall pos: int, comma | 0 <= pos <= size :: NumberPos(size, pos, length, comma).Some?) <==> length < 20
  {
    if length == 20 {
      assert NumberPos(size, size - 20, 20, false) == None;
    }
  }

  /** With exactly the reserved 20 bytes left, a 20-character integer leaves no room for its terminator. */
  lemma FullBuffer(size: int)
    requires size >= 64
    ensures |Decimal(TWO64 - 1)| == 20 && ValuePos(size, size - 20, Unsigned(TWO64 - 1), false) == None
    ensures |SignedText(-TWO63)| == 20 && ValuePos(size, size - 20, Signed(-TWO63), false) == None
  {
    UnsignedShort(TWO64 - 1);
    SignedShort(-TWO63);
  }

  lemma UnsignedShort(u: nat)
    requires u < TWO64
    ensures 1 <= |Decimal(u)| <= 20 && (|Decimal(u)| < 20 <==> u < 10_000_000_000_000_000_000)
  {
    hide Decimal;
    TwentyDigits();
    DecimalLength(u, 20);
    Powers();
    if u < Pow10(19) {
      DecimalLength(u, 19);
    } else {
      DecimalAtLeast(u, 19);
    }
    assert Decimal(u) != [];
  }

  lemma SignedShort(i: int)
    requires -TWO63 <= i < TWO63
    ensures 1 <= |SignedText(i)| <= 20 && (|SignedText(i)| < 20 <==> i > -1_000_000_000_000_000_000)
  {
    hide Decimal;
    TwentyDigits();
    Powers();
    var m: nat := if i < 0 then -i else i;
    DecimalLength(m, 19);
    if m < Pow10(18) {
      DecimalLength(m, 18);
    } else {
      DecimalAtLeast(m, 18);
    }
    assert Decimal(m) != [];
  }

  // ---- Trees --------------------------------------------------------------------------------

  /** No integer of the tree has 20 characters. */
  predicate Short(v: Value)
    decreases v, 1
  {
    match v
    case Signed(i) => i > -1_000_000_000_000_000_000
    case Unsigned(u) => u < 10_000_000_000_000_000_000
    case Array(items) => ShortItems(items)
    case Object(fields) => ShortFields(fields)
    case _ => true
  }

  predicate ShortItems(items: seq<Value>)
    decreases items, 0
  {
    items == [] || (Short(items[0]) && ShortItems(items[1..]))
  }

  predicate ShortFields(fields: seq<Field>)
    decreases fields, 0
  {
    fields == [] || (Short(fields[0].value) && ShortFields(fields[1..]))
  }

  ghost predicate Inside(size: int, pos: int) {
    size >= 64 && 0 <= pos <= size
  }

  lemma StringInside(size: int, pos: int, length: nat, comma: bool)
    requires Inside(size, pos)
    ensures Inside(size, StringPos(size, pos, length, comma))
  {
  }

  /** Whatever the position, a short tree goes through, and the position stays in the buffer. */
  lemma {:induction false} ShortGoesThrough(size: int, pos: int, v: Value, comma: bool)
    requires Inside(size, pos) && Printable(v) && Short(v)
    ensures var next := ValuePos(size, pos, v, comma); next.Some? && Inside(size, next.value)
    decreases v, 1
  {
    hide Decimal, SignedText, Escape;
    match v
    case Signed(i) => SignedShort(i);
    case Unsigned(u) => UnsignedShort(u);
    case String(s) => StringInside(size, pos, |Escape(s)|, comma);
    case Array(items) => ShortItemsGoThrough(size, OpenPos(size, pos, comma), items, true);
    case Object(fields) => ShortFieldsGoThrough(size, OpenPos(size, pos, comma), fields, true);
    case _ =>
  }

  lemma {:induction false} ShortItemsGoThrough(size: int, pos: int, items: seq<Value>, first: bool)
    requires Inside(size, pos) && Printable(Array(items)) && ShortItems(items)
    ensures var next := ItemsPos(size, pos, items, first); next.Some? && Inside(size, next.value)
    decreases items, 0
  {
    if items != [] {
      assert Printable(items[0]);
      ShortGoesThrough(size, pos, items[0], !first);
      ShortItemsGoThrough(size, ValuePos(size, pos, items[0], !first).value, items[1..], false);
    }
  }

  lemma {:induction false} ShortFieldsGoThrough(size: int, pos: int, fields: seq<Field>, first: bool)
    requires Inside(size, pos) && PrintableFields(fields) && ShortFields(fields)
    ensures var next := FieldsPos(size, pos, fields, first); next.Some? && Inside(size, next.value)
    decreases fields, 0
  {
    if fields != [] {
      assert Printable(fields[0].value);
      StringInside(size, pos, |Escape(fields[0].name)|, !first);
      var named := NamePos(size, pos, fields[0].name, !first);
      ShortGoesThrough(size, named, fields[0].value, false);
      ShortFieldsGoThrough(size, ValuePos(size, named, fields[0].value, false).value, fields[1..], false);
    }
  }

  // ---- A position that meets a long integer -------------------------------------------------

  /** With room to spare nothing is flushed: the position moves by the text. */
  lemma {:induction false} Straight(size: int, pos: int, v: Value, comma: bool)
    requires Inside(size, pos) && Printable(v) && Short(v) && pos + |PrintItem(v, !comma)| + 20 <= size
    ensures ValuePos(size, pos, v, comma) == Some(pos + |PrintItem(v, !comma)|)
    decreases v, 1
  {
    hide Decimal, SignedText, Escape;
    match v
    case Signed(i) => SignedShort(i);
    case Unsigned(u) => UnsignedShort(u);
    case Array(items) => StraightItems(size, OpenPos(size, pos, comma), items, true);
    case Object(fields) => StraightFields(size, OpenPos(size, pos, comma), fields, true);
    case _ =>
  }

  lemma {:induction false} StraightItems(size: int, pos: int, items: seq<Value>, first: bool)
    requires Inside(size, pos) && Printable(Array(items)) && ShortItems(items)
    requires pos + |PrintItems(items, first)| + 20 <= size
    ensures ItemsPos(size, pos, items, first) == Some(pos + |PrintItems(items, first)|)
    decreases items, 0
  {
    if items != [] {
      assert Printable(items[0]);
      Straight(size, pos, items[0], !first);
      StraightItems(size, pos + |PrintItem(items[0], first)|, items[1..], false);
    }
  }

  lemma StraightName(size: int, pos: int, name: string, comma: bool)
    requires Inside(size, pos) && pos + |Comma(comma) + Quoted(name) + ":"| + 19 <= size
    ensures NamePos(size, pos, name, comma) == pos + |Comma(comma) + Quoted(name) + ":"|
  {
    hide Escape;
  }

  lemma {:induction false} StraightFields(size: int, pos: int, fields: seq<Field>, first: bool)
    requires Inside(size, pos) && PrintableFields(fields) && ShortFields(fields)
    requires pos + |PrintFields(fields, first)| + 20 <= size
    ensures FieldsPos(size, pos, fields, first) == Some(pos + |PrintFields(fields, first)|)
    decreases fields, 0
  {
    hide Escape, Quoted;
    if fields != [] {
      assert Printable(fields[0].value);
      StraightName(size, pos, fields[0].name, !first);
      var named := NamePos(size, pos, fields[0].name, !first);
      assert |PrintItem(fields[0].value, true)| == |Print(fields[0].value)|;
      Straight(size, named, fields[0].value, false);
      StraightFields(size, named + |Print(fields[0].value)|, fields[1..], false);
    }
  }

  /** How many characters come before the first 20-character integer. */
  function Before(v: Value, comma: bool): int
    decreases v, 1
  {
    match v
    case Array(items) => Separator(comma) + 1 + BeforeItems(items, true)
    case Object(fields) => Separator(comma) + 1 + BeforeFields(fields, true)
    case _ => Separator(comma)
  }

  function BeforeItems(items: seq<Value>, first: bool): int
    decreases items, 0
  {
    if items == [] then 0
    else if !Short(items[0]) then Before(items[0], !first)
    else |PrintItem(items[0], first)| + BeforeItems(items[1..], false)
  }

  function BeforeFields(fields: seq<Field>, first: bool): int
    decreases fields, 0
  {
    if fields == [] then 0
    else
      var named := |Comma(!first) + Quoted(fields[0].name) + ":"|;
      if !Short(fields[0].value) then named + Before(fields[0].value, false)
      else named + |Print(fields[0].value)| + BeforeFields(fields[1..], false)
  }

  lemma {:induction false} BeforeInText(v: Value, comma: bool)
    requires Printable(v) && !Short(v)
    ensures 0 <= Before(v, comma) && Before(v, comma) + 20 <= |PrintItem(v, !comma)|
    decreases v, 1
  {
    hide Decimal, SignedText;
    match v
    case Signed(i) => SignedShort(i);
    case Unsigned(u) => UnsignedShort(u);
    case Array(items) => BeforeInItems(items, true);
    case Object(fields) => BeforeInFields(fields, true);
  }

  lemma {:induction false} BeforeInItems(items: seq<Value>, first: bool)
    requires Printable(Array(items)) && !ShortItems(items)
    ensures 0 <= BeforeItems(items, first) && BeforeItems(items, first) + 20 <= |PrintItems(items, first)|
    decreases items, 0
  {
    assert Printable(items[0]);
    if Short(items[0]) {
      BeforeInItems(items[1..], false);
    } else {
      BeforeInText(items[0], !first);
    }
  }

  lemma {:induction false} BeforeInFields(fields: seq<Field>, first: bool)
    requires PrintableFields(fields) && !ShortFields(fields)
    ensures 0 <= BeforeFields(fields, first) && BeforeFields(fields, first) + 20 <= |PrintFields(fields, first)|
    decreases fields, 0
  {
    hide Quoted;
    assert Printable(fields[0].value);
    if Short(fields[0].value) {
      BeforeInFields(fields[1..], false);
    } else {
      assert |PrintItem(fields[0].value, true)| == |Print(fields[0].value)|;
      BeforeInText(fields[0].value, false);
    }
  }

  /** If the first 20-character integer would start with 20 bytes left, it has no room for its terminator. */
  lemma {:induction false} Breaks(size: int, pos: int, v: Value, comma: bool)
    requires Inside(size, pos) && Printable(v) && !Short(v) && pos + Before(v, comma) == size - 20
    ensures ValuePos(size, pos, v, comma) == None
    decreases v, 1
  {
    hide Decimal, SignedText;
    match v
    case Signed(i) => SignedShort(i);
    case Unsigned(u) => UnsignedShort(u);
    case Array(items) =>
      BeforeInItems(items, true);
      BreaksItems(size, OpenPos(size, pos, comma), items, true);
    case Object(fields) =>
      BeforeInFields(fields, true);
      BreaksFields(size, OpenPos(size, pos, comma), fields, true);
  }

  lemma {:induction false} BreaksItems(size: int, pos: int, items: seq<Value>, first: bool)
    requires Inside(size, pos) && Printable(Array(items)) && !ShortItems(items)
    requires pos + BeforeItems(items, first) == size - 20
    ensures ItemsPos(size, pos, items, first) == None
    decreases items, 0
  {
    assert Printable(items[0]);
    if Short(items[0]) {
      BeforeInItems(items[1..], false);
      Straight(size, pos, items[0], !first);
      BreaksItems(size, pos + |PrintItem(items[0], first)|, items[1..], false);
    } else {
      Breaks(size, pos, items[0], !first);
    }
  }

  lemma {:induction false} BreaksFields(size: int, pos: int, fields: seq<Field>, first: bool)
    requires Inside(size, pos) && PrintableFields(fields) && !ShortFields(fields)
    requires pos + BeforeFields(fields, first) == size - 20
    ensures FieldsPos(size, pos, fields, first) == None
    decreases fields, 0
  {
    hide Escape, Quoted;
    assert Printable(fields[0].value);
    assert |PrintItem(fields[0].value, true)| == |Print(fields[0].value)|;
    var named := NamePos(size, pos, fields[0].name, !first);
    if Short(fields[0].value) {
      BeforeInFields(fields[1..], false);
      StraightName(size, pos, fields[0].name, !first);
      Straight(size, named, fields[0].value, false);
      BreaksFields(size, named + |Print(fields[0].value)|, fields[1..], false);
    } else {
      BeforeInText(fields[0].value, false);
      StraightName(size, pos, fields[0].name, !first);
      Breaks(size, named, fields[0].value, false);
    }
  }

  // ---- The exact condition ------------------------------------------------------------------

  /** Whatever is buffered, the value goes through. */
  ghost predicate AlwaysRoom(size: int, v: Value) {
    forall pos: int | 0 <= pos <= size :: ValuePos(size, pos, v, false).Some?
  }

  /** For a value whose text fits the buffer: every terminator stays inside in every state of the buffer if
      and only if no integer has 20 characters. */
  lemma RoomExactly(size: int, v: Value)
    requires size >= 64 && Printable(v) && |Print(v)| <= size
    ensures AlwaysRoom(size, v) <==> Short(v)
  {
    hide ValuePos, Short, Printable, Print;
    if Short(v) {
      forall pos: int | 0 <= pos <= size ensures ValuePos(size, pos, v, false).Some? {
        ShortGoesThrough(size, pos, v, false);
      }
    } else {
      BeforeInText(v, false);
      assert |PrintItem(v, true)| <= |Print(v)|;
      var pos := size - 20 - Before(v, false);
      Breaks(size, pos, v, false);
    }
  }

  /** And for any value: every buffer of 64 bytes or more will do, in every state, if and only if no integer
      has 20 characters. */
  lemma RoomInEveryBuffer(v: Value)
    requires Printable(v)
    ensures (forall size: int | size >= 64 :: AlwaysRoom(size, v)) <==> Short(v)
  {
    hide AlwaysRoom, Short, Printable, Print;
    if Short(v) {
      forall size: int | size >= 64 ensures AlwaysRoom(size, v) {
        ShortAlwaysRoom(size, v);
      }
    } else {
      var size := Max(64, |Print(v)|);
      RoomExactly(size, v);
      assert size >= 64;
    }
  }

  lemma ShortAlwaysRoom(size: int, v: Value)
    requires size >= 64 && Printable(v) && Short(v)
    ensures AlwaysRoom(size, v)
  {
    hide ValuePos, Short, Printable;
    forall pos: int | 0 <= pos <= size ensures ValuePos(size, pos, v, false).Some? {
      ShortGoesThrough(size, pos, v, false);
    }
  }

  // ---- Documents as they are shown ----------------------------------------------------------

  /** What every field of a document must be to be printed short. */
  ghost predicate ShortAndPrintable(fields: seq<Field>) {
    PrintableFields(fields) && ShortFields(fields)
  }

  lemma {:induction false} ShortEach(fields: seq<Field>)
    ensures ShortFields(fields) <==> forall k | 0 <= k < |fields| :: Short(fields[k].value)
  {
    hide Short;
    if fields != [] {
      ShortEach(fields[1..]);
      assert forall k | 1 <= k < |fields| :: fields[k] == fields[1..][k - 1];
      assert forall k | 0 <= k < |fields| - 1 :: fields[1..][k] == fields[k + 1];
    }
  }

  lemma ShownAttachmentShort(fields: seq<Field>, mode: Mode)
    requires !mode.Default? && ShortAndPrintable(fields)
    ensures ShortAndPrintable(ShownAttachment(fields, mode))
  {
    hide ShortFields, HasLength, DataLength;
    var shown := ShownAttachment(fields, mode);
    ShortEach(fields);
    ShortEach(shown);
    ShortLength(fields);
    assert NulFree("stub") && NulFree("follows") && NulFree("length");
    forall k | 0 <= k < |shown| ensures NulFree(shown[k].name) && Printable(shown[k].value) && Short(shown[k].value) {
      if k < |fields| {
        assert shown[k] == ShownField(fields[k], mode);
        assert Printable(fields[k].value);
      }
    }
  }

  /** A data length never has 20 digits. */
  lemma {:induction false} ShortLength(fields: seq<Field>)
    ensures DataLength(fields) < 10_000_000_000_000_000_000
    decreases |fields|
  {
    if fields != [] && !IsData(fields[|fields| - 1]) {
      ShortLength(fields[..|fields| - 1]);
    }
  }

  lemma {:induction false} ShownAttachmentsShort(fields: seq<Field>, mode: Mode)
    requires !mode.Default? && ShortAndPrintable(fields)
    ensures ShortAndPrintable(ShownAttachments(fields, mode))
    decreases |fields|
  {
    hide ShownAttachment, NulFree;
    if fields != [] {
      assert PrintableFields(fields[1..]);
      ShownAttachmentsShort(fields[1..], mode);
      if fields[0].value.Object? {
        assert Printable(fields[0].value) && NulFree(fields[0].name) && Short(fields[0].value);
        assert ShortAndPrintable(fields[0].value.fields);
        ShownAttachmentShort(fields[0].value.fields, mode);
        ShortCons(Field(fields[0].name, Object(ShownAttachment(fields[0].value.fields, mode))),
                  ShownAttachments(fields[1..], mode));
      }
    }
  }

  lemma ShortCons(f: Field, rest: seq<Field>)
    requires NulFree(f.name) && Printable(f.value) && Short(f.value) && ShortAndPrintable(rest)
    ensures ShortAndPrintable([f] + rest)
  {
    assert ([f] + rest)[1..] == rest;
  }

  /** A short document goes through in every mode and every state of the buffer. */
  lemma ShownGoesThrough(size: int, pos: int, fields: seq<Field>, mode: Mode)
    requires Inside(size, pos) && Printable(Object(fields)) && Short(Object(fields))
    ensures ValuePos(size, pos, Object(Shown(fields, mode)), false).Some?
  {
    hide ValuePos, ShortFields, ShownAttachments;
    var shown := Shown(fields, mode);
    ShortEach(fields);
    ShortEach(shown);
    forall k | 0 <= k < |shown| ensures NulFree(shown[k].name) && Printable(shown[k].value) && Short(shown[k].value) {
      assert Printable(fields[k].value);
      if shown[k] != fields[k] {
        ShownAttachmentsShort(fields[k].value.fields, mode);
      }
    }
    ShortGoesThrough(size, pos, Object(shown), false);
  }
}
