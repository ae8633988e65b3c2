/** The values a response stream prints, and their plain printing. */
module JsonText {
  import opened Base
  import opened JsonEscape
  import Revisions

  /** `Unknown` is any type the appending loops have no case for: they print nothing for it. A double is
      given by what the `%.16g` conversion makes of it. */
  datatype Value =
    | Null
    | Boolean(b: bool)
    | Signed(i: int)
    | Unsigned(u: nat)
    | Double(text: string)
    | String(s: string)
    | Array(items: seq<Value>)
    | Object(fields: seq<Field>)
    | Unknown

  datatype Field = Field(name: string, value: Value)

  /** What the script types can hold: 64-bit integers, C strings, and doubles whose text fits the
      64-byte scratch buffer with its terminator. */
  predicate Printable(v: Value)
    decreases v, 1
  {
    match v
    case Signed(i) => -TWO63 <= i < TWO63
    case Unsigned(u) => u < TWO64
    case Double(text) => |text| < 64
    case String(s) => NulFree(s)
    case Array(items) => forall k | 0 <= k < |items| :: Printable(items[k])
    case Object(fields) => PrintableFields(fields)
    case _ => true
  }

  predicate PrintableFields(fields: seq<Field>)
    decreases fields, 0
  {
    forall k | 0 <= k < |fields| :: NulFree(fields[k].name) && Printable(fields[k].value)
  }

  function SignedText(i: int): string {
    if i < 0 then "-" + Revisions.Decimal(-i) else Revisions.Decimal(i)
  }

  function Quoted(s: string): string {
    "\"" + Escape(s) + "\""
  }

  function Comma(comma: bool): string {
    if comma then "," else ""
  }

  /** The recursive printing. */
  function Print(v: Value): string
    decreases v, 1
  {
    match v
    case Null => "null"
    case Boolean(b) => if b then "true" else "false"
    case Signed(i) => SignedText(i)
    case Unsigned(u) => Revisions.Decimal(u)
    case Double(text) => text
    case String(s) => Quoted(s)
    case Array(items) => "[" + PrintItems(items, true) + "]"
    case Object(fields) => "{" + PrintFields(fields, true) + "}"
    case Unknown => ""
  }

  /** `first` tells whether the first element opens its array. */
  function PrintItems(items: seq<Value>, first: bool): string
    decreases items, 0
  {
    if items == [] then []
    else PrintItem(items[0], first) + PrintItems(items[1..], false)
  }

  function PrintItem(item: Value, first: bool): string
    decreases item, 2
  {
    if item.Unknown? then "" else Comma(!first) + Print(item)
  }

  function PrintFields(fields: seq<Field>, first: bool): string
    decreases fields, 0
  {
    if fields == [] then []
    else Comma(!first) + Quoted(fields[0].name) + ":" + Print(fields[0].value) + PrintFields(fields[1..], false)
  }

  // ---- Attachment modes -------------------------------------------------------------------

  datatype Mode = Default | Stub | Follows

  predicate IsData(f: Field) {
    f.value.String? && f.name == "data"
  }

  /** A field of an attachment as it is shown: the data give way to a marker, and nested values are
      not printed. */
  function ShownField(f: Field, mode: Mode): Field
    requires !mode.Default?
  {
    if IsData(f) then Field(if mode.Stub? then "stub" else "follows", Boolean(true))
    else if f.value.Array? || f.value.Object? then Field(f.name, Unknown)
    else f
  }

  /** A base64 text without its padding. */
  function Unpadded(text: string): (r: string)
    ensures r <= text && (r == [] || r[|r| - 1] != '=')
    ensures forall k | |r| <= k < |text| :: text[k] == '='
  {
    if text == [] || text[|text| - 1] != '=' then text else Unpadded(text[..|text| - 1])
  }

  /** Three bytes for every four characters. The product is kept in 64 bits. */
  function DecodedSize(text: string): (size: nat)
    ensures size < TWO64
  {
    Wrap64(3 * |Unpadded(text)|) / 4
  }

  /** A text that encodes `n` bytes has a quantum of four characters for every three bytes and, for the
      bytes left over, one quantum padded with `=`. */
  predicate Encodes(text: string, n: nat) {
    && |text| == 4 * ((n + 2) / 3) && n < TWO63 / 2
    && |Unpadded(text)| == |text| - (if n % 3 == 0 then 0 else 3 - n % 3)
  }

  lemma DecodedSizeExact(text: string, n: nat)
    requires Encodes(text, n)
    ensures DecodedSize(text) == n
  {
    var q, r := n / 3, n % 3;
    assert n == 3 * q + r;
    if r == 0 {
      assert |Unpadded(text)| == 4 * q;
    } else {
      assert (n + 2) / 3 == q + 1;
      assert |Unpadded(text)| == 4 * q + 1 + r;
    }
  }

  /** The length an attachment's data decode to, the last data field deciding, and 0 without data. */
  function DataLength(fields: seq<Field>): (length: nat)
    ensures length < TWO64
  {
    if fields == [] then 0
    else
      var last := fields[|fields| - 1];
      if IsData(last) then DecodedSize(last.value.s) else DataLength(fields[..|fields| - 1])
  }

  predicate HasLength(fields: seq<Field>) {
    exists k | 0 <= k < |fields| :: !IsData(fields[k]) && fields[k].name == "length"
  }

  function ShownFields(fields: seq<Field>, mode: Mode): (r: seq<Field>)
    requires !mode.Default?
    ensures |r| == |fields|
  {
    seq(|fields|, k requires 0 <= k < |fields| => ShownField(fields[k], mode))
  }

  /** An attachment as it is shown: no data, but always a length. */
  function ShownAttachment(fields: seq<Field>, mode: Mode): seq<Field>
    requires !mode.Default?
  {
    ShownFields(fields, mode) +
    if HasLength(fields) then [] else [Field("length", Unsigned(DataLength(fields)))]
  }

  /** The attachments as they are shown: entries that are not objects are dropped. */
  function ShownAttachments(fields: seq<Field>, mode: Mode): seq<Field>
    requires !mode.Default?
  {
    if fields == [] then []
    else
      var rest := ShownAttachments(fields[1..], mode);
      if !fields[0].value.Object? then rest
      else [Field(fields[0].name, Object(ShownAttachment(fields[0].value.fields, mode)))] + rest
  }

  function ShownTop(f: Field, mode: Mode): Field {
    if !mode.Default? && f.value.Object? && f.name == "_attachments" then
      Field(f.name, Object(ShownAttachments(f.value.fields, mode)))
    else f
  }

  /** The tree an object's serialization shows in an attachment mode. */
  function Shown(fields: seq<Field>, mode: Mode): (r: seq<Field>)
    ensures |r| == |fields|
  {
    seq(|fields|, k requires 0 <= k < |fields| => ShownTop(fields[k], mode))
  }

  /** A shown attachment never carries its data, and always names a length. */
  lemma ShownAttachmentHidesData(fields: seq<Field>, mode: Mode)
    requires !mode.Default?
    ensures forall k | 0 <= k < |ShownAttachment(fields, mode)| :: !IsData(ShownAttachment(fields, mode)[k])
    ensures HasLength(ShownAttachment(fields, mode))
  {
    var shown := ShownAttachment(fields, mode);
    if HasLength(fields) {
      var k :| 0 <= k < |fields| && !IsData(fields[k]) && fields[k].name == "length";
      assert shown[k] == ShownField(fields[k], mode);
      assert !IsData(shown[k]) && shown[k].name == "length";
    } else {
      assert !IsData(shown[|fields|]) && shown[|fields|].name == "length";
    }
  }

  /** What stands at the place of each field: for data the marker of the mode, and any other field that is not
      nested as it was. Behind them comes a length if there was none. */
  lemma ShownFieldIs(fields: seq<Field>, mode: Mode, k: nat)
    requires !mode.Default? && k < |fields|
    ensures k < |ShownAttachment(fields, mode)|
    ensures var f, shown := fields[k], ShownAttachment(fields, mode)[k];
            && (f.name == "data" && f.value.String? ==>
                  shown == Field(match mode case Stub => "stub" case _ => "follows", Boolean(true)))
            && (!(f.name == "data" && f.value.String?) ==> shown.name == f.name)
            && (!(f.name == "data" && f.value.String?) && !f.value.Array? && !f.value.Object? ==> shown == f)
    ensures var more := |ShownAttachment(fields, mode)| - |fields|;
            && 0 <= more <= 1
            && (more == 1 <==> forall j | 0 <= j < |fields| && fields[j].name == "length" :: IsData(fields[j]))
  {
    assert ShownFields(fields, mode)[k] == ShownField(fields[k], mode);
  }

  predicate Named(fields: seq<Field>, name: string) {
    exists k :: 0 <= k < |fields| && fields[k].name == name
  }

  /** An attachment that has data, and no fields of the markers' names, is shown with exactly the marker of the
      mode; one without data with neither. */
  lemma MarkerOfMode(fields: seq<Field>, mode: Mode)
    requires !mode.Default? && !Named(fields, "stub") && !Named(fields, "follows")
    ensures var shown, hasData := ShownAttachment(fields, mode), exists k :: 0 <= k < |fields| && IsData(fields[k]);
            && (Named(shown, "stub") <==> mode == Stub && hasData)
            && (Named(shown, "follows") <==> mode == Follows && hasData)
            && !Named(shown, "data") == (forall k | 0 <= k < |fields| && fields[k].name == "data" :: IsData(fields[k]))
  {
    hide HasLength, DataLength, DecodedSize;
    var shown := ShownAttachment(fields, mode);
    assert forall k | 0 <= k < |fields| :: shown[k] == ShownField(fields[k], mode);
    assert forall k | |fields| <= k < |shown| :: shown[k].name == "length";
    var marker := if mode == Stub then "stub" else "follows";
    assert forall k | 0 <= k < |fields| && IsData(fields[k]) :: shown[k].name == marker;
    assert forall k | 0 <= k < |fields| && !IsData(fields[k]) :: shown[k].name == fields[k].name;
  }

  /** The length shown for one data field that encodes n bytes, if the attachment names none. */
  lemma LengthOfData(fields: seq<Field>, mode: Mode, d: nat, n: nat)
    requires !mode.Default? && d < |fields| && IsData(fields[d]) && !HasLength(fields)
    requires forall k | 0 <= k < |fields| :: IsData(fields[k]) <==> k == d
    requires Encodes(fields[d].value.s, n)
    ensures ShownAttachment(fields, mode)[|fields|..] == [Field("length", Unsigned(n))]
  {
    hide DecodedSize, Encodes;
    DecodedSizeExact(fields[d].value.s, n);
    OneData(fields, d);
  }

  lemma {:induction false} OneData(fields: seq<Field>, d: nat)
    requires d < |fields| && IsData(fields[d])
    requires forall k | 0 <= k < |fields| :: IsData(fields[k]) <==> k == d
    ensures DataLength(fields) == DecodedSize(fields[d].value.s)
    decreases |fields|
  {
    if d < |fields| - 1 {
      OneData(fields[..|fields| - 1], d);
    }
  }

  /** A document with one attachment of three bytes, and an entry among the attachments that is none. */
  lemma StubExample()
    ensures var entry := Object([Field("data", String("AAAA"))]);
            var entries := [Field("n", entry), Field("x", Null)];
            var document := [Field("_id", String("a")), Field("_attachments", Object(entries))];
            var shown := Object([Field("stub", Boolean(true)), Field("length", Unsigned(3))]);
            && Shown(document, Stub) == [document[0], Field("_attachments", Object([Field("n", shown)]))]
            && Shown(document, Default) == document
            && Shown([Field("inner", Object(document))], Stub) == [Field("inner", Object(document))]
  {
    var data := [Field("data", String("AAAA"))];
    var entries := [Field("n", Object(data)), Field("x", Null)];
    var document := [Field("_id", String("a")), Field("_attachments", Object(entries))];
    assert Encodes("AAAA", 3);
    LengthOfData(data, Stub, 0, 3);
    assert ShownAttachment(data, Stub) == [Field("stub", Boolean(true)), Field("length", Unsigned(3))];
    assert entries[1..] == [Field("x", Null)] && entries[1..][1..] == [];
    assert ShownAttachments(entries[1..], Stub) == [];
    var shown := [Field("n", Object(ShownAttachment(data, Stub)))];
    assert ShownAttachments(entries, Stub) == shown;
    assert Shown(document, Stub)[0] == document[0] && Shown(document, Stub)[1] == Field("_attachments", Object(shown));
    assert Shown(document, Default) == document;
    assert Shown([Field("inner", Object(document))], Stub)[0] == Field("inner", Object(document));
  }

  /** The integer a printed text stands for. */
  function IntegerOf(text: string): int {
    if text != [] && text[0] == '-' then -(Revisions.Number(text[1..]) as int) else Revisions.Number(text)
  }

  /** An integer prints as the text of that integer. */
  lemma SignedTextValue(i: int)
    ensures IntegerOf(SignedText(i)) == i
  {
    var m := if i < 0 then -i else i;
    Revisions.NumberOfDecimal(m);
    var digits := Revisions.Decimal(m);
    assert Revisions.IsDigit(digits[0]);
    assert ("-" + digits)[1..] == digits;
  }

  /** Integers print apart from one another. */
  lemma SignedTextInjective(i: int, j: int)
    requires SignedText(i) == SignedText(j)
    ensures i == j
  {
    SignedTextValue(i);
    SignedTextValue(j);
  }
}
