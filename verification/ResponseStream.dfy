/** Buffered JSON output (ScriptObjectResponseStream): the bytes sent to the stream, then the bytes still
    buffered, are at every moment the plain printing of what was appended. */
module ResponseStreamClass {
  import opened Base
  import opened JsonEscape
  import opened JsonText
  import opened StreamPositions

  class ResponseStream {
    const SIZE: nat
    const buffer: array<char>
    var pos: nat
    /** What the underlying stream has been given. */
    var sent: string

    ghost predicate Valid()
      reads this
    {
      64 <= SIZE == buffer.Length && pos <= SIZE
    }

    ghost function Emitted(): string
      reads this, buffer
      requires Valid()
    {
      sent + buffer[..pos]
    }

    constructor (size: nat)
      requires size >= 64
      ensures Valid() && fresh(buffer) && SIZE == size && Emitted() == []
    {
      SIZE := size;
      buffer := new char[size];
      pos := 0;
      sent := [];
    }

    method FlushBuffer()
      requires Valid()
      modifies this
      ensures Valid() && pos == 0 && Emitted() == old(Emitted())
    {
      if pos > 0 {
        sent := sent + buffer[..pos];
        pos := 0;
      }
    }

    /** `memcpy` to the end of what is buffered. */
    method Copy(text: string)
      requires Valid() && |text| <= SIZE - pos
      modifies this`pos, buffer
      ensures Valid() && pos == old(pos) + |text| && sent == old(sent)
      ensures Emitted() == old(Emitted()) + text
    {
      forall k | 0 <= k < |text| {
        buffer[pos + k] := text[k];
      }
      pos := pos + |text|;
      assert buffer[..pos] == old(buffer[..pos]) + text;
    }

    /** `sprintf` to the end of what is buffered: behind the text comes a terminator, which must be inside. */
    method Convert(text: string)
      requires Valid() && |text| < SIZE - pos
      modifies this`pos, buffer
      ensures Valid() && pos == old(pos) + |text| && sent == old(sent)
      ensures Emitted() == old(Emitted()) + text
    {
      Copy(text);
      ghost var emitted := Emitted();
      buffer[pos] := '\0';
      assert Emitted() == emitted;
    }

    /** One character that fits. */
    method Put(c: char)
      requires Valid() && pos < SIZE
      modifies this`pos, buffer
      ensures Valid() && pos == old(pos) + 1 && sent == old(sent)
      ensures Emitted() == old(Emitted()) + [c]
    {
      buffer[pos] := c;
      pos := pos + 1;
      assert buffer[..pos] == old(buffer[..pos]) + [c];
    }

    /** One character, after making room. */
    method PutFlushed(c: char)
      requires Valid()
      modifies this, buffer
      ensures Valid() && pos == PutPos(SIZE, old(pos))
      ensures Emitted() == old(Emitted()) + [c]
    {
      if SIZE - pos == 0 {
        FlushBuffer();
      }
      Put(c);
    }

    /** A short text with a fixed bound on its length, after making room. */
    method AppendShort(text: string, bound: nat, comma: bool)
      requires Valid() && |text| <= bound <= 63
      modifies this, buffer
      ensures Valid() && pos == TextPos(SIZE, old(pos), |text|, bound, comma)
      ensures Emitted() == old(Emitted()) + (Comma(comma) + text)
    {
      var len := bound + if comma then 1 else 0;
      if len > SIZE - pos {
        FlushBuffer();
      }
      ghost var before := Emitted();
      if comma {
        Put(',');
      }
      assert Emitted() == before + Comma(comma);
      Copy(text);
      assert before + Comma(comma) + text == before + (Comma(comma) + text);
    }

    /** A converted integer, after making room for 20 characters. */
    method AppendNumber(text: string, comma: bool)
      requires Valid() && |text| <= 20 && NumberPos(SIZE, pos, |text|, comma).Some?
      modifies this, buffer
      ensures Valid() && NumberPos(SIZE, old(pos), |text|, comma) == Some(pos)
      ensures Emitted() == old(Emitted()) + (Comma(comma) + text)
    {
      var len := 20 + if comma then 1 else 0;
      if len > SIZE - pos {
        FlushBuffer();
      }
      ghost var before := Emitted();
      if comma {
        Put(',');
      }
      assert Emitted() == before + Comma(comma);
      Convert(text);
      assert before + Comma(comma) + text == before + (Comma(comma) + text);
    }

    method AppendBool(value: bool, comma: bool)
      requires Valid()
      modifies this, buffer
      ensures Valid() && ValuePos(SIZE, old(pos), Boolean(value), comma) == Some(pos)
      ensures Emitted() == old(Emitted()) + (Comma(comma) + Print(Boolean(value)))
    {
      AppendShort(if value then "true" else "false", 5, comma);
    }

    method AppendNull(comma: bool)
      requires Valid()
      modifies this, buffer
      ensures Valid() && ValuePos(SIZE, old(pos), Null, comma) == Some(pos)
      ensures Emitted() == old(Emitted()) + (Comma(comma) + Print(Null))
    {
      AppendShort("null", 4, comma);
    }

    method AppendUInt64(value: nat, comma: bool)
      requires Valid() && value < TWO64 && ValuePos(SIZE, pos, Unsigned(value), comma).Some?
      modifies this, buffer
      ensures Valid() && ValuePos(SIZE, old(pos), Unsigned(value), comma) == Some(pos)
      ensures Emitted() == old(Emitted()) + (Comma(comma) + Print(Unsigned(value)))
    {
      UnsignedShort(value);
      AppendNumber(Revisions.Decimal(value), comma);
    }

    method AppendInt64(value: int, comma: bool)
      requires Valid() && -TWO63 <= value < TWO63 && ValuePos(SIZE, pos, Signed(value), comma).Some?
      modifies this, buffer
      ensures Valid() && ValuePos(SIZE, old(pos), Signed(value), comma) == Some(pos)
      ensures Emitted() == old(Emitted()) + (Comma(comma) + Print(Signed(value)))
    {
      SignedShort(value);
      AppendNumber(SignedText(value), comma);
    }

    method AppendDouble(text: string, comma: bool)
      requires Valid() && |text| < 64
      modifies this, buffer
      ensures Valid() && ValuePos(SIZE, old(pos), Double(text), comma) == Some(pos)
      ensures Emitted() == old(Emitted()) + (Comma(comma) + Print(Double(text)))
    {
      AppendShort(text, |text|, comma);
    }

    method AppendLiteralString(str: string)
      requires Valid()
      modifies this, buffer
      ensures Valid() && Emitted() == old(Emitted()) + str
    {
      var len := |str|;
      if len > SIZE - pos {
        FlushBuffer();
      }
      if len <= SIZE - pos {
        Copy(str);
      } else {
        sent := sent + str;
      }
    }

    /** The characters of a string, of which `len` more than the text are still to come: copied when
        they fit; otherwise the buffer is topped up and flushed, and the rest is written through. */
    method WriteText(text: string, len: nat)
      requires Valid() && |text| + 2 <= len
      modifies this, buffer
      ensures Valid() && pos == if len <= SIZE - old(pos) then old(pos) + |text| else 0
      ensures Emitted() == old(Emitted()) + text
    {
      if len <= SIZE - pos {
        Copy(text);
      } else {
        var tempSize := Min(SIZE - pos, |text| % 0x1_0000_0000);
        Copy(text[..tempSize]);
        FlushBuffer();
        assert sent == old(Emitted()) + text[..tempSize] by { assert sent + [] == sent; }
        sent := sent + text[tempSize..];
        assert text[..tempSize] + text[tempSize..] == text && sent + [] == sent;
      }
    }

    /** An escaped text, in quotes. */
    method AppendQuoted(text: string, comma: bool)
      requires Valid()
      modifies this, buffer
      ensures Valid() && pos == StringPos(SIZE, old(pos), |text|, comma)
      ensures Emitted() == old(Emitted()) + (Comma(comma) + "\"" + text + "\"")
    {
      var len := |text| + 2 + if comma then 1 else 0;
      if len > SIZE - pos {
        FlushBuffer();
      }
      ghost var before := Emitted();
      if comma {
        Put(',');
      }
      Put('"');
      assert Emitted() == before + (Comma(comma) + "\"");
      WriteText(text, len);
      Put('"');
      Regroup(before, Comma(comma) + "\"", text, "\"");
    }

    method AppendString(value: string, comma: bool)
      requires Valid() && NulFree(value)
      modifies this, buffer
      ensures Valid() && ValuePos(SIZE, old(pos), String(value), comma) == Some(pos)
      ensures Emitted() == old(Emitted()) + (Comma(comma) + Quoted(value))
    {
      hide Escape, EscapeChar, NulFree;
      var scratch := new char[1024];
      var text := EscapeBuffered(value, scratch);
      AppendQuoted(text, comma);
      assert Comma(comma) + "\"" + text + "\"" == Comma(comma) + Quoted(value);
    }

    method AppendName(name: string, comma: bool)
      requires Valid() && NulFree(name)
      modifies this, buffer
      ensures Valid() && pos == NamePos(SIZE, old(pos), name, comma)
      ensures Emitted() == old(Emitted()) + (Comma(comma) + Quoted(name) + ":")
    {
      AppendString(name, comma);
      PutFlushed(':');
    }

    /** The switch on a value's type; a type without a case appends nothing. */
    method AppendValue(v: Value, comma: bool)
      requires Valid() && Printable(v) && ValuePos(SIZE, pos, v, comma).Some?
      modifies this, buffer
      ensures Valid() && ValuePos(SIZE, old(pos), v, comma) == Some(pos)
      ensures Emitted() == old(Emitted()) + PrintItem(v, !comma)
      decreases v, 1
    {
      match v
      case Null => AppendNull(comma);
      case Boolean(b) => AppendBool(b, comma);
      case Signed(i) => AppendInt64(i, comma);
      case Unsigned(u) => AppendUInt64(u, comma);
      case Double(text) => AppendDouble(text, comma);
      case String(s) => AppendString(s, comma);
      case Array(items) => AppendArray(items, comma);
      case Object(fields) =>
        ShownDefault(fields);
        AppendObject(fields, comma, Default);
      case Unknown => assert Emitted() + [] == Emitted();
    }

    method AppendArray(items: seq<Value>, comma: bool)
      requires Valid() && Printable(Array(items)) && ValuePos(SIZE, pos, Array(items), comma).Some?
      modifies this, buffer
      ensures Valid() && ValuePos(SIZE, old(pos), Array(items), comma) == Some(pos)
      ensures Emitted() == old(Emitted()) + (Comma(comma) + Print(Array(items)))
      decreases items, 0
    {
      hide Escape, EscapeChar, Quoted, SignedText, Revisions.Decimal, PutPos;
      ghost var end := ValuePos(SIZE, pos, Array(items), comma);
      if comma {
        PutFlushed(',');
      }
      PutFlushed('[');
      ghost var start := Emitted();
      assert start == old(Emitted()) + (Comma(comma) + "[");
      assert items[0..] == items;
      for i := 0 to |items|
        invariant Valid()
        invariant ItemsPos(SIZE, pos, items[i..], i == 0).Some?
        invariant ClosePos(SIZE, ItemsPos(SIZE, pos, items[i..], i == 0)) == end
        invariant Emitted() + PrintItems(items[i..], i == 0) == start + PrintItems(items, true)
      {
        ghost var before := Emitted();
        AppendValue(items[i], i > 0);
        assert items[i..][0] == items[i] && items[i..][1..] == items[i + 1..];
        Advance(before, Emitted(), PrintItem(items[i], i == 0), PrintItems(items[i + 1..], false));
      }
      assert Emitted() + [] == Emitted();
      PutFlushed(']');
      Enclose(old(Emitted()), Comma(comma), "[", PrintItems(items, true), "]");
    }

    method AppendObject(fields: seq<Field>, comma: bool, mode: Mode)
      requires Valid() && Printable(Object(fields)) && ValuePos(SIZE, pos, Object(Shown(fields, mode)), comma).Some?
      modifies this, buffer
      ensures Valid() && ValuePos(SIZE, old(pos), Object(Shown(fields, mode)), comma) == Some(pos)
      ensures Emitted() == old(Emitted()) + (Comma(comma) + Print(Object(Shown(fields, mode))))
      decreases fields, 0
    {
      hide Escape, EscapeChar, Quoted, SignedText, Revisions.Decimal, PutPos, NamePos, FieldsPos, GoesOn, PrintFields,
           PrintItems, PrintItem, Print, ValuePos;
      ghost var shown := Shown(fields, mode);
      ghost var end := ValuePos(SIZE, pos, Object(shown), comma);
      ObjectPos(SIZE, pos, shown, comma);
      if comma {
        PutFlushed(',');
      }
      PutFlushed('{');
      ghost var start := Emitted();
      assert start == old(Emitted()) + (Comma(comma) + "{");
      GoesOnFirst(SIZE, pos, start, shown, end);
      for i := 0 to |fields|
        invariant Valid() && GoesOn(SIZE, pos, Emitted(), shown[i..], i == 0, end, start + PrintFields(shown, true))
      {
        ghost var before, at := Emitted(), pos;
        GoesOnField(SIZE, pos, before, shown, i, end, start + PrintFields(shown, true));
        AppendName(fields[i].name, i > 0);
        assert Printable(fields[i].value);
        if mode != Default && fields[i].value.Object? && fields[i].name == "_attachments" {
          AppendAttachments(fields[i].value.fields, mode);
        } else {
          AppendValue(fields[i].value, false);
          NoComma(fields[i].value);
        }
        GoesOnNext(SIZE, at, before, pos, Emitted(), shown, i, end, start + PrintFields(shown, true));
      }
      assert shown[|fields|..] == [];
      GoesOnLast(SIZE, pos, Emitted(), |fields| == 0, end, start + PrintFields(shown, true));
      PutFlushed('}');
      Enclose(old(Emitted()), Comma(comma), "{", PrintFields(shown, true), "}");
      ObjectText(shown);
    }

    method AppendAttachments(fields: seq<Field>, mode: Mode)
      requires Valid() && PrintableFields(fields) && !mode.Default?
      requires ValuePos(SIZE, pos, Object(ShownAttachments(fields, mode)), false).Some?
      modifies this, buffer
      ensures Valid() && ValuePos(SIZE, old(pos), Object(ShownAttachments(fields, mode)), false) == Some(pos)
      ensures Emitted() == old(Emitted()) + Print(Object(ShownAttachments(fields, mode)))
    {
      hide Escape, EscapeChar, Quoted, SignedText, Revisions.Decimal, PutPos, NamePos, FieldsPos, GoesOn, PrintFields,
           PrintItems, PrintItem, Print, ValuePos, ShownAttachment;
      ghost var all := ShownAttachments(fields, mode);
      ghost var end := ValuePos(SIZE, pos, Object(all), false);
      ObjectPos(SIZE, pos, all, false);
      PutFlushed('{');
      ghost var start := Emitted();
      GoesOnFirst(SIZE, pos, start, all, end);
      assert all[0..] == all && fields[0..] == fields;
      var attachments := 0;
      for i := 0 to |fields|
        invariant Valid() && attachments >= 0
        invariant GoesOn(SIZE, pos, Emitted(), ShownAttachments(fields[i..], mode), attachments == 0, end,
                         start + PrintFields(all, true))
      {
        assert fields[i..][0] == fields[i] && fields[i..][1..] == fields[i + 1..];
        if fields[i].value.Object? {
          ghost var before, at := Emitted(), pos;
          ghost var rest := ShownAttachments(fields[i..], mode);
          GoesOnHead(SIZE, pos, before, rest, attachments == 0, end, start + PrintFields(all, true));
          AppendName(fields[i].name, attachments > 0);
          assert Printable(fields[i].value);
          AppendAttachment(fields[i].value.fields, mode);
          assert rest[1..] == ShownAttachments(fields[i + 1..], mode);
          GoesOnTail(SIZE, at, before, pos, Emitted(), rest, attachments == 0, end, start + PrintFields(all, true));
          attachments := attachments + 1;
        }
      }
      assert fields[|fields|..] == [];
      GoesOnLast(SIZE, pos, Emitted(), attachments == 0, end, start + PrintFields(all, true));
      PutFlushed('}');
      Enclose(old(Emitted()), "", "{", PrintFields(all, true), "}");
      ObjectText(all);
    }

    method AppendAttachmentField(f: Field, mode: Mode, comma: bool)
      requires Valid() && NulFree(f.name) && Printable(f.value) && !mode.Default?
      requires FieldPos(SIZE, pos, ShownField(f, mode), comma).Some?
      modifies this, buffer
      ensures Valid() && FieldPos(SIZE, old(pos), ShownField(f, mode), comma) == Some(pos)
      ensures Emitted() == old(Emitted()) + (Comma(comma) + Quoted(ShownField(f, mode).name) + ":") +
                           Print(ShownField(f, mode).value)
    {
      hide Escape, EscapeChar, Quoted, SignedText, Revisions.Decimal;
      if f.value.String? && f.name == "data" {
        AppendName(if mode.Follows? then "follows" else "stub", comma);
        AppendBool(true, false);
        assert Comma(false) + Print(Boolean(true)) == Print(Boolean(true));
      } else {
        AppendName(f.name, comma);
        if f.value.Array? || f.value.Object? {
          assert Emitted() + [] == Emitted();
        } else {
          AppendValue(f.value, false);
          NoComma(f.value);
        }
      }
    }

    method AppendLength(dataLength: nat, comma: bool)
      requires Valid() && dataLength < TWO64
      requires FieldPos(SIZE, pos, Field("length", Unsigned(dataLength)), comma).Some?
      modifies this, buffer
      ensures Valid() && FieldPos(SIZE, old(pos), Field("length", Unsigned(dataLength)), comma) == Some(pos)
      ensures Emitted() == old(Emitted()) + (Comma(comma) + Quoted("length") + ":") + Print(Unsigned(dataLength))
    {
      hide Escape, EscapeChar, Quoted, SignedText, Revisions.Decimal;
      AppendName("length", comma);
      AppendUInt64(dataLength, false);
      NoComma(Unsigned(dataLength));
    }

    method AppendAttachment(fields: seq<Field>, mode: Mode)
      requires Valid() && PrintableFields(fields) && !mode.Default?
      requires ValuePos(SIZE, pos, Object(ShownAttachment(fields, mode)), false).Some?
      modifies this, buffer
      ensures Valid() && ValuePos(SIZE, old(pos), Object(ShownAttachment(fields, mode)), false) == Some(pos)
      ensures Emitted() == old(Emitted()) + Print(Object(ShownAttachment(fields, mode)))
    {
      hide Escape, EscapeChar, Quoted, SignedText, Revisions.Decimal, PutPos, NamePos, FieldsPos, FieldPos, GoesOn,
           PrintFields, PrintItems, PrintItem, Print, ValuePos, HasLength, DataLength, DecodedSize, ShownField, Encodes,
           NulFree;
      ghost var shown := ShownAttachment(fields, mode);
      ghost var end := ValuePos(SIZE, pos, Object(shown), false);
      ObjectPos(SIZE, pos, shown, false);
      PutFlushed('{');
      ghost var start := Emitted();
      GoesOnFirst(SIZE, pos, start, shown, end);
      var gotLength, dataLength: nat := false, 0;
      NoFields();
      for i := 0 to |fields|
        invariant Valid()
        invariant gotLength == HasLength(fields[..i]) && dataLength == DataLength(fields[..i])
        invariant GoesOn(SIZE, pos, Emitted(), shown[i..], i == 0, end, start + PrintFields(shown, true))
      {
        ghost var before, at := Emitted(), pos;
        GoesOnField(SIZE, pos, before, shown, i, end, start + PrintFields(shown, true));
        var name, value := fields[i].name, fields[i].value;
        LengthStep(fields, i);
        AppendAttachmentField(fields[i], mode, i > 0);
        if value.String? && name == "data" {
          dataLength := GetDecodedSize(value.s);
        } else {
          gotLength := gotLength || name == "length";
        }
        GoesOnNext(SIZE, at, before, pos, Emitted(), shown, i, end, start + PrintFields(shown, true));
      }
      assert fields[..|fields|] == fields;
      if !gotLength {
        ghost var before, at := Emitted(), pos;
        GoesOnField(SIZE, pos, before, shown, |fields|, end, start + PrintFields(shown, true));
        AppendLength(dataLength, |fields| > 0);
        GoesOnNext(SIZE, at, before, pos, Emitted(), shown, |fields|, end, start + PrintFields(shown, true));
      }
      assert shown[|shown|..] == [];
      GoesOnLast(SIZE, pos, Emitted(), |shown| == 0, end, start + PrintFields(shown, true));
      PutFlushed('}');
      Enclose(old(Emitted()), "", "{", PrintFields(shown, true), "}");
      ObjectText(shown);
    }

    /** Serialize: a whole document. */
    method Serialize(fields: seq<Field>, mode: Mode)
      requires Valid() && Printable(Object(fields)) && ValuePos(SIZE, pos, Object(Shown(fields, mode)), false).Some?
      modifies this, buffer
      ensures Valid() && Emitted() == old(Emitted()) + Print(Object(Shown(fields, mode)))
    {
      AppendObject(fields, false, mode);
      assert Comma(false) + Print(Object(Shown(fields, mode))) == Print(Object(Shown(fields, mode)));
    }

    /** Flush: afterwards the stream holds everything. */
    method Flush()
      requires Valid()
      modifies this
      ensures Valid() && sent == old(Emitted())
    {
      FlushBuffer();
      assert sent + buffer[..0] == sent;
    }
  }

  /** The padding is dropped from the end, one character at a time. */
  method GetDecodedSize(text: string) returns (decodedSize: nat)
    ensures decodedSize == DecodedSize(text)
    ensures forall n: nat | Encodes(text, n) :: decodedSize == n
  {
    decodedSize := 0;
    if |text| > 0 {
      decodedSize := |text|;
      assert text[..|text|] == text;
      while decodedSize > 0 && text[decodedSize - 1] == '='
        invariant decodedSize <= |text| && Unpadded(text[..decodedSize]) == Unpadded(text)
      {
        assert text[..decodedSize][..decodedSize - 1] == text[..decodedSize - 1];
        decodedSize := decodedSize - 1;
      }
      decodedSize := Wrap64(decodedSize * 3) / 4;
    }
    forall n: nat | Encodes(text, n) ensures decodedSize == n {
      DecodedSizeExact(text, n);
    }
  }

  lemma ShownDefault(fields: seq<Field>)
    ensures Shown(fields, Default) == fields
  {
  }

  /** Without a comma an item prints as its value. */
  lemma NoComma(v: Value)
    ensures PrintItem(v, true) == Print(v)
  {
    assert Comma(false) + Print(v) == Print(v);
  }

  lemma Advance(before: string, after: string, step: string, rest: string)
    requires after == before + step
    ensures after + rest == before + (step + rest)
  {
  }

  lemma AdvanceHead(before: string, after: string, fields: seq<Field>, first: bool)
    requires fields != []
    requires after == before + (Comma(!first) + Quoted(fields[0].name) + ":") + Print(fields[0].value)
    ensures after + PrintFields(fields[1..], false) == before + PrintFields(fields, first)
  {
    hide Print, Quoted;
    var step := Comma(!first) + Quoted(fields[0].name) + ":";
    Advance(before, after, step + Print(fields[0].value), PrintFields(fields[1..], false));
  }

  lemma Regroup(before: string, open: string, inner: string, close: string)
    ensures before + open + inner + close == before + (open + inner + close)
  {
  }

  lemma NoFields()
    ensures !HasLength([]) && DataLength([]) == 0
    ensures PrintFields([], true) == [] && PrintFields([], false) == []
  {
  }

  lemma LengthStep(fields: seq<Field>, i: nat)
    requires i < |fields|
    ensures HasLength(fields[..i + 1]) == (HasLength(fields[..i]) || (!IsData(fields[i]) && fields[i].name == "length"))
    ensures DataLength(fields[..i + 1]) ==
            if IsData(fields[i]) then DecodedSize(fields[i].value.s) else DataLength(fields[..i])
  {
    var next := fields[..i + 1];
    assert next[..i] == fields[..i] && next[i] == fields[i];
    if HasLength(fields[..i]) {
      var k :| 0 <= k < i && !IsData(fields[..i][k]) && fields[..i][k].name == "length";
      assert next[k] == fields[..i][k];
    }
    if HasLength(next) {
      var k :| 0 <= k <= i && !IsData(next[k]) && next[k].name == "length";
      assert k < i ==> fields[..i][k] == next[k];
    }
  }

  lemma Enclose(before: string, comma: string, open: string, inner: string, close: string)
    ensures before + (comma + open) + inner + close == before + (comma + (open + inner + close))
  {
  }

  lemma ObjectPos(size: int, pos: int, fields: seq<Field>, comma: bool)
    ensures ValuePos(size, pos, Object(fields), comma)
            == ClosePos(size, FieldsPos(size, OpenPos(size, pos, comma), fields, true))
  {
  }

  lemma ObjectText(fields: seq<Field>)
    ensures Print(Object(fields)) == "{" + PrintFields(fields, true) + "}"
    ensures Comma(false) == ""
  {
  }

  /** Where an object stands before some of its fields: they have room, they lead to its end, and with their
      text the output is complete but for the closing brace. */
  ghost predicate GoesOn(size: int, pos: int, emitted: string, fields: seq<Field>, first: bool, end: Option<int>,
                         total: string) {
    && FieldsPos(size, pos, fields, first).Some?
    && ClosePos(size, FieldsPos(size, pos, fields, first)) == end
    && emitted + PrintFields(fields, first) == total
  }

  lemma GoesOnFirst(size: int, pos: int, emitted: string, fields: seq<Field>, end: Option<int>)
    requires end.Some? && ClosePos(size, FieldsPos(size, pos, fields, true)) == end
    ensures GoesOn(size, pos, emitted, fields[0..], true, end, emitted + PrintFields(fields, true))
  {
    hide FieldsPos, PrintFields;
    assert fields[0..] == fields;
  }

  /** The next field has room. */
  lemma GoesOnHead(size: int, pos: int, emitted: string, fields: seq<Field>, first: bool, end: Option<int>,
                   total: string)
    requires fields != [] && GoesOn(size, pos, emitted, fields, first, end, total)
    ensures FieldPos(size, pos, fields[0], !first).Some?
    ensures ValuePos(size, NamePos(size, pos, fields[0].name, !first), fields[0].value, false).Some?
  {
    hide ValuePos, NamePos, PrintFields;
  }

  /** And behind it the object goes on. */
  lemma GoesOnTail(size: int, pos0: int, before: string, pos: int, after: string, fields: seq<Field>, first: bool,
                   end: Option<int>, total: string)
    requires fields != [] && GoesOn(size, pos0, before, fields, first, end, total)
    requires FieldPos(size, pos0, fields[0], !first) == Some(pos)
    requires after == before + (Comma(!first) + Quoted(fields[0].name) + ":") + Print(fields[0].value)
    ensures GoesOn(size, pos, after, fields[1..], false, end, total)
  {
    hide ValuePos, NamePos, PrintFields, Print, Quoted;
    AdvanceHead(before, after, fields, first);
  }

  lemma GoesOnField(size: int, pos: int, emitted: string, fields: seq<Field>, i: nat, end: Option<int>, total: string)
    requires i < |fields| && GoesOn(size, pos, emitted, fields[i..], i == 0, end, total)
    ensures FieldPos(size, pos, fields[i], i > 0).Some?
    ensures ValuePos(size, NamePos(size, pos, fields[i].name, i > 0), fields[i].value, false).Some?
  {
    hide ValuePos, NamePos, PrintFields, GoesOn;
    assert fields[i..][0] == fields[i];
    GoesOnHead(size, pos, emitted, fields[i..], i == 0, end, total);
  }

  lemma GoesOnNext(size: int, pos0: int, before: string, pos: int, after: string, fields: seq<Field>, i: nat,
                   end: Option<int>, total: string)
    requires i < |fields| && GoesOn(size, pos0, before, fields[i..], i == 0, end, total)
    requires FieldPos(size, pos0, fields[i], i > 0) == Some(pos)
    requires after == before + (Comma(i > 0) + Quoted(fields[i].name) + ":") + Print(fields[i].value)
    ensures GoesOn(size, pos, after, fields[i + 1..], false, end, total)
  {
    hide ValuePos, NamePos, FieldPos, PrintFields, Print, Quoted, GoesOn;
    assert fields[i..][0] == fields[i] && fields[i..][1..] == fields[i + 1..];
    GoesOnTail(size, pos0, before, pos, after, fields[i..], i == 0, end, total);
  }

  lemma GoesOnLast(size: int, pos: int, emitted: string, first: bool, end: Option<int>, total: string)
    requires GoesOn(size, pos, emitted, [], first, end, total)
    ensures end == Some(PutPos(size, pos)) && emitted == total
  {
    assert emitted + [] == emitted;
  }
}
