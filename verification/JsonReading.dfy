/** Reading printed JSON back: an independent account of what the plain printing means, by the grammar of
    RFC 8259. White space and escapes by code point, which the printer never writes, are refused. */
module JsonReading {
  import opened Base
  import opened JsonEscape
  import opened JsonText
  import opened Revisions

  /** A JSON text's tree; a number is its token. `JMissing` is no JSON: what a value stands for whose
      type the printer has no case for. */
  datatype Json =
    | JMissing
    | JNull
    | JBoolean(b: bool)
    | JNumber(text: string)
    | JString(s: string)
    | JArray(items: seq<Json>)
    | JObject(fields: seq<Member>)

  datatype Member = Member(name: string, value: Json)

  predicate NumberChar(c: char) {
    IsDigit(c) || c == '-' || c == '+' || c == '.' || c == 'e' || c == 'E'
  }

  /** The characters up to the first one that no number holds. */
  function NumberRun(s: string): (n: nat)
    ensures n <= |s|
  {
    if s == [] || !NumberChar(s[0]) then 0 else 1 + NumberRun(s[1..])
  }

  // ---- Numbers, section 6 of RFC 8259 --------------------------------------------------------

  /** An integer part has no leading zero. */
  predicate IntegerPart(s: string) {
    s != [] && (s[0] == '0' ==> |s| == 1)
  }

  predicate Exponent(s: string) {
    s == [] ||
    ((s[0] == 'e' || s[0] == 'E') &&
     var digits := if |s| > 1 && (s[1] == '+' || s[1] == '-') then s[2..] else s[1..];
     digits != [] && DigitRun(digits) == |digits|)
  }

  predicate FractionAndExponent(s: string) {
    if s == [] || s[0] != '.' then Exponent(s)
    else
      var n := DigitRun(s[1..]);
      n > 0 && Exponent(s[1 + n..])
  }

  predicate IsNumber(s: string) {
    var unsigned := if s != [] && s[0] == '-' then s[1..] else s;
    var n := DigitRun(unsigned);
    IntegerPart(unsigned[..n]) && FractionAndExponent(unsigned[n..])
  }

  // ---- The reader ---------------------------------------------------------------------------

  /** A value at the start of a text, and the text after it. */
  function Read(s: string): (r: Option<(Json, string)>)
    ensures r.Some? ==> |r.value.1| < |s|
    decreases |s|, 1
  {
    if s == [] then None
    else if s[0] == '"' then
      var r := ReadString(s[1..]);
      if r.None? then None else Some((JString(r.value.0), r.value.1))
    else if s[0] == '[' then
      if |s| > 1 && s[1] == ']' then Some((JArray([]), s[2..]))
      else
        var r := ReadItems(s[1..]);
        if r.None? then None else Some((JArray(r.value.0), r.value.1))
    else if s[0] == '{' then
      if |s| > 1 && s[1] == '}' then Some((JObject([]), s[2..]))
      else
        var r := ReadFields(s[1..]);
        if r.None? then None else Some((JObject(r.value.0), r.value.1))
    else if "null" <= s then Some((JNull, s[4..]))
    else if "true" <= s then Some((JBoolean(true), s[4..]))
    else if "false" <= s then Some((JBoolean(false), s[5..]))
    else
      var n := NumberRun(s);
      if n == 0 || !IsNumber(s[..n]) then None else Some((JNumber(s[..n]), s[n..]))
  }

  /** One or more items, up to the closing bracket. */
  function ReadItems(s: string): (r: Option<(seq<Json>, string)>)
    ensures r.Some? ==> |r.value.1| < |s|
    decreases |s|, 2
  {
    var first := Read(s);
    if first.None? || first.value.1 == [] then None
    else
      var (item, next) := first.value;
      if next[0] == ']' then Some(([item], next[1..]))
      else if next[0] != ',' then None
      else
        var rest := ReadItems(next[1..]);
        if rest.None? then None else Some(([item] + rest.value.0, rest.value.1))
  }

  /** A name and its value. */
  function ReadField(s: string): (r: Option<(Member, string)>)
    ensures r.Some? ==> |r.value.1| < |s|
    decreases |s|, 2
  {
    if s == [] || s[0] != '"' then None
    else
      var name := ReadString(s[1..]);
      if name.None? || !(":" <= name.value.1) then None
      else
        var value := Read(name.value.1[1..]);
        if value.None? then None else Some((Member(name.value.0, value.value.0), value.value.1))
  }

  function ReadFields(s: string): (r: Option<(seq<Member>, string)>)
    ensures r.Some? ==> |r.value.1| < |s|
    decreases |s|, 3
  {
    var first := ReadField(s);
    if first.None? || first.value.1 == [] then None
    else
      var (field, next) := first.value;
      if next[0] == '}' then Some(([field], next[1..]))
      else if next[0] != ',' then None
      else
        var rest := ReadFields(next[1..]);
        if rest.None? then None else Some(([field] + rest.value.0, rest.value.1))
  }

  // ---- What is read back --------------------------------------------------------------------

  /** A value tree that is JSON: clean strings, doubles whose text is a number (no infinity, no NaN), and
      no type without a case. */
  predicate Readable(v: Value)
    decreases v, 1
  {
    match v
    case Double(text) => IsNumber(text)
    case String(s) => Clean(s)
    case Array(items) => ReadableItems(items)
    case Object(fields) => ReadableFields(fields)
    case Unknown => false
    case _ => true
  }

  predicate ReadableItems(items: seq<Value>)
    decreases items, 0
  {
    items == [] || (Readable(items[0]) && ReadableItems(items[1..]))
  }

  predicate ReadableFields(fields: seq<Field>)
    decreases fields, 0
  {
    fields == [] || (Clean(fields[0].name) && Readable(fields[0].value) && ReadableFields(fields[1..]))
  }

  /** The tree a value stands for. */
  function Tree(v: Value): Json
    decreases v, 1
  {
    match v
    case Null => JNull
    case Boolean(b) => JBoolean(b)
    case Signed(i) => JNumber(SignedText(i))
    case Unsigned(u) => JNumber(Decimal(u))
    case Double(text) => JNumber(text)
    case String(s) => JString(s)
    case Array(items) => JArray(Trees(items))
    case Object(fields) => JObject(FieldTrees(fields))
    case Unknown => JMissing
  }

  function Trees(items: seq<Value>): seq<Json>
    decreases items, 0
  {
    if items == [] then [] else [Tree(items[0])] + Trees(items[1..])
  }

  function FieldTrees(fields: seq<Field>): seq<Member>
    decreases fields, 0
  {
    if fields == [] then [] else [Member(fields[0].name, Tree(fields[0].value))] + FieldTrees(fields[1..])
  }

  /** What may follow a value without being taken for part of it. */
  predicate Closed(tail: string) {
    tail == [] || !NumberChar(tail[0])
  }

  // ---- The round trip -----------------------------------------------------------------------

  lemma {:induction false} NumberRunIs(text: string, tail: string)
    requires forall k | 0 <= k < |text| :: NumberChar(text[k])
    requires Closed(tail)
    ensures NumberRun(text + tail) == |text|
    decreases |text|
  {
    if text == [] {
      assert text + tail == tail;
    } else {
      assert (text + tail)[1..] == text[1..] + tail;
      NumberRunIs(text[1..], tail);
    }
  }

  lemma ExponentChars(s: string)
    requires Exponent(s)
    ensures forall k | 0 <= k < |s| :: NumberChar(s[k])
  {
    if s != [] {
      var skip := if |s| > 1 && (s[1] == '+' || s[1] == '-') then 2 else 1;
      var digits := s[skip..];
      assert digits[..|digits|] == digits;
      forall k | skip <= k < |s| ensures IsDigit(s[k]) {
        assert s[k] == digits[k - skip];
      }
    }
  }

  lemma FractionChars(s: string)
    requires FractionAndExponent(s)
    ensures forall k | 0 <= k < |s| :: NumberChar(s[k])
  {
    if s == [] || s[0] != '.' {
      ExponentChars(s);
    } else {
      var n := DigitRun(s[1..]);
      ExponentChars(s[1 + n..]);
      forall k | 1 <= k < |s| ensures NumberChar(s[k]) {
        if k <= n {
          assert s[k] == s[1..][..n][k - 1];
        } else {
          assert s[k] == s[1 + n..][k - 1 - n];
        }
      }
    }
  }

  lemma NumberChars(text: string)
    requires IsNumber(text)
    ensures text != [] && (text[0] == '-' || IsDigit(text[0])) && forall k | 0 <= k < |text| :: NumberChar(text[k])
  {
    var sign := if text != [] && text[0] == '-' then 1 else 0;
    var unsigned := text[sign..];
    var n := DigitRun(unsigned);
    FractionChars(unsigned[n..]);
    assert n > 0 && IsDigit(unsigned[..n][0]) && unsigned[..n][0] == text[sign];
    forall k | sign <= k < |text| ensures NumberChar(text[k]) {
      if k < sign + n {
        assert text[k] == unsigned[..n][k - sign];
      } else {
        assert text[k] == unsigned[n..][k - sign - n];
      }
    }
  }

  lemma ReadNumber(text: string, tail: string)
    requires IsNumber(text) && Closed(tail)
    ensures Read(text + tail) == Some((JNumber(text), tail))
  {
    hide IsNumber;
    var s := text + tail;
    NumberChars(text);
    NumberRunIs(text, tail);
    assert s[0] == text[0];
    assert s[..|text|] == text && s[|text|..] == tail;
  }

  lemma {:induction false} NoLeadingZero(v: nat)
    ensures Decimal(v)[0] == '0' <==> v == 0
  {
    if v >= 10 {
      NoLeadingZero(v / 10);
      assert Decimal(v)[0] == Decimal(v / 10)[0];
    }
  }

  lemma DecimalIsNumber(v: nat)
    ensures IsNumber(Decimal(v)) && IsNumber("-" + Decimal(v))
  {
    var d := Decimal(v);
    NoLeadingZero(v);
    DigitRunIs(d, |d|);
    assert d[..|d|] == d && d[|d|..] == [];
    assert ("-" + d)[1..] == d;
    assert IsDigit(d[0]);
  }

  lemma SignedNumber(i: int)
    ensures IsNumber(SignedText(i))
  {
    DecimalIsNumber(if i < 0 then -i else i);
  }

  lemma ReadQuoted(s: string, tail: string)
    ensures Quoted(s) + tail == "\"" + (Escape(s) + "\"" + tail)
    ensures (Quoted(s) + tail)[0] == '"'
    ensures ReadString((Quoted(s) + tail)[1..]) == if Clean(s) then Some((s, tail)) else None
  {
    hide Escape, ReadString;
    EscapeRoundTrip(s, tail);
    assert (Quoted(s) + tail)[1..] == Escape(s) + "\"" + tail;
  }

  /** Printing, then reading: the same tree, with nothing of the tail consumed. */
  lemma {:induction false} ReadBack(v: Value, tail: string)
    requires Readable(v) && Closed(tail)
    ensures Read(Print(v) + tail) == Some((Tree(v), tail))
    decreases v, 1
  {
    hide Escape;
    match v
    case Signed(i) =>
      SignedNumber(i);
      ReadNumber(SignedText(i), tail);
    case Unsigned(u) =>
      DecimalIsNumber(u);
      ReadNumber(Decimal(u), tail);
    case Double(text) =>
      ReadNumber(text, tail);
    case String(s) =>
      ReadQuoted(s, tail);
    case Array(items) =>
      ReadBackArray(items, tail);
    case Object(fields) =>
      ReadBackObject(fields, tail);
    case Null => ReadWord("null", tail);
    case Boolean(b) => ReadWord(if b then "true" else "false", tail);
  }

  lemma ReadWord(word: string, tail: string)
    requires word == "null" || word == "true" || word == "false"
    ensures Read(word + tail) ==
            Some((if word == "null" then JNull else JBoolean(word == "true"), tail))
  {
    var s := word + tail;
    assert s[..|word|] == word && s[|word|..] == tail;
    assert s[0] == word[0];
  }

  lemma {:induction false} ReadBackArray(items: seq<Value>, tail: string)
    requires ReadableItems(items)
    ensures Read(Print(Array(items)) + tail) == Some((JArray(Trees(items)), tail))
    decreases items, 1
  {
    hide PrintItems, Tree, Escape, ReadItems;
    var inner := PrintItems(items, true) + ("]" + tail);
    var s := Print(Array(items)) + tail;
    assert s == "[" + inner && s[1..] == inner;
    if items == [] {
      NoItems();
      assert inner == "]" + tail && s[2..] == tail;
    } else {
      ReadBackItems(items, tail);
      ItemsStart(items, tail);
      NotClosing(items[0]);
      assert s[1] == Print(items[0])[0];
    }
  }

  lemma NoItems()
    ensures PrintItems([], true) == [] && PrintItems([], false) == []
    ensures PrintFields([], true) == [] && PrintFields([], false) == []
  {
  }

  /** A printed value does not start with a closing bracket. */
  lemma NotClosing(v: Value)
    requires !v.Unknown? && (v.Double? ==> IsNumber(v.text))
    ensures Print(v) != [] && Print(v)[0] != ']'
  {
    match v
    case Signed(i) =>
      SignedNumber(i);
      NumberChars(SignedText(i));
    case Unsigned(u) =>
      DecimalIsNumber(u);
      NumberChars(Decimal(u));
    case Double(text) => NumberChars(text);
    case _ =>
  }

  lemma NotUnknown(v: Value)
    ensures PrintItem(v, true) == if v.Unknown? then "" else Print(v)
    ensures PrintItem(v, false) == if v.Unknown? then "" else "," + Print(v)
  {
    hide Print;
    assert Comma(false) + Print(v) == Print(v);
  }

  lemma {:induction false} FirstItem(items: seq<Value>)
    requires items != [] && !items[0].Unknown?
    ensures PrintItems(items, true) == Print(items[0]) + PrintItems(items[1..], false)
    ensures PrintItems(items, false) == "," + PrintItems(items, true)
  {
    hide Print, PrintItem;
    NotUnknown(items[0]);
  }

  lemma {:induction false} ItemsStart(items: seq<Value>, tail: string)
    requires items != [] && !items[0].Unknown?
    ensures PrintItems(items, true) + ("]" + tail) ==
            Print(items[0]) + (PrintItems(items[1..], false) + ("]" + tail))
    ensures PrintItems(items, false) + ("]" + tail) == "," + (PrintItems(items, true) + ("]" + tail))
  {
    hide Print, PrintItems;
    FirstItem(items);
  }

  lemma LastItem(s: string, item: Json, tail: string)
    requires Read(s) == Some((item, "]" + tail))
    ensures ReadItems(s) == Some(([item], tail))
  {
    hide Read;
    assert ("]" + tail)[1..] == tail;
  }

  lemma NextItem(s: string, item: Json, next: string)
    requires Read(s) == Some((item, "," + next)) && ReadItems(next).Some?
    ensures ReadItems(s) == Some(([item] + ReadItems(next).value.0, ReadItems(next).value.1))
  {
    hide Read;
    assert ("," + next)[1..] == next;
  }

  lemma {:induction false} ReadBackItems(items: seq<Value>, tail: string)
    requires items != [] && ReadableItems(items)
    ensures ReadItems(PrintItems(items, true) + ("]" + tail)) == Some((Trees(items), tail))
    decreases items, 0
  {
    hide PrintItems, Print, Tree, Escape, ReadItems, Read;
    var s := PrintItems(items, true) + ("]" + tail);
    var rest := PrintItems(items[1..], false) + ("]" + tail);
    ItemsStart(items, tail);
    if |items| == 1 {
      NoItems();
      assert items[1..] == [] && rest == "]" + tail;
      ReadBack(items[0], rest);
      LastItem(s, Tree(items[0]), tail);
      assert Trees(items) == [Tree(items[0])];
    } else {
      assert ReadableItems(items[1..]) && Readable(items[1]);
      ItemsStart(items[1..], tail);
      ReadBackItems(items[1..], tail);
      ReadBack(items[0], rest);
      NextItem(s, Tree(items[0]), PrintItems(items[1..], true) + ("]" + tail));
    }
  }

  lemma {:induction false} ReadBackObject(fields: seq<Field>, tail: string)
    requires ReadableFields(fields)
    ensures Read(Print(Object(fields)) + tail) == Some((JObject(FieldTrees(fields)), tail))
    decreases fields, 1
  {
    hide PrintFields, Tree, Escape, ReadFields;
    var inner := PrintFields(fields, true) + ("}" + tail);
    var s := Print(Object(fields)) + tail;
    assert s == "{" + inner && s[1..] == inner;
    if fields == [] {
      NoItems();
      assert inner == "}" + tail && s[2..] == tail;
    } else {
      ReadBackFields(fields, tail);
      FieldsStart(fields, tail);
      assert s[1] == '"';
    }
  }

  function PrintField(f: Field): string {
    Quoted(f.name) + ":" + Print(f.value)
  }

  lemma {:induction false} FieldsStart(fields: seq<Field>, tail: string)
    requires fields != []
    ensures PrintFields(fields, true) + ("}" + tail) ==
            PrintField(fields[0]) + (PrintFields(fields[1..], false) + ("}" + tail))
    ensures PrintFields(fields, false) + ("}" + tail) == "," + (PrintFields(fields, true) + ("}" + tail))
    ensures PrintField(fields[0])[0] == '"'
  {
    hide Print, Escape;
    assert Comma(false) + Quoted(fields[0].name) == Quoted(fields[0].name);
  }

  lemma LastField(s: string, field: Member, tail: string)
    requires ReadField(s) == Some((field, "}" + tail))
    ensures ReadFields(s) == Some(([field], tail))
  {
    hide ReadField;
    assert ("}" + tail)[1..] == tail;
  }

  lemma NextField(s: string, field: Member, next: string)
    requires ReadField(s) == Some((field, "," + next)) && ReadFields(next).Some?
    ensures ReadFields(s) == Some(([field] + ReadFields(next).value.0, ReadFields(next).value.1))
  {
    hide ReadField;
    assert ("," + next)[1..] == next;
  }

  lemma {:induction false} ReadBackFields(fields: seq<Field>, tail: string)
    requires fields != [] && ReadableFields(fields)
    ensures ReadFields(PrintFields(fields, true) + ("}" + tail)) == Some((FieldTrees(fields), tail))
    decreases fields, 0
  {
    hide PrintFields, Print, Tree, Escape, ReadFields, ReadField, Read, PrintField;
    var s := PrintFields(fields, true) + ("}" + tail);
    var rest := PrintFields(fields[1..], false) + ("}" + tail);
    var field := Member(fields[0].name, Tree(fields[0].value));
    FieldsStart(fields, tail);
    if |fields| == 1 {
      NoItems();
      assert fields[1..] == [] && rest == "}" + tail;
      ReadBack(fields[0].value, rest);
      ReadBackField(fields[0], rest);
      LastField(s, field, tail);
      assert FieldTrees(fields) == [field];
    } else {
      FieldsStart(fields[1..], tail);
      ReadBackFields(fields[1..], tail);
      ReadBack(fields[0].value, rest);
      ReadBackField(fields[0], rest);
      NextField(s, field, PrintFields(fields[1..], true) + ("}" + tail));
    }
  }

  lemma ReadBackField(f: Field, rest: string)
    requires Clean(f.name) && Read(Print(f.value) + rest) == Some((Tree(f.value), rest))
    ensures ReadField(PrintField(f) + rest) == Some((Member(f.name, Tree(f.value)), rest))
  {
    hide Escape, Print, Read, Tree, Quoted, ReadString;
    var after := ":" + (Print(f.value) + rest);
    ReadQuoted(f.name, after);
    assert PrintField(f) + rest == Quoted(f.name) + after;
    assert after[1..] == Print(f.value) + rest;
  }

  /** So values that print alike are the same tree. */
  lemma PrintInjective(v: Value, w: Value)
    requires Readable(v) && Readable(w) && Print(v) == Print(w)
    ensures Tree(v) == Tree(w)
  {
    ReadBack(v, []);
    ReadBack(w, []);
  }

  // ---- Exactly what reads back --------------------------------------------------------------

  /** A tree a JSON text can stand for. */
  predicate Grammatical(j: Json)
    decreases j, 1
  {
    match j
    case JMissing => false
    case JNumber(text) => IsNumber(text)
    case JString(s) => Clean(s)
    case JArray(items) => GrammaticalItems(items)
    case JObject(fields) => GrammaticalFields(fields)
    case _ => true
  }

  predicate GrammaticalItems(items: seq<Json>)
    decreases items, 0
  {
    items == [] || (Grammatical(items[0]) && GrammaticalItems(items[1..]))
  }

  predicate GrammaticalFields(fields: seq<Member>)
    decreases fields, 0
  {
    fields == [] || (Clean(fields[0].name) && Grammatical(fields[0].value) && GrammaticalFields(fields[1..]))
  }

  /** The reader accepts nothing else. */
  lemma {:induction false} ReadIsGrammatical(s: string)
    ensures Read(s).Some? ==> Grammatical(Read(s).value.0)
    decreases |s|, 1
  {
    hide ReadItems, ReadFields, ReadString, IsNumber, Clean;
    if s != [] {
      if s[0] == '"' {
        ReadIsClean(s[1..]);
      } else if s[0] == '[' {
        ItemsAreGrammatical(s[1..]);
      } else if s[0] == '{' {
        FieldsAreGrammatical(s[1..]);
      }
    }
  }

  lemma {:induction false} ItemsAreGrammatical(s: string)
    ensures ReadItems(s).Some? ==> GrammaticalItems(ReadItems(s).value.0)
    decreases |s|, 2
  {
    hide Read, Grammatical;
    ReadIsGrammatical(s);
    if Read(s).Some? && "," <= Read(s).value.1 {
      ItemsAreGrammatical(Read(s).value.1[1..]);
    }
  }

  lemma {:induction false} FieldsAreGrammatical(s: string)
    ensures ReadFields(s).Some? ==> GrammaticalFields(ReadFields(s).value.0)
    decreases |s|, 3
  {
    hide ReadField, Grammatical, Clean;
    FieldIsGrammatical(s);
    if ReadField(s).Some? && "," <= ReadField(s).value.1 {
      FieldsAreGrammatical(ReadField(s).value.1[1..]);
    }
  }

  lemma {:induction false} FieldIsGrammatical(s: string)
    ensures ReadField(s).Some? ==> Clean(ReadField(s).value.0.name) && Grammatical(ReadField(s).value.0.value)
    decreases |s|, 2
  {
    hide Read, ReadString, Grammatical, Clean;
    if s != [] {
      ReadIsClean(s[1..]);
      var name := ReadString(s[1..]);
      if name.Some? && ":" <= name.value.1 {
        ReadIsGrammatical(name.value.1[1..]);
      }
    }
  }

  lemma {:induction false} TreeIsGrammatical(v: Value)
    ensures Grammatical(Tree(v)) <==> Readable(v)
    decreases v, 1
  {
    hide IsNumber;
    match v
    case Signed(i) => SignedNumber(i);
    case Unsigned(u) => DecimalIsNumber(u);
    case Array(items) => TreesAreGrammatical(items);
    case Object(fields) => FieldTreesAreGrammatical(fields);
    case _ =>
  }

  lemma {:induction false} TreesAreGrammatical(items: seq<Value>)
    ensures GrammaticalItems(Trees(items)) <==> ReadableItems(items)
    decreases items, 0
  {
    hide Grammatical, Readable, Tree;
    if items != [] {
      TreeIsGrammatical(items[0]);
      TreesAreGrammatical(items[1..]);
      assert Trees(items)[1..] == Trees(items[1..]);
    }
  }

  lemma {:induction false} FieldTreesAreGrammatical(fields: seq<Field>)
    ensures GrammaticalFields(FieldTrees(fields)) <==> ReadableFields(fields)
    decreases fields, 0
  {
    hide Grammatical, Readable, Tree, Clean;
    if fields != [] {
      TreeIsGrammatical(fields[0].value);
      FieldTreesAreGrammatical(fields[1..]);
      assert FieldTrees(fields)[1..] == FieldTrees(fields[1..]);
    }
  }

  /** What is printed reads back as the value's tree if and only if the value is JSON. */
  lemma ReadBackExactly(v: Value, tail: string)
    requires Closed(tail)
    ensures Read(Print(v) + tail) == Some((Tree(v), tail)) <==> Readable(v)
  {
    hide Read, Print, Tree, Readable, Grammatical;
    if Readable(v) {
      ReadBack(v, tail);
    }
    ReadIsGrammatical(Print(v) + tail);
    TreeIsGrammatical(v);
  }

  /** The one-character string U+0001 is printed, but its text is no JSON, whatever follows. */
  lemma ControlCharacterRefused(tail: string)
    ensures Read(Print(String([1 as char])) + tail) == None
  {
    hide Escape, ReadString;
    var s: string := [1 as char];
    ReadQuoted(s, tail);
    assert !CleanChar(s[0]);
    assert Print(String(s)) == Quoted(s);
  }

  // ---- Missing values -----------------------------------------------------------------------

  /** JSON, but for values missing behind some names. */
  predicate Gapped(v: Value)
    decreases v, 1
  {
    match v
    case Double(text) => IsNumber(text)
    case String(s) => Clean(s)
    case Array(items) => GappedItems(items)
    case Object(fields) => GappedFields(fields)
    case Unknown => false
    case _ => true
  }

  predicate GappedItems(items: seq<Value>)
    decreases items, 0
  {
    items == [] || (Gapped(items[0]) && GappedItems(items[1..]))
  }

  predicate GappedFields(fields: seq<Field>)
    decreases fields, 0
  {
    fields == [] ||
    (Clean(fields[0].name) && (fields[0].value.Unknown? || Gapped(fields[0].value)) && GappedFields(fields[1..]))
  }

  lemma NextItemRefused(s: string, item: Json, next: string)
    requires Read(s) == Some((item, "," + next)) && ReadItems(next) == None
    ensures ReadItems(s) == None
  {
    hide Read;
    assert ("," + next)[1..] == next;
  }

  lemma NextFieldRefused(s: string, field: Member, next: string)
    requires ReadField(s) == Some((field, "," + next)) && ReadFields(next) == None
    ensures ReadFields(s) == None
  {
    hide ReadField;
    assert ("," + next)[1..] == next;
  }

  lemma FieldRefused(f: Field, rest: string)
    requires Clean(f.name) && Read(Print(f.value) + rest) == None
    ensures ReadFields(PrintField(f) + rest) == None
  {
    hide Escape, Print, Read, Quoted, ReadString, Clean;
    var after := ":" + (Print(f.value) + rest);
    ReadQuoted(f.name, after);
    assert PrintField(f) + rest == Quoted(f.name) + after;
    assert after[1..] == Print(f.value) + rest;
  }

  /** Where a value is missing, what follows is no value. */
  lemma NothingThere(rest: string)
    requires rest != [] && (rest[0] == ',' || rest[0] == '}')
    ensures Read(Print(Unknown) + rest) == None
  {
    assert Print(Unknown) + rest == rest;
  }

  /** A text with a missing value is no JSON at all, not that of another tree either. */
  lemma {:induction false} GapRefused(v: Value, tail: string)
    requires Gapped(v) && !Readable(v)
    ensures Read(Print(v) + tail) == None
    decreases v, 1
  {
    hide Escape, IsNumber, Clean;
    match v
    case Array(items) => GapInArray(items, tail);
    case Object(fields) => GapInObject(fields, tail);
  }

  lemma {:induction false} GapInArray(items: seq<Value>, tail: string)
    requires GappedItems(items) && !ReadableItems(items)
    ensures Read(Print(Array(items)) + tail) == None
    decreases items, 1
  {
    hide PrintItems, Escape, ReadItems, IsNumber;
    var inner := PrintItems(items, true) + ("]" + tail);
    var s := Print(Array(items)) + tail;
    assert s == "[" + inner && s[1..] == inner;
    GapInItems(items, tail);
    ItemsStart(items, tail);
    NotClosing(items[0]);
    assert s[1] == Print(items[0])[0];
  }

  lemma {:induction false} GapInItems(items: seq<Value>, tail: string)
    requires GappedItems(items) && !ReadableItems(items)
    ensures ReadItems(PrintItems(items, true) + ("]" + tail)) == None
    decreases items, 0
  {
    hide PrintItems, Print, Tree, Escape, Read, Gapped, Readable;
    var s := PrintItems(items, true) + ("]" + tail);
    var rest := PrintItems(items[1..], false) + ("]" + tail);
    GappedIsKnown(items[0]);
    ItemsStart(items, tail);
    if Readable(items[0]) {
      GappedIsKnown(items[1]);
      ItemsStart(items[1..], tail);
      ReadBack(items[0], rest);
      GapInItems(items[1..], tail);
      NextItemRefused(s, Tree(items[0]), PrintItems(items[1..], true) + ("]" + tail));
    } else {
      GapRefused(items[0], rest);
    }
  }

  lemma GappedIsKnown(v: Value)
    ensures Gapped(v) ==> !v.Unknown?
  {
  }

  lemma {:induction false} GapInObject(fields: seq<Field>, tail: string)
    requires GappedFields(fields) && !ReadableFields(fields)
    ensures Read(Print(Object(fields)) + tail) == None
    decreases fields, 1
  {
    hide PrintFields, Escape, ReadFields;
    var inner := PrintFields(fields, true) + ("}" + tail);
    var s := Print(Object(fields)) + tail;
    assert s == "{" + inner && s[1..] == inner;
    GapInFields(fields, tail);
    FieldsStart(fields, tail);
    assert s[1] == '"';
  }

  lemma {:induction false} GapInFields(fields: seq<Field>, tail: string)
    requires GappedFields(fields) && !ReadableFields(fields)
    ensures ReadFields(PrintFields(fields, true) + ("}" + tail)) == None
    decreases fields, 0
  {
    hide PrintFields, Print, Tree, Escape, ReadFields, ReadField, Read, PrintField, Gapped, Readable, Clean;
    var s := PrintFields(fields, true) + ("}" + tail);
    var rest := PrintFields(fields[1..], false) + ("}" + tail);
    FieldsStart(fields, tail);
    RestStarts(fields[1..], tail);
    if fields[0].value.Unknown? {
      NothingThere(rest);
      FieldRefused(fields[0], rest);
    } else if Readable(fields[0].value) {
      FieldsStart(fields[1..], tail);
      ReadBack(fields[0].value, rest);
      ReadBackField(fields[0], rest);
      GapInFields(fields[1..], tail);
      NextFieldRefused(s, Member(fields[0].name, Tree(fields[0].value)), PrintFields(fields[1..], true) + ("}" + tail));
    } else {
      GapRefused(fields[0].value, rest);
      FieldRefused(fields[0], rest);
    }
  }

  lemma RestStarts(fields: seq<Field>, tail: string)
    ensures var rest := PrintFields(fields, false) + ("}" + tail);
            rest[0] == ',' || rest[0] == '}'
  {
    hide Quoted, Print;
  }

  lemma {:induction false} ReadableIsGapped(v: Value)
    requires Readable(v)
    ensures Gapped(v)
    decreases v, 1
  {
    hide IsNumber, Clean;
    match v
    case Array(items) => ReadableItemsGapped(items);
    case Object(fields) => ReadableFieldsGapped(fields);
    case _ =>
  }

  lemma {:induction false} ReadableItemsGapped(items: seq<Value>)
    requires ReadableItems(items)
    ensures GappedItems(items)
    decreases items, 0
  {
    if items != [] {
      ReadableIsGapped(items[0]);
      ReadableItemsGapped(items[1..]);
    }
  }

  lemma {:induction false} ReadableFieldsGapped(fields: seq<Field>)
    requires ReadableFields(fields)
    ensures GappedFields(fields)
    decreases fields, 0
  {
    if fields != [] {
      ReadableIsGapped(fields[0].value);
      ReadableFieldsGapped(fields[1..]);
    }
  }

  lemma {:induction false} GappedEach(fields: seq<Field>)
    ensures GappedFields(fields) <==>
            forall k | 0 <= k < |fields| ::
              Clean(fields[k].name) && (fields[k].value.Unknown? || Gapped(fields[k].value))
    decreases |fields|
  {
    hide Clean, Gapped;
    if fields != [] {
      GappedEach(fields[1..]);
      assert forall k | 1 <= k < |fields| :: fields[k] == fields[1..][k - 1];
      assert forall k | 0 <= k < |fields| - 1 :: fields[1..][k] == fields[k + 1];
    }
  }

  // ---- Documents shown with their attachments cut -------------------------------------------

  predicate Scalar(v: Value) {
    !v.Array? && !v.Object?
  }

  predicate HoldsAttachments(f: Field) {
    f.value.Object? && f.name == "_attachments"
  }

  /** The fields of an attachment, data apart, are JSON wherever they are scalars. */
  predicate AttachmentRest(fields: seq<Field>) {
    forall k | 0 <= k < |fields| && !IsData(fields[k]) ::
      Clean(fields[k].name) && (Scalar(fields[k].value) ==> Readable(fields[k].value))
  }

  predicate AttachmentsRest(fields: seq<Field>) {
    forall k | 0 <= k < |fields| && fields[k].value.Object? ::
      Clean(fields[k].name) && AttachmentRest(fields[k].value.fields)
  }

  /** Nested values inside attachments, and whatever is not shown, aside, the document is JSON. */
  predicate RestIsJson(fields: seq<Field>) {
    forall k | 0 <= k < |fields| ::
      && Clean(fields[k].name)
      && if HoldsAttachments(fields[k]) then AttachmentsRest(fields[k].value.fields) else Readable(fields[k].value)
  }

  predicate Flat(fields: seq<Field>) {
    forall j | 0 <= j < |fields| :: Scalar(fields[j].value)
  }

  predicate FlatEach(fields: seq<Field>) {
    forall i | 0 <= i < |fields| && fields[i].value.Object? :: Flat(fields[i].value.fields)
  }

  /** No attachment has an array or an object among its fields. */
  predicate FlatAttachments(fields: seq<Field>) {
    forall k | 0 <= k < |fields| && HoldsAttachments(fields[k]) :: FlatEach(fields[k].value.fields)
  }

  lemma {:induction false} ReadableEach(fields: seq<Field>)
    ensures ReadableFields(fields) <==>
            forall k | 0 <= k < |fields| :: Clean(fields[k].name) && Readable(fields[k].value)
    decreases |fields|
  {
    hide Clean, Readable;
    if fields != [] {
      ReadableEach(fields[1..]);
      assert forall k | 1 <= k < |fields| :: fields[k] == fields[1..][k - 1];
      assert forall k | 0 <= k < |fields| - 1 :: fields[1..][k] == fields[k + 1];
    }
  }

  /** A shown attachment is JSON but for its gaps, and has none exactly if it was flat. */
  lemma ShownAttachmentGaps(fields: seq<Field>, mode: Mode)
    requires !mode.Default? && AttachmentRest(fields)
    ensures GappedFields(ShownAttachment(fields, mode))
    ensures ReadableFields(ShownAttachment(fields, mode)) <==> Flat(fields)
  {
    hide ReadableFields, GappedFields, HasLength, DataLength;
    var shown := ShownAttachment(fields, mode);
    ReadableEach(shown);
    GappedEach(shown);
    assert Clean("stub") && Clean("follows") && Clean("length");
    forall k | 0 <= k < |fields|
      ensures Clean(shown[k].name) && (shown[k].value.Unknown? || Gapped(shown[k].value))
      ensures Readable(shown[k].value) <==> Scalar(fields[k].value)
    {
      assert shown[k] == ShownField(fields[k], mode);
      if !IsData(fields[k]) && Scalar(fields[k].value) {
        ReadableIsGapped(fields[k].value);
      }
    }
    assert forall k | |fields| <= k < |shown| :: Clean(shown[k].name) && shown[k].value.Unsigned?;
  }

  lemma {:induction false} ShownAttachmentsGaps(fields: seq<Field>, mode: Mode)
    requires !mode.Default? && AttachmentsRest(fields)
    ensures GappedFields(ShownAttachments(fields, mode))
    ensures ReadableFields(ShownAttachments(fields, mode)) <==> FlatEach(fields)
    decreases |fields|
  {
    hide Clean, ShownAttachment, AttachmentRest, Flat;
    if fields != [] {
      assert forall k | 1 <= k < |fields| :: fields[k] == fields[1..][k - 1];
      assert forall k | 0 <= k < |fields| - 1 :: fields[1..][k] == fields[k + 1];
      ShownAttachmentsGaps(fields[1..], mode);
      if fields[0].value.Object? {
        ShownAttachmentGaps(fields[0].value.fields, mode);
        assert ShownAttachments(fields, mode)[1..] == ShownAttachments(fields[1..], mode);
      }
    }
  }

  lemma ShownGaps(fields: seq<Field>, mode: Mode)
    requires !mode.Default? && RestIsJson(fields)
    ensures Gapped(Object(Shown(fields, mode)))
    ensures Readable(Object(Shown(fields, mode))) <==> FlatAttachments(fields)
  {
    hide ReadableFields, GappedFields, Clean, AttachmentsRest, ShownAttachments, FlatEach;
    var shown := Shown(fields, mode);
    ReadableEach(shown);
    GappedEach(shown);
    forall k | 0 <= k < |fields|
      ensures shown[k].name == fields[k].name && Gapped(shown[k].value)
      ensures Readable(shown[k].value) <==> (HoldsAttachments(fields[k]) ==> FlatEach(fields[k].value.fields))
    {
      if HoldsAttachments(fields[k]) {
        ShownAttachmentsGaps(fields[k].value.fields, mode);
      } else {
        ReadableIsGapped(fields[k].value);
      }
    }
  }

  /** Serialized in Stub or Follows mode, a document whose rest is JSON reads back as the tree it is to show
      if no attachment has an array or an object among its fields; if one has, the text is no JSON. */
  lemma ShownReadsBack(fields: seq<Field>, mode: Mode, tail: string)
    requires !mode.Default? && Closed(tail) && RestIsJson(fields)
    ensures var v := Object(Shown(fields, mode));
            Read(Print(v) + tail) == if FlatAttachments(fields) then Some((Tree(v), tail)) else None
  {
    hide Read, Print, Tree, Readable, Gapped, RestIsJson, FlatAttachments;
    var v := Object(Shown(fields, mode));
    ShownGaps(fields, mode);
    if Readable(v) {
      ReadBack(v, tail);
    } else {
      GapRefused(v, tail);
    }
  }

  lemma JsonRest(fields: seq<Field>)
    requires Readable(Object(fields))
    ensures RestIsJson(fields)
  {
    hide Clean, ReadableFields;
    ReadableEach(fields);
    forall k | 0 <= k < |fields| && HoldsAttachments(fields[k]) ensures AttachmentsRest(fields[k].value.fields) {
      var entries := fields[k].value.fields;
      assert Readable(fields[k].value);
      ReadableEach(entries);
      forall i | 0 <= i < |entries| && entries[i].value.Object? ensures AttachmentRest(entries[i].value.fields) {
        assert Readable(entries[i].value);
        ReadableEach(entries[i].value.fields);
      }
    }
  }

  /** So a document that is JSON is shown as JSON unless an attachment has a nested field, and then as no JSON
      at all. */
  lemma NestedAttachments(fields: seq<Field>, mode: Mode, tail: string)
    requires !mode.Default? && Closed(tail) && Readable(Object(fields))
    ensures Read(Print(Object(Shown(fields, mode))) + tail) == None <==>
            exists k, i, j :: 0 <= k < |fields| && HoldsAttachments(fields[k])
                              && 0 <= i < |fields[k].value.fields| && fields[k].value.fields[i].value.Object?
                              && 0 <= j < |fields[k].value.fields[i].value.fields|
                              && !Scalar(fields[k].value.fields[i].value.fields[j].value)
  {
    hide Read, Print, Tree, Readable, RestIsJson;
    JsonRest(fields);
    ShownReadsBack(fields, mode, tail);
    if !FlatAttachments(fields) {
      var k :| 0 <= k < |fields| && HoldsAttachments(fields[k]) && !FlatEach(fields[k].value.fields);
      var entries := fields[k].value.fields;
      var i :| 0 <= i < |entries| && entries[i].value.Object? && !Flat(entries[i].value.fields);
      var j :| 0 <= j < |entries[i].value.fields| && !Scalar(entries[i].value.fields[j].value);
      assert !Scalar(fields[k].value.fields[i].value.fields[j].value);
    }
  }

  /** The shortest such document: an attachment whose one field is an empty object. */
  lemma EmptyObjectInAttachment(tail: string)
    requires Closed(tail)
    ensures var fields := [Field("_attachments", Object([Field("a", Object([Field("x", Object([]))]))]))];
            Readable(Object(fields)) && Read(Print(Object(Shown(fields, Stub))) + tail) == None
  {
    hide Read, Print;
    var inner := [Field("x", Object([]))];
    var entries := [Field("a", Object(inner))];
    var fields := [Field("_attachments", Object(entries))];
    assert ReadableFields([]);
    assert inner[1..] == [] && ReadableFields(inner);
    assert entries[1..] == [] && ReadableFields(entries);
    assert fields[1..] == [] && ReadableFields(fields);
    NestedAttachments(fields, Stub, tail);
    assert !Scalar(fields[0].value.fields[0].value.fields[0].value);
  }
}
