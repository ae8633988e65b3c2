/** String escaping for JSON output (JsonHelper): a two-stage one into a fixed buffer that spills to a
    string, and a simple one. */
module JsonEscape {
  import opened Base

  const BACKSPACE: char := 8 as char
  const FORM_FEED: char := 12 as char

  /** What EscapeJsonChar appends for one character. */
  function EscapeChar(c: char): (e: string)
    ensures 1 <= |e| <= 2
  {
    if c == '\\' then "\\\\"
    else if c == '"' then "\\\""
    else if c == '/' then "\\/"
    else if c == BACKSPACE then "\\b"
    else if c == FORM_FEED then "\\f"
    else if c == '\n' then "\\n"
    else if c == '\r' then "\\r"
    else if c == '\t' then "\\t"
    else [c]
  }

  /** The eight characters that are escaped, each by a backslash and one character; all others stand for
      themselves. */
  lemma EscapedCharacters(c: char)
    ensures EscapeChar('\\') == "\\\\" && EscapeChar('"') == "\\\"" && EscapeChar('/') == "\\/"
    ensures EscapeChar(8 as char) == "\\b" && EscapeChar(12 as char) == "\\f"
    ensures EscapeChar(10 as char) == "\\n" && EscapeChar(13 as char) == "\\r" && EscapeChar(9 as char) == "\\t"
    ensures EscapeChar(c) != [c] <==> c in ['\\', '"', '/', 8 as char, 12 as char, 10 as char, 13 as char, 9 as char]
  {
  }

  function Escape(s: string): string {
    if s == [] then [] else Escape(s[..|s| - 1]) + EscapeChar(s[|s| - 1])
  }

  predicate NulFree(s: string) {
    forall i | 0 <= i < |s| :: s[i] != '\0'
  }

  /** The C string an array holds: the characters before the first NUL. */
  function CString(s: string): string {
    if s == [] || s[0] == '\0' then [] else [s[0]] + CString(s[1..])
  }

  lemma {:induction false} CStringIs(s: string, n: nat)
    requires n < |s| && s[n] == '\0' && NulFree(s[..n])
    ensures CString(s) == s[..n]
    decreases n
  {
    if n > 0 {
      assert s[..n][0] == s[0];
      assert s[1..][..n - 1] == s[..n][1..];
      CStringIs(s[1..], n - 1);
    }
  }

  lemma {:induction false} EscapeNulFree(s: string)
    requires NulFree(s)
    ensures NulFree(Escape(s))
    decreases |s|
  {
    if s != [] {
      EscapeNulFree(s[..|s| - 1]);
    }
  }

  lemma EscapeMore(s: string, i: nat)
    requires i < |s|
    ensures Escape(s[..i + 1]) == Escape(s[..i]) + EscapeChar(s[i])
  {
    assert s[..i + 1][..i] == s[..i];
  }

  /** The simple form. */
  method EscapeSimple(value: string) returns (buffer: string)
    ensures buffer == Escape(value)
  {
    buffer := [];
    for i := 0 to |value|
      invariant buffer == Escape(value[..i])
    {
      EscapeMore(value, i);
      buffer := buffer + EscapeChar(value[i]);
    }
    assert value[..|value|] == value;
  }

  /** The fixed-buffer stage: escapes as much as fits and terminates it. */
  method FillBuffer(value: string, buffer: array<char>) returns (index: nat)
    requires NulFree(value) && 0 < |value| < buffer.Length
    modifies buffer
    ensures index <= |value| && CString(buffer[..]) == Escape(value[..index])
  {
    var i := 0;
    index := 0;
    while index < |value| && i < buffer.Length - 2
      invariant 0 <= index <= |value| && 0 <= i < buffer.Length
      invariant buffer[..i] == Escape(value[..index])
    {
      EscapeMore(value, index);
      var e := EscapeChar(value[index]);
      ghost var before := buffer[..i];
      buffer[i] := e[0];
      i := i + 1;
      if |e| == 2 {
        buffer[i] := e[1];
        i := i + 1;
      }
      assert buffer[..i] == before + e;
      index := index + 1;
    }
    ghost var text := buffer[..i];
    buffer[i] := '\0';
    assert buffer[..][..i] == text;
    assert NulFree(value[..index]);
    EscapeNulFree(value[..index]);
    CStringIs(buffer[..], i);
  }

  /** The two-stage form, for a buffer of any size: what the returned pointer denotes is exactly what
      the simple form returns, and no write leaves the buffer. */
  method EscapeBuffered(value: string, buffer: array<char>) returns (escaped: string)
    requires NulFree(value) && buffer.Length > 0
    modifies buffer
    ensures escaped == Escape(value)
  {
    var index := 0;
    buffer[0] := '\0';
    var dynBuffer := [];
    var len := |value|;
    CStringIs(buffer[..], 0);
    if len > 0 && len < buffer.Length {
      index := FillBuffer(value, buffer);
    }
    if index == len {
      assert value[..index] == value;
      return CString(buffer[..]);
    }
    if index > 0 {
      dynBuffer := CString(buffer[..]);
      buffer[0] := '\0';
    }
    while index < len
      invariant index <= len && dynBuffer == Escape(value[..index])
    {
      EscapeMore(value, index);
      dynBuffer := dynBuffer + EscapeChar(value[index]);
      index := index + 1;
    }
    assert value[..index] == value;
    escaped := dynBuffer;
  }

  // ---- Decoding ---------------------------------------------------------------------------

  /** The two-character escapes of section 7 of RFC 8259. */
  function UnescapeChar(c: char): Option<char> {
    if c == '\\' then Some('\\')
    else if c == '"' then Some('"')
    else if c == '/' then Some('/')
    else if c == 'b' then Some(BACKSPACE)
    else if c == 'f' then Some(FORM_FEED)
    else if c == 'n' then Some('\n')
    else if c == 'r' then Some('\r')
    else if c == 't' then Some('\t')
    else None
  }

  /** A character that section 7 of RFC 8259 allows bare, or that the printer escapes. */
  predicate CleanChar(c: char) {
    c >= ' ' || |EscapeChar(c)| == 2
  }

  predicate Clean(s: string) {
    forall i | 0 <= i < |s| :: CleanChar(s[i])
  }

  /** Reads a JSON string whose opening quote has been consumed: its characters, and the text after the
      first bare quote. Bare control characters are refused, and so is an escape by code point, which
      the printer never writes. */
  function ReadString(s: string): (r: Option<(string, string)>)
    ensures r.Some? ==> |r.value.1| < |s|
  {
    if s == [] then None
    else if s[0] == '"' then Some(([], s[1..]))
    else if s[0] < ' ' then None
    else if s[0] != '\\' then Preceded(Some(s[0]), ReadString(s[1..]))
    else if |s| == 1 then None
    else Preceded(UnescapeChar(s[1]), ReadString(s[2..]))
  }

  function Preceded(c: Option<char>, r: Option<(string, string)>): Option<(string, string)> {
    if c.None? || r.None? then None else Some(([c.value] + r.value.0, r.value.1))
  }

  lemma ReadBare(c: char, s: string)
    requires |EscapeChar(c)| == 1
    ensures ReadString([c] + s) == if c < ' ' then None else Preceded(Some(c), ReadString(s))
  {
    assert ([c] + s)[1..] == s;
  }

  lemma ReadEscaped(c: char, s: string)
    requires |EscapeChar(c)| == 2
    ensures ReadString(EscapeChar(c) + s) == Preceded(Some(c), ReadString(s))
  {
    var e := EscapeChar(c);
    assert (e + s)[0] == '\\' && (e + s)[1] == e[1] && (e + s)[2..] == s;
    assert UnescapeChar(e[1]) == Some(c);
  }

  lemma ReadStep(c: char, s: string)
    ensures ReadString(EscapeChar(c) + s) == if CleanChar(c) then Preceded(Some(c), ReadString(s)) else None
  {
    hide ReadString;
    if |EscapeChar(c)| == 1 {
      assert EscapeChar(c) == [c];
      ReadBare(c, s);
    } else {
      ReadEscaped(c, s);
    }
  }

  /** Reading an escaped string goes on with what follows it, unless a character was not clean. */
  lemma {:induction false} ReadPrefix(s: string, tail: string)
    ensures ReadString(Escape(s) + tail) ==
            if Clean(s) && ReadString(tail).Some?
            then Some((s + ReadString(tail).value.0, ReadString(tail).value.1)) else None
    decreases |s|
  {
    hide ReadString, EscapeChar, CleanChar;
    if s == [] {
      assert Escape(s) + tail == tail;
      assert ReadString(tail).Some? ==> s + ReadString(tail).value.0 == ReadString(tail).value.0;
    } else {
      var init, last := s[..|s| - 1], s[|s| - 1];
      ReadStep(last, tail);
      ReadPrefix(init, EscapeChar(last) + tail);
      assert Escape(s) + tail == Escape(init) + (EscapeChar(last) + tail);
      CleanLast(s);
      if ReadString(tail).Some? {
        var rest := ReadString(tail).value.0;
        assert s + rest == init + ([last] + rest);
      }
    }
  }

  lemma CleanLast(s: string)
    requires s != []
    ensures Clean(s) <==> Clean(s[..|s| - 1]) && CleanChar(s[|s| - 1])
  {
  }

  /** Reading an escaped and quoted string gives the string back and stops right after it, if and only if
      every character may stand bare or has a two-character escape; otherwise the text is no JSON. */
  lemma EscapeRoundTrip(s: string, tail: string)
    ensures ReadString(Escape(s) + "\"" + tail) == if Clean(s) then Some((s, tail)) else None
  {
    hide Escape;
    var closed := "\"" + tail;
    assert closed[0] == '"' && closed[1..] == tail;
    assert ReadString(closed) == Some(([], tail));
    ReadPrefix(s, closed);
    assert Escape(s) + "\"" + tail == Escape(s) + closed && s + [] == s;
  }

  /** Whatever is read is clean. */
  lemma {:induction false} ReadIsClean(s: string)
    ensures ReadString(s).Some? ==> Clean(ReadString(s).value.0)
    decreases |s|
  {
    if s != [] && s[0] != '"' && s[0] >= ' ' {
      if s[0] != '\\' {
        ReadIsClean(s[1..]);
      } else if |s| > 1 {
        ReadIsClean(s[2..]);
        assert UnescapeChar(s[1]).Some? ==> CleanChar(UnescapeChar(s[1]).value);
      }
    }
  }
}
