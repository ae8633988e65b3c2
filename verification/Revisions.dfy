/** Revision strings (DocumentRevision): "<version>-<32 hex digits>". */
module Revisions {
  import opened Base

  type Byte = x: int | 0 <= x < 256

  const DIGEST_LENGTH: nat := 16
  const DIGEST_STRING_LENGTH: nat := 32
  const MAX_REV_STRING_LENGTH: nat := 20 + 1 + DIGEST_STRING_LENGTH

  datatype Revision = Revision(version: nat, digest: seq<Byte>) {
    /** What a DocumentRevision object can hold. */
    predicate Valid() { version < TWO64 && |digest| == DIGEST_LENGTH }
  }

  // ---- Characters -----------------------------------------------------------------------

  predicate IsDigit(c: char) { '0' <= c <= '9' }

  predicate IsXDigit(c: char) { IsDigit(c) || 'a' <= c <= 'f' || 'A' <= c <= 'F' }

  ghost predicate AllDigits(s: string) { forall i | 0 <= i < |s| :: IsDigit(s[i]) }

  ghost predicate AllXDigits(s: string) { forall i | 0 <= i < |s| :: IsXDigit(s[i]) }

  /** `ch | 0x20`, on a character code. */
  function SetBit5(code: nat): nat {
    if code / 32 % 2 == 1 then code else code + 32
  }

  function GetCharNumericValue(c: char): (v: nat)
    ensures IsXDigit(c) ==> v < 16
  {
    if IsDigit(c) then c as int - '0' as int else (SetBit5(c as int) - 0x61 + 10) % 256
  }

  function HexDigit(v: nat): (c: char)
    requires v < 16
    ensures IsXDigit(c) && GetCharNumericValue(c) == v
  {
    if v < 10 then ('0' as int + v) as char else ('a' as int + v - 10) as char
  }

  function DecimalDigit(v: nat): (c: char)
    requires v < 10
    ensures IsDigit(c) && GetCharNumericValue(c) == v
  {
    ('0' as int + v) as char
  }

  function Lower(c: char): char {
    if 'A' <= c <= 'F' then (c as int + 32) as char else c
  }

  // ---- Numbers --------------------------------------------------------------------------

  /** `%llu`. */
  function Decimal(v: nat): (s: string)
    ensures s != [] && AllDigits(s)
  {
    if v < 10 then [DecimalDigit(v)] else Decimal(v / 10) + [DecimalDigit(v % 10)]
  }

  /** The number a digit string stands for. */
  function Number(s: string): nat {
    if s == [] then 0 else 10 * Number(s[..|s| - 1]) + GetCharNumericValue(s[|s| - 1])
  }

  /** How many digits a string starts with. */
  function DigitRun(s: string): (n: nat)
    ensures n <= |s| && AllDigits(s[..n]) && (n == |s| || !IsDigit(s[n]))
  {
    if s == [] || !IsDigit(s[0]) then 0
    else
      var n := DigitRun(s[1..]);
      assert s[..n + 1] == [s[0]] + s[1..][..n];
      n + 1
  }

  /** `strtoul`, base 10, on a string that starts with a digit: it saturates. */
  function Strtoul(s: string): (v: nat)
    ensures v < TWO64
  {
    Min(Number(s[..DigitRun(s)]), TWO64 - 1)
  }

  /** `%02x` for each byte. */
  function Hex(bytes: seq<Byte>): (s: string)
    ensures |s| == 2 * |bytes| && AllXDigits(s)
  {
    if bytes == [] then []
    else [HexDigit(bytes[0] / 16), HexDigit(bytes[0] % 16)] + Hex(bytes[1..])
  }

  /** The byte two hex digits stand for. The high digit is shifted into an unsigned char. */
  function PairValue(hi: char, lo: char): Byte
    requires IsXDigit(hi) && IsXDigit(lo)
  {
    GetCharNumericValue(hi) * 16 + GetCharNumericValue(lo)
  }

  function Bytes(s: string): (b: seq<Byte>)
    requires |s| % 2 == 0 && AllXDigits(s)
    ensures |b| == |s| / 2
  {
    if s == [] then [] else [PairValue(s[0], s[1])] + Bytes(s[2..])
  }

  // ---- Revision strings -----------------------------------------------------------------

  /** Read from the end: 32 hex digits, a dash, and one or more digits before it. */
  predicate WellFormed(s: string) {
    var dash := |s| - DIGEST_STRING_LENGTH - 1;
    && dash > 0
    && s[dash] == '-'
    && (forall i | 0 <= i < dash :: IsDigit(s[i]))
    && (forall i | dash < i < |s| :: IsXDigit(s[i]))
  }

  function FormatRevision(r: Revision): string {
    Decimal(r.version) + "-" + Hex(r.digest)
  }

  /** What a well-formed string denotes. */
  ghost function RevisionOf(s: string): Revision
    requires WellFormed(s)
  {
    var n := |s| - DIGEST_STRING_LENGTH - 1;
    Revision(Min(Number(s[..n]), TWO64 - 1), Bytes(s[n + 1..]))
  }

  lemma DigitRunIs(s: string, n: nat)
    requires n <= |s| && (forall i | 0 <= i < n :: IsDigit(s[i])) && (n == |s| || !IsDigit(s[n]))
    ensures DigitRun(s) == n
  {
  }

  /** The revision string check of every write. */
  method Validate(rev: Option<string>) returns (valid: bool)
    ensures valid <==> rev.Some? && |rev.value| <= MAX_REV_STRING_LENGTH && WellFormed(rev.value)
  {
    valid := false;
    if rev.Some? {
      var s := rev.value;
      if |s| <= MAX_REV_STRING_LENGTH {
        var index := 0;
        while index < |s| && IsDigit(s[index])
          invariant 0 <= index <= |s|
          invariant forall i | 0 <= i < index :: IsDigit(s[i])
        {
          index := index + 1;
        }
        if index > 0 && index < |s| && s[index] == '-' {
          index := index + 1;
          var digestStart := index;
          while index < |s| && IsXDigit(s[index])
            invariant digestStart <= index <= |s|
            invariant forall i | digestStart <= i < index :: IsXDigit(s[i])
          {
            index := index + 1;
          }
          if index == |s| && index - digestStart == DIGEST_STRING_LENGTH {
            valid := true;
          }
          DashPosition(s, digestStart - 1);
        } else {
          NoDash(s, index);
        }
      }
    }
  }

  /** The first non-digit, when it is a dash, is the dash of a well-formed string. */
  lemma DashPosition(s: string, n: nat)
    requires 0 < n < |s| && (forall i | 0 <= i < n :: IsDigit(s[i])) && s[n] == '-'
    ensures WellFormed(s) <==> |s| == n + 1 + DIGEST_STRING_LENGTH && forall i | n < i < |s| :: IsXDigit(s[i])
  {
  }

  lemma NoDash(s: string, n: nat)
    requires n <= |s| && (forall i | 0 <= i < n :: IsDigit(s[i]))
    requires n == 0 || n == |s| || s[n] != '-'
    requires n == |s| || !IsDigit(s[n])
    ensures !WellFormed(s)
  {
  }

  method Parse(s: string) returns (r: Option<Revision>)
    ensures r.Some? <==> WellFormed(s)
    ensures r.Some? ==> r.value == RevisionOf(s) && r.value.Valid()
  {
    var index := 0;
    while index < |s| && IsDigit(s[index])
      invariant 0 <= index <= |s|
      invariant forall i | 0 <= i < index :: IsDigit(s[i])
    {
      index := index + 1;
    }
    if index == 0 || index == |s| || s[index] != '-' {
      NoDash(s, index);
      return None;
    }
    DashPosition(s, index);
    DigitRunIs(s, index);
    index := index + 1;
    var digestStart := index;
    while index < |s| && IsXDigit(s[index])
      invariant digestStart <= index <= |s|
      invariant forall i | digestStart <= i < index :: IsXDigit(s[i])
    {
      index := index + 1;
    }
    var digestEnd := index;
    if digestEnd != |s| || digestEnd - digestStart != DIGEST_STRING_LENGTH {
      return None;
    }
    var version := Strtoul(s);
    var digest := ParseDigest(s[digestStart..]);
    r := Some(Revision(version, digest));
  }

  /** The digest loop: two characters to a byte. */
  method ParseDigest(hex: string) returns (bytes: seq<Byte>)
    requires |hex| == DIGEST_STRING_LENGTH && AllXDigits(hex)
    ensures bytes == Bytes(hex)
  {
    var digest := new Byte[DIGEST_LENGTH](_ => 0);
    var i, index := 0, 0;
    while i < |hex|
      invariant 0 <= index <= DIGEST_LENGTH && i == 2 * index
      invariant Bytes(hex[..i]) == digest[..index]
    {
      BytesAppend(hex[..i], hex[i], hex[i + 1]);
      assert hex[..i + 2] == hex[..i] + [hex[i], hex[i + 1]];
      digest[index] := PairValue(hex[i], hex[i + 1]);
      i := i + 2;
      index := index + 1;
    }
    assert hex[..i] == hex;
    bytes := digest[..];
  }

  lemma {:induction false} BytesAppend(s: string, hi: char, lo: char)
    requires |s| % 2 == 0 && AllXDigits(s) && IsXDigit(hi) && IsXDigit(lo)
    ensures AllXDigits(s + [hi, lo])
    ensures Bytes(s + [hi, lo]) == Bytes(s) + [PairValue(hi, lo)]
  {
    if s == [] {
      assert [hi, lo][2..] == [];
    } else {
      BytesAppend(s[2..], hi, lo);
      assert (s + [hi, lo])[2..] == s[2..] + [hi, lo];
    }
  }

  // ---- Round trips ----------------------------------------------------------------------

  lemma {:induction false} NumberOfDecimal(v: nat)
    ensures Number(Decimal(v)) == v
  {
    if v >= 10 {
      NumberOfDecimal(v / 10);
      var s := Decimal(v);
      assert s[..|s| - 1] == Decimal(v / 10);
    } else {
      assert Number([]) == 0;
      assert Decimal(v)[..0] == [];
    }
  }

  lemma {:induction false} BytesOfHex(b: seq<Byte>)
    ensures Bytes(Hex(b)) == b
  {
    if b != [] {
      BytesOfHex(b[1..]);
      assert Hex(b)[2..] == Hex(b[1..]);
      assert b == [b[0]] + b[1..];
    }
  }

  function Pow10(k: nat): nat {
    if k == 0 then 1 else 10 * Pow10(k - 1)
  }

  lemma {:induction false} DecimalLength(v: nat, k: nat)
    requires k >= 1 && v < Pow10(k)
    ensures |Decimal(v)| <= k
    decreases k
  {
    if v >= 10 {
      assert Pow10(k) == 10 * Pow10(k - 1);
      assert k > 1 by { assert Pow10(0) == 1; }
      DecimalLength(v / 10, k - 1);
    }
  }

  lemma TwentyDigits()
    ensures TWO64 <= Pow10(20) && TWO63 < Pow10(19)
  {
    assert Pow10(5) == 100000 by {
      assert Pow10(3) == 1000 by { assert Pow10(1) == 10 && Pow10(0) == 1; }
    }
    assert Pow10(8) == 100000000;
    assert Pow10(11) == 100000000000;
    assert Pow10(14) == 100000000000000;
    assert Pow10(17) == 100000000000000000;
    assert Pow10(19) == 10000000000000000000;
    assert Pow10(20) == 10 * Pow10(19);
  }

  lemma {:induction false} DecimalAtLeast(v: nat, k: nat)
    requires v >= Pow10(k)
    ensures |Decimal(v)| > k
    decreases k
  {
    if k > 0 {
      assert Pow10(k) == 10 * Pow10(k - 1) && Pow10(k - 1) >= 1 by { Pow10Positive(k - 1); }
      DecimalAtLeast(v / 10, k - 1);
    }
  }

  lemma {:induction false} Pow10Positive(k: nat)
    ensures Pow10(k) >= 1
  {
    if k > 0 {
      Pow10Positive(k - 1);
    }
  }

  lemma Powers()
    ensures Pow10(18) == 1_000_000_000_000_000_000 && Pow10(19) == 10_000_000_000_000_000_000
  {
    assert Pow10(2) == 100 by { assert Pow10(0) == 1; }
    assert Pow10(4) == 10000;
    assert Pow10(6) == 1000000;
    assert Pow10(8) == 100000000;
    assert Pow10(10) == 10000000000;
    assert Pow10(12) == 1000000000000;
    assert Pow10(14) == 100000000000000;
    assert Pow10(16) == 10000000000000000;
    assert Pow10(18) == 1000000000000000000;
    assert Pow10(19) == 10 * Pow10(18);
  }

  lemma FormatWellFormed(r: Revision)
    requires |r.digest| == DIGEST_LENGTH
    ensures WellFormed(FormatRevision(r))
    ensures RevisionOf(FormatRevision(r)) == Revision(Min(r.version, TWO64 - 1), r.digest)
    ensures DigitRun(FormatRevision(r)) == |Decimal(r.version)|
  {
    var s := FormatRevision(r);
    var n := |Decimal(r.version)|;
    assert s[..n] == Decimal(r.version) && s[n] == '-' && s[n + 1..] == Hex(r.digest);
    NumberOfDecimal(r.version);
    BytesOfHex(r.digest);
    DigitRunIs(s, n);
  }

  /** Every revision survives formatting and parsing, and its string is never truncated by the
      54-character buffer. */
  lemma RoundTrip(r: Revision)
    requires r.Valid()
    ensures WellFormed(FormatRevision(r)) && RevisionOf(FormatRevision(r)) == r
    ensures |FormatRevision(r)| <= MAX_REV_STRING_LENGTH
    ensures Strtoul(FormatRevision(r)) == r.version
  {
    FormatWellFormed(r);
    TwentyDigits();
    DecimalLength(r.version, 20);
    var s := FormatRevision(r);
    assert s[..|Decimal(r.version)|] == Decimal(r.version);
    NumberOfDecimal(r.version);
  }

  /** No revision is longer than the one of the greatest version, and the check of strings lets just that length
      pass: 20 digits, a dash and 32 hex digits. */
  lemma LongestRevision(digest: seq<Byte>)
    requires |digest| == 16
    ensures |FormatRevision(Revision(TWO64 - 1, digest))| == 53 == MAX_REV_STRING_LENGTH
  {
    TwentyDigits();
    Powers();
    DecimalLength(TWO64 - 1, 20);
    DecimalAtLeast(TWO64 - 1, 19);
  }

  /** A revision as it is written: the version in decimal, a dash, two lower-case hex digits for each byte. */
  lemma FormatExample()
    ensures FormatRevision(Revision(12, [0, 1, 0x9a, 0xfe])) == "12-00019afe"
  {
    assert Decimal(12) == "12";
    assert Hex([0xfe]) == "fe" && Hex([0x9a, 0xfe]) == "9afe" && Hex([1, 0x9a, 0xfe]) == "019afe" by {
      assert [1, 0x9a, 0xfe][1..] == [0x9a, 0xfe] && [0x9a, 0xfe][1..] == [0xfe] && [0xfe][1..] == [];
    }
    assert [0, 1, 0x9a, 0xfe][1..] == [1, 0x9a, 0xfe];
  }

  /** So two revisions with one string are one revision. */
  lemma FormatInjective(a: Revision, b: Revision)
    requires a.Valid() && b.Valid() && FormatRevision(a) == FormatRevision(b)
    ensures a == b
  {
    RoundTrip(a);
    RoundTrip(b);
  }

  /** The digits without leading zeros (one zero is kept). */
  function StripZeros(s: string): string {
    if |s| > 1 && s[0] == '0' then StripZeros(s[1..]) else s
  }

  function LowerAll(s: string): string {
    if s == [] then [] else [Lower(s[0])] + LowerAll(s[1..])
  }

  lemma {:induction false} NumberOfZero(s: string)
    ensures Number(['0'] + s) == Number(s)
    decreases |s|
  {
    var t := ['0'] + s;
    if s == [] {
      assert t[..0] == [];
    } else {
      NumberOfZero(s[..|s| - 1]);
      assert t[..|t| - 1] == ['0'] + s[..|s| - 1];
    }
  }

  lemma DigitOfValue(c: char)
    requires IsDigit(c)
    ensures GetCharNumericValue(c) < 10 && DecimalDigit(GetCharNumericValue(c)) == c
  {
  }

  lemma {:induction false} DecimalOfNumber(s: string)
    requires s != [] && AllDigits(s) && (|s| == 1 || s[0] != '0')
    ensures Decimal(Number(s)) == s
    ensures s[0] != '0' ==> Number(s) >= 1
    decreases |s|
  {
    var init, last := s[..|s| - 1], s[|s| - 1];
    var d := GetCharNumericValue(last);
    DigitOfValue(last);
    if |s| == 1 {
      assert Number(s) == d by { assert Number(init) == 0; }
    } else {
      DecimalOfNumber(init);
      var n := Number(init);
      assert Number(s) == 10 * n + d && n >= 1;
      assert (10 * n + d) / 10 == n && (10 * n + d) % 10 == d;
      assert s == init + [last];
    }
  }

  lemma {:induction false} DecimalStrips(s: string)
    requires s != [] && AllDigits(s)
    ensures Decimal(Number(s)) == StripZeros(s)
    decreases |s|
  {
    if |s| > 1 && s[0] == '0' {
      NumberOfZero(s[1..]);
      assert s == ['0'] + s[1..];
      DecimalStrips(s[1..]);
    } else {
      DecimalOfNumber(s);
    }
  }

  lemma HexOfValue(c: char)
    requires IsXDigit(c)
    ensures HexDigit(GetCharNumericValue(c)) == Lower(c)
  {
  }

  lemma {:induction false} HexLowers(s: string)
    requires |s| % 2 == 0 && AllXDigits(s)
    ensures Hex(Bytes(s)) == LowerAll(s)
    decreases |s|
  {
    if s != [] {
      HexLowers(s[2..]);
      HexOfValue(s[0]);
      HexOfValue(s[1]);
      assert PairValue(s[0], s[1]) / 16 == GetCharNumericValue(s[0]);
      assert PairValue(s[0], s[1]) % 16 == GetCharNumericValue(s[1]);
      assert s[1..][1..] == s[2..];
      assert LowerAll(s) == [Lower(s[0])] + ([Lower(s[1])] + LowerAll(s[2..]));
      assert Hex(Bytes(s)) == [Lower(s[0]), Lower(s[1])] + Hex(Bytes(s[2..]));
    }
  }

  /** Formatting what was parsed gives the normal form: lower case, no leading zeros. */
  lemma NormalForm(s: string)
    requires WellFormed(s) && Number(s[..|s| - 33]) < TWO64
    ensures FormatRevision(RevisionOf(s)) == StripZeros(s[..|s| - 33]) + "-" + LowerAll(s[|s| - 32..])
  {
    DecimalStrips(s[..|s| - 33]);
    HexLowers(s[|s| - 32..]);
  }

  /** The version written next by Document::Create from the quoted revision string. */
  function NextVersion(oldRev: Option<string>): (v: nat)
    ensures v < TWO64
  {
    Wrap64((if oldRev.Some? then Strtoul(oldRev.value) else 0) + 1)
  }
}
