/** Byte strings, little-endian reads, decimal text and line splitting. */
module Bytes {

  type Byte = b: int | 0 <= b < 256

  type Bytes = seq<Byte>

  const LF: Byte := 10
  const TAB: Byte := 9

  function U16(b: Bytes, at: nat): nat
    requires at + 2 <= |b|
  {
    b[at] as int + 0x100 * (b[at + 1] as int)
  }

  function U32(b: Bytes, at: nat): nat
    requires at + 4 <= |b|
  {
    U16(b, at) + 0x1_0000 * U16(b, at + 2)
  }

  function U64(b: Bytes, at: nat): nat
    requires at + 8 <= |b|
  {
    U32(b, at) + 0x1_0000_0000 * U32(b, at + 4)
  }

  lemma U16Bound(b: Bytes, at: nat)
    requires at + 2 <= |b|
    ensures U16(b, at) < 0x1_0000
  {
  }

  lemma U32Bound(b: Bytes, at: nat)
    requires at + 4 <= |b|
    ensures U32(b, at) < 0x1_0000_0000
  {
    U16Bound(b, at);
    U16Bound(b, at + 2);
    hide U16;
  }

  lemma U64Bound(b: Bytes, at: nat)
    requires at + 8 <= |b|
    ensures U64(b, at) < 0x1_0000_0000_0000_0000
  {
    U32Bound(b, at);
    U32Bound(b, at + 4);
    hide U32;
  }

  /** A number determines its bytes. */
  lemma U16Determines(s: Bytes, t: Bytes, at: nat)
    requires at + 2 <= |s| && at + 2 <= |t| && U16(s, at) == U16(t, at)
    ensures s[at..at + 2] == t[at..at + 2]
  {
    assert s[at] == t[at] && s[at + 1] == t[at + 1];
  }

  lemma SameHalves(s: Bytes, t: Bytes, at: nat, n: nat)
    requires at + 2 * n <= |s| && at + 2 * n <= |t|
    requires s[at..at + n] == t[at..at + n] && s[at + n..at + n + n] == t[at + n..at + n + n]
    ensures s[at..at + 2 * n] == t[at..at + 2 * n]
  {
    assert s[at..at + 2 * n] == s[at..at + n] + s[at + n..at + n + n];
    assert t[at..at + 2 * n] == t[at..at + n] + t[at + n..at + n + n];
  }

  lemma U32Determines(s: Bytes, t: Bytes, at: nat)
    requires at + 4 <= |s| && at + 4 <= |t| && U32(s, at) == U32(t, at)
    ensures s[at..at + 4] == t[at..at + 4]
  {
    U16Bound(s, at);
    U16Bound(t, at);
    hide U16;
    U16Determines(s, t, at);
    U16Determines(s, t, at + 2);
    SameHalves(s, t, at, 2);
  }

  lemma U64Determines(s: Bytes, t: Bytes, at: nat)
    requires at + 8 <= |s| && at + 8 <= |t| && U64(s, at) == U64(t, at)
    ensures s[at..at + 8] == t[at..at + 8]
  {
    hide U32;
    U32Bound(s, at);
    U32Bound(t, at);
    SamePair(U32(s, at), U32(s, at + 4), U32(t, at), U32(t, at + 4));
    U32Determines(s, t, at);
    U32Determines(s, t, at + 4);
    SameHalves(s, t, at, 4);
  }

  lemma SamePair(a: nat, b: nat, c: nat, d: nat)
    requires a < 0x1_0000_0000 && c < 0x1_0000_0000 && a + 0x1_0000_0000 * b == c + 0x1_0000_0000 * d
    ensures a == c && b == d
  {
  }

  /** `n` in two bytes, the low one first; larger numbers lose their high bits. */
  function TwoBytes(n: nat): (r: Bytes)
    ensures |r| == 2 && U16(r, 0) == n % 0x1_0000
  {
    [n % 0x100, n / 0x100 % 0x100]
  }

  function FourBytes(n: nat): (r: Bytes)
    ensures |r| == 4 && U32(r, 0) == n % 0x1_0000_0000
  {
    var low, high := TwoBytes(n), TwoBytes(n / 0x1_0000);
    assert (low + high)[2] == high[0] && (low + high)[3] == high[1];
    low + high
  }

  lemma LowAndHigh(low: Bytes, high: Bytes, n: nat)
    requires |low| == |high| == 4
    requires U32(low, 0) == n % 0x1_0000_0000 && U32(high, 0) == n / 0x1_0000_0000 % 0x1_0000_0000
    ensures |low + high| == 8 && U64(low + high, 0) == n % 0x1_0000_0000_0000_0000
  {
    FourJoined(low, high);
    hide U32;
  }

  lemma FourJoined(low: Bytes, high: Bytes)
    requires |low| == |high| == 4
    ensures U32(low + high, 0) == U32(low, 0) && U32(low + high, 4) == U32(high, 0)
  {
    var b := low + high;
    assert b[0] == low[0] && b[1] == low[1] && b[2] == low[2] && b[3] == low[3];
    assert b[4] == high[0] && b[5] == high[1] && b[6] == high[2] && b[7] == high[3];
  }

  function LittleEndian(n: nat): (r: Bytes)
    ensures |r| == 8 && U64(r, 0) == n % 0x1_0000_0000_0000_0000
  {
    LowAndHigh(FourBytes(n), FourBytes(n / 0x1_0000_0000), n);
    FourBytes(n) + FourBytes(n / 0x1_0000_0000)
  }

  lemma LittleEndianBack(b: Bytes)
    requires |b| >= 8
    ensures b[..8] == LittleEndian(U64(b, 0))
  {
    hide U64, LittleEndian;
    U64Bound(b, 0);
    var n := U64(b, 0);
    SmallRest(n);
    var bytes := LittleEndian(n);
    assert U64(bytes, 0) == n;
    U64Determines(b, bytes, 0);
    WholeSlice(bytes);
  }

  lemma SmallRest(n: nat)
    requires n < 0x1_0000_0000_0000_0000
    ensures n % 0x1_0000_0000_0000_0000 == n
  {
  }

  lemma WholeSlice(b: Bytes)
    requires |b| == 8
    ensures b[0..8] == b
  {
  }

  // ---- decimal text ----

  predicate IsDigit(b: Byte) { 48 <= b <= 57 }

  predicate AllDigits(s: Bytes) { s != [] && forall i :: 0 <= i < |s| ==> IsDigit(s[i]) }

  function DigitsValue(s: Bytes): nat
    requires forall i :: 0 <= i < |s| ==> IsDigit(s[i])
  {
    if s == [] then 0
    else
      assert IsDigit(s[|s| - 1]);
      10 * DigitsValue(s[..|s| - 1]) + (s[|s| - 1] as int - 48)
  }

  /** `str(n).encode()` for a non-negative number. */
  function Decimal(n: nat): (r: Bytes)
    ensures AllDigits(r) && DigitsValue(r) == n
  {
    if n < 10 then
      assert [48 + n][..0] == [];
      [48 + n]
    else
      var r := Decimal(n / 10) + [48 + n % 10];
      assert r[..|r| - 1] == Decimal(n / 10);
      r
  }

  // ---- lines ----

  predicate LineFree(s: Bytes) { LF !in s }

  /** `split("\n")`: always at least one piece. */
  function Lines(b: Bytes): (r: seq<Bytes>)
    ensures r != []
  {
    if b == [] then [[]]
    else
      var rest := Lines(b[1..]);
      if b[0] == LF then [[]] + rest else [[b[0]] + rest[0]] + rest[1..]
  }

  function JoinLines(lines: seq<Bytes>): Bytes {
    if lines == [] then [] else lines[0] + [LF] + JoinLines(lines[1..])
  }

  lemma {:induction false} SplitFirst(line: Bytes, rest: Bytes)
    requires LineFree(line)
    ensures Lines(line + [LF] + rest) == [line] + Lines(rest)
  {
    var b := line + [LF] + rest;
    if line == [] {
      assert b[1..] == rest;
    } else {
      assert b[1..] == line[1..] + [LF] + rest;
      assert line == [line[0]] + line[1..];
      SplitFirst(line[1..], rest);
      assert ([line[1..]] + Lines(rest))[1..] == Lines(rest);
    }
  }

  /** Terminated lines are recovered, followed by the empty piece after the last terminator. */
  lemma {:induction false} SplitJoined(lines: seq<Bytes>)
    requires forall i :: 0 <= i < |lines| ==> LineFree(lines[i])
    ensures Lines(JoinLines(lines)) == lines + [[]]
  {
    if lines != [] {
      SplitJoined(lines[1..]);
      SplitFirst(lines[0], JoinLines(lines[1..]));
      assert lines == [lines[0]] + lines[1..];
    }
  }

  /** Splitting loses nothing. */
  lemma {:induction false} JoinSplit(b: Bytes)
    ensures var r := Lines(b); JoinLines(r[..|r| - 1]) + r[|r| - 1] == b
    ensures forall i :: 0 <= i < |Lines(b)| ==> LineFree(Lines(b)[i])
  {
    if b != [] {
      JoinSplit(b[1..]);
      assert b == [b[0]] + b[1..];
      hide JoinLines;
      if b[0] == LF { BreakJoined(Lines(b[1..])); } else { StartJoined(b[0], Lines(b[1..])); }
    }
  }

  lemma BreakJoined(lines: seq<Bytes>)
    requires lines != []
    ensures var r := [[]] + lines;
      JoinLines(r[..|r| - 1]) + r[|r| - 1] == [LF] + (JoinLines(lines[..|lines| - 1]) + lines[|lines| - 1])
  {
    var r := [[]] + lines;
    assert r[..|r| - 1] == [[]] + lines[..|lines| - 1];
    assert r[..|r| - 1][1..] == lines[..|lines| - 1];
  }

  lemma StartJoined(x: Byte, lines: seq<Bytes>)
    requires lines != []
    ensures var r := [[x] + lines[0]] + lines[1..];
      JoinLines(r[..|r| - 1]) + r[|r| - 1] == [x] + (JoinLines(lines[..|lines| - 1]) + lines[|lines| - 1])
  {
    var r := [[x] + lines[0]] + lines[1..];
    if |lines| == 1 {
      assert r[..|r| - 1] == [] && lines[..0] == [];
    } else {
      assert r[..|r| - 1] == [[x] + lines[0]] + lines[1..|lines| - 1];
      assert r[..|r| - 1][1..] == lines[1..|lines| - 1] == lines[..|lines| - 1][1..];
    }
  }

  // ---- UTF-8 ----

  predicate Continues(b: Bytes, i: nat) { i < |b| && 0x80 <= b[i] <= 0xBF }

  /** Length of the well-formed UTF-8 sequence at the start, or 0. */
  function Utf8Step(b: Bytes): (n: nat)
    ensures n <= |b|
  {
    if b == [] then 0
    else if b[0] <= 0x7F then 1
    else if 0xC2 <= b[0] <= 0xDF then (if Continues(b, 1) then 2 else 0)
    else if 0xE0 <= b[0] <= 0xEF then
      (if Continues(b, 1) && Continues(b, 2) && (b[0] == 0xE0 ==> b[1] >= 0xA0)
        && (b[0] == 0xED ==> b[1] <= 0x9F) then 3 else 0)
    else if 0xF0 <= b[0] <= 0xF4 then
      (if Continues(b, 1) && Continues(b, 2) && Continues(b, 3) && (b[0] == 0xF0 ==> b[1] >= 0x90)
        && (b[0] == 0xF4 ==> b[1] <= 0x8F)
       then 4 else 0)
    else 0
  }

  /** Whether `decode("utf-8")` succeeds. */
  predicate IsUtf8(b: Bytes)
    decreases |b|
  {
    b == [] || (Utf8Step(b) > 0 && IsUtf8(b[Utf8Step(b)..]))
  }
}
