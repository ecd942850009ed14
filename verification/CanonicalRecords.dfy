/** The canonical record texts of engine/comparators/indexed_records.py.  Two files are compared by
    comparing these texts, so the texts must determine the records. */
module CanonicalRecords {
  import opened Bytes

  function HexDigit(n: nat): Byte
    requires n < 16
  {
    if n < 10 then 48 + n else 87 + n
  }

  /** `record.hex()`. */
  function Hex(record: Bytes): Bytes {
    seq(2 * |record|, k requires 0 <= k < 2 * |record| =>
      if k % 2 == 0 then HexDigit(record[k / 2] / 16) else HexDigit(record[k / 2] % 16))
  }

  /** Printable characters as they are, any other byte as a dot. */
  function Shown(record: Bytes): Bytes {
    seq(|record|, k requires 0 <= k < |record| => if 32 <= record[k] < 127 then record[k] else 46)
  }

  function Line(record: Bytes): Bytes { Hex(record) + [TAB] + Shown(record) }

  function Canonical(records: seq<Bytes>): Bytes {
    if records == [] then [] else Line(records[0]) + [LF] + Canonical(records[1..])
  }

  /** `splitlines(True)` of a text whose only line separator is a line feed. */
  function KeptLines(text: Bytes): seq<Bytes> {
    var pieces := Lines(text);
    seq(|pieces| - 1, i requires 0 <= i < |pieces| - 1 => pieces[i] + [LF])
  }

  type Slot = (nat, Bytes)

  function RecordsOf(slots: seq<Slot>): seq<Bytes> { seq(|slots|, i requires 0 <= i < |slots| => slots[i].1) }

  function Prefixed(slots: seq<Slot>, lines: seq<Bytes>): Bytes {
    if slots == [] || lines == [] then [] else Decimal(slots[0].0) + [TAB] + lines[0] + Prefixed(slots[1..], lines[1..])
  }

  function CanonicalRelative(slots: seq<Slot>): Bytes {
    Prefixed(slots, KeptLines(Canonical(RecordsOf(slots))))
  }

  const HEX: string := "0123456789abcdef"

  lemma DigitShown(n: nat)
    requires n < 16
    ensures HexDigit(n) as int == HEX[n] as int
  {
  }

  /** The line of a record: two hexadecimal digits for each byte, a tab, and the printable characters. */
  lemma LineShows(record: Bytes, i: nat)
    requires i < |record|
    ensures var line, n := Line(record), |record|;
      && |line| == 3 * n + 1 && line[2 * n] == 9
      && line[2 * i] as int == HEX[record[i] / 16] as int && line[2 * i + 1] as int == HEX[record[i] % 16] as int
      && line[2 * n + 1 + i] == if ' ' <= record[i] as char <= '~' then record[i] else '.' as Byte
  {
    DigitShown(record[i] / 16);
    DigitShown(record[i] % 16);
  }

  // ---- injectivity ----

  lemma LineIsOneLine(record: Bytes)
    ensures LineFree(Line(record))
  {
    forall k | 0 <= k < |Line(record)| ensures Line(record)[k] != LF {
      if k < 2 * |record| { assert Line(record)[k] == Hex(record)[k]; }
    }
  }

  lemma ByteFromDigits(a: Byte, b: Byte)
    requires HexDigit(a / 16) == HexDigit(b / 16) && HexDigit(a % 16) == HexDigit(b % 16)
    ensures a == b
  {
  }

  /** Text up to the first separator is determined, and so is the rest. */
  lemma FirstSeparator(p: Bytes, q: Bytes, separator: Byte, x: Bytes, y: Bytes)
    requires separator !in p && separator !in q && p + [separator] + x == q + [separator] + y
    ensures p == q && x == y
  {
    var a, b := p + [separator] + x, q + [separator] + y;
    assert forall k :: 0 <= k < |p| ==> a[k] == p[k] && p[k] in p;
    assert forall k :: 0 <= k < |q| ==> b[k] == q[k] && q[k] in q;
    assert a[|p|] == separator && b[|q|] == separator;
    assert |p| == |q|;
    assert p == a[..|p|] && q == b[..|q|] && x == a[|p| + 1..] && y == b[|q| + 1..];
  }

  lemma HexDetermines(r: Bytes, s: Bytes)
    requires Hex(r) == Hex(s)
    ensures r == s
  {
    assert |Hex(r)| == 2 * |r| && |Hex(s)| == 2 * |s|;
    forall k | 0 <= k < |r| ensures r[k] == s[k] {
      assert Hex(r)[2 * k] == HexDigit(r[k] / 16) && Hex(r)[2 * k + 1] == HexDigit(r[k] % 16);
      assert Hex(s)[2 * k] == HexDigit(s[k] / 16) && Hex(s)[2 * k + 1] == HexDigit(s[k] % 16);
      ByteFromDigits(r[k], s[k]);
    }
  }

  /** The hex part ends at the first tab, so it determines the record and where its line ends. */
  lemma LineDetermines(r: Bytes, s: Bytes, x: Bytes, y: Bytes)
    requires Line(r) + [LF] + x == Line(s) + [LF] + y
    ensures r == s && x == y
  {
    var u, v := Shown(r) + [LF] + x, Shown(s) + [LF] + y;
    assert Line(r) + [LF] + x == Hex(r) + [TAB] + u && Line(s) + [LF] + y == Hex(s) + [TAB] + v;
    FirstSeparator(Hex(r), Hex(s), TAB, u, v);
    HexDetermines(r, s);
    assert x == u[|r| + 1..] && y == v[|s| + 1..];
  }

  /** Equal texts mean equal records, in the same order. */
  lemma {:induction false} CanonicalInjective(r: seq<Bytes>, s: seq<Bytes>)
    requires Canonical(r) == Canonical(s)
    ensures r == s
  {
    if r != [] && s != [] {
      LineDetermines(r[0], s[0], Canonical(r[1..]), Canonical(s[1..]));
      CanonicalInjective(r[1..], s[1..]);
      assert r == [r[0]] + r[1..] && s == [s[0]] + s[1..];
    }
  }

  lemma {:induction false} KeptLinesOfCanonical(records: seq<Bytes>)
    ensures KeptLines(Canonical(records)) == seq(|records|, i requires 0 <= i < |records| => Line(records[i]) + [LF])
  {
    if records != [] {
      KeptLinesOfCanonical(records[1..]);
      LineIsOneLine(records[0]);
      SplitFirst(Line(records[0]), Canonical(records[1..]));
      var kept := KeptLines(Canonical(records));
      assert kept == [Line(records[0]) + [LF]] + KeptLines(Canonical(records[1..]));
    }
  }

  /** `CanonicalRelative` is one line per slot: the number, a tab and the record's line. */
  lemma RelativeStep(slots: seq<Slot>)
    requires slots != []
    ensures CanonicalRelative(slots)
         == Decimal(slots[0].0) + [TAB] + (Line(slots[0].1) + [LF] + CanonicalRelative(slots[1..]))
  {
    KeptLinesOfCanonical(RecordsOf(slots));
    KeptLinesOfCanonical(RecordsOf(slots[1..]));
    var kept := KeptLines(Canonical(RecordsOf(slots)));
    assert kept[1..] == KeptLines(Canonical(RecordsOf(slots[1..])));
  }

  /** Equal texts mean equal slot numbers and equal records. */
  lemma {:induction false} CanonicalRelativeInjective(r: seq<Slot>, s: seq<Slot>)
    requires CanonicalRelative(r) == CanonicalRelative(s)
    ensures r == s
  {
    if r != [] { RelativeStep(r); }
    if s != [] { RelativeStep(s); }
    if r != [] && s != [] {
      var x, y := Line(r[0].1) + [LF] + CanonicalRelative(r[1..]), Line(s[0].1) + [LF] + CanonicalRelative(s[1..]);
      FirstSeparator(Decimal(r[0].0), Decimal(s[0].0), TAB, x, y);
      LineDetermines(r[0].1, s[0].1, CanonicalRelative(r[1..]), CanonicalRelative(s[1..]));
      CanonicalRelativeInjective(r[1..], s[1..]);
      assert r == [r[0]] + r[1..] && s == [s[0]] + s[1..];
    }
  }
}
