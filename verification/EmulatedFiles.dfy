/** The generated runtime's emulation files, `<file>.idx` and `<file>.rel`, as read by
    `emulated_index_records` and `emulated_relative_records` (engine/comparators/indexed_records.py). */
module EmulatedFiles {
  import opened Bytes
  import opened Numerals
  import opened Options
  import opened BtreeImage
  import opened CanonicalRecords

  const SEPARATOR: Byte := 1

  // ---- what the files look like ----

  datatype Entry = Entry(key: Bytes, data: Bytes) {
    function Text(): Bytes { key + [SEPARATOR] + data }

    function Record(): Bytes { key + data }
  }

  function EntryLines(entries: seq<Entry>): seq<Bytes> {
    seq(|entries|, i requires 0 <= i < |entries| => entries[i].Text())
  }

  function Records(entries: seq<Entry>): seq<Bytes> {
    seq(|entries|, i requires 0 <= i < |entries| => entries[i].Record())
  }

  /** Content that is empty or ends with a line feed. */
  predicate Terminated(b: Bytes) { b == [] || b[|b| - 1] == LF }

  /** An index entry: a key of the declared number of characters, then the data. */
  predicate IndexEntry(e: Entry, keyLength: nat) {
    SEPARATOR !in e.key && LineFree(e.Text()) && |Decode(e.key)| == keyLength
  }

  /** `<file>.idx`: `K<key length>`, then one line per entry. */
  ghost predicate IndexFile(image: Bytes, digits: Bytes, keyLength: nat, entries: seq<Entry>) {
    && IsUtf8(image) && LineFree(digits) && ReadNumeral(digits) == Value(keyLength)
    && image == JoinLines([[75] + digits] + EntryLines(entries))
    && forall i :: 0 <= i < |entries| ==> IndexEntry(entries[i], keyLength)
  }

  ghost predicate IndexHolds(image: Bytes, records: seq<Bytes>) {
    exists digits, keyLength, entries :: IndexFile(image, digits, keyLength, entries) && records == Records(entries)
  }

  /** The first line is `K` and digits that `int` refuses. */
  ghost predicate IndexRefused(image: Bytes) {
    exists digits, rest :: RefusedStart(image, digits, rest)
  }

  ghost predicate RefusedStart(image: Bytes, digits: Bytes, rest: Bytes) {
    && LineFree(digits) && ReadNumeral(digits) == Refused
    && (image == [75] + digits || image == [75] + digits + [LF] + rest)
  }

  /** What ends `emulated_index_records` in another exception than `UnreadableImage`. */
  ghost predicate IndexRaises(image: Bytes) { !IsUtf8(image) || IndexRefused(image) }

  /** A relative entry: its number, then the record. */
  predicate RelativeEntry(e: Entry) { LineFree(e.Text()) && SEPARATOR !in e.key && Number(e) >= 1 }

  function Number(e: Entry): nat {
    match ReadNumeral(e.key) case Value(n) => n case _ => 0
  }

  function Slots(entries: seq<Entry>): seq<Slot> {
    seq(|entries|, i requires 0 <= i < |entries| => (Number(entries[i]), entries[i].data))
  }

  predicate Ascending(entries: seq<Entry>) {
    && (forall i :: 0 <= i < |entries| ==> RelativeEntry(entries[i]))
    && forall i :: 0 < i < |entries| ==> Number(entries[i - 1]) < Number(entries[i])
  }

  /** `<file>.rel`: `R`, then one line per record in increasing number. */
  ghost predicate RelativeFile(image: Bytes, entries: seq<Entry>) {
    IsUtf8(image) && image == JoinLines([[82]] + EntryLines(entries)) && Ascending(entries)
  }

  ghost predicate RelativeHolds(image: Bytes, slots: seq<Slot>) {
    exists entries :: RelativeFile(image, entries) && slots == Slots(entries)
  }

  /** A line whose number is digits that `int` refuses. */
  predicate RefusedEntry(e: Entry) {
    LineFree(e.Text()) && SEPARATOR !in e.key && ReadNumeral(e.key) == Refused
  }

  /** After the header and the entries of a relative file comes a refused one; the rest is terminated. */
  ghost predicate RefusedAfter(image: Bytes, entries: seq<Entry>, e: Entry, rest: Bytes) {
    && Ascending(entries) && RefusedEntry(e) && Terminated(rest)
    && image == JoinLines([[82]] + EntryLines(entries) + [e.Text()]) + rest
  }

  ghost predicate RelativeRefused(image: Bytes) { exists entries, e, rest :: RefusedAfter(image, entries, e, rest) }

  /** What ends `emulated_relative_records` in another exception than `UnreadableImage`. */
  ghost predicate RelativeRaises(image: Bytes) { !IsUtf8(image) || RelativeRefused(image) }

  // ---- parsing a line ----

  /** `line.partition("\x01")`, or nothing when there is no separator. */
  function Partition(line: Bytes): Option<Entry> {
    if line == [] then None
    else if line[0] == SEPARATOR then Some(Entry([], line[1..]))
    else
      match Partition(line[1..])
      case Some(e) => Some(Entry([line[0]] + e.key, e.data))
      case None => None
  }

  lemma {:induction false} PartitionSound(line: Bytes)
    ensures Partition(line).Some? ==> Partition(line).value.Text() == line && SEPARATOR !in Partition(line).value.key
  {
    if line != [] {
      PartitionSound(line[1..]);
      assert line == [line[0]] + line[1..];
    }
  }

  lemma {:induction false} PartitionComplete(e: Entry)
    requires SEPARATOR !in e.key
    ensures Partition(e.Text()) == Some(e)
    decreases |e.key|
  {
    if e.key == [] {
      assert e.Text()[1..] == e.data;
    } else {
      var rest := Entry(e.key[1..], e.data);
      PartitionComplete(rest);
      assert e.Text()[1..] == rest.Text() && e.key == [e.key[0]] + rest.key;
    }
  }

  /** The lines of a file with a header and terminated entries. */
  lemma FileLines(header: Bytes, entries: seq<Entry>)
    requires LineFree(header) && forall i :: 0 <= i < |entries| ==> LineFree(entries[i].Text())
    ensures Lines(JoinLines([header] + EntryLines(entries))) == [header] + EntryLines(entries) + [[]]
  {
    SplitJoined([header] + EntryLines(entries));
  }

  lemma IndexFileLines(image: Bytes, digits: Bytes, keyLength: nat, entries: seq<Entry>)
    requires IndexFile(image, digits, keyLength, entries)
    ensures Lines(image) == [[75] + digits] + EntryLines(entries) + [[]]
    ensures forall i :: 0 <= i < |entries| ==> Partition(Lines(image)[i + 1]) == Some(entries[i])
  {
    hide Decode, ReadNumeral;
    FileLines([75] + digits, entries);
    forall i | 0 <= i < |entries|
      ensures Partition(entries[i].Text()) == Some(entries[i])
    {
      PartitionComplete(entries[i]);
    }
  }

  lemma RelativeFileLines(image: Bytes, entries: seq<Entry>)
    requires RelativeFile(image, entries)
    ensures Lines(image) == [[82]] + EntryLines(entries) + [[]]
    ensures forall i :: 0 <= i < |entries| ==> Partition(Lines(image)[i + 1]) == Some(entries[i])
  {
    hide ReadNumeral;
    FileLines([82], entries);
    forall i | 0 <= i < |entries|
      ensures Partition(entries[i].Text()) == Some(entries[i])
    {
      PartitionComplete(entries[i]);
    }
  }

  // ---- the readers ----

  /** Whether a line is an index entry. */
  predicate IndexLine(line: Bytes, keyLength: nat) {
    Partition(line).Some? && |Decode(Partition(line).value.key)| == keyLength
  }

  /** The checks of the index reader, all at once. */
  predicate IndexText(image: Bytes) {
    var lines := Lines(image);
    && lines[0] != [] && lines[0][0] == 75 && ReadNumeral(lines[0][1..]).Value?
    && |lines| >= 2 && lines[|lines| - 1] == []
    && forall i :: 1 <= i < |lines| - 1 ==> IndexLine(lines[i], ReadNumeral(lines[0][1..]).n)
  }

  lemma IndexFilePasses(image: Bytes, digits: Bytes, keyLength: nat, entries: seq<Entry>)
    requires IndexFile(image, digits, keyLength, entries)
    ensures IndexText(image)
  {
    IndexFileLines(image, digits, keyLength, entries);
    hide Partition, Lines, JoinLines, Decode, ReadNumeral, IsUtf8;
    var lines := Lines(image);
    assert lines[0][1..] == digits;
    forall i | 1 <= i < |lines| - 1 ensures IndexLine(lines[i], keyLength) {
      assert Partition(lines[(i - 1) + 1]) == Some(entries[i - 1]);
    }
  }

  lemma IndexRecordsUnique(image: Bytes, r: seq<Bytes>, s: seq<Bytes>)
    requires IndexHolds(image, r) && IndexHolds(image, s)
    ensures r == s
  {
    hide Partition, Lines, Decode, ReadNumeral;
    var d, m, es :| IndexFile(image, d, m, es) && r == Records(es);
    var f, n, fs :| IndexFile(image, f, n, fs) && s == Records(fs);
    IndexFileLines(image, d, m, es);
    IndexFileLines(image, f, n, fs);
    hide IndexFile;
    forall i | 0 <= i < |es|
      ensures es[i] == fs[i]
    {
      assert Some(es[i]) == Partition(Lines(image)[i + 1]) == Some(fs[i]);
    }
  }

  lemma {:induction false} OneLine(b: Bytes)
    requires LineFree(b)
    ensures Lines(b) == [b]
  {
    if b != [] {
      OneLine(b[1..]);
      assert b == [b[0]] + b[1..];
    }
  }

  /** A file and its first line. */
  lemma FirstLine(image: Bytes)
    ensures LineFree(Lines(image)[0])
    ensures image == Lines(image)[0] || exists rest :: image == Lines(image)[0] + [LF] + rest
  {
    JoinSplit(image);
    var lines := Lines(image);
    hide Lines;
    if |lines| == 1 {
      assert lines[..0] == [];
    } else {
      assert lines[..|lines| - 1][1..] == lines[1..|lines| - 1];
      assert image == lines[0] + [LF] + (JoinLines(lines[1..|lines| - 1]) + lines[|lines| - 1]);
    }
  }

  /** The refusal is seen in the first line. */
  lemma RefusedHeader(image: Bytes)
    ensures IndexRefused(image) <==>
      var line := Lines(image)[0]; line != [] && line[0] == 75 && ReadNumeral(line[1..]) == Refused
  {
    hide ReadNumeral, Lines;
    var line := Lines(image)[0];
    if digits, rest :| RefusedStart(image, digits, rest) {
      assert LineFree([75] + digits);
      if image == [75] + digits { OneLine(image); } else { SplitFirst([75] + digits, rest); }
      assert line[1..] == digits;
    }
    FirstLine(image);
    if line != [] && line[0] == 75 && ReadNumeral(line[1..]) == Refused {
      assert line == [75] + line[1..];
      if image == line {
        assert RefusedStart(image, line[1..], []);
      } else {
        var rest :| image == line + [LF] + rest;
        assert RefusedStart(image, line[1..], rest);
      }
    }
  }

  /** `emulated_index_records`: exactly the files of the emulation are read, to exactly their
      records; what raises is not UTF-8 or has a key length that `int` refuses. */
  method EmulatedIndexRecords(image: Bytes) returns (r: Outcome<seq<Bytes>>)
    ensures forall records :: r == Ok(records) <==> IndexHolds(image, records)
    ensures r == Raised <==> IndexRaises(image)
    ensures r == Unreadable <==> !IndexRaises(image) && !exists records :: IndexHolds(image, records)
  {
    hide JoinLines, Lines, Partition, IsUtf8, Decode, ReadNumeral, IndexFile, IndexRefused;
    RefusedHeader(image);
    forall digits, length, entries | IndexFile(image, digits, length, entries)
      ensures IsUtf8(image) && IndexText(image)
    {
      FileIsUtf8(image, digits, length, entries);
      IndexFilePasses(image, digits, length, entries);
    }
    if !IsUtf8(image) {
      return Raised;
    }
    var lines := Lines(image);
    if lines[0] == [] || lines[0][0] != 75 || ReadNumeral(lines[0][1..]).NotDigits? {
      return Unreadable;
    }
    var numeral := ReadNumeral(lines[0][1..]);
    if numeral.Refused? {
      return Raised;
    }
    var keyLength := numeral.n;
    if lines[|lines| - 1] != [] {
      return Unreadable;
    }
    var records: seq<Bytes> := [];
    ghost var entries: seq<Entry> := [];
    for i := 1 to |lines| - 1
      invariant |entries| == i - 1 && records == Records(entries)
      invariant EntryLines(entries) == lines[1..i]
      invariant forall k :: 0 <= k < |entries| ==>
        SEPARATOR !in entries[k].key && |Decode(entries[k].key)| == keyLength
    {
      PartitionSound(lines[i]);
      var parsed := Partition(lines[i]);
      if parsed.None? || |Decode(parsed.value.key)| != keyLength {
        assert !IndexLine(lines[i], keyLength);
        return Unreadable;
      }
      records := records + [parsed.value.Record()];
      entries := entries + [parsed.value];
      assert EntryLines(entries) == lines[1..i] + [lines[i]] == lines[1..i + 1];
    }
    IndexTextIsFile(image, lines[0][1..], keyLength, entries);
    forall other | IndexHolds(image, other) ensures other == records { IndexRecordsUnique(image, other, records); }
    return Ok(records);
  }

  lemma FileIsUtf8(image: Bytes, digits: Bytes, keyLength: nat, entries: seq<Entry>)
    requires IndexFile(image, digits, keyLength, entries)
    ensures IsUtf8(image)
  {
  }

  lemma IndexTextIsFile(image: Bytes, digits: Bytes, keyLength: nat, entries: seq<Entry>)
    requires var lines := Lines(image);
      |lines| >= 2 && lines[0] == [75] + digits && lines[|lines| - 1] == []
      && EntryLines(entries) == lines[1..|lines| - 1]
    requires IsUtf8(image) && ReadNumeral(digits) == Value(keyLength)
    requires forall k :: 0 <= k < |entries| ==>
      SEPARATOR !in entries[k].key && |Decode(entries[k].key)| == keyLength
    ensures IndexFile(image, digits, keyLength, entries)
  {
    JoinSplit(image);
    hide Lines, JoinLines, IsUtf8, Decode, ReadNumeral;
    var lines := Lines(image);
    assert lines[..|lines| - 1] == [[75] + digits] + EntryLines(entries);
    assert LineFree(lines[0]);
    forall k | 0 <= k < |entries|
      ensures LineFree(entries[k].Text())
    {
      assert EntryLines(entries)[k] == lines[1..|lines| - 1][k] == lines[k + 1];
    }
  }

  // ---- the relative reader ----

  /** The lines of a relative file up to the `n`-th are entries in increasing number. */
  predicate AscendingLines(lines: seq<Bytes>, n: nat)
    requires n <= |lines|
  {
    && (forall i :: 1 <= i < n ==> LineNumber(lines[i]) >= 1)
    && forall i :: 1 < i < n ==> LineNumber(lines[i - 1]) < LineNumber(lines[i])
  }

  function LineNumber(line: Bytes): nat {
    match Partition(line) case Some(e) => Number(e) case None => 0
  }

  predicate RefusedLine(line: Bytes) { Partition(line).Some? && ReadNumeral(Partition(line).value.key) == Refused }

  predicate RelativeHeader(lines: seq<Bytes>) { |lines| >= 2 && lines[0] == [82] && lines[|lines| - 1] == [] }

  /** The `n`-th line is the first that is no entry in order, and its number is refused. */
  predicate RefusedAt(lines: seq<Bytes>, n: nat) {
    RelativeHeader(lines) && 1 <= n < |lines| - 1 && AscendingLines(lines, n) && RefusedLine(lines[n])
  }

  lemma LinesAscend(lines: seq<Bytes>, entries: seq<Entry>)
    requires |entries| < |lines| && Ascending(entries)
    requires forall i :: 0 <= i < |entries| ==> lines[i + 1] == entries[i].Text()
    ensures AscendingLines(lines, |entries| + 1)
    ensures forall i :: 1 <= i < |entries| + 1 ==> LineNumber(lines[i]) == Number(entries[i - 1])
  {
    hide Partition, ReadNumeral;
    forall i | 1 <= i < |entries| + 1 ensures LineNumber(lines[i]) == Number(entries[i - 1]) {
      PartitionComplete(entries[i - 1]);
      assert lines[(i - 1) + 1] == entries[i - 1].Text();
    }
  }

  lemma RelativeFilePasses(image: Bytes, entries: seq<Entry>)
    requires RelativeFile(image, entries)
    ensures var lines := Lines(image); RelativeHeader(lines) && AscendingLines(lines, |lines| - 1)
  {
    RelativeFileLines(image, entries);
    hide Lines, JoinLines, IsUtf8, Ascending;
    LinesAscend(Lines(image), entries);
  }

  lemma {:induction false} JoinThen(lines: seq<Bytes>, rest: Bytes)
    requires forall i :: 0 <= i < |lines| ==> LineFree(lines[i])
    ensures Lines(JoinLines(lines) + rest) == lines + Lines(rest)
  {
    if lines != [] {
      JoinThen(lines[1..], rest);
      SplitFirst(lines[0], JoinLines(lines[1..]) + rest);
      assert JoinLines(lines) + rest == lines[0] + [LF] + (JoinLines(lines[1..]) + rest);
      assert lines == [lines[0]] + lines[1..];
    } else {
      assert JoinLines(lines) + rest == rest;
    }
  }

  lemma {:induction false} LastLine(b: Bytes)
    ensures Terminated(b) <==> Lines(b)[|Lines(b)| - 1] == []
  {
    if b != [] { LastLine(b[1..]); }
  }

  lemma RefusedFileLines(image: Bytes, entries: seq<Entry>, e: Entry, rest: Bytes)
    requires RefusedAfter(image, entries, e, rest)
    ensures RefusedAt(Lines(image), |entries| + 1)
  {
    hide Lines, ReadNumeral, Partition;
    var top := [[82]] + EntryLines(entries) + [e.Text()];
    forall i | 0 <= i < |top| ensures LineFree(top[i]) {
      if 1 <= i <= |entries| { assert top[i] == entries[i - 1].Text() && RelativeEntry(entries[i - 1]); }
    }
    JoinThen(top, rest);
    LastLine(rest);
    PartitionComplete(e);
    var lines := Lines(image);
    assert lines[|lines| - 1] == Lines(rest)[|Lines(rest)| - 1];
    forall i | 0 <= i < |entries| ensures lines[i + 1] == entries[i].Text() { assert lines[i + 1] == top[i + 1]; }
    LinesAscend(lines, entries);
  }

  lemma RefusedIsSeen(image: Bytes)
    ensures RelativeRefused(image) ==> exists n: nat :: RefusedAt(Lines(image), n)
  {
    hide RefusedAfter, RefusedAt;
    if entries, e, rest :| RefusedAfter(image, entries, e, rest) { RefusedFileLines(image, entries, e, rest); }
  }

  lemma RelativeSlotsUnique(image: Bytes, r: seq<Slot>, s: seq<Slot>)
    requires RelativeHolds(image, r) && RelativeHolds(image, s)
    ensures r == s
  {
    var es :| RelativeFile(image, es) && r == Slots(es);
    var fs :| RelativeFile(image, fs) && s == Slots(fs);
    RelativeFileLines(image, es);
    RelativeFileLines(image, fs);
    hide RelativeFile, Partition, Lines, ReadNumeral;
    forall i | 0 <= i < |es|
      ensures es[i] == fs[i]
    {
      assert Some(es[i]) == Partition(Lines(image)[i + 1]) == Some(fs[i]);
    }
  }

  /** What the reader knows of the entries it has read. */
  predicate Listed(lines: seq<Bytes>, entries: seq<Entry>, i: nat) {
    && 1 <= i <= |lines| && |entries| == i - 1 && EntryLines(entries) == lines[1..i]
    && (forall k :: 0 <= k < |entries| ==> SEPARATOR !in entries[k].key && Number(entries[k]) >= 1)
    && forall k :: 0 < k < |entries| ==> Number(entries[k - 1]) < Number(entries[k])
  }

  lemma ListedAscend(image: Bytes, entries: seq<Entry>, i: nat)
    requires Listed(Lines(image), entries, i)
    ensures Ascending(entries) && AscendingLines(Lines(image), i)
    ensures i > 1 ==> LineNumber(Lines(image)[i - 1]) == Number(entries[i - 2])
  {
    JoinSplit(image);
    hide Lines, JoinLines, Partition, ReadNumeral;
    var lines := Lines(image);
    forall k | 0 <= k < |entries|
      ensures lines[k + 1] == entries[k].Text() && LineFree(entries[k].Text())
    {
      assert EntryLines(entries)[k] == lines[1..i][k] == lines[k + 1];
    }
    LinesAscend(lines, entries);
  }

  lemma ListedIsFile(image: Bytes, entries: seq<Entry>)
    requires IsUtf8(image) && RelativeHeader(Lines(image)) && Listed(Lines(image), entries, |Lines(image)| - 1)
    ensures RelativeFile(image, entries)
  {
    JoinSplit(image);
    ListedAscend(image, entries, |Lines(image)| - 1);
    hide Lines, JoinLines, IsUtf8, Ascending, EntryLines, Number;
    var lines := Lines(image);
    assert lines[..|lines| - 1] == [lines[0]] + lines[1..|lines| - 1];
  }

  lemma {:induction false} JoinAppend(xs: seq<Bytes>, ys: seq<Bytes>)
    ensures JoinLines(xs + ys) == JoinLines(xs) + JoinLines(ys)
    ensures Terminated(JoinLines(ys))
  {
    if xs != [] {
      JoinAppend(xs[1..], ys);
      assert (xs + ys)[1..] == xs[1..] + ys;
    } else {
      assert xs + ys == ys;
      if ys != [] { JoinAppend([], ys[1..]); }
    }
  }

  /** A file is cut behind any of its lines. */
  lemma CutBehind(image: Bytes, i: nat)
    requires i < |Lines(image)| - 1 && Lines(image)[|Lines(image)| - 1] == []
    ensures exists rest :: Terminated(rest) && image == JoinLines(Lines(image)[..i + 1]) + rest
  {
    JoinSplit(image);
    hide Lines, JoinLines;
    var lines := Lines(image);
    var below := lines[i + 1..|lines| - 1];
    assert lines[..|lines| - 1] == lines[..i + 1] + below;
    JoinAppend(lines[..i + 1], below);
    assert image == JoinLines(lines[..i + 1]) + JoinLines(below);
  }

  lemma TopLines(lines: seq<Bytes>, entries: seq<Entry>, i: nat)
    requires RelativeHeader(lines) && i < |lines| && Listed(lines, entries, i)
    ensures lines[..i + 1] == [[82]] + EntryLines(entries) + [lines[i]]
  {
    hide EntryLines, Number;
    assert lines[..i + 1] == [lines[0]] + lines[1..i] + [lines[i]];
  }

  lemma RefusedLineEntry(lines: seq<Bytes>, i: nat) returns (e: Entry)
    requires i < |lines| && RefusedLine(lines[i]) && LineFree(lines[i])
    ensures RefusedEntry(e) && e.Text() == lines[i]
  {
    hide Partition, ReadNumeral;
    PartitionSound(lines[i]);
    e := Partition(lines[i]).value;
  }

  lemma ListedIsRefused(image: Bytes, entries: seq<Entry>, i: nat)
    requires RelativeHeader(Lines(image)) && i < |Lines(image)| - 1 && Listed(Lines(image), entries, i)
    requires RefusedLine(Lines(image)[i])
    ensures RelativeRefused(image)
  {
    var lines := Lines(image);
    JoinSplit(image);
    ListedAscend(image, entries, i);
    CutBehind(image, i);
    TopLines(lines, entries, i);
    hide Lines, JoinLines, Ascending, Terminated, EntryLines, RefusedEntry, Entry.Text, Listed, RefusedLine;
    var e := RefusedLineEntry(lines, i);
    var rest :| Terminated(rest) && image == JoinLines(lines[..i + 1]) + rest;
    assert RefusedAfter(image, entries, e, rest);
  }

  lemma RelativeIsUtf8(image: Bytes, entries: seq<Entry>)
    requires RelativeFile(image, entries)
    ensures IsUtf8(image)
  {
  }

  /** A reader that cannot go on, and not for a refused numeral, has met no file and no refusal. */
  lemma Stuck(image: Bytes, i: nat)
    requires var lines := Lines(image);
      RelativeHeader(lines) ==>
        1 <= i < |lines| - 1 && AscendingLines(lines, i) && !AscendingLines(lines, i + 1) && !RefusedLine(lines[i])
    ensures !RelativeRefused(image) && forall slots :: !RelativeHolds(image, slots)
  {
    hide Lines, ReadNumeral, Partition, RelativeFile, RelativeRefused;
    forall entries | RelativeFile(image, entries) ensures false { RelativeFilePasses(image, entries); }
    RefusedIsSeen(image);
  }

  /** A reader that gets to the end has met no refusal, and has read a file to its slots. */
  lemma ReadToEnd(image: Bytes, entries: seq<Entry>)
    requires IsUtf8(image) && RelativeHeader(Lines(image)) && Listed(Lines(image), entries, |Lines(image)| - 1)
    ensures !RelativeRefused(image)
    ensures forall slots :: RelativeHolds(image, slots) <==> slots == Slots(entries)
  {
    ListedIsFile(image, entries);
    ListedAscend(image, entries, |Lines(image)| - 1);
    RefusedIsSeen(image);
    hide Lines, ReadNumeral, Partition, RelativeFile, RelativeRefused, Listed, IsUtf8;
    forall other | RelativeHolds(image, other) ensures other == Slots(entries) {
      RelativeSlotsUnique(image, other, Slots(entries));
    }
  }

  lemma ListedNext(lines: seq<Bytes>, entries: seq<Entry>, i: nat)
    requires Listed(lines, entries, i) && i < |lines|
    requires Partition(lines[i]).Some? && LineNumber(lines[i]) >= 1
    requires entries != [] ==> Number(entries[|entries| - 1]) < LineNumber(lines[i])
    ensures Listed(lines, entries + [Partition(lines[i]).value], i + 1)
  {
    PartitionSound(lines[i]);
    hide Partition, ReadNumeral;
    assert EntryLines(entries + [Partition(lines[i]).value]) == lines[1..i] + [lines[i]] == lines[1..i + 1];
  }

  /** `emulated_relative_records`: exactly the files of the emulation are read, to exactly their
      slots, and their numbers increase; what raises is not UTF-8, or has a number that `int` refuses
      behind entries in order. */
  method EmulatedRelativeRecords(image: Bytes) returns (r: Outcome<seq<Slot>>)
    ensures forall slots :: r == Ok(slots) <==> RelativeHolds(image, slots)
    ensures r == Raised <==> RelativeRaises(image)
    ensures r == Unreadable <==> !RelativeRaises(image) && !exists slots :: RelativeHolds(image, slots)
    ensures r.Ok? ==> forall i :: 0 < i < |r.value| ==> r.value[i - 1].0 < r.value[i].0
  {
    hide Lines, Partition, IsUtf8, RelativeFile, RelativeRefused, ReadNumeral, Listed;
    if !IsUtf8(image) {
      forall entries | RelativeFile(image, entries) ensures false { RelativeIsUtf8(image, entries); }
      return Raised;
    }
    var lines := Lines(image);
    if lines[0] != [82] || lines[|lines| - 1] != [] {
      Stuck(image, 0);
      return Unreadable;
    }
    var slots: seq<Slot> := [];
    ghost var entries: seq<Entry> := [];
    NothingListed(lines);
    for i := 1 to |lines| - 1
      invariant Listed(lines, entries, i) && slots == Slots(entries) && |entries| == i - 1
      invariant forall k :: 0 < k < |slots| ==> slots[k - 1].0 < slots[k].0
    {
      ListedAscend(image, entries, i);
      var parsed := Partition(lines[i]);
      if parsed.None? || ReadNumeral(parsed.value.key).NotDigits? {
        Stuck(image, i);
        return Unreadable;
      }
      var numeral := ReadNumeral(parsed.value.key);
      if numeral.Refused? {
        ListedIsRefused(image, entries, i);
        RefusedHoldsNothing(image, i);
        return Raised;
      }
      if numeral.n < 1 || (slots != [] && numeral.n <= slots[|slots| - 1].0) {
        Stuck(image, i);
        return Unreadable;
      }
      ListedNext(lines, entries, i);
      slots := slots + [(numeral.n, parsed.value.data)];
      entries := entries + [parsed.value];
    }
    ReadToEnd(image, entries);
    return Ok(slots);
  }

  lemma NothingListed(lines: seq<Bytes>)
    requires lines != []
    ensures Listed(lines, [], 1)
  {
  }

  lemma RefusedHoldsNothing(image: Bytes, i: nat)
    requires RelativeHeader(Lines(image)) && 1 <= i < |Lines(image)| - 1 && RefusedLine(Lines(image)[i])
    ensures forall slots :: !RelativeHolds(image, slots)
  {
    hide Lines, ReadNumeral, Partition, RelativeFile;
    forall entries | RelativeFile(image, entries) ensures false { RelativeFilePasses(image, entries); }
  }

  // ---- records and lines ----

  /** The first separator of a line. */
  predicate SeparatedAt(line: Bytes, i: int) {
    0 <= i < |line| && line[i] == 1 && forall j :: 0 <= j < i ==> line[j] != 1
  }

  /** The record of a line is the line without its first separator. */
  predicate RecordOf(line: Bytes, i: int, record: Bytes) { SeparatedAt(line, i) && record == line[..i] + line[i + 1..] }

  /** The slot of a line is the number before and the record after its first separator. */
  predicate SlotOf(line: Bytes, i: int, slot: Slot) {
    SeparatedAt(line, i) && ReadNumeral(line[..i]) == Value(slot.0) && slot.1 == line[i + 1..]
  }

  ghost predicate HasRecord(line: Bytes, record: Bytes) { exists i :: RecordOf(line, i, record) }

  ghost predicate HasSlot(line: Bytes, slot: Slot) { exists i :: SlotOf(line, i, slot) }

  lemma SeparatedEntry(e: Entry)
    requires SEPARATOR !in e.key
    ensures RecordOf(e.Text(), |e.key|, e.Record())
    ensures ReadNumeral(e.key).Value? ==> SlotOf(e.Text(), |e.key|, (Number(e), e.data))
  {
    hide ReadNumeral;
    var line := e.Text();
    assert line[..|e.key|] == e.key && line[|e.key| + 1..] == e.data;
  }

  /** An index file holds the records of its lines. */
  lemma RecordsAreLines(image: Bytes, records: seq<Bytes>)
    requires IndexHolds(image, records)
    ensures |Lines(image)| == |records| + 2
    ensures forall k :: 0 <= k < |records| ==> HasRecord(Lines(image)[k + 1], records[k])
  {
    hide Lines, Decode, ReadNumeral, JoinLines, IsUtf8, Partition, RecordOf;
    var digits, length, entries: seq<Entry> :| IndexFile(image, digits, length, entries) && records == Records(entries);
    IndexFileLines(image, digits, length, entries);
    forall k | 0 <= k < |records| ensures HasRecord(Lines(image)[k + 1], records[k]) {
      SeparatedEntry(entries[k]);
      assert Lines(image)[k + 1] == entries[k].Text();
    }
  }

  /** A relative file holds the slots of its lines. */
  lemma SlotsAreLines(image: Bytes, slots: seq<Slot>)
    requires RelativeHolds(image, slots)
    ensures |Lines(image)| == |slots| + 2
    ensures forall k :: 0 <= k < |slots| ==> HasSlot(Lines(image)[k + 1], slots[k])
  {
    hide Lines, ReadNumeral, JoinLines, IsUtf8, Partition, SlotOf;
    var entries: seq<Entry> :| RelativeFile(image, entries) && slots == Slots(entries);
    RelativeFileLines(image, entries);
    forall k | 0 <= k < |slots| ensures HasSlot(Lines(image)[k + 1], slots[k]) {
      assert RelativeEntry(entries[k]);
      SeparatedEntry(entries[k]);
      assert Lines(image)[k + 1] == entries[k].Text();
    }
  }

  // ---- UTF-8 files that raise ----

  /** `K` and a superscript two. */
  const SUPERSCRIPT_INDEX: Bytes := [75, 0xC2, 0xB2, LF]

  /** `R`, then a record numbered by a superscript two. */
  const SUPERSCRIPT_RELATIVE: Bytes := [82, LF, 0xC2, 0xB2, SEPARATOR, LF]

  /** `K` and `n` ones. */
  function LongIndex(n: nat): Bytes { [75] + seq(n, _ => 49) + [LF] }

  lemma SuperscriptRaises()
    ensures IsUtf8(SUPERSCRIPT_INDEX) && IndexRaises(SUPERSCRIPT_INDEX)
    ensures IsUtf8(SUPERSCRIPT_RELATIVE) && RelativeRaises(SUPERSCRIPT_RELATIVE)
  {
    hide ReadNumeral, RefusedAfter;
    SuperscriptRefused();
    SuperscriptIsRefused([0xC2, 0xB2]);
    SuperscriptsAreUtf8();
    assert RefusedStart(SUPERSCRIPT_INDEX, [0xC2, 0xB2], []);
  }

  lemma SuperscriptsAreUtf8()
    ensures IsUtf8(SUPERSCRIPT_INDEX) && IsUtf8(SUPERSCRIPT_RELATIVE)
  {
    var a, b: Bytes := [0xC2, 0xB2, LF], [0xC2, 0xB2, SEPARATOR, LF];
    var c: Bytes := [LF] + b;
    assert [LF][1..] == [] && [SEPARATOR, LF][1..] == [LF] && IsUtf8([LF]) && IsUtf8([SEPARATOR, LF]);
    assert a[2..] == [LF] && b[2..] == [SEPARATOR, LF] && IsUtf8(a) && IsUtf8(b);
    assert SUPERSCRIPT_INDEX[1..] == a && SUPERSCRIPT_RELATIVE[1..] == c && c[1..] == b && IsUtf8(c);
  }

  lemma SuperscriptIsRefused(digits: Bytes)
    requires digits == [0xC2, 0xB2] && ReadNumeral(digits) == Refused
    ensures RefusedAfter(SUPERSCRIPT_RELATIVE, [], Entry(digits, []), [])
  {
    hide ReadNumeral;
    var line: Bytes, none: seq<Bytes> := Entry(digits, []).Text(), [];
    var top: seq<Bytes> := [[82]] + EntryLines([]) + [line];
    assert [line][1..] == none && top[1..] == [line];
    assert JoinLines([line]) == line + [LF] && JoinLines(top) == [82, LF] + JoinLines([line]);
    assert SUPERSCRIPT_RELATIVE == JoinLines(top) + [];
  }

  /** Numerals of plain ASCII digits raise exactly when they have more digits than `int` takes. */
  lemma LongNumeralRaises(n: nat)
    ensures IsUtf8(LongIndex(n))
    ensures IndexRaises(LongIndex(n)) <==> n > MAX_DIGITS
  {
    hide ReadNumeral, Lines, IndexRefused;
    var digits: Bytes := seq(n, _ => 49);
    AsciiDecodes(LongIndex(n));
    AsciiNumeral(digits);
    assert LineFree([75] + digits) && LongIndex(n) == [75] + digits + [LF] + [];
    SplitFirst([75] + digits, []);
    RefusedHeader(LongIndex(n));
    assert ([75] + digits)[1..] == digits;
    assert n > 0 ==> digits[0] == 49;
  }
}
