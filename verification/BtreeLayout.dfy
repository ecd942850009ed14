/** How Berkeley DB lays a B-tree out in pages, from its own description: metadata page, page header,
    offset table, and items packed from the end of the page.  A file laid out like this is read back
    (engine/comparators/indexed_records.py). */
module BtreeLayout {
  import opened Bytes
  import opened BtreeImage

  // ---- a database ----

  /** The fields of a page header no reader looks at: log sequence number, the pages before and after,
      the free space offset, and the level. */
  datatype Frame = Frame(lsn: Bytes, siblings: Bytes, free: Bytes, level: Byte)

  /** An item of a leaf: its type without the deleted mark, and its bytes. */
  datatype Item = Item(kind: Byte, deleted: bool, bytes: Bytes)

  /** A key and its data; the key order is the order of the pairs.  Plain items have type 1. */
  datatype Pair = Pair(key: Item, data: Item) {
    predicate Live() { !key.deleted && !data.deleted }

    predicate Plain() { Live() ==> key.kind % 0x80 == 1 && data.kind % 0x80 == 1 }
  }

  /** An item of an internal page: the child, the records counted below it, and the separating key. */
  datatype Link = Link(child: nat, count: nat, kind: Byte, pad: Byte, key: Bytes)

  datatype Page = Branch(frame: Frame, links: seq<Link>) | Leaves(frame: Frame, pairs: seq<Pair>) | Other(bytes: Bytes)

  /** The bytes of the metadata page between the fields the reader checks. */
  datatype Meta = Meta(head: Bytes, middle: Bytes, tail: Bytes)

  /** `pages[i]` is page `i + 1`. */
  datatype Database = Database(size: nat, meta: Meta, root: nat, pages: seq<Page>)

  // ---- its bytes ----

  /** Items start at multiples of four bytes from the end. */
  function Padded(b: Bytes): Bytes { b + seq((4 - |b| % 4) % 4, _ => 0) }

  /** Length, type, bytes; the high bit of the type marks a deleted item. */
  function ItemBytes(i: Item): Bytes {
    Padded(TwoBytes(|i.bytes|) + [if i.deleted then i.kind % 0x80 + 0x80 else i.kind % 0x80] + i.bytes)
  }

  /** Length of the key, type, padding, child page, record count, key. */
  function LinkBytes(l: Link): Bytes {
    Padded(TwoBytes(|l.key|) + [l.kind, l.pad] + FourBytes(l.child) + FourBytes(l.count) + l.key)
  }

  /** Keys and data take turns. */
  function PairItems(pairs: seq<Pair>): seq<Bytes> {
    if pairs == [] then []
    else
      var n := |pairs| - 1;
      PairItems(pairs[..n]) + [ItemBytes(pairs[n].key), ItemBytes(pairs[n].data)]
  }

  function PageItems(p: Page): seq<Bytes> {
    match p
    case Branch(_, links) => seq(|links|, i requires 0 <= i < |links| => LinkBytes(links[i]))
    case Leaves(_, pairs) => PairItems(pairs)
    case Other(_) => []
  }

  /** The first item lies at the end of the page, the next one before it. */
  function Heap(items: seq<Bytes>): Bytes {
    if items == [] then [] else items[|items| - 1] + Heap(items[..|items| - 1])
  }

  function Table(items: seq<Bytes>, size: nat): Bytes {
    if items == [] then []
    else Table(items[..|items| - 1], size) + TwoBytes(if size < |Heap(items)| then 0 else size - |Heap(items)|)
  }

  function Header(f: Frame, number: nat, entries: nat, kind: Byte): Bytes {
    f.lsn + FourBytes(number) + f.siblings + TwoBytes(entries) + f.free + [f.level, kind]
  }

  function Zeros(n: int): Bytes { if n <= 0 then [] else seq(n, _ => 0) }

  function Laid(header: Bytes, items: seq<Bytes>, size: nat): Bytes {
    header + Table(items, size) + Zeros(size - |header| - 2 * |items| - |Heap(items)|) + Heap(items)
  }

  function PageBytes(p: Page, number: nat, size: nat): Bytes {
    match p
    case Branch(f, links) => Laid(Header(f, number, |links|, 3), PageItems(p), size)
    case Leaves(f, pairs) => Laid(Header(f, number, 2 * |pairs|, 5), PageItems(p), size)
    case Other(bytes) => bytes
  }

  function MetaBytes(d: Database): Bytes {
    d.meta.head + FourBytes(0x00053162) + FourBytes(9) + FourBytes(d.size) + [0, 9] + d.meta.middle
      + FourBytes(d.root) + d.meta.tail
  }

  /** The pages from number `n + 1` on. */
  function PagesBytes(pages: seq<Page>, size: nat): Bytes {
    if pages == [] then []
    else PagesBytes(pages[..|pages| - 1], size) + PageBytes(pages[|pages| - 1], |pages|, size)
  }

  /** The database file. */
  function Written(d: Database): Bytes { MetaBytes(d) + PagesBytes(d.pages, d.size) }

  // ---- what fits ----

  predicate FrameFits(f: Frame) { |f.lsn| == 8 && |f.siblings| == 8 && |f.free| == 2 }

  predicate PairFits(p: Pair) { |p.key.bytes| < 0x1_0000 && |p.data.bytes| < 0x1_0000 }

  predicate PageFits(p: Page, size: nat) {
    match p
    case Branch(f, links) =>
      && FrameFits(f) && 26 + 2 * |links| + |Heap(PageItems(p))| <= size
      && forall i :: 0 <= i < |links| ==> |links[i].key| < 0x1_0000 && links[i].child < 0x1_0000_0000
    case Leaves(f, pairs) =>
      && FrameFits(f) && 26 + 4 * |pairs| + |Heap(PageItems(p))| <= size
      && forall i :: 0 <= i < |pairs| ==> PairFits(pairs[i])
    case Other(bytes) => |bytes| == size && size >= 26 && bytes[25] != 3 && bytes[25] != 5
  }

  predicate Fits(d: Database) {
    && 512 <= d.size <= 0x1_0000 && PowerOfTwo(d.size) && |d.pages| < 0xFFFF_FFFF && d.root < 0x1_0000_0000
    && |d.meta.head| == 12 && |d.meta.middle| == 62 && |d.meta.tail| == d.size - 92
    && forall i :: 0 <= i < |d.pages| ==> PageFits(d.pages[i], d.size)
  }

  predicate AllPlain(pairs: seq<Pair>) { forall i :: 0 <= i < |pairs| ==> pairs[i].Plain() }

  /** The pages below a page, as its links name them: leaves whose live pairs are plain. */
  ghost predicate Linked(d: Database, t: Tree) {
    1 <= t.page <= |d.pages| &&
    match t
    case LeafPage(n) => d.pages[n - 1].Leaves? && AllPlain(d.pages[n - 1].pairs)
    case InnerPage(n, children) =>
      && d.pages[n - 1].Branch? && |d.pages[n - 1].links| == |children|
      && forall i :: 0 <= i < |children| ==> d.pages[n - 1].links[i].child == children[i].page && Linked(d, children[i])
  }

  /** The data of the live pairs, in order. */
  function LiveOf(pairs: seq<Pair>): seq<Bytes> {
    if pairs == [] then []
    else
      var n := |pairs| - 1;
      LiveOf(pairs[..n]) + if pairs[n].Live() then [pairs[n].data.bytes] else []
  }

  /** The data of the live pairs of all leaves of the tree, in key order. */
  ghost function LiveData(d: Database, t: Tree): seq<Bytes>
    requires Linked(d, t)
  {
    match t
    case LeafPage(n) => LiveOf(d.pages[n - 1].pairs)
    case InnerPage(_, children) => LiveDataAll(d, children)
  }

  ghost function LiveDataAll(d: Database, ts: seq<Tree>): seq<Bytes>
    requires forall i :: 0 <= i < |ts| ==> Linked(d, ts[i])
  {
    if ts == [] then [] else LiveDataAll(d, ts[..|ts| - 1]) + LiveData(d, ts[|ts| - 1])
  }

  // ---- fields ----

  lemma U16At(a: Bytes, n: nat, b: Bytes)
    requires n < 0x1_0000
    ensures U16(a + TwoBytes(n) + b, |a|) == n
  {
    var s, t := a + TwoBytes(n) + b, TwoBytes(n);
    assert s[|a|] == t[0] && s[|a| + 1] == t[1];
  }

  lemma U32At(a: Bytes, n: nat, b: Bytes)
    requires n < 0x1_0000_0000
    ensures U32(a + FourBytes(n) + b, |a|) == n
  {
    var s, t := a + FourBytes(n) + b, FourBytes(n);
    hide FourBytes;
    assert forall i :: 0 <= i < 4 ==> s[|a| + i] == t[i];
    assert s[|a|] == t[0] && s[|a| + 1] == t[1] && s[|a| + 2] == t[2] && s[|a| + 3] == t[3];
  }

  lemma U32Inside(s: Bytes, t: Bytes, at: nat, i: nat)
    requires at + |t| <= |s| && s[at..at + |t|] == t && i + 4 <= |t|
    ensures U32(s, at + i) == U32(t, i)
  {
    var w := s[at..at + |t|];
    assert w[i] == s[at + i] && w[i + 1] == s[at + i + 1] && w[i + 2] == s[at + i + 2] && w[i + 3] == s[at + i + 3];
  }

  lemma U16Inside(s: Bytes, t: Bytes, at: nat, i: nat)
    requires at + |t| <= |s| && s[at..at + |t|] == t && i + 2 <= |t|
    ensures U16(s, at + i) == U16(t, i)
  {
    var w := s[at..at + |t|];
    assert w[i] == s[at + i] && w[i + 1] == s[at + i + 1];
  }

  lemma SliceOfSlice(s: Bytes, a: nat, b: nat, c: nat, d: nat)
    requires a <= b <= |s| && c <= d <= b - a
    ensures s[a..b][c..d] == s[a + c..a + d]
  {
    var t, u := s[a..b][c..d], s[a + c..a + d];
    forall k | 0 <= k < d - c ensures t[k] == u[k] { assert t[k] == s[a..b][c + k] == s[a + c + k]; }
  }

  // ---- one page ----

  lemma HeaderFields(f: Frame, number: nat, entries: nat, kind: Byte)
    requires FrameFits(f) && number < 0x1_0000_0000 && entries < 0x1_0000
    ensures var h := Header(f, number, entries, kind);
      |h| == 26 && U32(h, 8) == number && U16(h, 20) == entries && h[25] == kind
  {
    var h := Header(f, number, entries, kind);
    U32At(f.lsn, number, f.siblings + TwoBytes(entries) + f.free + [f.level, kind]);
    assert h == f.lsn + FourBytes(number) + (f.siblings + TwoBytes(entries) + f.free + [f.level, kind]);
    U16At(f.lsn + FourBytes(number) + f.siblings, entries, f.free + [f.level, kind]);
    assert h == f.lsn + FourBytes(number) + f.siblings + TwoBytes(entries) + (f.free + [f.level, kind]);
  }

  lemma {:induction false} TableEntry(items: seq<Bytes>, size: nat, i: nat)
    requires i < |items| && |Heap(items)| <= size <= 0x1_0000
    requires forall k :: 0 <= k < |items| ==> |items[k]| > 0
    ensures |Table(items, size)| == 2 * |items|
    ensures |Heap(items[..i + 1])| <= size && U16(Table(items, size), 2 * i) == size - |Heap(items[..i + 1])|
  {
    var n := |items| - 1;
    TableLength(items, size);
    TableLength(items[..n], size);
    var table := Table(items[..n], size);
    if i == n {
      assert items[..n + 1] == items;
      U16At(table, size - |Heap(items)|, []);
      assert table + TwoBytes(size - |Heap(items)|) + [] == Table(items, size);
    } else {
      TableEntry(items[..n], size, i);
      assert items[..n][..i + 1] == items[..i + 1];
      U16Inside(Table(items, size), table, 0, 2 * i);
    }
  }

  lemma {:induction false} TableLength(items: seq<Bytes>, size: nat)
    ensures |Table(items, size)| == 2 * |items|
  {
    if items != [] { TableLength(items[..|items| - 1], size); }
  }

  /** Where an item lies in the heap. */
  lemma {:induction false} HeapItem(items: seq<Bytes>, i: nat)
    requires i < |items|
    ensures var at := |Heap(items)| - |Heap(items[..i + 1])|;
      at >= 0 && at + |items[i]| <= |Heap(items)| && Heap(items)[at..at + |items[i]|] == items[i]
  {
    var n := |items| - 1;
    if i == n {
      assert items[..n + 1] == items;
    } else {
      HeapItem(items[..n], i);
      assert items[..n][..i + 1] == items[..i + 1];
      var below := Heap(items[..n]);
      var at := |below| - |Heap(items[..i + 1])|;
      assert Heap(items)[|items[n]| + at..|items[n]| + at + |items[i]|] == below[at..at + |items[i]|];
    }
  }

  lemma {:induction false} HeapGrows(items: seq<Bytes>, i: nat)
    requires i < |items| && forall k :: 0 <= k < |items| ==> |items[k]| >= 4
    ensures 4 <= |Heap(items[..i + 1])| <= |Heap(items)|
  {
    HeapItem(items, i);
    assert items[..i + 1][..i] == items[..i] && Heap(items[..i + 1]) == items[i] + Heap(items[..i]);
  }

  /** The bytes of a page that is laid out. */
  predicate IsLaid(data: Bytes, header: Bytes, items: seq<Bytes>, size: nat) {
    && |header| == 26 && 26 + 2 * |items| + |Heap(items)| <= size && 512 <= size <= 0x1_0000
    && (forall i :: 0 <= i < |items| ==> |items[i]| >= 4)
    && data == Laid(header, items, size)
  }

  lemma LaidParts(data: Bytes, header: Bytes, items: seq<Bytes>, size: nat)
    requires IsLaid(data, header, items, size)
    ensures |data| == size && data[..26] == header && data[26..26 + 2 * |items|] == Table(items, size)
    ensures data[size - |Heap(items)|..] == Heap(items)
  {
    TableLength(items, size);
    hide Table, Heap;
  }

  function Offset(items: seq<Bytes>, size: nat, i: nat): int
    requires i < |items|
  {
    size - |Heap(items[..i + 1])|
  }

  /** The offset table of a laid page, and the items at its offsets. */
  lemma LaidItem(data: Bytes, header: Bytes, items: seq<Bytes>, size: nat, i: nat)
    requires IsLaid(data, header, items, size) && i < |items|
    ensures |data| == size && U16(data, 26 + 2 * i) == Offset(items, size, i)
    ensures 26 + 2 * |items| <= Offset(items, size, i) < size - 3
    ensures var at := Offset(items, size, i); at + |items[i]| <= size && data[at..at + |items[i]|] == items[i]
  {
    hide Table, Heap, Laid;
    LaidParts(data, header, items, size);
    TableEntry(items, size, i);
    HeapItem(items, i);
    HeapGrows(items, i);
    U16Inside(data, Table(items, size), 26, 2 * i);
    var heap := Heap(items);
    var at := |heap| - |Heap(items[..i + 1])|;
    assert data[size - |heap|..][at..at + |items[i]|] == data[size - |heap| + at..size - |heap| + at + |items[i]|];
  }

  lemma LaidHeader(data: Bytes, header: Bytes, items: seq<Bytes>, size: nat)
    requires IsLaid(data, header, items, size)
    ensures |data| == size && U32(data, 8) == U32(header, 8) && U16(data, 20) == U16(header, 20)
      && data[25] == header[25]
  {
    hide Laid, Table, Heap;
    LaidParts(data, header, items, size);
    U32Inside(data, header, 0, 8);
    U16Inside(data, header, 0, 20);
    assert data[25] == data[..26][25];
  }

  lemma LaidSize(data: Bytes, header: Bytes, items: seq<Bytes>, size: nat)
    requires IsLaid(data, header, items, size)
    ensures |data| == size >= 512 && 26 + 2 * |items| <= size
  {
    hide Laid, Table, Heap;
    LaidParts(data, header, items, size);
  }

  /** The reader finds the offsets of the items. */
  lemma LaidItems(data: Bytes, header: Bytes, items: seq<Bytes>, size: nat)
    requires IsLaid(data, header, items, size) && U16(header, 20) == |items|
    ensures |data| == size && Items(data).Ok? && |Items(data).value| == |items|
    ensures forall i :: 0 <= i < |items| ==> Items(data).value[i] == Offset(items, size, i)
  {
    hide IsLaid, Offset, U16;
    LaidSize(data, header, items, size);
    LaidHeader(data, header, items, size);
    var offsets := Entries(data, |items|);
    forall i | 0 <= i < |items|
      ensures offsets[i] == Offset(items, size, i) && 26 + 2 * |items| <= offsets[i] < size - 3
    {
      LaidItem(data, header, items, size, i);
    }
  }

  // ---- internal pages ----

  lemma LinkFields(l: Link)
    requires l.child < 0x1_0000_0000
    ensures |LinkBytes(l)| >= 12 && U32(LinkBytes(l), 4) == l.child
  {
    hide FourBytes, TwoBytes;
    var head := TwoBytes(|l.key|) + [l.kind, l.pad];
    var tail := FourBytes(l.count) + l.key;
    var item := head + FourBytes(l.child) + tail;
    U32At(head, l.child, tail);
    assert TwoBytes(|l.key|) + [l.kind, l.pad] + FourBytes(l.child) + FourBytes(l.count) + l.key == item;
    U32Inside(Padded(item), item, 0, 4);
  }

  lemma BranchReads(f: Frame, links: seq<Link>, number: nat, size: nat)
    requires PageFits(Branch(f, links), size) && 512 <= size <= 0x1_0000 && number < 0x1_0000_0000
    ensures var data := PageBytes(Branch(f, links), number, size);
      && |data| == size && U32(data, 8) == number && data[25] == INTERNAL
      && Items(data).Ok? && |Items(data).value| == |links|
      && forall i :: 0 <= i < |links| ==> ChildAt(data, i) == Ok(links[i].child)
  {
    hide Heap, Laid, Items, U32, U16, LinkBytes, Header, FrameFits;
    var page := Branch(f, links);
    var items, header := PageItems(page), Header(f, number, |links|, 3);
    var data := PageBytes(page, number, size);
    forall i | 0 <= i < |links| ensures |items[i]| >= 12 && U32(items[i], 4) == links[i].child { LinkFields(links[i]); }
    HeaderFields(f, number, |links|, 3);
    assert IsLaid(data, header, items, size);
    LaidHeader(data, header, items, size);
    LaidItems(data, header, items, size);
    forall i | 0 <= i < |links| ensures ChildAt(data, i) == Ok(links[i].child) {
      LaidItem(data, header, items, size, i);
      U32Inside(data, items[i], Offset(items, size, i), 4);
    }
  }

  // ---- leaves ----

  lemma ItemFields(i: Item)
    requires |i.bytes| < 0x1_0000
    ensures var b := ItemBytes(i);
      && |b| >= 4 && U16(b, 0) == |i.bytes| && b[2] == (if i.deleted then i.kind % 0x80 + 0x80 else i.kind % 0x80)
      && 3 + |i.bytes| <= |b| && b[3..3 + |i.bytes|] == i.bytes
  {
    hide TwoBytes;
    var mark: Byte := if i.deleted then i.kind % 0x80 + 0x80 else i.kind % 0x80;
    var item := TwoBytes(|i.bytes|) + [mark] + i.bytes;
    U16At([], |i.bytes|, [mark] + i.bytes);
    assert [] + TwoBytes(|i.bytes|) + ([mark] + i.bytes) == item;
    U16Inside(Padded(item), item, 0, 0);
    assert Padded(item)[2] == item[2] && Padded(item)[3..3 + |i.bytes|] == item[3..] == i.bytes;
  }

  lemma {:induction false} PairItemsAt(pairs: seq<Pair>, i: nat)
    requires i < |pairs|
    ensures |PairItems(pairs)| == 2 * |pairs|
    ensures PairItems(pairs)[2 * i] == ItemBytes(pairs[i].key)
      && PairItems(pairs)[2 * i + 1] == ItemBytes(pairs[i].data)
  {
    var n := |pairs| - 1;
    PairItemsLength(pairs[..n]);
    if i < n { PairItemsAt(pairs[..n], i); }
  }

  lemma {:induction false} PairItemsLength(pairs: seq<Pair>)
    ensures |PairItems(pairs)| == 2 * |pairs|
  {
    if pairs != [] { PairItemsLength(pairs[..|pairs| - 1]); }
  }

  /** What the reader sees of an item at an offset. */
  predicate ShowsItem(data: Bytes, at: int, i: Item) {
    && 0 <= at && at + 3 + |i.bytes| <= |data| && U16(data, at) == |i.bytes|
    && data[at + 2] == (if i.deleted then i.kind % 0x80 + 0x80 else i.kind % 0x80)
    && data[at + 3..at + 3 + |i.bytes|] == i.bytes
  }

  lemma ItemShown(data: Bytes, at: nat, i: Item)
    requires |i.bytes| < 0x1_0000 && at + |ItemBytes(i)| <= |data| && data[at..at + |ItemBytes(i)|] == ItemBytes(i)
    ensures ShowsItem(data, at, i)
  {
    hide ItemBytes, U16;
    ItemFields(i);
    var b := ItemBytes(i);
    U16Inside(data, b, at, 0);
    var w := data[at..at + |b|];
    assert data[at + 2] == w[2];
    SliceOfSlice(data, at, at + |b|, 3, 3 + |i.bytes|);
  }

  lemma OnePairRead(data: Bytes, offsets: seq<nat>, p: Pair, n: nat, before: seq<Bytes>)
    requires 0 < n && 2 * n <= |offsets| && forall i :: 0 <= i < |offsets| ==> offsets[i] + 3 < |data|
    requires PairFits(p) && LeafRecords(data, offsets, n - 1) == Ok(before)
    requires ShowsItem(data, offsets[2 * n - 2], p.key) && ShowsItem(data, offsets[2 * n - 1], p.data)
    ensures LeafRecords(data, offsets, n) ==
      if p.Plain() then Ok(before + if p.Live() then [p.data.bytes] else []) else Unreadable
  {
    hide U16;
    assert before + [] == before;
  }

  lemma {:induction false} PairsRead(data: Bytes, offsets: seq<nat>, pairs: seq<Pair>, n: nat)
    requires n <= |pairs| && |offsets| == 2 * |pairs| && forall i :: 0 <= i < |offsets| ==> offsets[i] + 3 < |data|
    requires forall i :: 0 <= i < |pairs| ==> PairFits(pairs[i])
    requires forall i :: 0 <= i < |pairs| ==>
      ShowsItem(data, offsets[2 * i], pairs[i].key) && ShowsItem(data, offsets[2 * i + 1], pairs[i].data)
    ensures LeafRecords(data, offsets, n) == if AllPlain(pairs[..n]) then Ok(LiveOf(pairs[..n])) else Unreadable
  {
    hide PairFits, ShowsItem, LeafRecords;
    if n == 0 {
      NoPairsRead(data, offsets);
    } else {
      PairsRead(data, offsets, pairs, n - 1);
      assert pairs[..n][..n - 1] == pairs[..n - 1];
      var i := n - 1;
      assert AllPlain(pairs[..n]) <==> AllPlain(pairs[..i]) && pairs[i].Plain();
      if AllPlain(pairs[..i]) {
        assert ShowsItem(data, offsets[2 * i], pairs[i].key) && ShowsItem(data, offsets[2 * i + 1], pairs[i].data);
        OnePairRead(data, offsets, pairs[i], n, LiveOf(pairs[..i]));
      } else {
        RefusedBefore(data, offsets, n);
      }
    }
  }

  lemma RefusedBefore(data: Bytes, offsets: seq<nat>, n: nat)
    requires 0 < n && 2 * n <= |offsets| && forall i :: 0 <= i < |offsets| ==> offsets[i] + 3 < |data|
    requires LeafRecords(data, offsets, n - 1) == Unreadable
    ensures LeafRecords(data, offsets, n) == Unreadable
  {
  }

  lemma NoPairsRead(data: Bytes, offsets: seq<nat>)
    requires forall i :: 0 <= i < |offsets| ==> offsets[i] + 3 < |data|
    ensures LeafRecords(data, offsets, 0) == Ok([])
  {
  }

  lemma LeavesRead(f: Frame, pairs: seq<Pair>, number: nat, size: nat)
    requires PageFits(Leaves(f, pairs), size) && 512 <= size <= 0x1_0000 && number < 0x1_0000_0000
    ensures var data := PageBytes(Leaves(f, pairs), number, size);
      && |data| == size && U32(data, 8) == number && data[25] == LEAF
      && Leaf(data) == if AllPlain(pairs) then Ok(LiveOf(pairs)) else Unreadable
  {
    hide AllPlain, Heap, Laid, Items, U32, U16, ItemBytes, Header, FrameFits, LeafRecords, ShowsItem, PairItems,
      LiveOf, Offset;
    var page := Leaves(f, pairs);
    var items, header := PairItems(pairs), Header(f, number, 2 * |pairs|, 5);
    var data := PageBytes(page, number, size);
    PairItemsWide(pairs);
    HeaderFields(f, number, 2 * |pairs|, 5);
    assert IsLaid(data, header, items, size);
    LaidHeader(data, header, items, size);
    LaidItems(data, header, items, size);
    var offsets := Items(data).value;
    forall i | 0 <= i < |pairs|
      ensures ShowsItem(data, offsets[2 * i], pairs[i].key) && ShowsItem(data, offsets[2 * i + 1], pairs[i].data)
    {
      PairItemsAt(pairs, i);
      LaidItem(data, header, items, size, 2 * i);
      LaidItem(data, header, items, size, 2 * i + 1);
      ItemShown(data, offsets[2 * i], pairs[i].key);
      ItemShown(data, offsets[2 * i + 1], pairs[i].data);
    }
    PairsRead(data, offsets, pairs, |pairs|);
    assert pairs[..|pairs|] == pairs;
  }

  lemma PairItemsWide(pairs: seq<Pair>)
    requires forall i :: 0 <= i < |pairs| ==> PairFits(pairs[i])
    ensures |PairItems(pairs)| == 2 * |pairs| && forall k :: 0 <= k < |PairItems(pairs)| ==> |PairItems(pairs)[k]| >= 4
  {
    hide ItemBytes;
    var items := PairItems(pairs);
    PairItemsLength(pairs);
    forall k | 0 <= k < |items| ensures |items[k]| >= 4 {
      var i := k / 2;
      assert PairFits(pairs[i]);
      PairItemsAt(pairs, i);
      ItemFields(pairs[i].key);
      ItemFields(pairs[i].data);
      assert k == 2 * i || k == 2 * i + 1;
    }
  }

  // ---- the file ----

  lemma {:induction false} PageBytesLength(d: Database, n: nat)
    requires Fits(d) && 1 <= n <= |d.pages|
    ensures |PageBytes(d.pages[n - 1], n, d.size)| == d.size
  {
    hide PageBytes, PageItems;
    assert PageFits(d.pages[n - 1], d.size);
    match d.pages[n - 1]
    case Branch(f, links) => BranchReads(f, links, n, d.size);
    case Leaves(f, pairs) => LeavesRead(f, pairs, n, d.size);
    case Other(bytes) => assert PageBytes(Other(bytes), n, d.size) == bytes by { OtherBytes(bytes, n, d.size); }
  }

  lemma OtherBytes(bytes: Bytes, n: nat, size: nat)
    ensures PageBytes(Other(bytes), n, size) == bytes
  {
  }

  /** Where page `n` starts. */
  function Place(n: nat, size: nat): nat { if n == 0 then 0 else Place(n - 1, size) + size }

  lemma {:induction false} PlaceIs(n: nat, size: nat)
    requires size > 0
    ensures Place(n, size) == n * size && Place(n, size) % size == 0 && Place(n, size) / size == n
  {
    if n > 0 {
      PlaceIs(n - 1, size);
      assert n * size == (n - 1) * size + size;
    }
    DivideExactly(n * size, size, n);
  }

  lemma DivideExactly(y: int, size: int, q: int)
    requires size > 0 && y == size * q
    ensures y % size == 0 && y / size == q
  {
    var e, r := y / size, y % size;
    assert y == size * e + r && 0 <= r < size;
    assert size * (q - e) == r;
    if q > e { ProductMonotone(1, q - e, size); }
    if e > q { ProductMonotone(1, e - q, size); }
  }

  lemma {:induction false} PlaceGrows(m: nat, n: nat, size: nat)
    requires m <= n
    ensures Place(m, size) <= Place(n, size)
  {
    if m < n { PlaceGrows(m, n - 1, size); }
  }

  lemma {:induction false} PageInPlace(d: Database, count: nat, n: nat)
    requires Fits(d) && count <= |d.pages|
    ensures |PagesBytes(d.pages[..count], d.size)| == Place(count, d.size)
    ensures 1 <= n <= count ==>
      Place(n, d.size) <= Place(count, d.size)
      && PagesBytes(d.pages[..count], d.size)[Place(n - 1, d.size)..Place(n, d.size)]
         == PageBytes(d.pages[n - 1], n, d.size)
    decreases count
  {
    hide Fits, PageBytes;
    if count > 0 {
      PageInPlace(d, count - 1, n);
      assert d.pages[..count][..count - 1] == d.pages[..count - 1];
      PageBytesLength(d, count);
      var before, page := PagesBytes(d.pages[..count - 1], d.size), PageBytes(d.pages[count - 1], count, d.size);
      assert PagesBytes(d.pages[..count], d.size) == before + page;
      if 1 <= n < count {
        PlaceGrows(n, count - 1, d.size);
        SliceOfSum(before, page, Place(n - 1, d.size), Place(n, d.size));
      } else if n == count {
        assert (before + page)[|before|..|before| + d.size] == page;
      }
    }
  }

  lemma SliceOfSum(a: Bytes, b: Bytes, i: nat, j: nat)
    requires i <= j <= |a|
    ensures (a + b)[i..j] == a[i..j]
  {
  }

  lemma MetaFields(d: Database)
    requires Fits(d)
    ensures var m := MetaBytes(d);
      && |m| == d.size && U32(m, 12) == 0x00053162 && U32(m, 16) == 9 && U32(m, 20) == d.size && U32(m, 88) == d.root
      && m[24] == 0 && m[25] == 9
  {
    hide FourBytes, U32, PowerOfTwo, PageFits;
    var m := MetaBytes(d);
    var a, b := d.meta.head, [0, 9] + d.meta.middle + FourBytes(d.root) + d.meta.tail;
    U32At(a, 0x00053162, FourBytes(9) + FourBytes(d.size) + b);
    assert m == a + FourBytes(0x00053162) + (FourBytes(9) + FourBytes(d.size) + b);
    var c := a + FourBytes(0x00053162);
    U32At(c, 9, FourBytes(d.size) + b);
    assert m == c + FourBytes(9) + (FourBytes(d.size) + b);
    var e := c + FourBytes(9);
    U32At(e, d.size, b);
    assert m == e + FourBytes(d.size) + b;
    var f := e + FourBytes(d.size) + [0, 9] + d.meta.middle;
    U32At(f, d.root, d.meta.tail);
    assert m == f + FourBytes(d.root) + d.meta.tail;
  }

  lemma WrittenMeta(d: Database)
    requires Fits(d)
    ensures var image, m := Written(d), MetaBytes(d);
      && |m| == d.size && |image| == d.size + Place(|d.pages|, d.size) && image[..d.size] == m
      && image[d.size..] == PagesBytes(d.pages, d.size)
  {
    hide Fits, MetaBytes, PagesBytes, Place;
    MetaFields(d);
    PageInPlace(d, |d.pages|, 0);
    assert d.pages[..|d.pages|] == d.pages;
  }

  lemma WrittenFields(d: Database)
    requires Fits(d)
    ensures var image := Written(d);
      && |image| >= 512 && U32(image, 12) == 0x00053162 && U32(image, 16) == 9 && U32(image, 20) == d.size
      && U32(image, 88) == d.root && image[24] == 0 && image[25] == 9
  {
    hide Fits, MetaBytes, Written, U32, Place, PowerOfTwo;
    var image, m := Written(d), MetaBytes(d);
    FitsSize(d);
    MetaFields(d);
    WrittenMeta(d);
    U32Inside(image, m, 0, 12);
    U32Inside(image, m, 0, 16);
    U32Inside(image, m, 0, 20);
    U32Inside(image, m, 0, 88);
    assert image[24] == image[..d.size][24] && image[25] == image[..d.size][25];
  }

  lemma WrittenCertified(d: Database)
    requires Fits(d)
    ensures var image := Written(d);
      && Certified(image) && U32(image, 20) == d.size && U32(image, 88) == d.root
      && WholePages(PageFile(image, d.size)) && Count(PageFile(image, d.size)) == |d.pages| + 1
  {
    hide Fits, Written, U32, PowerOfTwo, MetaBytes, PagesBytes, WholePages, Count;
    FitsSize(d);
    WrittenFields(d);
    WrittenMeta(d);
    hide Place;
    WholeFile(Written(d), |d.pages| + 1, d.size);
  }

  lemma WholeFile(image: Bytes, count: nat, size: nat)
    requires size >= 512 && |image| == Place(count, size)
    ensures |image| % size == 0 && WholePages(PageFile(image, size)) && Count(PageFile(image, size)) == count
  {
    PlaceIs(count, size);
    hide Place;
  }

  lemma FitsSize(d: Database)
    requires Fits(d)
    ensures 512 <= d.size <= 0x1_0000 && PowerOfTwo(d.size) && |d.pages| < 0xFFFF_FFFF
    ensures forall i :: 0 <= i < |d.pages| ==> PageFits(d.pages[i], d.size)
  {
  }

  lemma WrittenPage(d: Database, p: Pages, n: nat)
    requires Fits(d) && p == PageFile(Written(d), d.size) && 1 <= n <= |d.pages|
    ensures n < Count(p) && Data(p, n) == PageBytes(d.pages[n - 1], n, d.size)
  {
    hide Fits, Written, PageBytes, PagesBytes, PowerOfTwo, Certified, PageFits, Count;
    FitsSize(d);
    WrittenCertified(d);
    WrittenMeta(d);
    PageInPlace(d, |d.pages|, n);
    assert d.pages[..|d.pages|] == d.pages;
    PlaceIs(n, d.size);
    PlaceIs(n - 1, d.size);
    PageSlice(Written(d), PagesBytes(d.pages, d.size), d.size, Place(n - 1, d.size));
  }

  lemma PageSlice(image: Bytes, pages: Bytes, size: nat, at: nat)
    requires size <= |image| && image[size..] == pages && at + size <= |pages|
    ensures image[at + size..at + size + size] == pages[at..at + size]
  {
    var t, u := image[at + size..at + size + size], pages[at..at + size];
    forall k | 0 <= k < size ensures t[k] == u[k] { assert u[k] == pages[at + k] == image[size..][at + k]; }
  }

  /** The pages of the file are laid out as a tree exactly when the links say so. */
  lemma {:induction false} WrittenRepresents(d: Database, p: Pages, t: Tree)
    requires Fits(d) && p == PageFile(Written(d), d.size)
    ensures Represents(p, t) <==> Linked(d, t)
    ensures Linked(d, t) ==> Flatten(p, t) == LiveData(d, t)
    decreases t, 0
  {
    hide PageBytes, Data, Items, ChildAt, Leaf, Written, PowerOfTwo, U32, Fits, PageFits, Count, Distinct, AllPlain;
    if 1 <= t.page <= |d.pages| {
      WrittenPage(d, p, t.page);
      FitsSize(d);
      WrittenKind(d, p, t.page);
      if t.InnerPage? { WrittenTrees(d, p, t.children); }
    } else {
      OutsidePages(d, p, t.page);
    }
  }

  lemma OutsidePages(d: Database, p: Pages, n: nat)
    requires Fits(d) && p == PageFile(Written(d), d.size) && !(1 <= n <= |d.pages|)
    ensures !Readable(p, n)
  {
    hide Fits, Written, Count;
    WrittenCertified(d);
  }

  /** What the reader finds on a page. */
  lemma WrittenKind(d: Database, p: Pages, n: nat)
    requires Fits(d) && p == PageFile(Written(d), d.size) && 1 <= n <= |d.pages| && n < Count(p)
    ensures var data, page := Data(p, n), d.pages[n - 1];
      && (page.Other? ==> data[25] != INTERNAL && data[25] != LEAF)
      && (page.Leaves? ==>
            && Readable(p, n) && data[25] == LEAF
            && Leaf(data) == if AllPlain(page.pairs) then Ok(LiveOf(page.pairs)) else Unreadable)
      && (page.Branch? ==>
            && Readable(p, n) && data[25] == INTERNAL && Items(data).Ok? && |Items(data).value| == |page.links|
            && forall i :: 0 <= i < |page.links| ==> ChildAt(data, i) == Ok(page.links[i].child))
  {
    hide PageBytes, Data, Items, ChildAt, Leaf, Written, PowerOfTwo, U32, Fits, PageFits, Count, AllPlain, LiveOf;
    WrittenPage(d, p, n);
    FitsSize(d);
    assert PageFits(d.pages[n - 1], d.size);
    match d.pages[n - 1]
    case Branch(f, links) => BranchReads(f, links, n, d.size);
    case Leaves(f, pairs) => LeavesRead(f, pairs, n, d.size);
    case Other(bytes) =>
      OtherBytes(bytes, n, d.size);
      OtherKind(bytes, d.size);
  }

  lemma OtherKind(bytes: Bytes, size: nat)
    requires PageFits(Other(bytes), size)
    ensures |bytes| >= 26 && bytes[25] != INTERNAL && bytes[25] != LEAF
  {
  }

  lemma {:induction false} WrittenTrees(d: Database, p: Pages, ts: seq<Tree>)
    requires Fits(d) && p == PageFile(Written(d), d.size)
    ensures forall i :: 0 <= i < |ts| ==> (Represents(p, ts[i]) <==> Linked(d, ts[i]))
    ensures (forall i :: 0 <= i < |ts| ==> Linked(d, ts[i])) ==> FlattenAll(p, ts) == LiveDataAll(d, ts)
    decreases ts, 1
  {
    hide Fits, Written, Represents, Linked, Flatten, LiveData;
    if ts != [] {
      var n := |ts| - 1;
      WrittenTrees(d, p, ts[..n]);
      WrittenRepresents(d, p, ts[n]);
      assert forall i :: 0 <= i < n ==> ts[..n][i] == ts[i];
    }
  }

  /** The records of a database file: the data of the live pairs, in key order, of a tree of distinct pages
      under the root. */
  ghost predicate Stores(d: Database, t: Tree, records: seq<Bytes>) {
    Linked(d, t) && t.page == d.root && Distinct(PagesOf(t)) && records == LiveData(d, t)
  }

  /** A database file is read exactly to what it stores, and is refused if its links do not make such a
      tree or a live pair is not plain; it never raises. */
  lemma WrittenIsRead(d: Database)
    requires Fits(d)
    ensures forall records :: Read(Written(d)) == Ok(records) <==> exists t :: Stores(d, t, records)
    ensures Read(Written(d)) != Raised
  {
    hide Fits, Written, Represents, Linked, Flatten, LiveData, Certified, Distinct, WalkFrom, U32, Read;
    var image := Written(d);
    WrittenCertified(d);
    var p: Pages := PageFile(image, d.size);
    forall records ensures Read(image) == Ok(records) <==> exists t :: Stores(d, t, records) {
      ReadExactly(image, records);
      if Holds(image, records) {
        var t :| Represents(p, t) && t.page == d.root && Distinct(PagesOf(t)) && records == Flatten(p, t);
        WrittenRepresents(d, p, t);
        assert Stores(d, t, records);
      }
      if t :| Stores(d, t, records) {
        WrittenRepresents(d, p, t);
      }
    }
    WrittenNeverRaises(d, p, d.root, {});
    ReadWalks(image, p);
  }

  lemma ReadWalks(image: Bytes, p: Pages)
    requires Certified(image) && p == PageFile(image, U32(image, 20))
    ensures WalkFrom(p, U32(image, 88), {}) != Raised ==> Read(image) != Raised
  {
    hide WalkFrom, Certified;
  }

  lemma {:induction false} WrittenNeverRaises(d: Database, p: Pages, number: nat, seen: set<nat>)
    requires Fits(d) && p == PageFile(Written(d), d.size)
    ensures WalkFrom(p, number, seen) != Raised
    decreases PageNumbers(Count(p)) - seen, 0, 0
  {
    hide Data, Items, ChildAt, Leaf, Written, U32, Fits, AllPlain, LiveOf, Readable, WalkItems;
    if 1 <= number <= |d.pages| {
      WrittenPage(d, p, number);
      WrittenKind(d, p, number);
      hide Count;
      if number !in seen && Readable(p, number) && Data(p, number)[25] == INTERNAL {
        assert number in PageNumbers(Count(p)) - seen;
        LinksNeverRaise(d, p, number, |Items(Data(p, number)).value|, seen + {number});
      }
    } else {
      OutsidePages(d, p, number);
    }
  }

  lemma {:induction false} LinksNeverRaise(d: Database, p: Pages, number: nat, n: nat, seen: set<nat>)
    requires Fits(d) && p == PageFile(Written(d), d.size) && 1 <= number <= |d.pages| && number < Count(p)
    requires d.pages[number - 1].Branch?
    requires Items(Data(p, number)).Ok? && n <= |Items(Data(p, number)).value|
    ensures WalkItems(p, Data(p, number), n, seen) != Raised
    decreases PageNumbers(Count(p)) - seen, 1, n
  {
    hide Data, Items, ChildAt, Leaf, Written, U32, Fits, AllPlain, LiveOf, Readable, WalkFrom, Count;
    var data := Data(p, number);
    WrittenKind(d, p, number);
    if n > 0 {
      LinksNeverRaise(d, p, number, n - 1, seen);
      var before := WalkItems(p, data, n - 1, seen);
      if before.Ok? {
        assert PageNumbers(Count(p)) - before.value.seen <= PageNumbers(Count(p)) - seen;
        WrittenNeverRaises(d, p, ChildAt(data, n - 1).value, before.value.seen);
      }
    }
  }

  // ---- what is refused before any page is read ----

  /** The page sizes: 512 and its doubles. */
  function PageSize(k: nat): nat { if k == 0 then 512 else 2 * PageSize(k - 1) }

  lemma {:induction false} PageSizesExactly(n: nat)
    requires n >= 512
    ensures PowerOfTwo(n) <==> exists k: nat :: PageSize(k) == n
  {
    if PowerOfTwo(n) { HasPageSize(n); }
    if k: nat :| PageSize(k) == n { PageSizeIsPowerOfTwo(k); }
  }

  lemma {:induction false} PageSizeIsPowerOfTwo(k: nat)
    ensures PageSize(k) >= 512 && PowerOfTwo(PageSize(k))
  {
    hide PowerOfTwo;
    if k == 0 {
      PageSizeIsPower();
    } else {
      PageSizeIsPowerOfTwo(k - 1);
      DoubleIsPower(PageSize(k - 1));
    }
  }

  lemma DoubleIsPower(n: nat)
    requires n > 0 && PowerOfTwo(n)
    ensures PowerOfTwo(2 * n)
  {
    assert 2 * n / 2 == n;
  }

  lemma {:induction false} HasPageSize(n: nat)
    requires PowerOfTwo(n) && n >= 512
    ensures exists k: nat :: PageSize(k) == n
  {
    if n == 512 {
      assert PageSize(0) == n;
    } else {
      if n < 1024 {
        PageSizeIsPower();
        NoneBetween(n, 512);
      }
      HasPageSize(n / 2);
      var k: nat :| PageSize(k) == n / 2;
      assert PageSize(k + 1) == n;
    }
  }

  lemma {:induction false} NoneBetween(n: nat, m: nat)
    requires PowerOfTwo(n) && PowerOfTwo(m) && m <= n < 2 * m
    ensures n == m
  {
    if m > 1 { NoneBetween(n / 2, m / 2); }
  }

  lemma FourBytesRead(b: Bytes, at: nat, n: nat)
    requires at + 4 <= |b| && n < 0x1_0000_0000
    ensures U32(b, at) == n <==> b[at..at + 4] == FourBytes(n)
  {
    var s, t := b[at..at + 4], FourBytes(n);
    assert U32(b, at) == U32(s, 0);
    if U32(s, 0) == n {
      U32Determines(s, t, 0);
      assert s[0..4] == s && t[0..4] == t;
    }
  }

  /** A certified image, by its bytes: the magic number, version 9, a page size of which the file is a
      multiple, not encrypted, and a metadata page of type 9. */
  lemma CertifiedExactly(image: Bytes)
    ensures Certified(image) <==>
      && |image| >= 512
      && image[12..16] == FourBytes(0x00053162) && image[16..20] == FourBytes(9) && image[24..26] == [0, 9]
      && exists k :: PagesOfSize(image, k)
  {
    hide FourBytes, U32, PowerOfTwo;
    if |image| >= 512 {
      FourBytesRead(image, 12, 0x00053162);
      FourBytesRead(image, 16, 9);
      assert image[24..26] == [image[24], image[25]];
      SizeExactly(image);
    }
  }

  lemma SizeExactly(image: Bytes)
    requires |image| >= 24
    ensures (exists k :: PagesOfSize(image, k)) <==>
      U32(image, 20) >= 512 && PowerOfTwo(U32(image, 20)) && |image| % U32(image, 20) == 0
  {
    hide FourBytes, U32, PowerOfTwo, PageSize;
    var n := U32(image, 20);
    U32Bound(image, 20);
    FourBytesRead(image, 20, n);
    if n >= 512 && PowerOfTwo(n) && |image| % n == 0 {
      PageSizesExactly(n);
      var k: nat :| PageSize(k) == n;
      assert PagesOfSize(image, k);
    }
    if k :| PagesOfSize(image, k) {
      FourBytesRead(image, 20, PageSize(k));
      PageSizeIsPowerOfTwo(k);
    }
  }

  /** The page size is that of the metadata page and divides the file. */
  predicate PagesOfSize(image: Bytes, k: nat) {
    && PageSize(k) < 0x1_0000_0000 && PageSize(k) > 0
    && |image| >= 24 && image[20..24] == FourBytes(PageSize(k)) && |image| % PageSize(k) == 0
  }

  /** A page can be read exactly when it is a page of the file, not the first, and names itself. */
  lemma ReadableExactly(p: Pages, n: nat)
    requires n < 0x1_0000_0000
    ensures Readable(p, n) <==>
      n > 0 && n < Count(p) && |Data(p, n)| >= 12 && Data(p, n)[8..12] == FourBytes(n)
  {
    hide FourBytes, U32, Data, Count;
    if n < Count(p) { FourBytesRead(Data(p, n), 8, n); }
  }

  /** An offset in the table of `n` offsets of a page, pointing behind the table and before the last three
      bytes. */
  predicate Listed(data: Bytes, n: nat, i: nat, offset: nat) {
    && 26 + 2 * i + 2 <= |data| && data[26 + 2 * i..26 + 2 * i + 2] == TwoBytes(offset)
    && 26 + 2 * n <= offset < |data| - 3
  }

  /** The offset table of a page, by its bytes. */
  lemma ItemsExactly(data: Bytes, offsets: seq<nat>)
    requires 512 <= |data| <= 0x1_0000
    ensures var n := data[20] as int + 0x100 * data[21] as int;
      && (Items(data) == Raised <==> 26 + 2 * n > |data|)
      && (Items(data) == Ok(offsets) <==>
            26 + 2 * n <= |data| && |offsets| == n && forall i :: 0 <= i < n ==> Listed(data, n, i, offsets[i]))
  {
    var n := U16(data, 20);
    if 26 + 2 * n <= |data| && |offsets| == n {
      var entries := Entries(data, n);
      forall i | 0 <= i < n
        ensures Listed(data, n, i, offsets[i]) <==> entries[i] == offsets[i] && 26 + 2 * n <= offsets[i] < |data| - 3
      {
        TwoBytesRead(data, 26 + 2 * i, offsets[i]);
        U16Bound(data, 26 + 2 * i);
      }
      hide Listed;
      if forall i :: 0 <= i < n ==> Listed(data, n, i, offsets[i]) { assert entries == offsets; }
    }
  }

  lemma TwoBytesRead(b: Bytes, at: nat, n: nat)
    requires at + 2 <= |b|
    ensures n < 0x1_0000 ==> (U16(b, at) == n <==> b[at..at + 2] == TwoBytes(n))
  {
  }

  /** A leaf of one plain pair. */
  function OnePair(f: Frame, key: Bytes, data: Bytes): Page {
    Leaves(f, [Pair(Item(1, false, key), Item(1, false, data))])
  }

  /** A root page above two leaves of one pair each. */
  function TwoLeaves(f: Frame, meta: Meta, k: Bytes, r: Bytes, l: Bytes, s: Bytes): Database {
    Database(512, meta, 1, [
      Branch(f, [Link(2, 0, 1, 0, []), Link(3, 0, 1, 0, l)]), OnePair(f, k, r), OnePair(f, l, s)])
  }

  lemma TwoLeavesFit(f: Frame, meta: Meta, k: Bytes, r: Bytes, l: Bytes, s: Bytes)
    requires FrameFits(f) && |meta.head| == 12 && |meta.middle| == 62 && |meta.tail| == 420
    requires |k| <= 100 && |r| <= 100 && |l| <= 100 && |s| <= 100
    ensures Fits(TwoLeaves(f, meta, k, r, l, s))
  {
    hide FrameFits, PowerOfTwo, PageFits;
    PageSizeIsPower();
    RootFits(f, l);
    LeafFits(f, k, r);
    LeafFits(f, l, s);
  }

  lemma TwoLeavesTree(d: Database, f: Frame, meta: Meta, k: Bytes, r: Bytes, l: Bytes, s: Bytes)
    requires d == TwoLeaves(f, meta, k, r, l, s)
    ensures var t := InnerPage(1, [LeafPage(2), LeafPage(3)]);
      Linked(d, t) && LiveData(d, t) == [r, s] && Distinct(PagesOf(t))
  {
    var a, b := LeafPage(2), LeafPage(3);
    assert Linked(d, a) && Linked(d, b);
    OneLive(Pair(Item(1, false, k), Item(1, false, r)));
    OneLive(Pair(Item(1, false, l), Item(1, false, s)));
    TwoTrees(d, a, b);
  }

  lemma TwoTrees(d: Database, a: Tree, b: Tree)
    requires Linked(d, a) && Linked(d, b)
    ensures LiveDataAll(d, [a, b]) == LiveData(d, a) + LiveData(d, b)
    ensures PagesOfAll([a, b]) == PagesOf(a) + PagesOf(b)
  {
    hide Linked, LiveData, PagesOf;
    assert [a, b][..1] == [a] && [a][..0] == [];
    assert PagesOfAll([a]) == PagesOfAll([]) + PagesOf(a) == PagesOf(a);
    assert LiveDataAll(d, [a]) == LiveDataAll(d, []) + LiveData(d, a) == LiveData(d, a);
  }

  /** For example, such a database is read to both its data items. */
  lemma TwoLeavesAreRead(f: Frame, meta: Meta, k: Bytes, r: Bytes, l: Bytes, s: Bytes)
    requires FrameFits(f) && |meta.head| == 12 && |meta.middle| == 62 && |meta.tail| == 420
    requires |k| <= 100 && |r| <= 100 && |l| <= 100 && |s| <= 100
    ensures Read(Written(TwoLeaves(f, meta, k, r, l, s))) == Ok([r, s])
  {
    hide Fits, FrameFits, Linked, Written, Read, Holds, Distinct;
    var d := TwoLeaves(f, meta, k, r, l, s);
    TwoLeavesFit(f, meta, k, r, l, s);
    TwoLeavesTree(d, f, meta, k, r, l, s);
    WrittenIsRead(d);
    assert Stores(d, InnerPage(1, [LeafPage(2), LeafPage(3)]), [r, s]);
  }

  lemma OneLive(p: Pair)
    ensures LiveOf([p]) == if p.Live() then [p.data.bytes] else []
  {
    assert [p][..0] == [];
  }

  lemma PaddedLength(b: Bytes)
    ensures |b| <= |Padded(b)| <= |b| + 3
  {
  }

  lemma TwoItems(a: Bytes, b: Bytes)
    ensures |Heap([a, b])| == |a| + |b|
  {
    assert [a, b][..1] == [a] && [a][..0] == [];
    assert Heap([a]) == a + Heap([]) && Heap([a, b]) == b + Heap([a]);
  }

  lemma LeafFits(f: Frame, key: Bytes, data: Bytes)
    requires FrameFits(f) && |key| <= 100 && |data| <= 100
    ensures PageFits(OnePair(f, key, data), 512)
  {
    hide FrameFits, Heap, TwoBytes, Padded;
    var k, d := Item(1, false, key), Item(1, false, data);
    assert [Pair(k, d)][..0] == [];
    assert PairItems([Pair(k, d)]) == [ItemBytes(k), ItemBytes(d)];
    PaddedLength(TwoBytes(|key|) + [1] + key);
    PaddedLength(TwoBytes(|data|) + [1] + data);
    TwoItems(ItemBytes(k), ItemBytes(d));
  }

  lemma RootFits(f: Frame, key: Bytes)
    requires FrameFits(f) && |key| <= 100
    ensures PageFits(Branch(f, [Link(2, 0, 1, 0, []), Link(3, 0, 1, 0, key)]), 512)
  {
    hide FrameFits, Heap, TwoBytes, FourBytes, Padded;
    var a, b := Link(2, 0, 1, 0, []), Link(3, 0, 1, 0, key);
    assert PageItems(Branch(f, [a, b])) == [LinkBytes(a), LinkBytes(b)];
    PaddedLength(TwoBytes(0) + [1, 0] + FourBytes(2) + FourBytes(0) + []);
    PaddedLength(TwoBytes(|key|) + [1, 0] + FourBytes(3) + FourBytes(0) + key);
    TwoItems(LinkBytes(a), LinkBytes(b));
  }
}
