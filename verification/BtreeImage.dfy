/** `bdb_btree_records` of engine/comparators/indexed_records.py: the data items of a Berkeley DB
    B-tree image, read page by page. */
module BtreeImage {
  import opened Bytes

  /** `Unreadable` is the source's `UnreadableImage`, which its caller catches.  `Raised` is any other
      Python exception: the `struct.error` of a page whose own numbers point past its end, or the
      `UnicodeDecodeError` of an emulation file that is not UTF-8. */
  datatype Outcome<+T> = Ok(value: T) | Unreadable | Raised {
    predicate IsFailure() { !Ok? }

    function PropagateFailure<U>(): Outcome<U>
      requires IsFailure()
    {
      if Unreadable? then Unreadable else Raised
    }

    function Extract(): T
      requires Ok?
    {
      value
    }
  }

  const HEADER := 26
  const INTERNAL := 3
  const LEAF := 5
  const KEYDATA := 1
  const DELETED := 0x80

  // ---- what a page holds ----

  predicate PowerOfTwo(n: nat) {
    n == 1 || (n > 1 && n % 2 == 0 && PowerOfTwo(n / 2))
  }

  /** The certified metadata page. */
  predicate Certified(image: Bytes) {
    && |image| >= 512
    && U32(image, 12) == 0x00053162 && U32(image, 16) == 9
    && U32(image, 20) >= 512 && PowerOfTwo(U32(image, 20)) && |image| % U32(image, 20) == 0
    && image[24] == 0 && image[25] == 9
  }

  datatype PageFile = PageFile(image: Bytes, size: nat)

  predicate WholePages(p: PageFile) { p.size >= 512 && |p.image| % p.size == 0 }

  type Pages = p: PageFile | WholePages(p) witness PageFile([], 512)

  function Count(p: Pages): nat { |p.image| / p.size }

  lemma PageInside(p: Pages, n: nat)
    requires n < Count(p)
    ensures n * p.size + p.size <= |p.image|
  {
    var count := Count(p);
    assert count * p.size == |p.image|;
    hide Count, WholePages;
    ProductMonotone(n + 1, count, p.size);
  }

  lemma ProductMonotone(a: int, b: int, c: int)
    requires a <= b && c >= 0
    ensures a * c <= b * c && a * c == (a - 1) * c + c
  {
    assert (b - a) * c >= 0;
  }

  function Data(p: Pages, n: nat): (data: Bytes)
    requires n < Count(p)
    ensures |data| == p.size >= 512
  {
    PageInside(p, n);
    p.image[n * p.size..n * p.size + p.size]
  }

  /** `page(n)` succeeds: the page lies in the file and names itself. */
  predicate Readable(p: Pages, n: nat) {
    0 < n < Count(p) && U32(Data(p, n), 8) == n
  }

  /** The first `n` entries of the offset table. */
  function Entries(data: Bytes, n: nat): (r: seq<nat>)
    requires HEADER + 2 * n <= |data|
    ensures |r| == n
  {
    seq(n, i requires 0 <= i < n => U16(data, HEADER + 2 * i))
  }

  /** `items`: the item offsets of a page. */
  function Items(data: Bytes): (r: Outcome<seq<nat>>)
    requires |data| >= 512
    ensures r.Ok? ==> forall i :: 0 <= i < |r.value| ==> r.value[i] < |data| - 3
  {
    var entries := U16(data, 20);
    if HEADER + 2 * entries > |data| then Raised
    else
      var offsets := Entries(data, entries);
      if exists i :: 0 <= i < entries && !(HEADER + 2 * entries <= offsets[i] < |data| - 3) then Unreadable
      else Ok(offsets)
  }

  predicate IsDeleted(itemType: Byte) { itemType / DELETED == 1 }

  /** The records of the first `k` key/data pairs of a leaf: deleted pairs hold none, and any other
      pair must be two plain items that end inside the page. */
  function LeafRecords(data: Bytes, offsets: seq<nat>, k: nat): Outcome<seq<Bytes>>
    requires 2 * k <= |offsets| && forall i :: 0 <= i < |offsets| ==> offsets[i] + 3 < |data|
  {
    if k == 0 then Ok([])
    else
      var records :- LeafRecords(data, offsets, k - 1);
      var keyType, dataAt := data[offsets[2 * k - 2] + 2], offsets[2 * k - 1];
      var dataType := data[dataAt + 2];
      if IsDeleted(keyType) || IsDeleted(dataType) then Ok(records)
      else if keyType != KEYDATA || dataType != KEYDATA then Unreadable
      else if dataAt + 3 + U16(data, dataAt) > |data| then Unreadable
      else Ok(records + [data[dataAt + 3..dataAt + 3 + U16(data, dataAt)]])
  }

  /** A whole leaf page. */
  function Leaf(data: Bytes): Outcome<seq<Bytes>>
    requires |data| >= 512
  {
    var offsets :- Items(data);
    if |offsets| % 2 == 1 then Unreadable else LeafRecords(data, offsets, |offsets| / 2)
  }

  // ---- trees of pages ----

  datatype Tree = LeafPage(page: nat) | InnerPage(page: nat, children: seq<Tree>)

  /** The pages of the image from `t.page` down are laid out as `t`. */
  ghost predicate Represents(p: Pages, t: Tree)
  {
    Readable(p, t.page) &&
    match t
    case LeafPage(n) => Data(p, n)[25] == LEAF && Leaf(Data(p, n)).Ok?
    case InnerPage(n, children) =>
      && Data(p, n)[25] == INTERNAL && Items(Data(p, n)).Ok?
      && |children| == |Items(Data(p, n)).value|
      && forall i :: 0 <= i < |children| ==>
         ChildAt(Data(p, n), i) == Ok(children[i].page) && Represents(p, children[i])
  }

  /** The child page named by the `i`-th item of an internal page. */
  function ChildAt(data: Bytes, i: nat): Outcome<nat>
    requires |data| >= 512 && Items(data).Ok? && i < |Items(data).value|
  {
    var at := Items(data).value[i] + 4;
    if at + 4 > |data| then Raised else Ok(U32(data, at))
  }

  /** Every page of the tree, root first. */
  ghost function PagesOf(t: Tree): seq<nat> {
    match t
    case LeafPage(n) => [n]
    case InnerPage(n, children) => [n] + PagesOfAll(children)
  }

  ghost function PagesOfAll(ts: seq<Tree>): seq<nat> {
    if ts == [] then [] else PagesOfAll(ts[..|ts| - 1]) + PagesOf(ts[|ts| - 1])
  }

  /** The live data items of the tree, in key order. */
  ghost function Flatten(p: Pages, t: Tree): seq<Bytes> {
    match t
    case LeafPage(n) => if n < Count(p) && Leaf(Data(p, n)).Ok? then Leaf(Data(p, n)).value else []
    case InnerPage(_, children) => FlattenAll(p, children)
  }

  ghost function FlattenAll(p: Pages, ts: seq<Tree>): seq<Bytes> {
    if ts == [] then [] else FlattenAll(p, ts[..|ts| - 1]) + Flatten(p, ts[|ts| - 1])
  }

  ghost predicate Distinct(s: seq<nat>) {
    forall i, j :: 0 <= i < j < |s| ==> s[i] != s[j]
  }

  /** The records of an image: those of the tree of distinct pages under its root. */
  ghost predicate Holds(image: Bytes, records: seq<Bytes>) {
    Certified(image) &&
    var p: Pages := PageFile(image, U32(image, 20));
    exists t :: Represents(p, t) && t.page == U32(image, 88) && Distinct(PagesOf(t)) && records == Flatten(p, t)
  }

  /** An image has at most one page tree. */
  lemma {:induction false} TreeIsUnique(p: Pages, t: Tree, u: Tree)
    requires Represents(p, t) && Represents(p, u) && t.page == u.page
    ensures t == u
  {
    if t.InnerPage? {
      forall i | 0 <= i < |t.children| ensures t.children[i] == u.children[i] {
        TreeIsUnique(p, t.children[i], u.children[i]);
      }
    }
  }

  // ---- the walk as a function ----

  function PageNumbers(n: nat): (r: set<nat>)
    ensures forall i: nat :: i in r <==> i < n
  {
    if n == 0 then {} else PageNumbers(n - 1) + {n - 1}
  }

  /** The pages reached and the records met. */
  datatype Trail = Trail(seen: set<nat>, records: seq<Bytes>)

  /** `walk(number)` with the pages `seen` reached before: what it adds, or how it fails. */
  function WalkFrom(p: Pages, number: nat, seen: set<nat>): (r: Outcome<Trail>)
    ensures r.Ok? ==> seen <= r.value.seen
    decreases PageNumbers(Count(p)) - seen, 0, 0
  {
    if number in seen || !Readable(p, number) then Unreadable
    else
      var data := Data(p, number);
      assert number in PageNumbers(Count(p)) - seen;
      if data[25] == INTERNAL then
        WalkPage(p, data, seen + {number})
      else if data[25] != LEAF then Unreadable
      else
        var records :- Leaf(data);
        Ok(Trail(seen + {number}, records))
  }

  /** The internal-page loop. */
  function WalkPage(p: Pages, data: Bytes, seen: set<nat>): (r: Outcome<Trail>)
    requires |data| >= 512
    ensures r.Ok? ==> seen <= r.value.seen
    decreases PageNumbers(Count(p)) - seen, 2
  {
    var offsets :- Items(data);
    WalkItems(p, data, |offsets|, seen)
  }

  /** Its first `n` turns. */
  function WalkItems(p: Pages, data: Bytes, n: nat, seen: set<nat>): (r: Outcome<Trail>)
    requires |data| >= 512 && Items(data).Ok? && n <= |Items(data).value|
    ensures r.Ok? ==> seen <= r.value.seen
    decreases PageNumbers(Count(p)) - seen, 1, n
  {
    if n == 0 then Ok(Trail(seen, []))
    else
      var before :- WalkItems(p, data, n - 1, seen);
      var child :- ChildAt(data, n - 1);
      assert PageNumbers(Count(p)) - before.seen <= PageNumbers(Count(p)) - seen;
      var below :- WalkFrom(p, child, before.seen);
      Ok(Trail(below.seen, before.records + below.records))
  }

  /** `bdb_btree_records` as a function. */
  function Read(image: Bytes): Outcome<seq<Bytes>> {
    if !Certified(image) then Unreadable
    else
      var trail :- WalkFrom(PageFile(image, U32(image, 20)), U32(image, 88), {});
      Ok(trail.records)
  }

  // ---- the walk succeeds on trees ----

  ghost function SetOf(s: seq<nat>): set<nat> { set x | x in s }

  lemma DistinctAppend(s: seq<nat>, t: seq<nat>)
    ensures Distinct(s + t) <==> Distinct(s) && Distinct(t) && SetOf(s) !! SetOf(t)
    ensures SetOf(s + t) == SetOf(s) + SetOf(t)
  {
    var u := s + t;
    assert forall i :: 0 <= i < |s| ==> u[i] == s[i];
    assert forall i :: 0 <= i < |t| ==> u[|s| + i] == t[i];
    if Distinct(u) {
      forall i, j | 0 <= i < |s| && 0 <= j < |t| ensures s[i] != t[j] { assert u[i] != u[|s| + j]; }
      assert SetOf(s) !! SetOf(t);
    }
    if Distinct(s) && Distinct(t) && SetOf(s) !! SetOf(t) {
      forall i, j | 0 <= i < j < |u| ensures u[i] != u[j] {
        if i < |s| <= j { assert s[i] in SetOf(s) && t[j - |s|] in SetOf(t); }
      }
    }
  }

  /** A tree of pages that are different from each other and not seen before. */
  ghost predicate Fresh(t: Tree, seen: set<nat>) {
    Distinct(PagesOf(t)) && SetOf(PagesOf(t)) !! seen
  }

  /** The first children of a page. */
  ghost predicate Children(p: Pages, data: Bytes, ts: seq<Tree>)
    requires |data| >= 512
  {
    && Items(data).Ok? && |ts| <= |Items(data).value|
    && forall i :: 0 <= i < |ts| ==> ChildAt(data, i) == Ok(ts[i].page) && Represents(p, ts[i])
  }

  ghost predicate FreshAll(ts: seq<Tree>, seen: set<nat>) {
    Distinct(PagesOfAll(ts)) && SetOf(PagesOfAll(ts)) !! seen
  }

  lemma LastTree(p: Pages, ts: seq<Tree>, t: Tree, seen: set<nat>)
    ensures FreshAll(ts + [t], seen) <==> FreshAll(ts, seen) && Fresh(t, seen + SetOf(PagesOfAll(ts)))
    ensures SetOf(PagesOfAll(ts + [t])) == SetOf(PagesOfAll(ts)) + SetOf(PagesOf(t))
    ensures FlattenAll(p, ts + [t]) == FlattenAll(p, ts) + Flatten(p, t)
  {
    assert (ts + [t])[..|ts|] == ts;
    DistinctAppend(PagesOfAll(ts), PagesOf(t));
  }

  lemma FreshInner(n: nat, children: seq<Tree>, seen: set<nat>)
    ensures Fresh(InnerPage(n, children), seen) <==> n !in seen && FreshAll(children, seen + {n})
    ensures SetOf(PagesOf(InnerPage(n, children))) == {n} + SetOf(PagesOfAll(children))
  {
    DistinctAppend([n], PagesOfAll(children));
    assert n in [n] && SetOf([n]) == {n} && Distinct([n]);
    var below := SetOf(PagesOfAll(children));
    assert ({n} + below) !! seen <==> n !in seen && below !! seen;
    assert below !! (seen + {n}) <==> below !! seen && {n} !! below;
  }

  lemma FreshLeaf(n: nat, seen: set<nat>)
    ensures Fresh(LeafPage(n), seen) <==> n !in seen
    ensures SetOf(PagesOf(LeafPage(n))) == {n}
  {
    assert n in [n];
  }

  ghost function TrailOf(p: Pages, t: Tree, seen: set<nat>): Trail {
    Trail(seen + SetOf(PagesOf(t)), Flatten(p, t))
  }

  ghost function TrailOfAll(p: Pages, ts: seq<Tree>, seen: set<nat>): Trail {
    Trail(seen + SetOf(PagesOfAll(ts)), FlattenAll(p, ts))
  }

  /** A tree of unseen pages is walked to its end. */
  lemma {:induction false} TreeIsWalked(p: Pages, t: Tree, seen: set<nat>)
    requires Represents(p, t) && Fresh(t, seen)
    ensures WalkFrom(p, t.page, seen) == Ok(TrailOf(p, t, seen))
    decreases t
  {
    hide Items, Leaf, ChildAt, Data, Distinct, PageNumbers;
    match t
    case LeafPage(n) =>
      FreshLeaf(n, seen);
    case InnerPage(n, children) =>
      FreshInner(n, children, seen);
      TreesAreWalked(p, Data(p, n), children, seen + {n});
      assert seen + {n} + SetOf(PagesOfAll(children)) == seen + ({n} + SetOf(PagesOfAll(children)));
  }

  lemma {:induction false} TreesAreWalked(p: Pages, data: Bytes, ts: seq<Tree>, seen: set<nat>)
    requires |data| >= 512 && Children(p, data, ts) && FreshAll(ts, seen)
    ensures WalkItems(p, data, |ts|, seen) == Ok(TrailOfAll(p, ts, seen))
    decreases ts
  {
    hide Items, ChildAt, Distinct, PageNumbers, Fresh, FreshAll, WalkFrom, SetOf, Represents;
    if ts == [] {
      NoTrees(p, seen);
    } else {
      var k := |ts| - 1;
      assert ts == ts[..k] + [ts[k]];
      LastTree(p, ts[..k], ts[k], seen);
      TreesAreWalked(p, data, ts[..k], seen);
      var before := seen + SetOf(PagesOfAll(ts[..k]));
      TreeIsWalked(p, ts[k], before);
      assert before + SetOf(PagesOf(ts[k])) == seen + (SetOf(PagesOfAll(ts[..k])) + SetOf(PagesOf(ts[k])));
    }
  }

  lemma NoTrees(p: Pages, seen: set<nat>)
    ensures TrailOfAll(p, [], seen) == Trail(seen, []) && FreshAll([], seen)
  {
  }

  // ---- and only on trees ----

  lemma {:induction false} WalkedIsTree(p: Pages, number: nat, seen: set<nat>) returns (t: Tree)
    requires WalkFrom(p, number, seen).Ok?
    ensures Represents(p, t) && t.page == number && Fresh(t, seen)
    decreases PageNumbers(Count(p)) - seen, 0, 0
  {
    hide Items, Leaf, ChildAt, Distinct, U32;
    var data := Data(p, number);
    if data[25] == INTERNAL {
      assert number in PageNumbers(Count(p)) - seen;
      hide PageNumbers, Data, WholePages;
      var children := WalkedAreTrees(p, data, |Items(data).value|, seen + {number});
      t := InnerPage(number, children);
      FreshInner(number, children, seen);
    } else {
      t := LeafPage(number);
      FreshLeaf(number, seen);
    }
  }

  lemma {:induction false} WalkedAreTrees(p: Pages, data: Bytes, n: nat, seen: set<nat>) returns (ts: seq<Tree>)
    requires |data| >= 512 && Items(data).Ok? && n <= |Items(data).value| && WalkItems(p, data, n, seen).Ok?
    ensures |ts| == n && Children(p, data, ts) && FreshAll(ts, seen)
    decreases PageNumbers(Count(p)) - seen, 1, n
  {
    hide Items, ChildAt, Distinct, WalkFrom, Fresh, FreshAll, SetOf, Represents, PageNumbers, Count;
    ts := [];
    NoTrees(p, seen);
    if n > 0 {
      var before := WalkItems(p, data, n - 1, seen).value;
      ts := WalkedAreTrees(p, data, n - 1, seen);
      TreesAreWalked(p, data, ts, seen);
      assert PageNumbers(Count(p)) - before.seen <= PageNumbers(Count(p)) - seen;
      var t := WalkedIsTree(p, ChildAt(data, n - 1).value, before.seen);
      LastTree(p, ts, t, seen);
      ts := ts + [t];
    }
  }

  /** An image is read exactly when it holds a tree of distinct pages, and then to its records. */
  lemma ReadExactly(image: Bytes, records: seq<Bytes>)
    ensures Read(image) == Ok(records) <==> Holds(image, records)
  {
    if Certified(image) {
      var p: Pages, root := PageFile(image, U32(image, 20)), U32(image, 88);
      hide WalkFrom, U32, Certified;
      if t :| Represents(p, t) && t.page == root && Distinct(PagesOf(t)) {
        forall u | Represents(p, u) && u.page == root && Distinct(PagesOf(u)) ensures u == t { TreeIsUnique(p, t, u); }
        TreeIsWalked(p, t, {});
      }
      if WalkFrom(p, root, {}).Ok? {
        var t := WalkedIsTree(p, root, {});
        TreeIsWalked(p, t, {});
      }
    }
  }

  // ---- when the reader raises ----

  /** The way down to a page whose own numbers point past its end: its entry table (`Overflow`), or the
      page number of the child after those already walked (`Cut`). */
  datatype Stem = Overflow(page: nat) | Cut(page: nat, done: seq<Tree>) | Down(page: nat, done: seq<Tree>, next: Stem)

  /** The page is an unseen internal page, and the trees under its first items were walked. */
  ghost predicate Entered(p: Pages, n: nat, done: seq<Tree>, seen: set<nat>) {
    && n !in seen && Readable(p, n) && Data(p, n)[25] == INTERNAL
    && Children(p, Data(p, n), done) && FreshAll(done, seen + {n}) && |done| < |Items(Data(p, n)).value|
  }

  /** The walk from `s.page` takes this way and meets nothing unreadable before its end. */
  ghost predicate Breaks(p: Pages, s: Stem, seen: set<nat>)
    decreases s
  {
    match s
    case Overflow(n) =>
      n !in seen && Readable(p, n) && (Data(p, n)[25] == INTERNAL || Data(p, n)[25] == LEAF)
        && Items(Data(p, n)).Raised?
    case Cut(n, done) =>
      Entered(p, n, done, seen) && ChildAt(Data(p, n), |done|).Raised?
    case Down(n, done, next) =>
      && Entered(p, n, done, seen) && ChildAt(Data(p, n), |done|) == Ok(next.page)
      && Breaks(p, next, seen + {n} + SetOf(PagesOfAll(done)))
  }

  /** An image the reader answers with an exception its caller does not catch. */
  ghost predicate Bursts(image: Bytes) {
    Certified(image) && exists s: Stem :: s.page == U32(image, 88) && Breaks(PageFile(image, U32(image, 20)), s, {})
  }

  lemma {:induction false} LeafNeverRaises(data: Bytes, offsets: seq<nat>, k: nat)
    requires 2 * k <= |offsets| && forall i :: 0 <= i < |offsets| ==> offsets[i] + 3 < |data|
    ensures !LeafRecords(data, offsets, k).Raised?
  {
    if k > 0 { LeafNeverRaises(data, offsets, k - 1); }
  }

  /** A failed turn ends the loop as it failed. */
  lemma {:induction false} FailureStays(p: Pages, data: Bytes, k: nat, n: nat, seen: set<nat>)
    requires |data| >= 512 && Items(data).Ok? && k <= n <= |Items(data).value| && !WalkItems(p, data, k, seen).Ok?
    ensures WalkItems(p, data, n, seen) == WalkItems(p, data, k, seen)
    decreases n - k
  {
    hide Items, ChildAt, WalkFrom;
    if k < n { FailureStays(p, data, k, n - 1, seen); }
  }

  lemma {:induction false} BreakRaises(p: Pages, s: Stem, seen: set<nat>)
    requires Breaks(p, s, seen)
    ensures WalkFrom(p, s.page, seen) == Raised
    decreases s
  {
    hide Items, ChildAt, Data, Distinct, PageNumbers, FreshAll;
    if !s.Overflow? {
      var data, n := Data(p, s.page), |s.done|;
      TreesAreWalked(p, data, s.done, seen + {s.page});
      if s.Down? { BreakRaises(p, s.next, seen + {s.page} + SetOf(PagesOfAll(s.done))); }
      assert WalkItems(p, data, n + 1, seen + {s.page}) == Raised;
      FailureStays(p, data, n + 1, |Items(data).value|, seen + {s.page});
    }
  }

  lemma {:induction false} RaisedHasBreak(p: Pages, number: nat, seen: set<nat>) returns (s: Stem)
    requires WalkFrom(p, number, seen) == Raised
    ensures s.page == number && Breaks(p, s, seen)
    decreases PageNumbers(Count(p)) - seen, 0, 0
  {
    var data := Data(p, number);
    assert number in PageNumbers(Count(p)) - seen;
    if Items(data).Raised? {
      s := Overflow(number);
    } else if data[25] == INTERNAL {
      hide Items, ChildAt, Data, Distinct, PageNumbers, U32, WholePages;
      s := RaisedTurn(p, number, |Items(data).value|, seen);
    } else {
      var offsets := Items(data).value;
      LeafNeverRaises(data, offsets, |offsets| / 2);
    }
  }

  lemma {:induction false} RaisedTurn(p: Pages, number: nat, n: nat, seen: set<nat>) returns (s: Stem)
    requires number !in seen && Readable(p, number) && Data(p, number)[25] == INTERNAL
    requires Items(Data(p, number)).Ok? && n <= |Items(Data(p, number)).value|
    requires WalkItems(p, Data(p, number), n, seen + {number}) == Raised
    ensures s.page == number && Breaks(p, s, seen)
    decreases PageNumbers(Count(p)) - (seen + {number}), 1, n
  {
    hide Items, ChildAt, Distinct, WalkFrom, SetOf, PageNumbers, U32, WholePages, Data, FreshAll;
    var data, inside := Data(p, number), seen + {number};
    var before := WalkItems(p, data, n - 1, inside);
    if before == Raised {
      s := RaisedTurn(p, number, n - 1, seen);
    } else {
      var done := WalkedAreTrees(p, data, n - 1, inside);
      TreesAreWalked(p, data, done, inside);
      if ChildAt(data, n - 1).Raised? {
        s := Cut(number, done);
      } else {
        assert PageNumbers(Count(p)) - before.value.seen <= PageNumbers(Count(p)) - inside;
        var next := RaisedHasBreak(p, ChildAt(data, n - 1).value, before.value.seen);
        s := Down(number, done, next);
      }
    }
  }

  /** Malformed pages are refused as unreadable except for exactly these images, which raise. */
  lemma RaisesExactly(image: Bytes)
    ensures Read(image) == Raised <==> Bursts(image)
  {
    if Certified(image) {
      var p: Pages, root := PageFile(image, U32(image, 20)), U32(image, 88);
      hide WalkFrom, U32, Certified, Breaks;
      if s: Stem :| s.page == root && Breaks(p, s, {}) { BreakRaises(p, s, {}); }
      if WalkFrom(p, root, {}) == Raised { var s := RaisedHasBreak(p, root, {}); }
    }
  }

  // ---- the reader ----

  class BtreeReader {
    const p: Pages
    var seen: set<nat>
    var records: seq<Bytes>

    constructor (p: Pages)
      ensures this.p == p && seen == {} && records == []
    {
      this.p := p;
      seen, records := {}, [];
    }

    /** The leaf loop of `walk`. */
    method ReadLeaf(data: Bytes, offsets: seq<nat>, n: nat) returns (ok: Outcome<()>)
      requires 2 * n <= |offsets| && forall i :: 0 <= i < |offsets| ==> offsets[i] + 3 < |data|
      modifies `records
      ensures ok == Done(LeafRecords(data, offsets, n))
      ensures ok.Ok? ==> records == old(records) + LeafRecords(data, offsets, n).value
    {
      assert LeafRecords(data, offsets, 0) == Ok([]) by { NoPairs(data, offsets); }
      hide LeafRecords, U16;
      ghost var before := records;
      for k := 0 to n
        invariant LeafRecords(data, offsets, k).Ok?
        invariant records == before + LeafRecords(data, offsets, k).value
      {
        var keyType, dataAt := data[offsets[2 * k] + 2], offsets[2 * k + 1];
        var dataType := data[dataAt + 2];
        LeafStep(data, offsets, k);
        if !IsDeleted(keyType) && !IsDeleted(dataType) {
          if keyType != KEYDATA || dataType != KEYDATA || dataAt + 3 + U16(data, dataAt) > |data| {
            LeafFails(data, offsets, k + 1, n);
            return Unreadable;
          }
          records := records + [data[dataAt + 3..dataAt + 3 + U16(data, dataAt)]];
        }
      }
      return Ok(());
    }

    /** Appends the live records under a page, in key order, or fails as `WalkFrom` does. */
    method Walk(number: nat) returns (ok: Outcome<()>)
      modifies this
      ensures ok == Done(WalkFrom(p, number, old(seen)))
      ensures ok.Ok? ==> Trail(seen, records) == Added(old(records), WalkFrom(p, number, old(seen)).value)
      decreases PageNumbers(Count(p)) - seen, 1
    {
      if number in seen {
        return Unreadable;
      }
      seen := seen + {number};
      if !Readable(p, number) {
        return Unreadable;
      }
      var data := Data(p, number);
      if data[25] == INTERNAL {
        ok := WalkChildren(data);
        return;
      }
      if data[25] != LEAF {
        return Unreadable;
      }
      var offsets := Items(data);
      if !offsets.Ok? {
        return offsets.PropagateFailure();
      }
      if |offsets.value| % 2 == 1 {
        return Unreadable;
      }
      ok := ReadLeaf(data, offsets.value, |offsets.value| / 2);
    }

    /** The internal-page loop of `walk`. */
    method WalkChildren(data: Bytes) returns (ok: Outcome<()>)
      requires |data| >= 512
      modifies this
      ensures ok == Done(WalkPage(p, data, old(seen)))
      ensures ok.Ok? ==> Trail(seen, records) == Added(old(records), WalkPage(p, data, old(seen)).value)
      decreases PageNumbers(Count(p)) - seen, 2
    {
      hide Items, ChildAt, WalkFrom, PageNumbers, Count;
      var offsets := Items(data);
      if !offsets.Ok? {
        return offsets.PropagateFailure();
      }
      var n := |offsets.value|;
      for i := 0 to n
        invariant WalkItems(p, data, i, old(seen)).Ok?
        invariant Trail(seen, records) == Added(old(records), WalkItems(p, data, i, old(seen)).value)
      {
        var child := ChildAt(data, i);
        if !child.Ok? {
          FailureStays(p, data, i + 1, n, old(seen));
          return child.PropagateFailure();
        }
        assert PageNumbers(Count(p)) - seen <= PageNumbers(Count(p)) - old(seen);
        ok := Walk(child.value);
        if !ok.Ok? {
          FailureStays(p, data, i + 1, n, old(seen));
          return;
        }
      }
      return Ok(());
    }
  }

  /** How something ended, without its value. */
  function Done<T>(r: Outcome<T>): Outcome<()> {
    if r.Ok? then Ok(()) else r.PropagateFailure()
  }

  /** The state of the reader once a trail is added to the records it had. */
  function Added(records: seq<Bytes>, trail: Trail): Trail { trail.(records := records + trail.records) }

  lemma NoPairs(data: Bytes, offsets: seq<nat>)
    requires forall i :: 0 <= i < |offsets| ==> offsets[i] + 3 < |data|
    ensures LeafRecords(data, offsets, 0) == Ok([])
  {
  }

  /** One turn of the leaf loop. */
  lemma LeafStep(data: Bytes, offsets: seq<nat>, k: nat)
    requires 2 * k + 2 <= |offsets| && forall i :: 0 <= i < |offsets| ==> offsets[i] + 3 < |data|
    requires LeafRecords(data, offsets, k).Ok?
    ensures var keyType, dataAt := data[offsets[2 * k] + 2], offsets[2 * k + 1]; var dataType := data[dataAt + 2];
      LeafRecords(data, offsets, k + 1) ==
        if IsDeleted(keyType) || IsDeleted(dataType) then LeafRecords(data, offsets, k)
        else if keyType != KEYDATA || dataType != KEYDATA || dataAt + 3 + U16(data, dataAt) > |data| then Unreadable
        else Ok(LeafRecords(data, offsets, k).value + [data[dataAt + 3..dataAt + 3 + U16(data, dataAt)]])
  {
  }

  lemma {:induction false} LeafFails(data: Bytes, offsets: seq<nat>, k: nat, n: nat)
    requires k <= n && 2 * n <= |offsets| && forall i :: 0 <= i < |offsets| ==> offsets[i] + 3 < |data|
    requires !LeafRecords(data, offsets, k).Ok?
    ensures LeafRecords(data, offsets, n) == LeafRecords(data, offsets, k)
    decreases n - k
  {
    if k < n {
      LeafFails(data, offsets, k, n - 1);
    }
  }

  /** `bdb_btree_records`: an image that holds a tree of distinct pages of plain or deleted items gives
      its live items in key order; one that bursts raises, and every other image is unreadable. */
  method BdbBtreeRecords(image: Bytes) returns (r: Outcome<seq<Bytes>>)
    ensures forall records :: r == Ok(records) <==> Holds(image, records)
    ensures r == Raised <==> Bursts(image)
    ensures r == Unreadable <==> !Bursts(image) && !exists records :: Holds(image, records)
  {
    hide WalkFrom, Holds, Bursts, U32, PowerOfTwo, PageNumbers;
    RaisesExactly(image);
    forall records ensures Read(image) == Ok(records) <==> Holds(image, records) { ReadExactly(image, records); }
    if !Certified(image) {
      return Unreadable;
    }
    var reader := new BtreeReader(PageFile(image, U32(image, 20)));
    var ok := reader.Walk(U32(image, 88));
    if !ok.Ok? {
      return ok.PropagateFailure();
    }
    assert [] + Read(image).value == Read(image).value;
    return Ok(reader.records);
  }

  /** A certified file of two pages of 512 bytes: its metadata, and a root page of the given type, entry
      count and first entry. */
  function TwoPages(pageType: Byte, entries: nat, first: nat): Bytes
    requires entries < 0x1_0000 && first < 0x1_0000
  {
    seq(1024, k =>
      if k == 12 then 0x62 else if k == 13 then 0x31 else if k == 14 then 0x05
      else if k == 16 then 9 else if k == 21 then 2 else if k == 25 then 9 else if k == 88 then 1
      else if k == 520 then 1 else if k == 532 then entries % 0x100 else if k == 533 then entries / 0x100
      else if k == 537 then pageType
      else if k == 538 then first % 0x100 else if k == 539 then first / 0x100
      else 0)
  }

  lemma PageSizeIsPower()
    ensures PowerOfTwo(512)
  {
    assert PowerOfTwo(4) && PowerOfTwo(16) && PowerOfTwo(64) && PowerOfTwo(256);
  }

  lemma TwoPagesCertified(pageType: Byte, entries: nat, first: nat)
    requires entries < 0x1_0000 && first < 0x1_0000
    ensures var image := TwoPages(pageType, entries, first);
      Certified(image) && U32(image, 20) == 512 && U32(image, 88) == 1 && WholePages(PageFile(image, 512))
  {
    hide PowerOfTwo;
    PageSizeIsPower();
    var image := TwoPages(pageType, entries, first);
    assert U32(image, 12) == 0x00053162 && U32(image, 16) == 9 && U32(image, 20) == 512 && U32(image, 88) == 1;
  }

  lemma TwoPagesRoot(pageType: Byte, entries: nat, first: nat)
    requires entries < 0x1_0000 && first < 0x1_0000
    ensures var data := TwoPages(pageType, entries, first)[512..1024];
      U32(data, 8) == 1 && data[25] == pageType && U16(data, 20) == entries && U16(data, HEADER) == first
  {
    var data := TwoPages(pageType, entries, first)[512..1024];
    assert data[8] == 1 && data[9] == 0 && data[10] == 0 && data[11] == 0 && data[20] == entries % 0x100
      && data[21] == entries / 0x100;
    assert data[25] == pageType && data[26] == first % 0x100 && data[27] == first / 0x100;
  }

  lemma TwoPagesRead(pageType: Byte, entries: nat, first: nat)
    requires entries < 0x1_0000 && first < 0x1_0000
    ensures var image := TwoPages(pageType, entries, first); var p: PageFile := PageFile(image, 512);
      && Certified(image) && U32(image, 20) == 512 && U32(image, 88) == 1 && WholePages(p) && Readable(p, 1)
      && Data(p, 1)[25] == pageType && U16(Data(p, 1), 20) == entries && U16(Data(p, 1), HEADER) == first
  {
    hide TwoPages, U32, U16, Certified;
    TwoPagesCertified(pageType, entries, first);
    TwoPagesRoot(pageType, entries, first);
    var image := TwoPages(pageType, entries, first);
    assert |image| == 1024 by { TwoPagesLength(pageType, entries, first); }
    assert Data(PageFile(image, 512), 1) == image[512..1024];
  }

  lemma TwoPagesLength(pageType: Byte, entries: nat, first: nat)
    requires entries < 0x1_0000 && first < 0x1_0000
    ensures |TwoPages(pageType, entries, first)| == 1024
  {
  }

  /** Malformed pages are not always refused as unreadable: an entry count that runs past its page and
      an item of an internal page less than eight bytes before the end raise. */
  lemma MalformedPagesRaise()
    ensures Read(TwoPages(LEAF, 0xFFFF, 0)) == Raised && Read(TwoPages(INTERNAL, 1, 506)) == Raised
  {
    hide Certified, U32, Readable, Data, TwoPages, Breaks;
    TwoPagesRead(LEAF, 0xFFFF, 0);
    RaisesExactly(TwoPages(LEAF, 0xFFFF, 0));
    EntriesOverflow(PageFile(TwoPages(LEAF, 0xFFFF, 0), 512));
    TwoPagesRead(INTERNAL, 1, 506);
    RaisesExactly(TwoPages(INTERNAL, 1, 506));
    ItemCut(PageFile(TwoPages(INTERNAL, 1, 506), 512));
  }

  lemma EntriesOverflow(p: Pages)
    requires Readable(p, 1) && Data(p, 1)[25] == LEAF && U16(Data(p, 1), 20) == 0xFFFF && p.size == 512
    ensures Breaks(p, Overflow(1), {})
  {
    hide U16, Readable, Data;
  }

  lemma ItemCut(p: Pages)
    requires Readable(p, 1) && Data(p, 1)[25] == INTERNAL && U16(Data(p, 1), 20) == 1
      && U16(Data(p, 1), HEADER) == 506 && p.size == 512
    ensures Breaks(p, Cut(1, []), {})
  {
    hide U16, Readable, Data;
    NoTrees(p, {1});
  }
}
