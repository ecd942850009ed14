/** `gnucobol_relative_records` of engine/comparators/indexed_records.py.  The image does not state
    its record length, so the reader infers it and refuses an image that fits several. */
module RelativeImage {
  import opened Bytes
  import opened BtreeImage
  import opened CanonicalRecords

  /** The size field of every slot. */
  function Sizes(image: Bytes, slot: nat): seq<nat>
    requires slot >= 8
  {
    if |image| < slot then [] else [U64(image, 0)] + Sizes(image[slot..], slot)
  }

  /** The live slots, numbered from `rrn`. */
  function LiveSlots(image: Bytes, slot: nat, rrn: nat): seq<Slot>
    requires slot >= 8
  {
    if |image| < slot then []
    else
      var size := U64(image, 0);
      (if size == 0 || 8 + size > slot then [] else [(rrn, image[8..8 + size])]) +
        LiveSlots(image[slot..], slot, rrn + 1)
  }

  /** `length` is a record length the image can have been written with. */
  predicate Fits(image: Bytes, length: nat) {
    && 1 <= length && length + 8 <= |image| && WholeSlots(|image|, 8 + length)
    && SizesFit(Sizes(image, 8 + length), length)
  }

  predicate SizesFit(sizes: seq<nat>, length: nat) {
    length in sizes && forall i :: 0 <= i < |sizes| ==> sizes[i] == 0 || sizes[i] == length
  }

  predicate WholeSlots(n: int, slot: nat) { slot > 0 && n % slot == 0 }

  /** Taking one slot off a whole number of slots leaves a whole number of slots. */
  lemma OneSlot(n: nat, slot: nat)
    requires 0 < n && WholeSlots(n, slot)
    ensures n >= slot && WholeSlots(n - slot, slot)
  {
    ModStep(n, slot);
  }

  lemma ModStep(n: nat, slot: nat)
    requires 0 < slot <= n
    ensures (n - slot) % slot == n % slot
  {
    var m := n - slot;
    assert n == slot * (n / slot) + n % slot && m == slot * (m / slot) + m % slot;
    var d: int, r: int := n / slot - m / slot - 1, m % slot - n % slot;
    SmallMultiple(slot, d, r);
  }

  lemma SmallMultiple(slot: int, d: int, r: int)
    requires slot > 0 && slot * d == r && -slot < r < slot
    ensures r == 0
  {
    assert d >= 1 ==> slot * d >= slot;
    assert d <= -1 ==> slot * d <= -1 * slot;
  }

  /** The inner loop: the size fields of one candidate layout. */
  method ReadSizes(image: Bytes, slot: nat) returns (sizes: seq<nat>)
    requires slot >= 8 && WholeSlots(|image|, slot)
    ensures sizes == Sizes(image, slot)
  {
    hide WholeSlots, U64;
    sizes := [];
    var at := 0;
    assert image[0..] == image;
    while at < |image|
      invariant 0 <= at <= |image| && WholeSlots(|image| - at, slot)
      invariant sizes + Sizes(image[at..], slot) == Sizes(image, slot)
    {
      OneSlot(|image| - at, slot);
      SizeStep(image, at, slot);
      sizes := sizes + [U64(image, at)];
      at := at + slot;
    }
  }

  lemma SizeStep(image: Bytes, at: nat, slot: nat)
    requires slot >= 8 && at + slot <= |image|
    ensures U64(image[at..], 0) == U64(image, at)
    ensures Sizes(image[at..], slot) == [U64(image, at)] + Sizes(image[at + slot..], slot)
  {
    assert image[at..][slot..] == image[at + slot..];
  }

  /** The comprehension that returns the live slots of the chosen layout. */
  method ReadLive(image: Bytes, slot: nat, sizes: seq<nat>) returns (r: seq<Slot>)
    requires slot >= 8 && WholeSlots(|image|, slot) && sizes == Sizes(image, slot) && SizesFit(sizes, slot - 8)
    ensures r == LiveSlots(image, slot, 1)
  {
    hide WholeSlots, U64, Sizes, LiveSlots;
    r := [];
    var at := 0;
    assert image[0..] == image;
    for index := 0 to |sizes|
      invariant at <= |image| && WholeSlots(|image| - at, slot)
      invariant sizes[index..] == Sizes(image[at..], slot)
      invariant r + LiveSlots(image[at..], slot, index + 1) == LiveSlots(image, slot, 1)
    {
      SlotsLeft(image[at..], slot, index + 1);
      OneSlot(|image| - at, slot);
      SizeStep(image, at, slot);
      assert sizes[index..] == [sizes[index]] + sizes[index + 1..];
      LiveStep(image, at, slot, index + 1);
      if sizes[index] != 0 {
        r := r + [(index + 1, image[at + 8..at + 8 + sizes[index]])];
      }
      at := at + slot;
    }
    SlotsLeft(image[at..], slot, |sizes| + 1);
  }

  lemma SlotsLeft(rest: Bytes, slot: nat, rrn: nat)
    requires slot >= 8
    ensures Sizes(rest, slot) != [] ==> |rest| >= slot
    ensures Sizes(rest, slot) == [] ==> LiveSlots(rest, slot, rrn) == []
  {
  }

  lemma LiveStep(image: Bytes, at: nat, slot: nat, rrn: nat)
    requires slot >= 8 && at + slot <= |image|
    requires var size := U64(image[at..], 0); size == 0 || 8 + size == slot
    ensures var size := U64(image[at..], 0);
      LiveSlots(image[at..], slot, rrn) ==
        (if size == 0 then [] else [(rrn, image[at + 8..at + 8 + size])]) + LiveSlots(image[at + slot..], slot, rrn + 1)
  {
    hide U64;
    assert image[at..][slot..] == image[at + slot..];
    var size := U64(image[at..], 0);
    assert size != 0 ==> image[at..][8..8 + size] == image[at + 8..at + 8 + size];
  }

  ghost predicate OnlyFit(image: Bytes, length: nat) {
    Fits(image, length) && forall other: nat :: Fits(image, other) ==> other == length
  }

  /** `gnucobol_relative_records`: an image with exactly one possible record length is read with that
      length, an empty image holds nothing, and every other image is refused. */
  method GnucobolRelativeRecords(image: Bytes) returns (r: Outcome<seq<Slot>>)
    ensures image == [] ==> r == Ok([])
    ensures forall length: nat :: image != [] && OnlyFit(image, length) ==> r == Ok(LiveSlots(image, 8 + length, 1))
    ensures r == Unreadable <==> image != [] && !exists length: nat :: OnlyFit(image, length)
    ensures r != Raised
  {
    if image == [] {
      return Ok([]);
    }
    hide Sizes, U64, LiveSlots, Fits, SizesFit, WholeSlots, OnlyFit;
    var layouts: seq<nat> := [];
    var length := 1;
    FitsMeans(image, 0);
    while length < |image| - 7
      invariant length >= 1
      invariant forall k: nat :: k in layouts <==> k < length && Fits(image, k)
      invariant forall i, j :: 0 <= i < j < |layouts| ==> layouts[i] != layouts[j]
    {
      FitsMeans(image, length);
      assert forall i :: 0 <= i < |layouts| ==> layouts[i] in layouts;
      if WholeSlots(|image|, 8 + length) {
        var sizes := ReadSizes(image, 8 + length);
        if SizesFit(sizes, length) {
          layouts := layouts + [length];
        }
      }
      length := length + 1;
    }
    AllLayouts(image, layouts, length);
    if |layouts| != 1 {
      return Unreadable;
    }
    length := layouts[0];
    assert length in layouts;
    FitsMeans(image, length);
    var sizes := ReadSizes(image, 8 + length);
    var live := ReadLive(image, 8 + length, sizes);
    r := Ok(live);
  }

  lemma FitsMeans(image: Bytes, length: nat)
    ensures Fits(image, length) <==>
      1 <= length < |image| - 7 && WholeSlots(|image|, 8 + length) && SizesFit(Sizes(image, 8 + length), length)
  {
  }

  /** The collected lengths are all the possible ones, so one of them alone is the only one. */
  lemma AllLayouts(image: Bytes, layouts: seq<nat>, tried: nat)
    requires tried >= |image| - 7
    requires forall k: nat :: k in layouts <==> k < tried && Fits(image, k)
    requires forall i, j :: 0 <= i < j < |layouts| ==> layouts[i] != layouts[j]
    ensures |layouts| == 1 ==> OnlyFit(image, layouts[0])
    ensures |layouts| != 1 ==> forall k: nat :: !OnlyFit(image, k)
  {
    hide Fits;
    forall k: nat | Fits(image, k) ensures k in layouts { FitsMeans(image, k); }
    if |layouts| == 1 { assert layouts[0] in layouts; }
    forall k: nat | OnlyFit(image, k) ensures |layouts| == 1 { OnlyElement(layouts, k); }
  }

  lemma OnlyElement(s: seq<nat>, x: nat)
    requires forall i, j :: 0 <= i < j < |s| ==> s[i] != s[j]
    requires x in s && forall y :: y in s ==> y == x
    ensures |s| == 1
  {
    assert |s| <= 1 || s[0] != s[1];
    assert forall i :: 0 <= i < |s| ==> s[i] in s;
  }

  // ---- images written with one record length ----

  /** A slot as the GnuCOBOL runtime leaves it: a deleted or unused slot keeps its old bytes. */
  datatype Cell = Live(record: Bytes) | Unused(residue: Bytes) {
    function Area(): Bytes {
      if Live? then record else residue
    }
  }

  function CellBytes(cell: Cell, length: nat): Bytes
    requires length < 0x1_0000_0000_0000_0000
  {
    LittleEndian(if cell.Live? then length else 0) + cell.Area()
  }

  function Written(cells: seq<Cell>, length: nat): Bytes
    requires length < 0x1_0000_0000_0000_0000
  {
    if cells == [] then [] else CellBytes(cells[0], length) + Written(cells[1..], length)
  }

  /** The live (RRN, record) pairs, numbered from `rrn`. */
  function LivePairs(cells: seq<Cell>, rrn: nat): seq<Slot> {
    if cells == [] then []
    else (if cells[0].Live? then [(rrn, cells[0].record)] else []) + LivePairs(cells[1..], rrn + 1)
  }

  ghost predicate OfLength(cells: seq<Cell>, length: nat) {
    forall i :: 0 <= i < |cells| ==> |cells[i].Area()| == length
  }

  function CellSizes(cells: seq<Cell>, length: nat): seq<nat> {
    if cells == [] then [] else [if cells[0].Live? then length else 0] + CellSizes(cells[1..], length)
  }

  lemma U64Prefix(head: Bytes, rest: Bytes)
    requires |head| == 8
    ensures U64(head + rest, 0) == U64(head, 0)
  {
  }

  lemma WrittenStep(cells: seq<Cell>, length: nat)
    requires cells != [] && 1 <= length < 0x1_0000_0000_0000_0000 && OfLength(cells, length)
    ensures var image := Written(cells, length);
      && |image| == 8 + length + |Written(cells[1..], length)|
      && U64(image, 0) == (if cells[0].Live? then length else 0)
      && image[8..8 + length] == cells[0].Area()
      && image[8 + length..] == Written(cells[1..], length)
  {
    hide U64, LittleEndian;
    var head, rest := LittleEndian(if cells[0].Live? then length else 0), Written(cells[1..], length);
    assert Written(cells, length) == head + (cells[0].Area() + rest);
    U64Prefix(head, cells[0].Area() + rest);
  }

  lemma SlotTaken(image: Bytes, slot: nat, rrn: nat)
    requires slot >= 8 && |image| >= slot && WholeSlots(|image| - slot, slot)
    requires U64(image, 0) == 0 || 8 + U64(image, 0) == slot
    ensures WholeSlots(|image|, slot)
    ensures Sizes(image, slot) == [U64(image, 0)] + Sizes(image[slot..], slot)
    ensures LiveSlots(image, slot, rrn) ==
      (if U64(image, 0) == 0 then [] else [(rrn, image[8..slot])]) + LiveSlots(image[slot..], slot, rrn + 1)
  {
    hide U64;
    ModStep(|image|, slot);
  }

  lemma NothingWritten(length: nat, rrn: nat)
    requires length < 0x1_0000_0000_0000_0000
    ensures Written([], length) == [] && WholeSlots(0, 8 + length)
    ensures LiveSlots([], 8 + length, rrn) == [] && Sizes([], 8 + length) == []
  {
  }

  lemma {:induction false} WrittenReadsBack(cells: seq<Cell>, length: nat, rrn: nat)
    requires 1 <= length < 0x1_0000_0000_0000_0000 && OfLength(cells, length)
    ensures var image := Written(cells, length);
      && WholeSlots(|image|, 8 + length)
      && LiveSlots(image, 8 + length, rrn) == LivePairs(cells, rrn)
      && Sizes(image, 8 + length) == CellSizes(cells, length)
  {
    hide U64, LittleEndian, CellBytes, WholeSlots, Sizes, LiveSlots, Written;
    if cells == [] {
      NothingWritten(length, rrn);
    } else {
      WrittenStep(cells, length);
      WrittenReadsBack(cells[1..], length, rrn + 1);
      var image := Written(cells, length);
      assert |image| - (8 + length) == |Written(cells[1..], length)|;
      SlotTaken(image, 8 + length, rrn);
    }
  }

  /** An image written with one record length and at least one live record is either read back to
      exactly its live pairs or refused, and refused exactly when another length fits it too: a wrong
      layout is never returned. */
  lemma WrittenNeverMisread(cells: seq<Cell>, length: nat)
    requires 1 <= length < 0x1_0000_0000_0000_0000 && OfLength(cells, length)
    requires exists i :: 0 <= i < |cells| && cells[i].Live?
    ensures var image := Written(cells, length);
      && image != [] && Fits(image, length)
      && LiveSlots(image, 8 + length, 1) == LivePairs(cells, 1)
      && ((exists k: nat :: OnlyFit(image, k)) <==> OnlyFit(image, length))
      && forall k: nat :: OnlyFit(image, k) ==> LiveSlots(image, 8 + k, 1) == LivePairs(cells, 1)
  {
    hide U64, LiveSlots, LivePairs, Sizes, Written, WholeSlots;
    var image := Written(cells, length);
    WrittenReadsBack(cells, length, 1);
    WrittenStep(cells, length);
    CellsFit(cells, length);
    hide SizesFit, OfLength;
    assert Fits(image, length);
    hide Fits;
  }

  lemma {:induction false} CellSizesAt(cells: seq<Cell>, length: nat)
    ensures |CellSizes(cells, length)| == |cells|
    ensures forall i :: 0 <= i < |cells| ==> CellSizes(cells, length)[i] == if cells[i].Live? then length else 0
  {
    if cells != [] { CellSizesAt(cells[1..], length); }
  }

  lemma CellsFit(cells: seq<Cell>, length: nat)
    requires exists i :: 0 <= i < |cells| && cells[i].Live?
    ensures SizesFit(CellSizes(cells, length), length) && cells != []
  {
    CellSizesAt(cells, length);
    var i :| 0 <= i < |cells| && cells[i].Live?;
    assert CellSizes(cells, length)[i] == length;
  }

  /** An image that is read holds a live slot. */
  lemma {:induction false} FittingHasLive(image: Bytes, length: nat, rrn: nat)
    requires length >= 1 && WholeSlots(|image|, 8 + length) && SizesFit(Sizes(image, 8 + length), length)
    ensures LiveSlots(image, 8 + length, rrn) != []
    decreases |image|
  {
    if image != [] {
      OneSlot(|image|, 8 + length);
      var slot := 8 + length;
      var rest := Sizes(image[slot..], slot);
      assert Sizes(image, slot) == [U64(image, 0)] + rest;
      if U64(image, 0) != length {
        assert length in rest && forall i :: 0 <= i < |rest| ==> rest[i] == Sizes(image, slot)[i + 1];
        FittingHasLive(image[slot..], length, rrn + 1);
      }
      hide U64;
    }
  }

  /** So a file of deleted and unused slots alone is refused under its own length. */
  lemma NothingLiveIsRefused(cells: seq<Cell>, length: nat)
    requires 1 <= length < 0x1_0000_0000_0000_0000 && OfLength(cells, length)
    requires forall i :: 0 <= i < |cells| ==> cells[i].Unused?
    ensures !Fits(Written(cells, length), length)
  {
    hide Written, U64, LiveSlots;
    WrittenReadsBack(cells, length, 1);
    NoLivePairs(cells, 1);
    if Fits(Written(cells, length), length) { FittingHasLive(Written(cells, length), length, 1); }
  }

  lemma {:induction false} NoLivePairs(cells: seq<Cell>, rrn: nat)
    requires forall i :: 0 <= i < |cells| ==> cells[i].Unused?
    ensures LivePairs(cells, rrn) == []
  {
    if cells != [] { NoLivePairs(cells[1..], rrn + 1); }
  }

  // ---- what fits is what was written ----

  /** The slots of an image under a record length. */
  function CellsOf(image: Bytes, length: nat): seq<Cell> {
    if |image| < 8 + length then []
    else
      var area := image[8..8 + length];
      [if U64(image, 0) == 0 then Unused(area) else Live(area)] + CellsOf(image[8 + length..], length)
  }

  predicate EachIs(sizes: seq<nat>, length: nat) {
    forall i :: 0 <= i < |sizes| ==> sizes[i] == 0 || sizes[i] == length
  }

  lemma {:induction false} CellsWritten(image: Bytes, length: nat)
    requires 1 <= length < 0x1_0000_0000_0000_0000 && WholeSlots(|image|, 8 + length)
    requires EachIs(Sizes(image, 8 + length), length)
    ensures OfLength(CellsOf(image, length), length) && Written(CellsOf(image, length), length) == image
    decreases |image|
  {
    hide U64, LittleEndian;
    if image != [] {
      var slot := 8 + length;
      OneSlot(|image|, slot);
      hide WholeSlots;
      var rest, cells := image[slot..], CellsOf(image, length);
      var sizes := Sizes(rest, slot);
      assert Sizes(image, slot) == [U64(image, 0)] + sizes;
      forall i | 0 <= i < |sizes| ensures sizes[i] == 0 || sizes[i] == length {
        assert sizes[i] == Sizes(image, slot)[i + 1];
      }
      CellsWritten(rest, length);
      assert cells[1..] == CellsOf(rest, length);
      assert Sizes(image, slot)[0] == U64(image, 0);
      LittleEndianBack(image);
      assert image == image[..8] + image[8..slot] + rest;
    }
  }

  /** The image is the file of these slots, one of them live. */
  ghost predicate IsWritten(image: Bytes, length: nat, cells: seq<Cell>) {
    && 1 <= length < 0x1_0000_0000_0000_0000 && OfLength(cells, length) && image == Written(cells, length)
    && exists i :: 0 <= i < |cells| && cells[i].Live?
  }

  /** An image fits a record length exactly when it was written with it and has a live record. */
  lemma FitsExactly(image: Bytes, length: nat)
    ensures Fits(image, length) <==> exists cells :: IsWritten(image, length, cells)
  {
    hide U64, Written, CellsOf, Sizes;
    if Fits(image, length) {
      var slot := 8 + length;
      LengthBounded(image, length);
      CellsWritten(image, length);
      var cells := CellsOf(image, length);
      WrittenReadsBack(cells, length, 1);
      CellSizesAt(cells, length);
      hide OfLength, WholeSlots;
      var i :| 0 <= i < |Sizes(image, slot)| && Sizes(image, slot)[i] == length;
      assert cells[i].Live?;
      assert IsWritten(image, length, cells);
    }
    if cells :| IsWritten(image, length, cells) {
      WrittenNeverMisread(cells, length);
    }
  }

  lemma LengthBounded(image: Bytes, length: nat)
    requires length in Sizes(image, 8 + length)
    ensures length < 0x1_0000_0000_0000_0000
  {
    SizesBounded(image, 8 + length);
  }

  lemma {:induction false} SizesBounded(image: Bytes, slot: nat)
    requires slot >= 8
    ensures forall i :: 0 <= i < |Sizes(image, slot)| ==> Sizes(image, slot)[i] < 0x1_0000_0000_0000_0000
    decreases |image|
  {
    hide U64;
    if |image| >= slot {
      SizesBounded(image[slot..], slot);
      U64Bound(image, 0);
    }
  }

  /** Refusals are real: sixty zero bytes with 12 at offset 20 and 22 at offset 30 are a file of three
      12-byte slots and a file of two 22-byte slots. */
  lemma TwoLayoutsFit()
    ensures var image := seq(60, k => if k == 20 then 12 else if k == 30 then 22 else 0);
      Fits(image, 12) && Fits(image, 22) && !exists k: nat :: OnlyFit(image, k)
  {
    var image: Bytes := seq(60, k => if k == 20 then 12 else if k == 30 then 22 else 0);
    var a, b, c := image[20..], image[40..], image[30..];
    assert image[20..][20..] == b && image[30..] == c && b[20..] == [] && c[30..] == [];
    assert Sizes(b, 20) == [U64(b, 0)] + Sizes(b[20..], 20) == [0];
    assert Sizes(a, 20) == [U64(a, 0)] + Sizes(a[20..], 20) == [12, 0];
    assert Sizes(image, 20) == [U64(image, 0)] + Sizes(a, 20) == [0, 12, 0];
    assert Sizes(c, 30) == [U64(c, 0)] + Sizes(c[30..], 30) == [22];
    assert Sizes(image, 30) == [U64(image, 0)] + Sizes(c, 30) == [0, 22];
    assert Sizes(image, 20)[1] == 12 && Sizes(image, 30)[1] == 22;
  }
}
