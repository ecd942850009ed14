/** engine/comparators/framework.py: what a MATCH between two captured contents means. */
module Comparators {
  import opened Bytes
  import opened Numerals
  import opened Options
  import opened Ordering

  datatype ComparisonResult = MATCH | MISMATCH | INCONCLUSIVE

  datatype OnMissing = UNAVAILABLE | FAILED

  datatype Order = SEQUENTIAL | SORTED | UNORDERED

  /** A difference, by location. */
  datatype Difference =
    | Artifact | Content | ExitCode | RecordCount | TrailingPartialRecord
    | RecordAt(index: nat)

  datatype Comparison = Comparison(result: ComparisonResult, differences: seq<Difference>)

  // ---- missing artifacts ----

  /** `_handle_missing`: a missing side is never a match; without a policy it is inconclusive. */
  function HandleMissing(oracle: Option<Bytes>, candidate: Option<Bytes>, policy: OnMissing): (r: Option<Comparison>)
    ensures r.None? <==> oracle.Some? && candidate.Some?
    ensures r.Some? ==> r.value.result != MATCH && r.value.differences != []
    ensures r.Some? ==> (r.value.result == INCONCLUSIVE <==> policy == UNAVAILABLE)
  {
    if oracle.Some? && candidate.Some? then None
    else Some(Comparison(if policy == UNAVAILABLE then INCONCLUSIVE else MISMATCH, [Artifact]))
  }

  // ---- normalization and ordering ----

  const CR: Byte := 13
  const CRLF_TO_LF := "crlf_to_lf"

  /** `replace(b"\r\n", b"\n")`. */
  function FoldCrLf(b: Bytes): (r: Bytes)
    ensures CR !in b ==> r == b
  {
    if b == [] then []
    else if |b| > 1 && b[0] == CR && b[1] == LF then [LF] + FoldCrLf(b[2..])
    else
      assert CR !in b ==> CR !in b[1..];
      [b[0]] + FoldCrLf(b[1..])
  }

  /** `_normalize` as a function of its policy; an unknown normalization is Python's ValueError. */
  function Normalized(content: Bytes, policy: seq<string>): Option<Bytes>
    decreases policy
  {
    if policy == [] then Some(content)
    else
      match Normalized(content, policy[..|policy| - 1])
      case Some(b) => if policy[|policy| - 1] == CRLF_TO_LF then Some(FoldCrLf(b)) else None
      case None => None
  }

  /** `_normalize`. */
  method Normalize(content: Bytes, policy: seq<string>) returns (r: Option<Bytes>)
    ensures r == Normalized(content, policy)
    ensures r.Some? <==> forall i :: 0 <= i < |policy| ==> policy[i] == CRLF_TO_LF
  {
    var b := content;
    for i := 0 to |policy|
      invariant Normalized(content, policy[..i]) == Some(b)
      invariant forall j :: 0 <= j < i ==> policy[j] == CRLF_TO_LF
    {
      assert policy[..i + 1][..i] == policy[..i];
      if policy[i] != CRLF_TO_LF {
        NormalizedFails(content, policy, i + 1);
        return None;
      }
      b := FoldCrLf(b);
    }
    assert policy[..|policy|] == policy;
    return Some(b);
  }

  lemma {:induction false} NormalizedFails(content: Bytes, policy: seq<string>, i: nat)
    requires i <= |policy| && Normalized(content, policy[..i]).None?
    ensures Normalized(content, policy).None?
    decreases |policy| - i
  {
    if i < |policy| {
      assert policy[..i + 1][..i] == policy[..i];
      NormalizedFails(content, policy, i + 1);
    } else {
      assert policy[..i] == policy;
    }
  }

  predicate StartsBreak(b: Bytes) { |b| > 1 && b[0] == CR && b[1] == LF }

  lemma FoldStep(b: Bytes)
    requires b != []
    ensures FoldCrLf(b) ==
      if StartsBreak(b) then [LF] + FoldCrLf(b[2..]) else [b[0]] + FoldCrLf(b[1..])
  {
  }

  /** No CRLF runs from `a` into `t`. */
  predicate Apart(a: Bytes, t: Bytes) { a != [] && t != [] && a[|a| - 1] == CR ==> t[0] != LF }

  lemma StartTogether(a: Bytes, t: Bytes)
    requires a != [] && Apart(a, t)
    ensures StartsBreak(a + t) <==> StartsBreak(a)
    ensures (a + t)[1..] == a[1..] + t && Apart(a[1..], t)
    ensures StartsBreak(a) ==> (a + t)[2..] == a[2..] + t && Apart(a[2..], t)
  {
  }

  lemma {:induction false} FoldConcat(a: Bytes, t: Bytes)
    requires Apart(a, t)
    ensures FoldCrLf(a + t) == FoldCrLf(a) + FoldCrLf(t)
    decreases |a|
  {
    assert FoldCrLf([]) == [];
    hide FoldCrLf, Apart;
    if a == [] {
      assert a + t == t;
    } else {
      FoldStep(a);
      FoldStep(a + t);
      StartTogether(a, t);
      if StartsBreak(a) { FoldConcat(a[2..], t); } else { FoldConcat(a[1..], t); }
    }
  }

  /** Content around a CRLF is folded on its own. */
  lemma FoldSplits(a: Bytes, b: Bytes)
    ensures FoldCrLf(a + [CR, LF] + b) == FoldCrLf(a) + [LF] + FoldCrLf(b)
  {
    var t := [CR, LF] + b;
    FoldStep(t);
    assert t[2..] == b && a + [CR, LF] + b == a + t;
    hide FoldCrLf;
    FoldConcat(a, t);
  }

  /** Content without a CRLF is kept. */
  lemma {:induction false} FoldKeeps(b: Bytes)
    requires forall i :: 0 <= i < |b| - 1 && b[i] == CR ==> b[i + 1] != LF
    ensures FoldCrLf(b) == b
  {
    if b != [] {
      forall i | 0 <= i < |b[1..]| - 1 && b[1..][i] == CR ensures b[1..][i + 1] != LF { assert b[i + 1] == CR; }
      FoldKeeps(b[1..]);
      assert b == [b[0]] + b[1..];
    }
  }

  /** Lines without line feeds, with a line end between any two. */
  function Joined(lines: seq<Bytes>, end: Bytes): Bytes {
    if lines == [] then [] else if |lines| == 1 then lines[0] else lines[0] + end + Joined(lines[1..], end)
  }

  /** Lines ended by CRLF become the same lines ended by line feeds. */
  lemma {:induction false} CrLfLinesFold(lines: seq<Bytes>)
    requires forall i :: 0 <= i < |lines| ==> LineFree(lines[i])
    ensures FoldCrLf(Joined(lines, [CR, LF])) == Joined(lines, [LF])
  {
    if lines != [] {
      FoldKeeps(lines[0]);
      if |lines| > 1 {
        CrLfLinesFold(lines[1..]);
        FoldSplits(lines[0], Joined(lines[1..], [CR, LF]));
      }
    }
  }

  function WithoutReturn(line: Bytes): Bytes {
    if line != [] && line[|line| - 1] == CR then line[..|line| - 1] else line
  }

  function WithoutReturns(lines: seq<Bytes>): seq<Bytes> {
    seq(|lines|, i requires 0 <= i < |lines| => if i < |lines| - 1 then WithoutReturn(lines[i]) else lines[i])
  }

  /** The lines of a text, whether they end in CRLF or in a line feed; the last one has no end. */
  function TextLines(b: Bytes): (r: seq<Bytes>)
    ensures r != []
  {
    WithoutReturns(Lines(b))
  }

  lemma FirstReturn(line: Bytes, rest: seq<Bytes>)
    requires rest != []
    ensures WithoutReturns([line] + rest) == [WithoutReturn(line)] + WithoutReturns(rest)
  {
    hide WithoutReturn;
  }

  lemma {:induction false} FoldedLines(b: Bytes)
    ensures Lines(FoldCrLf(b)) == TextLines(b)
    decreases |b|
  {
    if b != [] {
      hide FoldCrLf, TextLines, Lines;
      if StartsBreak(b) {
        FoldedLines(b[2..]);
        FoldedBreak(b);
      } else {
        FoldedLines(b[1..]);
        FoldedFirst(b);
        FoldedOne(b);
      }
    }
  }

  lemma FoldedBreak(b: Bytes)
    requires StartsBreak(b)
    ensures Lines(FoldCrLf(b)) == [[]] + Lines(FoldCrLf(b[2..])) && TextLines(b) == [[]] + TextLines(b[2..])
  {
    hide FoldCrLf, Lines, WithoutReturns;
    var none, one: Bytes := [], [CR];
    var rest := b[2..];
    FoldStep(b);
    SplitFirst(none, FoldCrLf(rest));
    assert none + [LF] + FoldCrLf(rest) == FoldCrLf(b);
    SplitFirst(one, rest);
    assert one + [LF] + rest == b by { assert b == [b[0]] + [b[1]] + rest; }
    assert WithoutReturn(one) == none;
    FirstReturn(one, Lines(rest));
  }

  lemma FoldedOne(b: Bytes)
    requires b != [] && !StartsBreak(b)
    ensures var rest := Lines(FoldCrLf(b[1..]));
      Lines(FoldCrLf(b)) == if b[0] == LF then [[]] + rest else [[b[0]] + rest[0]] + rest[1..]
  {
    hide FoldCrLf;
    FoldStep(b);
    assert FoldCrLf(b)[1..] == FoldCrLf(b[1..]);
  }

  lemma FoldedFirst(b: Bytes)
    requires b != [] && !StartsBreak(b)
    ensures var rest := TextLines(b[1..]);
      TextLines(b) == if b[0] == LF then [[]] + rest else [[b[0]] + rest[0]] + rest[1..]
  {
    var rest := Lines(b[1..]);
    if b[0] == LF {
      FirstReturn([], rest);
    } else if |rest| > 1 {
      if rest[0] == [] { FirstEmpty(b[1..]); }
      assert WithoutReturn([b[0]] + rest[0]) == [b[0]] + WithoutReturn(rest[0]);
      FirstReturn([b[0]] + rest[0], rest[1..]);
      FirstReturn(rest[0], rest[1..]);
      assert rest == [rest[0]] + rest[1..];
    } else {
      assert rest == [rest[0]] && rest[1..] == [];
    }
  }

  lemma FirstEmpty(b: Bytes)
    requires |Lines(b)| > 1 && Lines(b)[0] == []
    ensures b != [] && b[0] == LF
  {
  }

  lemma NormalizedOnce(b: Bytes)
    ensures Normalized(b, [CRLF_TO_LF]) == Some(FoldCrLf(b))
  {
    assert [CRLF_TO_LF][..0] == [];
    hide FoldCrLf;
  }

  /** Under `crlf_to_lf` two texts agree exactly when they have the same lines. */
  lemma AgreeByLines(a: Bytes, b: Bytes)
    ensures Agree(Some(a), Some(b), ["crlf_to_lf"], SEQUENTIAL) <==> TextLines(a) == TextLines(b)
  {
    hide FoldCrLf, TextLines, Lines, Normalized;
    NormalizedOnce(a);
    NormalizedOnce(b);
    FoldedLines(a);
    FoldedLines(b);
    JoinSplit(FoldCrLf(a));
    JoinSplit(FoldCrLf(b));
  }

  /** Length of the first line of `splitlines(keepends=True)`; a line ends with `\n`, `\r\n` or a
      lone `\r`. */
  function LineLength(b: Bytes): (n: nat)
    requires b != []
    ensures 1 <= n <= |b|
  {
    if b[0] == LF then 1
    else if b[0] == CR then (if |b| > 1 && b[1] == LF then 2 else 1)
    else if |b| == 1 then 1
    else 1 + LineLength(b[1..])
  }

  function SplitLines(b: Bytes): seq<Bytes>
    decreases |b|
  {
    if b == [] then [] else [b[..LineLength(b)]] + SplitLines(b[LineLength(b)..])
  }

  function Concat(lines: seq<Bytes>): Bytes {
    if lines == [] then [] else lines[0] + Concat(lines[1..])
  }

  predicate ByteLe(a: Byte, b: Byte) { a <= b }

  predicate LineLe(a: Bytes, b: Bytes) { Lex(ByteLe, a, b) }

  lemma LineLeIsTotal()
    ensures TotalOrder(LineLe)
  {
    LexIsTotal(ByteLe);
    assert forall a: Bytes, b: Bytes :: LineLe(a, b) == LexOrder(ByteLe)(a, b);
  }

  /** `_apply_ordering`. */
  function ApplyOrdering(content: Bytes, order: Order): Bytes {
    if order == SEQUENTIAL then content else Concat(Sort(LineLe, SplitLines(content)))
  }

  /** Carriage returns only as part of a CRLF. */
  predicate PairedReturns(b: Bytes) {
    forall i :: 0 <= i < |b| && b[i] == CR ==> i + 1 < |b| && b[i + 1] == LF
  }

  /** A line with its terminator, `\n` or `\r\n`, and no other line break. */
  predicate WholeLine(line: Bytes) {
    line != [] && line[|line| - 1] == LF && LF !in line[..|line| - 1] && PairedReturns(line)
  }

  /** Content that is empty or ends with a line feed, and has carriage returns only before line feeds. */
  predicate PlainLines(b: Bytes) {
    PairedReturns(b) && (b == [] || b[|b| - 1] == LF)
  }

  lemma {:induction false} SplitIsWhole(b: Bytes)
    requires PlainLines(b)
    ensures forall i :: 0 <= i < |SplitLines(b)| ==> WholeLine(SplitLines(b)[i])
    decreases |b|
  {
    if b != [] {
      FirstIsWhole(b);
      SplitIsWhole(b[LineLength(b)..]);
    }
  }

  lemma {:induction false} FirstIsWhole(b: Bytes)
    requires PlainLines(b) && b != []
    ensures WholeLine(b[..LineLength(b)]) && PlainLines(b[LineLength(b)..])
    decreases |b|
  {
    var n := LineLength(b);
    if b[0] == CR {
      assert b[..2][..1] == [b[0]];
    } else if b[0] != LF {
      assert PairedReturns(b[1..]) by {
        forall i | 0 <= i < |b[1..]| && b[1..][i] == CR
          ensures i + 1 < |b[1..]| && b[1..][i + 1] == LF
        {
          assert b[i + 1] == CR;
        }
      }
      FirstIsWhole(b[1..]);
      assert b[1..][..n - 1] == b[1..n] && b[1..][n - 1..] == b[n..];
      assert b[..n] == [b[0]] + b[1..n];
      assert b[..n][..n - 1] == [b[0]] + b[1..n][..n - 2];
    }
  }

  lemma {:induction false} LineLengthOfWhole(line: Bytes, rest: Bytes)
    requires WholeLine(line)
    ensures LineLength(line + rest) == |line|
    decreases |line|
  {
    assert forall i :: 0 <= i < |line| - 1 ==> line[i] in line[..|line| - 1];
    if line[0] != LF && line[0] != CR {
      assert (line + rest)[1..] == line[1..] + rest;
      assert line[1..][..|line| - 2] == line[..|line| - 1][1..];
      assert PairedReturns(line[1..]) by {
        forall i | 0 <= i < |line[1..]| && line[1..][i] == CR
          ensures i + 1 < |line[1..]| && line[1..][i + 1] == LF
        {
          assert line[i + 1] == CR;
        }
      }
      LineLengthOfWhole(line[1..], rest);
    }
  }

  /** Whole lines survive being joined and split again. */
  lemma {:induction false} SplitConcat(lines: seq<Bytes>)
    requires forall i :: 0 <= i < |lines| ==> WholeLine(lines[i])
    ensures SplitLines(Concat(lines)) == lines
  {
    if lines != [] {
      SplitConcat(lines[1..]);
      LineLengthOfWhole(lines[0], Concat(lines[1..]));
      var b := Concat(lines);
      assert b[..|lines[0]|] == lines[0] && b[|lines[0]|..] == Concat(lines[1..]);
      assert lines == [lines[0]] + lines[1..];
    }
  }

  /** Under SORTED or UNORDERED, plain contents, with CRLF or bare line feeds, compare equal exactly when
      they have the same lines, each as often. */
  lemma SortedComparesLines(a: Bytes, b: Bytes, order: Order)
    requires order != SEQUENTIAL && PlainLines(a) && PlainLines(b)
    ensures ApplyOrdering(a, order) == ApplyOrdering(b, order) <==> multiset(SplitLines(a)) == multiset(SplitLines(b))
  {
    LineLeIsTotal();
    var s, t := Sort(LineLe, SplitLines(a)), Sort(LineLe, SplitLines(b));
    SortCorrect(LineLe, SplitLines(a));
    SortCorrect(LineLe, SplitLines(b));
    SortedKeepsWhole(a);
    SortedKeepsWhole(b);
    SplitConcat(s);
    SplitConcat(t);
    if multiset(SplitLines(a)) == multiset(SplitLines(b)) { SortedIsUnique(LineLe, s, t); }
  }

  lemma SortedKeepsWhole(b: Bytes)
    requires PlainLines(b) && TotalOrder(LineLe)
    ensures forall i :: 0 <= i < |Sort(LineLe, SplitLines(b))| ==> WholeLine(Sort(LineLe, SplitLines(b))[i])
  {
    var s := Sort(LineLe, SplitLines(b));
    SplitIsWhole(b);
    SortCorrect(LineLe, SplitLines(b));
    MultisetMembership(s, SplitLines(b));
    forall i | 0 <= i < |s| ensures WholeLine(s[i]) { assert s[i] in s; }
  }

  lemma FirstLine(line: Bytes, rest: Bytes)
    requires line != [] && LineLength(line + rest) == |line|
    ensures SplitLines(line + rest) == [line] + SplitLines(rest)
  {
    assert (line + rest)[..|line|] == line && (line + rest)[|line|..] == rest;
  }

  lemma SingleLine(line: Bytes)
    requires line != [] && LineLength(line) == |line|
    ensures SplitLines(line) == [line]
  {
    assert line + [] == line;
    FirstLine(line, []);
  }

  lemma SortTwo<T>(le: (T, T) -> bool, x: T, y: T)
    requires !le(x, y)
    ensures Sort(le, [y]) == [y] && Sort(le, [x, y]) == [y, x]
  {
    assert [x, y][1..] == [y] && [y][1..] == [];
    assert Sort(le, [y]) == Insert(le, y, Sort(le, [])) == [y];
    assert Sort(le, [x, y]) == Insert(le, x, [y]) == [y] + Insert(le, x, []) == [y, x];
  }

  lemma ConcatTwo(x: Bytes, y: Bytes)
    ensures Concat([x]) == x && Concat([x, y]) == x + y
  {
    assert [x, y][1..] == [y] && [y][1..] == [] && [x][1..] == [];
    assert Concat([y]) == y + Concat([]) && Concat([x]) == x + Concat([]);
  }

  /** Two lines `x`, `y` and the one line `y + x` sort to the same bytes when `y` sorts first. */
  lemma Collide(x: Bytes, y: Bytes)
    requires x != [] && y != [] && LineLe(y, x) && !LineLe(x, y)
    requires LineLength(x + y) == |x| && LineLength(y) == |y| && LineLength(y + x) == |y + x|
    ensures ApplyOrdering(x + y, SORTED) == ApplyOrdering(y + x, SORTED)
    ensures multiset(SplitLines(x + y)) != multiset(SplitLines(y + x))
  {
    hide LineLe, LineLength, Sort, Concat, SplitLines;
    SingleLine(y);
    FirstLine(x, y);
    SingleLine(y + x);
    assert SplitLines(x + y) == [x, y];
    SortTwo(LineLe, x, y);
    SortOne(LineLe, y + x);
    ConcatTwo(y, x);
    ConcatTwo(y + x, x);
    assert |multiset([x, y])| == 2 && |multiset([y + x])| == 1;
  }

  lemma SortOne<T>(le: (T, T) -> bool, x: T)
    ensures Sort(le, [x]) == [x]
  {
    assert Sort(le, [x]) == Insert(le, x, Sort(le, [])) == [x];
  }

  /** Without the final line feed the correspondence fails: `b\na` and `ab\n` compare equal. */
  lemma UnterminatedCollides()
    ensures var a: Bytes, b: Bytes := [98, 10, 97], [97, 98, 10];
      ApplyOrdering(a, SORTED) == ApplyOrdering(b, SORTED) && multiset(SplitLines(a)) != multiset(SplitLines(b))
  {
    var x: Bytes, y: Bytes := [98, 10], [97];
    assert x + y == [98, 10, 97] && y + x == [97, 98, 10];
    assert (x + y)[1..] == [10, 97] && (y + x)[1..] == x && x[1..] == [10];
    Collide(x, y);
  }

  /** Nor does it hold with a lone carriage return: a line ending in one absorbs the line feed after it. */
  lemma CarriageReturnCollides()
    ensures var a: Bytes, b: Bytes := [10, 9, 13], [9, 13, 10];
      ApplyOrdering(a, SORTED) == ApplyOrdering(b, SORTED) && multiset(SplitLines(a)) != multiset(SplitLines(b))
  {
    var x: Bytes, y: Bytes := [10], [9, 13];
    assert x + y == [10, 9, 13] && y + x == [9, 13, 10];
    assert y[1..] == [13] && (y + x)[1..] == [13, 10];
    Collide(x, y);
  }

  // ---- text contents ----

  /** The exact comparison of STDOUT, STDERR and TEXT_FILE; Python raises ValueError for `None`. */
  function CompareText(oracle: Option<Bytes>, candidate: Option<Bytes>, policy: seq<string>, order: Order,
      missing: OnMissing): (r: Option<Comparison>)
    ensures r.Some? ==> (r.value.result == MATCH <==> Agree(oracle, candidate, policy, order))
    ensures r.Some? ==> (r.value.result == MATCH <==> r.value.differences == [])
    ensures r.None? <==>
      oracle.Some? && candidate.Some?
        && (Normalized(oracle.value, policy).None? || Normalized(candidate.value, policy).None?)
    ensures r.Some? ==>
      (r.value.result == INCONCLUSIVE <==> (oracle.None? || candidate.None?) && missing == UNAVAILABLE)
  {
    match HandleMissing(oracle, candidate, missing)
    case Some(c) => Some(c)
    case None =>
      var o, c := Normalized(oracle.value, policy), Normalized(candidate.value, policy);
      if o.None? || c.None? then None
      else if ApplyOrdering(o.value, order) == ApplyOrdering(c.value, order) then Some(Comparison(MATCH, []))
      else Some(Comparison(MISMATCH, [Content]))
  }

  /** Both sides produced content, equal after the declared normalizations and ordering. */
  ghost predicate Agree(oracle: Option<Bytes>, candidate: Option<Bytes>, policy: seq<string>, order: Order) {
    && oracle.Some? && candidate.Some?
    && Normalized(oracle.value, policy).Some? && Normalized(candidate.value, policy).Some?
    && ApplyOrdering(Normalized(oracle.value, policy).value, order) ==
       ApplyOrdering(Normalized(candidate.value, policy).value, order)
  }

  /** With no policy, agreement is equality of bytes. */
  lemma ExactAgreement(oracle: Option<Bytes>, candidate: Option<Bytes>)
    ensures Agree(oracle, candidate, [], SEQUENTIAL) <==> oracle.Some? && oracle == candidate
  {
  }

  // ---- exit status ----

  predicate IsSpace(b: Byte) { b == 32 || 9 <= b <= 13 }

  function StripLeft(b: Bytes): Bytes {
    if b != [] && IsSpace(b[0]) then StripLeft(b[1..]) else b
  }

  function StripRight(b: Bytes): Bytes {
    if b != [] && IsSpace(b[|b| - 1]) then StripRight(b[..|b| - 1]) else b
  }

  /** The digits of a Python integer literal: single underscores may stand between digits. */
  function PlainDigits(b: Bytes, afterDigit: bool): (r: Option<Bytes>)
    ensures r.Some? ==> forall i :: 0 <= i < |r.value| ==> IsDigit(r.value[i])
  {
    if b == [] then (if afterDigit then Some([]) else None)
    else if IsDigit(b[0]) then
      match PlainDigits(b[1..], true)
      case Some(rest) => Some([b[0]] + rest)
      case None => None
    else if b[0] == 95 && afterDigit then PlainDigits(b[1..], false)
    else None
  }

  /** `int(content.strip())`, or nothing where Python raises ValueError. */
  function ParseInt(content: Bytes): Option<int> {
    var b := StripRight(StripLeft(content));
    var negative, signed := b != [] && b[0] == 45, b != [] && (b[0] == 45 || b[0] == 43);
    match PlainDigits(if signed then b[1..] else b, false)
    case Some(digits) =>
      if |digits| > MAX_DIGITS then None
      else Some(if negative then -(DigitsValue(digits) as int) else DigitsValue(digits))
    case None => None
  }

  /** `str(n).encode()`. */
  function RenderInt(n: int): Bytes {
    if n < 0 then [45] + Decimal(-n) else Decimal(n)
  }

  lemma {:induction false} DigitsArePlain(b: Bytes, afterDigit: bool)
    requires forall i :: 0 <= i < |b| ==> IsDigit(b[i])
    requires b != [] || afterDigit
    ensures PlainDigits(b, afterDigit) == Some(b)
  {
    if b != [] {
      DigitsArePlain(b[1..], true);
      assert b == [b[0]] + b[1..];
    }
  }

  /** Ten to the power of `k`. */
  function Power(k: nat): nat { if k == 0 then 1 else 10 * Power(k - 1) }

  lemma PowerGrows(j: nat, k: nat)
    requires j <= k
    ensures Power(j) <= Power(k)
    decreases k
  {
    if j < k { PowerGrows(j, k - 1); }
  }

  lemma {:induction false} DecimalLength(n: nat, k: nat)
    requires k > 0
    ensures |Decimal(n)| <= k <==> n < Power(k)
    decreases k
  {
    if n < 10 {
      PowerGrows(1, k);
    } else if k > 1 {
      DecimalLength(n / 10, k - 1);
    }
  }

  lemma RenderedReads(n: int)
    ensures var digits := Decimal(if n < 0 then -n else n);
      ParseInt(RenderInt(n)) == if |digits| > MAX_DIGITS then None else Some(n)
  {
    var b := RenderInt(n);
    assert b != [] && !IsSpace(b[0]) && !IsSpace(b[|b| - 1]);
    hide Decimal, DigitsValue, PlainDigits;
    if n < 0 {
      assert b[1..] == Decimal(-n);
      DigitsArePlain(Decimal(-n), false);
    } else {
      DigitsArePlain(Decimal(n), false);
    }
  }

  /** A number survives being rendered and parsed if and only if it has no more digits than `int` takes. */
  lemma ParseRendered(n: int)
    ensures ParseInt(RenderInt(n)) == Some(n) <==> (if n < 0 then -n else n) < Power(MAX_DIGITS)
  {
    hide Power, Decimal, ParseInt, RenderInt;
    RenderedReads(n);
    DecimalLength(if n < 0 then -n else n, MAX_DIGITS);
  }

  /** Digits and underscores; an underscore is never the last, nor the first unless `after`, nor next to
      another. */
  predicate Underscored(b: Bytes, after: bool) {
    && (forall i :: 0 <= i < |b| ==> IsDigit(b[i]) || b[i] == 95)
    && (if b == [] then after else IsDigit(b[|b| - 1]) && (after || IsDigit(b[0])))
    && forall i :: 0 <= i < |b| - 1 ==> IsDigit(b[i]) || IsDigit(b[i + 1])
  }

  function OnlyDigits(b: Bytes): (r: Bytes)
    ensures forall i :: 0 <= i < |r| ==> IsDigit(r[i])
  {
    if b == [] then [] else (if IsDigit(b[0]) then [b[0]] else []) + OnlyDigits(b[1..])
  }

  /** A numeral is digits with single underscores between them, which do not count. */
  lemma {:induction false} PlainDigitsExactly(b: Bytes, after: bool)
    ensures PlainDigits(b, after) == if Underscored(b, after) then Some(OnlyDigits(b)) else None
  {
    if b != [] {
      hide Underscored;
      UnderscoredStart(b, after);
      PlainDigitsExactly(b[1..], IsDigit(b[0]));
      assert [] + OnlyDigits(b[1..]) == OnlyDigits(b[1..]);
    }
  }

  lemma UnderscoredStart(b: Bytes, after: bool)
    requires b != []
    ensures Underscored(b, after) <==>
      (IsDigit(b[0]) || (b[0] == 95 && after)) && Underscored(b[1..], IsDigit(b[0]))
  {
    hide IsDigit;
    var rest := b[1..];
    assert forall i :: 0 <= i < |rest| ==> rest[i] == b[i + 1];
    if Underscored(rest, IsDigit(b[0])) {
      assert rest != [] ==> rest[|rest| - 1] == b[|b| - 1] && rest[0] == b[1];
      forall i | 0 <= i < |b| ensures (IsDigit(b[i]) || b[i] == 95) || i == 0 {
        if i > 0 { assert rest[i - 1] == b[i]; }
      }
      forall i | 0 <= i < |b| - 1 ensures IsDigit(b[i]) || IsDigit(b[i + 1]) {
        if i > 0 { assert rest[i - 1] == b[i] && rest[i] == b[i + 1]; }
      }
    }
    if Underscored(b, after) {
      forall i | 0 <= i < |rest| - 1 ensures IsDigit(rest[i]) || IsDigit(rest[i + 1]) {
        assert rest[i] == b[i + 1] && rest[i + 1] == b[i + 2];
      }
    }
  }

  /** White space around a numeral and a sign before it: 9 to 13 and 32, `+` and `-`. */
  lemma ParseSigned(left: Bytes, sign: Bytes, b: Bytes, right: Bytes)
    requires forall x :: x in left + right ==> x == 32 || 9 <= x <= 13
    requires sign in [[], [43], [45]] && b != [] && forall i :: 0 <= i < |b| ==> IsDigit(b[i]) || b[i] == 95
    ensures ParseInt(left + sign + b + right) ==
      if !Underscored(b, false) || |OnlyDigits(b)| > 4300 then None
      else Some(if sign == [45] then -(DigitsValue(OnlyDigits(b)) as int) else DigitsValue(OnlyDigits(b)))
  {
    var content, core := left + sign + b + right, sign + b;
    assert content == left + core + right;
    StrippedCore(left, core, right);
    ParseCore(content, sign, b);
    PlainDigitsExactly(b, false);
    hide ParseInt, StripLeft, StripRight, PlainDigits, OnlyDigits, DigitsValue, Underscored;
  }

  lemma ParseCore(content: Bytes, sign: Bytes, b: Bytes)
    requires StripRight(StripLeft(content)) == sign + b && sign in [[], [43], [45]]
    requires b != [] && b[0] != 43 && b[0] != 45
    ensures ParseInt(content) ==
      match PlainDigits(b, false)
      case None => None
      case Some(digits) =>
        if |digits| > MAX_DIGITS then None
        else Some(if sign == [45] then -(DigitsValue(digits) as int) else DigitsValue(digits))
  {
    hide StripLeft, StripRight, PlainDigits, DigitsValue;
    var core := sign + b;
    if sign == [] { assert core == b; } else { assert core[0] == sign[0] && core[1..] == b; }
  }

  lemma {:induction false} StrippedCore(left: Bytes, core: Bytes, right: Bytes)
    requires forall x :: x in left + right ==> IsSpace(x)
    requires core != [] && !IsSpace(core[0]) && !IsSpace(core[|core| - 1])
    ensures StripRight(StripLeft(left + core + right)) == core
    decreases |left| + |right|
  {
    var b := left + core + right;
    if left != [] {
      assert b[0] == left[0] && left[0] in left + right && b[1..] == left[1..] + core + right;
      forall x | x in left[1..] + right ensures IsSpace(x) { assert x in left + right; }
      StrippedCore(left[1..], core, right);
    } else if right != [] {
      var n := |right| - 1;
      assert b[0] == core[0] && b[..|b| - 1] == left + core + right[..n];
      assert b[|b| - 1] == right[n] && right[n] in left + right;
      forall x | x in left + right[..n] ensures IsSpace(x) { assert x in left + right; }
      StrippedCore(left, core, right[..n]);
      assert StripLeft(left + core + right[..n]) == left + core + right[..n];
    } else {
      assert b == core;
    }
  }

  /** `ExitStatusComparator.compare`. */
  function CompareExit(oracle: Option<Bytes>, candidate: Option<Bytes>, missing: OnMissing): (r: Comparison)
    ensures r.result == MATCH <==>
      oracle.Some? && candidate.Some? && ParseInt(oracle.value).Some?
      && ParseInt(oracle.value) == ParseInt(candidate.value)
    ensures r.result == MATCH <==> r.differences == []
    ensures r.result == INCONCLUSIVE <==>
      if oracle.None? || candidate.None? then missing == UNAVAILABLE
      else ParseInt(oracle.value).None? || ParseInt(candidate.value).None?
  {
    match HandleMissing(oracle, candidate, missing)
    case Some(c) => c
    case None =>
      var o, c := ParseInt(oracle.value), ParseInt(candidate.value);
      if o.None? || c.None? then Comparison(INCONCLUSIVE, [ExitCode])
      else if o == c then Comparison(MATCH, [])
      else Comparison(MISMATCH, [ExitCode])
  }

  // ---- fixed records ----

  /** The `i`-th record of a content with `count` whole records. */
  function RecordOf(b: Bytes, length: nat, i: nat): Option<Bytes>
    requires length > 0
  {
    if (i + 1) * length <= |b| then Some(b[i * length..(i + 1) * length]) else None
  }

  /** Record `i` is whole exactly when it lies below the record count. */
  lemma WholeRecords(b: Bytes, length: nat, i: nat)
    requires length > 0
    ensures RecordOf(b, length, i).Some? <==> i < |b| / length
    ensures (|b| / length) * length <= |b|
  {
    assert |b| == length * (|b| / length) + |b| % length;
    if i < |b| / length { Multiply(i + 1, |b| / length, length); } else { Multiply(|b| / length + 1, i + 1, length); }
  }

  lemma Multiply(a: int, b: int, c: int)
    requires a <= b && c >= 0
    ensures a * c <= b * c
  {
    assert (b - a) * c >= 0;
  }

  lemma {:induction false} RecordsGivePrefix(o: Bytes, c: Bytes, length: nat, n: nat)
    requires length > 0 && n * length <= |o| && n * length <= |c|
    requires forall i: nat :: i < n ==> RecordOf(o, length, i) == RecordOf(c, length, i)
    ensures o[..n * length] == c[..n * length]
  {
    if n > 0 {
      var a, b := (n - 1) * length, n * length;
      assert a + length == b;
      RecordsGivePrefix(o, c, length, n - 1);
      assert RecordOf(o, length, n - 1) == Some(o[a..b]) && RecordOf(c, length, n - 1) == Some(c[a..b]);
      assert o[..b] == o[..a] + o[a..b] && c[..b] == c[..a] + c[a..b];
    }
  }

  function Tail(b: Bytes, length: nat): Bytes
    requires length > 0
  {
    WholeRecords(b, length, 0);
    b[(|b| / length) * length..]
  }

  /** The whole records and the trailing bytes are all there is. */
  lemma RecordsDetermine(o: Bytes, c: Bytes, length: nat)
    requires length > 0 && Tail(o, length) == Tail(c, length)
    requires forall i: nat :: RecordOf(o, length, i) == RecordOf(c, length, i)
    ensures o == c
  {
    var m, n := |o| / length, |c| / length;
    WholeRecords(o, length, m);
    WholeRecords(o, length, n);
    WholeRecords(c, length, m);
    WholeRecords(c, length, n);
    assert m == n;
    RecordsGivePrefix(o, c, length, n);
    assert o == o[..n * length] + Tail(o, length) && c == c[..n * length] + Tail(c, length);
  }

  /** `_compare_record_by_record`: a difference is reported for every record that is not on both
      sides with equal bytes, and one for unequal trailing bytes; there is none exactly when the
      contents are equal. */
  method CompareRecords(oracle: Bytes, candidate: Bytes, length: nat) returns (differences: seq<Difference>)
    requires length > 0
    ensures differences == [] <==> oracle == candidate
    ensures forall i: nat :: RecordAt(i) in differences <==>
      RecordOf(oracle, length, i) != RecordOf(candidate, length, i)
    ensures TrailingPartialRecord in differences <==> Tail(oracle, length) != Tail(candidate, length)
  {
    hide RecordOf, Tail;
    var oracleCount, candidateCount := |oracle| / length, |candidate| / length;
    var count := if oracleCount < candidateCount then candidateCount else oracleCount;
    differences := [];
    for i := 0 to count
      invariant forall k: nat :: RecordAt(k) in differences <==>
        k < i && RecordOf(oracle, length, k) != RecordOf(candidate, length, k)
      invariant forall d :: d in differences ==> d.RecordAt?
    {
      WholeRecords(oracle, length, i);
      WholeRecords(candidate, length, i);
      if i >= oracleCount {
        differences := differences + [RecordAt(i)];
      } else if i >= candidateCount {
        differences := differences + [RecordAt(i)];
      } else if RecordOf(oracle, length, i) != RecordOf(candidate, length, i) {
        differences := differences + [RecordAt(i)];
      }
    }
    forall k: nat | k >= count ensures RecordOf(oracle, length, k) == RecordOf(candidate, length, k) {
      WholeRecords(oracle, length, k);
      WholeRecords(candidate, length, k);
    }
    if differences == [] && Tail(oracle, length) == Tail(candidate, length) {
      forall k: nat ensures RecordOf(oracle, length, k) == RecordOf(candidate, length, k) {
        assert RecordAt(k) !in differences;
      }
      RecordsDetermine(oracle, candidate, length);
    }
    if differences != [] {
      assert differences[0] in differences && RecordAt(differences[0].index) in differences;
      assert oracle != candidate;
    }
    if Tail(oracle, length) != Tail(candidate, length) {
      differences := differences + [TrailingPartialRecord];
    }
  }

  /** `FixedRecordComparator.compare`, given each side's captured record count. */
  method CompareFixed(oracle: Option<Bytes>, oracleCount: Option<nat>, candidate: Option<Bytes>,
      candidateCount: Option<nat>, missing: OnMissing)
    returns (r: Comparison)
    ensures r.result == MATCH <==>
      oracle.Some? && oracle == candidate
        && (oracleCount.Some? && candidateCount.Some? ==> oracleCount == candidateCount)
    ensures r.result == MATCH <==> r.differences == []
    ensures r.result == INCONCLUSIVE <==> (oracle.None? || candidate.None?) && missing == UNAVAILABLE
  {
    match HandleMissing(oracle, candidate, missing) {
      case Some(c) =>
        return c;
      case None =>
    }
    var o, c := oracle.value, candidate.value;
    if oracleCount.Some? && candidateCount.Some? && oracleCount != candidateCount {
      return Comparison(MISMATCH, [RecordCount]);
    }
    if o == c {
      return Comparison(MATCH, []);
    }
    var length :=
      if oracleCount.Some? && oracleCount.value > 0 then |o| / oracleCount.value
      else if candidateCount.Some? && candidateCount.value > 0 then |c| / candidateCount.value
      else 0;
    if length > 0 {
      var differences := CompareRecords(o, c, length);
      if differences == [] {
        return Comparison(MATCH, []);
      }
      return Comparison(MISMATCH, differences);
    }
    return Comparison(MISMATCH, [Content]);
  }
}
