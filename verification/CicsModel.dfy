/** The CICS command IR, the supported subset and the four grouped lists of the Spring model
    (engine/cics/subset.py, engine/cics/model.py, engine/cics/naming.py). */
module CicsModel {

  datatype CommandType =
    | SEND | RECEIVE
    | READ | WRITE | REWRITE | DELETE | STARTBR | READNEXT | READPREV | ENDBR
    | LINK | XCTL | RETURN
    | SYNCPOINT | ABEND
    | HANDLE_CONDITION | HANDLE_AID | ASSIGN
    | ALLOCATE | FREE | HOLD | RELEASE
    | WRITEQ | READQ | DELETEQ
    | SET | IGNORE | POP | PUSH

  /** The operands of one EXEC CICS command that the mapping reads. */
  datatype Command = Command(
    ctype: CommandType,
    mapName: string,
    resourceName: string,
    programName: string,
    intoField: string,
    fromField: string,
    lengthField: string,
    transactionId: string,
    commarea: string,
    rawText: string)

  datatype Status = Mapped | ExplicitOnly | Unsupported

  datatype Category = TerminalIo | ProgramInteraction | ResourceAccess | BoundaryOnly | Carried

  predicate IsQueueCommand(t: CommandType) { t in {WRITEQ, READQ, DELETEQ} }

  predicate IsFileCommand(t: CommandType) {
    t in {READ, WRITE, REWRITE, DELETE, STARTBR, READNEXT, READPREV, ENDBR}
  }

  /** `classify_command`: the tables are tried in this order, so RETURN is an interaction. */
  function Classify(t: CommandType): (Status, Category) {
    if t in {SEND, RECEIVE} then (Mapped, TerminalIo)
    else if t in {LINK, XCTL, RETURN} then (Mapped, ProgramInteraction)
    else if IsFileCommand(t) || IsQueueCommand(t) then (Mapped, ResourceAccess)
    else if t in {SYNCPOINT, ABEND, RETURN} then (Mapped, BoundaryOnly)
    else if t in {HANDLE_CONDITION, HANDLE_AID, ASSIGN} then (ExplicitOnly, Carried)
    else (Unsupported, Carried)
  }

  // ---- the Spring model ----

  datatype Io = Io(kind: CommandType, mapName: string, dataField: string, lengthField: string, rawText: string)

  datatype Interaction = Interaction(kind: CommandType, program: string, commarea: string, rawText: string)

  datatype Access = Access(operation: CommandType, isQueue: bool, resource: string, rawText: string)

  datatype BoundaryKind = Commit | Rollback | PseudoConversational

  datatype Boundary = Boundary(kind: BoundaryKind, transactionId: string, commarea: string, rawText: string)

  datatype FlowStep = FlowStep(index: nat, status: Status, kind: CommandType, rawText: string)

  datatype Service = Service(
    sourceProgram: string,
    flow: seq<FlowStep>,
    terminalIos: seq<Io>,
    interactions: seq<Interaction>,
    accesses: seq<Access>,
    boundaries: seq<Boundary>)

  // ---- names ----

  /** `_value_name`: a host variable without its leading colons. */
  function ValueName(value: string): (r: string)
    ensures r == "" || r[0] != ':'
    ensures value != "" && value[0] != ':' ==> r == value
  {
    if value == "" then "" else if value[0] == ':' then ValueName(value[1..]) else value
  }

  /** The operand is `k` colons and then `name`. */
  predicate AfterColons(value: string, name: string, k: nat) {
    k <= |value| && value[k..] == name && forall i :: 0 <= i < k ==> value[i] == ':'
  }

  /** `name` is what stands behind the colons an operand starts with. */
  ghost predicate Behind(value: string, name: string) {
    (name == "" || name[0] != ':') && exists k: nat :: AfterColons(value, name, k)
  }

  lemma {:induction false} ValueNameIsBehind(value: string)
    ensures Behind(value, ValueName(value))
  {
    if value == "" || value[0] != ':' {
      assert AfterColons(value, value, 0);
    } else {
      hide AfterColons;
      ValueNameIsBehind(value[1..]);
      var k: nat :| AfterColons(value[1..], ValueName(value[1..]), k);
      OneColonMore(value, ValueName(value), k);
    }
  }

  lemma OneColonMore(value: string, name: string, k: nat)
    requires value != "" && value[0] == ':' && AfterColons(value[1..], name, k)
    ensures AfterColons(value, name, k + 1)
  {
    var rest := value[1..];
    forall i | 0 <= i < k + 1 ensures value[i] == ':' { if i > 0 { assert value[i] == rest[i - 1]; } }
  }

  /** Only one name stands there. */
  lemma OneBehind(value: string, a: string, b: string)
    requires Behind(value, a) && Behind(value, b)
    ensures a == b
  {
    var j: nat :| AfterColons(value, a, j);
    var k: nat :| AfterColons(value, b, k);
    ColonsEnd(value, a, j, b, k);
    ColonsEnd(value, b, k, a, j);
  }

  lemma ColonsEnd(value: string, a: string, j: nat, b: string, k: nat)
    requires AfterColons(value, a, j) && AfterColons(value, b, k) && (a == "" || a[0] != ':')
    ensures k <= j
  {
    if j < |value| { assert a[0] == value[j]; }
  }

  const UPPER := "ABCDEFGHIJKLMNOPQRSTUVWXYZ"
  const LOWER := "abcdefghijklmnopqrstuvwxyz"
  const DIGITS := "0123456789"

  /** The letters change case, the digits do not. */
  lemma CharacterCases(i: nat)
    requires i < 26
    ensures IsAlphanumeric(UPPER[i]) && LowerChar(UPPER[i]) == LOWER[i] && UpperChar(UPPER[i]) == UPPER[i]
    ensures IsAlphanumeric(LOWER[i]) && UpperChar(LOWER[i]) == UPPER[i] && LowerChar(LOWER[i]) == LOWER[i]
    ensures i < 10 ==> IsAlphanumeric(DIGITS[i]) && LowerChar(DIGITS[i]) == DIGITS[i] == UpperChar(DIGITS[i])
  {
    AlphabetAt(i);
  }

  lemma AlphabetAt(i: nat)
    requires i < 26
    ensures UPPER[i] == 'A' + i as char && LOWER[i] == 'a' + i as char && (i < 10 ==> DIGITS[i] == '0' + i as char)
  {
  }

  /** Nothing else belongs to a token. */
  lemma OnlyTheseCharacters(c: char)
    requires IsAlphanumeric(c)
    ensures exists i :: 0 <= i < 26 && (c == UPPER[i] || c == LOWER[i] || (i < 10 && c == DIGITS[i]))
  {
    if 'a' <= c {
      AlphabetAt((c - 'a') as int);
    } else if 'A' <= c {
      AlphabetAt((c - 'A') as int);
    } else {
      AlphabetAt((c - '0') as int);
    }
  }

  function FirstNonEmpty(a: string, b: string): string { if a != "" then a else b }

  predicate IsAlphanumeric(c: char) { 'a' <= c <= 'z' || 'A' <= c <= 'Z' || '0' <= c <= '9' }

  function LowerChar(c: char): char { if 'A' <= c <= 'Z' then c - 'A' + 'a' else c }

  function UpperChar(c: char): char { if 'a' <= c <= 'z' then c - 'a' + 'A' else c }

  /** `pascal` before its fallback: a letter that starts a token is upper-cased, the rest of the
      token lower-cased, separators dropped. */
  function Capitalized(value: string, inToken: bool): string {
    if value == "" then ""
    else if !IsAlphanumeric(value[0]) then Capitalized(value[1..], false)
    else [if inToken then LowerChar(value[0]) else UpperChar(value[0])] + Capitalized(value[1..], true)
  }

  function Pascal(value: string): (r: string)
    ensures r != ""
  {
    var name := Capitalized(value, false);
    if name == "" then "Unknown" else name
  }

  lemma PascalUnknown()
    ensures Pascal("Unknown") == "Unknown"
  {
    var s := "Unknown";
    assert s[1..] == "nknown" && s[2..] == "known" && s[3..] == "nown" && s[4..] == "own" && s[5..] == "wn"
      && s[6..] == "n";
    assert s[1..][1..] == s[2..] && s[2..][1..] == s[3..] && s[3..][1..] == s[4..] && s[4..][1..] == s[5..]
      && s[5..][1..] == s[6..] && s[6..][1..] == "";
    assert Capitalized(s[6..], true) == "n";
    assert Capitalized(s[5..], true) == "wn";
    assert Capitalized(s[4..], true) == "own";
    assert Capitalized(s[3..], true) == "nown";
    assert Capitalized(s[2..], true) == "known";
    assert Capitalized(s[1..], true) == "nknown";
  }
}
