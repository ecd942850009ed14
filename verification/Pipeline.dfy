/** engine/pipeline.py and engine/execution/artifacts.py: which observable effects of two executions
    are captured and compared, and what it means that every comparison is a MATCH. */
module Pipeline {
  import opened Bytes
  import opened Numerals
  import opened Options
  import opened Comparators
  import Integrity

  // ---- declarations and executions ----

  datatype ArtifactType = STDOUT | STDERR | EXIT_STATUS | TEXT_FILE | FIXED_RECORD

  function TypeName(t: ArtifactType): string {
    match t
    case STDOUT => "STDOUT"
    case STDERR => "STDERR"
    case EXIT_STATUS => "EXIT_STATUS"
    case TEXT_FILE => "TEXT_FILE"
    case FIXED_RECORD => "FIXED_RECORD"
  }

  /** `WorkloadArtifact`; an absent failure policy treats a missing side as UNAVAILABLE. */
  datatype Declared = Declared(
    logicalName: string, artifactType: ArtifactType, comparatorId: string, outputPath: Option<string>,
    normalization: seq<string>, order: Order, missing: OnMissing, recordLength: Option<int>)

  /** The return code of a process. */
  type ExitCode = n: int | -0x8000_0000 <= n < 0x1_0000_0000

  datatype Execution = Execution(id: string, stdout: Bytes, stderr: Bytes, exitCode: Option<ExitCode>,
      files: map<string, Bytes>)

  /** The number an exit status is compared as: no exit code is taken for -1. */
  function ExitValue(e: Execution): ExitCode { if e.exitCode.Some? then e.exitCode.value else -1 }

  lemma ExitCodeParses(n: ExitCode)
    ensures ParseInt(RenderInt(n)) == Some(n as int)
  {
    ParseRendered(n);
    PowerGrows(10, MAX_DIGITS);
    assert Power(10) == 10_000_000_000;
  }

  /** `_extract_artifact_content`. */
  function ContentOf(a: Declared, e: Execution): Option<Bytes> {
    match a.artifactType
    case STDOUT => Some(e.stdout)
    case STDERR => Some(e.stderr)
    case EXIT_STATUS => Some(RenderInt(ExitValue(e)))
    case _ =>
      if a.outputPath.Some? && a.outputPath.value != "" && a.outputPath.value in e.files
      then Some(e.files[a.outputPath.value]) else None
  }

  // ---- capture ----

  datatype Captured = Captured(
    artifactId: string, artifactType: ArtifactType, logicalName: string, role: string,
    content: Option<Bytes>, recordCount: Option<nat>, executionId: string)

  function ArtifactId(t: ArtifactType, present: bool, name: string, execution: string): string {
    if !present then "missing-" + name + "-" + execution
    else
      match t
      case STDOUT => "stdout-" + execution
      case STDERR => "stderr-" + execution
      case EXIT_STATUS => "exit-" + execution
      case TEXT_FILE => "text-" + name + "-" + execution
      case FIXED_RECORD => "fixed-" + name + "-" + execution
  }

  datatype Failure = IndivisibleRecords | ComparatorMismatch | UnknownNormalization | ReaderRaised

  /** A value, or the ValueError or reader exception that ends the pipeline. */
  datatype Attempt<+T> = Done(value: T) | Failed(failure: Failure) {
    predicate IsFailure() { Failed? }

    function PropagateFailure<U>(): Attempt<U>
      requires Failed?
    {
      Failed(failure)
    }

    function Extract(): T
      requires Done?
    {
      value
    }
  }

  /** Content whose length is no multiple of the declared record length. */
  predicate Indivisible(a: Declared, content: Option<Bytes>) {
    && a.artifactType == FIXED_RECORD && content.Some? && a.recordLength.Some? && a.recordLength.value > 0
    && |content.value| % a.recordLength.value != 0
  }

  function RecordCountOf(a: Declared, content: Option<Bytes>): Option<nat> {
    if a.artifactType != FIXED_RECORD then None
    else if content.None? then Some(0)
    else if a.recordLength.Some? && a.recordLength.value > 0 then Some(|content.value| / a.recordLength.value)
    else None
  }

  /** Exit statuses are captured under a name of their own. */
  function CapturedName(a: Declared, content: Option<Bytes>): string {
    if a.artifactType == EXIT_STATUS && content.Some? then "exit_status" else a.logicalName
  }

  /** `_capture_artifact`. */
  function Capture(a: Declared, content: Option<Bytes>, execution: string, role: string): Attempt<Captured> {
    if Indivisible(a, content) then Failed(IndivisibleRecords)
    else
      Done(Captured(
        ArtifactId(a.artifactType, content.Some?, a.logicalName, execution), a.artifactType,
        CapturedName(a, content), role, content, RecordCountOf(a, content), execution))
  }

  // ---- one comparison ----

  datatype Finding = Differs(difference: Difference) | ImageNotCompared

  /** A comparison and the two artifacts it is about. */
  datatype Compared = Compared(
    declared: Declared, oracle: Captured, candidate: Captured, result: ComparisonResult, findings: seq<Finding>,
    normalization: seq<string>, order: Order, policy: string)

  /** One side of a comparison, the oracle's if `oracle`. */
  function Side(x: Compared, oracle: bool): Captured { if oracle then x.oracle else x.candidate }

  /** The names under which a side has nothing to compare. */
  function MissingNames(xs: seq<Compared>, oracle: bool): set<string> {
    set x | x in xs && Side(x, oracle).content.None? :: x.declared.logicalName
  }

  lemma MissingAppend(xs: seq<Compared>, ys: seq<Compared>, oracle: bool)
    ensures MissingNames(xs + ys, oracle) == MissingNames(xs, oracle) + MissingNames(ys, oracle)
  {
    assert forall x :: x in xs + ys <==> x in xs || x in ys;
  }

  lemma MissingOne(x: Compared, oracle: bool)
    ensures MissingNames([x], oracle) == if Side(x, oracle).content.None? then {x.declared.logicalName} else {}
  {
    assert x in [x];
  }

  function Findings(ds: seq<Difference>): seq<Finding> { seq(|ds|, i requires 0 <= i < |ds| => Differs(ds[i])) }

  function PolicyName(p: OnMissing): string { if p == UNAVAILABLE then "UNAVAILABLE" else "FAILED" }

  predicate IsText(t: ArtifactType) { t == STDOUT || t == STDERR || t == TEXT_FILE }

  /** The result of a registered comparator, with the policies it says it applied. */
  function Concluded(a: Declared, oracle: Captured, candidate: Captured, c: Comparison): Compared {
    var both := oracle.content.Some? && candidate.content.Some?;
    Compared(a, oracle, candidate, c.result, Findings(c.differences),
             if both && IsText(a.artifactType) then a.normalization else [],
             if both && IsText(a.artifactType) then a.order else SEQUENTIAL,
             if both then "" else PolicyName(a.missing))
  }

  /** The characters `str.strip` removes. */
  predicate IsBlank(c: char) {
    var n := c as int;
    || 9 <= n <= 13 || 28 <= n <= 32 || n == 0x85 || n == 0xA0 || n == 0x1680 || 0x2000 <= n <= 0x200A
    || n == 0x2028 || n == 0x2029 || n == 0x202F || n == 0x205F || n == 0x3000
  }

  function Strip(s: string): string {
    if s != "" && IsBlank(s[0]) then Strip(s[1..])
    else if s != "" && IsBlank(s[|s| - 1]) then Strip(s[..|s| - 1])
    else s
  }

  /** The declaration names another comparator than the one registered for its type. */
  predicate Misbound(a: Declared) {
    var declared := Strip(a.comparatorId);
    declared != "" && Some(Integrity.ResolveAlias(declared)) != Integrity.CanonicalComparator(TypeName(a.artifactType))
  }

  predicate Normalizable(a: Declared) { forall n :: n in a.normalization ==> n == CRLF_TO_LF }

  /** The declared artifact ends the pipeline with a ValueError. */
  predicate Faulty(a: Declared, o: Execution, c: Execution) {
    || Indivisible(a, ContentOf(a, o)) || Indivisible(a, ContentOf(a, c)) || Misbound(a)
    || (IsText(a.artifactType) && ContentOf(a, o).Some? && ContentOf(a, c).Some? && !Normalizable(a))
  }

  /** The two executions agree on a declared artifact, as far as its declaration tells them apart. */
  ghost predicate Alike(a: Declared, o: Execution, c: Execution) {
    match a.artifactType
    case EXIT_STATUS => ExitValue(o) == ExitValue(c)
    case FIXED_RECORD => ContentOf(a, o).Some? && ContentOf(a, o) == ContentOf(a, c)
    case _ => Agree(ContentOf(a, o), ContentOf(a, c), a.normalization, a.order)
  }

  lemma {:induction false} NormalizedIff(content: Bytes, policy: seq<string>)
    ensures Normalized(content, policy).Some? <==> forall n :: n in policy ==> n == CRLF_TO_LF
    decreases |policy|
  {
    hide FoldCrLf;
    if policy == [] {
    } else {
      var k := |policy| - 1;
      NormalizedIff(content, policy[..k]);
      assert policy == policy[..k] + [policy[k]];
      assert policy[k] in policy;
      assert Normalized(content, policy).Some? <==> Normalized(content, policy[..k]).Some? && policy[k] == CRLF_TO_LF;
      assert forall n :: n in policy <==> n in policy[..k] || n == policy[k];
    }
  }

  /** What the evidence of a comparison is bound to. */
  predicate Bound(x: Compared, o: Execution, c: Execution) {
    && x.oracle.role == "ORACLE" && x.candidate.role == "CANDIDATE"
    && x.oracle.artifactType == x.candidate.artifactType == x.declared.artifactType
    && x.oracle.executionId == o.id && x.candidate.executionId == c.id
    && x.oracle.logicalName == CapturedName(x.declared, x.oracle.content)
    && x.candidate.logicalName == CapturedName(x.declared, x.candidate.content)
    && x.oracle.artifactId == ArtifactId(x.declared.artifactType, x.oracle.content.Some?, x.declared.logicalName, o.id)
    && x.candidate.artifactId ==
       ArtifactId(x.declared.artifactType, x.candidate.content.Some?, x.declared.logicalName, c.id)
    && (x.result == MATCH <==> x.findings == [])
  }

  // ---- what a comparison tells, without the functions that compute it ----

  /** What an execution has for an artifact of this type and path. */
  predicate Produced(t: ArtifactType, path: Option<string>, e: Execution, content: Option<Bytes>) {
    && (t == STDOUT ==> content == Some(e.stdout))
    && (t == STDERR ==> content == Some(e.stderr))
    && (t == EXIT_STATUS ==>
          content.Some? && ParseInt(content.value) == Some(if e.exitCode.Some? then e.exitCode.value as int else -1))
    && (t == TEXT_FILE || t == FIXED_RECORD ==>
          if path.Some? && path.value != "" && path.value in e.files then content == Some(e.files[path.value])
          else content == None)
  }

  /** Only record files count: nothing when missing, whole records when their length is declared. */
  predicate Counted(a: Declared, s: Captured) {
    if a.artifactType != FIXED_RECORD then s.recordCount == None
    else if s.content.None? then s.recordCount == Some(0)
    else if a.recordLength.Some? && a.recordLength.value > 0
    then s.recordCount.Some? && s.recordCount.value * a.recordLength.value == |s.content.value|
    else s.recordCount == None
  }

  /** A missing side is INCONCLUSIVE unless the policy says otherwise, and nothing else is. */
  predicate Resulted(x: Compared, policy: OnMissing) {
    x.result == INCONCLUSIVE <==> (x.oracle.content.None? || x.candidate.content.None?) && policy == UNAVAILABLE
  }

  /** Normalization and ordering are those of texts present on both sides, the policy that of the others. */
  predicate Reported(x: Compared, t: ArtifactType, normalization: seq<string>, order: Order, policy: OnMissing) {
    var both := x.oracle.content.Some? && x.candidate.content.Some?;
    var text := t == STDOUT || t == STDERR || t == TEXT_FILE;
    && x.normalization == (if both && text then normalization else [])
    && x.order == (if both && text then order else SEQUENTIAL)
    && x.policy == (if both then "" else if policy == UNAVAILABLE then "UNAVAILABLE" else "FAILED")
  }

  /** The comparison of a declared artifact. */
  predicate Tells(x: Compared, a: Declared, o: Execution, c: Execution) {
    && x.declared == a
    && Produced(a.artifactType, a.outputPath, o, x.oracle.content)
    && Produced(a.artifactType, a.outputPath, c, x.candidate.content)
    && Counted(a, x.oracle) && Counted(a, x.candidate)
    && Resulted(x, a.missing) && Reported(x, a.artifactType, a.normalization, a.order, a.missing)
  }

  lemma ContentIsProduced(a: Declared, e: Execution)
    ensures Produced(a.artifactType, a.outputPath, e, ContentOf(a, e))
  {
    hide ParseInt, RenderInt;
    ExitCodeParses(ExitValue(e));
  }

  lemma CapturedIsCounted(a: Declared, content: Option<Bytes>, execution: string, role: string)
    requires !Indivisible(a, content)
    ensures Counted(a, Capture(a, content, execution, role).value)
  {
  }

  // ---- what ends the pipeline, from the declaration and the files ----

  /** The part of a text between the blanks it starts and ends with. */
  predicate Between(s: string, i: int, j: int) {
    && 0 <= i <= j <= |s| && (forall k :: 0 <= k < i ==> IsBlank(s[k])) && (forall k :: j <= k < |s| ==> IsBlank(s[k]))
    && (i < j ==> !IsBlank(s[i]) && !IsBlank(s[j - 1]))
  }

  lemma {:induction false} StripIsBetween(s: string)
    ensures exists i, j :: Between(s, i, j) && Strip(s) == s[i..j]
    decreases |s|
  {
    hide IsBlank;
    if s != "" && IsBlank(s[0]) {
      StripIsBetween(s[1..]);
      var i, j :| Between(s[1..], i, j) && Strip(s[1..]) == s[1..][i..j];
      forall k | 0 <= k < i + 1 ensures IsBlank(s[k]) { if k > 0 { assert s[k] == s[1..][k - 1]; } }
      forall k | j + 1 <= k < |s| ensures IsBlank(s[k]) { assert s[k] == s[1..][k - 1]; }
      assert Between(s, i + 1, j + 1) && s[1..][i..j] == s[i + 1..j + 1];
    } else if s != "" && IsBlank(s[|s| - 1]) {
      var n := |s| - 1;
      StripIsBetween(s[..n]);
      var i, j :| Between(s[..n], i, j) && Strip(s[..n]) == s[..n][i..j];
      forall k | j <= k < |s| ensures IsBlank(s[k]) { if k < n { assert s[k] == s[..n][k]; } }
      assert Between(s, i, j) && s[..n][i..j] == s[i..j];
    } else {
      assert Between(s, 0, |s|) && s[0..|s|] == s;
    }
  }

  /** The declaration names a comparator, and none of its type. */
  lemma MisboundExactly(a: Declared)
    ensures Misbound(a) <==>
      Strip(a.comparatorId) != "" && Strip(a.comparatorId) !in Integrity.ComparatorNames(TypeName(a.artifactType))
  {
    hide Strip;
    Integrity.NamesAreAliases(TypeName(a.artifactType), Strip(a.comparatorId));
    HasComparator(a.artifactType);
    hide Integrity.ComparatorNames, Integrity.ResolveAlias, Integrity.CanonicalComparator;
  }

  lemma HasComparator(t: ArtifactType)
    ensures Integrity.ComparatorNames(TypeName(t)) != {}
  {
    assert "stdout-exact" in Integrity.ComparatorNames("STDOUT");
    assert "stderr-exact" in Integrity.ComparatorNames("STDERR");
    assert "exit-status-exact" in Integrity.ComparatorNames("EXIT_STATUS");
    assert "text-file-exact" in Integrity.ComparatorNames("TEXT_FILE");
    assert "fixed-record-exact" in Integrity.ComparatorNames("FIXED_RECORD");
  }

  /** The length of a file is no multiple of the record length. */
  predicate Uneven(path: Option<string>, length: Option<int>, e: Execution) {
    && path.Some? && path.value != "" && path.value in e.files
    && length.Some? && length.value > 0 && |e.files[path.value]| % length.value != 0
  }

  /** The artifact is a text both executions have. */
  predicate BothText(a: Declared, o: Execution, c: Execution) {
    || a.artifactType == STDOUT || a.artifactType == STDERR
    || (a.artifactType == TEXT_FILE && a.outputPath.Some? && a.outputPath.value != ""
        && a.outputPath.value in o.files && a.outputPath.value in c.files)
  }

  /** Exactly these declarations end the pipeline: record files of uneven length, comparators of another
      type, and normalizations that do not exist, of texts that both executions have. */
  lemma FaultyExactly(a: Declared, o: Execution, c: Execution)
    ensures Faulty(a, o, c) <==>
      || (a.artifactType == FIXED_RECORD
          && (Uneven(a.outputPath, a.recordLength, o) || Uneven(a.outputPath, a.recordLength, c)))
      || (Strip(a.comparatorId) != ""
          && Strip(a.comparatorId) !in Integrity.ComparatorNames(TypeName(a.artifactType)))
      || (BothText(a, o, c) && exists n :: n in a.normalization && n != "crlf_to_lf")
  {
    hide Strip, RenderInt, Integrity.ComparatorNames, Misbound;
    MisboundExactly(a);
  }

  /** One round of the loop over the declared artifacts: extraction, capture, comparator binding and
      comparison. */
  method CompareArtifact(a: Declared, o: Execution, c: Execution) returns (r: Attempt<Compared>)
    ensures r.Failed? <==> Faulty(a, o, c)
    ensures r.Failed? ==> r.failure != ReaderRaised
    ensures r.Done? ==> Bound(r.value, o, c) && Tells(r.value, a, o, c)
    ensures r.Done? ==> r.value.oracle.content == ContentOf(a, o) && r.value.candidate.content == ContentOf(a, c)
    ensures r.Done? ==> (r.value.result == MATCH <==> Alike(a, o, c))
  {
    hide RenderInt, Strip, Normalized, ApplyOrdering, ParseInt, IsBlank, Produced, Counted;
    ContentIsProduced(a, o);
    ContentIsProduced(a, c);
    var oc, cc := ContentOf(a, o), ContentOf(a, c);
    var oracle :- Capture(a, oc, o.id, "ORACLE");
    var candidate :- Capture(a, cc, c.id, "CANDIDATE");
    CapturedIsCounted(a, oc, o.id, "ORACLE");
    CapturedIsCounted(a, cc, c.id, "CANDIDATE");
    if Misbound(a) {
      return Failed(ComparatorMismatch);
    }
    var comparison: Comparison;
    if a.artifactType == FIXED_RECORD {
      comparison := CompareFixed(oc, oracle.recordCount, cc, candidate.recordCount, a.missing);
    } else if a.artifactType == EXIT_STATUS {
      ExitCodeParses(ExitValue(o));
      ExitCodeParses(ExitValue(c));
      comparison := CompareExit(oc, cc, a.missing);
    } else {
      if oc.Some? { NormalizedIff(oc.value, a.normalization); }
      if cc.Some? { NormalizedIff(cc.value, a.normalization); }
      var text := CompareText(oc, cc, a.normalization, a.order, a.missing);
      if text.None? {
        return Failed(UnknownNormalization);
      }
      comparison := text.value;
    }
    return Done(Concluded(a, oracle, candidate, comparison));
  }

  // ---- the declared artifacts and the three that are always compared ----

  function Default(t: ArtifactType, name: string): Declared {
    var id := match t case STDOUT => "stdout-exact" case STDERR => "stderr-exact" case _ => "exit-status-exact";
    Declared(name, t, id, None, [], SEQUENTIAL, UNAVAILABLE, None)
  }

  const ALWAYS: seq<(ArtifactType, string)> := [(STDOUT, "stdout"), (STDERR, "stderr"), (EXIT_STATUS, "exit-status")]

  predicate Declares(artifacts: seq<Declared>, t: ArtifactType) { exists a :: a in artifacts && a.artifactType == t }

  predicate DistinctNames(artifacts: seq<Declared>) {
    forall i, j :: 0 <= i < j < |artifacts| ==> artifacts[i].logicalName != artifacts[j].logicalName
  }

  /** The name after `n` rounds. */
  function Suffixed(wanted: string, n: nat): string { if n == 0 then wanted else Suffixed(wanted, n - 1) + "-required" }

  lemma {:induction false} SuffixedStarts(wanted: string, n: nat)
    ensures wanted <= Suffixed(wanted, n)
  {
    if n > 0 { SuffixedStarts(wanted, n - 1); }
  }

  /** `while logical_name in names: logical_name += "-required"`: the first free name. */
  method FreshName(wanted: string, names: set<string>) returns (name: string)
    ensures name !in names && wanted <= name
    ensures exists n: nat :: name == Suffixed(wanted, n) && forall k: nat :: k < n ==> Suffixed(wanted, k) in names
  {
    name := wanted;
    ghost var n: nat := 0;
    while name in names
      invariant name == Suffixed(wanted, n)
      invariant forall k: nat :: k < n ==> Suffixed(wanted, k) in names
      decreases set n | n in names && |n| >= |name|
    {
      ghost var before := set n | n in names && |n| >= |name|;
      assert name in before;
      name := name + "-required";
      n := n + 1;
    }
    SuffixedStarts(wanted, n);
  }

  predicate IsFile(t: ArtifactType) { t == TEXT_FILE || t == FIXED_RECORD }

  /** A default comparison of a type the declaration omits. */
  ghost predicate Addition(declared: seq<Declared>, a: Declared) {
    && !IsFile(a.artifactType) && !Declares(declared, a.artifactType) && a == Default(a.artifactType, a.logicalName)
    && (a.artifactType == STDOUT ==> "stdout" <= a.logicalName)
    && (a.artifactType == STDERR ==> "stderr" <= a.logicalName)
    && (a.artifactType == EXIT_STATUS ==> "exit-status" <= a.logicalName)
  }

  /** A declaration followed by additions, each of another type. */
  ghost predicate Extends(declared: seq<Declared>, r: seq<Declared>) {
    && declared <= r && (DistinctNames(declared) ==> DistinctNames(r))
    && (forall i, j :: |declared| <= i < j < |r| ==> r[i].artifactType != r[j].artifactType)
    && forall i :: |declared| <= i < |r| ==> Addition(declared, r[i])
  }

  lemma DeclaresLonger(r: seq<Declared>, more: seq<Declared>)
    requires r <= more
    ensures forall t :: Declares(r, t) ==> Declares(more, t)
  {
    forall t | Declares(r, t) ensures Declares(more, t) {
      var a :| a in r && a.artifactType == t;
      assert a in more;
    }
  }

  method AddUnlessDeclared(ghost declared: seq<Declared>, r: seq<Declared>, t: ArtifactType, wanted: string)
    returns (r': seq<Declared>)
    requires Extends(declared, r) && !IsFile(t)
    requires wanted == match t case STDOUT => "stdout" case STDERR => "stderr" case _ => "exit-status"
    ensures Extends(declared, r') && r <= r' && Declares(r', t)
    ensures if Declares(r, t) then r' == r else |r'| == |r| + 1 && r'[|r|].artifactType == t
  {
    if Declares(r, t) {
      return r;
    }
    DeclaresLonger(declared, r);
    var name := FreshName(wanted, set a | a in r :: a.logicalName);
    r' := r + [Default(t, name)];
    assert r'[|r|].artifactType == t;
    forall i | 0 <= i < |r| ensures r[i].logicalName != name && r[i].artifactType != t { assert r[i] in r; }
    hide Declares, Default;
    assert Addition(declared, r'[|r|]);
    forall i | |declared| <= i < |r'| ensures Addition(declared, r'[i]) { if i < |r| { assert r'[i] == r[i]; } }
  }

  /** The first part of `_run_declaration_driven`: stdout, stderr and the exit status are compared even
      when the workload does not declare them. */
  method Required(declared: seq<Declared>) returns (r: seq<Declared>)
    ensures Extends(declared, r)
    ensures Declares(r, STDOUT) && Declares(r, STDERR) && Declares(r, EXIT_STATUS)
  {
    hide Extends, Declares;
    ExtendsItself(declared);
    r := declared;
    for k := 0 to |ALWAYS|
      invariant Extends(declared, r)
      invariant forall j :: 0 <= j < k ==> Declares(r, ALWAYS[j].0)
    {
      var more := AddUnlessDeclared(declared, r, ALWAYS[k].0, ALWAYS[k].1);
      DeclaresLonger(r, more);
      r := more;
    }
    assert ALWAYS[0].0 == STDOUT && ALWAYS[1].0 == STDERR && ALWAYS[2].0 == EXIT_STATUS;
  }

  lemma ExtendsItself(declared: seq<Declared>)
    ensures Extends(declared, declared)
  {
  }
}
