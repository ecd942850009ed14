/** engine/evidence/integrity.py: the checks an evidence manifest must pass before a verdict is
    derived from it.  Each check reports exactly the faults of its kind, and a manifest is admitted
    exactly when it satisfies the declarative relation `Admissible`. */
module Integrity {
  import opened Json
  import opened Options
  import opened Evidence

  // ---- names ----

  const ORACLE: string := "ORACLE"
  const CANDIDATE: string := "CANDIDATE"
  const MATCH_RESULT: string := "MATCH"
  const EXIT_STATUS_TYPE: string := "EXIT_STATUS"

  predicate IsOracle(e: ExecutionEvidence) { "oracle" <= e.runtimeId }

  predicate IsCandidate(e: ExecutionEvidence) { "candidate" <= e.runtimeId }

  predicate KnownResult(s: string) { s == "MATCH" || s == "MISMATCH" || s == "INCONCLUSIVE" }

  /** `CANONICAL_COMPARATOR_IDS`. */
  function CanonicalComparator(artifactType: string): Option<string> {
    if artifactType == "STDOUT" then Some("STDOUT_COMPARATOR")
    else if artifactType == "STDERR" then Some("STDERR_COMPARATOR")
    else if artifactType == "EXIT_STATUS" then Some("EXIT_STATUS_COMPARATOR")
    else if artifactType == "TEXT_FILE" then Some("TEXT_FILE_COMPARATOR")
    else if artifactType == "FIXED_RECORD" then Some("FIXED_RECORD_COMPARATOR")
    else if artifactType == "BUSINESS_INVARIANT" then Some("BUSINESS_INVARIANT_COMPARATOR")
    else None
  }

  /** `COMPARATOR_ID_ALIASES`. */
  function ResolveAlias(id: string): string {
    if id == "stdout-exact" then "STDOUT_COMPARATOR"
    else if id == "stderr-exact" then "STDERR_COMPARATOR"
    else if id == "exit-status-exact" then "EXIT_STATUS_COMPARATOR"
    else if id == "text-file-exact" then "TEXT_FILE_COMPARATOR"
    else if id == "fixed-record-exact" then "FIXED_RECORD_COMPARATOR"
    else if id == "business-invariant-exact" then "BUSINESS_INVARIANT_COMPARATOR"
    else id
  }

  // ---- faults ----

  datatype Kind =
    | ExecutionOfOtherRun | ArtifactOfOtherRun | ComparisonOfOtherRun
    | ExecutionOfOtherWorkload | ComparisonOfOtherWorkload
    | CandidateOfOtherSource
    | NoOracleIdentity | OtherOracleImage
    | ArtifactOfNoExecution
    | OracleArtifactUnknown | CandidateArtifactUnknown
    | ComparedWithItself | NotAnOracleArtifact | NotACandidateArtifact
    | OracleTypeDiffers | CandidateTypeDiffers | MatchWithDifferences
    | ComparatorNotRegistered
    | ResultUnknown
    | SourceMutated
    | ExitArtifactMissing | ExitComparisonMissing
    | NoSeal | SealBroken
    | NoExecutions | NoOracleExecution | NoCandidateExecution | NothingExecuted
    | NoOracleArtifacts | NoCandidateArtifacts | ArtifactNotCompared | NoComparisons

  /** A fault and the place of the evidence it concerns; faults of the whole manifest are at 0. */
  datatype Violation = Violation(kind: Kind, index: nat)

  /** `by_id`: of several artifacts with one id the last is found. */
  function ById(artifacts: seq<ArtifactEvidence>, id: string): (r: Option<ArtifactIdentity>)
    ensures r.Some? ==> r.value.artifactId == id
  {
    if artifacts == [] then None
    else if artifacts[|artifacts| - 1].artifact.artifactId == id then Some(artifacts[|artifacts| - 1].artifact)
    else ById(artifacts[..|artifacts| - 1], id)
  }

  lemma {:induction false} ByIdFinds(artifacts: seq<ArtifactEvidence>, id: string)
    ensures ById(artifacts, id).Some? ==> exists a :: a in artifacts && a.artifact == ById(artifacts, id).value
    ensures ById(artifacts, id).None? <==> forall a :: a in artifacts ==> a.artifact.artifactId != id
  {
    if artifacts != [] {
      var n := |artifacts| - 1;
      ByIdFinds(artifacts[..n], id);
      assert artifacts == artifacts[..n] + [artifacts[n]];
    }
  }

  ghost predicate ExecutedIn(m: Manifest, id: string, run: Option<string>) {
    exists e :: e in m.executions && e.executionId == id && (run.Some? ==> e.runId == run.value)
  }

  predicate ExitMatters(m: Manifest) {
    exists e :: e in m.executions && ExitIsBehaviour(e)
  }

  predicate HasExitArtifact(m: Manifest) {
    exists a :: a in m.artifacts && a.artifact.artifactType == EXIT_STATUS_TYPE
  }

  predicate HasExitComparison(m: Manifest) {
    exists c :: c in m.comparisons && c.artifactType == EXIT_STATUS_TYPE
  }

  predicate OracleRan(m: Manifest) {
    exists e :: e in m.executions && IsOracle(e)
  }

  predicate CandidateRan(m: Manifest) {
    exists e :: e in m.executions && IsCandidate(e)
  }

  predicate CandidateExecuted(m: Manifest) {
    exists e :: e in m.executions && IsCandidate(e) && e.executionPhase == "EXECUTE"
  }

  /** The exit status is then part of the behaviour being certified. */
  predicate ExitIsBehaviour(e: ExecutionEvidence) {
    (IsCandidate(e) && e.terminationStatus == "nonzero_exit") || (IsOracle(e) && e.terminationStatus == "return_code")
  }

  ghost predicate ArtifactBy(m: Manifest, role: ExecutionEvidence -> bool) {
    exists a, e :: a in m.artifacts && e in m.executions && role(e) && a.executionId == e.executionId
  }

  ghost predicate Compared(m: Manifest, id: string) {
    exists c :: c in m.comparisons && (c.oracleArtifactId == id || c.candidateArtifactId == id)
  }

  /** The executions of the oracle, in order. */
  function OracleRuns(es: seq<ExecutionEvidence>): seq<ExecutionEvidence> {
    if es == [] then []
    else
      var n := |es| - 1;
      OracleRuns(es[..n]) + if IsOracle(es[n]) then [es[n]] else []
  }

  lemma {:induction false} OracleRunsMember(es: seq<ExecutionEvidence>, e: ExecutionEvidence)
    ensures e in OracleRuns(es) <==> e in es && IsOracle(e)
  {
    hide IsOracle;
    if es != [] {
      var n := |es| - 1;
      OracleRunsMember(es[..n], e);
      assert es == es[..n] + [es[n]];
    }
  }

  predicate OtherImage(m: Manifest, e: ExecutionEvidence) {
    m.oracle.Some? && e.imageDigest.Some? && e.imageDigest.value != m.oracle.value.imageDigest
  }

  /** A wrong image, numbered among the executions of the oracle. */
  predicate ImageFault(m: Manifest, v: Violation) {
    && v.kind.OtherOracleImage? && v.index < |OracleRuns(m.executions)|
    && OtherImage(m, OracleRuns(m.executions)[v.index])
  }

  predicate ExecutionFault(m: Manifest, e: ExecutionEvidence, v: Violation) {
    match v.kind
    case ExecutionOfOtherRun => e.runId != m.runId
    case ExecutionOfOtherWorkload => e.workloadId.Some? && e.workloadId.value != m.workloadId
    case SourceMutated => e.treeBefore != e.treeAfter
    case _ => false
  }

  ghost predicate ArtifactFault(m: Manifest, a: ArtifactEvidence, v: Violation) {
    match v.kind
    case ArtifactOfOtherRun => !ExecutedIn(m, a.executionId, Some(m.runId))
    case ArtifactOfNoExecution => !ExecutedIn(m, a.executionId, None)
    case ArtifactNotCompared => m.executions != [] && !Compared(m, a.artifact.artifactId)
    case _ => false
  }

  predicate ComparisonFault(m: Manifest, c: ComparisonEvidence, v: Violation) {
    var oracle, candidate := ById(m.artifacts, c.oracleArtifactId), ById(m.artifacts, c.candidateArtifactId);
    match v.kind
    case ComparisonOfOtherRun => c.runId != m.runId
    case ComparisonOfOtherWorkload => c.workloadId.Some? && c.workloadId.value != m.workloadId
    case OracleArtifactUnknown => oracle.None?
    case CandidateArtifactUnknown => candidate.None?
    case ComparedWithItself => c.oracleArtifactId == c.candidateArtifactId
    case NotAnOracleArtifact => oracle.Some? && oracle.value.producerRole != ORACLE
    case NotACandidateArtifact => candidate.Some? && candidate.value.producerRole != CANDIDATE
    case OracleTypeDiffers => oracle.Some? && oracle.value.artifactType != c.artifactType
    case CandidateTypeDiffers => candidate.Some? && candidate.value.artifactType != c.artifactType
    case MatchWithDifferences => c.result == MATCH_RESULT && c.differences != []
    case ComparatorNotRegistered =>
      CanonicalComparator(c.artifactType).Some?
        && ResolveAlias(c.comparatorId) != CanonicalComparator(c.artifactType).value
    case ResultUnknown => !KnownResult(c.result)
    case _ => false
  }

  /** Faults of the manifest as a whole. */
  ghost predicate WholeFault(m: Manifest, hash: Json -> Digest, v: Violation) {
    v.index == 0 &&
    match v.kind
    case CandidateOfOtherSource => m.candidate.Some? && m.candidate.value.sourceHash != m.source.sourceHash
    case NoOracleIdentity => m.oracle.None?
    case ExitArtifactMissing => ExitMatters(m) && !HasExitArtifact(m)
    case ExitComparisonMissing => ExitMatters(m) && !HasExitComparison(m)
    case NoSeal => m.sealedHash.None?
    case SealBroken => m.sealedHash.Some? && m.sealedHash.value != hash(CanonicalGraph(m))
    case NoExecutions => m.executions == []
    case NoOracleExecution => m.executions != [] && !OracleRan(m)
    case NoCandidateExecution => m.executions != [] && !CandidateRan(m)
    case NothingExecuted => CandidateRan(m) && !CandidateExecuted(m)
    case NoOracleArtifacts => m.executions != [] && !ArtifactBy(m, IsOracle)
    case NoCandidateArtifacts => m.executions != [] && !ArtifactBy(m, IsCandidate)
    case NoComparisons => m.executions != [] && m.comparisons == []
    case _ => false
  }

  /** A fault, at the position it names. */
  ghost predicate Fault(m: Manifest, hash: Json -> Digest, v: Violation) {
    || WholeFault(m, hash, v) || ImageFault(m, v)
    || (v.index < |m.executions| && ExecutionFault(m, m.executions[v.index], v))
    || (v.index < |m.artifacts| && ArtifactFault(m, m.artifacts[v.index], v))
    || (v.index < |m.comparisons| && ComparisonFault(m, m.comparisons[v.index], v))
  }

  // ---- the checks ----

  ghost predicate Reports(vs: seq<Violation>, m: Manifest, hash: Json -> Digest, kind: Violation -> bool) {
    forall v :: v in vs <==> kind(v) && Fault(m, hash, v)
  }

  function When(fault: bool, v: Violation): (r: seq<Violation>)
    ensures forall w :: w in r <==> fault && w == v
  {
    if fault then [v] else []
  }

  predicate RunKind(v: Violation) {
    v.kind.ExecutionOfOtherRun? || v.kind.ArtifactOfOtherRun? || v.kind.ComparisonOfOtherRun?
  }

  /** `_validate_run_bindings`. */
  method RunBindings(m: Manifest, ghost hash: Json -> Digest) returns (vs: seq<Violation>)
    ensures Reports(vs, m, hash, RunKind)
  {
    vs := [];
    for i := 0 to |m.executions|
      invariant forall v :: v in vs <==>
        v.kind.ExecutionOfOtherRun? && v.index < i && ExecutionFault(m, m.executions[v.index], v)
    {
      if m.executions[i].runId != m.runId {
        vs := vs + [Violation(ExecutionOfOtherRun, i)];
      }
    }
    var valid := set e | e in m.executions && e.runId == m.runId :: e.executionId;
    var more: seq<Violation> := [];
    for i := 0 to |m.artifacts|
      invariant forall v :: v in more <==>
        v.kind.ArtifactOfOtherRun? && v.index < i && ArtifactFault(m, m.artifacts[v.index], v)
    {
      if m.artifacts[i].executionId !in valid {
        more := more + [Violation(ArtifactOfOtherRun, i)];
      }
    }
    vs, more := vs + more, [];
    for i := 0 to |m.comparisons|
      invariant forall v :: v in more <==>
        v.kind.ComparisonOfOtherRun? && v.index < i && ComparisonFault(m, m.comparisons[v.index], v)
    {
      if m.comparisons[i].runId != m.runId {
        more := more + [Violation(ComparisonOfOtherRun, i)];
      }
    }
    vs := vs + more;
  }

  predicate WorkloadKind(v: Violation) { v.kind.ExecutionOfOtherWorkload? || v.kind.ComparisonOfOtherWorkload? }

  /** `_validate_workload_bindings`. */
  method WorkloadBindings(m: Manifest, ghost hash: Json -> Digest) returns (vs: seq<Violation>)
    ensures Reports(vs, m, hash, WorkloadKind)
  {
    vs := [];
    for i := 0 to |m.executions|
      invariant forall v :: v in vs <==>
        v.kind.ExecutionOfOtherWorkload? && v.index < i && ExecutionFault(m, m.executions[v.index], v)
    {
      var w := m.executions[i].workloadId;
      if w.Some? && w.value != m.workloadId {
        vs := vs + [Violation(ExecutionOfOtherWorkload, i)];
      }
    }
    var more: seq<Violation> := [];
    for i := 0 to |m.comparisons|
      invariant forall v :: v in more <==>
        v.kind.ComparisonOfOtherWorkload? && v.index < i && ComparisonFault(m, m.comparisons[v.index], v)
    {
      var w := m.comparisons[i].workloadId;
      if w.Some? && w.value != m.workloadId {
        more := more + [Violation(ComparisonOfOtherWorkload, i)];
      }
    }
    vs := vs + more;
  }

  predicate IdentityKind(v: Violation) {
    v.kind.CandidateOfOtherSource? || v.kind.NoOracleIdentity? || v.kind.OtherOracleImage?
  }

  /** `_validate_source_candidate_binding` and `_validate_oracle_binding`. */
  method IdentityBindings(m: Manifest, ghost hash: Json -> Digest) returns (vs: seq<Violation>)
    ensures Reports(vs, m, hash, IdentityKind)
  {
    vs := [];
    if m.candidate.Some? && m.candidate.value.sourceHash != m.source.sourceHash {
      vs := [Violation(CandidateOfOtherSource, 0)];
    }
    if m.oracle.None? {
      return vs + [Violation(NoOracleIdentity, 0)];
    }
    var expected := m.oracle.value.imageDigest;
    var runs := OracleRuns(m.executions);
    var more: seq<Violation> := [];
    for i := 0 to |runs|
      invariant forall v :: v in more <==> v.kind.OtherOracleImage? && v.index < i && OtherImage(m, runs[v.index])
    {
      if runs[i].imageDigest.Some? && runs[i].imageDigest.value != expected {
        more := more + [Violation(OtherOracleImage, i)];
      }
    }
    vs := vs + more;
  }

  predicate ExecutionKind(v: Violation) { v.kind.ArtifactOfNoExecution? || v.kind.SourceMutated? }

  /** `_validate_artifact_execution_binding` and `_validate_source_mutation`. */
  method ExecutionBindings(m: Manifest, ghost hash: Json -> Digest) returns (vs: seq<Violation>)
    ensures Reports(vs, m, hash, ExecutionKind)
  {
    vs := [];
    var valid := set e | e in m.executions :: e.executionId;
    for i := 0 to |m.artifacts|
      invariant forall v :: v in vs <==>
        v.kind.ArtifactOfNoExecution? && v.index < i && ArtifactFault(m, m.artifacts[v.index], v)
    {
      if m.artifacts[i].executionId !in valid {
        vs := vs + [Violation(ArtifactOfNoExecution, i)];
      }
    }
    var more: seq<Violation> := [];
    for i := 0 to |m.executions|
      invariant forall v :: v in more <==>
        v.kind.SourceMutated? && v.index < i && ExecutionFault(m, m.executions[v.index], v)
    {
      if m.executions[i].treeBefore != m.executions[i].treeAfter {
        more := more + [Violation(SourceMutated, i)];
      }
    }
    vs := vs + more;
  }

  predicate UnknownKind(v: Violation) { v.kind.OracleArtifactUnknown? || v.kind.CandidateArtifactUnknown? }

  predicate PairKind(v: Violation) {
    || v.kind.ComparedWithItself? || v.kind.NotAnOracleArtifact? || v.kind.NotACandidateArtifact?
    || v.kind.OracleTypeDiffers? || v.kind.CandidateTypeDiffers? || v.kind.MatchWithDifferences?
  }

  predicate PairingKind(v: Violation) { UnknownKind(v) || PairKind(v) }

  /** `_comparison_pairing_violations`. */
  method PairingViolations(m: Manifest, i: nat) returns (vs: seq<Violation>)
    requires i < |m.comparisons|
    ensures forall v :: v in vs <==> PairKind(v) && v.index == i && ComparisonFault(m, m.comparisons[i], v)
  {
    hide ById, When;
    var c := m.comparisons[i];
    var oracle, candidate := ById(m.artifacts, c.oracleArtifactId), ById(m.artifacts, c.candidateArtifactId);
    var roles :=
      When(c.oracleArtifactId == c.candidateArtifactId, Violation(ComparedWithItself, i)) +
      When(oracle.Some? && oracle.value.producerRole != ORACLE, Violation(NotAnOracleArtifact, i)) +
      When(candidate.Some? && candidate.value.producerRole != CANDIDATE, Violation(NotACandidateArtifact, i));
    var types :=
      When(oracle.Some? && oracle.value.artifactType != c.artifactType, Violation(OracleTypeDiffers, i)) +
      When(candidate.Some? && candidate.value.artifactType != c.artifactType, Violation(CandidateTypeDiffers, i));
    vs := roles + types + When(c.result == MATCH_RESULT && c.differences != [], Violation(MatchWithDifferences, i));
  }

  /** The artifacts a comparison names and the manifest does not hold. */
  method UnknownArtifacts(m: Manifest, i: nat) returns (vs: seq<Violation>)
    requires i < |m.comparisons|
    ensures forall v :: v in vs <==> UnknownKind(v) && v.index == i && ComparisonFault(m, m.comparisons[i], v)
  {
    hide ById, When;
    var c := m.comparisons[i];
    vs := When(ById(m.artifacts, c.oracleArtifactId).None?, Violation(OracleArtifactUnknown, i)) +
          When(ById(m.artifacts, c.candidateArtifactId).None?, Violation(CandidateArtifactUnknown, i));
  }

  /** `_validate_comparison_artifact_binding`. */
  method ComparisonBindings(m: Manifest, ghost hash: Json -> Digest) returns (vs: seq<Violation>)
    ensures Reports(vs, m, hash, PairingKind)
  {
    hide ById, ComparisonFault;
    vs := [];
    for i := 0 to |m.comparisons|
      invariant forall v :: v in vs <==> PairingKind(v) && v.index < i && ComparisonFault(m, m.comparisons[v.index], v)
    {
      var unknown := UnknownArtifacts(m, i);
      var more := PairingViolations(m, i);
      vs := vs + unknown + more;
    }
    PairingFaults(m, hash);
  }

  lemma PairingFaults(m: Manifest, hash: Json -> Digest)
    ensures forall v :: PairingKind(v) ==>
      (Fault(m, hash, v) <==> v.index < |m.comparisons| && ComparisonFault(m, m.comparisons[v.index], v))
  {
    hide ComparisonFault;
  }

  predicate ComparatorKind(v: Violation) { v.kind.ComparatorNotRegistered? || v.kind.ResultUnknown? }

  /** `_validate_comparator_binding` and `_validate_comparison_results`. */
  method ComparatorBindings(m: Manifest, ghost hash: Json -> Digest) returns (vs: seq<Violation>)
    ensures Reports(vs, m, hash, ComparatorKind)
  {
    hide CanonicalComparator, ResolveAlias, KnownResult;
    vs := [];
    for i := 0 to |m.comparisons|
      invariant forall v :: v in vs <==>
        v.kind.ComparatorNotRegistered? && v.index < i && ComparisonFault(m, m.comparisons[v.index], v)
    {
      var c := m.comparisons[i];
      var expected := CanonicalComparator(c.artifactType);
      if expected.Some? && ResolveAlias(c.comparatorId) != expected.value {
        vs := vs + [Violation(ComparatorNotRegistered, i)];
      }
    }
    var more: seq<Violation> := [];
    for i := 0 to |m.comparisons|
      invariant forall v :: v in more <==>
        v.kind.ResultUnknown? && v.index < i && ComparisonFault(m, m.comparisons[v.index], v)
    {
      if !KnownResult(m.comparisons[i].result) {
        more := more + [Violation(ResultUnknown, i)];
      }
    }
    vs := vs + more;
  }

  predicate ExitKind(v: Violation) { v.kind.ExitArtifactMissing? || v.kind.ExitComparisonMissing? }

  /** `_validate_exit_status_completeness`. */
  method ExitChecks(m: Manifest, ghost hash: Json -> Digest) returns (vs: seq<Violation>)
    ensures Reports(vs, m, hash, ExitKind)
  {
    hide CanonicalGraph, ExitMatters, HasExitArtifact, HasExitComparison, CandidateRan, OracleRan;
    vs := [];
    if ExitMatters(m) {
      if !HasExitArtifact(m) {
        vs := vs + [Violation(ExitArtifactMissing, 0)];
      }
      if !HasExitComparison(m) {
        vs := vs + [Violation(ExitComparisonMissing, 0)];
      }
    }
  }

  predicate SealKind(v: Violation) { v.kind.NoSeal? || v.kind.SealBroken? }

  /** `_validate_manifest_integrity`. */
  method SealChecks(m: Manifest, hash: Json -> Digest) returns (vs: seq<Violation>)
    ensures Reports(vs, m, hash, SealKind)
  {
    hide CanonicalGraph, ExitMatters, HasExitArtifact, HasExitComparison, CandidateRan, OracleRan;
    vs := [];
    if m.sealedHash.None? {
      vs := vs + [Violation(NoSeal, 0)];
    } else if m.sealedHash.value != hash(CanonicalGraph(m)) {
      vs := vs + [Violation(SealBroken, 0)];
    }
  }

  predicate RequiredKind(v: Violation) {
    || v.kind.NoExecutions? || v.kind.NoOracleExecution? || v.kind.NoCandidateExecution? || v.kind.NothingExecuted?
    || v.kind.NoOracleArtifacts? || v.kind.NoCandidateArtifacts? || v.kind.ArtifactNotCompared? || v.kind.NoComparisons?
  }

  method UncomparedArtifacts(m: Manifest) returns (vs: seq<Violation>)
    requires m.executions != []
    ensures forall v :: v in vs <==>
      v.kind.ArtifactNotCompared? && v.index < |m.artifacts| && ArtifactFault(m, m.artifacts[v.index], v)
  {
    var compared :=
      (set c | c in m.comparisons :: c.oracleArtifactId) + (set c | c in m.comparisons :: c.candidateArtifactId);
    vs := [];
    for i := 0 to |m.artifacts|
      invariant forall v :: v in vs <==>
        v.kind.ArtifactNotCompared? && v.index < i && ArtifactFault(m, m.artifacts[v.index], v)
    {
      if m.artifacts[i].artifact.artifactId !in compared {
        vs := vs + [Violation(ArtifactNotCompared, i)];
      }
    }
  }

  method MissingSides(m: Manifest) returns (vs: seq<Violation>)
    requires m.executions != []
    ensures forall v :: v in vs <==>
      v.index == 0
      && ((v.kind.NoOracleArtifacts? && !ArtifactBy(m, IsOracle))
      || (v.kind.NoCandidateArtifacts? && !ArtifactBy(m, IsCandidate)))
  {
    hide IsOracle, IsCandidate;
    var oracleIds := set e | e in m.executions && IsOracle(e) :: e.executionId;
    var candidateIds := set e | e in m.executions && IsCandidate(e) :: e.executionId;
    vs := When(!exists a :: a in m.artifacts && a.executionId in oracleIds, Violation(NoOracleArtifacts, 0)) +
          When(!exists a :: a in m.artifacts && a.executionId in candidateIds, Violation(NoCandidateArtifacts, 0));
  }

  predicate PhaseMissing(m: Manifest, kind: Kind) {
    || (kind.NoOracleExecution? && !OracleRan(m))
    || (kind.NoCandidateExecution? && !CandidateRan(m))
    || (kind.NothingExecuted? && CandidateRan(m) && !CandidateExecuted(m))
  }

  method MissingPhases(m: Manifest) returns (vs: seq<Violation>)
    requires m.executions != []
    ensures forall v :: v in vs <==> v.index == 0 && PhaseMissing(m, v.kind)
  {
    hide OracleRan, CandidateRan, CandidateExecuted;
    vs := When(!OracleRan(m), Violation(NoOracleExecution, 0));
    if !CandidateRan(m) {
      vs := vs + [Violation(NoCandidateExecution, 0)];
    } else if !CandidateExecuted(m) {
      vs := vs + [Violation(NothingExecuted, 0)];
    }
  }

  /** `_validate_required_evidence`. */
  method RequiredEvidence(m: Manifest, ghost hash: Json -> Digest) returns (vs: seq<Violation>)
    ensures Reports(vs, m, hash, RequiredKind)
  {
    hide OracleRan, CandidateRan, CandidateExecuted, ExitMatters, CanonicalGraph, ArtifactBy, Compared, ExecutedIn,
      HasExitArtifact, HasExitComparison;
    if m.executions == [] {
      NothingToRequire(m);
      return [Violation(NoExecutions, 0)];
    }
    var phases := MissingPhases(m);
    var sides := MissingSides(m);
    var uncompared := UncomparedArtifacts(m);
    vs := phases + sides + uncompared + When(m.comparisons == [], Violation(NoComparisons, 0));
  }

  lemma NothingToRequire(m: Manifest)
    requires m.executions == []
    ensures !CandidateRan(m)
  {
  }

  datatype Admission = Validated(manifest: Manifest, integrityHash: Digest) | Rejected(violations: seq<Violation>)

  /** `EvidenceIntegrityValidator.validate`: every fault is reported and nothing else is, and a
      manifest without faults is admitted under the hash of its graph. */
  method Validate(m: Manifest, hash: Json -> Digest) returns (r: Admission)
    ensures r.Validated? <==> Admissible(m, hash)
    ensures r.Validated? ==> r.manifest == m && m.sealedHash == Some(r.integrityHash)
    ensures r.Rejected? ==> forall v :: v in r.violations <==> Fault(m, hash, v)
  {
    hide Fault, CanonicalGraph;
    var a := RunBindings(m, hash);
    var b := WorkloadBindings(m, hash);
    var c := IdentityBindings(m, hash);
    var d := ExecutionBindings(m, hash);
    var e := ComparisonBindings(m, hash);
    var f := ComparatorBindings(m, hash);
    var g := ExitChecks(m, hash);
    var h := SealChecks(m, hash);
    var i := RequiredEvidence(m, hash);
    var violations := a + b + c + d + e + f + g + h + i;
    assert forall v :: v in violations <==> Fault(m, hash, v);
    AdmissibleMeansFaultless(m, hash);
    if violations != [] {
      assert violations[0] in violations;
      return Rejected(violations);
    }
    return Validated(m, hash(CanonicalGraph(m)));
  }

  // ---- admission, declaratively ----

  ghost predicate WellPaired(m: Manifest, c: ComparisonEvidence) {
    var oracle, candidate := ById(m.artifacts, c.oracleArtifactId), ById(m.artifacts, c.candidateArtifactId);
    && c.oracleArtifactId != c.candidateArtifactId
    && oracle.Some? && oracle.value.producerRole == ORACLE && oracle.value.artifactType == c.artifactType
    && candidate.Some? && candidate.value.producerRole == CANDIDATE && candidate.value.artifactType == c.artifactType
    && (c.result == MATCH_RESULT ==> c.differences == [])
  }

  ghost predicate Bound(m: Manifest, run: string, workload: Option<string>) {
    run == m.runId && (workload.Some? ==> workload.value == m.workloadId)
  }

  ghost predicate AdmissibleExecution(m: Manifest, e: ExecutionEvidence) {
    && Bound(m, e.runId, e.workloadId) && e.treeBefore == e.treeAfter
    && (m.oracle.Some? && IsOracle(e) && e.imageDigest.Some? ==> e.imageDigest.value == m.oracle.value.imageDigest)
  }

  ghost predicate AdmissibleArtifact(m: Manifest, a: ArtifactEvidence) {
    ExecutedIn(m, a.executionId, None) && Compared(m, a.artifact.artifactId)
  }

  ghost predicate AdmissibleComparison(m: Manifest, c: ComparisonEvidence) {
    && Bound(m, c.runId, c.workloadId) && WellPaired(m, c) && KnownResult(c.result)
    && (CanonicalComparator(c.artifactType).Some? ==>
       ResolveAlias(c.comparatorId) == CanonicalComparator(c.artifactType).value)
  }

  /** What the manifest must hold as a whole: a true seal, one source, an oracle, both sides executed
      and captured, comparisons, and the exit status among them where it is behaviour. */
  ghost predicate AdmissibleWhole(m: Manifest, hash: Json -> Digest) {
    && m.sealedHash == Some(hash(CanonicalGraph(m)))
    && m.oracle.Some? && (m.candidate.Some? ==> m.candidate.value.sourceHash == m.source.sourceHash)
    && OracleRan(m) && CandidateExecuted(m)
    && ArtifactBy(m, IsOracle) && ArtifactBy(m, IsCandidate)
    && m.comparisons != []
    && (ExitMatters(m) ==> HasExitComparison(m))
  }

  ghost predicate Admissible(m: Manifest, hash: Json -> Digest) {
    && AdmissibleWhole(m, hash)
    && (forall e :: e in m.executions ==> AdmissibleExecution(m, e))
    && (forall a :: a in m.artifacts ==> AdmissibleArtifact(m, a))
    && (forall c :: c in m.comparisons ==> AdmissibleComparison(m, c))
  }

  lemma AdmissibleHasNoFault(m: Manifest, hash: Json -> Digest, v: Violation)
    requires Admissible(m, hash)
    ensures !Fault(m, hash, v)
  {
    hide Compared, ExecutedIn, Admissible, WholeFault, ImageFault, ExecutionFault, ArtifactFault, ComparisonFault;
    NoWholeFault(m, hash, v);
    NoImageFault(m, hash, v);
    if v.index < |m.executions| { NoExecutionFault(m, hash, m.executions[v.index], v); }
    if v.index < |m.artifacts| { NoArtifactFault(m, hash, m.artifacts[v.index], v); }
    if v.index < |m.comparisons| { NoComparisonFault(m, hash, m.comparisons[v.index], v); }
  }

  lemma NoWholeFault(m: Manifest, hash: Json -> Digest, v: Violation)
    requires Admissible(m, hash)
    ensures !WholeFault(m, hash, v)
  {
    hide AdmissibleExecution, AdmissibleArtifact, CanonicalGraph, OracleRan, ArtifactBy, ExitMatters,
      HasExitComparison, HasExitArtifact, CandidateRan, CandidateExecuted;
    if ExitMatters(m) { ExitArtifactPresent(m, hash); }
    ExecutedCandidateRan(m);
  }

  lemma ExecutedCandidateRan(m: Manifest)
    ensures CandidateExecuted(m) ==> CandidateRan(m)
    ensures OracleRan(m) ==> m.executions != []
  {
  }

  lemma ExitArtifactPresent(m: Manifest, hash: Json -> Digest)
    requires Admissible(m, hash) && ExitMatters(m)
    ensures HasExitArtifact(m)
  {
    ExitStatusIsCompared(m, hash);
  }

  lemma NoImageFault(m: Manifest, hash: Json -> Digest, v: Violation)
    requires Admissible(m, hash)
    ensures !ImageFault(m, v)
  {
    var runs := OracleRuns(m.executions);
    if v.index < |runs| {
      OracleRunsMember(m.executions, runs[v.index]);
      assert AdmissibleExecution(m, runs[v.index]);
    }
  }

  lemma NoExecutionFault(m: Manifest, hash: Json -> Digest, e: ExecutionEvidence, v: Violation)
    requires Admissible(m, hash) && e in m.executions
    ensures !ExecutionFault(m, e, v)
  {
    assert AdmissibleExecution(m, e);
    hide Admissible;
  }

  lemma NoComparisonFault(m: Manifest, hash: Json -> Digest, c: ComparisonEvidence, v: Violation)
    requires Admissible(m, hash) && c in m.comparisons
    ensures !ComparisonFault(m, c, v)
  {
    hide AdmissibleWhole, AdmissibleExecution, AdmissibleArtifact, CanonicalComparator, ResolveAlias, KnownResult, ById;
    assert AdmissibleComparison(m, c);
  }

  lemma NoArtifactFault(m: Manifest, hash: Json -> Digest, a: ArtifactEvidence, v: Violation)
    requires Admissible(m, hash) && a in m.artifacts
    ensures !ArtifactFault(m, a, v)
  {
    hide AdmissibleWhole, AdmissibleComparison;
    assert AdmissibleArtifact(m, a);
    var e :| e in m.executions && e.executionId == a.executionId;
    assert AdmissibleExecution(m, e);
  }

  lemma FaultlessExecution(m: Manifest, hash: Json -> Digest, i: nat)
    requires (forall v :: !Fault(m, hash, v)) && i < |m.executions|
    ensures AdmissibleExecution(m, m.executions[i])
  {
    hide WholeFault, ArtifactFault, ComparisonFault, CanonicalGraph;
    var e, runs := m.executions[i], OracleRuns(m.executions);
    assert !Fault(m, hash, Violation(ExecutionOfOtherRun, i))
      && !Fault(m, hash, Violation(ExecutionOfOtherWorkload, i)) && !Fault(m, hash, Violation(SourceMutated, i));
    OracleRunsMember(m.executions, e);
    if IsOracle(e) {
      var k :| 0 <= k < |runs| && runs[k] == e;
      assert !Fault(m, hash, Violation(OtherOracleImage, k));
    }
  }

  lemma FaultlessArtifact(m: Manifest, hash: Json -> Digest, i: nat)
    requires (forall v :: !Fault(m, hash, v)) && i < |m.artifacts| && m.executions != []
    ensures AdmissibleArtifact(m, m.artifacts[i])
  {
    hide WholeFault, ExecutionFault, ComparisonFault, CanonicalGraph;
    assert !Fault(m, hash, Violation(ArtifactOfNoExecution, i)) && !Fault(m, hash, Violation(ArtifactNotCompared, i));
  }

  lemma NoFaultNoComparisonFault(m: Manifest, hash: Json -> Digest, kind: Kind, i: nat)
    requires (forall v :: !Fault(m, hash, v)) && i < |m.comparisons|
    ensures !ComparisonFault(m, m.comparisons[i], Violation(kind, i))
  {
    hide WholeFault, ExecutionFault, ArtifactFault, ComparisonFault;
    assert !Fault(m, hash, Violation(kind, i));
  }

  lemma FaultlessComparison(m: Manifest, hash: Json -> Digest, i: nat)
    requires (forall v :: !Fault(m, hash, v)) && i < |m.comparisons|
    ensures AdmissibleComparison(m, m.comparisons[i])
  {
    hide Fault, ById, CanonicalComparator, ResolveAlias, KnownResult;
    NoFaultNoComparisonFault(m, hash, ComparisonOfOtherRun, i);
    NoFaultNoComparisonFault(m, hash, ComparisonOfOtherWorkload, i);
    NoFaultNoComparisonFault(m, hash, OracleArtifactUnknown, i);
    NoFaultNoComparisonFault(m, hash, CandidateArtifactUnknown, i);
    NoFaultNoComparisonFault(m, hash, ComparedWithItself, i);
    NoFaultNoComparisonFault(m, hash, MatchWithDifferences, i);
    NoFaultNoComparisonFault(m, hash, NotAnOracleArtifact, i);
    NoFaultNoComparisonFault(m, hash, NotACandidateArtifact, i);
    NoFaultNoComparisonFault(m, hash, OracleTypeDiffers, i);
    NoFaultNoComparisonFault(m, hash, CandidateTypeDiffers, i);
    NoFaultNoComparisonFault(m, hash, ComparatorNotRegistered, i);
    NoFaultNoComparisonFault(m, hash, ResultUnknown, i);
  }

  lemma NoFaultNoWholeFault(m: Manifest, hash: Json -> Digest, kind: Kind)
    requires forall v :: !Fault(m, hash, v)
    ensures !WholeFault(m, hash, Violation(kind, 0))
  {
    hide WholeFault, ExecutionFault, ArtifactFault, ComparisonFault;
    assert !Fault(m, hash, Violation(kind, 0));
  }

  lemma FaultlessSeal(m: Manifest, hash: Json -> Digest)
    requires forall v :: !Fault(m, hash, v)
    ensures m.sealedHash == Some(hash(CanonicalGraph(m))) && m.oracle.Some?
    ensures m.candidate.Some? ==> m.candidate.value.sourceHash == m.source.sourceHash
  {
    hide Fault, CanonicalGraph, OracleRan, CandidateRan, CandidateExecuted, ArtifactBy, ExitMatters, HasExitArtifact,
      HasExitComparison;
    NoFaultNoWholeFault(m, hash, NoSeal);
    NoFaultNoWholeFault(m, hash, SealBroken);
    NoFaultNoWholeFault(m, hash, NoOracleIdentity);
    NoFaultNoWholeFault(m, hash, CandidateOfOtherSource);
  }

  lemma FaultlessWhole(m: Manifest, hash: Json -> Digest)
    requires forall v :: !Fault(m, hash, v)
    ensures AdmissibleWhole(m, hash) && m.executions != []
  {
    hide Fault, CanonicalGraph, OracleRan, CandidateRan, CandidateExecuted, ArtifactBy, ExitMatters, HasExitArtifact,
      HasExitComparison;
    FaultlessSeal(m, hash);
    NoFaultNoWholeFault(m, hash, NoExecutions);
    NoFaultNoWholeFault(m, hash, NoOracleExecution);
    NoFaultNoWholeFault(m, hash, NoCandidateExecution);
    NoFaultNoWholeFault(m, hash, NothingExecuted);
    NoFaultNoWholeFault(m, hash, NoOracleArtifacts);
    NoFaultNoWholeFault(m, hash, NoCandidateArtifacts);
    NoFaultNoWholeFault(m, hash, NoComparisons);
    NoFaultNoWholeFault(m, hash, ExitComparisonMissing);
  }

  lemma FaultlessIsAdmissible(m: Manifest, hash: Json -> Digest)
    requires forall v :: !Fault(m, hash, v)
    ensures Admissible(m, hash)
  {
    hide Fault, AdmissibleWhole, AdmissibleExecution, AdmissibleArtifact, AdmissibleComparison;
    FaultlessWhole(m, hash);
    forall i | 0 <= i < |m.executions|
      ensures AdmissibleExecution(m, m.executions[i])
    {
      FaultlessExecution(m, hash, i);
    }
    forall i | 0 <= i < |m.artifacts| ensures AdmissibleArtifact(m, m.artifacts[i]) { FaultlessArtifact(m, hash, i); }
    forall i | 0 <= i < |m.comparisons|
      ensures AdmissibleComparison(m, m.comparisons[i])
    {
      FaultlessComparison(m, hash, i);
    }
  }

  /** The relation is the absence of faults. */
  lemma AdmissibleMeansFaultless(m: Manifest, hash: Json -> Digest)
    ensures Admissible(m, hash) <==> forall v :: !Fault(m, hash, v)
  {
    hide Admissible, Fault;
    if Admissible(m, hash) {
      forall v ensures !Fault(m, hash, v) { AdmissibleHasNoFault(m, hash, v); }
    }
    if forall v :: !Fault(m, hash, v) {
      FaultlessIsAdmissible(m, hash);
    }
  }

  /** The oracle's executions before a place. */
  function OraclesBefore(es: seq<ExecutionEvidence>, i: nat): set<nat> {
    set j: nat | j < i && j < |es| && "oracle" <= es[j].runtimeId
  }

  lemma OracleRunsInOrder(es: seq<ExecutionEvidence>, i: nat)
    requires i <= |es|
    ensures |OracleRuns(es[..i])| == |OraclesBefore(es, i)|
    ensures i < |es| && IsOracle(es[i]) ==>
      |OracleRuns(es[..i])| < |OracleRuns(es)| && OracleRuns(es)[|OracleRuns(es[..i])|] == es[i]
  {
    RunsCounted(es, i);
    if i < |es| && IsOracle(es[i]) { RunInPlace(es, i, |es|); assert es[..|es|] == es; }
  }

  lemma {:induction false} RunsCounted(es: seq<ExecutionEvidence>, i: nat)
    requires i <= |es|
    ensures |OracleRuns(es[..i])| == |OraclesBefore(es, i)|
  {
    if i > 0 {
      var n := i - 1;
      RunsCounted(es, n);
      assert es[..i][..n] == es[..n];
      assert OraclesBefore(es, i) == OraclesBefore(es, n) + if IsOracle(es[n]) then {n} else {};
    }
  }

  lemma {:induction false} RunInPlace(es: seq<ExecutionEvidence>, i: nat, n: nat)
    requires i < n <= |es| && IsOracle(es[i])
    ensures |OracleRuns(es[..i])| < |OracleRuns(es[..n])| && OracleRuns(es[..n])[|OracleRuns(es[..i])|] == es[i]
  {
    hide IsOracle;
    assert es[..n][..n - 1] == es[..n - 1];
    if i < n - 1 { RunInPlace(es, i, n - 1); }
  }

  /** The wrong images are numbered by the oracle's executions before them. */
  lemma ImageFaultExactly(m: Manifest, n: nat)
    ensures ImageFault(m, Violation(OtherOracleImage, n)) <==>
      exists i :: 0 <= i < |m.executions| && OracleOfOtherImage(m, m.executions[i])
        && |OraclesBefore(m.executions, i)| == n
  {
    var es := m.executions;
    if ImageFault(m, Violation(OtherOracleImage, n)) {
      var i := RunPlace(es, n);
      OracleRunsInOrder(es, i);
    }
    if i :| 0 <= i < |es| && OracleOfOtherImage(m, es[i]) && |OraclesBefore(es, i)| == n {
      OracleRunsInOrder(es, i);
    }
  }

  /** Where the `n`-th execution of the oracle is. */
  ghost function RunPlace(es: seq<ExecutionEvidence>, n: nat): (i: nat)
    requires n < |OracleRuns(es)|
    ensures i < |es| && IsOracle(es[i]) && |OracleRuns(es[..i])| == n
  {
    var k := |es| - 1;
    if IsOracle(es[k]) && n == |OracleRuns(es[..k])| then k
    else
      var i := RunPlace(es[..k], n);
      assert es[..k][..i] == es[..i];
      i
  }

  /** An execution of the oracle by another image than that of the manifest's oracle. */
  predicate OracleOfOtherImage(m: Manifest, e: ExecutionEvidence) {
    && "oracle" <= e.runtimeId && m.oracle.Some? && e.imageDigest.Some?
    && e.imageDigest.value != m.oracle.value.imageDigest
  }

  // ---- admission, field by field ----

  /** The last artifact with this id. */
  predicate LastOf(artifacts: seq<ArtifactEvidence>, id: string, k: int) {
    && 0 <= k < |artifacts| && artifacts[k].artifact.artifactId == id
    && forall j :: k < j < |artifacts| ==> artifacts[j].artifact.artifactId != id
  }

  lemma {:induction false} ByIdIsLast(artifacts: seq<ArtifactEvidence>, id: string, k: int)
    requires LastOf(artifacts, id, k)
    ensures ById(artifacts, id) == Some(artifacts[k].artifact)
  {
    var n := |artifacts| - 1;
    if k < n {
      assert artifacts[n].artifact.artifactId != id;
      ByIdIsLast(artifacts[..n], id, k);
    }
  }

  lemma {:induction false} LastExists(artifacts: seq<ArtifactEvidence>, id: string)
    requires exists a :: a in artifacts && a.artifact.artifactId == id
    ensures exists k :: LastOf(artifacts, id, k)
  {
    var n := |artifacts| - 1;
    if artifacts[n].artifact.artifactId == id {
      assert LastOf(artifacts, id, n);
    } else {
      assert artifacts == artifacts[..n] + [artifacts[n]];
      LastExists(artifacts[..n], id);
      var k :| LastOf(artifacts[..n], id, k);
      forall j | k < j < |artifacts| ensures artifacts[j].artifact.artifactId != id {
        if j < n { assert artifacts[j] == artifacts[..n][j]; }
      }
      assert LastOf(artifacts, id, k);
    }
  }

  /** One side of a comparison: the last artifact with its id has this role and type. */
  ghost predicate SideIs(m: Manifest, id: string, role: string, artifactType: string) {
    exists k :: LastOf(m.artifacts, id, k)
      && m.artifacts[k].artifact.producerRole == role && m.artifacts[k].artifact.artifactType == artifactType
  }

  lemma SideFound(m: Manifest, id: string, role: string, artifactType: string)
    ensures SideIs(m, id, role, artifactType) <==>
      var a := ById(m.artifacts, id); a.Some? && a.value.producerRole == role && a.value.artifactType == artifactType
  {
    hide ById;
    forall k | LastOf(m.artifacts, id, k) ensures ById(m.artifacts, id) == Some(m.artifacts[k].artifact) {
      ByIdIsLast(m.artifacts, id, k);
    }
    ByIdFinds(m.artifacts, id);
    if ById(m.artifacts, id).Some? { LastExists(m.artifacts, id); }
  }

  /** The names a comparison can give its comparator; for any other type of artifact all of them. */
  function ComparatorNames(artifactType: string): set<string> {
    match artifactType
    case "STDOUT" => {"stdout-exact", "STDOUT_COMPARATOR"}
    case "STDERR" => {"stderr-exact", "STDERR_COMPARATOR"}
    case "EXIT_STATUS" => {"exit-status-exact", "EXIT_STATUS_COMPARATOR"}
    case "TEXT_FILE" => {"text-file-exact", "TEXT_FILE_COMPARATOR"}
    case "FIXED_RECORD" => {"fixed-record-exact", "FIXED_RECORD_COMPARATOR"}
    case "BUSINESS_INVARIANT" => {"business-invariant-exact", "BUSINESS_INVARIANT_COMPARATOR"}
    case _ => {}
  }

  /** An admissible comparison, by its fields: of this run and workload, of two artifacts of its type, one of
      each role, by the comparator of that type, with a known result and no differences in a MATCH. */
  lemma ComparisonExactly(m: Manifest, c: ComparisonEvidence)
    ensures AdmissibleComparison(m, c) <==>
      && c.runId == m.runId && (c.workloadId.Some? ==> c.workloadId.value == m.workloadId)
      && c.oracleArtifactId != c.candidateArtifactId
      && SideIs(m, c.oracleArtifactId, "ORACLE", c.artifactType)
      && SideIs(m, c.candidateArtifactId, "CANDIDATE", c.artifactType)
      && (c.result in {"MATCH", "MISMATCH", "INCONCLUSIVE"}) && (c.result == "MATCH" ==> c.differences == [])
      && (ComparatorNames(c.artifactType) != {} ==> c.comparatorId in ComparatorNames(c.artifactType))
  {
    hide SideIs;
    SideFound(m, c.oracleArtifactId, "ORACLE", c.artifactType);
    SideFound(m, c.candidateArtifactId, "CANDIDATE", c.artifactType);
    NamesAreAliases(c.artifactType, c.comparatorId);
    hide ById, ComparatorNames, CanonicalComparator, ResolveAlias;
  }

  lemma NamesAreAliases(artifactType: string, id: string)
    ensures ComparatorNames(artifactType) != {} <==> CanonicalComparator(artifactType).Some?
    ensures ComparatorNames(artifactType) != {} ==>
      (id in ComparatorNames(artifactType) <==> Some(ResolveAlias(id)) == CanonicalComparator(artifactType))
  {
    assert "stdout-exact" in ComparatorNames("STDOUT") && "stderr-exact" in ComparatorNames("STDERR")
      && "exit-status-exact" in ComparatorNames("EXIT_STATUS") && "text-file-exact" in ComparatorNames("TEXT_FILE")
      && "fixed-record-exact" in ComparatorNames("FIXED_RECORD")
      && "business-invariant-exact" in ComparatorNames("BUSINESS_INVARIANT");
  }

  /** An admissible execution and an admissible artifact. */
  lemma PartsExactly(m: Manifest, e: ExecutionEvidence, a: ArtifactEvidence)
    ensures AdmissibleExecution(m, e) <==>
      && e.runId == m.runId && (e.workloadId.Some? ==> e.workloadId.value == m.workloadId)
      && e.treeBefore == e.treeAfter
      && ("oracle" <= e.runtimeId && m.oracle.Some? && e.imageDigest.Some? ==>
            e.imageDigest.value == m.oracle.value.imageDigest)
    ensures AdmissibleArtifact(m, a) <==>
      && (exists x :: x in m.executions && x.executionId == a.executionId)
      && exists c :: c in m.comparisons && a.artifact.artifactId in [c.oracleArtifactId, c.candidateArtifactId]
  {
  }

  /** What an admissible manifest holds as a whole. */
  lemma WholeExactly(m: Manifest, hash: Json -> Digest)
    ensures AdmissibleWhole(m, hash) <==>
      && m.sealedHash == Some(hash(CanonicalGraph(m))) && m.oracle.Some?
      && (m.candidate.Some? ==> m.candidate.value.sourceHash == m.source.sourceHash)
      && (exists e :: e in m.executions && "oracle" <= e.runtimeId)
      && (exists e :: e in m.executions && "candidate" <= e.runtimeId && e.executionPhase == "EXECUTE")
      && (exists a, e :: a in m.artifacts && e in m.executions && "oracle" <= e.runtimeId
            && a.executionId == e.executionId)
      && (exists a, e :: a in m.artifacts && e in m.executions && "candidate" <= e.runtimeId
            && a.executionId == e.executionId)
      && m.comparisons != []
      && ((exists e :: e in m.executions
             && (("candidate" <= e.runtimeId && e.terminationStatus == "nonzero_exit")
                 || ("oracle" <= e.runtimeId && e.terminationStatus == "return_code")))
          ==> exists c :: c in m.comparisons && c.artifactType == "EXIT_STATUS")
  {
    hide CanonicalGraph;
  }

  /** A candidate that ended with a nonzero exit, or an oracle whose return code was recorded, without a
      comparison of exit statuses is rejected. */
  lemma ExitNeedsComparison(m: Manifest, hash: Json -> Digest, e: ExecutionEvidence)
    requires e in m.executions
    requires ("candidate" <= e.runtimeId && e.terminationStatus == "nonzero_exit")
      || ("oracle" <= e.runtimeId && e.terminationStatus == "return_code")
    requires forall c :: c in m.comparisons ==> c.artifactType != "EXIT_STATUS"
    ensures !Admissible(m, hash)
  {
    hide CanonicalGraph, AdmissibleExecution, AdmissibleArtifact, AdmissibleComparison, ArtifactBy;
    assert ExitIsBehaviour(e);
  }

  /** When the exit status is the behaviour being certified, an admitted manifest compares the exit
      status artifact of an ORACLE with that of a CANDIDATE.  This needs no unique artifact ids: the
      lookup that checks a comparison also yields the artifacts. */
  lemma ExitStatusIsCompared(m: Manifest, hash: Json -> Digest)
    requires Admissible(m, hash) && ExitMatters(m)
    ensures exists c, o, a ::
      && c in m.comparisons && c.artifactType == EXIT_STATUS_TYPE
      && o in m.artifacts && o.artifact.artifactId == c.oracleArtifactId
      && o.artifact.producerRole == ORACLE && o.artifact.artifactType == EXIT_STATUS_TYPE
      && a in m.artifacts && a.artifact.artifactId == c.candidateArtifactId
      && a.artifact.producerRole == CANDIDATE && a.artifact.artifactType == EXIT_STATUS_TYPE
  {
    hide CanonicalGraph, CanonicalComparator, ResolveAlias, KnownResult, AdmissibleExecution, AdmissibleArtifact,
      ExitMatters, OracleRan, CandidateExecuted, ArtifactBy;
    var c :| c in m.comparisons && c.artifactType == EXIT_STATUS_TYPE;
    assert AdmissibleComparison(m, c);
    ByIdFinds(m.artifacts, c.oracleArtifactId);
    ByIdFinds(m.artifacts, c.candidateArtifactId);
    hide ById;
    var o :| o in m.artifacts && o.artifact == ById(m.artifacts, c.oracleArtifactId).value;
    var a :| a in m.artifacts && a.artifact == ById(m.artifacts, c.candidateArtifactId).value;
  }
}
