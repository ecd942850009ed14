/** The evidence model: engine/evidence/models.py and the identities of engine/domain/identities.py. */
module Evidence {
  import opened Json
  import opened Options

  /** The hexadecimal digest of a ContentHash. */
  type Digest = string

  const SHA256: string := "sha256:"

  /** `str(content_hash)`. */
  function HashText(d: Digest): Json { Str(SHA256 + d) }

  lemma HashTextInjective(d: Digest, e: Digest)
    requires HashText(d) == HashText(e)
    ensures d == e
  {
    assert d == (SHA256 + d)[|SHA256|..] && e == (SHA256 + e)[|SHA256|..];
  }

  datatype SourceIdentity = SourceIdentity(sourceId: string, sourceHash: Digest, fileCount: int, totalSize: int)

  datatype CandidateIdentity = CandidateIdentity(candidateId: string, candidateHash: Digest, sourceHash: Digest,
      fileCount: int, totalSize: int)

  datatype OracleIdentity = OracleIdentity(
    oracleId: string, imageDigest: string, compilerVersion: string, preprocessorVersion: Option<string>,
    baseImage: Option<string>)

  datatype EnvironmentIdentity = EnvironmentIdentity(
    runtimeId: string, javaVersion: Option<string>, cobolCompiler: Option<string>, osBase: Option<string>,
    networkPolicy: string, resourceLimits: map<string, string>)

  datatype InputIdentity = InputIdentity(inputId: string, stdinHash: Option<Digest>, inputFiles: map<string, Digest>)

  datatype ExecutionEvidence = ExecutionEvidence(
    executionId: string, runId: string, workloadId: Option<string>, runtimeId: string,
    command: string, workingDirectory: string, environmentVariables: Object,
    startTime: string, endTime: string, exitCode: Option<int>,
    stdoutHash: Digest, stderrHash: Digest, generatedFiles: map<string, Digest>,
    treeBefore: Digest, treeAfter: Digest,
    terminationStatus: string, timeoutApplied: bool, timeoutDuration: Option<int>,
    compilationDiagnostics: Option<map<string, string>>, imageDigest: Option<string>, executionPhase: string)

  datatype ArtifactIdentity = ArtifactIdentity(
    artifactId: string, artifactType: string, logicalName: string, producerRole: string,
    contentHash: Digest, sizeBytes: int, recordCount: Option<int>)

  datatype ArtifactEvidence = ArtifactEvidence(
    artifact: ArtifactIdentity, executionId: string, captureTime: string,
    contentHash: Digest, sizeBytes: int, recordCount: Option<int>)

  datatype ComparisonEvidence = ComparisonEvidence(
    comparisonId: string, runId: string, workloadId: Option<string>, comparatorId: string, comparatorVersion: string,
    oracleArtifactId: string, candidateArtifactId: string, artifactType: string, result: string,
    normalizationApplied: seq<string>, differences: seq<string>, fieldLevelResults: seq<Object>,
    orderingApplied: string, failurePolicy: string, contentHash: Digest)

  datatype VerdictEvidence = VerdictEvidence(
    runId: string, workloadId: string, verdictState: string,
    executedCheckCount: int, skippedCount: int, unavailableCount: int,
    supportedScope: string, manifestHash: Digest, derivationTimestamp: string)

  datatype Manifest = Manifest(
    manifestVersion: string, runId: string, workloadId: string,
    source: SourceIdentity, candidate: Option<CandidateIdentity>, oracle: Option<OracleIdentity>,
    environments: seq<EnvironmentIdentity>, controlledInput: InputIdentity,
    executions: seq<ExecutionEvidence>, artifacts: seq<ArtifactEvidence>, comparisons: seq<ComparisonEvidence>,
    verdict: Option<VerdictEvidence>, createdAt: string, sealedHash: Option<Digest>)

  // ---- JSON forms shared by the graph and the codec ----

  function OptStr(o: Option<string>): Json { match o case Some(s) => Str(s) case None => Null }

  function OptInt(o: Option<int>): Json { match o case Some(n) => Int(n) case None => Null }

  function OptHash(o: Option<Digest>): Json { match o case Some(d) => HashText(d) case None => Null }

  function StringMap(m: map<string, string>): Json { Obj(map k | k in KeyNames(m) :: Str(m[k.text])) }

  function HashMap(m: map<string, Digest>): Json { Obj(map k | k in KeyNames(m) :: HashText(m[k.text])) }

  function KeyNames<T>(m: map<string, T>): (r: set<Key>)
    ensures forall k :: k in r <==> k.Name? && k.text in m
  {
    set s | s in m :: Name(s)
  }

  function Strings(ss: seq<string>): Json { Arr(seq(|ss|, i requires 0 <= i < |ss| => Str(ss[i]))) }

  function Objects(os: seq<Object>): Json { Arr(seq(|os|, i requires 0 <= i < |os| => Obj(os[i]))) }

  function Each<T>(xs: seq<T>, f: T -> Json): Json { Arr(seq(|xs|, i requires 0 <= i < |xs| => f(xs[i]))) }

  function SourceJson(s: SourceIdentity): Json {
    Obj(map[SOURCE_ID := Str(s.sourceId), SOURCE_HASH := HashText(s.sourceHash), FILE_COUNT := Int(s.fileCount),
      TOTAL_SIZE_BYTES := Int(s.totalSize)])
  }

  function CandidateJson(o: Option<CandidateIdentity>): Json {
    match o
    case None => Null
    case Some(c) =>
      Obj(map[CANDIDATE_ID := Str(c.candidateId), CANDIDATE_HASH := HashText(c.candidateHash),
        SOURCE_HASH := HashText(c.sourceHash), FILE_COUNT := Int(c.fileCount), TOTAL_SIZE_BYTES := Int(c.totalSize)])
  }

  function OracleJson(o: Option<OracleIdentity>): Json {
    match o
    case None => Null
    case Some(c) =>
      Obj(map[ORACLE_ID := Str(c.oracleId), IMAGE_DIGEST := Str(c.imageDigest),
        COMPILER_VERSION := Str(c.compilerVersion), PREPROCESSOR_VERSION := OptStr(c.preprocessorVersion),
        BASE_IMAGE := OptStr(c.baseImage)])
  }

  function EnvironmentJson(e: EnvironmentIdentity): Json {
    Obj(map[RUNTIME_ID := Str(e.runtimeId), JAVA_VERSION := OptStr(e.javaVersion),
      COBOL_COMPILER := OptStr(e.cobolCompiler), OS_BASE := OptStr(e.osBase), NETWORK_POLICY := Str(e.networkPolicy),
      RESOURCE_LIMITS := StringMap(e.resourceLimits)])
  }

  function InputJson(i: InputIdentity): Json {
    Obj(map[INPUT_ID := Str(i.inputId), STDIN_HASH := OptHash(i.stdinHash), INPUT_FILES := HashMap(i.inputFiles)])
  }

  // ---- the canonical graph ----

  /** The fields of an execution, each under its own name; the diagnostics are added by the callers,
      which treat an absent value differently. */
  function ExecutionFields(e: ExecutionEvidence): Object {
    map[EXECUTION_ID := Str(e.executionId), RUN_ID := Str(e.runId), WORKLOAD_ID := OptStr(e.workloadId),
      RUNTIME_ID := Str(e.runtimeId), COMMAND := Str(e.command), WORKING_DIRECTORY := Str(e.workingDirectory),
      ENVIRONMENT_VARIABLES := Obj(e.environmentVariables), START_TIME := Str(e.startTime),
      END_TIME := Str(e.endTime), EXIT_CODE := OptInt(e.exitCode), STDOUT_HASH := HashText(e.stdoutHash),
      STDERR_HASH := HashText(e.stderrHash), GENERATED_FILES := HashMap(e.generatedFiles),
      SOURCE_TREE_HASH_BEFORE := HashText(e.treeBefore), SOURCE_TREE_HASH_AFTER := HashText(e.treeAfter),
      TERMINATION_STATUS := Str(e.terminationStatus), TIMEOUT_APPLIED := Bool(e.timeoutApplied),
      TIMEOUT_DURATION := OptInt(e.timeoutDuration), IMAGE_DIGEST := OptStr(e.imageDigest),
      EXECUTION_PHASE := Str(e.executionPhase)]
  }

  function DiagnosticsJson(o: Option<map<string, string>>): Json {
    match o case Some(m) => StringMap(m) case None => Null
  }

  function ExecutionNode(e: ExecutionEvidence): Json {
    Obj(ExecutionFields(e)[COMPILATION_DIAGNOSTICS := DiagnosticsJson(e.compilationDiagnostics)])
  }

  /** The graph takes hash, size and record count from the evidence, not from the identity. */
  function ArtifactNode(a: ArtifactEvidence): Json {
    Obj(map[ARTIFACT_ID := Str(a.artifact.artifactId), ARTIFACT_TYPE := Str(a.artifact.artifactType),
            LOGICAL_NAME := Str(a.artifact.logicalName), PRODUCER_ROLE := Str(a.artifact.producerRole),
            CONTENT_HASH := HashText(a.contentHash), SIZE_BYTES := Int(a.sizeBytes),
            RECORD_COUNT := OptInt(a.recordCount), EXECUTION_ID := Str(a.executionId),
            CAPTURE_TIME := Str(a.captureTime)])
  }

  function ComparisonNode(c: ComparisonEvidence): Json {
    Obj(map[COMPARISON_ID := Str(c.comparisonId), RUN_ID := Str(c.runId), WORKLOAD_ID := OptStr(c.workloadId),
            COMPARATOR_ID := Str(c.comparatorId), COMPARATOR_VERSION := Str(c.comparatorVersion),
            ORACLE_ARTIFACT_ID := Str(c.oracleArtifactId), CANDIDATE_ARTIFACT_ID := Str(c.candidateArtifactId),
            ARTIFACT_TYPE := Str(c.artifactType), RESULT := Str(c.result),
            NORMALIZATION_APPLIED := Strings(c.normalizationApplied), DIFFERENCES := Strings(c.differences),
            FIELD_LEVEL_RESULTS := Objects(c.fieldLevelResults), ORDERING_APPLIED := Str(c.orderingApplied),
            FAILURE_POLICY := Str(c.failurePolicy), CONTENT_HASH := HashText(c.contentHash)])
  }

  /** `canonical_evidence_graph`. */
  function CanonicalGraph(m: Manifest): Json {
    Obj(map[MANIFEST_VERSION := Str(m.manifestVersion), RUN_ID := Str(m.runId), WORKLOAD_ID := Str(m.workloadId),
            SOURCE_IDENTITY := SourceJson(m.source), CANDIDATE_IDENTITY := CandidateJson(m.candidate),
            ORACLE_IDENTITY := OracleJson(m.oracle), ENVIRONMENT_IDENTITIES := Each(m.environments, EnvironmentJson),
            CONTROLLED_INPUT := InputJson(m.controlledInput), EXECUTION_EVIDENCE := Each(m.executions, ExecutionNode),
            ARTIFACT_EVIDENCE := Each(m.artifacts, ArtifactNode),
            COMPARISON_EVIDENCE := Each(m.comparisons, ComparisonNode)])
  }

  /** `EvidenceManifest.__post_init__`: the seal is the hash of the graph at construction. */
  function Sealed(m: Manifest, hash: Json -> Digest): Manifest {
    m.(sealedHash := Some(hash(CanonicalGraph(m))))
  }
}
