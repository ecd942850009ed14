/** What the seal of engine/evidence/models.py commits to: with a collision-free hash, equal seals mean
    equal evidence, except for the fields the canonical graph leaves out. */
module SealCoverage {
  import opened Json
  import opened Options
  import opened Evidence
  import opened Serialization
  import opened ManifestCodec

  // ---- the parts of the graph determine what they were made of ----

  lemma OptStrInjective(a: Option<string>, b: Option<string>)
    ensures OptStr(a) == OptStr(b) ==> a == b
  {
  }

  lemma OptIntInjective(a: Option<int>, b: Option<int>)
    ensures OptInt(a) == OptInt(b) ==> a == b
  {
  }

  lemma HashInjective(a: Digest, b: Digest)
    ensures HashText(a) == HashText(b) ==> a == b
  {
    if HashText(a) == HashText(b) { HashTextInjective(a, b); }
  }

  lemma OptHashInjective(a: Option<Digest>, b: Option<Digest>)
    ensures OptHash(a) == OptHash(b) ==> a == b
  {
    if a.Some? && b.Some? { HashInjective(a.value, b.value); }
  }

  lemma HashMapInjective(a: map<string, Digest>, b: map<string, Digest>)
    ensures HashMap(a) == HashMap(b) ==> a == b
  {
    if HashMap(a) == HashMap(b) {
      var o := HashMap(a).fields;
      forall s ensures s in a <==> s in b { assert s in a <==> Name(s) in o; }
      forall s | s in a ensures a[s] == b[s] {
        assert Name(s) in o && o[Name(s)] == HashText(a[s]);
        HashInjective(a[s], b[s]);
      }
      assert a == b;
    }
  }

  lemma StringMapInjective(a: map<string, string>, b: map<string, string>)
    ensures StringMap(a) == StringMap(b) ==> a == b
  {
    StringMapBack(a);
    StringMapBack(b);
  }

  lemma SourceInjective(a: SourceIdentity, b: SourceIdentity)
    ensures SourceJson(a) == SourceJson(b) ==> a == b
  {
    var x, y := SourceJson(a).fields, SourceJson(b).fields;
    hide HashText;
    assert x[SOURCE_ID] == Str(a.sourceId) && x[SOURCE_HASH] == HashText(a.sourceHash)
      && x[FILE_COUNT] == Int(a.fileCount) && x[TOTAL_SIZE_BYTES] == Int(a.totalSize);
    assert y[SOURCE_ID] == Str(b.sourceId) && y[SOURCE_HASH] == HashText(b.sourceHash)
      && y[FILE_COUNT] == Int(b.fileCount) && y[TOTAL_SIZE_BYTES] == Int(b.totalSize);
    HashInjective(a.sourceHash, b.sourceHash);
  }

  lemma CandidateInjective(a: Option<CandidateIdentity>, b: Option<CandidateIdentity>)
    ensures CandidateJson(a) == CandidateJson(b) ==> a == b
  {
    if a.Some? && b.Some? {
      var x, y, c, d := CandidateJson(a).fields, CandidateJson(b).fields, a.value, b.value;
      hide HashText;
      assert x[CANDIDATE_ID] == Str(c.candidateId) && x[CANDIDATE_HASH] == HashText(c.candidateHash)
        && x[SOURCE_HASH] == HashText(c.sourceHash)
        && x[FILE_COUNT] == Int(c.fileCount) && x[TOTAL_SIZE_BYTES] == Int(c.totalSize);
      assert y[CANDIDATE_ID] == Str(d.candidateId) && y[CANDIDATE_HASH] == HashText(d.candidateHash)
        && y[SOURCE_HASH] == HashText(d.sourceHash)
        && y[FILE_COUNT] == Int(d.fileCount) && y[TOTAL_SIZE_BYTES] == Int(d.totalSize);
      HashInjective(c.candidateHash, d.candidateHash);
      HashInjective(c.sourceHash, d.sourceHash);
    }
  }

  lemma OracleInjective(a: Option<OracleIdentity>, b: Option<OracleIdentity>)
    ensures OracleJson(a) == OracleJson(b) ==> a == b
  {
    if a.Some? && b.Some? {
      var x, y, c, d := OracleJson(a).fields, OracleJson(b).fields, a.value, b.value;
      hide OptStr;
      assert x[ORACLE_ID] == Str(c.oracleId) && x[IMAGE_DIGEST] == Str(c.imageDigest)
        && x[COMPILER_VERSION] == Str(c.compilerVersion)
        && x[PREPROCESSOR_VERSION] == OptStr(c.preprocessorVersion) && x[BASE_IMAGE] == OptStr(c.baseImage);
      assert y[ORACLE_ID] == Str(d.oracleId) && y[IMAGE_DIGEST] == Str(d.imageDigest)
        && y[COMPILER_VERSION] == Str(d.compilerVersion)
        && y[PREPROCESSOR_VERSION] == OptStr(d.preprocessorVersion) && y[BASE_IMAGE] == OptStr(d.baseImage);
      OptStrInjective(c.preprocessorVersion, d.preprocessorVersion);
      OptStrInjective(c.baseImage, d.baseImage);
    }
  }

  predicate EnvironmentFields(e: EnvironmentIdentity, o: Object) {
    && Get(o, RUNTIME_ID) == Str(e.runtimeId) && Get(o, JAVA_VERSION) == OptStr(e.javaVersion)
    && Get(o, COBOL_COMPILER) == OptStr(e.cobolCompiler)
    && Get(o, OS_BASE) == OptStr(e.osBase) && Get(o, NETWORK_POLICY) == Str(e.networkPolicy)
    && Get(o, RESOURCE_LIMITS) == StringMap(e.resourceLimits)
  }

  lemma EnvironmentLookups(e: EnvironmentIdentity)
    ensures EnvironmentFields(e, EnvironmentJson(e).fields)
  {
    hide OptStr, StringMap;
  }

  lemma EnvironmentInjective(a: EnvironmentIdentity, b: EnvironmentIdentity)
    ensures EnvironmentJson(a) == EnvironmentJson(b) ==> a == b
  {
    hide OptStr, StringMap, EnvironmentJson;
    EnvironmentLookups(a);
    EnvironmentLookups(b);
    OptStrInjective(a.javaVersion, b.javaVersion);
    OptStrInjective(a.cobolCompiler, b.cobolCompiler);
    OptStrInjective(a.osBase, b.osBase);
    StringMapInjective(a.resourceLimits, b.resourceLimits);
  }

  lemma InputInjective(a: InputIdentity, b: InputIdentity)
    ensures InputJson(a) == InputJson(b) ==> a == b
  {
    var x, y := InputJson(a).fields, InputJson(b).fields;
    hide OptHash, HashMap;
    assert x[INPUT_ID] == Str(a.inputId) && x[STDIN_HASH] == OptHash(a.stdinHash)
      && x[INPUT_FILES] == HashMap(a.inputFiles);
    assert y[INPUT_ID] == Str(b.inputId) && y[STDIN_HASH] == OptHash(b.stdinHash)
      && y[INPUT_FILES] == HashMap(b.inputFiles);
    OptHashInjective(a.stdinHash, b.stdinHash);
    HashMapInjective(a.inputFiles, b.inputFiles);
  }

  lemma NodeLookups(e: ExecutionEvidence)
    ensures ExecutionNode(e).Obj?
    ensures var o := ExecutionNode(e).fields; ProgramFields(e, o) && EndingFields(e, o) && TraceFields(e, o)
  {
    hide HashText, HashMap, DiagnosticsJson, OptStr, OptInt, ExecutionFields;
    ProgramLookups(e);
    EndingLookups(e);
    TraceLookups(e);
  }

  lemma ProgramInjective(e: ExecutionEvidence, f: ExecutionEvidence, o: Object)
    requires ProgramFields(e, o) && ProgramFields(f, o)
    ensures e.executionId == f.executionId && e.runId == f.runId && e.workloadId == f.workloadId
      && e.runtimeId == f.runtimeId
    ensures e.command == f.command && e.workingDirectory == f.workingDirectory
      && e.environmentVariables == f.environmentVariables
  {
    hide OptStr, Get;
    OptStrInjective(e.workloadId, f.workloadId);
  }

  lemma EndingInjective(e: ExecutionEvidence, f: ExecutionEvidence, o: Object)
    requires EndingFields(e, o) && EndingFields(f, o)
    ensures e.startTime == f.startTime && e.endTime == f.endTime && e.exitCode == f.exitCode
      && e.terminationStatus == f.terminationStatus
    ensures e.timeoutApplied == f.timeoutApplied && e.timeoutDuration == f.timeoutDuration
      && e.imageDigest == f.imageDigest && e.executionPhase == f.executionPhase
  {
    hide OptStr, OptInt, Get;
    OptIntInjective(e.timeoutDuration, f.timeoutDuration);
    OptIntInjective(e.exitCode, f.exitCode);
    OptStrInjective(e.imageDigest, f.imageDigest);
  }

  lemma DiagnosticsInjective(a: Option<map<string, string>>, b: Option<map<string, string>>)
    ensures DiagnosticsJson(a) == DiagnosticsJson(b) ==> a == b
  {
    DiagnosticsBack(a);
    DiagnosticsBack(b);
  }

  lemma TracesInjective(e: ExecutionEvidence, f: ExecutionEvidence, o: Object)
    requires TraceFields(e, o) && TraceFields(f, o)
    ensures e.stdoutHash == f.stdoutHash && e.stderrHash == f.stderrHash && e.generatedFiles == f.generatedFiles
    ensures e.treeBefore == f.treeBefore && e.treeAfter == f.treeAfter
      && e.compilationDiagnostics == f.compilationDiagnostics
  {
    hide HashText, HashMap, DiagnosticsJson, Get;
    HashInjective(e.stdoutHash, f.stdoutHash);
    HashInjective(e.stderrHash, f.stderrHash);
    HashInjective(e.treeBefore, f.treeBefore);
    HashInjective(e.treeAfter, f.treeAfter);
    HashMapInjective(e.generatedFiles, f.generatedFiles);
    DiagnosticsInjective(e.compilationDiagnostics, f.compilationDiagnostics);
  }

  lemma ExecutionInjective(e: ExecutionEvidence, f: ExecutionEvidence)
    ensures ExecutionNode(e) == ExecutionNode(f) ==> e == f
  {
    hide ExecutionNode, ProgramFields, EndingFields, TraceFields;
    NodeLookups(e);
    NodeLookups(f);
    if ExecutionNode(e) == ExecutionNode(f) {
      var o := ExecutionNode(e).fields;
      ProgramInjective(e, f, o);
      EndingInjective(e, f, o);
      TracesInjective(e, f, o);
    }
  }

  /** The artifact without the hash, size and count its identity carries. */
  function CoveredArtifact(a: ArtifactEvidence): ArtifactEvidence {
    a.(artifact := a.artifact.(contentHash := "", sizeBytes := 0, recordCount := None))
  }

  predicate ArtifactFields(a: ArtifactEvidence, o: Object) {
    && Get(o, ARTIFACT_ID) == Str(a.artifact.artifactId) && Get(o, ARTIFACT_TYPE) == Str(a.artifact.artifactType)
    && Get(o, LOGICAL_NAME) == Str(a.artifact.logicalName) && Get(o, PRODUCER_ROLE) == Str(a.artifact.producerRole)
    && Get(o, CONTENT_HASH) == HashText(a.contentHash) && Get(o, SIZE_BYTES) == Int(a.sizeBytes)
    && Get(o, RECORD_COUNT) == OptInt(a.recordCount)
    && Get(o, EXECUTION_ID) == Str(a.executionId) && Get(o, CAPTURE_TIME) == Str(a.captureTime)
  }

  lemma ArtifactLookups(a: ArtifactEvidence)
    ensures ArtifactFields(a, ArtifactNode(a).fields)
  {
    hide HashText, OptInt;
  }

  lemma ArtifactInjective(a: ArtifactEvidence, b: ArtifactEvidence)
    ensures ArtifactNode(a) == ArtifactNode(b) <==> CoveredArtifact(a) == CoveredArtifact(b)
  {
    if ArtifactNode(a) == ArtifactNode(b) {
      ArtifactLookups(a);
      ArtifactLookups(b);
      hide HashText, OptInt, ArtifactNode, Get;
      HashInjective(a.contentHash, b.contentHash);
      OptIntInjective(a.recordCount, b.recordCount);
    } else {
      assert ArtifactNode(CoveredArtifact(a)) == ArtifactNode(a) && ArtifactNode(CoveredArtifact(b)) == ArtifactNode(b);
    }
  }

  predicate OutcomeFields(c: ComparisonEvidence, o: Object) {
    && Get(o, RESULT) == Str(c.result) && Get(o, NORMALIZATION_APPLIED) == Strings(c.normalizationApplied)
    && Get(o, DIFFERENCES) == Strings(c.differences)
    && Get(o, FIELD_LEVEL_RESULTS) == Objects(c.fieldLevelResults) && Get(o, ORDERING_APPLIED) == Str(c.orderingApplied)
    && Get(o, FAILURE_POLICY) == Str(c.failurePolicy) && Get(o, CONTENT_HASH) == HashText(c.contentHash)
  }

  lemma OutcomeLookups(c: ComparisonEvidence)
    ensures OutcomeFields(c, ComparisonNode(c).fields)
  {
    hide OptStr, Strings, Objects, HashText;
  }

  lemma ComparisonInjective(c: ComparisonEvidence, d: ComparisonEvidence)
    ensures ComparisonNode(c) == ComparisonNode(d) ==> c == d
  {
    hide OptStr, Strings, Objects, HashText, ComparisonNode, Get, Texts, Dicts;
    ComparedLookups(c);
    ComparedLookups(d);
    OutcomeLookups(c);
    OutcomeLookups(d);
    OptStrInjective(c.workloadId, d.workloadId);
    HashInjective(c.contentHash, d.contentHash);
    StringsBack(c.normalizationApplied);
    StringsBack(d.normalizationApplied);
    StringsBack(c.differences);
    StringsBack(d.differences);
    ObjectsBack(c.fieldLevelResults);
    ObjectsBack(d.fieldLevelResults);
  }

  /** Equal arrays have equal entries. */
  lemma EachEqual<T>(xs: seq<T>, ys: seq<T>, f: T -> Json)
    ensures Each(xs, f) == Each(ys, f) <==> |xs| == |ys| && forall i :: 0 <= i < |xs| ==> f(xs[i]) == f(ys[i])
  {
    var x, y := Each(xs, f).items, Each(ys, f).items;
    if Each(xs, f) == Each(ys, f) {
      assert |x| == |xs| && |y| == |ys|;
      forall i | 0 <= i < |xs| ensures f(xs[i]) == f(ys[i]) { assert x[i] == y[i]; }
    }
    if |xs| == |ys| && forall i :: 0 <= i < |xs| ==> f(xs[i]) == f(ys[i]) { assert x == y; }
  }

  // ---- the graph ----

  function CoveredArtifacts(xs: seq<ArtifactEvidence>): seq<ArtifactEvidence> {
    seq(|xs|, i requires 0 <= i < |xs| => CoveredArtifact(xs[i]))
  }

  /** The manifest without what the seal leaves out: its own seal, the verdict derived from it, the time
      it was built, and what artifact identities say about their own content. */
  function Covered(m: Manifest): Manifest {
    m.(verdict := None, createdAt := "", sealedHash := None, artifacts := CoveredArtifacts(m.artifacts))
  }

  predicate HeaderFields(m: Manifest, o: Object) {
    && Get(o, MANIFEST_VERSION) == Str(m.manifestVersion) && Get(o, RUN_ID) == Str(m.runId)
    && Get(o, WORKLOAD_ID) == Str(m.workloadId)
    && Get(o, SOURCE_IDENTITY) == SourceJson(m.source) && Get(o, CANDIDATE_IDENTITY) == CandidateJson(m.candidate)
    && Get(o, ORACLE_IDENTITY) == OracleJson(m.oracle) && Get(o, CONTROLLED_INPUT) == InputJson(m.controlledInput)
  }

  predicate ListFields(m: Manifest, o: Object) {
    && Get(o, ENVIRONMENT_IDENTITIES) == Each(m.environments, EnvironmentJson)
    && Get(o, EXECUTION_EVIDENCE) == Each(m.executions, ExecutionNode)
    && Get(o, ARTIFACT_EVIDENCE) == Each(m.artifacts, ArtifactNode)
    && Get(o, COMPARISON_EVIDENCE) == Each(m.comparisons, ComparisonNode)
  }

  lemma GraphLookups(m: Manifest)
    ensures CanonicalGraph(m).Obj?
    ensures HeaderFields(m, CanonicalGraph(m).fields) && ListFields(m, CanonicalGraph(m).fields)
  {
    hide SourceJson, CandidateJson, OracleJson, InputJson, Each, EnvironmentJson, ExecutionNode, ArtifactNode,
      ComparisonNode;
  }

  lemma ListsInjective(m: Manifest, n: Manifest, o: Object)
    requires ListFields(m, o) && ListFields(n, o)
    ensures m.environments == n.environments && m.executions == n.executions && m.comparisons == n.comparisons
    ensures CoveredArtifacts(m.artifacts) == CoveredArtifacts(n.artifacts)
  {
    hide Get, EnvironmentJson, ExecutionNode, ArtifactNode, ComparisonNode, Each, CoveredArtifact;
    EachEqual(m.environments, n.environments, EnvironmentJson);
    EachEqual(m.executions, n.executions, ExecutionNode);
    EachEqual(m.artifacts, n.artifacts, ArtifactNode);
    EachEqual(m.comparisons, n.comparisons, ComparisonNode);
    forall i | 0 <= i < |m.environments|
      ensures m.environments[i] == n.environments[i]
    {
      EnvironmentInjective(m.environments[i], n.environments[i]);
    }
    forall i | 0 <= i < |m.executions|
      ensures m.executions[i] == n.executions[i]
    {
      ExecutionInjective(m.executions[i], n.executions[i]);
    }
    forall i | 0 <= i < |m.artifacts|
      ensures CoveredArtifact(m.artifacts[i]) == CoveredArtifact(n.artifacts[i])
    {
      ArtifactInjective(m.artifacts[i], n.artifacts[i]);
    }
    forall i | 0 <= i < |m.comparisons|
      ensures m.comparisons[i] == n.comparisons[i]
    {
      ComparisonInjective(m.comparisons[i], n.comparisons[i]);
    }
  }

  lemma HeaderInjective(m: Manifest, n: Manifest, o: Object)
    requires HeaderFields(m, o) && HeaderFields(n, o)
    ensures m.manifestVersion == n.manifestVersion && m.runId == n.runId && m.workloadId == n.workloadId
      && m.source == n.source
    ensures m.candidate == n.candidate && m.oracle == n.oracle && m.controlledInput == n.controlledInput
  {
    hide Get, SourceJson, CandidateJson, OracleJson, InputJson;
    SourceInjective(m.source, n.source);
    CandidateInjective(m.candidate, n.candidate);
    OracleInjective(m.oracle, n.oracle);
    InputInjective(m.controlledInput, n.controlledInput);
  }

  lemma GraphOfCovered(m: Manifest)
    ensures CanonicalGraph(Covered(m)) == CanonicalGraph(m)
  {
    forall i | 0 <= i < |m.artifacts|
      ensures ArtifactNode(CoveredArtifacts(m.artifacts)[i]) == ArtifactNode(m.artifacts[i])
    {
    }
    hide ArtifactNode, ExecutionNode, ComparisonNode, EnvironmentJson, SourceJson, CandidateJson, OracleJson, InputJson;
    assert Each(CoveredArtifacts(m.artifacts), ArtifactNode).items == Each(m.artifacts, ArtifactNode).items;
  }

  /** Two manifests have the same graph exactly when they carry the same evidence. */
  lemma GraphDeterminesEvidence(m: Manifest, n: Manifest)
    ensures CanonicalGraph(m) == CanonicalGraph(n) <==> Covered(m) == Covered(n)
  {
    hide CanonicalGraph, HeaderFields, ListFields, CoveredArtifacts;
    if CanonicalGraph(m) == CanonicalGraph(n) {
      GraphLookups(m);
      GraphLookups(n);
      HeaderInjective(m, n, CanonicalGraph(m).fields);
      ListsInjective(m, n, CanonicalGraph(m).fields);
    }
    if Covered(m) == Covered(n) {
      GraphOfCovered(m);
      GraphOfCovered(n);
    }
  }

  ghost predicate CollisionFree(hash: Json -> Digest) { forall a, b :: hash(a) == hash(b) ==> a == b }

  /** With a collision-free hash, stored documents with one seal carry the same evidence, and stored
      documents with the same evidence carry one seal. */
  lemma SealDeterminesEvidence(i: Json, j: Json, hash: Json -> Digest, m: Manifest, n: Manifest)
    requires CollisionFree(hash) && DecodeManifest(i, hash) == Decoded(m) && DecodeManifest(j, hash) == Decoded(n)
    ensures m.sealedHash == n.sealedHash <==> Covered(m) == Covered(n)
  {
    hide DecodeManifest, GoodManifest, CanonicalGraph, Covered;
    DecodedIsSealed(i, hash, m);
    DecodedIsSealed(j, hash, n);
    GraphDeterminesEvidence(m, n);
  }

  /** The seal does not notice a change in what an artifact's identity says about its content. */
  lemma SealIgnoresIdentity(m: Manifest, i: nat, digest: Digest, size: int, count: Option<int>, hash: Json -> Digest)
    requires i < |m.artifacts| && HasTrueSeal(m, hash)
    ensures var identity := m.artifacts[i].artifact.(contentHash := digest, sizeBytes := size, recordCount := count);
      HasTrueSeal(m.(artifacts := m.artifacts[i := m.artifacts[i].(artifact := identity)]), hash)
  {
    var identity := m.artifacts[i].artifact.(contentHash := digest, sizeBytes := size, recordCount := count);
    var n := m.(artifacts := m.artifacts[i := m.artifacts[i].(artifact := identity)]);
    hide CanonicalGraph;
    assert CoveredArtifacts(m.artifacts) == CoveredArtifacts(n.artifacts);
    GraphDeterminesEvidence(m, n);
  }
}
