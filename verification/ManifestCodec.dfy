/** Whole documents of api/serialization.py: evidence manifests under their seal, verdicts and reports. */
module ManifestCodec {
  import opened Json
  import opened Options
  import opened Evidence
  import Verdicts
  import opened Serialization

  // ---- envelope ----

  const EVIDENCE_SCHEMA: string := "evidence-manifest"
  const VERDICT_SCHEMA: string := "verdict"
  const REPORT_SCHEMA: string := "modernization-report"
  const SCHEMA_VERSION_NUMBER: int := 1

  /** `_encode_envelope`. */
  function Envelope(schema: string, payload: Object): Json {
    Obj(map[SCHEMA := Str(schema), SCHEMA_VERSION := Int(SCHEMA_VERSION_NUMBER), PAYLOAD := Obj(payload)])
  }

  /** `_decode_envelope`, from the parsed document on. */
  function OpenEnvelope(j: Json, schema: string): Decoded<Object> {
    var o :- ExpectDict(j);
    if Get(o, SCHEMA) != Str(schema) then Corrupt
    else
      var version :- ExpectInt(Get(o, SCHEMA_VERSION));
      if version != SCHEMA_VERSION_NUMBER then Unsupported else ExpectDict(Get(o, PAYLOAD))
  }

  /** A payload is read only under its own schema name and the one supported version; a later version
      is refused as unsupported, not guessed. */
  lemma EnvelopeGuards(schema: string, other: string, payload: Object, version: Json)
    ensures OpenEnvelope(Envelope(schema, payload), other) == if schema == other then Decoded(payload) else Corrupt
    ensures version != Int(1) ==>
      OpenEnvelope(Obj(map[SCHEMA := Str(schema), SCHEMA_VERSION := version, PAYLOAD := Obj(payload)]), schema)
        == if version.Int? then Unsupported else Corrupt
  {
  }

  // ---- evidence manifests ----

  /** The payload of `encode_evidence_manifest`. */
  function ManifestPayload(m: Manifest): Object {
    map[MANIFEST_VERSION := Str(m.manifestVersion), RUN_ID := Str(m.runId), WORKLOAD_ID := Str(m.workloadId),
        SOURCE_IDENTITY := SourceJson(m.source), CANDIDATE_IDENTITY := CandidateJson(m.candidate),
        ORACLE_IDENTITY := OracleJson(m.oracle), ENVIRONMENT_IDENTITIES := Each(m.environments, EnvironmentJson),
        CONTROLLED_INPUT := InputJson(m.controlledInput), EXECUTION_EVIDENCE := Each(m.executions, ExecutionJson),
        ARTIFACT_EVIDENCE := Each(m.artifacts, ArtifactJson),
        COMPARISON_EVIDENCE := Each(m.comparisons, ComparisonNode),
        VERDICT_EVIDENCE := VerdictEvidenceJson(m.verdict), CREATED_AT := Str(m.createdAt),
        SEALED_HASH := OptHash(m.sealedHash)]
  }

  /** `encode_evidence_manifest`: a missing or stale seal is refused, and so is a manifest without an
      oracle, which the source cannot take apart. */
  function EncodeManifest(m: Manifest, hash: Json -> Digest): Decoded<Json> {
    if m.sealedHash != Some(hash(CanonicalGraph(m))) || m.oracle.None? then Corrupt
    else Decoded(Envelope(EVIDENCE_SCHEMA, ManifestPayload(m)))
  }

  function DecodeList<T>(j: Json, decode: Json -> Decoded<T>): Decoded<seq<T>> {
    var items :- ExpectList(j);
    DecodeAll(items, decode)
  }

  /** The parties are objects, or null for the candidate; this is asked before anything is decoded. */
  function DecodeShapes(o: Object): Decoded<Option<Object>> {
    var source :- ExpectDict(Get(o, SOURCE_IDENTITY));
    var candidate :- Optional(Get(o, CANDIDATE_IDENTITY), ExpectDict);
    var oracle :- ExpectDict(Get(o, ORACLE_IDENTITY));
    var input :- ExpectDict(Get(o, CONTROLLED_INPUT));
    Decoded(candidate)
  }

  function DecodeFindings(o: Object): Decoded<(seq<EnvironmentIdentity>, seq<ExecutionEvidence>,
      seq<ArtifactEvidence>, seq<ComparisonEvidence>)> {
    var environments :- DecodeList(Get(o, ENVIRONMENT_IDENTITIES), DecodeEnvironment);
    var executions :- DecodeList(Get(o, EXECUTION_EVIDENCE), DecodeExecution);
    var artifacts :- DecodeList(Get(o, ARTIFACT_EVIDENCE), DecodeArtifact);
    var comparisons :- DecodeList(Get(o, COMPARISON_EVIDENCE), DecodeComparison);
    Decoded((environments, executions, artifacts, comparisons))
  }

  /** Who and what the evidence is about, and the verdict. */
  function DecodeParties(o: Object): Decoded<(SourceIdentity, Option<CandidateIdentity>, OracleIdentity,
      InputIdentity, Option<VerdictEvidence>)> {
    var input :- DecodeInput(Get(o, CONTROLLED_INPUT));
    var source :- DecodeSource(Get(o, SOURCE_IDENTITY));
    var candidate :- Optional(Get(o, CANDIDATE_IDENTITY), DecodeCandidate);
    var oracle :- DecodeOracle(Get(o, ORACLE_IDENTITY));
    var verdict :- Optional(Get(o, VERDICT_EVIDENCE), DecodeVerdictEvidence);
    Decoded((source, candidate, oracle, input, verdict))
  }

  function DecodeHeader(o: Object): Decoded<(string, string, string, string, string)> {
    var seal :- ExpectStr(Get(o, SEALED_HASH));
    var version :- ExpectStr(Get(o, MANIFEST_VERSION));
    var run :- ExpectStr(Get(o, RUN_ID));
    var workload :- ExpectStr(Get(o, WORKLOAD_ID));
    var created :- ExpectStr(Get(o, CREATED_AT));
    Decoded((seal, version, run, workload, created))
  }

  /** `decode_evidence_manifest`: the manifest is sealed anew as it is built, and the new seal must be
      the stored one. */
  function DecodeManifest(j: Json, hash: Json -> Digest): Decoded<Manifest> {
    var o :- OpenEnvelope(j, EVIDENCE_SCHEMA);
    var shapes :- DecodeShapes(o);
    var (environments, executions, artifacts, comparisons) :- DecodeFindings(o);
    var (source, candidate, oracle, input, verdict) :- DecodeParties(o);
    var (seal, version, run, workload, created) :- DecodeHeader(o);
    var m := Evidence.Sealed(Manifest(version, run, workload, source, candidate, Some(oracle), environments, input,
      executions, artifacts, comparisons, verdict, created, None), hash);
    if SHA256 + m.sealedHash.value == seal then Decoded(m) else Corrupt
  }

  method ReadFindings(o: Object)
    returns (r: Decoded<(seq<EnvironmentIdentity>, seq<ExecutionEvidence>, seq<ArtifactEvidence>,
      seq<ComparisonEvidence>)>)
    ensures r == DecodeFindings(o)
  {
    hide DecodeEnvironment, DecodeExecution, DecodeArtifact, DecodeComparison, Get;
    var environmentItems :- ExpectList(Get(o, ENVIRONMENT_IDENTITIES));
    var environments :- ReadEnvironments(environmentItems);
    var executionItems :- ExpectList(Get(o, EXECUTION_EVIDENCE));
    var executions :- ReadAll(executionItems, DecodeExecution);
    var artifactItems :- ExpectList(Get(o, ARTIFACT_EVIDENCE));
    var artifacts :- ReadAll(artifactItems, DecodeArtifact);
    var comparisonItems :- ExpectList(Get(o, COMPARISON_EVIDENCE));
    var comparisons :- ReadAll(comparisonItems, DecodeComparison);
    return Decoded((environments, executions, artifacts, comparisons));
  }

  method ReadParties(o: Object)
    returns (r: Decoded<(SourceIdentity, Option<CandidateIdentity>, OracleIdentity, InputIdentity,
      Option<VerdictEvidence>)>)
    ensures r == DecodeParties(o)
  {
    hide DecodeSource, DecodeCandidate, DecodeOracle, DecodeInput, DecodeVerdictEvidence, Get;
    var input :- ReadInput(Get(o, CONTROLLED_INPUT));
    var source :- DecodeSource(Get(o, SOURCE_IDENTITY));
    var candidate :- Optional(Get(o, CANDIDATE_IDENTITY), DecodeCandidate);
    var oracle :- DecodeOracle(Get(o, ORACLE_IDENTITY));
    var verdict :- Optional(Get(o, VERDICT_EVIDENCE), DecodeVerdictEvidence);
    return Decoded((source, candidate, oracle, input, verdict));
  }

  /** `decode_evidence_manifest` with its loops. */
  method ReadManifest(j: Json, hash: Json -> Digest) returns (r: Decoded<Manifest>)
    ensures r == DecodeManifest(j, hash)
  {
    hide DecodeShapes, DecodeParties, DecodeFindings, DecodeHeader, OpenEnvelope, CanonicalGraph;
    var o :- OpenEnvelope(j, EVIDENCE_SCHEMA);
    var shapes :- DecodeShapes(o);
    var findings :- ReadFindings(o);
    var parties :- ReadParties(o);
    var header :- DecodeHeader(o);
    var m := Evidence.Sealed(Manifest(header.1, header.2, header.3, parties.0, parties.1, Some(parties.2), findings.0,
      parties.3, findings.1, findings.2, findings.3, parties.4, header.4, None), hash);
    return if SHA256 + m.sealedHash.value == header.0 then Decoded(m) else Corrupt;
  }

  // ---- what can be written and read back ----

  predicate GoodParties(m: Manifest) {
    && GoodSource(m.source) && (m.candidate.Some? ==> GoodCandidate(m.candidate.value)) && m.oracle.Some?
    && GoodOracle(m.oracle.value) && GoodInput(m.controlledInput)
    && (m.verdict.Some? ==> GoodVerdictEvidence(m.verdict.value))
  }

  predicate GoodFindings(m: Manifest) {
    && (forall i :: 0 <= i < |m.environments| ==> GoodEnvironment(m.environments[i]))
    && (forall i :: 0 <= i < |m.executions| ==> GoodExecution(m.executions[i]))
    && (forall i :: 0 <= i < |m.artifacts| ==> GoodArtifact(m.artifacts[i]))
    && (forall i :: 0 <= i < |m.comparisons| ==> GoodComparison(m.comparisons[i]))
  }

  /** Required strings are not empty, optional strings are absent or not empty, hashes are digests, and
      artifact types and roles are known. */
  predicate GoodManifest(m: Manifest) {
    && m.manifestVersion != "" && m.runId != "" && m.workloadId != "" && m.createdAt != ""
    && GoodParties(m) && GoodFindings(m)
  }

  predicate HasTrueSeal(m: Manifest, hash: Json -> Digest) { m.sealedHash == Some(hash(CanonicalGraph(m))) }

  /** The seal covers neither itself nor any other field the graph leaves out. */
  lemma GraphIgnoresSeal(m: Manifest, d: Option<Digest>)
    ensures CanonicalGraph(m.(sealedHash := d)) == CanonicalGraph(m)
  {
  }

  lemma ListBack<T>(xs: seq<T>, encode: T -> Json, decode: Json -> Decoded<T>)
    requires forall i :: 0 <= i < |xs| ==> decode(encode(xs[i])) == Decoded(xs[i])
    ensures DecodeList(Each(xs, encode), decode) == Decoded(xs)
  {
    DecodesEach(Each(xs, encode).items, decode, xs);
  }

  lemma PartiesBack(m: Manifest, o: Object)
    requires GoodParties(m)
    requires Get(o, SOURCE_IDENTITY) == SourceJson(m.source) && Get(o, CANDIDATE_IDENTITY) == CandidateJson(m.candidate)
    requires Get(o, ORACLE_IDENTITY) == OracleJson(m.oracle) && Get(o, CONTROLLED_INPUT) == InputJson(m.controlledInput)
    requires Get(o, VERDICT_EVIDENCE) == VerdictEvidenceJson(m.verdict)
    ensures DecodeParties(o) == Decoded((m.source, m.candidate, m.oracle.value, m.controlledInput, m.verdict))
  {
    hide Get, GoodSource, GoodCandidate, GoodOracle, GoodInput, GoodVerdictEvidence, SourceJson, CandidateJson,
      OracleJson, InputJson, VerdictEvidenceJson, DecodeSource, DecodeCandidate, DecodeOracle, DecodeInput,
      DecodeVerdictEvidence, Optional;
    SourceBack(m.source);
    CandidateBack(m.candidate);
    OracleBack(m.oracle.value);
    InputBack(m.controlledInput);
    VerdictEvidenceBack(m.verdict);
  }

  lemma ShapesBack(m: Manifest, o: Object)
    requires m.oracle.Some?
    requires Get(o, SOURCE_IDENTITY) == SourceJson(m.source) && Get(o, CANDIDATE_IDENTITY) == CandidateJson(m.candidate)
    requires Get(o, ORACLE_IDENTITY) == OracleJson(m.oracle) && Get(o, CONTROLLED_INPUT) == InputJson(m.controlledInput)
    ensures DecodeShapes(o).Decoded?
  {
    hide Get;
  }

  lemma EnvironmentsBack(es: seq<EnvironmentIdentity>)
    requires forall i :: 0 <= i < |es| ==> GoodEnvironment(es[i])
    ensures DecodeList(Each(es, EnvironmentJson), DecodeEnvironment) == Decoded(es)
  {
    hide GoodEnvironment, EnvironmentJson, DecodeEnvironment;
    forall i | 0 <= i < |es| ensures DecodeEnvironment(EnvironmentJson(es[i])) == Decoded(es[i]) {
      EnvironmentBack(es[i]);
    }
    ListBack(es, EnvironmentJson, DecodeEnvironment);
  }

  lemma ExecutionsBack(es: seq<ExecutionEvidence>)
    requires forall i :: 0 <= i < |es| ==> GoodExecution(es[i])
    ensures DecodeList(Each(es, ExecutionJson), DecodeExecution) == Decoded(es)
  {
    hide GoodExecution, ExecutionJson, DecodeExecution;
    forall i | 0 <= i < |es| ensures DecodeExecution(ExecutionJson(es[i])) == Decoded(es[i]) { ExecutionBack(es[i]); }
    ListBack(es, ExecutionJson, DecodeExecution);
  }

  lemma FindingsBack(m: Manifest, o: Object)
    requires GoodFindings(m)
    requires Get(o, ENVIRONMENT_IDENTITIES) == Each(m.environments, EnvironmentJson)
    requires Get(o, EXECUTION_EVIDENCE) == Each(m.executions, ExecutionJson)
      && Get(o, ARTIFACT_EVIDENCE) == Each(m.artifacts, ArtifactJson)
    requires Get(o, COMPARISON_EVIDENCE) == Each(m.comparisons, ComparisonNode)
    ensures DecodeFindings(o) == Decoded((m.environments, m.executions, m.artifacts, m.comparisons))
  {
    hide Get, GoodEnvironment, GoodExecution, GoodArtifact, GoodComparison, EnvironmentJson, ExecutionJson,
      ArtifactJson, ComparisonNode, Each, DecodeEnvironment, DecodeExecution, DecodeArtifact, DecodeComparison,
      DecodeList;
    EnvironmentsBack(m.environments);
    ExecutionsBack(m.executions);
    forall i | 0 <= i < |m.artifacts|
      ensures DecodeArtifact(ArtifactJson(m.artifacts[i])) == Decoded(m.artifacts[i])
    {
      ArtifactBack(m.artifacts[i]);
    }
    forall i | 0 <= i < |m.comparisons|
      ensures DecodeComparison(ComparisonNode(m.comparisons[i])) == Decoded(m.comparisons[i])
    {
      ComparisonBack(m.comparisons[i]);
    }
    ListBack(m.artifacts, ArtifactJson, DecodeArtifact);
    ListBack(m.comparisons, ComparisonNode, DecodeComparison);
  }

  lemma HeaderBack(m: Manifest, hash: Json -> Digest)
    requires GoodManifest(m) && HasTrueSeal(m, hash)
    ensures DecodeHeader(ManifestPayload(m)) ==
      Decoded((SHA256 + m.sealedHash.value, m.manifestVersion, m.runId, m.workloadId, m.createdAt))
  {
    hide GoodParties, GoodFindings, SourceJson, CandidateJson, OracleJson, EnvironmentJson, InputJson, Each,
      ExecutionJson, ArtifactJson, ComparisonNode, VerdictEvidenceJson, CanonicalGraph;
  }

  lemma ManifestBack(m: Manifest, hash: Json -> Digest)
    requires GoodManifest(m) && HasTrueSeal(m, hash)
    ensures EncodeManifest(m, hash).Decoded? && DecodeManifest(EncodeManifest(m, hash).value, hash) == Decoded(m)
  {
    hide GoodParties, GoodFindings, SourceJson, CandidateJson, OracleJson, EnvironmentJson, InputJson, Each,
      ExecutionJson, ArtifactJson, ComparisonNode, VerdictEvidenceJson, DecodeShapes, DecodeParties, DecodeFindings,
      DecodeHeader, CanonicalGraph;
    var o := ManifestPayload(m);
    assert m.oracle.Some? by { OraclePresent(m); }
    HeaderBack(m, hash);
    ShapesBack(m, o);
    PartiesBack(m, o);
    FindingsBack(m, o);
    GraphIgnoresSeal(m, None);
    var bare := m.(sealedHash := None);
    assert Evidence.Sealed(bare, hash) == m;
  }

  lemma OraclePresent(m: Manifest)
    requires GoodParties(m)
    ensures m.oracle.Some?
  {
  }

  // ---- what is read is well formed ----

  lemma SourceIsGood(j: Json)
    ensures DecodeSource(j).Decoded? ==> GoodSource(DecodeSource(j).value)
  {
    if j.Obj? { ParsedIsDigest(Get(j.fields, SOURCE_HASH)); }
    hide ParseHash, IsDigest;
  }

  lemma CandidateIsGood(j: Json)
    ensures DecodeCandidate(j).Decoded? ==> GoodCandidate(DecodeCandidate(j).value)
  {
    if j.Obj? {
      ParsedIsDigest(Get(j.fields, SOURCE_HASH));
      ParsedIsDigest(Get(j.fields, CANDIDATE_HASH));
    }
    hide ParseHash, IsDigest;
  }

  lemma OracleIsGood(j: Json)
    ensures DecodeOracle(j).Decoded? ==> GoodOracle(DecodeOracle(j).value)
  {
  }

  lemma EnvironmentIsGood(j: Json)
    ensures DecodeEnvironment(j).Decoded? ==> GoodEnvironment(DecodeEnvironment(j).value)
  {
    hide TextMap;
  }

  lemma InputIsGood(j: Json)
    ensures DecodeInput(j).Decoded? ==> GoodInput(DecodeInput(j).value)
  {
    if j.Obj? {
      ParsedIsDigest(Get(j.fields, STDIN_HASH));
      HashesAreDigests(GetOr(j.fields, INPUT_FILES, Obj(map[])));
    }
    hide ParseHash, IsDigest, Hashes, AllDigests;
  }

  lemma TracesAreGood(o: Object)
    ensures DecodeTraces(o).Decoded? ==>
      var t := DecodeTraces(o).value;
        IsDigest(t.0) && IsDigest(t.1) && AllDigests(t.2) && IsDigest(t.3) && IsDigest(t.4)
  {
    hide ParseHash, IsDigest, Hashes, AllDigests, TextMap, Get, GetOr;
    ParsedIsDigest(Get(o, STDOUT_HASH));
    ParsedIsDigest(Get(o, STDERR_HASH));
    ParsedIsDigest(Get(o, SOURCE_TREE_HASH_BEFORE));
    ParsedIsDigest(Get(o, SOURCE_TREE_HASH_AFTER));
    HashesAreDigests(GetOr(o, GENERATED_FILES, Obj(map[])));
  }

  lemma ProgramIsGood(o: Object)
    ensures DecodeProgram(o).Decoded? ==> var p := DecodeProgram(o).value;
      p.0 != "" && p.1 != "" && OptNonEmpty(p.2) && p.3 != ""
  {
    hide Get;
  }

  lemma EndingIsGood(o: Object)
    ensures DecodeEnding(o).Decoded? ==> var e := DecodeEnding(o).value; e.3 != "" && OptNonEmpty(e.6) && e.7 != ""
  {
    hide Get, GetOr;
  }

  lemma ExecutionIsGood(j: Json)
    ensures DecodeExecution(j).Decoded? ==> GoodExecution(DecodeExecution(j).value)
  {
    hide DecodeTraces, DecodeProgram, DecodeEnding, IsDigest, AllDigests, OptNonEmpty;
    if j.Obj? {
      TracesAreGood(j.fields);
      ProgramIsGood(j.fields);
      EndingIsGood(j.fields);
    }
  }

  lemma ArtifactIsGood(j: Json)
    ensures DecodeArtifact(j).Decoded? ==> GoodArtifact(DecodeArtifact(j).value)
  {
    if j.Obj? {
      ParsedIsDigest(Get(j.fields, CONTENT_HASH));
      IdentityIsGood(Get(j.fields, ARTIFACT));
    }
    hide ParseHash, IsDigest, DecodeIdentity, GoodIdentity, Get;
  }

  lemma IdentityIsGood(j: Json)
    ensures DecodeIdentity(j).Decoded? ==> GoodIdentity(DecodeIdentity(j).value)
  {
    if j.Obj? { ParsedIsDigest(Get(j.fields, CONTENT_HASH)); }
    hide ParseHash, IsDigest, KnownType, KnownRole, Get;
  }

  lemma ComparisonIsGood(j: Json)
    ensures DecodeComparison(j).Decoded? ==> GoodComparison(DecodeComparison(j).value)
  {
    if j.Obj? { ParsedIsDigest(Get(j.fields, CONTENT_HASH)); }
    hide ParseHash, IsDigest, Texts, Dicts, Get, GetOr;
  }

  lemma VerdictEvidenceIsGood(j: Json)
    ensures DecodeVerdictEvidence(j).Decoded? ==> GoodVerdictEvidence(DecodeVerdictEvidence(j).value)
  {
    if j.Obj? { ParsedIsDigest(Get(j.fields, EVIDENCE_MANIFEST_HASH)); }
    hide ParseHash, IsDigest, Get;
  }

  lemma ListIsGood<T>(j: Json, decode: Json -> Decoded<T>, good: T -> bool)
    requires forall i: Json :: decode(i).Decoded? ==> good(decode(i).value)
    ensures DecodeList(j, decode).Decoded? ==> forall i :: 0 <= i < |DecodeList(j, decode).value| ==>
      good(DecodeList(j, decode).value[i])
  {
    if j.Arr? && DecodeAll(j.items, decode).Decoded? { DecodesEach(j.items, decode, DecodeAll(j.items, decode).value); }
  }

  lemma PartiesAreGood(o: Object, m: Manifest)
    requires m.oracle.Some?
      && DecodeParties(o) == Decoded((m.source, m.candidate, m.oracle.value, m.controlledInput, m.verdict))
    ensures GoodParties(m)
  {
    hide Get, GoodSource, GoodCandidate, GoodOracle, GoodInput, GoodVerdictEvidence, DecodeSource, DecodeCandidate,
      DecodeOracle, DecodeInput, DecodeVerdictEvidence;
    SourceIsGood(Get(o, SOURCE_IDENTITY));
    CandidateIsGood(Get(o, CANDIDATE_IDENTITY));
    OracleIsGood(Get(o, ORACLE_IDENTITY));
    InputIsGood(Get(o, CONTROLLED_INPUT));
    VerdictEvidenceIsGood(Get(o, VERDICT_EVIDENCE));
  }

  lemma FindingsAreGood(o: Object, m: Manifest)
    requires DecodeFindings(o) == Decoded((m.environments, m.executions, m.artifacts, m.comparisons))
    ensures GoodFindings(m)
  {
    hide Get, GoodEnvironment, GoodExecution, GoodArtifact, GoodComparison, DecodeEnvironment, DecodeExecution,
      DecodeArtifact, DecodeComparison, DecodeList;
    forall i: Json
      ensures DecodeEnvironment(i).Decoded? ==> GoodEnvironment(DecodeEnvironment(i).value)
    {
      EnvironmentIsGood(i);
    }
    forall i: Json
      ensures DecodeExecution(i).Decoded? ==> GoodExecution(DecodeExecution(i).value)
    {
      ExecutionIsGood(i);
    }
    forall i: Json ensures DecodeArtifact(i).Decoded? ==> GoodArtifact(DecodeArtifact(i).value) { ArtifactIsGood(i); }
    forall i: Json
      ensures DecodeComparison(i).Decoded? ==> GoodComparison(DecodeComparison(i).value)
    {
      ComparisonIsGood(i);
    }
    ListIsGood(Get(o, ENVIRONMENT_IDENTITIES), DecodeEnvironment, GoodEnvironment);
    ListIsGood(Get(o, EXECUTION_EVIDENCE), DecodeExecution, GoodExecution);
    ListIsGood(Get(o, ARTIFACT_EVIDENCE), DecodeArtifact, GoodArtifact);
    ListIsGood(Get(o, COMPARISON_EVIDENCE), DecodeComparison, GoodComparison);
  }

  /** Any document that decodes, whoever wrote it, yields a well-formed manifest whose graph hashes to
      the seal the document stores. */
  lemma DecodedIsSealed(j: Json, hash: Json -> Digest, m: Manifest)
    requires DecodeManifest(j, hash) == Decoded(m)
    ensures GoodManifest(m) && HasTrueSeal(m, hash)
    ensures OpenEnvelope(j, EVIDENCE_SCHEMA).Decoded?
      && Get(OpenEnvelope(j, EVIDENCE_SCHEMA).value, SEALED_HASH) == HashText(hash(CanonicalGraph(m)))
  {
    hide DecodeShapes, DecodeParties, DecodeFindings, GoodParties, GoodFindings, CanonicalGraph, OpenEnvelope, Get;
    var o := OpenEnvelope(j, EVIDENCE_SCHEMA).value;
    var p, f := DecodeParties(o).value, DecodeFindings(o).value;
    assert p == (m.source, m.candidate, m.oracle.value, m.controlledInput, m.verdict);
    assert f == (m.environments, m.executions, m.artifacts, m.comparisons);
    PartiesAreGood(o, m);
    FindingsAreGood(o, m);
    GraphIgnoresSeal(m, None);
  }

  /** The manifests that survive being stored are exactly the well-formed ones with a true seal. */
  lemma ManifestRoundTrip(m: Manifest, hash: Json -> Digest)
    ensures (EncodeManifest(m, hash).Decoded? && DecodeManifest(EncodeManifest(m, hash).value, hash) == Decoded(m))
       <==> GoodManifest(m) && HasTrueSeal(m, hash)
  {
    hide EncodeManifest, DecodeManifest, GoodManifest, HasTrueSeal;
    if GoodManifest(m) && HasTrueSeal(m, hash) { ManifestBack(m, hash); }
    if EncodeManifest(m, hash).Decoded? && DecodeManifest(EncodeManifest(m, hash).value, hash) == Decoded(m) {
      DecodedIsSealed(EncodeManifest(m, hash).value, hash, m);
    }
  }

  // ---- documents that end in a plain ValueError ----

  lemma PartsNotRefused(o: Object)
    ensures DecodeShapes(o) != Refused && DecodeHeader(o) != Refused && DecodeParties(o) != Refused
  {
    hide Get, DecodeSource, DecodeCandidate, DecodeOracle, DecodeInput, DecodeVerdictEvidence;
    SourceNotRefused(Get(o, SOURCE_IDENTITY));
    CandidateNotRefused(Get(o, CANDIDATE_IDENTITY));
    InputNotRefused(Get(o, CONTROLLED_INPUT));
    OracleNotRefused(Get(o, ORACLE_IDENTITY));
    VerdictEvidenceNotRefused(Get(o, VERDICT_EVIDENCE));
  }

  lemma SourceNotRefused(j: Json)
    ensures DecodeSource(j) != Refused
  {
    hide Get;
  }

  lemma CandidateNotRefused(j: Json)
    ensures DecodeCandidate(j) != Refused
  {
    hide Get;
  }

  lemma OracleNotRefused(j: Json)
    ensures DecodeOracle(j) != Refused
  {
    hide Get;
  }

  lemma InputNotRefused(j: Json)
    ensures DecodeInput(j) != Refused
  {
    hide Get;
  }

  lemma VerdictEvidenceNotRefused(j: Json)
    ensures DecodeVerdictEvidence(j) != Refused
  {
    hide Get;
  }

  lemma EnvironmentNotRefused(j: Json)
    ensures DecodeEnvironment(j) != Refused
  {
    hide Get;
  }

  lemma ExecutionNotRefused(j: Json)
    ensures DecodeExecution(j) != Refused
  {
    hide Get, ParseHash;
    if j.Obj? {
      HashNotRefused(Get(j.fields, STDOUT_HASH));
      HashNotRefused(Get(j.fields, STDERR_HASH));
      HashNotRefused(Get(j.fields, SOURCE_TREE_HASH_BEFORE));
      HashNotRefused(Get(j.fields, SOURCE_TREE_HASH_AFTER));
    }
  }

  lemma ComparisonNotRefused(j: Json)
    ensures DecodeComparison(j) != Refused
  {
    hide Get, ParseHash, DecodeAll;
    if j.Obj? {
      HashNotRefused(Get(j.fields, CONTENT_HASH));
      ListNotRefused(Get(j.fields, NORMALIZATION_APPLIED), ExpectText);
      ListNotRefused(Get(j.fields, DIFFERENCES), ExpectText);
      ListNotRefused(Get(j.fields, FIELD_LEVEL_RESULTS), ExpectDict);
    }
  }

  lemma ListNotRefused<T>(j: Json, decode: Json -> Decoded<T>)
    requires forall i: Json :: decode(i) != Refused
    ensures DecodeList(j, decode) != Refused
  {
    if j.Arr? { FirstRefused(j.items, decode); }
  }

  /** Everything the decoder reads before it is in order, and the first artifact that cannot be decoded is
      one of an unknown type or role. */
  ghost predicate NamesUnknownArtifact(o: Object) {
    && DecodeShapes(o).Decoded?
    && DecodeList(Get(o, ENVIRONMENT_IDENTITIES), DecodeEnvironment).Decoded?
    && DecodeList(Get(o, EXECUTION_EVIDENCE), DecodeExecution).Decoded?
    && Get(o, ARTIFACT_EVIDENCE).Arr?
    && FirstUnknown(Get(o, ARTIFACT_EVIDENCE).items)
  }

  ghost predicate FirstUnknown(items: seq<Json>) {
    exists n ::
      && 0 <= n < |items| && UnknownArtifact(items[n]) && forall i :: 0 <= i < n ==> DecodeArtifact(items[i]).Decoded?
  }

  lemma FindingsRefused(o: Object)
    ensures DecodeShapes(o).Decoded? && DecodeFindings(o) == Refused <==> NamesUnknownArtifact(o)
  {
    hide Get, DecodeShapes, DecodeEnvironment, DecodeExecution, DecodeArtifact, DecodeComparison, FirstUnknown,
      DecodeAll;
    forall i: Json ensures DecodeEnvironment(i) != Refused { EnvironmentNotRefused(i); }
    forall i: Json ensures DecodeExecution(i) != Refused { ExecutionNotRefused(i); }
    forall i: Json ensures DecodeComparison(i) != Refused { ComparisonNotRefused(i); }
    ListNotRefused(Get(o, ENVIRONMENT_IDENTITIES), DecodeEnvironment);
    ListNotRefused(Get(o, EXECUTION_EVIDENCE), DecodeExecution);
    ListNotRefused(Get(o, COMPARISON_EVIDENCE), DecodeComparison);
    if Get(o, ARTIFACT_EVIDENCE).Arr? { ArtifactsRefused(Get(o, ARTIFACT_EVIDENCE).items); }
  }

  lemma ArtifactsRefused(items: seq<Json>)
    ensures DecodeAll(items, DecodeArtifact) == Refused <==> FirstUnknown(items)
  {
    hide DecodeArtifact, UnknownArtifact, DecodeAll;
    forall i: Json ensures DecodeArtifact(i) == Refused <==> UnknownArtifact(i) { ArtifactRefused(i); }
    FirstRefused(items, DecodeArtifact);
    if n :| RefusedFirst(items, DecodeArtifact, n) { assert UnknownArtifact(items[n]); }
    if FirstUnknown(items) {
      var n :| 0 <= n < |items| && UnknownArtifact(items[n]) && forall i :: 0 <= i < n ==>
        DecodeArtifact(items[i]).Decoded?;
      assert RefusedFirst(items, DecodeArtifact, n);
    }
  }

  /** A document ends in a plain ValueError, and not as corrupt, exactly when it is a manifest's envelope
      and names an artifact of an unknown type or role before any other deviation the decoder meets. */
  lemma RefusedExactly(j: Json, hash: Json -> Digest)
    ensures DecodeManifest(j, hash) == Refused <==>
      OpenEnvelope(j, EVIDENCE_SCHEMA).Decoded? && NamesUnknownArtifact(OpenEnvelope(j, EVIDENCE_SCHEMA).value)
  {
    hide DecodeShapes, DecodeParties, DecodeFindings, DecodeHeader, NamesUnknownArtifact, CanonicalGraph, Get;
    if OpenEnvelope(j, EVIDENCE_SCHEMA).Decoded? {
      PartsNotRefused(OpenEnvelope(j, EVIDENCE_SCHEMA).value);
      FindingsRefused(OpenEnvelope(j, EVIDENCE_SCHEMA).value);
    }
  }

  /** A stored manifest in which one artifact has got an unknown type or role ends that way, whatever its
      seal. */
  lemma UnknownArtifactEscapes(m: Manifest, i: nat, identity: ArtifactIdentity, hash: Json -> Digest)
    requires GoodManifest(m) && i < |m.artifacts| && FilledIdentity(identity) && !KnownIdentity(identity)
    ensures var changed := m.(artifacts := m.artifacts[i := m.artifacts[i].(artifact := identity)]);
      DecodeManifest(Envelope(EVIDENCE_SCHEMA, ManifestPayload(changed)), hash) == Refused
  {
    hide DecodeManifest, DecodeShapes, DecodeEnvironment, DecodeExecution, DecodeArtifact, DecodeAll, UnknownArtifact,
      SourceJson, CandidateJson, OracleJson, EnvironmentJson, InputJson, ExecutionJson, ArtifactJson, ComparisonNode,
      VerdictEvidenceJson, GoodSource, GoodCandidate, GoodOracle, GoodInput, GoodVerdictEvidence, GoodEnvironment,
      GoodExecution, GoodArtifact, GoodComparison, FilledIdentity, KnownIdentity, Each, DecodeList, OptHash,
      FirstUnknown;
    var a := m.artifacts[i].(artifact := identity);
    var changed := m.(artifacts := m.artifacts[i := a]);
    var o := ManifestPayload(changed);
    EnvironmentsBack(m.environments);
    ExecutionsBack(m.executions);
    UnknownFirst(m.artifacts, i, a);
    ShapesBack(changed, o);
    ArtifactsListed(changed.artifacts);
    RefusedExactly(Envelope(EVIDENCE_SCHEMA, o), hash);
  }

  lemma ArtifactsListed(artifacts: seq<ArtifactEvidence>)
    ensures Each(artifacts, ArtifactJson).Arr?
  {
  }

  lemma UnknownFirst(artifacts: seq<ArtifactEvidence>, i: nat, a: ArtifactEvidence)
    requires i < |artifacts| && forall k :: 0 <= k < i ==> GoodArtifact(artifacts[k])
    requires FilledIdentity(a.artifact) && !KnownIdentity(a.artifact)
    ensures FirstUnknown(Each(artifacts[i := a], ArtifactJson).items)
  {
    hide ArtifactJson, DecodeArtifact, GoodArtifact, UnknownArtifact, FilledIdentity, KnownIdentity;
    var items := Each(artifacts[i := a], ArtifactJson).items;
    UnknownRefused(a);
    forall k | 0 <= k < i ensures DecodeArtifact(items[k]).Decoded? { ArtifactBack(artifacts[k]); }
    assert items[i] == ArtifactJson(a);
  }

  lemma UnknownRefused(a: ArtifactEvidence)
    requires FilledIdentity(a.artifact) && !KnownIdentity(a.artifact)
    ensures UnknownArtifact(ArtifactJson(a))
  {
    IdentityFieldsBack(a.artifact);
    OptIntBack(a.recordCount);
    hide IdentityFields, IdentityJson, KnownIdentity;
  }

  // ---- verdicts ----

  function StateName(s: Verdicts.VerdictState): string {
    match s
    case VERIFIED => "VERIFIED" case PARTIAL => "PARTIAL" case FAILED => "FAILED" case UNPROVEN => "UNPROVEN"
    case UNAVAILABLE => "UNAVAILABLE" case UNSUPPORTED => "UNSUPPORTED" case ERROR => "ERROR"
  }

  /** `VerdictState(text)`. */
  function ParseState(s: string): Decoded<Verdicts.VerdictState> {
    if s == "VERIFIED" then Decoded(Verdicts.VERIFIED) else if s == "PARTIAL" then Decoded(Verdicts.PARTIAL)
    else if s == "FAILED" then Decoded(Verdicts.FAILED) else if s == "UNPROVEN" then Decoded(Verdicts.UNPROVEN)
    else if s == "UNAVAILABLE" then Decoded(Verdicts.UNAVAILABLE)
    else if s == "UNSUPPORTED" then Decoded(Verdicts.UNSUPPORTED)
    else if s == "ERROR" then Decoded(Verdicts.ERROR) else Corrupt
  }

  lemma StatesAreNames(s: string)
    ensures ParseState(s).Decoded? <==>
      s in {"VERIFIED", "PARTIAL", "FAILED", "UNPROVEN", "UNAVAILABLE", "UNSUPPORTED", "ERROR"}
    ensures ParseState(s).Decoded? ==> StateName(ParseState(s).value) == s
    ensures forall v :: StateName(v) == s ==> ParseState(s) == Decoded(v)
  {
    forall v | StateName(v) == s ensures ParseState(s) == Decoded(v) { StateBack(v); }
  }

  lemma StateBack(v: Verdicts.VerdictState)
    ensures ParseState(StateName(v)) == Decoded(v)
  {
  }

  function VerdictPayload(v: Verdicts.Verdict): Object {
    map[STATE := Str(StateName(v.state)), WORKLOAD_ID := Str(v.workloadId), RUN_ID := Str(v.runId),
      SOURCE_HASH := Str(v.sourceHash), CANDIDATE_HASH := OptStr(v.candidateHash), ORACLE_ID := Str(v.oracleId),
      ORACLE_DIGEST := Str(v.oracleDigest), EXECUTED_CHECK_COUNT := Int(v.executedCheckCount),
      SKIPPED_COUNT := Int(v.skippedCount), UNAVAILABLE_COUNT := Int(v.unavailableCount),
      SUPPORTED_SCOPE_STATEMENT := Str(v.supportedScope), EVIDENCE_MANIFEST_HASH := Str(v.manifestHash),
      DERIVATION_TIMESTAMP := Str(v.derivationTimestamp), DIFFERENCES := Strings(v.differences)]
  }

  /** `encode_verdict`. */
  function EncodeVerdict(v: Verdicts.Verdict): Json { Envelope(VERDICT_SCHEMA, VerdictPayload(v)) }

  const VERDICT_FIELDS: set<Key> := {
    STATE, WORKLOAD_ID, RUN_ID, SOURCE_HASH, CANDIDATE_HASH, ORACLE_ID, ORACLE_DIGEST, EXECUTED_CHECK_COUNT,
    SKIPPED_COUNT, UNAVAILABLE_COUNT, SUPPORTED_SCOPE_STATEMENT, EVIDENCE_MANIFEST_HASH, DERIVATION_TIMESTAMP,
    DIFFERENCES}

  function DecodeVerdictParties(o: Object): Decoded<(Verdicts.VerdictState, string, string, string, Option<string>,
      string, string)> {
    var name :- ExpectStr(Get(o, STATE));
    var state :- ParseState(name);
    var candidate :- Optional(Get(o, CANDIDATE_HASH), ExpectStr);
    var workload :- ExpectStr(Get(o, WORKLOAD_ID));
    var run :- ExpectStr(Get(o, RUN_ID));
    var source :- ExpectStr(Get(o, SOURCE_HASH));
    var oracle :- ExpectStr(Get(o, ORACLE_ID));
    var digest :- ExpectStr(Get(o, ORACLE_DIGEST));
    Decoded((state, workload, run, source, candidate, oracle, digest))
  }

  function DecodeVerdictFindings(o: Object): Decoded<(int, int, int, string, string, string, seq<string>)> {
    var executed :- ExpectInt(Get(o, EXECUTED_CHECK_COUNT));
    var skipped :- ExpectInt(Get(o, SKIPPED_COUNT));
    var unavailable :- ExpectInt(Get(o, UNAVAILABLE_COUNT));
    var scope :- ExpectText(Get(o, SUPPORTED_SCOPE_STATEMENT));
    var hash :- ExpectStr(Get(o, EVIDENCE_MANIFEST_HASH));
    var time :- ExpectStr(Get(o, DERIVATION_TIMESTAMP));
    var differences :- Texts(Get(o, DIFFERENCES));
    Decoded((executed, skipped, unavailable, scope, hash, time, differences))
  }

  /** `decode_verdict`: every field must be present, even those that may be null. */
  function DecodeVerdict(j: Json): Decoded<Verdicts.Verdict> {
    var o :- OpenEnvelope(j, VERDICT_SCHEMA);
    if !(VERDICT_FIELDS <= o.Keys) then Corrupt
    else
      var (state, workload, run, source, candidate, oracle, digest) :- DecodeVerdictParties(o);
      var (executed, skipped, unavailable, scope, hash, time, differences) :- DecodeVerdictFindings(o);
      Decoded(Verdicts.Verdict(state, workload, run, source, candidate, oracle, digest, executed, skipped,
        unavailable, scope, hash, time, differences))
  }

  predicate GoodVerdict(v: Verdicts.Verdict) {
    && v.workloadId != "" && v.runId != "" && v.sourceHash != "" && OptNonEmpty(v.candidateHash) && v.oracleId != ""
    && v.oracleDigest != ""
    && v.manifestHash != "" && v.derivationTimestamp != ""
  }

  lemma VerdictPartiesBack(v: Verdicts.Verdict)
    requires GoodVerdict(v)
    ensures DecodeVerdictParties(VerdictPayload(v)) ==
      Decoded((v.state, v.workloadId, v.runId, v.sourceHash, v.candidateHash, v.oracleId, v.oracleDigest))
  {
    hide StateName, ParseState, Strings;
    StateBack(v.state);
    OptStrBack(v.candidateHash);
    assert StateName(v.state) != "" by { StateNamed(v.state); }
  }

  lemma StateNamed(s: Verdicts.VerdictState)
    ensures StateName(s) != ""
  {
  }

  lemma VerdictFindingsBack(v: Verdicts.Verdict)
    requires GoodVerdict(v)
    ensures DecodeVerdictFindings(VerdictPayload(v))
         == Decoded((v.executedCheckCount, v.skippedCount, v.unavailableCount, v.supportedScope, v.manifestHash,
           v.derivationTimestamp, v.differences))
  {
    hide StateName, Strings, Texts, OptStr;
    StringsBack(v.differences);
  }

  /** A verdict survives being stored exactly when its required strings are not empty; an unknown state
      is never read. */
  lemma VerdictRoundTrip(v: Verdicts.Verdict)
    ensures DecodeVerdict(EncodeVerdict(v)) == Decoded(v) <==> GoodVerdict(v)
  {
    hide VerdictPayload, DecodeVerdictParties, DecodeVerdictFindings, GoodVerdict;
    EnvelopeGuards(VERDICT_SCHEMA, VERDICT_SCHEMA, VerdictPayload(v), Null);
    assert VERDICT_FIELDS <= VerdictPayload(v).Keys by { AllFieldsWritten(v); }
    if GoodVerdict(v) {
      VerdictPartiesBack(v);
      VerdictFindingsBack(v);
    } else {
      VerdictLost(v);
    }
  }

  lemma AllFieldsWritten(v: Verdicts.Verdict)
    ensures VERDICT_FIELDS <= VerdictPayload(v).Keys
  {
  }

  lemma VerdictLost(v: Verdicts.Verdict)
    requires !GoodVerdict(v)
    ensures DecodeVerdictParties(VerdictPayload(v)).Decoded? && DecodeVerdictFindings(VerdictPayload(v)).Decoded? ==>
      false
  {
    hide StateName, ParseState, Strings, Texts;
  }

  // ---- reports ----

  const REPORT: Key := Name("report")

  function EncodeReport(report: Object): Json { Envelope(REPORT_SCHEMA, map[REPORT := Obj(report)]) }

  function DecodeReport(j: Json): Decoded<Object> {
    var o :- OpenEnvelope(j, REPORT_SCHEMA);
    ExpectDict(Get(o, REPORT))
  }

  /** Reports survive unchanged, and no document of one kind is ever read as another kind. */
  lemma KindsStayApart(m: Manifest, v: Verdicts.Verdict, report: Object, hash: Json -> Digest)
    ensures DecodeReport(EncodeReport(report)) == Decoded(report)
    ensures DecodeVerdict(EncodeReport(report)) == Corrupt && DecodeManifest(EncodeReport(report), hash) == Corrupt
    ensures DecodeManifest(EncodeVerdict(v), hash) == Corrupt && DecodeReport(EncodeVerdict(v)) == Corrupt
    ensures EncodeManifest(m, hash).Decoded? ==>
      DecodeVerdict(EncodeManifest(m, hash).value) == Corrupt && DecodeReport(EncodeManifest(m, hash).value) == Corrupt
  {
    hide VerdictPayload, ManifestPayload, DecodeVerdictParties, DecodeParties, CanonicalGraph, OpenEnvelope, Envelope;
    assert EVIDENCE_SCHEMA[0] == 'e' && VERDICT_SCHEMA[0] == 'v' && REPORT_SCHEMA[0] == 'm';
    EnvelopeGuards(REPORT_SCHEMA, REPORT_SCHEMA, map[REPORT := Obj(report)], Null);
    EnvelopeGuards(REPORT_SCHEMA, VERDICT_SCHEMA, map[REPORT := Obj(report)], Null);
    EnvelopeGuards(REPORT_SCHEMA, EVIDENCE_SCHEMA, map[REPORT := Obj(report)], Null);
    EnvelopeGuards(VERDICT_SCHEMA, EVIDENCE_SCHEMA, VerdictPayload(v), Null);
    EnvelopeGuards(VERDICT_SCHEMA, REPORT_SCHEMA, VerdictPayload(v), Null);
    EnvelopeGuards(EVIDENCE_SCHEMA, VERDICT_SCHEMA, ManifestPayload(m), Null);
    EnvelopeGuards(EVIDENCE_SCHEMA, REPORT_SCHEMA, ManifestPayload(m), Null);
  }
}
