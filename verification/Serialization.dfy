/** The persistence codec of api/serialization.py, on JSON values: what is written is read back exactly,
    and what is read back carries a true seal. */
module Serialization {
  import opened Json
  import opened Options
  import opened Evidence

  /** A decoded value, a PersistenceCorruptionError, an UnsupportedSchemaError, or the plain ValueError of
      a domain type that refuses its fields. */
  datatype Decoded<+T> = Decoded(value: T) | Corrupt | Unsupported | Refused {
    predicate IsFailure() { !Decoded? }

    function PropagateFailure<U>(): Decoded<U>
      requires !Decoded?
    {
      if Corrupt? then Corrupt else if Unsupported? then Unsupported else Refused
    }

    function Extract(): T
      requires Decoded?
    {
      value
    }
  }

  // ---- validation helpers ----

  /** `payload.get(key)`. */
  function Get(o: Object, k: Key): Json { if k in o then o[k] else Null }

  /** `payload.get(key, default)`. */
  function GetOr(o: Object, k: Key, default: Json): Json { if k in o then o[k] else default }

  function ExpectDict(j: Json): Decoded<Object> { if j.Obj? then Decoded(j.fields) else Corrupt }

  function ExpectList(j: Json): Decoded<seq<Json>> { if j.Arr? then Decoded(j.items) else Corrupt }

  function ExpectText(j: Json): Decoded<string> { if j.Str? then Decoded(j.s) else Corrupt }

  function ExpectStr(j: Json): Decoded<string> { if j.Str? && j.s != "" then Decoded(j.s) else Corrupt }

  function ExpectInt(j: Json): Decoded<int> { if j.Int? then Decoded(j.n) else Corrupt }

  function ExpectBool(j: Json): Decoded<bool> { if j.Bool? then Decoded(j.b) else Corrupt }

  /** A value that may be null. */
  function Optional<T>(j: Json, decode: Json -> Decoded<T>): Decoded<Option<T>> {
    if j.Null? then Decoded(None)
    else
      var v :- decode(j);
      Decoded(Some(v))
  }

  predicate IsHexDigit(c: char) { '0' <= c <= '9' || 'a' <= c <= 'f' }

  predicate IsDigest(d: Digest) { |d| == 64 && forall i :: 0 <= i < |d| ==> IsHexDigit(d[i]) }

  /** `_parse_hash`: the algorithm prefix is optional. */
  function ParseHash(j: Json): Decoded<Digest> {
    var text :- ExpectStr(j);
    var digest := if SHA256 <= text then text[|SHA256|..] else text;
    if IsDigest(digest) then Decoded(digest) else Corrupt
  }

  /** The open dictionaries: every key is a free name and every value is decoded. */
  function DecodeMap<T>(o: Object, decode: Json -> Decoded<T>): Decoded<map<string, T>> {
    if forall k :: k in o ==> k.Name? && decode(o[k]).Decoded?
    then Decoded(map k | k in o :: k.text := decode(o[k]).value) else Corrupt
  }

  /** The loop of `_hash_map` and of the checks that a dictionary maps strings to strings. */
  method FillMap<T(0)>(o: Object, decode: Json -> Decoded<T>) returns (r: Decoded<map<string, T>>)
    ensures r == DecodeMap(o, decode)
  {
    var out: map<string, T> := map[];
    var rest := o.Keys;
    while rest != {}
      invariant rest <= o.Keys
      invariant forall k :: k in o && k !in rest ==>
        k.Name? && decode(o[k]).Decoded? && k.text in out && out[k.text] == decode(o[k]).value
      invariant forall s :: s in out ==> Name(s) in o && Name(s) !in rest
      decreases rest
    {
      var k :| k in rest;
      var item := decode(o[k]);
      if !k.Name? || !item.Decoded? {
        return Corrupt;
      }
      out := out[k.text := item.value];
      rest := rest - {k};
    }
    assert out == DecodeMap(o, decode).value;
    return Decoded(out);
  }

  function DecodeAll<T>(items: seq<Json>, decode: Json -> Decoded<T>): Decoded<seq<T>> {
    if items == [] then Decoded([])
    else
      var first :- decode(items[0]);
      var rest :- DecodeAll(items[1..], decode);
      Decoded([first] + rest)
  }

  /** The loops over the arrays of a document. */
  method ReadAll<T(0)>(items: seq<Json>, decode: Json -> Decoded<T>) returns (r: Decoded<seq<T>>)
    ensures r == DecodeAll(items, decode)
  {
    var out: seq<T> := [];
    NothingRead(items, decode);
    for i := 0 to |items|
      invariant DecodeAll(items, decode) == Prefixed(out, DecodeAll(items[i..], decode))
    {
      ReadsOn(items, decode, out, i);
      var item :- decode(items[i]);
      out := out + [item];
    }
    assert items[|items|..] == [] && out + [] == out;
    return Decoded(out);
  }

  lemma NothingRead<T>(items: seq<Json>, decode: Json -> Decoded<T>)
    ensures DecodeAll(items, decode) == Prefixed([], DecodeAll(items[0..], decode))
  {
    assert items[0..] == items;
    if DecodeAll(items, decode).Decoded? {
      assert [] + DecodeAll(items, decode).value == DecodeAll(items, decode).value;
    }
  }

  /** One entry more of an array has been read. */
  lemma ReadsOn<T>(items: seq<Json>, decode: Json -> Decoded<T>, out: seq<T>, i: nat)
    requires i < |items|
    ensures Prefixed(out, DecodeAll(items[i..], decode)) ==
      var item := decode(items[i]);
      if item.Decoded? then Prefixed(out + [item.value], DecodeAll(items[i + 1..], decode)) else item.PropagateFailure()
  {
    var item := decode(items[i]);
    assert items[i..][0] == items[i] && items[i..][1..] == items[i + 1..];
    if item.Decoded? && DecodeAll(items[i + 1..], decode).Decoded? {
      var rest := DecodeAll(items[i + 1..], decode).value;
      assert out + ([item.value] + rest) == out + [item.value] + rest;
    }
  }

  function Prefixed<T>(out: seq<T>, d: Decoded<seq<T>>): Decoded<seq<T>> {
    if d.Decoded? then Decoded(out + d.value) else d
  }

  /** A list decodes to `xs` exactly when each entry decodes to its element. */
  lemma {:induction false} DecodesEach<T>(items: seq<Json>, decode: Json -> Decoded<T>, xs: seq<T>)
    ensures DecodeAll(items, decode) == Decoded(xs) <==>
      |items| == |xs| && forall i :: 0 <= i < |xs| ==> decode(items[i]) == Decoded(xs[i])
  {
    if items == [] {
    } else if xs == [] {
    } else {
      DecodesEach(items[1..], decode, xs[1..]);
      assert xs == [xs[0]] + xs[1..];
      if forall i :: 0 <= i < |xs[1..]| ==> |items| == |xs| && decode(items[1..][i]) == Decoded(xs[1..][i]) {
        forall i | 1 <= i < |xs| && |items| == |xs| ensures decode(items[i]) == Decoded(xs[i]) {
          assert items[1..][i - 1] == items[i] && xs[1..][i - 1] == xs[i];
        }
      }
    }
  }

  /** The entry is refused, and all before it are read. */
  predicate RefusedFirst<T>(items: seq<Json>, decode: Json -> Decoded<T>, n: int) {
    0 <= n < |items| && decode(items[n]) == Refused && forall i :: 0 <= i < n ==> decode(items[i]).Decoded?
  }

  /** The first entry that is refused ends the reading of an array, if all before it are read. */
  lemma {:induction false} FirstRefused<T>(items: seq<Json>, decode: Json -> Decoded<T>)
    ensures DecodeAll(items, decode) == Refused <==>
      exists n :: RefusedFirst(items, decode, n)
  {
    if items != [] {
      var rest := items[1..];
      FirstRefused(rest, decode);
      if decode(items[0]).Decoded? {
        if n :| RefusedFirst(rest, decode, n) {
          forall i | 0 <= i < n + 1 ensures decode(items[i]).Decoded? { if i > 0 { assert items[i] == rest[i - 1]; } }
          assert RefusedFirst(items, decode, n + 1);
        }
        if n :| RefusedFirst(items, decode, n) {
          forall i | 0 <= i < n - 1 ensures decode(rest[i]).Decoded? { assert rest[i] == items[i + 1]; }
          assert RefusedFirst(rest, decode, n - 1);
        }
      } else if decode(items[0]) == Refused {
        assert RefusedFirst(items, decode, 0);
      }
    }
  }

  function Texts(j: Json): Decoded<seq<string>> {
    var items :- ExpectList(j);
    DecodeAll(items, ExpectText)
  }

  function Dicts(j: Json): Decoded<seq<Object>> {
    var items :- ExpectList(j);
    DecodeAll(items, ExpectDict)
  }

  function TextMap(j: Json): Decoded<map<string, string>> {
    var o :- ExpectDict(j);
    DecodeMap(o, ExpectText)
  }

  function Hashes(j: Json): Decoded<map<string, Digest>> {
    var o :- ExpectDict(j);
    DecodeMap(o, ParseHash)
  }

  // ---- round trips of the parts ----

  predicate OptNonEmpty(o: Option<string>) { o.Some? ==> o.value != "" }

  predicate AllDigests(m: map<string, Digest>) { forall k :: k in m ==> IsDigest(m[k]) }

  lemma HashBack(d: Digest)
    ensures ParseHash(HashText(d)) == Decoded(d) <==> IsDigest(d)
  {
    assert (SHA256 + d)[|SHA256|..] == d;
  }

  const HEX: string := "0123456789abcdef"

  lemma HexDigits(c: char)
    ensures IsHexDigit(c) <==> c in HEX
  {
    if c in HEX {
      var i :| 0 <= i < |HEX| && HEX[i] == c;
      HexAt(i);
    }
    if '0' <= c <= '9' { HexAt((c - '0') as int); }
    if 'a' <= c <= 'f' { HexAt((c - 'a') as int + 10); }
  }

  lemma HexAt(i: nat)
    requires i < |HEX|
    ensures HEX[i] == if i < 10 then '0' + i as char else 'a' + (i - 10) as char
  {
  }

  /** A hash is read from 64 lower-case hexadecimal digits, alone or after `sha256:`, and from nothing else. */
  lemma HashReadExactly(j: Json, d: Digest)
    ensures ParseHash(j) == Decoded(d) <==>
      |d| == 64 && (forall i :: 0 <= i < |d| ==> d[i] in HEX) && (j == Str(d) || j == Str("sha256:" + d))
  {
    forall i | 0 <= i < |d| ensures IsHexDigit(d[i]) <==> d[i] in HEX { HexDigits(d[i]); }
    hide IsHexDigit;
    assert (SHA256 + d)[|SHA256|..] == d;
    if j.Str? && SHA256 <= j.s { assert j.s == SHA256 + j.s[|SHA256|..]; }
    if SHA256 <= d && |d| == 64 { assert d[0] == 's'; assert !IsHexDigit(d[0]) by { HexDigits('s'); } }
  }

  lemma ParsedIsDigest(j: Json)
    ensures ParseHash(j).Decoded? ==> IsDigest(ParseHash(j).value)
  {
  }

  lemma OptStrBack(o: Option<string>)
    requires OptNonEmpty(o)
    ensures Optional(OptStr(o), ExpectStr) == Decoded(o)
  {
  }

  lemma OptIntBack(o: Option<int>)
    ensures Optional(OptInt(o), ExpectInt) == Decoded(o)
  {
  }

  lemma OptHashBack(o: Option<Digest>)
    requires o.Some? ==> IsDigest(o.value)
    ensures Optional(OptHash(o), ParseHash) == Decoded(o)
  {
    if o.Some? { HashBack(o.value); }
  }

  lemma StringsBack(ss: seq<string>)
    ensures Texts(Strings(ss)) == Decoded(ss)
  {
    DecodesEach(Strings(ss).items, ExpectText, ss);
  }

  lemma ObjectsBack(os: seq<Object>)
    ensures Dicts(Objects(os)) == Decoded(os)
  {
    DecodesEach(Objects(os).items, ExpectDict, os);
  }

  lemma StringMapBack(m: map<string, string>)
    ensures TextMap(StringMap(m)) == Decoded(m)
  {
    var o := StringMap(m).fields;
    forall s | s in m ensures Name(s) in o && ExpectText(o[Name(s)]) == Decoded(m[s]) { assert Name(s) in o; }
    hide ExpectText, StringMap;
    assert DecodeMap(o, ExpectText).Decoded?;
    assert DecodeMap(o, ExpectText).value == m;
  }

  lemma HashMapBack(m: map<string, Digest>)
    requires AllDigests(m)
    ensures Hashes(HashMap(m)) == Decoded(m)
  {
    hide ParseHash, HashText, IsDigest;
    var o := HashMap(m).fields;
    forall s | s in m ensures ParseHash(HashText(m[s])) == Decoded(m[s]) { HashBack(m[s]); }
    forall s | s in m ensures Name(s) in o && ParseHash(o[Name(s)]) == Decoded(m[s]) { assert Name(s) in o; }
    assert DecodeMap(o, ParseHash).Decoded?;
    assert DecodeMap(o, ParseHash).value == m;
  }

  lemma HashesAreDigests(j: Json)
    ensures Hashes(j).Decoded? ==> AllDigests(Hashes(j).value)
  {
    if Hashes(j).Decoded? {
      forall s | s in Hashes(j).value ensures IsDigest(Hashes(j).value[s]) { ParsedIsDigest(j.fields[Name(s)]); }
    }
  }

  // ---- identities ----

  function DecodeSource(j: Json): Decoded<SourceIdentity> {
    var o :- ExpectDict(j);
    var id :- ExpectStr(Get(o, SOURCE_ID));
    var hash :- ParseHash(Get(o, SOURCE_HASH));
    var count :- ExpectInt(Get(o, FILE_COUNT));
    var size :- ExpectInt(Get(o, TOTAL_SIZE_BYTES));
    Decoded(SourceIdentity(id, hash, count, size))
  }

  predicate GoodSource(s: SourceIdentity) { s.sourceId != "" && IsDigest(s.sourceHash) }

  lemma SourceBack(s: SourceIdentity)
    requires GoodSource(s)
    ensures DecodeSource(SourceJson(s)) == Decoded(s)
  {
    HashBack(s.sourceHash);
    hide ParseHash, HashText;
  }

  function DecodeCandidate(j: Json): Decoded<CandidateIdentity> {
    var o :- ExpectDict(j);
    var id :- ExpectStr(Get(o, CANDIDATE_ID));
    var hash :- ParseHash(Get(o, CANDIDATE_HASH));
    var source :- ParseHash(Get(o, SOURCE_HASH));
    var count :- ExpectInt(Get(o, FILE_COUNT));
    var size :- ExpectInt(Get(o, TOTAL_SIZE_BYTES));
    Decoded(CandidateIdentity(id, hash, source, count, size))
  }

  predicate GoodCandidate(c: CandidateIdentity) {
    c.candidateId != "" && IsDigest(c.candidateHash) && IsDigest(c.sourceHash)
  }

  lemma CandidateBack(c: Option<CandidateIdentity>)
    requires c.Some? ==> GoodCandidate(c.value)
    ensures Optional(CandidateJson(c), DecodeCandidate) == Decoded(c)
  {
    if c.Some? {
      HashBack(c.value.candidateHash);
      HashBack(c.value.sourceHash);
      hide ParseHash, HashText;
    }
  }

  /** `OracleIdentity` refuses images that are not pinned by digest. */
  function DecodeOracle(j: Json): Decoded<OracleIdentity> {
    var o :- ExpectDict(j);
    var id :- ExpectStr(Get(o, ORACLE_ID));
    var image :- ExpectStr(Get(o, IMAGE_DIGEST));
    var compiler :- ExpectStr(Get(o, COMPILER_VERSION));
    var preprocessor :- Optional(Get(o, PREPROCESSOR_VERSION), ExpectStr);
    var base :- Optional(Get(o, BASE_IMAGE), ExpectStr);
    if SHA256 <= image then Decoded(OracleIdentity(id, image, compiler, preprocessor, base)) else Corrupt
  }

  predicate GoodOracle(c: OracleIdentity) {
    c.oracleId != "" && SHA256 <= c.imageDigest && c.compilerVersion != "" && OptNonEmpty(c.preprocessorVersion)
      && OptNonEmpty(c.baseImage)
  }

  lemma OracleBack(c: OracleIdentity)
    requires GoodOracle(c)
    ensures DecodeOracle(OracleJson(Some(c))) == Decoded(c)
  {
    OptStrBack(c.preprocessorVersion);
    OptStrBack(c.baseImage);
  }

  function DecodeEnvironment(j: Json): Decoded<EnvironmentIdentity> {
    var o :- ExpectDict(j);
    var limits :- TextMap(GetOr(o, RESOURCE_LIMITS, Obj(map[])));
    var runtime :- ExpectStr(Get(o, RUNTIME_ID));
    var java :- Optional(Get(o, JAVA_VERSION), ExpectStr);
    var cobol :- Optional(Get(o, COBOL_COMPILER), ExpectStr);
    var os :- Optional(Get(o, OS_BASE), ExpectStr);
    var network :- ExpectStr(GetOr(o, NETWORK_POLICY, Str("none")));
    Decoded(EnvironmentIdentity(runtime, java, cobol, os, network, limits))
  }

  predicate GoodEnvironment(e: EnvironmentIdentity) {
    e.runtimeId != "" && e.networkPolicy != "" && OptNonEmpty(e.javaVersion) && OptNonEmpty(e.cobolCompiler)
      && OptNonEmpty(e.osBase)
  }

  /** The body of the loop over environments. */
  method ReadEnvironment(j: Json) returns (r: Decoded<EnvironmentIdentity>)
    ensures r == DecodeEnvironment(j)
  {
    var o :- ExpectDict(j);
    var raw :- ExpectDict(GetOr(o, RESOURCE_LIMITS, Obj(map[])));
    var limits :- FillMap(raw, ExpectText);
    var runtime :- ExpectStr(Get(o, RUNTIME_ID));
    var java :- Optional(Get(o, JAVA_VERSION), ExpectStr);
    var cobol :- Optional(Get(o, COBOL_COMPILER), ExpectStr);
    var os :- Optional(Get(o, OS_BASE), ExpectStr);
    var network :- ExpectStr(GetOr(o, NETWORK_POLICY, Str("none")));
    return Decoded(EnvironmentIdentity(runtime, java, cobol, os, network, limits));
  }

  /** The loop over environments. */
  method ReadEnvironments(items: seq<Json>) returns (r: Decoded<seq<EnvironmentIdentity>>)
    ensures r == DecodeAll(items, DecodeEnvironment)
  {
    var environments: seq<EnvironmentIdentity> := [];
    NothingRead(items, DecodeEnvironment);
    for i := 0 to |items|
      invariant DecodeAll(items, DecodeEnvironment) == Prefixed(environments, DecodeAll(items[i..], DecodeEnvironment))
    {
      ReadsOn(items, DecodeEnvironment, environments, i);
      var environment :- ReadEnvironment(items[i]);
      environments := environments + [environment];
    }
    assert items[|items|..] == [] && environments + [] == environments;
    return Decoded(environments);
  }

  lemma EnvironmentBack(e: EnvironmentIdentity)
    requires GoodEnvironment(e)
    ensures DecodeEnvironment(EnvironmentJson(e)) == Decoded(e)
  {
    StringMapBack(e.resourceLimits);
    OptStrBack(e.javaVersion);
    OptStrBack(e.cobolCompiler);
    OptStrBack(e.osBase);
    hide TextMap, StringMap, Optional, OptStr;
  }

  function DecodeInput(j: Json): Decoded<InputIdentity> {
    var o :- ExpectDict(j);
    var stdin :- Optional(Get(o, STDIN_HASH), ParseHash);
    var files :- Hashes(GetOr(o, INPUT_FILES, Obj(map[])));
    var id :- ExpectStr(Get(o, INPUT_ID));
    Decoded(InputIdentity(id, stdin, files))
  }

  /** The controlled input, with the loop of `_hash_map`. */
  method ReadInput(j: Json) returns (r: Decoded<InputIdentity>)
    ensures r == DecodeInput(j)
  {
    var o :- ExpectDict(j);
    var stdin :- Optional(Get(o, STDIN_HASH), ParseHash);
    var raw :- ExpectDict(GetOr(o, INPUT_FILES, Obj(map[])));
    var files :- FillMap(raw, ParseHash);
    var id :- ExpectStr(Get(o, INPUT_ID));
    return Decoded(InputIdentity(id, stdin, files));
  }

  predicate GoodInput(i: InputIdentity) {
    i.inputId != "" && (i.stdinHash.Some? ==> IsDigest(i.stdinHash.value)) && AllDigests(i.inputFiles)
  }

  lemma InputBack(i: InputIdentity)
    requires GoodInput(i)
    ensures DecodeInput(InputJson(i)) == Decoded(i)
  {
    hide Hashes, HashMap, Optional, OptHash, ParseHash, IsDigest, AllDigests, HashText;
    OptHashBack(i.stdinHash);
    HashMapBack(i.inputFiles);
  }

  // ---- evidence ----

  /** `ExecutionEvidence.to_dict`: absent diagnostics are left out. */
  function ExecutionJson(e: ExecutionEvidence): Json {
    var fields := ExecutionFields(e);
    var diagnostics := e.compilationDiagnostics;
    Obj(if diagnostics.Some? then fields[COMPILATION_DIAGNOSTICS := StringMap(diagnostics.value)] else fields)
  }

  /** The command, and the run and workload it belongs to. */
  function DecodeProgram(o: Object): Decoded<(string, string, Option<string>, string, string, string, Object)> {
    var workload :- Optional(Get(o, WORKLOAD_ID), ExpectStr);
    var id :- ExpectStr(Get(o, EXECUTION_ID));
    var run :- ExpectStr(Get(o, RUN_ID));
    var runtime :- ExpectStr(Get(o, RUNTIME_ID));
    var command :- ExpectText(Get(o, COMMAND));
    var directory :- ExpectText(Get(o, WORKING_DIRECTORY));
    var variables :- ExpectDict(Get(o, ENVIRONMENT_VARIABLES));
    Decoded((id, run, workload, runtime, command, directory, variables))
  }

  /** How it ended. */
  function DecodeEnding(o: Object): Decoded<(string, string, Option<int>, string, bool, Option<int>, Option<string>,
      string)> {
    var duration :- Optional(Get(o, TIMEOUT_DURATION), ExpectInt);
    var exitCode :- Optional(Get(o, EXIT_CODE), ExpectInt);
    var start :- ExpectText(Get(o, START_TIME));
    var end :- ExpectText(Get(o, END_TIME));
    var status :- ExpectStr(Get(o, TERMINATION_STATUS));
    var timeout :- ExpectBool(Get(o, TIMEOUT_APPLIED));
    var image :- Optional(Get(o, IMAGE_DIGEST), ExpectStr);
    var phase :- ExpectStr(GetOr(o, EXECUTION_PHASE, Str("EXECUTE")));
    Decoded((start, end, exitCode, status, timeout, duration, image, phase))
  }

  /** What it left behind. */
  function DecodeTraces(o: Object): Decoded<(Digest, Digest, map<string, Digest>, Digest, Digest,
      Option<map<string, string>>)> {
    var files :- Hashes(GetOr(o, GENERATED_FILES, Obj(map[])));
    var diagnostics :- Optional(Get(o, COMPILATION_DIAGNOSTICS), TextMap);
    var stdout :- ParseHash(Get(o, STDOUT_HASH));
    var stderr :- ParseHash(Get(o, STDERR_HASH));
    var before :- ParseHash(Get(o, SOURCE_TREE_HASH_BEFORE));
    var after :- ParseHash(Get(o, SOURCE_TREE_HASH_AFTER));
    Decoded((stdout, stderr, files, before, after, diagnostics))
  }

  /** `_decode_execution`. */
  function DecodeExecution(j: Json): Decoded<ExecutionEvidence> {
    var o :- ExpectDict(j);
    var (id, run, workload, runtime, command, directory, variables) :- DecodeProgram(o);
    var (start, end, exitCode, status, timeout, duration, image, phase) :- DecodeEnding(o);
    var (stdout, stderr, files, before, after, diagnostics) :- DecodeTraces(o);
    Decoded(ExecutionEvidence(id, run, workload, runtime, command, directory, variables, start, end, exitCode, stdout,
      stderr, files, before, after, status, timeout, duration, diagnostics, image, phase))
  }

  predicate GoodExecution(e: ExecutionEvidence) {
    && e.executionId != "" && e.runId != "" && e.runtimeId != "" && e.terminationStatus != "" && e.executionPhase != ""
    && OptNonEmpty(e.workloadId) && OptNonEmpty(e.imageDigest)
    && IsDigest(e.stdoutHash) && IsDigest(e.stderrHash) && IsDigest(e.treeBefore) && IsDigest(e.treeAfter)
    && AllDigests(e.generatedFiles)
  }

  /** The fields `DecodeProgram` looks up. */
  predicate ProgramFields(e: ExecutionEvidence, o: Object) {
    && Get(o, WORKLOAD_ID) == OptStr(e.workloadId) && Get(o, EXECUTION_ID) == Str(e.executionId)
    && Get(o, RUN_ID) == Str(e.runId)
    && Get(o, RUNTIME_ID) == Str(e.runtimeId) && Get(o, COMMAND) == Str(e.command)
    && Get(o, WORKING_DIRECTORY) == Str(e.workingDirectory)
    && Get(o, ENVIRONMENT_VARIABLES) == Obj(e.environmentVariables)
  }

  predicate EndingFields(e: ExecutionEvidence, o: Object) {
    && Get(o, TIMEOUT_DURATION) == OptInt(e.timeoutDuration) && Get(o, EXIT_CODE) == OptInt(e.exitCode)
    && Get(o, START_TIME) == Str(e.startTime) && Get(o, END_TIME) == Str(e.endTime)
    && Get(o, TERMINATION_STATUS) == Str(e.terminationStatus)
    && Get(o, TIMEOUT_APPLIED) == Bool(e.timeoutApplied) && Get(o, IMAGE_DIGEST) == OptStr(e.imageDigest)
    && EXECUTION_PHASE in o && o[EXECUTION_PHASE] == Str(e.executionPhase)
  }

  predicate TraceFields(e: ExecutionEvidence, o: Object) {
    && GENERATED_FILES in o && o[GENERATED_FILES] == HashMap(e.generatedFiles)
    && Get(o, STDOUT_HASH) == HashText(e.stdoutHash) && Get(o, STDERR_HASH) == HashText(e.stderrHash)
    && Get(o, SOURCE_TREE_HASH_BEFORE) == HashText(e.treeBefore)
    && Get(o, SOURCE_TREE_HASH_AFTER) == HashText(e.treeAfter)
    && Get(o, COMPILATION_DIAGNOSTICS) == DiagnosticsJson(e.compilationDiagnostics)
  }

  lemma ProgramLookups(e: ExecutionEvidence)
    ensures ProgramFields(e, ExecutionFields(e))
  {
    hide HashText, HashMap, StringMap, OptStr, OptInt;
  }

  lemma EndingLookups(e: ExecutionEvidence)
    ensures EndingFields(e, ExecutionFields(e))
  {
    hide HashText, HashMap, StringMap, OptStr, OptInt;
  }

  lemma TraceLookups(e: ExecutionEvidence)
    ensures var o := ExecutionFields(e);
      && GENERATED_FILES in o && o[GENERATED_FILES] == HashMap(e.generatedFiles)
      && Get(o, STDOUT_HASH) == HashText(e.stdoutHash) && Get(o, STDERR_HASH) == HashText(e.stderrHash)
      && Get(o, SOURCE_TREE_HASH_BEFORE) == HashText(e.treeBefore)
      && Get(o, SOURCE_TREE_HASH_AFTER) == HashText(e.treeAfter)
      && COMPILATION_DIAGNOSTICS !in o
  {
    hide HashText, HashMap, StringMap, OptStr, OptInt;
  }

  lemma ExecutionLookups(e: ExecutionEvidence)
    ensures var o := ExecutionJson(e).fields; ProgramFields(e, o) && EndingFields(e, o) && TraceFields(e, o)
  {
    hide HashText, HashMap, StringMap, OptStr, OptInt, ExecutionFields;
    ProgramLookups(e);
    EndingLookups(e);
    TraceLookups(e);
  }

  lemma ProgramBack(e: ExecutionEvidence, o: Object)
    requires GoodExecution(e) && ProgramFields(e, o)
    ensures DecodeProgram(o) ==
      Decoded((e.executionId, e.runId, e.workloadId, e.runtimeId, e.command, e.workingDirectory,
      e.environmentVariables))
  {
    hide AllDigests, IsDigest, Get;
    OptStrBack(e.workloadId);
  }

  lemma EndingBack(e: ExecutionEvidence, o: Object)
    requires GoodExecution(e) && EndingFields(e, o)
    ensures DecodeEnding(o) ==
      Decoded((e.startTime, e.endTime, e.exitCode, e.terminationStatus, e.timeoutApplied, e.timeoutDuration,
      e.imageDigest, e.executionPhase))
  {
    hide AllDigests, IsDigest, Get;
    OptStrBack(e.imageDigest);
    OptIntBack(e.timeoutDuration);
    OptIntBack(e.exitCode);
  }

  lemma DiagnosticsBack(d: Option<map<string, string>>)
    ensures Optional(DiagnosticsJson(d), TextMap) == Decoded(d)
  {
    if d.Some? { StringMapBack(d.value); }
  }

  lemma TracesBack(e: ExecutionEvidence, o: Object)
    requires GoodExecution(e) && TraceFields(e, o)
    ensures DecodeTraces(o) ==
      Decoded((e.stdoutHash, e.stderrHash, e.generatedFiles, e.treeBefore, e.treeAfter, e.compilationDiagnostics))
  {
    hide ParseHash, HashText, TextMap, Hashes, HashMap, StringMap, IsDigest, AllDigests, Optional, DiagnosticsJson, Get;
    HashMapBack(e.generatedFiles);
    DiagnosticsBack(e.compilationDiagnostics);
    HashBack(e.stdoutHash);
    HashBack(e.stderrHash);
    HashBack(e.treeBefore);
    HashBack(e.treeAfter);
  }

  lemma ExecutionBack(e: ExecutionEvidence)
    requires GoodExecution(e)
    ensures DecodeExecution(ExecutionJson(e)) == Decoded(e)
  {
    hide GoodExecution, DecodeProgram, DecodeEnding, DecodeTraces, ExecutionFields, ProgramFields, EndingFields,
      TraceFields, StringMap;
    var o := ExecutionJson(e).fields;
    ExecutionLookups(e);
    ProgramBack(e, o);
    EndingBack(e, o);
    TracesBack(e, o);
  }

  function IdentityJson(a: ArtifactIdentity): Json {
    Obj(map[
      ARTIFACT_ID := Str(a.artifactId), ARTIFACT_TYPE := Str(a.artifactType), LOGICAL_NAME := Str(a.logicalName),
      PRODUCER_ROLE := Str(a.producerRole), CONTENT_HASH := HashText(a.contentHash), SIZE_BYTES := Int(a.sizeBytes),
      RECORD_COUNT := OptInt(a.recordCount)])
  }

  /** The identity keeps its own hash, size and count in the document. */
  function ArtifactJson(a: ArtifactEvidence): Json {
    Obj(map[
      ARTIFACT := IdentityJson(a.artifact), EXECUTION_ID := Str(a.executionId), CAPTURE_TIME := Str(a.captureTime),
      CONTENT_HASH := HashText(a.contentHash), SIZE_BYTES := Int(a.sizeBytes), RECORD_COUNT := OptInt(a.recordCount)])
  }

  predicate KnownType(t: string) {
    t in {"STDOUT", "STDERR", "EXIT_STATUS", "TEXT_FILE", "FIXED_RECORD", "BUSINESS_INVARIANT",
          "DATABASE_STATE", "TRANSACTION_EFFECTS", "MESSAGE_QUEUE_EFFECTS"}
  }

  predicate KnownRole(r: string) { r == "ORACLE" || r == "CANDIDATE" }

  /** The fields of an artifact's identity. */
  function IdentityFields(j: Json): Decoded<ArtifactIdentity> {
    var o :- ExpectDict(j);
    var count :- Optional(Get(o, RECORD_COUNT), ExpectInt);
    var id :- ExpectStr(Get(o, ARTIFACT_ID));
    var kind :- ExpectStr(Get(o, ARTIFACT_TYPE));
    var name :- ExpectText(Get(o, LOGICAL_NAME));
    var role :- ExpectStr(Get(o, PRODUCER_ROLE));
    var hash :- ParseHash(Get(o, CONTENT_HASH));
    var size :- ExpectInt(Get(o, SIZE_BYTES));
    Decoded(ArtifactIdentity(id, kind, name, role, hash, size, count))
  }

  /** `ArtifactIdentity` refuses unknown types and roles. */
  function DecodeIdentity(j: Json): Decoded<ArtifactIdentity> {
    var a :- IdentityFields(j);
    if KnownIdentity(a) then Decoded(a) else Refused
  }

  function DecodeArtifact(j: Json): Decoded<ArtifactEvidence> {
    var o :- ExpectDict(j);
    var count :- Optional(Get(o, RECORD_COUNT), ExpectInt);
    var identity :- DecodeIdentity(Get(o, ARTIFACT));
    var execution :- ExpectStr(Get(o, EXECUTION_ID));
    var time :- ExpectText(Get(o, CAPTURE_TIME));
    var hash :- ParseHash(Get(o, CONTENT_HASH));
    var size :- ExpectInt(Get(o, SIZE_BYTES));
    Decoded(ArtifactEvidence(identity, execution, time, hash, size, count))
  }

  predicate KnownIdentity(a: ArtifactIdentity) { KnownType(a.artifactType) && KnownRole(a.producerRole) }

  /** The fields of an identity are in order, whatever its type and role. */
  predicate FilledIdentity(a: ArtifactIdentity) {
    a.artifactId != "" && a.artifactType != "" && a.producerRole != "" && IsDigest(a.contentHash)
  }

  predicate GoodIdentity(a: ArtifactIdentity) { FilledIdentity(a) && KnownIdentity(a) }

  /** The artifact whose identity no domain type accepts. */
  ghost predicate UnknownArtifact(j: Json) {
    && j.Obj? && Optional(Get(j.fields, RECORD_COUNT), ExpectInt).Decoded?
    && IdentityFields(Get(j.fields, ARTIFACT)).Decoded?
    && !KnownIdentity(IdentityFields(Get(j.fields, ARTIFACT)).value)
  }

  /** An artifact ends in a plain ValueError exactly when its identity can be read and has an unknown type
      or role; what comes after the identity does not matter. */
  lemma ArtifactRefused(j: Json)
    ensures DecodeArtifact(j) == Refused <==> UnknownArtifact(j)
    ensures UnknownArtifact(j) ==>
      var a := IdentityFields(Get(j.fields, ARTIFACT)).value;
      a.artifactType !in {"STDOUT", "STDERR", "EXIT_STATUS", "TEXT_FILE", "FIXED_RECORD", "BUSINESS_INVARIANT",
                          "DATABASE_STATE", "TRANSACTION_EFFECTS", "MESSAGE_QUEUE_EFFECTS"}
        || a.producerRole !in {"ORACLE", "CANDIDATE"}
    ensures DecodeArtifact(j).Decoded? ==>
      var a := DecodeArtifact(j).value.artifact;
      a.artifactType in {"STDOUT", "STDERR", "EXIT_STATUS", "TEXT_FILE", "FIXED_RECORD", "BUSINESS_INVARIANT",
                         "DATABASE_STATE", "TRANSACTION_EFFECTS", "MESSAGE_QUEUE_EFFECTS"}
        && a.producerRole in {"ORACLE", "CANDIDATE"}
  {
    assert forall t :: KnownType(t) <==>
      t in {"STDOUT", "STDERR", "EXIT_STATUS", "TEXT_FILE", "FIXED_RECORD", "BUSINESS_INVARIANT",
            "DATABASE_STATE", "TRANSACTION_EFFECTS", "MESSAGE_QUEUE_EFFECTS"};
    assert forall r :: KnownRole(r) <==> r in {"ORACLE", "CANDIDATE"};
    hide ParseHash, KnownType, KnownRole, Get;
    if j.Obj? {
      HashNotRefused(Get(j.fields, CONTENT_HASH));
      IdentityFieldsNotRefused(Get(j.fields, ARTIFACT));
    }
  }

  lemma HashNotRefused(j: Json)
    ensures ParseHash(j) != Refused
  {
  }

  lemma IdentityFieldsNotRefused(j: Json)
    ensures IdentityFields(j) != Refused
  {
    hide ParseHash, Get;
    if j.Obj? { HashNotRefused(Get(j.fields, CONTENT_HASH)); }
  }

  lemma IdentityFieldsBack(a: ArtifactIdentity)
    requires FilledIdentity(a)
    ensures IdentityFields(IdentityJson(a)) == Decoded(a)
  {
    OptIntBack(a.recordCount);
    HashBack(a.contentHash);
    hide ParseHash, HashText, OptInt, IsDigest;
  }

  predicate GoodArtifact(a: ArtifactEvidence) {
    GoodIdentity(a.artifact) && a.executionId != "" && IsDigest(a.contentHash)
  }

  lemma ArtifactBack(a: ArtifactEvidence)
    requires GoodArtifact(a)
    ensures DecodeArtifact(ArtifactJson(a)) == Decoded(a)
  {
    OptIntBack(a.recordCount);
    HashBack(a.contentHash);
    IdentityFieldsBack(a.artifact);
    hide ParseHash, HashText, OptInt, IsDigest, IdentityFields, IdentityJson, KnownIdentity;
  }

  /** What was compared with what. */
  function DecodeCompared(o: Object): Decoded<(string, string, Option<string>, string, string, string, string,
      string)> {
    var workload :- Optional(Get(o, WORKLOAD_ID), ExpectStr);
    var id :- ExpectStr(Get(o, COMPARISON_ID));
    var run :- ExpectStr(Get(o, RUN_ID));
    var comparator :- ExpectStr(Get(o, COMPARATOR_ID));
    var version :- ExpectText(Get(o, COMPARATOR_VERSION));
    var oracle :- ExpectStr(Get(o, ORACLE_ARTIFACT_ID));
    var candidate :- ExpectStr(Get(o, CANDIDATE_ARTIFACT_ID));
    var kind :- ExpectStr(Get(o, ARTIFACT_TYPE));
    Decoded((id, run, workload, comparator, version, oracle, candidate, kind))
  }

  /** What came of it. */
  function DecodeOutcome(o: Object): Decoded<(string, seq<string>, seq<string>, seq<Object>, string, string, Digest)> {
    var fields :- Dicts(Get(o, FIELD_LEVEL_RESULTS));
    var result :- ExpectStr(Get(o, RESULT));
    var normalization :- Texts(Get(o, NORMALIZATION_APPLIED));
    var differences :- Texts(Get(o, DIFFERENCES));
    var hash :- ParseHash(Get(o, CONTENT_HASH));
    var ordering :- ExpectStr(GetOr(o, ORDERING_APPLIED, Str("SEQUENTIAL")));
    var policy :- ExpectText(GetOr(o, FAILURE_POLICY, Str("")));
    Decoded((result, normalization, differences, fields, ordering, policy, hash))
  }

  /** `_decode_comparison`. */
  function DecodeComparison(j: Json): Decoded<ComparisonEvidence> {
    var o :- ExpectDict(j);
    var (id, run, workload, comparator, version, oracle, candidate, kind) :- DecodeCompared(o);
    var (result, normalization, differences, fields, ordering, policy, hash) :- DecodeOutcome(o);
    Decoded(ComparisonEvidence(id, run, workload, comparator, version, oracle, candidate, kind, result, normalization,
      differences, fields, ordering, policy, hash))
  }

  predicate GoodComparison(c: ComparisonEvidence) {
    && c.comparisonId != "" && c.runId != "" && c.comparatorId != "" && c.oracleArtifactId != ""
    && c.candidateArtifactId != ""
    && c.artifactType != "" && c.result != "" && c.orderingApplied != "" && OptNonEmpty(c.workloadId)
    && IsDigest(c.contentHash)
  }

  predicate ComparedFields(c: ComparisonEvidence, o: Object) {
    && Get(o, COMPARISON_ID) == Str(c.comparisonId) && Get(o, RUN_ID) == Str(c.runId)
    && Get(o, WORKLOAD_ID) == OptStr(c.workloadId)
    && Get(o, COMPARATOR_ID) == Str(c.comparatorId) && Get(o, COMPARATOR_VERSION) == Str(c.comparatorVersion)
    && Get(o, ORACLE_ARTIFACT_ID) == Str(c.oracleArtifactId)
    && Get(o, CANDIDATE_ARTIFACT_ID) == Str(c.candidateArtifactId)
    && Get(o, ARTIFACT_TYPE) == Str(c.artifactType)
  }

  lemma ComparedLookups(c: ComparisonEvidence)
    ensures ComparedFields(c, ComparisonNode(c).fields)
  {
    hide OptStr, Strings, Objects, HashText;
  }

  lemma ComparedBack(c: ComparisonEvidence, o: Object)
    requires GoodComparison(c) && ComparedFields(c, o)
    ensures DecodeCompared(o) ==
      Decoded((c.comparisonId, c.runId, c.workloadId, c.comparatorId, c.comparatorVersion, c.oracleArtifactId,
      c.candidateArtifactId, c.artifactType))
  {
    hide IsDigest, Get;
    OptStrBack(c.workloadId);
  }

  lemma OutcomeBack(c: ComparisonEvidence, o: Object)
    requires GoodComparison(c) && o == ComparisonNode(c).fields
    ensures DecodeOutcome(o) ==
      Decoded((c.result, c.normalizationApplied, c.differences, c.fieldLevelResults, c.orderingApplied,
      c.failurePolicy, c.contentHash))
  {
    ObjectsBack(c.fieldLevelResults);
    StringsBack(c.normalizationApplied);
    StringsBack(c.differences);
    HashBack(c.contentHash);
    hide ParseHash, HashText, Texts, Strings, Dicts, Objects, IsDigest;
  }

  lemma ComparisonBack(c: ComparisonEvidence)
    requires GoodComparison(c)
    ensures DecodeComparison(ComparisonNode(c)) == Decoded(c)
  {
    hide GoodComparison, DecodeCompared, DecodeOutcome, ComparedFields;
    ComparedLookups(c);
    ComparedBack(c, ComparisonNode(c).fields);
    OutcomeBack(c, ComparisonNode(c).fields);
  }

  function VerdictEvidenceJson(o: Option<VerdictEvidence>): Json {
    match o
    case None => Null
    case Some(v) =>
      Obj(map[RUN_ID := Str(v.runId), WORKLOAD_ID := Str(v.workloadId), VERDICT_STATE := Str(v.verdictState),
              EXECUTED_CHECK_COUNT := Int(v.executedCheckCount), SKIPPED_COUNT := Int(v.skippedCount),
              UNAVAILABLE_COUNT := Int(v.unavailableCount), SUPPORTED_SCOPE_STATEMENT := Str(v.supportedScope),
              EVIDENCE_MANIFEST_HASH := HashText(v.manifestHash), DERIVATION_TIMESTAMP := Str(v.derivationTimestamp)])
  }

  function DecodeVerdictEvidence(j: Json): Decoded<VerdictEvidence> {
    var o :- ExpectDict(j);
    var run :- ExpectStr(Get(o, RUN_ID));
    var workload :- ExpectStr(Get(o, WORKLOAD_ID));
    var state :- ExpectStr(Get(o, VERDICT_STATE));
    var executed :- ExpectInt(Get(o, EXECUTED_CHECK_COUNT));
    var skipped :- ExpectInt(Get(o, SKIPPED_COUNT));
    var unavailable :- ExpectInt(Get(o, UNAVAILABLE_COUNT));
    var scope :- ExpectText(Get(o, SUPPORTED_SCOPE_STATEMENT));
    var hash :- ParseHash(Get(o, EVIDENCE_MANIFEST_HASH));
    var time :- ExpectStr(Get(o, DERIVATION_TIMESTAMP));
    Decoded(VerdictEvidence(run, workload, state, executed, skipped, unavailable, scope, hash, time))
  }

  predicate GoodVerdictEvidence(v: VerdictEvidence) {
    v.runId != "" && v.workloadId != "" && v.verdictState != "" && v.derivationTimestamp != ""
      && IsDigest(v.manifestHash)
  }

  lemma VerdictEvidenceBack(v: Option<VerdictEvidence>)
    requires v.Some? ==> GoodVerdictEvidence(v.value)
    ensures Optional(VerdictEvidenceJson(v), DecodeVerdictEvidence) == Decoded(v)
  {
    if v.Some? {
      HashBack(v.value.manifestHash);
      hide ParseHash, HashText;
    }
  }
}
