/** The evidence engine/pipeline.py assembles from its comparisons, and why the validator of
    engine/evidence/integrity.py admits it: artifact ids bind each comparison to its own artifacts. */
module Assembly {
  import opened Bytes
  import opened Json
  import opened Options
  import opened Evidence
  import Comparators
  import I = Integrity
  import opened Pipeline
  import opened GeneratedFiles
  import opened Behaviour

  // ---- execution ids ----

  predicate EndsWith(s: string, t: string) { |t| <= |s| && s[|s| - |t|..] == t }

  /** Neither id is the other, or ends in a dash and the other. */
  predicate IdsApart(a: string, b: string) { a != b && !EndsWith(a, "-" + b) && !EndsWith(b, "-" + a) }

  /** The ids of one run: its two sides, each with a timestamp of fourteen digits, or a failed build. */
  lemma RunIdsApart(run: string, s: string, t: string)
    requires |s| == |t| == 14
    ensures IdsApart("oracle-" + run + "-" + s, "candidate-" + run + "-" + t)
    ensures IdsApart("oracle-" + run + "-" + s, "candidate-" + run + "-compile-fail")
  {
    var o, c, f := "oracle-" + run + "-" + s, "candidate-" + run + "-" + t, "candidate-" + run + "-compile-fail";
    assert o[0] == 'o' && c[0] == 'c' && f[0] == 'c' && c[2] == 'n';
    assert ("-" + o)[0] == '-';
    assert |c| == |("-" + o)| + 2 && |f| == |("-" + o)|;
    assert c[2..][0] == 'n' && c[2..] != "-" + o && f[0..] != "-" + o;
  }

  lemma ShorterIsSuffix(m: string, a: string, n: string, b: string)
    requires m + ("-" + a) == n + ("-" + b) && |a| < |b|
    ensures EndsWith(b, "-" + a)
  {
    var s, t := m + ("-" + a), n + ("-" + b);
    assert b[|b| - |a| - 1..] == t[|n| + 1..][|b| - |a| - 1..] == t[|m|..];
    assert s[|m|..] == "-" + a;
  }

  lemma NamedIdsDiffer(m: string, a: string, n: string, b: string)
    requires m + ("-" + a) == n + ("-" + b) && (a == b || IdsApart(a, b))
    ensures m == n && a == b
  {
    if |a| < |b| { ShorterIsSuffix(m, a, n, b); }
    if |b| < |a| { ShorterIsSuffix(n, b, m, a); }
    var s, t := m + ("-" + a), n + ("-" + b);
    assert m == s[..|m|] && n == t[..|n|] && s[|m| + 1..] == a && t[|n| + 1..] == b;
  }

  /** Whether the id of an artifact contains its name. */
  predicate Named(t: ArtifactType, present: bool) { !present || IsFile(t) }

  /** An artifact id determines its execution, and the type or the name it was built from. */
  lemma IdDetermines(t: ArtifactType, p: bool, m: string, a: string, u: ArtifactType, q: bool, n: string, b: string)
    requires ArtifactId(t, p, m, a) == ArtifactId(u, q, n, b) && (a == b || IdsApart(a, b))
    ensures a == b && p == q && (p ==> t == u) && (Named(t, p) ==> m == n)
  {
    hide IdsApart;
    var x, y := ArtifactId(t, p, m, a), ArtifactId(u, q, n, b);
    SplitId(t, p, m, a);
    SplitId(u, q, n, b);
    assert x[0] == y[0] && x[3] == y[3];
    assert p == q && (p ==> t == u);
    var k := |Prefix(t, p)|;
    assert x[k..] == Rest(t, p, m, a) && y[k..] == Rest(u, q, n, b);
    if Named(t, p) { NamedIdsDiffer(m, a, n, b); }
  }

  function Prefix(t: ArtifactType, present: bool): string {
    if !present then "missing-"
    else match t case STDOUT => "stdout-" case STDERR => "stderr-" case EXIT_STATUS => "exit-"
      case TEXT_FILE => "text-" case FIXED_RECORD => "fixed-"
  }

  function Rest(t: ArtifactType, present: bool, name: string, execution: string): string {
    if Named(t, present) then name + ("-" + execution) else execution
  }

  lemma SplitId(t: ArtifactType, p: bool, m: string, a: string)
    ensures ArtifactId(t, p, m, a) == Prefix(t, p) + Rest(t, p, m, a)
  {
    assert Prefix(t, p) + m + "-" + a == Prefix(t, p) + (m + ("-" + a));
  }

  /** Were one execution id to end in a dash and the other, two artifacts could share an id. */
  lemma SuffixIdsClash(name: string, a: string, b: string)
    requires EndsWith(b, "-" + a)
    ensures exists other :: ArtifactId(TEXT_FILE, true, name, b) == ArtifactId(TEXT_FILE, true, other, a)
  {
    var pre := b[..|b| - |a| - 1];
    var other := name + "-" + pre;
    assert b == pre + ("-" + a);
    assert "text-" + name + "-" + (pre + ("-" + a)) == "text-" + other + "-" + a;
    assert ArtifactId(TEXT_FILE, true, name, b) == ArtifactId(TEXT_FILE, true, other, a);
  }

  // ---- evidence ----

  /** What evidence is bound to, and the texts and hashes it records. */
  datatype Recorder = Recorder(
    runId: string, workloadId: string, captureTime: string, digest: Bytes -> Digest, text: Finding -> string,
    resultHash: Compared -> Digest, effectText: Channel -> string, effectHash: Channel -> Digest)

  /** A channel of effects no comparator observes. */
  datatype Channel = DATABASE_STATE | MESSAGE_QUEUE_EFFECTS | TRANSACTION_EFFECTS

  function ChannelType(h: Channel): string {
    match h
    case DATABASE_STATE => "DATABASE_STATE"
    case MESSAGE_QUEUE_EFFECTS => "MESSAGE_QUEUE_EFFECTS"
    case TRANSACTION_EFFECTS => "TRANSACTION_EFFECTS"
  }

  function ChannelName(h: Channel): string {
    match h
    case DATABASE_STATE => "database-state"
    case MESSAGE_QUEUE_EFFECTS => "message-queue-effects"
    case TRANSACTION_EFFECTS => "transaction-effects"
  }

  function BytesOf(x: Captured): Bytes { if x.content.Some? then x.content.value else [] }

  /** `CapturedArtifact.to_evidence`: the record count stays with the identity. */
  function ArtifactOf(x: Captured, rec: Recorder): ArtifactEvidence {
    var h, n := rec.digest(BytesOf(x)), |BytesOf(x)|;
    ArtifactEvidence(
      ArtifactIdentity(x.artifactId, TypeName(x.artifactType), x.logicalName, x.role, h, n, x.recordCount),
      x.executionId, rec.captureTime, h, n, None)
  }

  function ResultName(r: Comparators.ComparisonResult): string {
    match r case MATCH => "MATCH" case MISMATCH => "MISMATCH" case INCONCLUSIVE => "INCONCLUSIVE"
  }

  function OrderName(o: Comparators.Order): string {
    match o case SEQUENTIAL => "SEQUENTIAL" case SORTED => "SORTED" case UNORDERED => "UNORDERED"
  }

  /** `_make_comparison_evidence`, with the workload bound by `run`. */
  function ComparisonOf(x: Compared, rec: Recorder): ComparisonEvidence {
    ComparisonEvidence(
      "comp-" + x.declared.logicalName + "-" + rec.runId, rec.runId, Some(rec.workloadId),
      I.CanonicalComparator(TypeName(x.declared.artifactType)).value, "1.0.0",
      x.oracle.artifactId, x.candidate.artifactId, TypeName(x.declared.artifactType), ResultName(x.result),
      x.normalization, seq(|x.findings|, i requires 0 <= i < |x.findings| => rec.text(x.findings[i])), [],
      OrderName(x.order), x.policy, rec.resultHash(x))
  }

  /** The oracle's artifacts, then the candidate's. */
  function ArtifactsOf(xs: seq<Compared>, rec: Recorder): seq<ArtifactEvidence> {
    seq(|xs|, i requires 0 <= i < |xs| => ArtifactOf(xs[i].oracle, rec)) +
      seq(|xs|, i requires 0 <= i < |xs| => ArtifactOf(xs[i].candidate, rec))
  }

  function ComparisonsOf(xs: seq<Compared>, rec: Recorder): seq<ComparisonEvidence> {
    seq(|xs|, i requires 0 <= i < |xs| => ComparisonOf(xs[i], rec))
  }

  /** A content-free marker of one side. */
  function Marker(h: Channel, execution: string, role: string, rec: Recorder): ArtifactEvidence {
    ArtifactEvidence(
      ArtifactIdentity(ArtifactId(TEXT_FILE, false, ChannelName(h), execution), ChannelType(h), ChannelName(h), role,
        rec.digest([]), 0, None), execution, rec.captureTime, rec.digest([]), 0, None)
  }

  function MarkerPair(h: Channel, o: Execution, c: Execution, rec: Recorder): seq<ArtifactEvidence> {
    [Marker(h, o.id, "ORACLE", rec), Marker(h, c.id, "CANDIDATE", rec)]
  }

  function MarkerComparison(h: Channel, o: Execution, c: Execution, rec: Recorder): ComparisonEvidence {
    ComparisonEvidence(
      "comp-" + ChannelName(h) + "-" + rec.runId, rec.runId, Some(rec.workloadId), "unobserved-effect", "1.0.0",
      Marker(h, o.id, "ORACLE", rec).artifact.artifactId, Marker(h, c.id, "CANDIDATE", rec).artifact.artifactId,
      ChannelType(h), "INCONCLUSIVE", [], [rec.effectText(h)], [], "SEQUENTIAL", "", rec.effectHash(h))
  }

  function MarkersOf(hs: seq<Channel>, o: Execution, c: Execution, rec: Recorder): seq<ArtifactEvidence> {
    if hs == [] then [] else MarkersOf(hs[..|hs| - 1], o, c, rec) + MarkerPair(hs[|hs| - 1], o, c, rec)
  }

  function MarkerComparisons(hs: seq<Channel>, o: Execution, c: Execution, rec: Recorder): seq<ComparisonEvidence> {
    seq(|hs|, i requires 0 <= i < |hs| => MarkerComparison(hs[i], o, c, rec))
  }

  /** The loop of `_unobserved_effect_evidence` over the channels the source uses. */
  method UnobservedEffects(hs: seq<Channel>, o: Execution, c: Execution, rec: Recorder)
    returns (artifacts: seq<ArtifactEvidence>, comparisons: seq<ComparisonEvidence>)
    ensures artifacts == MarkersOf(hs, o, c, rec) && comparisons == MarkerComparisons(hs, o, c, rec)
  {
    hide Marker, MarkerPair, MarkerComparison, ChannelName, ArtifactId;
    artifacts, comparisons := [], [];
    for i := 0 to |hs|
      invariant artifacts == MarkersOf(hs[..i], o, c, rec) && comparisons == MarkerComparisons(hs[..i], o, c, rec)
    {
      assert hs[..i + 1][..i] == hs[..i];
      artifacts := artifacts + MarkerPair(hs[i], o, c, rec);
      comparisons := comparisons + [MarkerComparison(hs[i], o, c, rec)];
    }
    assert hs[..|hs|] == hs;
  }

  // ---- what the evidence says, without the functions that make it ----

  /** The evidence of one side: its own content by hash and size, with the identity saying the same, its
      execution and its role.  A missing side stands for empty content. */
  predicate Recorded(a: ArtifactEvidence, content: Option<Bytes>, count: Option<nat>, kind: string, name: string,
      e: Execution, role: string, rec: Recorder) {
    var bytes := if content.Some? then content.value else [];
    && a.executionId == e.id && a.captureTime == rec.captureTime
    && a.contentHash == a.artifact.contentHash == rec.digest(bytes)
    && a.sizeBytes == a.artifact.sizeBytes == |bytes|
    && a.artifact.producerRole == role && a.artifact.artifactType == kind && a.artifact.logicalName == name
    && a.artifact.recordCount == count && a.recordCount == None
  }

  /** The evidence of a comparison names the evidence of its two sides, and says how they were compared
      and with what result; only a MATCH has no differences. */
  predicate Concludes(d: ComparisonEvidence, x: Compared, a: ArtifactEvidence, b: ArtifactEvidence, rec: Recorder) {
    var t := x.declared.artifactType;
    && d.oracleArtifactId == a.artifact.artifactId && d.candidateArtifactId == b.artifact.artifactId
    && d.comparisonId == "comp-" + x.declared.logicalName + "-" + rec.runId
    && d.runId == rec.runId && d.workloadId == Some(rec.workloadId)
    && (t == STDOUT ==> d.artifactType == "STDOUT" && d.comparatorId == "STDOUT_COMPARATOR")
    && (t == STDERR ==> d.artifactType == "STDERR" && d.comparatorId == "STDERR_COMPARATOR")
    && (t == EXIT_STATUS ==> d.artifactType == "EXIT_STATUS" && d.comparatorId == "EXIT_STATUS_COMPARATOR")
    && (t == TEXT_FILE ==> d.artifactType == "TEXT_FILE" && d.comparatorId == "TEXT_FILE_COMPARATOR")
    && (t == FIXED_RECORD ==> d.artifactType == "FIXED_RECORD" && d.comparatorId == "FIXED_RECORD_COMPARATOR")
    && d.comparatorVersion == "1.0.0" && d.fieldLevelResults == []
    && (x.result == Comparators.MATCH <==> d.result == "MATCH")
    && (x.result == Comparators.MISMATCH <==> d.result == "MISMATCH")
    && (x.result == Comparators.INCONCLUSIVE <==> d.result == "INCONCLUSIVE")
    && (d.result == "MATCH" <==> d.differences == [])
    && d.normalizationApplied == x.normalization && d.failurePolicy == x.policy
    && (x.order == Comparators.SEQUENTIAL ==> d.orderingApplied == "SEQUENTIAL")
    && (x.order == Comparators.SORTED ==> d.orderingApplied == "SORTED")
    && (x.order == Comparators.UNORDERED ==> d.orderingApplied == "UNORDERED")
    && d.contentHash == rec.resultHash(x)
  }

  /** The comparison and the two artifacts of `x`. */
  predicate Evidenced(d: ComparisonEvidence, a: ArtifactEvidence, b: ArtifactEvidence, x: Compared, o: Execution,
      c: Execution, rec: Recorder) {
    && Recorded(a, x.oracle.content, x.oracle.recordCount, d.artifactType, CapturedName(x.declared, x.oracle.content),
                o, "ORACLE", rec)
    && Recorded(b, x.candidate.content, x.candidate.recordCount, d.artifactType,
                CapturedName(x.declared, x.candidate.content), c, "CANDIDATE", rec)
    && Concludes(d, x, a, b, rec)
  }

  /** The comparison and the two markers of a channel. */
  predicate Marked(d: ComparisonEvidence, a: ArtifactEvidence, b: ArtifactEvidence, h: Channel, o: Execution,
      c: Execution, rec: Recorder) {
    var (kind, name) :=
      match h
      case DATABASE_STATE => ("DATABASE_STATE", "database-state")
      case MESSAGE_QUEUE_EFFECTS => ("MESSAGE_QUEUE_EFFECTS", "message-queue-effects")
      case TRANSACTION_EFFECTS => ("TRANSACTION_EFFECTS", "transaction-effects");
    && Recorded(a, None, None, kind, name, o, "ORACLE", rec) && Recorded(b, None, None, kind, name, c, "CANDIDATE", rec)
    && d.oracleArtifactId == a.artifact.artifactId && d.candidateArtifactId == b.artifact.artifactId
    && d.comparisonId == "comp-" + name + "-" + rec.runId && d.runId == rec.runId
    && d.workloadId == Some(rec.workloadId) && d.comparatorId == "unobserved-effect" && d.comparatorVersion == "1.0.0"
    && d.artifactType == kind && d.result == "INCONCLUSIVE" && d.differences == [rec.effectText(h)]
    && d.normalizationApplied == [] && d.fieldLevelResults == [] && d.orderingApplied == "SEQUENTIAL"
    && d.failurePolicy == "" && d.contentHash == rec.effectHash(h)
  }

  lemma ResultNames(r: Comparators.ComparisonResult)
    ensures ResultName(r) == "MATCH" <==> r == Comparators.MATCH
    ensures ResultName(r) == "MISMATCH" <==> r == Comparators.MISMATCH
    ensures ResultName(r) == "INCONCLUSIVE" <==> r == Comparators.INCONCLUSIVE
  {
    assert "MATCH"[1] == 'A' && "MISMATCH"[1] == 'I' && "INCONCLUSIVE"[0] == 'I' && "MISMATCH"[0] == 'M';
  }

  lemma PairEvidenced(x: Compared, o: Execution, c: Execution, rec: Recorder)
    requires Bound(x, o, c)
    ensures Evidenced(ComparisonOf(x, rec), ArtifactOf(x.oracle, rec), ArtifactOf(x.candidate, rec), x, o, c, rec)
  {
    hide ArtifactId, ResultName;
    ResultNames(x.result);
  }

  lemma ChannelMarked(h: Channel, o: Execution, c: Execution, rec: Recorder)
    ensures var pair := MarkerPair(h, o, c, rec); Marked(MarkerComparison(h, o, c, rec), pair[0], pair[1], h, o, c, rec)
  {
    hide ArtifactId;
  }

  lemma {:induction false} MarkersInPlace(hs: seq<Channel>, o: Execution, c: Execution, rec: Recorder)
    ensures |MarkersOf(hs, o, c, rec)| == 2 * |hs|
    ensures forall k :: 0 <= k < |hs| ==>
      MarkersOf(hs, o, c, rec)[2 * k] == Marker(hs[k], o.id, "ORACLE", rec)
      && MarkersOf(hs, o, c, rec)[2 * k + 1] == Marker(hs[k], c.id, "CANDIDATE", rec)
  {
    hide Marker;
    if hs != [] { MarkersInPlace(hs[..|hs| - 1], o, c, rec); }
  }

  /** All of the evidence of a run: the oracle's artifacts, the candidate's, and the markers, with the
      comparisons of the artifacts before those of the markers. */
  ghost predicate AllEvidenced(artifacts: seq<ArtifactEvidence>, comparisons: seq<ComparisonEvidence>,
      xs: seq<Compared>, hs: seq<Channel>, o: Execution, c: Execution, rec: Recorder) {
    && |artifacts| == 2 * |xs| + 2 * |hs| && |comparisons| == |xs| + |hs|
    && (forall i :: 0 <= i < |xs| ==> Evidenced(comparisons[i], artifacts[i], artifacts[|xs| + i], xs[i], o, c, rec))
    && forall k :: 0 <= k < |hs| ==>
         Marked(comparisons[|xs| + k], artifacts[2 * |xs| + 2 * k], artifacts[2 * |xs| + 2 * k + 1], hs[k], o, c, rec)
  }

  lemma EvidenceSays(xs: seq<Compared>, hs: seq<Channel>, o: Execution, c: Execution, rec: Recorder)
    requires forall i :: 0 <= i < |xs| ==> Bound(xs[i], o, c)
    ensures AllEvidenced(ArtifactsOf(xs, rec) + MarkersOf(hs, o, c, rec),
                         ComparisonsOf(xs, rec) + MarkerComparisons(hs, o, c, rec), xs, hs, o, c, rec)
  {
    hide Bound, Evidenced, Marked, ArtifactOf, ComparisonOf, MarkersOf, MarkerComparison, Marker;
    forall i | 0 <= i < |xs|
      ensures Evidenced(ComparisonOf(xs[i], rec), ArtifactOf(xs[i].oracle, rec), ArtifactOf(xs[i].candidate, rec),
        xs[i],
                        o, c, rec)
    {
      PairEvidenced(xs[i], o, c, rec);
    }
    MarkersInPlace(hs, o, c, rec);
    forall k | 0 <= k < |hs|
      ensures Marked(MarkerComparison(hs[k], o, c, rec), Marker(hs[k], o.id, "ORACLE", rec),
                     Marker(hs[k], c.id, "CANDIDATE", rec), hs[k], o, c, rec)
    {
      ChannelMarked(hs[k], o, c, rec);
    }
    var captured, markers := ArtifactsOf(xs, rec), MarkersOf(hs, o, c, rec);
    forall k | 0 <= k < |hs|
      ensures (captured + markers)[2 * |xs| + 2 * k] == markers[2 * k]
      ensures (captured + markers)[2 * |xs| + 2 * k + 1] == markers[2 * k + 1]
    {
    }
  }

  // ---- names ----

  /** The artifact id of one side. */
  function SideId(x: Compared, oracle: bool): string { Side(x, oracle).artifactId }

  predicate Lacks(x: Compared, oracle: bool) { Side(x, oracle).content.None? }

  /** What is missing on one side under one name is of one type. */
  ghost predicate NamesTyped(xs: seq<Compared>) {
    forall x, y, oracle: bool ::
      x in xs && y in xs && Lacks(x, oracle) && Lacks(y, oracle) && x.declared.logicalName == y.declared.logicalName ==>
        x.declared.artifactType == y.declared.artifactType
  }

  /** Nothing is missing under the name of a marker. */
  ghost predicate NamesUnmarked(xs: seq<Compared>, hs: seq<Channel>) {
    forall x, oracle: bool, h ::
      x in xs && Lacks(x, oracle) && h in hs ==> x.declared.logicalName != ChannelName(h)
  }

  ghost predicate NamesHold(xs: seq<Compared>, hs: seq<Channel>) { NamesTyped(xs) && NamesUnmarked(xs, hs) }

  /** An execution has nothing for a declared artifact. */
  predicate Absent(a: Declared, oracle: bool, o: Execution, c: Execution) {
    ContentOf(a, if oracle then o else c).None?
  }

  /** The same condition on what goes in: what a side lacks has names that differ, or one type, and none
      has the name of a file it lacks and nobody declared, unless as text, or that of a used channel. */
  ghost predicate NamesApart(k: Keyed, declared: seq<Declared>, hs: seq<Channel>, o: Execution, c: Execution) {
    forall oracle: bool, a :: a in declared && Absent(a, oracle, o, c) ==>
      && (forall b :: b in declared && Absent(b, oracle, o, c) && a.logicalName == b.logicalName ==>
            a.artifactType == b.artifactType)
      && (a.logicalName in LoneNames(k, Undeclared(declared, o, c), oracle, o, c) ==> a.artifactType == TEXT_FILE)
      && forall h :: h in hs ==> a.logicalName != ChannelName(h)
  }

  predicate IsChannelName(name: string) {
    name == "database-state" || name == "message-queue-effects" || name == "transaction-effects"
  }

  /** Declared names leave the names of derived artifacts and of markers alone. */
  predicate NamesReserved(declared: seq<Declared>) {
    forall a :: a in declared ==> !(GENERATED <= a.logicalName) && !IsChannelName(a.logicalName)
  }

  /** Different names that leave those of derived artifacts and markers alone are apart in every run. */
  lemma ReservedNamesApart(k: Keyed, declared: seq<Declared>, hs: seq<Channel>, o: Execution, c: Execution)
    requires DistinctNames(declared) && NamesReserved(declared)
    ensures NamesApart(k, declared, hs, o, c)
  {
    hide RecordFile, ImageOf, Absent;
    forall a, b | a in declared && b in declared && a.logicalName == b.logicalName ensures a == b {
      var i :| 0 <= i < |declared| && declared[i] == a;
      var j :| 0 <= j < |declared| && declared[j] == b;
      assert i == j;
    }
  }

  lemma AdditionsArePresent(declared: seq<Declared>, a: Declared, x: Compared, oracle: bool, o: Execution, c: Execution)
    ensures Addition(declared, a) && HasContents(x, a, o, c) ==> !Lacks(x, oracle)
  {
    hide Comparators.RenderInt;
  }

  /** What of all comparisons a side lacks. */
  lemma LackedIsKnown(xs: seq<Compared>, k: Keyed, declared: seq<Declared>, artifacts: seq<Declared>, o: Execution,
      c: Execution, x: Compared, oracle: bool)
    requires Covers(xs, artifacts, o, c) && Extends(declared, artifacts) && x in xs && Lacks(x, oracle)
    requires MissingNames(xs[|artifacts|..], oracle) == LoneNames(k, Undeclared(declared, o, c), oracle, o, c)
    ensures (x.declared in declared && Absent(x.declared, oracle, o, c)) ||
      (x.declared.artifactType == TEXT_FILE
       && x.declared.logicalName in LoneNames(k, Undeclared(declared, o, c), oracle, o, c))
  {
    hide Bound, LoneNames, Default;
    var i :| 0 <= i < |xs| && xs[i] == x;
    if i < |declared| {
      assert artifacts[i] == declared[i];
    } else if i < |artifacts| {
      AdditionsArePresent(declared, artifacts[i], x, oracle, o, c);
    } else {
      assert Derived(x) && x in xs[|artifacts|..] by { assert xs[|artifacts|..][i - |artifacts|] == x; }
    }
  }

  /** What the declaration and the files make a side lack is among the comparisons. */
  lemma KnownIsLacked(xs: seq<Compared>, k: Keyed, declared: seq<Declared>, artifacts: seq<Declared>, o: Execution,
      c: Execution, oracle: bool)
    requires Covers(xs, artifacts, o, c) && Extends(declared, artifacts)
    requires MissingNames(xs[|artifacts|..], oracle) == LoneNames(k, Undeclared(declared, o, c), oracle, o, c)
    ensures forall a :: a in declared && Absent(a, oracle, o, c) ==>
      exists x :: x in xs && Lacks(x, oracle) && x.declared == a
    ensures forall n :: n in LoneNames(k, Undeclared(declared, o, c), oracle, o, c) ==>
      exists x :: x in xs && Lacks(x, oracle) && x.declared.logicalName == n && x.declared.artifactType == TEXT_FILE
  {
    hide Bound, LoneNames, Default;
    forall a | a in declared && Absent(a, oracle, o, c)
      ensures exists x :: x in xs && Lacks(x, oracle) && x.declared == a
    {
      var i :| 0 <= i < |declared| && declared[i] == a;
      assert artifacts[i] == a && xs[i] in xs && Lacks(xs[i], oracle);
    }
    forall n | n in MissingNames(xs[|artifacts|..], oracle)
      ensures exists x ::
        x in xs && Lacks(x, oracle) && x.declared.logicalName == n && x.declared.artifactType == TEXT_FILE
    {
      var i :| |artifacts| <= i < |xs| && Lacks(xs[i], oracle) && xs[i].declared.logicalName == n;
      assert xs[i] in xs && Derived(xs[i]);
    }
  }

  lemma NamesHoldExactly(xs: seq<Compared>, k: Keyed, declared: seq<Declared>, artifacts: seq<Declared>,
      hs: seq<Channel>, o: Execution, c: Execution)
    requires Covers(xs, artifacts, o, c) && Extends(declared, artifacts)
    requires forall oracle ::
      MissingNames(xs[|artifacts|..], oracle) == LoneNames(k, Undeclared(declared, o, c), oracle, o, c)
    ensures NamesHold(xs, hs) <==> NamesApart(k, declared, hs, o, c)
  {
    forall oracle: bool, n | n in LoneNames(k, Undeclared(declared, o, c), oracle, o, c)
      ensures forall h :: ChannelName(h) != n
    {
      assert "generated-file:"[0] == 'g' == n[0];
      assert "database-state"[0] == 'd' && "message-queue-effects"[0] == 'm' && "transaction-effects"[0] == 't';
    }
    hide LoneNames, Undeclared, MissingNames, Covers, Extends, Absent, Lacks, ChannelName;
    forall x, oracle: bool | x in xs && Lacks(x, oracle)
      ensures (x.declared in declared && Absent(x.declared, oracle, o, c)) ||
        (x.declared.artifactType == TEXT_FILE
         && x.declared.logicalName in LoneNames(k, Undeclared(declared, o, c), oracle, o, c))
    {
      LackedIsKnown(xs, k, declared, artifacts, o, c, x, oracle);
    }
    KnownIsLacked(xs, k, declared, artifacts, o, c, true);
    KnownIsLacked(xs, k, declared, artifacts, o, c, false);
  }

  // ---- admission ----

  /** A manifest around assembled evidence and the markers of unobserved effects. */
  ghost predicate Carries(m: Manifest, xs: seq<Compared>, hs: seq<Channel>, rec: Recorder, o: Execution, c: Execution) {
    && m.artifacts == ArtifactsOf(xs, rec) + MarkersOf(hs, o, c, rec)
    && m.comparisons == ComparisonsOf(xs, rec) + MarkerComparisons(hs, o, c, rec)
    && m.runId == rec.runId && m.workloadId == rec.workloadId
    && (exists e :: e in m.executions && e.executionId == o.id && I.IsOracle(e))
    && exists e :: e in m.executions && e.executionId == c.id && I.IsCandidate(e)
  }

  /** Comparisons of two executions whose ids tell the sides apart. */
  ghost predicate Sided(xs: seq<Compared>, o: Execution, c: Execution) {
    IdsApart(o.id, c.id) && forall i :: 0 <= i < |xs| ==> Bound(xs[i], o, c)
  }

  /** The artifact found under a compared id is of the same side and the same type. */
  lemma IdFindsItsOwn(xs: seq<Compared>, rec: Recorder, o: Execution, c: Execution, i: nat, oracle: bool,
      a: ArtifactEvidence)
    requires Sided(xs, o, c) && NamesTyped(xs) && i < |xs| && a in ArtifactsOf(xs, rec)
    requires a.artifact.artifactId == SideId(xs[i], oracle)
    ensures a.artifact.producerRole == if oracle then "ORACLE" else "CANDIDATE"
    ensures a.artifact.artifactType == TypeName(xs[i].declared.artifactType)
  {
    hide ArtifactId, IdsApart, TypeName, NamesTyped, CapturedName;
    var k :| 0 <= k < |ArtifactsOf(xs, rec)| && ArtifactsOf(xs, rec)[k] == a;
    var other := k < |xs|;
    var j := if other then k else k - |xs|;
    var x, y := Side(xs[i], oracle), Side(xs[j], other);
    assert a == ArtifactOf(y, rec);
    assert Bound(xs[i], o, c) && Bound(xs[j], o, c);
    ApartBothWays(o.id, c.id);
    IdDetermines(y.artifactType, y.content.Some?, xs[j].declared.logicalName, y.executionId,
                 x.artifactType, x.content.Some?, xs[i].declared.logicalName, x.executionId);
    assert o.id != c.id by { ApartMeansDifferent(o.id, c.id); }
    assert oracle == other;
    if y.content.None? { SameName(xs, i, j, oracle); }
  }

  lemma ApartBothWays(a: string, b: string)
    requires IdsApart(a, b)
    ensures IdsApart(b, a)
  {
  }

  lemma ApartMeansDifferent(a: string, b: string)
    requires IdsApart(a, b)
    ensures a != b
  {
  }

  lemma SameName(xs: seq<Compared>, i: nat, j: nat, oracle: bool)
    requires NamesTyped(xs) && i < |xs| && j < |xs| && Lacks(xs[i], oracle) && Lacks(xs[j], oracle)
    requires xs[i].declared.logicalName == xs[j].declared.logicalName
    ensures xs[i].declared.artifactType == xs[j].declared.artifactType
  {
    assert xs[i] in xs && xs[j] in xs;
  }

  /** What the validator's lookup of a compared id yields. */
  lemma LookupFindsItsOwn(xs: seq<Compared>, rec: Recorder, o: Execution, c: Execution, i: nat, oracle: bool)
    requires Sided(xs, o, c) && NamesTyped(xs) && i < |xs|
    ensures var found := I.ById(ArtifactsOf(xs, rec), SideId(xs[i], oracle));
      && found.Some? && found.value.producerRole == (if oracle then "ORACLE" else "CANDIDATE")
      && found.value.artifactType == TypeName(xs[i].declared.artifactType)
  {
    hide I.ById, TypeName, ArtifactId, IdsApart, NamesTyped, Bound, Sided;
    var captured := ArtifactsOf(xs, rec);
    var x := Side(xs[i], oracle);
    assert captured[if oracle then i else |xs| + i] == ArtifactOf(x, rec);
    assert ArtifactOf(x, rec) in captured;
    I.ByIdFinds(captured, x.artifactId);
    var a :| a in captured && a.artifact == I.ById(captured, x.artifactId).value;
    IdFindsItsOwn(xs, rec, o, c, i, oracle, a);
  }

  lemma {:induction false} ByIdAppend(xs: seq<ArtifactEvidence>, ys: seq<ArtifactEvidence>, id: string)
    ensures I.ById(xs + ys, id) == if I.ById(ys, id).Some? then I.ById(ys, id) else I.ById(xs, id)
    decreases |ys|
  {
    if ys == [] {
      assert xs + ys == xs;
    } else {
      var n := |ys| - 1;
      ByIdAppend(xs, ys[..n], id);
      assert (xs + ys)[..|xs + ys| - 1] == xs + ys[..n];
    }
  }

  lemma {:induction false} MarkerMember(hs: seq<Channel>, o: Execution, c: Execution, rec: Recorder,
      a: ArtifactEvidence)
    ensures a in MarkersOf(hs, o, c, rec) <==> exists k :: 0 <= k < |hs| && a in MarkerPair(hs[k], o, c, rec)
  {
    hide MarkerPair;
    if hs != [] {
      var n := |hs| - 1;
      MarkerMember(hs[..n], o, c, rec, a);
      assert forall k :: 0 <= k < n ==> hs[..n][k] == hs[k];
      if k :| 0 <= k < |hs| && a in MarkerPair(hs[k], o, c, rec) {
        if k < n { assert a in MarkerPair(hs[..n][k], o, c, rec); }
      }
    }
  }

  /** No compared artifact has the id of a marker. */
  lemma MarkerIdApart(xs: seq<Compared>, hs: seq<Channel>, o: Execution, c: Execution, i: nat, oracle: bool, h: Channel,
      execution: string)
    requires Sided(xs, o, c) && NamesUnmarked(xs, hs) && i < |xs| && h in hs
    requires execution == o.id || execution == c.id
    ensures SideId(xs[i], oracle) != ArtifactId(TEXT_FILE, false, ChannelName(h), execution)
  {
    hide ArtifactId, IdsApart;
    var x := Side(xs[i], oracle);
    assert Bound(xs[i], o, c);
    ApartBothWays(o.id, c.id);
    MarkersAreNamed(x.artifactType, x.content.Some?, xs[i].declared.logicalName, x.executionId, h, execution);
    assert xs[i] in xs && (Lacks(xs[i], oracle) ==> xs[i].declared.logicalName != ChannelName(h));
  }

  lemma MarkersAreNamed(t: ArtifactType, p: bool, m: string, a: string, h: Channel, b: string)
    requires a == b || IdsApart(a, b)
    ensures ArtifactId(t, p, m, a) == ArtifactId(TEXT_FILE, false, ChannelName(h), b) ==> !p && m == ChannelName(h)
  {
    hide ArtifactId, IdsApart;
    if ArtifactId(t, p, m, a) == ArtifactId(TEXT_FILE, false, ChannelName(h), b) {
      IdDetermines(t, p, m, a, TEXT_FILE, false, ChannelName(h), b);
    }
  }

  /** The markers do not disturb the lookup of compared artifacts. */
  lemma LookupBesideMarkers(xs: seq<Compared>, hs: seq<Channel>, rec: Recorder, o: Execution, c: Execution, i: nat,
      oracle: bool)
    requires Sided(xs, o, c) && NamesHold(xs, hs) && i < |xs|
    ensures var found := I.ById(ArtifactsOf(xs, rec) + MarkersOf(hs, o, c, rec), SideId(xs[i], oracle));
      && found.Some? && found.value.producerRole == (if oracle then "ORACLE" else "CANDIDATE")
      && found.value.artifactType == TypeName(xs[i].declared.artifactType)
  {
    hide I.ById, ArtifactId, ChannelName, ChannelType, TypeName, Sided, Bound, ArtifactsOf, MarkersOf, NamesTyped,
      NamesUnmarked;
    var id := SideId(xs[i], oracle);
    LookupFindsItsOwn(xs, rec, o, c, i, oracle);
    ByIdAppend(ArtifactsOf(xs, rec), MarkersOf(hs, o, c, rec), id);
    I.ByIdFinds(MarkersOf(hs, o, c, rec), id);
    forall a | a in MarkersOf(hs, o, c, rec) ensures a.artifact.artifactId != id {
      MarkerMember(hs, o, c, rec, a);
      var k :| 0 <= k < |hs| && a in MarkerPair(hs[k], o, c, rec);
      MarkerIdApart(xs, hs, o, c, i, oracle, hs[k], a.executionId);
    }
  }

  /** A marker's id finds a marker of the same side and channel. */
  lemma LookupMarker(xs: seq<Compared>, hs: seq<Channel>, rec: Recorder, o: Execution, c: Execution, k: nat, side: bool)
    requires IdsApart(o.id, c.id) && k < |hs|
    ensures var found := I.ById(ArtifactsOf(xs, rec) + MarkersOf(hs, o, c, rec),
                                ArtifactId(TEXT_FILE, false, ChannelName(hs[k]), if side then o.id else c.id));
      && found.Some? && found.value.producerRole == (if side then "ORACLE" else "CANDIDATE")
      && found.value.artifactType == ChannelType(hs[k])
  {
    hide I.ById, ArtifactId, ChannelName, ChannelType, ArtifactsOf, MarkersOf, IdsApart;
    var execution := if side then o.id else c.id;
    var id := ArtifactId(TEXT_FILE, false, ChannelName(hs[k]), execution);
    var markers := MarkersOf(hs, o, c, rec);
    var own := Marker(hs[k], execution, if side then "ORACLE" else "CANDIDATE", rec);
    ByIdAppend(ArtifactsOf(xs, rec), markers, id);
    I.ByIdFinds(markers, id);
    assert own in MarkerPair(hs[k], o, c, rec);
    MarkerMember(hs, o, c, rec, own);
    var a :| a in markers && a.artifact == I.ById(markers, id).value;
    MarkerMember(hs, o, c, rec, a);
    var n :| 0 <= n < |hs| && a in MarkerPair(hs[n], o, c, rec);
    ApartBothWays(o.id, c.id);
    IdDetermines(TEXT_FILE, false, ChannelName(hs[n]), a.executionId, TEXT_FILE, false, ChannelName(hs[k]), execution);
    assert o.id != c.id by { ApartMeansDifferent(o.id, c.id); }
    ChannelsByName(hs[n], hs[k]);
  }

  lemma ChannelsByName(g: Channel, h: Channel)
    ensures ChannelName(g) == ChannelName(h) ==> g == h
  {
    assert ChannelName(DATABASE_STATE)[0] == 'd' && ChannelName(MESSAGE_QUEUE_EFFECTS)[0] == 'm'
      && ChannelName(TRANSACTION_EFFECTS)[0] == 't';
  }

  lemma ComparisonAdmitted(m: Manifest, xs: seq<Compared>, hs: seq<Channel>, rec: Recorder, o: Execution,
      c: Execution, i: nat)
    requires Sided(xs, o, c) && NamesHold(xs, hs) && Carries(m, xs, hs, rec, o, c) && i < |xs|
    ensures I.AdmissibleComparison(m, ComparisonOf(xs[i], rec))
  {
    var x := xs[i];
    assert Bound(x, o, c);
    assert x.oracle.artifactId != x.candidate.artifactId by { SidesDiffer(x, o, c); }
    hide I.ById, TypeName, ArtifactId, IdsApart, NamesHold, ArtifactsOf, MarkersOf, Bound, Sided,
      I.CanonicalComparator, I.ResolveAlias;
    OwnComparator(x.declared.artifactType);
    LookupBesideMarkers(xs, hs, rec, o, c, i, true);
    LookupBesideMarkers(xs, hs, rec, o, c, i, false);
    assert I.WellPaired(m, ComparisonOf(x, rec));
  }

  lemma MarkerComparisonAdmitted(m: Manifest, xs: seq<Compared>, hs: seq<Channel>, rec: Recorder, o: Execution,
      c: Execution, k: nat)
    requires IdsApart(o.id, c.id) && Carries(m, xs, hs, rec, o, c) && k < |hs|
    ensures I.AdmissibleComparison(m, MarkerComparison(hs[k], o, c, rec))
  {
    hide I.ById, ArtifactId, IdsApart, ArtifactsOf, MarkersOf, ChannelName, I.ResolveAlias;
    LookupMarker(xs, hs, rec, o, c, k, true);
    LookupMarker(xs, hs, rec, o, c, k, false);
    assert I.WellPaired(m, MarkerComparison(hs[k], o, c, rec));
  }

  lemma SidesDiffer(x: Compared, o: Execution, c: Execution)
    requires IdsApart(o.id, c.id) && Bound(x, o, c)
    ensures x.oracle.artifactId != x.candidate.artifactId
  {
    hide ArtifactId, IdsApart;
    ApartMeansDifferent(o.id, c.id);
    if x.oracle.artifactId == x.candidate.artifactId {
      var t, n := x.declared.artifactType, x.declared.logicalName;
      IdDetermines(t, x.oracle.content.Some?, n, o.id, t, x.candidate.content.Some?, n, c.id);
    }
  }

  /** An admitted comparison finds artifacts of its own type. */
  lemma AdmittedFindsType(m: Manifest, xs: seq<Compared>, hs: seq<Channel>, rec: Recorder, o: Execution, c: Execution,
      x: Compared, oracle: bool)
    requires Carries(m, xs, hs, rec, o, c) && I.AdmissibleComparison(m, ComparisonOf(x, rec))
    ensures var found := I.ById(ArtifactsOf(xs, rec) + MarkersOf(hs, o, c, rec), SideId(x, oracle));
      found.Some? && found.value.artifactType == TypeName(x.declared.artifactType)
  {
    hide I.ById, TypeName, ArtifactsOf, MarkersOf, I.CanonicalComparator, I.ResolveAlias;
    assert I.WellPaired(m, ComparisonOf(x, rec));
  }

  lemma TypesByName(t: ArtifactType, u: ArtifactType, h: Channel)
    ensures TypeName(t) == TypeName(u) ==> t == u
    ensures TypeName(t) != ChannelType(h)
  {
    assert "STDOUT"[4] == 'U' && "STDERR"[4] == 'R' && "EXIT_STATUS"[0] == 'E' && "TEXT_FILE"[1] == 'E'
      && "FIXED_RECORD"[0] == 'F';
    assert "DATABASE_STATE"[0] == 'D' && "MESSAGE_QUEUE_EFFECTS"[0] == 'M' && "TRANSACTION_EFFECTS"[1] == 'R';
  }

  /** What both sides lack under one name has one id, whatever its type. */
  lemma MissingId(xs: seq<Compared>, o: Execution, c: Execution, x: Compared, oracle: bool)
    requires Sided(xs, o, c) && x in xs && Lacks(x, oracle)
    ensures SideId(x, oracle) ==
      ArtifactId(TEXT_FILE, false, x.declared.logicalName, if oracle then o.id else c.id)
  {
    var i :| 0 <= i < |xs| && xs[i] == x;
    assert Bound(xs[i], o, c);
  }

  /** Admitted comparisons have names that hold. */
  lemma AdmittedNamesHold(m: Manifest, xs: seq<Compared>, hs: seq<Channel>, rec: Recorder, o: Execution, c: Execution)
    requires Sided(xs, o, c) && Carries(m, xs, hs, rec, o, c)
    requires forall x :: x in xs ==> I.AdmissibleComparison(m, ComparisonOf(x, rec))
    ensures NamesHold(xs, hs)
  {
    hide I.ById, TypeName, ChannelName, ChannelType, ArtifactId, ArtifactsOf, MarkersOf, ComparisonOf, Sided, Carries,
      I.AdmissibleComparison, IdsApart, SideId, Lacks;
    forall x, y, oracle: bool |
      x in xs && y in xs && Lacks(x, oracle) && Lacks(y, oracle) && x.declared.logicalName == y.declared.logicalName
      ensures x.declared.artifactType == y.declared.artifactType
    {
      MissingId(xs, o, c, x, oracle);
      MissingId(xs, o, c, y, oracle);
      AdmittedFindsType(m, xs, hs, rec, o, c, x, oracle);
      AdmittedFindsType(m, xs, hs, rec, o, c, y, oracle);
      TypesByName(x.declared.artifactType, y.declared.artifactType, DATABASE_STATE);
    }
    forall x, oracle: bool, h | x in xs && Lacks(x, oracle) && h in hs
      ensures x.declared.logicalName != ChannelName(h)
    {
      var k :| 0 <= k < |hs| && hs[k] == h;
      MissingId(xs, o, c, x, oracle);
      AdmittedFindsType(m, xs, hs, rec, o, c, x, oracle);
      SidedFacts(xs, o, c);
      LookupMarker(xs, hs, rec, o, c, k, oracle);
      TypesByName(x.declared.artifactType, x.declared.artifactType, h);
    }
  }

  lemma OwnComparator(t: ArtifactType)
    ensures var id := I.CanonicalComparator(TypeName(t)); id.Some? && I.ResolveAlias(id.value) == id.value
  {
  }

  lemma ComparisonThere(m: Manifest, xs: seq<Compared>, hs: seq<Channel>, rec: Recorder, o: Execution, c: Execution,
      d: ComparisonEvidence)
    requires Carries(m, xs, hs, rec, o, c)
    ensures d in m.comparisons <==>
      (exists i :: 0 <= i < |xs| && d == ComparisonOf(xs[i], rec))
        || exists k :: 0 <= k < |hs| && d == MarkerComparison(hs[k], o, c, rec)
  {
    hide ComparisonOf, MarkerComparison, ArtifactsOf, MarkersOf;
    var ds, es := ComparisonsOf(xs, rec), MarkerComparisons(hs, o, c, rec);
    assert d in m.comparisons <==> d in ds || d in es;
    forall i | 0 <= i < |xs| ensures ComparisonOf(xs[i], rec) in ds { assert ds[i] == ComparisonOf(xs[i], rec); }
    forall k | 0 <= k < |hs|
      ensures MarkerComparison(hs[k], o, c, rec) in es
    {
      assert es[k] == MarkerComparison(hs[k], o, c, rec);
    }
  }

  lemma ArtifactAdmitted(m: Manifest, xs: seq<Compared>, hs: seq<Channel>, rec: Recorder, o: Execution, c: Execution,
      i: nat)
    requires Carries(m, xs, hs, rec, o, c) && i < |xs| && Bound(xs[i], o, c)
    ensures I.AdmissibleArtifact(m, ArtifactOf(xs[i].oracle, rec))
      && I.AdmissibleArtifact(m, ArtifactOf(xs[i].candidate, rec))
  {
    hide TypeName, ArtifactId, I.CanonicalComparator, I.IsOracle, I.IsCandidate, ArtifactsOf, MarkersOf;
    ComparisonThere(m, xs, hs, rec, o, c, ComparisonOf(xs[i], rec));
  }

  lemma MarkerAdmitted(m: Manifest, xs: seq<Compared>, hs: seq<Channel>, rec: Recorder, o: Execution, c: Execution,
      k: nat, a: ArtifactEvidence)
    requires Carries(m, xs, hs, rec, o, c) && k < |hs| && a in MarkerPair(hs[k], o, c, rec)
    ensures I.AdmissibleArtifact(m, a)
  {
    hide ArtifactId, ChannelName, ChannelType, I.IsOracle, I.IsCandidate, ArtifactsOf, MarkersOf;
    ComparisonThere(m, xs, hs, rec, o, c, MarkerComparison(hs[k], o, c, rec));
  }

  lemma SidesPresent(m: Manifest, xs: seq<Compared>, hs: seq<Channel>, rec: Recorder, o: Execution, c: Execution,
      i: nat)
    requires Sided(xs, o, c) && Carries(m, xs, hs, rec, o, c) && i < |xs|
      && xs[i].declared.artifactType == EXIT_STATUS
    ensures I.ArtifactBy(m, I.IsOracle) && I.ArtifactBy(m, I.IsCandidate)
    ensures I.OracleRan(m) && m.comparisons != [] && I.HasExitComparison(m)
  {
    hide ArtifactId, IdsApart, NamesTyped, I.IsOracle, I.IsCandidate, MarkersOf, CapturedName;
    assert Bound(xs[i], o, c);
    assert m.artifacts[i] == ArtifactOf(xs[i].oracle, rec) && m.artifacts[|xs| + i] == ArtifactOf(xs[i].candidate, rec);
    assert m.artifacts[i] in m.artifacts && m.artifacts[|xs| + i] in m.artifacts;
    ComparisonThere(m, xs, hs, rec, o, c, ComparisonOf(xs[i], rec));
  }

  /** What admission still depends on: the seal, the identities and the executions themselves. */
  ghost predicate RestAdmissible(m: Manifest, hash: Json -> Digest) {
    && m.sealedHash == Some(hash(CanonicalGraph(m)))
    && m.oracle.Some? && (m.candidate.Some? ==> m.candidate.value.sourceHash == m.source.sourceHash)
    && I.CandidateExecuted(m)
    && forall e :: e in m.executions ==> I.AdmissibleExecution(m, e)
  }

  /** A manifest around assembled evidence is admitted exactly when the rest of it is in order and the
      names of what is missing tell types apart. */
  lemma AssembledIsAdmitted(m: Manifest, hash: Json -> Digest, xs: seq<Compared>, hs: seq<Channel>, rec: Recorder,
      o: Execution, c: Execution, exit: nat)
    requires Sided(xs, o, c) && Carries(m, xs, hs, rec, o, c)
    requires exit < |xs| && xs[exit].declared.artifactType == EXIT_STATUS
    ensures I.Admissible(m, hash) <==> RestAdmissible(m, hash) && NamesHold(xs, hs)
  {
    hide Sided, Carries, CanonicalGraph, I.AdmissibleExecution, I.AdmissibleArtifact, I.AdmissibleComparison,
      I.ArtifactBy, I.OracleRan, I.HasExitComparison, I.CandidateExecuted, I.ExitMatters, NamesHold;
    AllArtifactsAdmitted(m, xs, hs, rec, o, c);
    AllComparisonsAdmitted(m, xs, hs, rec, o, c);
    SidesPresent(m, xs, hs, rec, o, c, exit);
  }

  lemma SidedFacts(xs: seq<Compared>, o: Execution, c: Execution)
    requires Sided(xs, o, c)
    ensures IdsApart(o.id, c.id) && forall i :: 0 <= i < |xs| ==> Bound(xs[i], o, c)
  {
  }

  lemma CarriedArtifact(m: Manifest, xs: seq<Compared>, hs: seq<Channel>, rec: Recorder, o: Execution, c: Execution,
      a: ArtifactEvidence)
    requires Carries(m, xs, hs, rec, o, c) && a in m.artifacts
    ensures a in MarkersOf(hs, o, c, rec) ||
      exists i :: 0 <= i < |xs| && (a == ArtifactOf(xs[i].oracle, rec) || a == ArtifactOf(xs[i].candidate, rec))
  {
    hide ArtifactOf, MarkersOf, ComparisonsOf, MarkerComparisons;
    var captured := ArtifactsOf(xs, rec);
    if a in captured {
      var k :| 0 <= k < |captured| && captured[k] == a;
      assert a == if k < |xs| then ArtifactOf(xs[k].oracle, rec) else ArtifactOf(xs[k - |xs|].candidate, rec);
    }
  }

  lemma AllArtifactsAdmitted(m: Manifest, xs: seq<Compared>, hs: seq<Channel>, rec: Recorder, o: Execution,
      c: Execution)
    requires Sided(xs, o, c) && Carries(m, xs, hs, rec, o, c)
    ensures forall a :: a in m.artifacts ==> I.AdmissibleArtifact(m, a)
  {
    hide Sided, Carries, I.AdmissibleArtifact, ArtifactOf, MarkersOf, MarkerPair, Bound, IdsApart;
    SidedFacts(xs, o, c);
    forall a | a in m.artifacts ensures I.AdmissibleArtifact(m, a) {
      CarriedArtifact(m, xs, hs, rec, o, c, a);
      if a in MarkersOf(hs, o, c, rec) {
        MarkerMember(hs, o, c, rec, a);
        var k :| 0 <= k < |hs| && a in MarkerPair(hs[k], o, c, rec);
        MarkerAdmitted(m, xs, hs, rec, o, c, k, a);
      } else {
        var i :| 0 <= i < |xs| && (a == ArtifactOf(xs[i].oracle, rec) || a == ArtifactOf(xs[i].candidate, rec));
        ArtifactAdmitted(m, xs, hs, rec, o, c, i);
      }
    }
  }

  lemma AllComparisonsAdmitted(m: Manifest, xs: seq<Compared>, hs: seq<Channel>, rec: Recorder, o: Execution,
      c: Execution)
    requires Sided(xs, o, c) && Carries(m, xs, hs, rec, o, c)
    ensures (forall d :: d in m.comparisons ==> I.AdmissibleComparison(m, d)) <==> NamesHold(xs, hs)
  {
    hide Sided, Carries, I.AdmissibleComparison, ComparisonOf, MarkerComparison, Bound, IdsApart, NamesHold;
    SidedFacts(xs, o, c);
    if NamesHold(xs, hs) {
      forall d | d in m.comparisons ensures I.AdmissibleComparison(m, d) {
        ComparisonThere(m, xs, hs, rec, o, c, d);
        if i :| 0 <= i < |xs| && d == ComparisonOf(xs[i], rec) {
          ComparisonAdmitted(m, xs, hs, rec, o, c, i);
        } else {
          var k :| 0 <= k < |hs| && d == MarkerComparison(hs[k], o, c, rec);
          MarkerComparisonAdmitted(m, xs, hs, rec, o, c, k);
        }
      }
    }
    if forall d :: d in m.comparisons ==> I.AdmissibleComparison(m, d) {
      forall x | x in xs ensures I.AdmissibleComparison(m, ComparisonOf(x, rec)) {
        var i :| 0 <= i < |xs| && xs[i] == x;
        ComparisonThere(m, xs, hs, rec, o, c, ComparisonOf(xs[i], rec));
      }
      AdmittedNamesHold(m, xs, hs, rec, o, c);
    }
  }

  /** The evidence of a run: its comparisons, and the markers of the channels `hs` no comparator observes.
      It says of every artifact, declared, added or written without being declared, what each side
      produced, and of every comparison what came of it.
      All results are MATCH exactly when the executions behaved alike and there is no such channel.  For
      executions with ids apart, a manifest carrying this evidence is admitted exactly when its seal, its
      identities and its executions are in order and the declared names are apart from others. */
  method Assemble(k: Keyed, declared: seq<Declared>, o: Execution, c: Execution, hs: seq<Channel>, rec: Recorder)
    returns (r: Attempt<(seq<ArtifactEvidence>, seq<ComparisonEvidence>)>, ghost xs: seq<Compared>,
      ghost artifacts: seq<Declared>)
    ensures r.Failed? <==> AnyFaulty(declared, o, c) || AnyRaising(k, declared, o, c)
    ensures Extends(declared, artifacts)
    ensures r.Done? ==> |artifacts| <= |xs| && forall i :: 0 <= i < |artifacts| ==> Tells(xs[i], artifacts[i], o, c)
    ensures r.Done? ==> UndeclaredTold(xs[|artifacts|..], k, Undeclared(declared, o, c), o, c)
    ensures r.Done? ==> AllEvidenced(r.value.0, r.value.1, xs, hs, o, c, rec)
    ensures r.Done? ==> r.value.0 == ArtifactsOf(xs, rec) + MarkersOf(hs, o, c, rec)
    ensures r.Done? ==> r.value.1 == ComparisonsOf(xs, rec) + MarkerComparisons(hs, o, c, rec)
    ensures r.Done? ==>
      ((forall d :: d in r.value.1 ==> d.result == I.MATCH_RESULT) <==> BehavedAlike(k, declared, o, c) && hs == [])
    ensures r.Done? && IdsApart(o.id, c.id) ==>
      forall m, hash :: Carries(m, xs, hs, rec, o, c) ==>
        (I.Admissible(m, hash) <==> RestAdmissible(m, hash) && NamesApart(k, declared, hs, o, c))
  {
    hide BehavedAlike, AnyFaulty, AnyRaising, Extends, NamesHold, NamesApart, IdsApart, Carries, I.Admissible,
      RestAdmissible, ComparisonOf, ArtifactOf, MarkersOf, MarkerComparison, Bound, Derived, HasContents,
      MissingNames, LoneNames, Undeclared, Tells, UndeclaredTold, AllEvidenced;
    var compared, all := DeclarationDriven(k, declared, o, c);
    artifacts := all;
    if compared.Failed? {
      return Failed(compared.failure), [], artifacts;
    }
    xs := compared.value;
    EvidenceSays(xs, hs, o, c, rec);
    MatchesRecorded(xs, rec);
    MarkersNeverMatch(hs, o, c, rec);
    if IdsApart(o.id, c.id) {
      NamesHoldExactly(xs, k, declared, artifacts, hs, o, c);
      ghost var a :| a in artifacts && a.artifactType == EXIT_STATUS;
      ghost var exit :| 0 <= exit < |artifacts| && artifacts[exit] == a;
      TellsOfItsOwn(xs[exit], a, o, c);
      forall m, hash | Carries(m, xs, hs, rec, o, c)
        ensures I.Admissible(m, hash) <==> RestAdmissible(m, hash) && NamesApart(k, declared, hs, o, c)
      {
        AssembledIsAdmitted(m, hash, xs, hs, rec, o, c, exit);
      }
    }
    var markers, effects := UnobservedEffects(hs, o, c, rec);
    var comparisons := ComparisonsOf(compared.value, rec) + effects;
    assert forall d :: d in comparisons <==> d in ComparisonsOf(xs, rec) || d in MarkerComparisons(hs, o, c, rec);
    return Done((ArtifactsOf(compared.value, rec) + markers, comparisons)), xs, artifacts;
  }

  lemma TellsOfItsOwn(x: Compared, a: Declared, o: Execution, c: Execution)
    requires Tells(x, a, o, c)
    ensures x.declared == a
  {
  }

  lemma MarkersNeverMatch(hs: seq<Channel>, o: Execution, c: Execution, rec: Recorder)
    ensures (forall d :: d in MarkerComparisons(hs, o, c, rec) ==> d.result == I.MATCH_RESULT) <==> hs == []
  {
    if hs != [] {
      var d := MarkerComparisons(hs, o, c, rec)[0];
      assert d in MarkerComparisons(hs, o, c, rec) && d.result == "INCONCLUSIVE"
        && "INCONCLUSIVE"[0] != I.MATCH_RESULT[0];
    }
  }

  lemma MatchesRecorded(xs: seq<Compared>, rec: Recorder)
    ensures (forall d :: d in ComparisonsOf(xs, rec) ==> d.result == I.MATCH_RESULT) <==> AllMatch(xs)
  {
    var ds := ComparisonsOf(xs, rec);
    forall i | 0 <= i < |xs| ensures ds[i].result == I.MATCH_RESULT <==> xs[i].result.MATCH? { }
    hide ComparisonsOf, ResultName;
    if forall d :: d in ds ==> d.result == I.MATCH_RESULT {
      forall x | x in xs ensures x.result.MATCH? {
        var i :| 0 <= i < |xs| && xs[i] == x;
        assert ds[i] in ds;
      }
    }
    if AllMatch(xs) {
      forall i | 0 <= i < |xs| ensures ds[i].result == I.MATCH_RESULT { assert xs[i] in xs; }
    }
  }
  // ---- names that clash ----

  function Record(name: string, path: string): Declared {
    Declared(name, FIXED_RECORD, "", Some(path), [], Comparators.SEQUENTIAL, Comparators.UNAVAILABLE, None)
  }

  lemma RecordIsSound(name: string, path: string, o: Execution, c: Execution)
    requires path != "" && path !in o.files && path !in c.files
    ensures var a := Record(name, path);
      !AnyFaulty([a], o, c) && DistinctNames([a]) && Absent(a, true, o, c) && Absent(a, false, o, c)
  {
    var a := Record(name, path);
    assert Strip("") == "" && !Faulty(a, o, c);
    hide Faulty;
  }

  lemma NoFilesNoNames(k: Keyed, declared: seq<Declared>, o: Execution, c: Execution)
    requires o.files == c.files == map[]
    ensures !AnyRaising(k, declared, o, c)
    ensures forall oracle: bool :: LoneNames(k, Undeclared(declared, o, c), oracle, o, c) == {}
  {
    hide RaisingFile, RecordFile, ImageOf, DeclaredPaths;
    assert Undeclared(declared, o, c) == {};
  }

  /** A record file called like a channel, written by neither side, spoils the evidence of a run that
      otherwise goes through: its comparison finds the marker of the channel. */
  lemma ChannelNameClashes(k: Keyed, o: Execution, c: Execution)
    requires o.files == c.files == map[]
    ensures var declared := [Record("database-state", "state.dat")];
      && DistinctNames(declared) && !AnyFaulty(declared, o, c) && !AnyRaising(k, declared, o, c)
      && NamesApart(k, declared, [], o, c) && !NamesApart(k, declared, [DATABASE_STATE], o, c)
  {
    hide AnyFaulty, AnyRaising, Absent, LoneNames, Undeclared, DistinctNames;
    RecordIsSound("database-state", "state.dat", o, c);
    var a := Record("database-state", "state.dat");
    NoFilesNoNames(k, [a], o, c);
    assert a in [a] && DATABASE_STATE in [DATABASE_STATE];
  }

  /** So does a record file called like the comparison of an undeclared file, both missing on one side. */
  lemma GeneratedNameClashes(o: Execution, c: Execution)
    requires o.files == map[] && c.files == map["f" := []]
    ensures var k, declared := Keyed({}, {}), [Record("generated-file:f", "state.dat")];
      && DistinctNames(declared) && !AnyFaulty(declared, o, c) && !AnyRaising(k, declared, o, c)
      && !NamesApart(k, declared, [], o, c)
  {
    hide AnyFaulty, Absent, PairRaises, Decodes;
    RecordIsSound("generated-file:f", "state.dat", o, c);
    var k, a := Keyed({}, {}), Record("generated-file:f", "state.dat");
    assert a in [a] && GENERATED + "f" == a.logicalName;
    assert "f" in Undeclared([a], o, c);
    assert a.logicalName in LoneNames(k, Undeclared([a], o, c), true, o, c);
  }
}
