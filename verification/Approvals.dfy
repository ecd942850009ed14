/** What an approval says about the stage of a run: an approved run may end in FAILED, and exactly the
    runs that were COMPLETED when they were approved never do. */
module Approvals {
  import opened Json
  import opened Options
  import opened Evidence
  import I = Integrity
  import Verdicts
  import opened RunStages
  import opened RunStore
  import opened Lifecycle
  import opened RunHistory

  // ---- the exact condition ----

  /** The state of the store after these actions. */
  ghost function After(limit: nat, actions: seq<Action>, hash: Json -> Digest): Db {
    Run(Initial(limit), actions, hash).db
  }

  /** The run is in the same attempt in both states. */
  ghost predicate SameAttempt(a: Db, b: Db, run: string) {
    run in a.runs && run in b.runs && a.runs[run].generation == b.runs[run].generation
  }

  /** However things go on, the run does not fail in its present attempt. */
  ghost predicate NeverFails(limit: nat, before: seq<Action>, run: string, hash: Json -> Digest) {
    forall after :: SameAttempt(After(limit, before, hash), After(limit, before + after, hash), run) ==>
      After(limit, before + after, hash).runs[run].stage != FAILED
  }

  /** Things can go on so that the run fails in its present attempt with its approval in place. */
  ghost predicate FailsApproved(limit: nat, before: seq<Action>, run: string, hash: Json -> Digest) {
    exists after :: SameAttempt(After(limit, before, hash), After(limit, before + after, hash), run)
      && After(limit, before + after, hash).runs[run].stage == FAILED
      && After(limit, before + after, hash).runs[run].approval.state == APPROVED
  }

  lemma CompletedNeverFails(limit: nat, before: seq<Action>, run: string, hash: Json -> Digest)
    requires run in After(limit, before, hash).runs && After(limit, before, hash).runs[run].stage == COMPLETED
    ensures NeverFails(limit, before, run, hash)
  {
    hide Run, HasResult, SameResult;
    forall after | SameAttempt(After(limit, before, hash), After(limit, before + after, hash), run)
      ensures After(limit, before + after, hash).runs[run].stage != FAILED
    {
      OnlyForward(limit, before, after, run, hash);
    }
  }

  /** A restart fails every run that is not COMPLETED, and changes neither its attempt nor its approval. */
  lemma RestartFails(limit: nat, before: seq<Action>, run: string, hash: Json -> Digest)
    requires run in After(limit, before, hash).runs && After(limit, before, hash).runs[run].stage != COMPLETED
    ensures var a, b := After(limit, before, hash), After(limit, before + [Restart("")], hash);
      SameAttempt(a, b, run) && b.runs[run].stage == FAILED && b.runs[run].approval == a.runs[run].approval
  {
    RunOneMore(limit, before, Restart(""), hash);
    hide Run;
  }

  /** An approved run stays out of FAILED in its attempt, whatever happens, if and only if it is
      COMPLETED; otherwise it can fail with its approval in place. */
  lemma ApprovedStaysExactly(limit: nat, before: seq<Action>, run: string, hash: Json -> Digest)
    requires run in After(limit, before, hash).runs && After(limit, before, hash).runs[run].approval.state == APPROVED
    ensures NeverFails(limit, before, run, hash) <==> After(limit, before, hash).runs[run].stage == COMPLETED
    ensures FailsApproved(limit, before, run, hash) <==> After(limit, before, hash).runs[run].stage != COMPLETED
  {
    if After(limit, before, hash).runs[run].stage == COMPLETED {
      CompletedNeverFails(limit, before, run, hash);
    } else {
      RestartFails(limit, before, run, hash);
    }
    hide After;
  }

  /** The guard to read before deciding: an approval that lands leads to a run that never fails in this
      attempt if and only if the run is COMPLETED when the approval is written. */
  lemma ApprovingCompletedIsExact(limit: nat, before: seq<Action>, a: Action, run: string, hash: Json -> Digest)
    requires ApprovesAttempt(Run(Initial(limit), before, hash), a, run)
    ensures run in After(limit, before + [a], hash).runs
      && After(limit, before + [a], hash).runs[run].approval.state == APPROVED
    ensures NeverFails(limit, before + [a], run, hash) <==> After(limit, before, hash).runs[run].stage == COMPLETED
    ensures FailsApproved(limit, before + [a], run, hash) <==> After(limit, before, hash).runs[run].stage != COMPLETED
  {
    RunOneMore(limit, before, a, hash);
    hide Run, NeverFails, FailsApproved;
    ApprovedStaysExactly(limit, before + [a], run, hash);
  }

  // ---- certified evidence exists ----

  const HEX: Digest := "0123456789abcdef0123456789abcdef0123456789abcdef0123456789abcdef"

  function SampleExecution(id: string, runtime: string): ExecutionEvidence {
    ExecutionEvidence(id, "run", None, runtime, "", "", map[], "", "", Some(0), HEX, HEX, map[], HEX, HEX, "normal",
      false, None, None, None, "EXECUTE")
  }

  function SampleArtifact(id: string, role: string, execution: string): ArtifactEvidence {
    ArtifactEvidence(ArtifactIdentity(id, "STDOUT", "stdout", role, HEX, 0, None), execution, "", HEX, 0, None)
  }

  function SampleComparison(): ComparisonEvidence {
    ComparisonEvidence("x", "run", None, "STDOUT_COMPARATOR", "1.0.0", "a", "b", "STDOUT", "MATCH", [], [], [],
                       "SEQUENTIAL", "", HEX)
  }

  /** The evidence of one matching stdout, sealed. */
  function SampleManifest(hash: Json -> Digest): Manifest {
    Evidence.Sealed(
      Manifest("1.0", "run", "workload", SourceIdentity("source", HEX, 1, 1), None,
               Some(OracleIdentity("oracle", SHA256 + HEX, "3.1.2", None, None)), [],
               InputIdentity("input", None, map[]),
               [SampleExecution("o", "oracle"), SampleExecution("c", "candidate")],
               [SampleArtifact("a", "ORACLE", "o"), SampleArtifact("b", "CANDIDATE", "c")], [SampleComparison()],
               None, "now", None), hash)
  }

  function SampleVerdict(hash: Json -> Digest): Verdicts.Verdict {
    Verdicts.Verdict(Verdicts.VERIFIED, "workload", "run", HEX, None, "oracle", SHA256 + HEX, 1, 0, 0, "",
                     SHA256 + hash(CanonicalGraph(SampleManifest(hash))), "now", [])
  }

  lemma SampleParts(hash: Json -> Digest)
    ensures var m := SampleManifest(hash);
      && I.ById(m.artifacts, "a") == Some(m.artifacts[0].artifact)
      && I.ById(m.artifacts, "b") == Some(m.artifacts[1].artifact)
      && I.AdmissibleExecution(m, m.executions[0]) && I.AdmissibleExecution(m, m.executions[1])
      && I.AdmissibleArtifact(m, m.artifacts[0]) && I.AdmissibleArtifact(m, m.artifacts[1])
  {
    hide CanonicalGraph;
    var m := SampleManifest(hash);
    assert m.artifacts[..1] == [m.artifacts[0]];
    assert m.executions[0] in m.executions && m.executions[1] in m.executions && m.comparisons[0] in m.comparisons;
  }

  lemma SampleWhole(hash: Json -> Digest)
    ensures I.AdmissibleWhole(SampleManifest(hash), hash)
  {
    var m := SampleManifest(hash);
    assert m.sealedHash == Some(hash(CanonicalGraph(m))) by { SampleSeal(hash); }
    hide CanonicalGraph;
    assert m.executions[0] in m.executions && m.executions[1] in m.executions && m.artifacts[0] in m.artifacts
      && m.artifacts[1] in m.artifacts;
    assert !I.ExitMatters(m);
  }

  lemma SampleSeal(hash: Json -> Digest)
    ensures SampleManifest(hash).sealedHash == Some(hash(CanonicalGraph(SampleManifest(hash))))
  {
    var m := SampleManifest(hash);
    var bare := m.(sealedHash := None);
    assert m == Evidence.Sealed(bare, hash) && CanonicalGraph(bare) == CanonicalGraph(m);
  }

  /** There is a result a run can be approved for. */
  lemma CertifiedResultExists(hash: Json -> Digest)
    ensures Certified(BLANK.(evidence := Some(SampleManifest(hash)), verdict := Some(SampleVerdict(hash))), hash)
  {
    hide CanonicalGraph, I.AdmissibleWhole, I.AdmissibleExecution, I.AdmissibleArtifact, I.ById;
    SampleParts(hash);
    SampleWhole(hash);
  }

  // ---- two ways to an approved run that failed ----

  /** A run up to the moment its worker has loaded it. */
  const LOADED: seq<Action> :=
    [Acquire(0), NewRun(0, "run"), Launch(0), Load(0)]

  lemma UntilCreated(hash: Json -> Digest)
    ensures var w := Run(Initial(1), [Acquire(0), NewRun(0, "run")], hash);
      w.db.runs == map["run" := BLANK.(lastStage := Some(CREATED))] && At(w, 0, Created) && w.jobs[0].run == "run"
        && w.checks == map[]
  {
    hide Run, Certified;
    assert [] + [Acquire(0)] == [Acquire(0)] && [Acquire(0)] + [NewRun(0, "run")] == [Acquire(0), NewRun(0, "run")];
    RunNone(1, hash);
    RunOneMore(1, [], Acquire(0), hash);
    RunOneMore(1, [Acquire(0)], NewRun(0, "run"), hash);
  }

  lemma UntilLoaded(hash: Json -> Digest)
    ensures var w := Run(Initial(1), LOADED, hash);
      && At(w, 0, Working) && w.jobs[0].run == "run" && w.checks == map[]
      && "run" in w.db.runs && w.jobs[0].record == w.db.runs["run"] == BLANK.(lastStage := Some(CREATED))
  {
    hide Run, Certified;
    var created, launched := [Acquire(0), NewRun(0, "run")], [Acquire(0), NewRun(0, "run"), Launch(0)];
    assert created + [Launch(0)] == launched && launched + [Load(0)] == LOADED;
    UntilCreated(hash);
    RunOneMore(1, created, Launch(0), hash);
    RunOneMore(1, launched, Load(0), hash);
  }

  lemma RunNone(limit: nat, hash: Json -> Digest)
    ensures Run(Initial(limit), [], hash) == Initial(limit)
  {
  }

  lemma ResultProduced(w: World, m: Manifest, v: Verdicts.Verdict, hash: Json -> Digest)
    requires At(w, 0, Working) && w.jobs[0].record == BLANK.(lastStage := Some(CREATED))
    ensures var w' := Step(w, Produce(0, m, v), hash);
      && w'.db == w.db && w'.checks == w.checks
      && w'.jobs ==
         w.jobs[0 := w.jobs[0].(record := BLANK.(lastStage := Some(CREATED), evidence := Some(m), verdict := Some(v)))]
  {
  }

  lemma ResultStored(w: World, m: Manifest, v: Verdicts.Verdict, hash: Json -> Digest)
    requires At(w, 0, Working) && w.jobs[0].run == "run" && w.checks == map[]
    requires "run" in w.db.runs && w.jobs[0].record == w.db.runs["run"] == BLANK.(lastStage := Some(CREATED))
    ensures var w' := Step(Step(w, Produce(0, m, v), hash), Progress(0, VALIDATING_EVIDENCE, None, None, true), hash);
      "run" in w'.db.runs && w'.checks == map[] && !Terminal(w'.db.runs["run"].stage)
      && SameResult(BLANK.(evidence := Some(m), verdict := Some(v)), w'.db.runs["run"])
  {
    ResultProduced(w, m, v, hash);
    hide Produced;
  }

  lemma ApprovedThenInterrupted(w: World, hash: Json -> Digest)
    requires "run" in w.db.runs && Certified(w.db.runs["run"], hash) && !Terminal(w.db.runs["run"].stage)
      && w.checks == map[]
    ensures var w' :=
        Step(Step(Step(w, BeginApproval(0, "run", None), hash), Approve(0, "customer", None, ""), hash), Restart(""),
             hash);
      "run" in w'.db.runs && w'.db.runs["run"].approval.state == APPROVED && w'.db.runs["run"].stage == FAILED
  {
    hide Certified;
  }

  lemma RunFiveMore(limit: nat, xs: seq<Action>, a: Action, b: Action, c: Action, d: Action, e: Action,
      hash: Json -> Digest)
    ensures Run(Initial(limit), xs + [a] + [b] + [c] + [d] + [e], hash)
         == Step(Step(Step(Step(Step(Run(Initial(limit), xs, hash), a, hash), b, hash), c, hash), d, hash), e, hash)
  {
    hide Step, Run;
    RunOneMore(limit, xs, a, hash);
    RunOneMore(limit, xs + [a], b, hash);
    RunOneMore(limit, xs + [a] + [b], c, hash);
    RunOneMore(limit, xs + [a] + [b] + [c], d, hash);
    RunOneMore(limit, xs + [a] + [b] + [c] + [d], e, hash);
  }

  /** Approval does not require the run to have ended: a result is stored while the run is still
      validating, it can be approved then, and a restart turns the approved run into a FAILED one. */
  lemma ApprovedRunCanFail(hash: Json -> Digest)
    ensures exists actions :: var db := After(1, actions, hash);
      "run" in db.runs && db.runs["run"].approval.state == APPROVED && db.runs["run"].stage == FAILED
  {
    hide Run, Step, Certified, Terminal, SampleManifest, SampleVerdict;
    var m, v := SampleManifest(hash), SampleVerdict(hash);
    CertifiedResultExists(hash);
    UntilLoaded(hash);
    var produce, progress, begin, approve, restart :=
      Produce(0, m, v), Progress(0, VALIDATING_EVIDENCE, None, None, true), BeginApproval(0, "run", None),
      Approve(0, "customer", None, ""), Restart("");
    RunFiveMore(1, LOADED, produce, progress, begin, approve, restart, hash);
    var w := Run(Initial(1), LOADED, hash);
    ResultStored(w, m, v, hash);
    var stored := Step(Step(w, produce, hash), progress, hash);
    SameCertified(BLANK.(evidence := Some(m), verdict := Some(v)), stored.db.runs["run"], hash);
    ApprovedThenInterrupted(stored, hash);
    assert After(1, LOADED + [produce] + [progress] + [begin] + [approve] + [restart], hash).runs["run"].stage ==
      FAILED;
  }

  lemma FailureStored(w: World, m: Manifest, v: Verdicts.Verdict, hash: Json -> Digest)
    requires At(w, 0, Working) && w.jobs[0].run == "run" && w.checks == map[]
    requires "run" in w.db.runs && w.jobs[0].record == w.db.runs["run"] == BLANK.(lastStage := Some(CREATED))
    ensures var w' :=
      Step(Step(Step(w, Produce(0, m, v), hash), Conclude(0, FAILED, Some("seal"), ""), hash), Persist(0, true), hash);
      "run" in w'.db.runs && w'.checks == map[] && w'.db.runs["run"].stage == FAILED
      && SameResult(BLANK.(evidence := Some(m), verdict := Some(v)), w'.db.runs["run"])
  {
    ResultProduced(w, m, v, hash);
    FailurePersisted(Step(w, Produce(0, m, v), hash), hash);
    hide Produced, Step;
  }

  lemma FailurePersisted(w: World, hash: Json -> Digest)
    requires At(w, 0, Working) && w.jobs[0].run == "run" && w.checks == map[]
    requires "run" in w.db.runs && w.db.runs["run"] == BLANK.(lastStage := Some(CREATED))
    requires w.jobs[0].record ==
      BLANK.(lastStage := Some(CREATED), evidence := w.jobs[0].record.evidence, verdict := w.jobs[0].record.verdict)
    ensures var w' := Step(Step(w, Conclude(0, FAILED, Some("seal"), ""), hash), Persist(0, true), hash);
      "run" in w'.db.runs && w'.checks == map[] && w'.db.runs["run"].stage == FAILED
        && SameResult(w.jobs[0].record, w'.db.runs["run"])
  {
  }

  lemma FailedThenApproved(w: World, hash: Json -> Digest)
    requires "run" in w.db.runs && Certified(w.db.runs["run"], hash) && w.db.runs["run"].stage == FAILED
      && w.checks == map[]
    ensures var w' := Step(Step(w, BeginApproval(0, "run", None), hash), Approve(0, "customer", None, ""), hash);
      "run" in w'.db.runs && w'.db.runs["run"].approval.state == APPROVED && w'.db.runs["run"].stage == FAILED
  {
    hide Certified;
  }

  /** No restart is needed: a worker that fails after its verdict, while sealing the bundle, stores the
      result under FAILED, and that result can be approved. */
  lemma FailedRunCanBeApproved(hash: Json -> Digest)
    ensures exists actions :: (forall a: Action :: a in actions ==> !a.Restart?) && var db := After(1, actions, hash);
      "run" in db.runs && db.runs["run"].approval.state == APPROVED && db.runs["run"].stage == FAILED
  {
    hide Run, Step, Certified, Terminal, SampleManifest, SampleVerdict;
    var m, v := SampleManifest(hash), SampleVerdict(hash);
    CertifiedResultExists(hash);
    UntilLoaded(hash);
    var produce, conclude, persist, begin, approve :=
      Produce(0, m, v), Conclude(0, FAILED, Some("seal"), ""), Persist(0, true), BeginApproval(0, "run", None),
      Approve(0, "customer", None, "");
    RunFiveMore(1, LOADED, produce, conclude, persist, begin, approve, hash);
    var w := Run(Initial(1), LOADED, hash);
    FailureStored(w, m, v, hash);
    var stored := Step(Step(Step(w, produce, hash), conclude, hash), persist, hash);
    SameCertified(BLANK.(evidence := Some(m), verdict := Some(v)), stored.db.runs["run"], hash);
    FailedThenApproved(stored, hash);
    var actions := LOADED + [produce] + [conclude] + [persist] + [begin] + [approve];
    assert forall a: Action :: a in actions ==> !a.Restart?;
    assert After(1, actions, hash).runs["run"].stage == FAILED;
  }
}
