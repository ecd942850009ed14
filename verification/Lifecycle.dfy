/** The run lifecycle of api/service.py over the store of api/store.py: requests, background workers
    and restarts interleave, each locked store call being one atomic step. */
module Lifecycle {
  import opened Json
  import opened Options
  import opened Evidence
  import Integrity
  import Verdicts
  import opened RunStages
  import opened RunStore

  // ---- state ----

  /** Where the thread serving a job stands: a slot is reserved, the run exists or is reset, the worker
      runs, it has loaded the run, its record is terminal, it has written it or given up. */
  datatype Phase = Reserved | Created | Started | Working | Finishing | Leaving

  /** `slot`: the job counts towards `_active_jobs`; `record`: the thread's own copy of the run; `sent`: it
      has tried to store its result.  Bundles are named before there is a result, and sealed before it is sent. */
  datatype Job = Job(phase: Phase, slot: bool, run: string, record: Row, sent: bool)

  /** An approval between its check and its write; `bundle`: the seal the bundle on disk had, if there
      was one. */
  datatype Check = Check(run: string, row: Row, bundle: Option<string>)

  /** `lost`: runs whose worker could not read them or could not write their terminal state. */
  datatype World = World(
    db: Db, jobs: map<nat, Job>, checks: map<nat, Check>, ingests: nat, active: int, limit: nat, lost: set<string>)

  const BLANK := Row(CREATED, 0, None, None, None, None, None, None, UNDECIDED, None, None, None)

  function Initial(limit: nat): World { World(Db(map[], []), map[], map[], 0, 0, limit, {}) }

  /** `require_verified_evidence`: a VERIFIED verdict that hash-matches evidence the validator admits. */
  ghost predicate Certified(row: Row, hash: Json -> Digest) {
    && row.verdict.Some? && row.verdict.value.state == Verdicts.VERIFIED
    && row.evidence.Some? && row.verdict.value.manifestHash == SHA256 + hash(CanonicalGraph(row.evidence.value))
    && Integrity.Admissible(row.evidence.value, hash)
  }

  // ---- steps ----

  datatype Action =
    | Acquire(job: nat)
    | Refuse(job: nat)
    | NewRun(job: nat, run: string)
    | ResetRun(job: nat, run: string, contract: Option<string>, now: string)
    | Launch(job: nat)
    | LaunchFails(job: nat, message: string, now: string)
    | Load(job: nat)
    | LoadFails(job: nat)
    | Progress(job: nat, stage: Stage, report: Option<string>, contract: Option<string>, arrives: bool)
    | Bundle(job: nat, path: string, entrypoint: string, arrives: bool)
    | Produce(job: nat, evidence: Manifest, verdict: Verdicts.Verdict)
    | Seal(job: nat, seal: string, arrives: bool)
    | Conclude(job: nat, stage: Stage, error: Option<string>, now: string)
    | Persist(job: nat, settled: bool)
    | GiveUp(job: nat)
    | Exit(job: nat)
    | BeginApproval(request: nat, run: string, bundle: Option<string>)
    | Approve(request: nat, approver: string, reason: Option<string>, now: string)
    | Reject(run: string, approver: string, reason: Option<string>, now: string)
    | BeginIngest
    | EndIngest
    | Restart(now: string)

  predicate At(w: World, j: nat, p: Phase) { j in w.jobs && w.jobs[j].phase == p }

  function SetJob(w: World, j: nat, job: Job): World { w.(jobs := w.jobs[j := job]) }

  /** The job's thread ends; its slot, if it still has one, is returned. */
  function Release(w: World, j: nat): World
    requires j in w.jobs
  {
    w.(jobs := w.jobs - {j}, active := if w.jobs[j].slot then w.active - 1 else w.active)
  }

  /** The job's record goes to the store, which may refuse it. */
  function Send(w: World, job: Job, arrives: bool): Db {
    if arrives then UpdateRun(w.db, job.run, job.record, false) else w.db
  }

  function Acquired(w: World, j: nat): World {
    if j in w.jobs || w.active >= w.limit then w
    else SetJob(w, j, Job(Reserved, true, "", BLANK, false)).(active := w.active + 1)
  }

  function Added(w: World, j: nat, run: string): World
    requires At(w, j, Reserved)
  {
    if run in w.db.runs then Release(w, j)
    else SetJob(w, j, Job(Created, w.jobs[j].slot, run, BLANK, false)).(db := AddRun(w.db, run, BLANK))
  }

  function Revalidated(w: World, j: nat, run: string, contract: Option<string>, now: string): World
    requires At(w, j, Reserved)
  {
    if !RevalidationReply(w.db, run).Done? then Release(w, j)
    else
      var db := BeginRevalidation(w.db, run, contract, now);
      SetJob(w, j, Job(Created, w.jobs[j].slot, run, db.runs[run], false)).(db := db)
  }

  /** `_launch` raised: the slot is returned and the record is to be persisted as FAILED. */
  function Unlaunched(w: World, j: nat, message: string, now: string): World
    requires At(w, j, Created)
  {
    var job := w.jobs[j];
    SetJob(w, j, Job(Finishing, false, job.run,
      job.record.(stage := FAILED, error := Some(message), completedAt := Some(now)), job.sent)).(
      active := if job.slot then w.active - 1 else w.active)
  }

  function Loaded(w: World, j: nat): World
    requires At(w, j, Started)
  {
    var job := w.jobs[j];
    if job.run in w.db.runs then SetJob(w, j, job.(phase := Working, record := w.db.runs[job.run])) else Stranded(w, j)
  }

  /** The worker leaves its run as it is: lost, if the run still waits for it. */
  function Stranded(w: World, j: nat): World
    requires j in w.jobs
  {
    var job := w.jobs[j];
    SetJob(w, j, job.(phase := Leaving)).(
      lost := if Current(w.db, job) && !Terminal(w.db.runs[job.run].stage) then w.lost + {job.run} else w.lost)
  }

  function Progressed(w: World, j: nat, stage: Stage, report: Option<string>, contract: Option<string>,
      arrives: bool): World
    requires At(w, j, Working)
  {
    var job := w.jobs[j].(record := w.jobs[j].record.(stage := stage, report := report, contract := contract),
                          sent := w.jobs[j].sent || HasResult(w.jobs[j].record));
    SetJob(w, j, job).(db := Send(w, job, arrives))
  }

  function Bundled(w: World, j: nat, path: string, entrypoint: string, arrives: bool): World
    requires At(w, j, Working)
  {
    var job := w.jobs[j];
    SetJob(w, j, job.(record := job.record.(bundle := Some((path, entrypoint))))).(
      db := if arrives then SetGenerated(w.db, job.run, path, entrypoint, Some(job.record.generation)) else w.db)
  }

  function Produced(w: World, j: nat, m: Manifest, v: Verdicts.Verdict): World
    requires At(w, j, Working)
  {
    var job := w.jobs[j];
    if HasResult(job.record) then w
    else SetJob(w, j, job.(record := job.record.(evidence := Some(m), verdict := Some(v))))
  }

  function Sealed(w: World, j: nat, seal: string, arrives: bool): World
    requires At(w, j, Working)
  {
    var job := w.jobs[j];
    SetJob(w, j, job.(record := job.record.(seal := Some(seal)))).(
      db := if arrives then SetSeal(w.db, job.run, seal, Some(job.record.generation)) else w.db)
  }

  function Concluded(w: World, j: nat, stage: Stage, error: Option<string>, now: string): World
    requires At(w, j, Working)
  {
    SetJob(w, j, w.jobs[j].(phase := Finishing,
      record := w.jobs[j].record.(stage := stage, error := error, completedAt := Some(now))))
  }

  /** One attempt of `_persist_final`; it is the last one when it landed and nothing failed after it. */
  function Persisted(w: World, j: nat, settled: bool): World
    requires At(w, j, Finishing)
  {
    var job := w.jobs[j];
    var landed := UpdateReply(w.db, job.run, job.record, false).Done?;
    SetJob(w, j, if landed && settled then job.(phase := Leaving) else job).(db := Send(w, job, true))
  }

  /** `verify_generated_seal`: the bundle on disk, if there is one, has the seal of the row. */
  predicate Matches(row: Row, bundle: Option<string>) { bundle.Some? ==> row.seal == bundle }

  ghost function Checked(w: World, q: nat, run: string, bundle: Option<string>, hash: Json -> Digest): World {
    if q !in w.checks && run in w.db.runs && Certified(w.db.runs[run], hash) && Matches(w.db.runs[run], bundle)
    then w.(checks := w.checks[q := Check(run, w.db.runs[run], bundle)]) else w
  }

  function Approved(w: World, q: nat, approver: string, reason: Option<string>, now: string): World {
    if q !in w.checks then w
    else
      var c := w.checks[q];
      w.(checks := w.checks - {q},
         db := SetApproval(w.db, c.run, Approval(APPROVED, Some(approver), reason, Some(now)), Some(c.row.generation)))
  }

  function AfterRestart(w: World, now: string): World {
    World(MarkInterrupted(w.db, now), map[], map[], 0, 0, w.limit, {})
  }

  /** One step; an action that is not enabled changes nothing. */
  ghost function Step(w: World, a: Action, hash: Json -> Digest): World {
    match a
    case Acquire(j) => Acquired(w, j)
    case Refuse(j) => if At(w, j, Reserved) then Release(w, j) else w
    case NewRun(j, run) => if At(w, j, Reserved) then Added(w, j, run) else w
    case ResetRun(j, run, contract, now) => if At(w, j, Reserved) then Revalidated(w, j, run, contract, now) else w
    case Launch(j) => if At(w, j, Created) then SetJob(w, j, w.jobs[j].(phase := Started)) else w
    case LaunchFails(j, message, now) => if At(w, j, Created) then Unlaunched(w, j, message, now) else w
    case Load(j) => if At(w, j, Started) then Loaded(w, j) else w
    case LoadFails(j) => if At(w, j, Started) then Stranded(w, j) else w
    case Progress(j, s, report, contract, arrives) =>
      if At(w, j, Working) && !Terminal(s) then Progressed(w, j, s, report, contract, arrives) else w
    case Bundle(j, path, entrypoint, arrives) =>
      if At(w, j, Working) && !HasResult(w.jobs[j].record) then Bundled(w, j, path, entrypoint, arrives) else w
    case Produce(j, m, v) => if At(w, j, Working) then Produced(w, j, m, v) else w
    case Seal(j, seal, arrives) => if At(w, j, Working) && !w.jobs[j].sent then Sealed(w, j, seal, arrives) else w
    case Conclude(j, s, error, now) => if At(w, j, Working) && Terminal(s) then Concluded(w, j, s, error, now) else w
    case Persist(j, settled) => if At(w, j, Finishing) then Persisted(w, j, settled) else w
    case GiveUp(j) => if At(w, j, Finishing) then Stranded(w, j) else w
    case Exit(j) => if At(w, j, Leaving) then Release(w, j) else w
    case BeginApproval(q, run, bundle) => Checked(w, q, run, bundle, hash)
    case Approve(q, approver, reason, now) => Approved(w, q, approver, reason, now)
    case Reject(run, approver, reason, now) =>
      w.(db := SetApproval(w.db, run, Approval(REJECTED, Some(approver), reason, Some(now)), None))
    case BeginIngest => if w.active >= w.limit then w else w.(ingests := w.ingests + 1, active := w.active + 1)
    case EndIngest => if w.ingests == 0 then w else w.(ingests := w.ingests - 1, active := w.active - 1)
    case Restart(now) => AfterRestart(w, now)
  }

  ghost function Run(w: World, actions: seq<Action>, hash: Json -> Digest): World {
    if actions == [] then w else Step(Run(w, actions[..|actions| - 1], hash), actions[|actions| - 1], hash)
  }

  // ---- invariants ----

  predicate HasResult(row: Row) { row.evidence.Some? || row.verdict.Some? }

  predicate SameResult(a: Row, b: Row) { a.evidence == b.evidence && a.verdict == b.verdict }

  predicate Live(p: Phase) { p != Reserved && p != Leaving }

  /** The job's record belongs to the current attempt of its run. */
  predicate Current(db: Db, job: Job) {
    Live(job.phase) && job.run in db.runs && job.record.generation == db.runs[job.run].generation
  }

  predicate Owns(w: World, j: nat, run: string) { j in w.jobs && Current(w.db, w.jobs[j]) && w.jobs[j].run == run }

  /** The row is no further than the record. */
  predicate Tracks(row: Row, record: Row) {
    && (HasResult(row) ==> SameResult(row, record))
    && (Terminal(row.stage) ==> row.stage == record.stage && SameResult(row, record))
  }

  /** A job that may still write belongs to the current attempt, or its record is terminal and stale. */
  predicate JobOk(db: Db, job: Job) {
    Live(job.phase) ==>
      && job.run in db.runs && job.record.generation <= db.runs[job.run].generation
      && (job.phase == Finishing <==> Terminal(job.record.stage))
      && (job.phase != Finishing ==> Current(db, job) && !Terminal(db.runs[job.run].stage))
      && (job.phase != Finishing && (job.phase == Working ==> !job.sent) ==> !HasResult(db.runs[job.run]))
      && (job.phase == Created ==> !HasResult(job.record))
      && (Current(db, job) ==> Tracks(db.runs[job.run], job.record))
  }

  /** The bundle and its seal are the same. */
  predicate SameArtifacts(a: Row, b: Row) { a.seal == b.seal && a.bundle == b.bundle }

  /** A checked run keeps its result, its bundle and its seal for as long as it stays in the checked
      attempt. */
  ghost predicate CheckOk(db: Db, c: Check, hash: Json -> Digest) {
    && c.run in db.runs && c.row.generation <= db.runs[c.run].generation && Certified(c.row, hash)
    && Matches(c.row, c.bundle)
    && (c.row.generation == db.runs[c.run].generation ==>
          SameResult(db.runs[c.run], c.row) && SameArtifacts(db.runs[c.run], c.row))
  }

  /** The fold of the log: the last decision that no reset followed. */
  function Decision(events: seq<Event>, run: string): Approval {
    if events == [] then UNDECIDED
    else
      var e := events[|events| - 1];
      if e.run != run then Decision(events[..|events| - 1], run)
      else if e.Decided? then e.approval
      else UNDECIDED
  }

  function Resets(events: seq<Event>, run: string): nat {
    if events == [] then 0
    else
      var n := |events| - 1;
      Resets(events[..n], run) + if events[n].run == run && events[n].Reset? then 1 else 0
  }

  ghost predicate RowOk(db: Db, run: string, hash: Json -> Digest)
    requires run in db.runs
  {
    var row := db.runs[run];
    && row.approval == Decision(db.events, run)
    && (row.approval.state == PENDING ==> row.approval == UNDECIDED)
    && Resets(db.events, run) <= row.generation
    && (row.approval.state == APPROVED ==> Certified(row, hash))
  }

  /** The lost runs are exactly the unfinished ones that no thread will finish. */
  ghost predicate LostOk(w: World) {
    forall run :: run in w.lost <==> run in w.db.runs && !Terminal(w.db.runs[run].stage) && !Owned(w, run)
  }

  ghost predicate Owned(w: World, run: string) { exists j :: Owns(w, j, run) }

  function Holders(jobs: map<nat, Job>): set<nat> { set j | j in jobs && jobs[j].slot }

  function Slots(jobs: map<nat, Job>): nat { |Holders(jobs)| }

  ghost predicate SlotsOk(w: World) { w.active == Slots(w.jobs) + w.ingests && w.active <= w.limit }

  ghost predicate JobsOk(w: World) {
    && (forall j :: j in w.jobs ==> JobOk(w.db, w.jobs[j]))
    && forall i, j, run :: Owns(w, i, run) && Owns(w, j, run) ==> i == j
  }

  ghost predicate RowsOk(db: Db, hash: Json -> Digest) {
    && (forall run :: run in db.runs ==> RowOk(db, run, hash))
    && forall e :: e in db.events ==> e.run in db.runs
  }

  ghost predicate ChecksOk(w: World, hash: Json -> Digest) {
    forall q :: q in w.checks ==> CheckOk(w.db, w.checks[q], hash)
  }

  ghost predicate Inv(w: World, hash: Json -> Digest) {
    RowsOk(w.db, hash) && JobsOk(w) && ChecksOk(w, hash) && LostOk(w) && SlotsOk(w)
  }

  // ---- slots ----

  lemma SlotAdded(jobs: map<nat, Job>, j: nat, job: Job)
    requires j !in jobs
    ensures Slots(jobs[j := job]) == Slots(jobs) + if job.slot then 1 else 0
  {
    var more := jobs[j := job];
    assert j !in Holders(jobs);
    assert Holders(more) == if job.slot then Holders(jobs) + {j} else Holders(jobs);
  }

  lemma SlotRemoved(jobs: map<nat, Job>, j: nat)
    requires j in jobs
    ensures Slots(jobs) == Slots(jobs - {j}) + if jobs[j].slot then 1 else 0
  {
    var less := jobs - {j};
    SlotAdded(less, j, jobs[j]);
    assert less[j := jobs[j]] == jobs;
  }

  lemma SlotChanged(jobs: map<nat, Job>, j: nat, job: Job)
    requires j in jobs
    ensures Slots(jobs[j := job]) == Slots(jobs) + (if job.slot then 1 else 0) - (if jobs[j].slot then 1 else 0)
  {
    SlotRemoved(jobs, j);
    SlotAdded(jobs - {j}, j, job);
    assert (jobs - {j})[j := job] == jobs[j := job];
  }

  // ---- every step keeps the invariants ----

  lemma InitialInv(limit: nat, hash: Json -> Digest)
    ensures Inv(Initial(limit), hash)
  {
  }

  lemma AcquireKeeps(w: World, j: nat, hash: Json -> Digest)
    requires Inv(w, hash)
    ensures Inv(Acquired(w, j), hash)
  {
    hide RowOk, CheckOk, JobOk, Slots;
    var v := Acquired(w, j);
    if v != w {
      SlotAdded(w.jobs, j, v.jobs[j]);
      forall i, run ensures Owns(w, i, run) <==> Owns(v, i, run) { }
      OwnersKept(w, v);
      NotLiveIsOk(v.db, v.jobs[j]);
    }
  }

  lemma NotLiveIsOk(db: Db, job: Job)
    requires !Live(job.phase)
    ensures JobOk(db, job)
  {
  }

  /** Owners are the same when the same jobs are. */
  lemma OwnersKept(w: World, v: World)
    requires forall j, run :: Owns(w, j, run) <==> Owns(v, j, run)
    ensures forall run :: Owned(w, run) <==> Owned(v, run)
  {
    forall run ensures Owned(w, run) <==> Owned(v, run) {
      if Owned(w, run) { var j :| Owns(w, j, run); assert Owns(v, j, run); }
      if Owned(v, run) { var j :| Owns(v, j, run); assert Owns(w, j, run); }
    }
  }

  lemma ReleaseKeeps(w: World, j: nat, hash: Json -> Digest)
    requires Inv(w, hash) && j in w.jobs && !Live(w.jobs[j].phase)
    ensures Inv(Release(w, j), hash)
  {
    hide RowOk, CheckOk, JobOk, Slots;
    var v := Release(w, j);
    SlotRemoved(w.jobs, j);
    OwnersKept(w, v);
  }

  /** The table changed in one run only, which is in a later attempt than before, if it existed. */
  ghost predicate NextAttempt(db: Db, db': Db, run: string) {
    && db'.runs.Keys == db.runs.Keys + {run} && (forall r :: r in db.runs && r != run ==> db'.runs[r] == db.runs[r])
    && (run in db.runs ==> Terminal(db.runs[run].stage) && db'.runs[run].generation > db.runs[run].generation)
    && !Terminal(db'.runs[run].stage) && !HasResult(db'.runs[run])
  }

  lemma StaleJobOk(db: Db, db': Db, run: string, job: Job)
    requires NextAttempt(db, db', run) && JobOk(db, job)
    ensures JobOk(db', job) && (job.run == run ==> !Current(db', job))
      && (job.run != run ==> (Current(db, job) <==> Current(db', job)))
  {
    hide Tracks;
  }

  /** The jobs after a new attempt: the new one owns the run, and no other job does. */
  lemma AttemptJobs(w: World, v: World, j: nat, run: string)
    requires JobsOk(w) && At(w, j, Reserved) && NextAttempt(w.db, v.db, run)
    requires j in v.jobs && v.jobs == w.jobs[j := v.jobs[j]] && v.jobs[j].phase == Created && v.jobs[j].run == run
    requires var record := v.jobs[j].record;
      record.generation == v.db.runs[run].generation && !Terminal(record.stage) && !HasResult(record)
    ensures forall i :: i in v.jobs ==> JobOk(v.db, v.jobs[i])
    ensures forall i, r :: Owns(v, i, r) <==> if r == run then i == j else Owns(w, i, r)
  {
    assert JobOk(v.db, v.jobs[j]);
    hide NextAttempt, JobOk;
    forall i | i in w.jobs && i != j
      ensures JobOk(v.db, v.jobs[i]) && (w.jobs[i].run == run ==> !Current(v.db, w.jobs[i]))
      ensures w.jobs[i].run != run ==> (Current(w.db, w.jobs[i]) <==> Current(v.db, w.jobs[i]))
    {
      StaleJobOk(w.db, v.db, run, w.jobs[i]);
    }
  }

  lemma AttemptOwners(w: World, v: World, j: nat, run: string)
    requires forall i, r :: Owns(v, i, r) <==> if r == run then i == j else Owns(w, i, r)
    ensures forall r :: Owned(v, r) <==> r == run || Owned(w, r)
  {
    hide Owns;
    forall r ensures Owned(v, r) <==> r == run || Owned(w, r) {
      if r == run { assert Owns(v, j, r); }
      if Owned(v, r) && r != run { var i :| Owns(v, i, r); assert Owns(w, i, r); }
      if Owned(w, r) && r != run { var i :| Owns(w, i, r); assert Owns(v, i, r); }
    }
  }

  lemma AttemptChecks(db: Db, db': Db, run: string, c: Check, hash: Json -> Digest)
    requires NextAttempt(db, db', run) && CheckOk(db, c, hash)
    ensures CheckOk(db', c, hash)
  {
    hide Certified;
  }

  /** A new attempt, first or repeated, on a run no one owns. */
  lemma AttemptKeeps(w: World, v: World, db: Db, j: nat, run: string, record: Row, hash: Json -> Digest)
    requires Inv(w, hash) && At(w, j, Reserved) && NextAttempt(w.db, db, run)
    requires record.generation == db.runs[run].generation && !Terminal(record.stage) && !HasResult(record)
    requires v == SetJob(w, j, Job(Created, w.jobs[j].slot, run, record, false)).(db := db)
    ensures JobsOk(v) && LostOk(v) && SlotsOk(v) && ChecksOk(v, hash)
  {
    hide RowOk, CheckOk, Slots, JobOk, Owns, Owned;
    AttemptJobs(w, v, j, run);
    AttemptOwners(w, v, j, run);
    SlotChanged(w.jobs, j, v.jobs[j]);
    forall q | q in v.checks
      ensures CheckOk(v.db, v.checks[q], hash)
    {
      AttemptChecks(w.db, v.db, run, w.checks[q], hash);
    }
  }

  lemma NoEvents(events: seq<Event>, run: string)
    requires forall e :: e in events ==> e.run != run
    ensures Decision(events, run) == UNDECIDED && Resets(events, run) == 0
  {
    if events != [] { NoEvents(events[..|events| - 1], run); }
  }

  lemma OneMoreEvent(events: seq<Event>, e: Event, run: string)
    ensures Decision(events + [e], run) == if e.run != run then Decision(events, run)
      else if e.Decided? then e.approval else UNDECIDED
    ensures Resets(events + [e], run) == Resets(events, run) + if e.run == run && e.Reset? then 1 else 0
  {
    assert (events + [e])[..|events|] == events;
  }

  lemma NewRunRows(db: Db, run: string, hash: Json -> Digest)
    requires RowsOk(db, hash) && run !in db.runs
    ensures RowsOk(AddRun(db, run, BLANK), hash) && NextAttempt(db, AddRun(db, run, BLANK), run)
  {
    hide Certified;
    var db' := AddRun(db, run, BLANK);
    NoEvents(db.events, run);
    forall r | r in db'.runs ensures RowOk(db', r, hash) { if r != run { assert RowOk(db, r, hash); } }
  }

  lemma NewRunKeeps(w: World, j: nat, run: string, hash: Json -> Digest)
    requires Inv(w, hash) && At(w, j, Reserved)
    ensures Inv(Added(w, j, run), hash)
  {
    hide JobsOk, LostOk, SlotsOk, ChecksOk, RowsOk, NextAttempt;
    if run in w.db.runs {
      ReleaseKeeps(w, j, hash);
    } else {
      NewRunRows(w.db, run, hash);
      AttemptKeeps(w, Added(w, j, run), AddRun(w.db, run, BLANK), j, run, BLANK, hash);
    }
  }

  lemma ResetRows(db: Db, run: string, contract: Option<string>, now: string, r: string, hash: Json -> Digest)
    requires RevalidationReply(db, run).Done? && r in db.runs && RowOk(db, r, hash) && RowOk(db, run, hash)
    ensures RowOk(BeginRevalidation(db, run, contract, now), r, hash)
  {
    hide Certified;
    OneMoreEvent(db.events, RunStore.Reset(run, db.runs[run].generation + 1, now), r);
  }

  lemma ResetAllRows(db: Db, run: string, contract: Option<string>, now: string, hash: Json -> Digest)
    requires RowsOk(db, hash) && RevalidationReply(db, run).Done?
    ensures var db' := BeginRevalidation(db, run, contract, now); RowsOk(db', hash) && NextAttempt(db, db', run)
  {
    hide RowOk;
    var db' := BeginRevalidation(db, run, contract, now);
    forall r | r in db'.runs ensures RowOk(db', r, hash) { ResetRows(db, run, contract, now, r, hash); }
  }

  lemma RevalidatedKeeps(w: World, j: nat, run: string, contract: Option<string>, now: string, hash: Json -> Digest)
    requires Inv(w, hash) && At(w, j, Reserved)
    ensures var v := Revalidated(w, j, run, contract, now);
      && Inv(v, hash)
      && (if RevalidationReply(w.db, run).Done? then forall i :: Owns(v, i, run) <==> i == j
          else v.db == w.db && j !in v.jobs)
  {
    hide JobsOk, LostOk, SlotsOk, ChecksOk, RowsOk, NextAttempt;
    if !RevalidationReply(w.db, run).Done? {
      ReleaseKeeps(w, j, hash);
    } else {
      ResetAllRows(w.db, run, contract, now, hash);
      var v := Revalidated(w, j, run, contract, now);
      AttemptKeeps(w, v, v.db, j, run, v.db.runs[run], hash);
      SoleOwner(v, j, run);
    }
  }

  lemma SoleOwner(w: World, j: nat, run: string)
    requires JobsOk(w) && At(w, j, Created) && w.jobs[j].run == run
    ensures forall i :: Owns(w, i, run) <==> i == j
  {
    assert JobOk(w.db, w.jobs[j]);
    assert Owns(w, j, run);
  }

  // ---- steps of a worker ----

  /** The job changes without changing hands. */
  ghost predicate SameJob(job: Job, job': Job) {
    Live(job.phase) && Live(job'.phase) && job'.run == job.run && job'.record.generation == job.record.generation
  }

  lemma JobStepOwners(w: World, v: World, j: nat, job: Job)
    requires JobsOk(w) && LostOk(w) && j in w.jobs && SameJob(w.jobs[j], job) && JobOk(w.db, job)
    requires v.jobs == w.jobs[j := job] && v.db == w.db && v.lost == w.lost
    ensures JobsOk(v) && LostOk(v)
  {
    hide JobOk;
    forall i, run ensures Owns(w, i, run) <==> Owns(v, i, run) { }
    hide Owns;
    OwnersKept(w, v);
  }

  /** A thread's own record changes, or its phase; the table does not. */
  lemma JobStepKeeps(w: World, j: nat, job: Job, hash: Json -> Digest)
    requires Inv(w, hash) && j in w.jobs && SameJob(w.jobs[j], job) && JobOk(w.db, job)
    ensures var v :=
      SetJob(w, j, job).(active := w.active + (if job.slot then 1 else 0) - (if w.jobs[j].slot then 1 else 0));
      v.active <= w.active ==> Inv(v, hash)
  {
    hide RowsOk, CheckOk, JobOk, Slots, JobsOk, LostOk, SameJob;
    var v := SetJob(w, j, job).(active := w.active + (if job.slot then 1 else 0) - (if w.jobs[j].slot then 1 else 0));
    SlotChanged(w.jobs, j, job);
    JobStepOwners(w, v, j, job);
  }

  /** A current record written to the table. */
  lemma SendRows(db: Db, job: Job, hash: Json -> Digest)
    requires RowsOk(db, hash) && Current(db, job)
    requires HasResult(db.runs[job.run]) ==> SameResult(db.runs[job.run], job.record)
    ensures RowsOk(UpdateRun(db, job.run, job.record, false), hash)
  {
    hide Decision, Resets, ValidTransition;
    var db' := UpdateRun(db, job.run, job.record, false);
    forall r | r in db'.runs ensures RowOk(db', r, hash) {
      assert RowOk(db, r, hash);
      if r == job.run && db.runs[r].approval.state == APPROVED {
        assert Certified(db.runs[r], hash);
        SameCertified(db.runs[r], db'.runs[r], hash);
      }
    }
  }

  lemma SameCertified(a: Row, b: Row, hash: Json -> Digest)
    requires SameResult(a, b) && Certified(a, hash)
    ensures Certified(b, hash)
  {
  }

  /** The thread writes its record, and has noted it if that holds a result. */
  predicate Sending(job: Job) {
    (job.phase == Working && (HasResult(job.record) ==> job.sent)) || job.phase == Finishing
  }

  lemma SentJobOk(db: Db, job: Job)
    requires JobOk(db, job) && Current(db, job) && Sending(job)
    ensures JobOk(UpdateRun(db, job.run, job.record, false), job)
  {
    hide ValidTransition;
  }

  lemma OtherJobOk(db: Db, job: Job, other: Job)
    requires JobOk(db, other) && Current(db, job) && (other.run != job.run || !Current(db, other))
    ensures JobOk(UpdateRun(db, job.run, job.record, false), other)
  {
    hide ValidTransition, Tracks;
  }

  lemma SentCheckOk(db: Db, job: Job, c: Check, hash: Json -> Digest)
    requires CheckOk(db, c, hash) && Current(db, job)
    requires HasResult(db.runs[job.run]) ==> SameResult(db.runs[job.run], job.record)
    ensures CheckOk(UpdateRun(db, job.run, job.record, false), c, hash)
  {
    hide ValidTransition;
    assert HasResult(c.row);
    hide Certified;
  }

  /** Writing a record changes no generation, and finishes only its own run. */
  lemma SentFrame(db: Db, job: Job)
    ensures var db' := UpdateRun(db, job.run, job.record, false);
      && db'.runs.Keys == db.runs.Keys && (forall r :: r in db.runs ==> db'.runs[r].generation == db.runs[r].generation)
      && (forall r :: r in db.runs && r != job.run ==> db'.runs[r] == db.runs[r])
      && (!Current(db, job) && Live(job.phase) ==> db' == db)
  {
  }

  /** Ownership only looks at runs and generations; only the owner's run may finish. */
  lemma SendOwners(w: World, v: World, j: nat, job: Job)
    requires LostOk(w) && j in w.jobs && SameJob(w.jobs[j], job) && Current(w.db, job)
    requires v.jobs == w.jobs[j := job] && v.lost == w.lost
    requires v.db.runs.Keys == w.db.runs.Keys && forall r :: r in w.db.runs ==>
      v.db.runs[r].generation == w.db.runs[r].generation
    requires forall r :: r in w.db.runs && r != job.run ==> v.db.runs[r] == w.db.runs[r]
    ensures LostOk(v) && forall i, run :: Owns(w, i, run) <==> Owns(v, i, run)
  {
    forall i, run ensures Owns(w, i, run) <==> Owns(v, i, run) { }
    assert Owns(w, j, job.run);
    hide Owns;
    OwnersKept(w, v);
  }

  /** A thread's record goes to the store: accepted, it becomes the row; refused, nothing changes. */
  lemma SendKeeps(w: World, j: nat, job: Job, hash: Json -> Digest)
    requires Inv(w, hash) && j in w.jobs && SameJob(w.jobs[j], job) && job.slot == w.jobs[j].slot
    requires JobOk(w.db, job) && Sending(job)
    ensures Inv(SetJob(w, j, job).(db := UpdateRun(w.db, job.run, job.record, false)), hash)
  {
    hide RowsOk, Slots, UpdateRun, HasResult, Tracks, ChecksOk, LostOk, Owns, ValidTransition;
    var v := SetJob(w, j, job).(db := UpdateRun(w.db, job.run, job.record, false));
    SentFrame(w.db, job);
    if !Current(w.db, job) {
      JobStepKeeps(w, j, job, hash);
    } else {
      CurrentTracks(w.db, job);
      hide JobOk, SameResult;
      SendRows(w.db, job, hash);
      SentJobOk(w.db, job);
      SlotChanged(w.jobs, j, job);
      SendJobs(w, v, j, job);
      SendChecks(w, v, job, hash);
      SendOwners(w, v, j, job);
    }
  }

  lemma CurrentTracks(db: Db, job: Job)
    requires JobOk(db, job) && Current(db, job)
    ensures HasResult(db.runs[job.run]) ==> SameResult(db.runs[job.run], job.record)
  {
  }

  lemma SendJobs(w: World, v: World, j: nat, job: Job)
    requires JobsOk(w) && j in w.jobs && SameJob(w.jobs[j], job) && Current(w.db, job) && JobOk(w.db, job)
    requires v.jobs == w.jobs[j := job] && v.db == UpdateRun(w.db, job.run, job.record, false) && JobOk(v.db, job)
    ensures forall i :: i in v.jobs ==> JobOk(v.db, v.jobs[i])
  {
    hide JobOk, UpdateRun;
    forall i | i in v.jobs ensures JobOk(v.db, v.jobs[i]) {
      if i != j {
        assert Owns(w, j, job.run);
        assert !Owns(w, i, job.run);
        OtherJobOk(w.db, job, w.jobs[i]);
      }
    }
  }

  lemma SendChecks(w: World, v: World, job: Job, hash: Json -> Digest)
    requires ChecksOk(w, hash) && Current(w.db, job) && JobOk(w.db, job)
    requires v.checks == w.checks && v.db == UpdateRun(w.db, job.run, job.record, false)
    ensures ChecksOk(v, hash)
  {
    hide CheckOk, UpdateRun;
    forall q | q in v.checks ensures CheckOk(v.db, v.checks[q], hash) { SentCheckOk(w.db, job, w.checks[q], hash); }
  }

  // ---- writes that leave stage, generation and result alone, and the artifacts of a result ----

  predicate SameProgress(a: Row, b: Row) {
    && a.stage == b.stage && a.generation == b.generation && SameResult(a, b)
    && (HasResult(a) ==> SameArtifacts(a, b))
  }

  ghost predicate SameProgressAll(db: Db, db': Db) {
    db'.runs.Keys == db.runs.Keys && forall r :: r in db.runs ==> SameProgress(db.runs[r], db'.runs[r])
  }

  lemma ColumnJobOk(db: Db, db': Db, job: Job)
    requires SameProgressAll(db, db') && JobOk(db, job)
    ensures JobOk(db', job)
  {
  }

  lemma ColumnCheckOk(db: Db, db': Db, c: Check, hash: Json -> Digest)
    requires SameProgressAll(db, db') && CheckOk(db, c, hash)
    ensures CheckOk(db', c, hash)
  {
    assert HasResult(c.row);
    hide Certified;
  }

  lemma ColumnKeeps(w: World, db: Db, hash: Json -> Digest)
    requires Inv(w, hash) && SameProgressAll(w.db, db) && RowsOk(db, hash)
    ensures Inv(w.(db := db), hash)
  {
    var v := w.(db := db);
    hide RowsOk, JobOk, CheckOk, Slots;
    forall i | i in v.jobs ensures JobOk(v.db, v.jobs[i]) { ColumnJobOk(w.db, db, w.jobs[i]); }
    forall q | q in v.checks ensures CheckOk(v.db, v.checks[q], hash) { ColumnCheckOk(w.db, db, w.checks[q], hash); }
    forall i, run ensures Owns(w, i, run) <==> Owns(v, i, run) { }
    OwnersKept(w, v);
  }

  lemma ColumnRows(db: Db, db': Db, hash: Json -> Digest)
    requires RowsOk(db, hash) && SameProgressAll(db, db') && db'.events == db.events
    requires forall r :: r in db.runs ==> db'.runs[r].approval == db.runs[r].approval
    ensures RowsOk(db', hash)
  {
    hide Decision, Resets;
    forall r | r in db'.runs ensures RowOk(db', r, hash) {
      assert RowOk(db, r, hash);
      if db.runs[r].approval.state == APPROVED { SameCertified(db.runs[r], db'.runs[r], hash); }
    }
  }

  lemma DecidedRow(db: Db, run: string, approval: Approval, r: string, hash: Json -> Digest)
    requires run in db.runs && approval.state != PENDING && r in db.runs && RowOk(db, r, hash)
    requires approval.state == APPROVED ==> Certified(db.runs[run], hash)
    ensures RowOk(Db(db.runs[run := db.runs[run].(approval := approval)], db.events + [Decided(run, approval)]), r,
      hash)
  {
    var row := db.runs[run];
    if Certified(row, hash) { SameCertified(row, row.(approval := approval), hash); }
    hide Certified;
    OneMoreEvent(db.events, Decided(run, approval), r);
  }

  lemma DecidedRows(db: Db, run: string, approval: Approval, expected: Option<nat>, hash: Json -> Digest)
    requires RowsOk(db, hash)
    requires approval.state == APPROVED && BoundReply(db, run, expected).Done? ==> Certified(db.runs[run], hash)
    ensures RowsOk(SetApproval(db, run, approval, expected), hash)
      && SameProgressAll(db, SetApproval(db, run, approval, expected))
  {
    hide Certified, RowOk;
    var db' := SetApproval(db, run, approval, expected);
    if approval.state != PENDING && BoundReply(db, run, expected).Done? {
      forall r | r in db'.runs ensures RowOk(db', r, hash) { DecidedRow(db, run, approval, r, hash); }
    }
  }

  // ---- all steps ----

  lemma LaunchKeeps(w: World, j: nat, hash: Json -> Digest)
    requires Inv(w, hash) && At(w, j, Created)
    ensures Inv(SetJob(w, j, w.jobs[j].(phase := Started)), hash)
  {
    hide RowsOk, ChecksOk, LostOk, SlotsOk;
    var v := SetJob(w, j, w.jobs[j].(phase := Started));
    assert v == v.(active := w.active);
    JobStepKeeps(w, j, w.jobs[j].(phase := Started), hash);
  }

  lemma UnlaunchedKeeps(w: World, j: nat, message: string, now: string, hash: Json -> Digest)
    requires Inv(w, hash) && At(w, j, Created)
    ensures var v := Unlaunched(w, j, message, now); var job := v.jobs[j];
      && Inv(v, hash)
      && v.active == w.active - (if w.jobs[j].slot then 1 else 0) && !job.slot
      && job.phase == Finishing && job.record.stage == FAILED && Owns(v, j, w.jobs[j].run)
  {
    hide RowsOk, ChecksOk, LostOk, SlotsOk;
    assert JobOk(w.db, w.jobs[j]);
    var v := Unlaunched(w, j, message, now);
    JobStepKeeps(w, j, v.jobs[j], hash);
  }

  lemma LoadedKeeps(w: World, j: nat, hash: Json -> Digest)
    requires Inv(w, hash) && At(w, j, Started)
    ensures Inv(Loaded(w, j), hash)
  {
    hide RowsOk, ChecksOk, LostOk, SlotsOk;
    assert JobOk(w.db, w.jobs[j]);
    var v := Loaded(w, j);
    assert v == v.(active := w.active);
    JobStepKeeps(w, j, v.jobs[j], hash);
  }

  /** The job stops owning anything; nothing else changes hands. */
  lemma StrandedOwners(w: World, j: nat)
    requires JobsOk(w) && j in w.jobs && Live(w.jobs[j].phase)
    ensures forall i, r :: Owns(Stranded(w, j), i, r) <==> Owns(w, i, r) && i != j
  {
    hide JobOk;
  }

  lemma StrandedLost(w: World, j: nat)
    requires JobsOk(w) && LostOk(w) && j in w.jobs && Live(w.jobs[j].phase)
    ensures LostOk(Stranded(w, j))
  {
    var v, run := Stranded(w, j), w.jobs[j].run;
    StrandedOwners(w, j);
    hide JobOk;
    forall r | r != run || !Owns(w, j, run) ensures Owned(v, r) <==> Owned(w, r) {
      if Owned(w, r) { var i :| Owns(w, i, r); assert Owns(v, i, r); }
      if Owned(v, r) { var i :| Owns(v, i, r); assert Owns(w, i, r); }
    }
    if Owns(w, j, run) { assert !Owned(v, run) && Owned(w, run); }
  }

  lemma StrandedKeeps(w: World, j: nat, hash: Json -> Digest)
    requires Inv(w, hash) && j in w.jobs && Live(w.jobs[j].phase)
    ensures Inv(Stranded(w, j), hash)
  {
    StrandedLost(w, j);
    StrandedOwners(w, j);
    SlotChanged(w.jobs, j, Stranded(w, j).jobs[j]);
    hide JobOk, RowsOk, LostOk, Slots, CheckOk, Owns;
    NotLiveIsOk(w.db, Stranded(w, j).jobs[j]);
  }

  /** A worker's own copy changes; it is sent or not. */
  lemma WorkKeeps(w: World, j: nat, job: Job, arrives: bool, hash: Json -> Digest)
    requires Inv(w, hash) && j in w.jobs && SameJob(w.jobs[j], job) && job.slot == w.jobs[j].slot
    requires JobOk(w.db, job) && Sending(job)
    ensures Inv(SetJob(w, j, job).(db := Send(w, job, arrives)), hash)
  {
    hide RowsOk, ChecksOk, LostOk, SlotsOk, JobsOk, JobOk, UpdateRun;
    if arrives {
      SendKeeps(w, j, job, hash);
    } else {
      var v := SetJob(w, j, job);
      assert v == v.(active := w.active) && v == v.(db := w.db);
      JobStepKeeps(w, j, job, hash);
    }
  }

  lemma ProgressedKeeps(w: World, j: nat, stage: Stage, report: Option<string>, contract: Option<string>,
      arrives: bool, hash: Json -> Digest)
    requires Inv(w, hash) && At(w, j, Working) && !Terminal(stage)
    ensures Inv(Progressed(w, j, stage, report, contract, arrives), hash)
  {
    hide RowsOk, ChecksOk, LostOk, SlotsOk, UpdateRun;
    assert JobOk(w.db, w.jobs[j]);
    WorkKeeps(w, j, Progressed(w, j, stage, report, contract, arrives).jobs[j], arrives, hash);
  }

  lemma ProducedKeeps(w: World, j: nat, m: Manifest, v: Verdicts.Verdict, hash: Json -> Digest)
    requires Inv(w, hash) && At(w, j, Working)
    ensures Inv(Produced(w, j, m, v), hash)
  {
    hide RowsOk, ChecksOk, LostOk, SlotsOk;
    assert JobOk(w.db, w.jobs[j]);
    var u := Produced(w, j, m, v);
    assert u == u.(active := w.active);
    JobStepKeeps(w, j, u.jobs[j], hash);
  }

  lemma ConcludedKeeps(w: World, j: nat, stage: Stage, error: Option<string>, now: string, hash: Json -> Digest)
    requires Inv(w, hash) && At(w, j, Working) && Terminal(stage)
    ensures Inv(Concluded(w, j, stage, error, now), hash)
  {
    hide RowsOk, ChecksOk, LostOk, SlotsOk;
    assert JobOk(w.db, w.jobs[j]);
    var v := Concluded(w, j, stage, error, now);
    assert v == v.(active := w.active);
    JobStepKeeps(w, j, v.jobs[j], hash);
  }

  lemma PersistedKeeps(w: World, j: nat, settled: bool, hash: Json -> Digest)
    requires Inv(w, hash) && At(w, j, Finishing)
    ensures Inv(Persisted(w, j, settled), hash)
  {
    hide RowsOk, ChecksOk, LostOk, SlotsOk, ValidTransition;
    assert JobOk(w.db, w.jobs[j]);
    var job := w.jobs[j];
    var sent := SetJob(w, j, job).(db := Send(w, job, true));
    WorkKeeps(w, j, job, true, hash);
    if UpdateReply(w.db, job.run, job.record, false).Done? && settled {
      StrandedKeeps(sent, j, hash);
      assert Persisted(w, j, settled) == Stranded(sent, j);
    }
  }

  lemma SealedKeeps(w: World, j: nat, seal: string, arrives: bool, hash: Json -> Digest)
    requires Inv(w, hash) && At(w, j, Working) && !w.jobs[j].sent
    ensures Inv(Sealed(w, j, seal, arrives), hash)
  {
    hide RowsOk, ChecksOk, LostOk, SlotsOk;
    var job := w.jobs[j].(record := w.jobs[j].record.(seal := Some(seal)));
    assert JobOk(w.db, w.jobs[j]);
    var u := SetJob(w, j, job);
    assert u == u.(active := w.active);
    JobStepKeeps(w, j, job, hash);
    var db := Sealed(w, j, seal, arrives).db;
    ColumnRows(w.db, db, hash);
    ColumnKeeps(u, db, hash);
  }

  lemma BundledKeeps(w: World, j: nat, path: string, entrypoint: string, arrives: bool, hash: Json -> Digest)
    requires Inv(w, hash) && At(w, j, Working) && !HasResult(w.jobs[j].record)
    ensures Inv(Bundled(w, j, path, entrypoint, arrives), hash)
  {
    hide RowsOk, ChecksOk, LostOk, SlotsOk;
    var job := w.jobs[j].(record := w.jobs[j].record.(bundle := Some((path, entrypoint))));
    assert JobOk(w.db, w.jobs[j]);
    var u := SetJob(w, j, job);
    assert u == u.(active := w.active);
    JobStepKeeps(w, j, job, hash);
    var db := Bundled(w, j, path, entrypoint, arrives).db;
    ColumnRows(w.db, db, hash);
    ColumnKeeps(u, db, hash);
  }

  lemma ChecksKeep(w: World, checks: map<nat, Check>, hash: Json -> Digest)
    requires Inv(w, hash) && forall q :: q in checks ==> CheckOk(w.db, checks[q], hash)
    ensures Inv(w.(checks := checks), hash)
  {
    var v := w.(checks := checks);
    hide RowsOk, JobOk, Slots, CheckOk;
    forall i, run ensures Owns(w, i, run) <==> Owns(v, i, run) { }
    OwnersKept(w, v);
  }

  lemma CheckedKeeps(w: World, q: nat, run: string, bundle: Option<string>, hash: Json -> Digest)
    requires Inv(w, hash)
    ensures Inv(Checked(w, q, run, bundle, hash), hash)
  {
    hide RowsOk, JobsOk, LostOk, SlotsOk, Certified;
    var v := Checked(w, q, run, bundle, hash);
    if v != w {
      ChecksKeep(w, v.checks, hash);
    }
  }

  lemma ApprovalEffect(db: Db, run: string, approval: Approval, generation: nat)
    requires run in db.runs && approval.state != PENDING
    ensures var db' := SetApproval(db, run, approval, Some(generation));
      && run in db'.runs
      && if generation != db.runs[run].generation then db' == db
         else db'.runs[run].approval == approval && db'.events == db.events + [Decided(run, approval)]
  {
  }

  /** An approval lands on the attempt that was checked, or nowhere. */
  lemma ApprovedKeeps(w: World, q: nat, approver: string, reason: Option<string>, now: string, hash: Json -> Digest)
    requires Inv(w, hash)
    ensures Inv(Approved(w, q, approver, reason, now), hash)
    ensures q in w.checks ==>
      var c, v := w.checks[q], Approved(w, q, approver, reason, now);
      && c.run in w.db.runs && c.run in v.db.runs
      && if c.row.generation != w.db.runs[c.run].generation then v.db == w.db
         else
           var approval := Approval(APPROVED, Some(approver), reason, Some(now));
           v.db.runs[c.run].approval == approval && v.db.events == w.db.events + [Decided(c.run, approval)]
  {
    hide RowsOk, JobsOk, LostOk, SlotsOk, Certified, SetApproval;
    if q in w.checks {
      var c := w.checks[q];
      assert CheckOk(w.db, c, hash);
      if c.row.generation == w.db.runs[c.run].generation { SameCertified(c.row, w.db.runs[c.run], hash); }
      var approval := Approval(APPROVED, Some(approver), reason, Some(now));
      ApprovalEffect(w.db, c.run, approval, c.row.generation);
      DecidedRows(w.db, c.run, approval, Some(c.row.generation), hash);
      ChecksKeep(w, w.checks - {q}, hash);
      ColumnKeeps(w.(checks := w.checks - {q}), SetApproval(w.db, c.run, approval, Some(c.row.generation)), hash);
    }
  }

  lemma RejectKeeps(w: World, run: string, approver: string, reason: Option<string>, now: string, hash: Json -> Digest)
    requires Inv(w, hash)
    ensures Inv(Step(w, Reject(run, approver, reason, now), hash), hash)
  {
    hide RowsOk, JobsOk, SlotsOk, LostOk, ChecksOk, SetApproval;
    var approval := Approval(REJECTED, Some(approver), reason, Some(now));
    DecidedRows(w.db, run, approval, None, hash);
    ColumnKeeps(w, SetApproval(w.db, run, approval, None), hash);
  }

  /** A rejection lands whatever the attempt and the earlier decision: it is the approval of the run from
      then on and the last event of the log, and nothing else changes.  A run that is not stored takes none. */
  lemma RejectLands(w: World, run: string, approver: string, reason: Option<string>, now: string, hash: Json -> Digest)
    ensures var v := Step(w, Reject(run, approver, reason, now), hash);
      var decision := Approval(REJECTED, Some(approver), reason, Some(now));
      && (run !in w.db.runs ==> v == w)
      && (run in w.db.runs ==>
            && v.db.runs.Keys == w.db.runs.Keys && v.db.runs[run] == w.db.runs[run].(approval := decision)
            && (forall r :: r in w.db.runs && r != run ==> v.db.runs[r] == w.db.runs[r])
            && v.db.events == w.db.events + [Decided(run, decision)] && v == w.(db := v.db))
  {
  }

  lemma IngestKeeps(w: World, v: World, hash: Json -> Digest)
    requires Inv(w, hash)
    requires v == Step(w, BeginIngest, hash) || v == Step(w, EndIngest, hash)
    ensures Inv(v, hash)
  {
    hide RowsOk, CheckOk, JobOk, Slots, Certified;
    assert v.db == w.db && v.jobs == w.jobs && v.lost == w.lost && v.checks == w.checks;
    hide Step;
    forall i, run ensures Owns(w, i, run) <==> Owns(v, i, run) { }
    hide Owns;
    OwnersKept(w, v);
  }

  lemma RestartKeeps(w: World, now: string, hash: Json -> Digest)
    requires Inv(w, hash)
    ensures Inv(AfterRestart(w, now), hash)
  {
    var v := AfterRestart(w, now);
    hide Decision, Resets;
    assert Holders(v.jobs) == {};
    assert SlotsOk(w);
    forall r | r in v.db.runs ensures RowOk(v.db, r, hash) && Terminal(v.db.runs[r].stage) {
      assert RowOk(w.db, r, hash);
      if w.db.runs[r].approval.state == APPROVED { SameCertified(w.db.runs[r], v.db.runs[r], hash); }
      hide Certified;
    }
  }

  lemma StepKeeps(w: World, a: Action, hash: Json -> Digest)
    requires Inv(w, hash)
    ensures Inv(Step(w, a, hash), hash)
  {
    hide Inv, Acquired, Release, Added, Revalidated, Unlaunched, Loaded, Stranded, Progressed, Bundled, Produced,
      Sealed, Concluded, Persisted, Checked, Approved, AfterRestart, SetApproval;
    match a
    case Acquire(j) => AcquireKeeps(w, j, hash);
    case Refuse(j) => if At(w, j, Reserved) { ReleaseKeeps(w, j, hash); }
    case NewRun(j, run) => if At(w, j, Reserved) { NewRunKeeps(w, j, run, hash); }
    case ResetRun(j, run, contract, now) => if At(w, j, Reserved) { RevalidatedKeeps(w, j, run, contract, now, hash); }
    case Launch(j) => if At(w, j, Created) { LaunchKeeps(w, j, hash); }
    case LaunchFails(j, message, now) => if At(w, j, Created) { UnlaunchedKeeps(w, j, message, now, hash); }
    case Load(j) => if At(w, j, Started) { LoadedKeeps(w, j, hash); }
    case LoadFails(j) => if At(w, j, Started) { StrandedKeeps(w, j, hash); }
    case Progress(j, s, report, contract, arrives) => if At(w, j, Working) && !Terminal(s) {
      ProgressedKeeps(w, j, s, report, contract, arrives, hash);
    }
    case Bundle(j, path, entrypoint, arrives) => if At(w, j, Working) && !HasResult(w.jobs[j].record) {
      BundledKeeps(w, j, path, entrypoint, arrives, hash);
    }
    case Produce(j, m, v) => if At(w, j, Working) { ProducedKeeps(w, j, m, v, hash); }
    case Seal(j, seal, arrives) => if At(w, j, Working) && !w.jobs[j].sent { SealedKeeps(w, j, seal, arrives, hash); }
    case Conclude(j, s, error, now) => if At(w, j, Working) && Terminal(s) {
      ConcludedKeeps(w, j, s, error, now, hash);
    }
    case Persist(j, settled) => if At(w, j, Finishing) { PersistedKeeps(w, j, settled, hash); }
    case GiveUp(j) => if At(w, j, Finishing) { StrandedKeeps(w, j, hash); }
    case Exit(j) => if At(w, j, Leaving) { ReleaseKeeps(w, j, hash); }
    case BeginApproval(q, run, bundle) => CheckedKeeps(w, q, run, bundle, hash);
    case Approve(q, approver, reason, now) => ApprovedKeeps(w, q, approver, reason, now, hash);
    case Reject(run, approver, reason, now) => RejectKeeps(w, run, approver, reason, now, hash);
    case BeginIngest => IngestKeeps(w, Step(w, a, hash), hash);
    case EndIngest => IngestKeeps(w, Step(w, a, hash), hash);
    case Restart(now) => RestartKeeps(w, now, hash);
  }

  // ---- whole runs of the system ----

  lemma {:induction false} AlwaysInv(limit: nat, actions: seq<Action>, hash: Json -> Digest)
    ensures Inv(Run(Initial(limit), actions, hash), hash)
  {
    if actions == [] {
      InitialInv(limit, hash);
    } else {
      AlwaysInv(limit, actions[..|actions| - 1], hash);
      StepKeeps(Run(Initial(limit), actions[..|actions| - 1], hash), actions[|actions| - 1], hash);
    }
  }

  /** Whatever requests, workers, resets and restarts did: an approved run holds a VERIFIED verdict that
      hash-matches stored evidence the validator admits, in the very attempt it is in now. */
  lemma ApprovedIsCertified(limit: nat, actions: seq<Action>, run: string, hash: Json -> Digest)
    requires var db := Run(Initial(limit), actions, hash).db; run in db.runs && db.runs[run].approval.state == APPROVED
    ensures var row := Run(Initial(limit), actions, hash).db.runs[run];
      && Certified(row, hash)
      && row.verdict.Some? && row.verdict.value.state == Verdicts.VERIFIED && row.evidence.Some?
      && row.verdict.value.manifestHash == "sha256:" + hash(CanonicalGraph(row.evidence.value))
      && Integrity.Admissible(row.evidence.value, hash)
  {
    hide Run, CanonicalGraph, Integrity.Admissible;
    AlwaysInv(limit, actions, hash);
    assert RowOk(Run(Initial(limit), actions, hash).db, run, hash);
  }

  /** The approval columns are the fold of the append-only log, and a run is reset at most once per
      generation. */
  lemma ApprovalIsLogged(limit: nat, actions: seq<Action>, run: string, hash: Json -> Digest)
    requires run in Run(Initial(limit), actions, hash).db.runs
    ensures var db := Run(Initial(limit), actions, hash).db;
      db.runs[run].approval == Decision(db.events, run) && Resets(db.events, run) <= db.runs[run].generation
  {
    AlwaysInv(limit, actions, hash);
    assert RowOk(Run(Initial(limit), actions, hash).db, run, hash);
  }

  /** At most one thread can still write to the current attempt of a run, and an unfinished run has one
      unless its worker was lost. */
  lemma OneWriter(limit: nat, actions: seq<Action>, run: string, hash: Json -> Digest)
    ensures var w := Run(Initial(limit), actions, hash);
      && (forall i, j :: Owns(w, i, run) && Owns(w, j, run) ==> i == j)
      && (run in w.lost <==> run in w.db.runs && !Terminal(w.db.runs[run].stage) && forall j :: !Owns(w, j, run))
  {
    AlwaysInv(limit, actions, hash);
    var w := Run(Initial(limit), actions, hash);
    hide Owns, JobOk;
    assert Owned(w, run) <==> exists j :: Owns(w, j, run);
  }

  /** The job counter is the number of slots in use, stays within its limit, and is zero once all
      threads have ended. */
  lemma SlotsConserved(limit: nat, actions: seq<Action>, hash: Json -> Digest)
    ensures var w := Run(Initial(limit), actions, hash);
      && w.active == Slots(w.jobs) + w.ingests && 0 <= w.active <= limit
      && (w.jobs == map[] && w.ingests == 0 ==> w.active == 0)
  {
    AlwaysInv(limit, actions, hash);
    LimitFixed(limit, actions, hash);
    var w := Run(Initial(limit), actions, hash);
    assert w.jobs == map[] ==> Holders(w.jobs) == {};
  }

  lemma StepLimit(w: World, a: Action, hash: Json -> Digest)
    ensures Step(w, a, hash).limit == w.limit
  {
    hide Certified, UpdateRun, BeginRevalidation, SetApproval, MarkInterrupted;
  }

  lemma {:induction false} LimitFixed(limit: nat, actions: seq<Action>, hash: Json -> Digest)
    ensures Run(Initial(limit), actions, hash).limit == limit
  {
    hide Step;
    if actions != [] {
      LimitFixed(limit, actions[..|actions| - 1], hash);
      StepLimit(Run(Initial(limit), actions[..|actions| - 1], hash), actions[|actions| - 1], hash);
    }
  }
}
