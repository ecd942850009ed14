/** What the calls of the store and the steps of the service do to a run, column by column. */
module RunEffects {
  import opened Options
  import opened Evidence
  import opened Json
  import opened RunStages
  import opened RunStore
  import opened Lifecycle

  // ---- calls ----

  /** Nothing but one run changes. */
  predicate OnlyRun(db: Db, db': Db, run: string) {
    db'.runs.Keys == db.runs.Keys && forall r :: r in db.runs && r != run ==> db'.runs[r] == db.runs[r]
  }

  /** The columns a worker writes. */
  predicate WorkColumns(row: Row, record: Row) {
    && row.stage == record.stage && row.completedAt == record.completedAt && row.error == record.error
    && row.evidence == record.evidence && row.verdict == record.verdict && row.report == record.report
    && row.contract == record.contract
  }

  /** The columns that belong to decisions and bundles. */
  predicate SameDecision(row: Row, row': Row) {
    row'.approval == row.approval && row'.seal == row.seal && row'.bundle == row.bundle
  }

  /** `update_run`: a record of the stored attempt that does not go backwards, or a sanctioned reset, puts the
      worker's columns into its row and remembers its stage unless that is terminal. */
  lemma UpdateWrites(db: Db, run: string, record: Row, allowReset: bool)
    requires run in db.runs
    requires record.generation == db.runs[run].generation
    requires allowReset || ValidTransition(db.runs[run].stage, record.stage)
    ensures var db', row := UpdateRun(db, run, record, allowReset), db.runs[run];
      && UpdateReply(db, run, record, allowReset) == Done && db'.events == db.events && OnlyRun(db, db', run)
      && WorkColumns(db'.runs[run], record) && SameDecision(row, db'.runs[run])
      && db'.runs[run].generation == row.generation
      && db'.runs[run].lastStage == if record.stage in {COMPLETED, FAILED} then row.lastStage else Some(record.stage)
  {
    hide ValidTransition;
  }

  /** Any other record is refused, and why. */
  lemma UpdateRefuses(db: Db, run: string, record: Row, allowReset: bool)
    requires run in db.runs && record.generation == db.runs[run].generation ==>
      !allowReset && !ValidTransition(db.runs[run].stage, record.stage)
    ensures UpdateRun(db, run, record, allowReset) == db
    ensures UpdateReply(db, run, record, allowReset) ==
      if run !in db.runs then NotFound
      else if record.generation != db.runs[run].generation then Conflict
      else InvalidTransition
  {
    hide ValidTransition;
  }

  /** `set_run_approval`, bound to an attempt or to none. */
  lemma DecisionWrites(db: Db, run: string, approval: Approval, expected: Option<nat>)
    requires approval.state != PENDING
    ensures var db' := SetApproval(db, run, approval, expected);
      if run in db.runs && (expected == None || expected == Some(db.runs[run].generation)) then
        && BoundReply(db, run, expected) == Done && OnlyRun(db, db', run)
        && db'.runs[run] == db.runs[run].(approval := approval) && db'.events == db.events + [Decided(run, approval)]
      else db' == db && BoundReply(db, run, expected) == if run in db.runs then Conflict else NotFound
  {
  }

  lemma SealWrites(db: Db, run: string, seal: string, expected: Option<nat>)
    ensures var db' := SetSeal(db, run, seal, expected);
      && db'.events == db.events
      && if run in db.runs && (expected == None || expected == Some(db.runs[run].generation))
         then OnlyRun(db, db', run) && db'.runs[run] == db.runs[run].(seal := Some(seal))
         else db' == db
  {
  }

  lemma BundleWrites(db: Db, run: string, path: string, entrypoint: string, expected: Option<nat>)
    ensures var db' := SetGenerated(db, run, path, entrypoint, expected);
      && db'.events == db.events
      && if run in db.runs && (expected == None || expected == Some(db.runs[run].generation))
         then OnlyRun(db, db', run) && db'.runs[run] == db.runs[run].(bundle := Some((path, entrypoint)))
         else db' == db
  {
  }

  /** `begin_revalidation`: only a terminal run starts its next attempt; what the old one found, its approval
      and its seal are gone, report and bundle stay, and a discarded decision is logged. */
  lemma ResetWrites(db: Db, run: string, contract: Option<string>, now: string)
    ensures var db' := BeginRevalidation(db, run, contract, now);
      if run in db.runs && db.runs[run].stage in {COMPLETED, FAILED} then
        var row, row' := db.runs[run], db'.runs[run];
        && RevalidationReply(db, run) == Done && OnlyRun(db, db', run)
        && row'.stage == CREATED && row'.generation == row.generation + 1 && row'.completedAt == None
        && row'.error == None
        && row'.evidence == None && row'.verdict == None && row'.report == row.report && row'.contract == contract
        && row'.approval == Approval(PENDING, None, None, None) && row'.seal == None && row'.lastStage == None
        && row'.bundle == row.bundle
        && db'.events ==
             db.events + if row.approval.state == PENDING then [] else [Reset(run, row.generation + 1, now)]
      else db' == db && RevalidationReply(db, run) == if run in db.runs then Conflict else NotFound
  {
  }

  /** `mark_interrupted_runs`: the unfinished runs fail, with a message, and keep everything else. */
  lemma InterruptWrites(db: Db, now: string)
    ensures var db' := MarkInterrupted(db, now);
      && db'.events == db.events && db'.runs.Keys == db.runs.Keys
      && forall r :: r in db.runs ==>
           var row, row' := db.runs[r], db'.runs[r];
           if row.stage in {COMPLETED, FAILED} then row' == row
           else row' == row.(stage := FAILED, completedAt := Some(now),
                             error := Some("Interrupted by process restart before completion"))
  {
  }

  // ---- steps ----

  /** A slot is taken while there is one and given back with the thread. */
  lemma SlotSteps(w: World, j: nat, hash: Json -> Digest)
    ensures var v := Step(w, Acquire(j), hash);
      if j !in w.jobs && w.active < w.limit
      then v == w.(jobs := w.jobs[j := v.jobs[j]], active := w.active + 1) && v.jobs[j].phase == Reserved
        && v.jobs[j].slot
      else v == w
    ensures forall a :: a in {Refuse(j), Exit(j)} ==> var v := Step(w, a, hash);
      if j in w.jobs && w.jobs[j].phase == (if a == Refuse(j) then Reserved else Leaving)
      then v == w.(jobs := w.jobs - {j}, active := if w.jobs[j].slot then w.active - 1 else w.active)
      else v == w
    ensures Step(w, BeginIngest, hash) ==
      if w.active < w.limit then w.(ingests := w.ingests + 1, active := w.active + 1) else w
    ensures Step(w, EndIngest, hash) ==
      if w.ingests > 0 then w.(ingests := w.ingests - 1, active := w.active - 1) else w
  {
  }

  /** A new run is stored blank and its thread holds it; an existing one is left alone. */
  lemma NewRunStep(w: World, j: nat, run: string, hash: Json -> Digest)
    requires At(w, j, Reserved)
    ensures var v := Step(w, NewRun(j, run), hash);
      if run in w.db.runs then v.db == w.db && j !in v.jobs
      else
        && v.db.runs.Keys == w.db.runs.Keys + {run} && v.db.events == w.db.events
        && v.db.runs[run] == BLANK.(lastStage := Some(CREATED))
        && (forall r :: r in w.db.runs ==> v.db.runs[r] == w.db.runs[r])
        && v.jobs == w.jobs[j := Job(Created, w.jobs[j].slot, run, BLANK, false)]
  {
  }

  /** A reset that lands is held by its thread; a refused one ends it. */
  lemma ResetStep(w: World, j: nat, run: string, contract: Option<string>, now: string, hash: Json -> Digest)
    requires At(w, j, Reserved)
    ensures var v := Step(w, ResetRun(j, run, contract, now), hash);
      && v.db == BeginRevalidation(w.db, run, contract, now)
      && if run in w.db.runs && w.db.runs[run].stage in {COMPLETED, FAILED}
         then v.jobs == w.jobs[j := Job(Created, w.jobs[j].slot, run, v.db.runs[run], false)]
         else v.db == w.db && v.jobs == w.jobs - {j}
  {
    ResetWrites(w.db, run, contract, now);
    hide BeginRevalidation;
  }

  /** Starting the worker, or failing to: then the slot is back and the record says FAILED. */
  lemma LaunchSteps(w: World, j: nat, message: string, now: string, hash: Json -> Digest)
    requires At(w, j, Created)
    ensures Step(w, Launch(j), hash) == w.(jobs := w.jobs[j := w.jobs[j].(phase := Started)])
    ensures var v := Step(w, LaunchFails(j, message, now), hash);
      && v.db == w.db && v.active == (if w.jobs[j].slot then w.active - 1 else w.active)
      && v.jobs == w.jobs[j := w.jobs[j].(
           phase := Finishing, slot := false,
           record := w.jobs[j].record.(stage := FAILED, error := Some(message), completedAt := Some(now)))]
  {
  }

  /** The worker reads its run, or is stranded without it. */
  lemma LoadSteps(w: World, j: nat, hash: Json -> Digest)
    requires At(w, j, Started)
    ensures var v, run := Step(w, Load(j), hash), w.jobs[j].run;
      run in w.db.runs ==>
        v == w.(jobs := w.jobs[j := w.jobs[j].(phase := Working, record := w.db.runs[run])])
    ensures var v := Step(w, LoadFails(j), hash);
      v.db == w.db && v.active == w.active && v.jobs == w.jobs[j := w.jobs[j].(phase := Leaving)]
  {
  }

  /** Working changes the thread's record, and the store by the one call the step makes. */
  lemma WorkSteps(w: World, j: nat, hash: Json -> Digest)
    requires At(w, j, Working)
    ensures forall s, report, contract, arrives :: !Terminal(s) ==>
      var v := Step(w, Progress(j, s, report, contract, arrives), hash);
      && v.jobs.Keys == w.jobs.Keys
      && v.jobs[j].record == w.jobs[j].record.(stage := s, report := report, contract := contract)
      && v.jobs[j].sent == (w.jobs[j].sent || w.jobs[j].record.evidence.Some? || w.jobs[j].record.verdict.Some?)
      && v.db == if arrives then UpdateRun(w.db, w.jobs[j].run, v.jobs[j].record, false) else w.db
    ensures forall m, e :: !HasResult(w.jobs[j].record) ==>
      var v := Step(w, Produce(j, m, e), hash);
      v.db == w.db
        && v.jobs == w.jobs[j := w.jobs[j].(record := w.jobs[j].record.(evidence := Some(m), verdict := Some(e)))]
    ensures forall s, error, now :: Terminal(s) ==>
      var v := Step(w, Conclude(j, s, error, now), hash);
      && v.db == w.db
      && v.jobs == w.jobs[j := w.jobs[j].(
           phase := Finishing, record := w.jobs[j].record.(stage := s, error := error, completedAt := Some(now)))]
  {
    hide UpdateRun;
  }

  /** Bundles are named before there is a result, and sealed before it is sent; both go to the attempt of the
      record. */
  lemma ArtifactSteps(w: World, j: nat, hash: Json -> Digest)
    requires At(w, j, Working)
    ensures forall path, entrypoint :: !HasResult(w.jobs[j].record) ==>
      Step(w, Bundle(j, path, entrypoint, true), hash).db ==
        SetGenerated(w.db, w.jobs[j].run, path, entrypoint, Some(w.jobs[j].record.generation))
    ensures forall seal :: !w.jobs[j].sent ==>
      Step(w, Seal(j, seal, true), hash).db == SetSeal(w.db, w.jobs[j].run, seal, Some(w.jobs[j].record.generation))
    ensures forall path, entrypoint :: Step(w, Bundle(j, path, entrypoint, false), hash).db == w.db
    ensures forall seal :: Step(w, Seal(j, seal, false), hash).db == w.db
  {
    hide SetGenerated, SetSeal;
  }

  /** An attempt to persist sends the record; the thread leaves when it is done or gives up. */
  lemma FinalSteps(w: World, j: nat, settled: bool, hash: Json -> Digest)
    requires At(w, j, Finishing)
    ensures var v, job := Step(w, Persist(j, settled), hash), w.jobs[j];
      && v.db == UpdateRun(w.db, job.run, job.record, false) && v.lost == w.lost && v.active == w.active
      && v.jobs == w.jobs[j :=
           if settled && UpdateReply(w.db, job.run, job.record, false) == Done then job.(phase := Leaving) else job]
    ensures var v := Step(w, GiveUp(j), hash);
      && v.db == w.db && v.active == w.active && v.jobs == w.jobs[j := w.jobs[j].(phase := Leaving)]
  {
    hide UpdateRun;
  }

  /** A check is taken of a certified run whose seal is that of its bundle, and used up by its approval. */
  lemma ApprovalSteps(w: World, q: nat, run: string, bundle: Option<string>, approver: string, reason: Option<string>,
      now: string, hash: Json -> Digest)
    ensures var v := Step(w, BeginApproval(q, run, bundle), hash);
      if q !in w.checks && run in w.db.runs && Certified(w.db.runs[run], hash)
        && (bundle == None || w.db.runs[run].seal == bundle)
      then v == w.(checks := w.checks[q := Check(run, w.db.runs[run], bundle)])
      else v == w
    ensures q in w.checks ==>
      var v, c := Step(w, Approve(q, approver, reason, now), hash), w.checks[q];
      && v.checks == w.checks - {q} && v.jobs == w.jobs
      && v.db == SetApproval(w.db, c.run, Approval(APPROVED, Some(approver), reason, Some(now)), Some(c.row.generation))
  {
    hide Certified, SetApproval;
  }

  /** After a restart no thread is left and every unfinished run has failed. */
  lemma RestartStep(w: World, now: string, hash: Json -> Digest)
    ensures Step(w, Restart(now), hash) == World(MarkInterrupted(w.db, now), map[], map[], 0, 0, w.limit, {})
  {
  }
}
