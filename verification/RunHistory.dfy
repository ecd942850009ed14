/** What holds between two moments of the run lifecycle, and where the columns of a run come from. */
module RunHistory {
  import opened Json
  import opened Options
  import Evidence
  import opened RunStages
  import opened RunStore
  import opened Lifecycle

  // ---- forward only ----

  /** `b` is a possible later state of the run than `a`: generations grow, and within one the stage only
      moves forward, a result never changes, and neither does a terminal run's; the bundle and the seal of
      a run with a result stay. */
  ghost predicate Later(a: Db, b: Db, run: string) {
    && a.events <= b.events
    && (run in a.runs ==>
          && run in b.runs && a.runs[run].generation <= b.runs[run].generation
          && (a.runs[run].generation == b.runs[run].generation ==> Onward(a.runs[run], b.runs[run])))
  }

  predicate Onward(a: Row, b: Row) {
    && ValidTransition(a.stage, b.stage) && (HasResult(a) || Terminal(a.stage) ==> SameResult(a, b))
    && (HasResult(a) ==> SameArtifacts(a, b))
  }

  lemma OnwardTransitive(a: Row, b: Row, c: Row)
    requires Onward(a, b) && Onward(b, c)
    ensures Onward(a, c)
  {
    Transitive(a.stage, b.stage, c.stage);
  }

  lemma LaterTransitive(a: Db, b: Db, c: Db, run: string)
    requires Later(a, b, run) && Later(b, c, run)
    ensures Later(a, c, run)
  {
    hide ValidTransition, HasResult, SameResult, SameArtifacts;
    if run in a.runs && a.runs[run].generation == c.runs[run].generation {
      OnwardTransitive(a.runs[run], b.runs[run], c.runs[run]);
    }
  }

  lemma SameIsLater(a: Db, b: Db, run: string)
    requires b.events == a.events && (run in a.runs ==> run in b.runs && SameProgress(a.runs[run], b.runs[run]))
    ensures Later(a, b, run)
  {
  }

  lemma SendLater(db: Db, job: Job, run: string)
    requires JobOk(db, job) && Live(job.phase)
    ensures Later(db, UpdateRun(db, job.run, job.record, false), run)
  {
  }

  lemma RevalidationLater(db: Db, id: string, contract: Option<string>, now: string, run: string)
    ensures Later(db, BeginRevalidation(db, id, contract, now), run)
  {
  }

  lemma ApprovalLater(db: Db, id: string, approval: Approval, expected: Option<nat>, run: string)
    ensures Later(db, SetApproval(db, id, approval, expected), run)
  {
  }

  lemma AddedLater(w: World, j: nat, id: string, run: string)
    requires At(w, j, Reserved)
    ensures Later(w.db, Added(w, j, id).db, run)
  {
  }

  lemma RevalidatedLater(w: World, j: nat, id: string, contract: Option<string>, now: string, run: string)
    requires At(w, j, Reserved)
    ensures Later(w.db, Revalidated(w, j, id, contract, now).db, run)
  {
    RevalidationLater(w.db, id, contract, now, run);
    hide Later, BeginRevalidation;
    SameIsLater(w.db, w.db, run);
  }

  lemma ProgressedLater(w: World, j: nat, s: Stage, report: Option<string>, contract: Option<string>, arrives: bool,
      run: string)
    requires JobsOk(w) && At(w, j, Working) && !Terminal(s)
    ensures Later(w.db, Progressed(w, j, s, report, contract, arrives).db, run)
  {
    assert JobOk(w.db, w.jobs[j]);
    SendLater(w.db, Progressed(w, j, s, report, contract, arrives).jobs[j], run);
    hide Later, UpdateRun;
    SameIsLater(w.db, w.db, run);
  }

  lemma PersistedLater(w: World, j: nat, settled: bool, run: string)
    requires JobsOk(w) && At(w, j, Finishing)
    ensures Later(w.db, Persisted(w, j, settled).db, run)
  {
    assert JobOk(w.db, w.jobs[j]);
    SendLater(w.db, w.jobs[j], run);
  }

  lemma BundledLater(w: World, j: nat, path: string, entrypoint: string, arrives: bool, run: string)
    requires JobsOk(w) && At(w, j, Working) && !HasResult(w.jobs[j].record)
    ensures Later(w.db, Bundled(w, j, path, entrypoint, arrives).db, run)
  {
    assert JobOk(w.db, w.jobs[j]);
  }

  lemma SealedLater(w: World, j: nat, seal: string, arrives: bool, run: string)
    requires JobsOk(w) && At(w, j, Working) && !w.jobs[j].sent
    ensures Later(w.db, Sealed(w, j, seal, arrives).db, run)
  {
    assert JobOk(w.db, w.jobs[j]);
  }

  lemma ApprovedLater(w: World, q: nat, approver: string, reason: Option<string>, now: string, run: string)
    ensures Later(w.db, Approved(w, q, approver, reason, now).db, run)
  {
    SameIsLater(w.db, w.db, run);
    if q in w.checks {
      ApprovalLater(w.db, w.checks[q].run, Approval(APPROVED, Some(approver), reason, Some(now)),
        Some(w.checks[q].row.generation), run);
    }
  }

  /** The actions that touch the store. */
  predicate Writes(a: Action) {
    || a.NewRun? || a.ResetRun? || a.Progress? || a.Bundle? || a.Seal? || a.Persist? || a.Approve? || a.Reject?
    || a.Restart?
  }

  lemma OthersKeepDb(w: World, a: Action, hash: Json -> Evidence.Digest)
    requires !Writes(a)
    ensures Step(w, a, hash).db == w.db
  {
  }

  /** A step of a worker. */
  lemma WorkLater(w: World, a: Action, run: string, hash: Json -> Evidence.Digest)
    requires JobsOk(w) && (a.Progress? || a.Persist? || a.Seal? || a.Bundle?)
    ensures Later(w.db, Step(w, a, hash).db, run)
  {
    hide Later, JobsOk, Progressed, Persisted, Bundled, Sealed;
    SameIsLater(w.db, w.db, run);
    match a
    case Progress(j, s, report, contract, arrives) => if At(w, j, Working) && !Terminal(s) {
      ProgressedLater(w, j, s, report, contract, arrives, run);
    }
    case Persist(j, settled) => if At(w, j, Finishing) { PersistedLater(w, j, settled, run); }
    case Seal(j, seal, arrives) => if At(w, j, Working) && !w.jobs[j].sent { SealedLater(w, j, seal, arrives, run); }
    case Bundle(j, path, entrypoint, arrives) => if At(w, j, Working) && !HasResult(w.jobs[j].record) {
      BundledLater(w, j, path, entrypoint, arrives, run);
    }
  }

  /** A step of a request, or a restart. */
  lemma RequestLater(w: World, a: Action, run: string, hash: Json -> Evidence.Digest)
    requires a.NewRun? || a.ResetRun? || a.Approve? || a.Reject? || a.Restart?
    ensures Later(w.db, Step(w, a, hash).db, run)
  {
    hide Later, Added, Revalidated, Approved, MarkInterrupted, SetApproval;
    SameIsLater(w.db, w.db, run);
    match a
    case NewRun(j, id) => if At(w, j, Reserved) { AddedLater(w, j, id, run); }
    case ResetRun(j, id, contract, now) => if At(w, j, Reserved) { RevalidatedLater(w, j, id, contract, now, run); }
    case Approve(q, approver, reason, now) => ApprovedLater(w, q, approver, reason, now, run);
    case Reject(id, approver, reason, now) =>
      ApprovalLater(w.db, id, Approval(REJECTED, Some(approver), reason, Some(now)), None, run);
    case Restart(now) => InterruptedLater(w.db, now, run);
  }

  lemma StepLater(w: World, a: Action, run: string, hash: Json -> Evidence.Digest)
    requires Inv(w, hash)
    ensures Later(w.db, Step(w, a, hash).db, run)
  {
    hide Later, Step, JobsOk;
    if !Writes(a) {
      OthersKeepDb(w, a, hash);
      SameIsLater(w.db, w.db, run);
    } else if a.Progress? || a.Persist? || a.Seal? || a.Bundle? {
      WorkLater(w, a, run, hash);
    } else {
      RequestLater(w, a, run, hash);
    }
  }

  lemma InterruptedLater(db: Db, now: string, run: string)
    ensures Later(db, MarkInterrupted(db, now), run)
  {
  }

  lemma RunOneMore(limit: nat, actions: seq<Action>, a: Action, hash: Json -> Evidence.Digest)
    ensures Run(Initial(limit), actions + [a], hash) == Step(Run(Initial(limit), actions, hash), a, hash)
  {
    assert (actions + [a])[..|actions|] == actions;
  }

  lemma OneStepForward(limit: nat, start: Db, actions: seq<Action>, a: Action, run: string,
      hash: Json -> Evidence.Digest)
    requires Later(start, Run(Initial(limit), actions, hash).db, run)
    ensures Later(start, Run(Initial(limit), actions + [a], hash).db, run)
  {
    hide Later, Inv, Step, Run;
    RunOneMore(limit, actions, a, hash);
    AlwaysInv(limit, actions, hash);
    var w := Run(Initial(limit), actions, hash);
    StepLater(w, a, run, hash);
    LaterTransitive(start, w.db, Step(w, a, hash).db, run);
  }

  /** Between any two moments of any execution a run only moves forward: a later attempt, or a later
      stage of the same one with the same result, and a longer approval log. */
  lemma {:induction false} OnlyForward(limit: nat, before: seq<Action>, after: seq<Action>, run: string,
      hash: Json -> Evidence.Digest)
    ensures Later(Run(Initial(limit), before, hash).db, Run(Initial(limit), before + after, hash).db, run)
    decreases |after|
  {
    hide Later, Run, Step;
    var start := Run(Initial(limit), before, hash).db;
    if after == [] {
      assert before + after == before;
      SameIsLater(start, start, run);
    } else {
      var n := |after| - 1;
      assert before + after == before + after[..n] + [after[n]];
      OnlyForward(limit, before, after[..n], run, hash);
      OneStepForward(limit, start, before + after[..n], after[n], run, hash);
    }
  }

  // ---- who writes ----

  /** The thread whose own step an action is. */
  function Actor(a: Action): Option<nat> {
    match a
    case Progress(j, _, _, _, _) => Some(j)
    case Bundle(j, _, _, _) => Some(j)
    case Seal(j, _, _) => Some(j)
    case Persist(j, _) => Some(j)
    case _ => None
  }

  ghost predicate ByOwner(w: World, a: Action, run: string) { Actor(a).Some? && Owns(w, Actor(a).value, run) }

  /** The approval of this very attempt. */
  predicate ApprovesAttempt(w: World, a: Action, run: string) {
    a.Approve? && a.request in w.checks && w.checks[a.request].run == run && run in w.db.runs
    && w.checks[a.request].row.generation == w.db.runs[run].generation
  }

  predicate Changes(db: Db, db': Db, run: string) {
    run in db.runs && (run !in db'.runs || db'.runs[run] != db.runs[run])
  }

  /** The action took this decision on the run as it is. */
  predicate Decides(w: World, a: Action, run: string, state: ApprovalState) {
    (state == APPROVED && ApprovesAttempt(w, a, run))
      || (state == REJECTED && a.Reject? && a.run == run && run in w.db.runs)
  }

  /** A step that changes a run is a restart, its reset, a rejection, an approval checked in the current
      attempt, or a step of the one thread that owns the current attempt: stale writes never land. */
  lemma StaleWritesNeverLand(w: World, a: Action, run: string, hash: Json -> Evidence.Digest)
    requires Inv(w, hash) && run in w.db.runs && Changes(w.db, Step(w, a, hash).db, run)
    ensures a.Restart? || (a.ResetRun? && a.run == run) || (a.Reject? && a.run == run) || ApprovesAttempt(w, a, run)
      || ByOwner(w, a, run)
  {
    hide ChecksOk, RowsOk, LostOk, SlotsOk, ValidTransition, Certified, Step;
    if Actor(a).Some? {
      OnlyOwnRun(w, a, run, hash);
    } else if Writes(a) {
      OnlyBoundRun(w, a, run, hash);
    } else {
      OthersKeepDb(w, a, hash);
    }
  }

  /** A worker changes only the run it owns. */
  lemma OnlyOwnRun(w: World, a: Action, run: string, hash: Json -> Evidence.Digest)
    requires JobsOk(w) && run in w.db.runs && Changes(w.db, Step(w, a, hash).db, run) && Actor(a).Some?
    ensures ByOwner(w, a, run)
  {
    hide ValidTransition;
  }

  /** A request changes only the run it is about. */
  lemma OnlyBoundRun(w: World, a: Action, run: string, hash: Json -> Evidence.Digest)
    requires run in w.db.runs && Changes(w.db, Step(w, a, hash).db, run) && Actor(a).None? && Writes(a)
    ensures a.Restart? || (a.ResetRun? && a.run == run) || (a.Reject? && a.run == run) || ApprovesAttempt(w, a, run)
  {
    hide ValidTransition, Certified;
  }

  // ---- where results, seals and approvals come from ----

  /** The moment before action `n`. */
  ghost function Before(limit: nat, actions: seq<Action>, n: nat, hash: Json -> Evidence.Digest): World
    requires n <= |actions|
  {
    Run(Initial(limit), actions[..n], hash)
  }

  /** Action `n` was taken in the attempt the run is in at the end. */
  ghost predicate InAttempt(limit: nat, actions: seq<Action>, n: nat, run: string, hash: Json -> Evidence.Digest)
    requires n <= |actions|
  {
    var earlier, final := Before(limit, actions, n, hash).db, Run(Initial(limit), actions, hash).db;
    run in earlier.runs && run in final.runs && earlier.runs[run].generation == final.runs[run].generation
  }

  /** What the last step did to the columns that matter: nothing, or what its kind of action may do. */
  ghost predicate Accountable(w: World, a: Action, v: World, run: string) {
    run in v.db.runs ==>
      var row := v.db.runs[run];
      && (HasResult(row) ==>
         (run in w.db.runs && w.db.runs[run].generation == row.generation
         && (SameResult(w.db.runs[run], row) || ByOwner(w, a, run))))
      && (row.seal.Some? ==>
         (run in w.db.runs && w.db.runs[run].generation == row.generation
         && (w.db.runs[run].seal == row.seal || ByOwner(w, a, run))))
      && (row.approval.state != PENDING ==>
            && run in w.db.runs && w.db.runs[run].generation == row.generation
            && (w.db.runs[run].approval == row.approval || Decides(w, a, run, row.approval.state)))
  }

  lemma AppearsClean(w: World, a: Action, run: string, hash: Json -> Evidence.Digest)
    requires run !in w.db.runs && run in Step(w, a, hash).db.runs
    ensures var row := Step(w, a, hash).db.runs[run]; !HasResult(row) && row.seal.None? && row.approval == UNDECIDED
  {
    hide ValidTransition, Certified;
  }

  /** A reset leaves nothing of the attempt before. */
  lemma ResetIsClean(w: World, a: Action, run: string, hash: Json -> Evidence.Digest)
    requires a.ResetRun? && a.run == run && Changes(w.db, Step(w, a, hash).db, run)
    ensures run in Step(w, a, hash).db.runs
    ensures var row := Step(w, a, hash).db.runs[run];
      !HasResult(row) && row.seal.None? && row.approval == UNDECIDED && row.stage == CREATED
        && row.generation == w.db.runs[run].generation + 1
  {
    hide ValidTransition, Certified;
  }

  /** Restarts, rejections and approvals change neither results nor seals, and only a decision changes
      the approval. */
  lemma DecisionKeepsResult(w: World, a: Action, run: string, hash: Json -> Evidence.Digest)
    requires (a.Restart? || a.Reject? || a.Approve?) && run in w.db.runs
    ensures run in Step(w, a, hash).db.runs
    ensures var row, row' := w.db.runs[run], Step(w, a, hash).db.runs[run];
      && row'.generation == row.generation && SameResult(row, row') && row'.seal == row.seal
      && (row'.approval != row.approval ==>
         !a.Restart? && row'.approval.state == if a.Reject? then REJECTED else APPROVED)
  {
    hide ValidTransition, Certified;
  }

  /** An owner's step changes no generation and no approval. */
  lemma OwnerKeepsAttempt(w: World, a: Action, run: string, hash: Json -> Evidence.Digest)
    requires ByOwner(w, a, run)
    ensures var v := Step(w, a, hash);
      run in v.db.runs && v.db.runs[run].generation == w.db.runs[run].generation
      && v.db.runs[run].approval == w.db.runs[run].approval
  {
    hide ValidTransition, Certified;
  }

  lemma StepAccountable(w: World, a: Action, run: string, hash: Json -> Evidence.Digest)
    requires Inv(w, hash)
    ensures Accountable(w, a, Step(w, a, hash), run)
  {
    hide Step, Inv, Owns;
    var v := Step(w, a, hash);
    if run in v.db.runs {
      if run !in w.db.runs {
        AppearsClean(w, a, run, hash);
      } else if v.db.runs[run] != w.db.runs[run] {
        StaleWritesNeverLand(w, a, run, hash);
        if a.Restart? || a.Reject? || a.Approve? {
          DecisionKeepsResult(w, a, run, hash);
        } else if ByOwner(w, a, run) {
          OwnerKeepsAttempt(w, a, run, hash);
        } else {
          ResetIsClean(w, a, run, hash);
        }
      }
    }
  }

  /** An owner's action of this attempt put the result there. */
  ghost predicate Produces(limit: nat, actions: seq<Action>, n: nat, run: string, hash: Json -> Evidence.Digest) {
    n < |actions| && InAttempt(limit, actions, n, run, hash)
      && ByOwner(Before(limit, actions, n, hash), actions[n], run)
  }

  /** A decision of this attempt put the approval there. */
  ghost predicate DecidedAt(limit: nat, actions: seq<Action>, n: nat, run: string, state: ApprovalState,
      hash: Json -> Evidence.Digest) {
    n < |actions| && InAttempt(limit, actions, n, run, hash)
      && Decides(Before(limit, actions, n, hash), actions[n], run, state)
  }

  /** The last step as an action of the whole. */
  lemma LastStep(limit: nat, actions: seq<Action>, hash: Json -> Evidence.Digest)
    requires actions != []
    ensures var n := |actions| - 1;
      Before(limit, actions, n, hash) == Run(Initial(limit), actions[..n], hash)
      && Run(Initial(limit), actions, hash) == Step(Before(limit, actions, n, hash), actions[n], hash)
  {
  }

  lemma EarlierMoment(limit: nat, actions: seq<Action>, n: nat, hash: Json -> Evidence.Digest)
    requires actions != [] && n < |actions| - 1
    ensures Before(limit, actions[..|actions| - 1], n, hash) == Before(limit, actions, n, hash)
      && actions[..|actions| - 1][n] == actions[n]
  {
    assert actions[..|actions| - 1][..n] == actions[..n];
  }

  /** A stored result, seal or decision always belongs to the attempt the run is in: a thread that owned
      this attempt wrote the result and the seal, an approval was checked in this attempt, and a
      rejection was made in it. */
  lemma {:induction false} ColumnsAreOfThisAttempt(limit: nat, actions: seq<Action>, run: string,
      hash: Json -> Evidence.Digest)
    requires run in Run(Initial(limit), actions, hash).db.runs
    ensures var row := Run(Initial(limit), actions, hash).db.runs[run];
      && (HasResult(row) || row.seal.Some? ==> exists n: nat :: Produces(limit, actions, n, run, hash))
      && (row.approval.state != PENDING ==>
         exists n: nat :: DecidedAt(limit, actions, n, run, row.approval.state, hash))
  {
    if actions != [] {
      var n := |actions| - 1;
      var less := actions[..n];
      LastStep(limit, actions, hash);
      AlwaysInv(limit, less, hash);
      hide Inv, Step, ByOwner, Decides;
      var w := Before(limit, actions, n, hash);
      StepAccountable(w, actions[n], run, hash);
      if run in w.db.runs && w.db.runs[run].generation == Run(Initial(limit), actions, hash).db.runs[run].generation {
        ColumnsAreOfThisAttempt(limit, less, run, hash);
        StillThere(limit, actions, run, hash);
        var row := Run(Initial(limit), actions, hash).db.runs[run];
        if HasResult(row) || row.seal.Some? {
          if ByOwner(w, actions[n], run) {
            assert Produces(limit, actions, n, run, hash);
          } else {
            var m: nat :| Produces(limit, less, m, run, hash);
            assert Produces(limit, actions, m, run, hash);
          }
        }
        if row.approval.state != PENDING {
          var state := row.approval.state;
          if Decides(w, actions[n], run, state) {
            assert DecidedAt(limit, actions, n, run, state, hash);
          } else {
            var m: nat :| DecidedAt(limit, less, m, run, state, hash);
            assert DecidedAt(limit, actions, m, run, state, hash);
          }
        }
      }
    }
  }

  /** What happened in this attempt stays so while the attempt lasts. */
  lemma StillThere(limit: nat, actions: seq<Action>, run: string, hash: Json -> Evidence.Digest)
    requires actions != []
    requires var v, w := Run(Initial(limit), actions, hash).db, Run(Initial(limit), actions[..|actions| - 1], hash).db;
      run in v.runs && run in w.runs && v.runs[run].generation == w.runs[run].generation
    ensures forall n: nat :: Produces(limit, actions[..|actions| - 1], n, run, hash) ==>
      Produces(limit, actions, n, run, hash)
    ensures forall n: nat, state ::
      DecidedAt(limit, actions[..|actions| - 1], n, run, state, hash) ==> DecidedAt(limit, actions, n, run, state, hash)
  {
    hide Step, ByOwner, Decides, Run;
    forall n: nat | n < |actions| - 1
      ensures Before(limit, actions[..|actions| - 1], n, hash) == Before(limit, actions, n, hash)
      && actions[..|actions| - 1][n] == actions[n] {
      EarlierMoment(limit, actions, n, hash);
    }
  }
  // ---- what an approval was checked against ----

  /** The approval taken by action `n` was checked against the row as it is now: the same result, the
      same bundle and the same seal, which was that of the bundle on disk if there was one. */
  ghost predicate CheckedAsIs(w: World, a: Action, row: Row) {
    a.Approve? && a.request in w.checks &&
    var c := w.checks[a.request];
    SameResult(c.row, row) && SameArtifacts(c.row, row) && Matches(row, c.bundle)
  }

  lemma CheckStillHolds(w: World, a: Action, run: string, hash: Json -> Evidence.Digest)
    requires Inv(w, hash) && ApprovesAttempt(w, a, run)
    ensures CheckedAsIs(w, a, w.db.runs[run]) && HasResult(w.db.runs[run])
  {
    hide RowsOk, JobsOk, LostOk, SlotsOk, Certified;
    var c := w.checks[a.request];
    assert CheckOk(w.db, c, hash);
    CertifiedHasResult(c.row, hash);
  }

  lemma CertifiedHasResult(row: Row, hash: Json -> Evidence.Digest)
    requires Certified(row, hash)
    ensures HasResult(row)
  {
  }

  /** In every reachable state the bundle and the seal of an APPROVED run are the ones its approval was
      checked against, in this attempt. */
  lemma ApprovedIsAsChecked(limit: nat, actions: seq<Action>, run: string, hash: Json -> Evidence.Digest)
    requires var db := Run(Initial(limit), actions, hash).db; run in db.runs && db.runs[run].approval.state == APPROVED
    ensures exists n: nat ::
      && DecidedAt(limit, actions, n, run, APPROVED, hash)
      && CheckedAsIs(Before(limit, actions, n, hash), actions[n], Run(Initial(limit), actions, hash).db.runs[run])
  {
    hide Run, Inv, CheckedAsIs;
    ColumnsAreOfThisAttempt(limit, actions, run, hash);
    var n: nat :| DecidedAt(limit, actions, n, run, APPROVED, hash);
    var w := Before(limit, actions, n, hash);
    AlwaysInv(limit, actions[..n], hash);
    CheckStillHolds(w, actions[n], run, hash);
    assert actions[..n] + actions[n..] == actions;
    OnlyForward(limit, actions[..n], actions[n..], run, hash);
    CheckCarries(w, actions[n], w.db.runs[run], Run(Initial(limit), actions, hash).db.runs[run]);
  }

  lemma CheckCarries(w: World, a: Action, row: Row, row': Row)
    requires CheckedAsIs(w, a, row) && HasResult(row) && Onward(row, row')
    ensures CheckedAsIs(w, a, row')
  {
    hide ValidTransition;
  }
}
