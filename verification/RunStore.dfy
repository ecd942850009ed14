/** The runs of api/store.py: each method of `Store` is one locked, atomic change of the run table and
    of the append-only approval log. */
module RunStore {
  import opened Options
  import opened Evidence
  import Verdicts
  import opened RunStages

  datatype ApprovalState = PENDING | APPROVED | REJECTED

  datatype Approval = Approval(state: ApprovalState, approver: Option<string>, reason: Option<string>,
      decidedAt: Option<string>)

  const UNDECIDED := Approval(PENDING, None, None, None)

  /** A run record: a row of the table, or a worker's copy of one. */
  datatype Row = Row(
    stage: Stage, generation: nat, completedAt: Option<string>, error: Option<string>,
    evidence: Option<Manifest>, verdict: Option<Verdicts.Verdict>, report: Option<string>, contract: Option<string>,
    approval: Approval, seal: Option<string>, lastStage: Option<Stage>, bundle: Option<(string, string)>)

  datatype Event = Decided(run: string, approval: Approval) | Reset(run: string, generation: nat, at: string)

  datatype Db = Db(runs: map<string, Row>, events: seq<Event>)

  datatype Reply = Done | NotFound | Conflict | InvalidTransition | InvalidDecision

  // ---- what each call does ----

  function AddRun(db: Db, id: string, record: Row): Db {
    if id in db.runs then db
    else db.(runs := db.runs[id := record.(lastStage := Anchor(record.stage, record.lastStage))])
  }

  function UpdateReply(db: Db, id: string, record: Row, allowReset: bool): Reply {
    if id !in db.runs then NotFound
    else if record.generation != db.runs[id].generation then Conflict
    else if !allowReset && !ValidTransition(db.runs[id].stage, record.stage) then InvalidTransition
    else Done
  }

  /** The columns `update_run` writes; approval, seal and bundle are not among them. */
  function Written(row: Row, record: Row): Row {
    row.(stage := record.stage, completedAt := record.completedAt, error := record.error, evidence := record.evidence,
         verdict := record.verdict, report := record.report, contract := record.contract,
         lastStage := Anchor(record.stage, row.lastStage))
  }

  function UpdateRun(db: Db, id: string, record: Row, allowReset: bool): Db {
    if UpdateReply(db, id, record, allowReset).Done? then db.(runs := db.runs[id := Written(db.runs[id], record)])
    else db
  }

  /** The reply to a write bound to a validation attempt, or to none. */
  function BoundReply(db: Db, id: string, expected: Option<nat>): Reply {
    if id !in db.runs then NotFound
    else if expected.Some? && expected.value != db.runs[id].generation then Conflict
    else Done
  }

  function SetApproval(db: Db, id: string, approval: Approval, expected: Option<nat>): Db {
    if approval.state == PENDING || !BoundReply(db, id, expected).Done? then db
    else Db(db.runs[id := db.runs[id].(approval := approval)], db.events + [Decided(id, approval)])
  }

  function SetSeal(db: Db, id: string, seal: string, expected: Option<nat>): Db {
    if BoundReply(db, id, expected).Done? then db.(runs := db.runs[id := db.runs[id].(seal := Some(seal))]) else db
  }

  function SetGenerated(db: Db, id: string, path: string, entrypoint: string, expected: Option<nat>): Db {
    if BoundReply(db, id, expected).Done? then
      db.(runs := db.runs[id := db.runs[id].(bundle := Some((path, entrypoint)))])
    else db
  }

  function RevalidationReply(db: Db, id: string): Reply {
    if id !in db.runs then NotFound else if !Terminal(db.runs[id].stage) then Conflict else Done
  }

  /** A row at the start of its next attempt. */
  function ResetRow(row: Row, contract: Option<string>): Row {
    Row(CREATED, row.generation + 1, None, None, None, None, row.report, contract, UNDECIDED, None, None, row.bundle)
  }

  function BeginRevalidation(db: Db, id: string, contract: Option<string>, now: string): Db {
    if !RevalidationReply(db, id).Done? then db
    else
      var row := db.runs[id];
      Db(db.runs[id := ResetRow(row, contract)],
         if row.approval.state == PENDING then db.events else db.events + [Reset(id, row.generation + 1, now)])
  }

  const INTERRUPTED: string := "Interrupted by process restart before completion"

  function InterruptedRow(row: Row, now: string): Row {
    if Terminal(row.stage) then row else row.(stage := FAILED, completedAt := Some(now), error := Some(INTERRUPTED))
  }

  function MarkInterrupted(db: Db, now: string): Db {
    db.(runs := map id | id in db.runs :: InterruptedRow(db.runs[id], now))
  }

  // ---- the store ----

  class Store {
    var runs: map<string, Row>
    var events: seq<Event>

    ghost function View(): Db
      reads this
    {
      Db(runs, events)
    }

    constructor ()
      ensures View() == Db(map[], [])
    {
      runs, events := map[], [];
    }

    /** `add_run`. */
    method Add(id: string, record: Row) returns (r: Reply)
      modifies this`runs
      ensures View() == AddRun(old(View()), id, record)
      ensures r == if id in old(runs) then Conflict else Done
    {
      if id in runs {
        return Conflict;
      }
      runs := runs[id := record.(lastStage := Anchor(record.stage, record.lastStage))];
      return Done;
    }

    /** `update_run`: the anchor first, then the remaining columns. */
    method Update(id: string, record: Row, allowReset: bool) returns (r: Reply)
      modifies this`runs
      ensures r == UpdateReply(old(View()), id, record, allowReset)
      ensures View() == UpdateRun(old(View()), id, record, allowReset)
    {
      if id !in runs {
        return NotFound;
      }
      if record.generation != runs[id].generation {
        return Conflict;
      }
      if !allowReset && !ValidTransition(runs[id].stage, record.stage) {
        return InvalidTransition;
      }
      var anchor := Anchor(record.stage, runs[id].lastStage);
      if anchor != runs[id].lastStage {
        runs := runs[id := runs[id].(lastStage := anchor)];
      }
      runs := runs[id := runs[id].(
        stage := record.stage, completedAt := record.completedAt, error := record.error, evidence := record.evidence,
        verdict := record.verdict, report := record.report, contract := record.contract)];
      assert View() == UpdateRun(old(View()), id, record, allowReset);
      return Done;
    }

    /** `set_run_approval`: the decision on the row, and in the log. */
    method Decide(id: string, state: ApprovalState, approver: string, reason: Option<string>, expected: Option<nat>,
        now: string) returns (r: Reply)
      modifies this
      ensures r == if state == PENDING then InvalidDecision else BoundReply(old(View()), id, expected)
      ensures View() == SetApproval(old(View()), id, Approval(state, Some(approver), reason, Some(now)), expected)
    {
      if state == PENDING {
        return InvalidDecision;
      }
      if id !in runs {
        return NotFound;
      }
      if expected.Some? && runs[id].generation != expected.value {
        return Conflict;
      }
      var approval := Approval(state, Some(approver), reason, Some(now));
      runs := runs[id := runs[id].(approval := approval)];
      events := events + [Decided(id, approval)];
      return Done;
    }

    /** `set_generated_seal`. */
    method Seal(id: string, seal: string, expected: Option<nat>) returns (r: Reply)
      modifies this`runs
      ensures r == BoundReply(old(View()), id, expected)
      ensures View() == SetSeal(old(View()), id, seal, expected)
    {
      if id !in runs {
        return NotFound;
      }
      if expected.Some? && runs[id].generation != expected.value {
        return Conflict;
      }
      runs := runs[id := runs[id].(seal := Some(seal))];
      return Done;
    }

    /** `set_run_generated`. */
    method Generated(id: string, path: string, entrypoint: string, expected: Option<nat>) returns (r: Reply)
      modifies this`runs
      ensures r == BoundReply(old(View()), id, expected)
      ensures View() == SetGenerated(old(View()), id, path, entrypoint, expected)
    {
      if id !in runs {
        return NotFound;
      }
      if expected.Some? && runs[id].generation != expected.value {
        return Conflict;
      }
      runs := runs[id := runs[id].(bundle := Some((path, entrypoint)))];
      return Done;
    }

    /** `begin_revalidation`. */
    method Revalidate(id: string, contract: Option<string>, now: string) returns (r: Reply)
      modifies this
      ensures r == RevalidationReply(old(View()), id)
      ensures View() == BeginRevalidation(old(View()), id, contract, now)
    {
      if id !in runs {
        return NotFound;
      }
      var row := runs[id];
      if !Terminal(row.stage) {
        return Conflict;
      }
      runs := runs[id := row.(
        stage := CREATED, completedAt := None, error := None, evidence := None, verdict := None,
        generation := row.generation + 1, contract := contract, approval := UNDECIDED, seal := None,
        lastStage := None)];
      if row.approval.state != PENDING {
        events := events + [Reset(id, row.generation + 1, now)];
      }
      return Done;
    }

    /** `mark_interrupted_runs`. */
    method Interrupt(now: string) returns (count: nat)
      modifies this`runs
      ensures View() == MarkInterrupted(old(View()), now)
      ensures count == |set id | id in old(runs) && !Terminal(old(runs)[id].stage)|
    {
      var rest := set id | id in runs && !Terminal(runs[id].stage);
      count := |rest|;
      while rest != {}
        invariant runs.Keys == old(runs).Keys
        invariant rest <= old(runs).Keys && forall id :: id in rest ==>
          runs[id] == old(runs)[id] && !Terminal(runs[id].stage)
        invariant forall id :: id in runs && id !in rest ==> runs[id] == InterruptedRow(old(runs)[id], now)
        decreases rest
      {
        var id :| id in rest;
        runs := runs[id := runs[id].(stage := FAILED, completedAt := Some(now), error := Some(INTERRUPTED))];
        rest := rest - {id};
      }
      assert runs == MarkInterrupted(old(View()), now).runs;
    }
  }

  /** How an attempt to persist goes: to its end, or into an exception before or after the write. */
  datatype Course = Smooth | FailsBefore | FailsAfter

  /** A write that landed is accepted again and then changes nothing. */
  lemma RewritingChangesNothing(db: Db, id: string, record: Row)
    requires UpdateReply(db, id, record, false).Done?
    ensures var db' := UpdateRun(db, id, record, false);
      UpdateReply(db', id, record, false).Done? && UpdateRun(db', id, record, false) == db'
  {
    var row := Written(db.runs[id], record);
    assert Written(row, record) == row;
  }

  /** `_persist_final` of api/service.py: three attempts.  It reports success exactly when the store
      accepts the record and an attempt goes smoothly; the record is stored exactly when the store
      accepts it and some attempt reached the store, even if none is known to have succeeded. */
  method PersistFinal(store: Store, id: string, record: Row, courses: seq<Course>) returns (landed: bool)
    requires |courses| == 3
    modifies store`runs
    ensures landed <==> UpdateReply(old(store.View()), id, record, false).Done? && Smooth in courses
    ensures store.View() ==
      if Smooth in courses || FailsAfter in courses then UpdateRun(old(store.View()), id, record, false)
      else old(store.View())
  {
    ghost var db, db' := store.View(), UpdateRun(store.View(), id, record, false);
    if UpdateReply(db, id, record, false).Done? { RewritingChangesNothing(db, id, record); }
    hide UpdateReply, UpdateRun, Store.View;
    for attempt := 0 to 3
      invariant store.View() == if FailsAfter in courses[..attempt] || Smooth in courses[..attempt] then db' else db
      invariant UpdateReply(db, id, record, false).Done? ==> Smooth !in courses[..attempt]
    {
      assert courses[..attempt + 1] == courses[..attempt] + [courses[attempt]];
      if courses[attempt] != FailsBefore {
        var reply := store.Update(id, record, false);
        if reply.Done? && courses[attempt] == Smooth {
          return true;
        }
      }
    }
    assert courses[..3] == courses;
    return false;
  }
}
