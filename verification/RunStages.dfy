/** The run lifecycle stages of api/store.py. */
module RunStages {
  import opened Options

  datatype Stage =
    | CREATED | INGESTING | DISCOVERING | DISCOVERY_COMPLETED | ANALYZING | ANALYSIS_COMPLETED
    | PLANNING | PLAN_COMPLETED | TRANSFORMING | GENERATING | ASSEMBLING | ASSEMBLY_COMPLETED
    | EXECUTING_ORACLE | BUILDING | EXECUTING_GENERATED | COMPARING | VALIDATING_EVIDENCE | COMPLETED | FAILED

  const STAGE_ORDER: seq<Stage> := [
    CREATED, INGESTING, DISCOVERING, DISCOVERY_COMPLETED, ANALYZING, ANALYSIS_COMPLETED,
    PLANNING, PLAN_COMPLETED, TRANSFORMING, GENERATING, ASSEMBLING, ASSEMBLY_COMPLETED,
    EXECUTING_ORACLE, BUILDING, EXECUTING_GENERATED, COMPARING, VALIDATING_EVIDENCE, COMPLETED]

  predicate Terminal(s: Stage) { s == COMPLETED || s == FAILED }

  /** `_STAGE_INDEX.get`. */
  function StageIndex(s: Stage): (r: Option<nat>)
    ensures r.None? <==> s == FAILED
  {
    match s
    case CREATED => Some(0)
    case INGESTING => Some(1)
    case DISCOVERING => Some(2)
    case DISCOVERY_COMPLETED => Some(3)
    case ANALYZING => Some(4)
    case ANALYSIS_COMPLETED => Some(5)
    case PLANNING => Some(6)
    case PLAN_COMPLETED => Some(7)
    case TRANSFORMING => Some(8)
    case GENERATING => Some(9)
    case ASSEMBLING => Some(10)
    case ASSEMBLY_COMPLETED => Some(11)
    case EXECUTING_ORACLE => Some(12)
    case BUILDING => Some(13)
    case EXECUTING_GENERATED => Some(14)
    case COMPARING => Some(15)
    case VALIDATING_EVIDENCE => Some(16)
    case COMPLETED => Some(17)
    case FAILED => None
  }

  /** `is_valid_transition`. */
  predicate ValidTransition(current: Stage, target: Stage) {
    if current == target then true
    else if Terminal(current) then false
    else if target == FAILED then true
    else if target == COMPLETED then true
    else
      var c, t := StageIndex(current), StageIndex(target);
      c.Some? && t.Some? && t.value >= c.value
  }

  /** The permitted transitions are a partial order whose maximal stages are exactly the terminal ones:
      a run can only move forward, and nothing follows a terminal stage. */
  lemma TransitionsAreOrdered()
    ensures forall s :: ValidTransition(s, s)
    ensures forall s, t, u :: ValidTransition(s, t) && ValidTransition(t, u) ==> ValidTransition(s, u)
    ensures forall s, t :: ValidTransition(s, t) && ValidTransition(t, s) ==> s == t
    ensures forall s :: Terminal(s) <==> forall t :: ValidTransition(s, t) ==> t == s
  {
    forall s, t, u | ValidTransition(s, t) && ValidTransition(t, u)
      ensures ValidTransition(s, u)
    {
      Transitive(s, t, u);
    }
    forall s, t | ValidTransition(s, t) && ValidTransition(t, s) ensures s == t { Antisymmetric(s, t); }
    forall s ensures Terminal(s) <==> forall t :: ValidTransition(s, t) ==> t == s {
      if !Terminal(s) { assert ValidTransition(s, FAILED); }
    }
  }

  /** A step forward between stages that are not terminal. */
  lemma ForwardStep(s: Stage, t: Stage)
    requires !Terminal(s) && !Terminal(t)
    ensures StageIndex(s).Some? && StageIndex(t).Some?
    ensures ValidTransition(s, t) <==> StageIndex(s).value <= StageIndex(t).value
  {
    hide StageIndex;
  }

  lemma Transitive(s: Stage, t: Stage, u: Stage)
    requires ValidTransition(s, t) && ValidTransition(t, u)
    ensures ValidTransition(s, u)
  {
    if s != t && t != u && !Terminal(u) {
      assert !Terminal(s) && !Terminal(t);
      hide StageIndex, ValidTransition;
      ForwardStep(s, t);
      ForwardStep(t, u);
      ForwardStep(s, u);
    }
  }

  lemma Antisymmetric(s: Stage, t: Stage)
    requires ValidTransition(s, t) && ValidTransition(t, s)
    ensures s == t
  {
    hide StageIndex;
    SameIndex(s, t);
  }

  /** The index is the place in `STAGE_ORDER`, so a place belongs to one stage. */
  lemma IndexIsPlace(s: Stage)
    ensures s == FAILED || (StageIndex(s).value < |STAGE_ORDER| && STAGE_ORDER[StageIndex(s).value] == s)
  {
  }

  predicate HasPlace(s: Stage, i: int) { 0 <= i < |STAGE_ORDER| && STAGE_ORDER[i] == s }

  lemma PlaceIsIndex(s: Stage, i: nat)
    ensures HasPlace(s, i) <==> StageIndex(s) == Some(i)
  {
    IndexIsPlace(s);
    if HasPlace(s, i) { PlacesDiffer(); }
  }

  /** A transition keeps the stage, ends a run that goes on, or goes to a later place in `STAGE_ORDER`. */
  lemma TransitionsExactly(s: Stage, t: Stage)
    ensures ValidTransition(s, t) <==>
      || s == t
      || (s != COMPLETED && s != FAILED
          && (t == COMPLETED || t == FAILED || Precedes(s, t)))
  {
    hide Precedes, StageIndex;
    if !Terminal(s) && !Terminal(t) {
      ForwardStep(s, t);
      PrecedesByIndex(s, t);
      SameIndex(s, t);
    }
  }

  /** `s` has an earlier place in `STAGE_ORDER` than `t`. */
  ghost predicate Precedes(s: Stage, t: Stage) { exists i, j :: HasPlace(s, i) && HasPlace(t, j) && i < j }

  lemma PrecedesByIndex(s: Stage, t: Stage)
    requires StageIndex(s).Some? && StageIndex(t).Some?
    ensures Precedes(s, t) <==> StageIndex(s).value < StageIndex(t).value
  {
    hide StageIndex, HasPlace;
    var m, n := StageIndex(s).value, StageIndex(t).value;
    PlaceIsIndex(s, m);
    PlaceIsIndex(t, n);
    forall i, j | HasPlace(s, i) && HasPlace(t, j) ensures i == m && j == n {
      OnlyPlace(s, i);
      OnlyPlace(t, j);
    }
  }

  lemma OnlyPlace(s: Stage, i: int)
    requires HasPlace(s, i)
    ensures StageIndex(s) == Some(i)
  {
    PlaceNotNegative(s, i);
    hide StageIndex, HasPlace;
    PlaceIsIndex(s, i);
  }

  lemma PlaceNotNegative(s: Stage, i: int)
    requires HasPlace(s, i)
    ensures i >= 0
  {
  }

  lemma PlacesDiffer()
    ensures forall i :: 0 <= i < |STAGE_ORDER| ==> StageIndex(STAGE_ORDER[i]) == Some(i)
  {
  }

  lemma SameIndex(s: Stage, t: Stage)
    ensures StageIndex(s) == StageIndex(t) ==> s == t
  {
    hide StageIndex;
    IndexIsPlace(s);
    IndexIsPlace(t);
  }

  /** `_last_stage_anchor`: terminal stages leave the anchor alone. */
  function Anchor(stage: Stage, previous: Option<Stage>): Option<Stage> {
    if Terminal(stage) then previous else Some(stage)
  }

  /** The anchor of a run that went through these stages. */
  function AnchorAfter(stages: seq<Stage>): Option<Stage> {
    if stages == [] then None else Anchor(stages[|stages| - 1], AnchorAfter(stages[..|stages| - 1]))
  }

  /** The last stage that is not terminal. */
  predicate LastLive(stages: seq<Stage>, i: int) {
    0 <= i < |stages| && !Terminal(stages[i]) && forall j :: i < j < |stages| ==> Terminal(stages[j])
  }

  lemma LastLiveLonger(stages: seq<Stage>, n: nat, i: int)
    requires |stages| == n + 1 && LastLive(stages[..n], i) && Terminal(stages[n])
    ensures LastLive(stages, i) && stages[i] == stages[..n][i]
  {
    forall j | i < j < |stages| ensures Terminal(stages[j]) { if j < n { assert stages[..n][j] == stages[j]; } }
  }

  /** The anchor is the last stage that was not terminal: a run that stopped still shows where. */
  lemma {:induction false} AnchorRemembers(stages: seq<Stage>)
    ensures AnchorAfter(stages).None? <==> forall i :: 0 <= i < |stages| ==> Terminal(stages[i])
    ensures AnchorAfter(stages).Some? ==> exists i :: LastLive(stages, i) && stages[i] == AnchorAfter(stages).value
  {
    hide Terminal;
    if stages != [] {
      var n := |stages| - 1;
      AnchorRemembers(stages[..n]);
      assert forall j :: 0 <= j < n ==> stages[..n][j] == stages[j];
      if !Terminal(stages[n]) {
        assert LastLive(stages, n);
      } else if AnchorAfter(stages[..n]).Some? {
        var i :| LastLive(stages[..n], i) && stages[..n][i] == AnchorAfter(stages[..n]).value;
        LastLiveLonger(stages, n, i);
      }
    }
  }
}
