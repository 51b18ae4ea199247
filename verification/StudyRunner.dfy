/**
 * The corpus study runner: one study as a row of stages, each with its work units, and the
 * table of model calls. The cohort is fixed while the study runs.
 */
module StudyRunner {
  import opened Common

  datatype Stage = GoldenThree | ChapterExtraction | AggregateMechanisms | StoryEntities | Report | StyleProfile

  datatype Status = Confirmed | Running | PausedGoldenThree | Complete

  datatype CallState = Dispatched | Settled | Unconfirmed

  datatype Call = Call(callId: string, requestId: string, stage: Stage, unitKey: string, state: CallState)

  /** A checkpoint fingerprint, kept as the data it is computed from. */
  datatype Checkpoint =
    | AtStart
    | AtStage(stage: Stage, binding: string)
    | AtPause(binding: string)
    | Continued(from: Checkpoint, authorization: string)

  datatype Study = Study(stage: Stage, status: Status, checkpoint: Checkpoint, calls: seq<Call>, queue: seq<string>)

  const START := Study(GoldenThree, Confirmed, AtStart, [], [])

  datatype StudyError =
    | Paused | UnconfirmedOutcome | InputRefused | NoSuchCall | ResultMismatch | OutputInvalid
    | UnitsInvalid | EvidenceMissing | PackRefused | CheckpointChanged | NotAuthorized

  /** The model's typed answer, as far as the runner looks at it. */
  datatype Output = Output(kind: Stage, complete: bool, expanding: bool, next: seq<string>, hasStopReason: bool)

  /** The work units of each stage, in order. */
  type Plan = Stage -> seq<string>

  function NextStage(stage: Stage): Option<Stage>
  {
    match stage
    case GoldenThree => Some(ChapterExtraction)
    case ChapterExtraction => Some(AggregateMechanisms)
    case AggregateMechanisms => Some(StoryEntities)
    case StoryEntities => Some(Report)
    case Report => Some(StyleProfile)
    case StyleProfile => None
  }

  function Ordinal(stage: Stage): nat
  {
    match stage
    case GoldenThree => 1
    case ChapterExtraction => 2
    case AggregateMechanisms => 3
    case StoryEntities => 4
    case Report => 5
    case StyleProfile => 6
  }

  // ----- Looking calls up -----

  predicate IsFor(c: Call, stage: Stage, unitKey: string) { c.stage == stage && c.unitKey == unitKey }

  function StateOf(calls: seq<Call>, stage: Stage, unitKey: string): Option<CallState>
  {
    if calls == [] then None
    else if IsFor(calls[0], stage, unitKey) then Some(calls[0].state)
    else StateOf(calls[1..], stage, unitKey)
  }

  function ConfirmedUnits(calls: seq<Call>, stage: Stage): set<string>
  {
    set c | c in calls && c.stage == stage && c.state == Settled :: c.unitKey
  }

  predicate HasCalls(calls: seq<Call>, stage: Stage)
  {
    exists c | c in calls :: c.stage == stage
  }

  datatype Scan = Blocked | Exhausted | Pending(unitKey: string)

  /** Skips confirmed units; an unsettled one blocks, and the first without a call is next. */
  function ScanUnits(calls: seq<Call>, stage: Stage, units: seq<string>): Scan
  {
    if units == [] then Exhausted
    else
      match StateOf(calls, stage, units[0])
      case Some(Settled) => ScanUnits(calls, stage, units[1..])
      case Some(_) => Blocked
      case None => Pending(units[0])
  }

  /** The units a dispatch looks at: in chapter extraction the first one, then the requested queue. */
  function Offered(s: Study, plan: Plan): seq<string>
  {
    if s.stage != ChapterExtraction then plan(s.stage)
    else if HasCalls(s.calls, ChapterExtraction) then s.queue
    else plan(s.stage)[..if plan(s.stage) == [] then 0 else 1]
  }

  // ----- Steps -----

  /** Moving on from a finished stage; the last one needs an accepted pack. */
  function Advance(s: Study, stage: Stage, now: string, packAccepted: bool): (Study, Option<StudyError>)
  {
    if stage == GoldenThree then (s.(status := PausedGoldenThree, checkpoint := AtPause(now)), None)
    else
      match NextStage(stage)
      case Some(next) => (s.(stage := next, status := Running, checkpoint := AtStage(next, now)), None)
      case None => if packAccepted then (s.(status := Complete), None) else (s, Some(PackRefused))
  }

  function Dispatch(s: Study, plan: Plan, inputAccepted: bool, packAccepted: bool, callId: string,
                    requestId: string, now: string): (Study, Result<Option<Call>, StudyError>)
  {
    if s.status == PausedGoldenThree then (s, Err(Paused))
    else if s.status == Complete then (s, Ok(None))
    else
      match ScanUnits(s.calls, s.stage, Offered(s, plan))
      case Blocked => (s, Err(UnconfirmedOutcome))
      case Exhausted =>
        if s.stage == ChapterExtraction then (s, Ok(None))
        else
          var (t, error) := Advance(s, s.stage, now, packAccepted);
          (t, if error.Some? then Err(error.value) else Ok(None))
      case Pending(unitKey) =>
        if !inputAccepted then (s, Err(InputRefused))
        else
          var call := Call(callId, requestId, s.stage, unitKey, Dispatched);
          (s.(calls := s.calls + [call]), Ok(Some(call)))
  }

  predicate ValidFor(o: Output, stage: Stage)
  {
    && o.kind == stage && o.complete
    && (stage == ChapterExtraction ==>
          && |o.next| <= 8
          && (o.expanding ==> o.next != [] && !o.hasStopReason)
          && (!o.expanding ==> o.next == [] && o.hasStopReason))
  }

  predicate Distinct(units: seq<string>)
  {
    forall i, j | 0 <= i < j < |units| :: units[i] != units[j]
  }

  /** A request for more chapters names new units of the plan, each once. */
  predicate Requestable(s: Study, plan: Plan, unitKey: string, next: seq<string>)
  {
    && Distinct(next)
    && forall u | u in next ::
         u != unitKey && u in plan(ChapterExtraction) && u !in ConfirmedUnits(s.calls, ChapterExtraction)
  }

  function FindCall(calls: seq<Call>, callId: string): Option<nat>
  {
    if calls == [] then None
    else if calls[0].callId == callId then Some(0)
    else
      var rest := FindCall(calls[1..], callId);
      if rest.None? then None else Some(rest.value + 1)
  }

  lemma {:induction false} FindCallSound(calls: seq<Call>, callId: string)
    ensures var i := FindCall(calls, callId);
            if i.Some? then i.value < |calls| && calls[i.value].callId == callId
            else forall c | c in calls :: c.callId != callId
  {
    if calls != [] {
      FindCallSound(calls[1..], callId);
    }
  }

  function SetState(calls: seq<Call>, i: nat, state: CallState): seq<Call>
    requires i < |calls|
  {
    calls[i := calls[i].(state := state)]
  }

  /** The transaction of a confirmation, and the stage it leaves to be advanced, if the answer was its last. */
  function Commit(s: Study, plan: Plan, callId: string, requestId: string, o: Output, hasEvidence: bool)
    : (Study, Result<Option<Stage>, StudyError>)
  {
    FindCallSound(s.calls, callId);
    var found := FindCall(s.calls, callId);
    if found.None? then (s, Err(NoSuchCall))
    else
      var call := s.calls[found.value];
      if call.state != Dispatched || call.requestId != requestId then (s, Err(ResultMismatch))
      else if !ValidFor(o, call.stage) then (s, Err(OutputInvalid))
      else if call.stage == ChapterExtraction && !Requestable(s, plan, call.unitKey, o.next) then (s, Err(UnitsInvalid))
      else if !hasEvidence then (s, Err(EvidenceMissing))
      else
        var calls := SetState(s.calls, found.value, Settled);
        var t := s.(calls := calls, queue := if call.stage == ChapterExtraction then o.next else s.queue);
        var last := (call.stage == ChapterExtraction && !o.expanding)
                    || |ConfirmedUnits(calls, call.stage)| == |plan(call.stage)|;
        (t, Ok(if last then Some(call.stage) else None))
  }

  /** A whole confirmation: after the commit, the stage is advanced by writes of its own. */
  function Confirm(s: Study, plan: Plan, callId: string, requestId: string, o: Output, hasEvidence: bool,
                   packAccepted: bool, now: string): (Study, Option<StudyError>)
  {
    var (t, r) := Commit(s, plan, callId, requestId, o, hasEvidence);
    if r.Err? then (t, Some(r.error)) else if r.value.None? then (t, None) else Advance(t, r.value.value, now, packAccepted)
  }

  function MarkUnconfirmed(s: Study, callId: string): (Study, Option<StudyError>)
  {
    FindCallSound(s.calls, callId);
    var found := FindCall(s.calls, callId);
    if found.None? || s.calls[found.value].state != Dispatched then (s, Some(ResultMismatch))
    else (s.(calls := SetState(s.calls, found.value, Unconfirmed)), None)
  }

  function Continue(s: Study, expected: Checkpoint, authorization: string): (Study, Option<StudyError>)
  {
    if authorization == "" then (s, Some(NotAuthorized))
    else if s.stage != GoldenThree || s.status != PausedGoldenThree || s.checkpoint != expected
    then (s, Some(CheckpointChanged))
    else (s.(stage := ChapterExtraction, status := Running, checkpoint := Continued(expected, authorization)), None)
  }
}
