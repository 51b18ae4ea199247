/** The study record in the database, updated in place by the runner's operations. */
module CorpusStudy {
  import opened Common
  import opened StudyRunner
  import opened StudyInvariant

  class CorpusStudy {
    const plan: Plan
    var stage: Stage
    var status: Status
    var checkpoint: Checkpoint
    var calls: seq<Call>
    var queue: seq<string>

    constructor (plan: Plan)
      requires PlanOk(plan)
      ensures this.plan == plan && State() == START && Valid()
    {
      this.plan := plan;
      stage, status, checkpoint, calls, queue := GoldenThree, Confirmed, AtStart, [], [];
      new;
      StartIsOk(plan);
    }

    function State(): Study
      reads this
    {
      Study(stage, status, checkpoint, calls, queue)
    }

    ghost predicate Valid()
      reads this
    {
      PlanOk(plan) && Inv(State(), plan)
    }

    method AdvanceStage(now: string, packAccepted: bool) returns (error: Option<StudyError>)
      modifies `stage, `status, `checkpoint
      ensures (State(), error) == Advance(old(State()), old(stage), now, packAccepted)
    {
      if stage == GoldenThree {
        checkpoint := AtPause(now);
        status := PausedGoldenThree;
        return None;
      }
      var next := NextStage(stage);
      if next.Some? {
        stage := next.value;
        checkpoint := AtStage(stage, now);
        status := Running;
        return None;
      }
      if !packAccepted { return Some(PackRefused); }
      status := Complete;
      error := None;
    }

    /** Looks for the first unit without a call, refusing while any unit before it is open. */
    method FindPending(units: seq<string>) returns (r: Result<Option<string>, StudyError>)
      ensures match ScanUnits(calls, stage, units)
              case Pending(u) => r == Ok(Some(u))
              case Exhausted => r == Ok(None)
              case Blocked => r == Err(UnconfirmedOutcome)
    {
      var i := 0;
      assert units[0..] == units;
      while i < |units|
        invariant 0 <= i <= |units|
        invariant ScanUnits(calls, stage, units[i..]) == ScanUnits(calls, stage, units)
      {
        assert units[i..][1..] == units[i + 1..];
        var state := StateOf(calls, stage, units[i]);
        if state == Some(Settled) {
          i := i + 1;
        } else if state.Some? {
          return Err(UnconfirmedOutcome);
        } else {
          return Ok(Some(units[i]));
        }
      }
      r := Ok(None);
    }

    method DispatchNextStage(inputAccepted: bool, packAccepted: bool, callId: string, requestId: string, now: string)
      returns (r: Result<Option<Call>, StudyError>)
      requires Valid() && forall c | c in calls :: c.callId != callId
      modifies this
      ensures Valid()
      ensures (State(), r) == Dispatch(old(State()), plan, inputAccepted, packAccepted, callId, requestId, now)
      ensures r.Ok? && r.value.Some? ==> forall c | c in old(calls) :: c.state == Settled
    {
      hide Inv, ScanUnits, Advance, PlanOk;
      DispatchKeepsInv(State(), plan, inputAccepted, packAccepted, callId, requestId, now);
      var event := DispatchEvent(inputAccepted, packAccepted, callId, requestId, now);
      if Sent(State(), plan, event).Some? {
        SentOnlyWhenSettled(State(), plan, event);
      }
      if status == PausedGoldenThree { return Err(Paused); }
      if status == Complete { return Ok(None); }
      var pending := FindPending(Offered(State(), plan));
      if pending.Err? { return Err(pending.error); }
      if pending.value.None? {
        if stage == ChapterExtraction { return Ok(None); }
        var error := AdvanceStage(now, packAccepted);
        return if error.Some? then Err(error.value) else Ok(None);
      }
      if !inputAccepted { return Err(InputRefused); }
      var call := Call(callId, requestId, stage, pending.value.value, Dispatched);
      calls := calls + [call];
      r := Ok(Some(call));
    }

    /** The transaction of a confirmation; it tells whether the answer was the last of its stage. */
    method CommitStage(callId: string, requestId: string, o: Output, hasEvidence: bool)
      returns (r: Result<Option<Stage>, StudyError>)
      requires Valid()
      modifies `calls, `queue
      ensures Valid()
      ensures (State(), r) == Commit(old(State()), plan, callId, requestId, o, hasEvidence)
    {
      hide Inv, PlanOk, ConfirmedUnits, Requestable, FindCall;
      CommitKeepsInv(State(), plan, callId, requestId, o, hasEvidence);
      var found := FindCall(calls, callId);
      FindCallSound(calls, callId);
      if found.None? { return Err(NoSuchCall); }
      var call := calls[found.value];
      if call.state != Dispatched || call.requestId != requestId { return Err(ResultMismatch); }
      if !ValidFor(o, call.stage) { return Err(OutputInvalid); }
      if call.stage == ChapterExtraction && !Requestable(State(), plan, call.unitKey, o.next) {
        return Err(UnitsInvalid);
      }
      if !hasEvidence { return Err(EvidenceMissing); }
      calls := calls[found.value := call.(state := Settled)];
      if call.stage == ChapterExtraction {
        queue := o.next;
      }
      var last := (call.stage == ChapterExtraction && !o.expanding)
                  || |ConfirmedUnits(calls, call.stage)| == |plan(call.stage)|;
      r := Ok(if last then Some(call.stage) else None);
    }

    method ConfirmStage(callId: string, requestId: string, o: Output, hasEvidence: bool, packAccepted: bool, now: string)
      returns (error: Option<StudyError>)
      requires Valid()
      modifies this
      ensures Valid()
      ensures (State(), error) == Confirm(old(State()), plan, callId, requestId, o, hasEvidence, packAccepted, now)
    {
      hide Inv, Advance, PlanOk, Commit;
      CommitKeepsInv(State(), plan, callId, requestId, o, hasEvidence);
      ConfirmKeepsInv(State(), plan, callId, requestId, o, hasEvidence, packAccepted, now);
      var r := CommitStage(callId, requestId, o, hasEvidence);
      if r.Err? { return Some(r.error); }
      if r.value.None? { return None; }
      error := AdvanceStage(now, packAccepted);
    }

    method MarkStageUnconfirmed(callId: string) returns (error: Option<StudyError>)
      requires Valid()
      modifies `calls
      ensures Valid() && (State(), error) == MarkUnconfirmed(old(State()), callId)
    {
      MarkKeepsInv(State(), plan, callId);
      hide Inv, PlanOk, FindCall;
      FindCallSound(calls, callId);
      var found := FindCall(calls, callId);
      if found.None? || calls[found.value].state != Dispatched { return Some(ResultMismatch); }
      calls := calls[found.value := calls[found.value].(state := Unconfirmed)];
      error := None;
    }

    method ContinueAfterGoldenThree(expected: Checkpoint, authorization: string) returns (error: Option<StudyError>)
      requires Valid()
      modifies `stage, `status, `checkpoint
      ensures Valid() && (State(), error) == Continue(old(State()), expected, authorization)
    {
      ContinueKeepsInv(State(), plan, expected, authorization);
      hide Inv, PlanOk;
      if authorization == "" { return Some(NotAuthorized); }
      if stage != GoldenThree || status != PausedGoldenThree || checkpoint != expected { return Some(CheckpointChanged); }
      checkpoint := Continued(checkpoint, authorization);
      stage := ChapterExtraction;
      status := Running;
      error := None;
    }
  }
}
