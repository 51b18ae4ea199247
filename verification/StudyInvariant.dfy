/** What every reachable study satisfies, and why extraction always moves on. */
module StudyInvariant {
  import opened Common
  import opened StudyRunner

  ghost predicate PlanOk(plan: Plan)
  {
    forall stage :: plan(stage) != [] && Distinct(plan(stage))
  }

  ghost predicate KeysDistinct(calls: seq<Call>)
  {
    forall i, j | 0 <= i < j < |calls| ::
      !IsFor(calls[i], calls[j].stage, calls[j].unitKey) && calls[i].callId != calls[j].callId
  }

  ghost predicate AllSettled(calls: seq<Call>)
  {
    forall c | c in calls :: c.state == Settled
  }

  ghost predicate OneUnsettled(calls: seq<Call>)
  {
    forall i, j | 0 <= i < j < |calls| :: calls[i].state == Settled || calls[j].state == Settled
  }

  /** Calls belong to the plan and to stages already reached; only the current stage has open ones. */
  ghost predicate CallsPlaced(s: Study, plan: Plan)
  {
    forall c | c in s.calls ::
      && c.unitKey in plan(c.stage)
      && Ordinal(c.stage) <= Ordinal(s.stage)
      && (c.state != Settled ==> c.stage == s.stage)
  }

  function Next(s: Study, plan: Plan): Scan { ScanUnits(s.calls, s.stage, Offered(s, plan)) }

  ghost predicate UnitsLeft(s: Study, plan: Plan)
  {
    |ConfirmedUnits(s.calls, s.stage)| < |plan(s.stage)|
  }

  ghost predicate StatusFits(s: Study)
  {
    match s.status
    case Confirmed => s.stage == GoldenThree
    case PausedGoldenThree => s.stage == GoldenThree && AllSettled(s.calls)
    case Running => s.stage != GoldenThree
    case Complete => s.stage == StyleProfile && AllSettled(s.calls)
  }

  ghost predicate Inv(s: Study, plan: Plan)
  {
    && KeysDistinct(s.calls)
    && OneUnsettled(s.calls)
    && CallsPlaced(s, plan)
    && StatusFits(s)
    // An open call keeps the scan from reaching a unit to send.
    && (!AllSettled(s.calls) ==> Next(s, plan) == Blocked || (s.stage == ChapterExtraction && Next(s, plan) == Exhausted))
    // Before the first extraction result there is no queue; afterwards there is a unit to send, or the last answer came.
    && (ConfirmedUnits(s.calls, ChapterExtraction) == {} ==> s.queue == [])
    && (s.stage == ChapterExtraction && AllSettled(s.calls) ==> Next(s, plan).Pending? || ExtractionAnswered(s))
    && QueueInPlan(s, plan)
  }

  /** Extraction has its last answer, which asked for nothing more. */
  ghost predicate ExtractionAnswered(s: Study)
  {
    s.stage == ChapterExtraction && HasCalls(s.calls, ChapterExtraction) && s.queue == []
  }

  /** The stage has all its answers, and has not been advanced. */
  ghost predicate Due(s: Study, plan: Plan)
  {
    && (s.status == Confirmed || s.status == Running) && AllSettled(s.calls)
    && if s.stage == ChapterExtraction then ExtractionAnswered(s) else !UnitsLeft(s, plan)
  }

  // ----- Looking calls up -----

  lemma {:induction false} StateOfAppend(calls: seq<Call>, c: Call, stage: Stage, u: string)
    ensures StateOf(calls + [c], stage, u)
            == if StateOf(calls, stage, u).Some? then StateOf(calls, stage, u)
               else if IsFor(c, stage, u) then Some(c.state) else None
  {
    if calls == [] {
      assert calls + [c] == [c];
    } else {
      assert (calls + [c])[1..] == calls[1..] + [c];
      StateOfAppend(calls[1..], c, stage, u);
    }
  }

  lemma {:induction false} StateOfSet(calls: seq<Call>, i: nat, state: CallState, stage: Stage, u: string)
    requires KeysDistinct(calls) && i < |calls|
    ensures StateOf(SetState(calls, i, state), stage, u)
            == if IsFor(calls[i], stage, u) then Some(state) else StateOf(calls, stage, u)
  {
    var set' := SetState(calls, i, state);
    if i == 0 {
      assert set'[1..] == calls[1..];
    } else {
      assert set'[1..] == SetState(calls[1..], i - 1, state);
      TailDistinct(calls);
      StateOfSet(calls[1..], i - 1, state, stage, u);
      assert !(IsFor(calls[0], stage, u) && IsFor(calls[i], stage, u));
    }
  }

  lemma TailDistinct(calls: seq<Call>)
    requires KeysDistinct(calls) && calls != []
    ensures KeysDistinct(calls[1..])
  {
    forall i, j | 0 <= i < j < |calls[1..]|
      ensures !IsFor(calls[1..][i], calls[1..][j].stage, calls[1..][j].unitKey)
      ensures calls[1..][i].callId != calls[1..][j].callId
    {
      assert !IsFor(calls[i + 1], calls[j + 1].stage, calls[j + 1].unitKey) && calls[i + 1].callId != calls[j + 1].callId;
    }
  }

  lemma {:induction false} StateOfMember(calls: seq<Call>, stage: Stage, u: string)
    ensures match StateOf(calls, stage, u)
            case Some(state) => exists c | c in calls :: IsFor(c, stage, u) && c.state == state
            case None => forall c | c in calls :: !IsFor(c, stage, u)
  {
    if calls != [] && !IsFor(calls[0], stage, u) {
      StateOfMember(calls[1..], stage, u);
    }
  }

  // ----- The scan -----

  lemma {:induction false} ScanMeaning(calls: seq<Call>, stage: Stage, units: seq<string>)
    ensures match ScanUnits(calls, stage, units)
            case Pending(u) => u in units && StateOf(calls, stage, u).None?
            case Exhausted => forall u | u in units :: StateOf(calls, stage, u) == Some(Settled)
            case Blocked => !AllSettled(calls)
  {
    if units != [] {
      ScanMeaning(calls, stage, units[1..]);
      StateOfMember(calls, stage, units[0]);
    }
  }

  /** Sending the pending unit blocks the scan. */
  lemma {:induction false} ScanAfterSend(calls: seq<Call>, stage: Stage, units: seq<string>, c: Call)
    requires c.state == Dispatched && c.stage == stage && ScanUnits(calls, stage, units) == Pending(c.unitKey)
    ensures ScanUnits(calls + [c], stage, units) == Blocked
  {
    StateOfAppend(calls, c, stage, units[0]);
    if StateOf(calls, stage, units[0]).Some? {
      ScanAfterSend(calls, stage, units[1..], c);
    }
  }

  lemma {:induction false} ScanAfterMark(calls: seq<Call>, stage: Stage, units: seq<string>, i: nat)
    requires KeysDistinct(calls) && i < |calls| && calls[i].state == Dispatched
    ensures ScanUnits(SetState(calls, i, Unconfirmed), stage, units) == ScanUnits(calls, stage, units)
  {
    if units != [] {
      ScanAfterMark(calls, stage, units[1..], i);
      StateOfSet(calls, i, Unconfirmed, stage, units[0]);
      StateOfAt(calls, i);
    }
  }

  lemma {:induction false} StateOfAt(calls: seq<Call>, i: nat)
    requires KeysDistinct(calls) && i < |calls|
    ensures StateOf(calls, calls[i].stage, calls[i].unitKey) == Some(calls[i].state)
  {
    assert SetState(calls, i, calls[i].state) == calls;
    StateOfSet(calls, i, calls[i].state, calls[i].stage, calls[i].unitKey);
  }

  // ----- Counting confirmed units -----

  lemma {:induction false} DistinctCount(units: seq<string>)
    requires Distinct(units)
    ensures |set u | u in units| == |units|
  {
    if units != [] {
      var rest := units[..|units| - 1];
      DistinctCount(rest);
      assert (set u | u in units) == (set u | u in rest) + {units[|units| - 1]};
    }
  }

  lemma SubsetCount(a: set<string>, b: set<string>)
    requires a <= b
    ensures |a| <= |b| && (|a| == |b| ==> a == b)
  {
    assert b == a + (b - a);
    assert |b| == |a| + |b - a|;
  }

  /** No stage confirms more units than it has, and as many only when every unit is confirmed. */
  lemma ConfirmedWithinPlan(s: Study, plan: Plan, stage: Stage)
    requires PlanOk(plan) && CallsPlaced(s, plan)
    ensures var done := ConfirmedUnits(s.calls, stage);
            |done| <= |plan(stage)| && (|done| == |plan(stage)| <==> forall u | u in plan(stage) :: u in done)
  {
    var done, all := ConfirmedUnits(s.calls, stage), set u | u in plan(stage);
    DistinctCount(plan(stage));
    SubsetCount(done, all);
    if forall u | u in plan(stage) :: u in done {
      SubsetCount(all, done);
    }
  }

  lemma SettledIsConfirmed(calls: seq<Call>, stage: Stage, u: string)
    requires StateOf(calls, stage, u) == Some(Settled)
    ensures u in ConfirmedUnits(calls, stage)
  {
    StateOfMember(calls, stage, u);
  }

  /** Confirming an open call adds exactly its unit to its stage's confirmed units. */
  lemma ConfirmedAfterSettle(calls: seq<Call>, i: nat, stage: Stage)
    requires KeysDistinct(calls) && i < |calls| && calls[i].state != Settled
    ensures var t := SetState(calls, i, Settled);
            && ConfirmedUnits(t, stage)
               == ConfirmedUnits(calls, stage) + (if calls[i].stage == stage then {calls[i].unitKey} else {})
            && (calls[i].stage == stage ==> calls[i].unitKey !in ConfirmedUnits(calls, stage))
  {
    var t := SetState(calls, i, Settled);
    forall c | c in calls && c.stage == stage && c.state == Settled ensures c in t {
      var k :| 0 <= k < |calls| && calls[k] == c;
      assert t[k] == c;
    }
    assert t[i] in t;
    forall c | c in t && c.stage == stage && c.state == Settled
      ensures c in calls || (calls[i].stage == stage && c.unitKey == calls[i].unitKey)
    {
      var k :| 0 <= k < |t| && t[k] == c;
      assert k == i || c == calls[k];
    }
    forall c | c in calls && c.stage == stage && c.state == Settled
      ensures !IsFor(c, calls[i].stage, calls[i].unitKey)
    {
      var k :| 0 <= k < |calls| && calls[k] == c;
      assert k < i ==> !IsFor(calls[k], calls[i].stage, calls[i].unitKey);
      assert i < k ==> !IsFor(calls[i], calls[k].stage, calls[k].unitKey);
    }
  }

  // ----- Every step keeps the invariant -----

  lemma ConfirmedAfterSend(calls: seq<Call>, c: Call, stage: Stage)
    requires c.state != Settled
    ensures ConfirmedUnits(calls + [c], stage) == ConfirmedUnits(calls, stage)
  {
    assert forall x | x in calls :: x in calls + [c];
  }

  lemma ConfirmedAfterMark(calls: seq<Call>, i: nat, stage: Stage)
    requires i < |calls| && calls[i].state == Dispatched
    ensures ConfirmedUnits(SetState(calls, i, Unconfirmed), stage) == ConfirmedUnits(calls, stage)
    ensures HasCalls(SetState(calls, i, Unconfirmed), stage) == HasCalls(calls, stage)
  {
    var t := SetState(calls, i, Unconfirmed);
    forall c | c in calls && c != calls[i] ensures c in t {
      var k :| 0 <= k < |calls| && calls[k] == c;
      assert t[k] == c;
    }
    assert t[i] in t && t[i].stage == calls[i].stage;
  }

  lemma SettledBelow(s: Study, plan: Plan, stage: Stage)
    requires CallsPlaced(s, plan) && Ordinal(s.stage) < Ordinal(stage)
    ensures ConfirmedUnits(s.calls, stage) == {} && !HasCalls(s.calls, stage)
  {
  }

  lemma AdvanceKeepsInv(s: Study, plan: Plan, now: string, packAccepted: bool)
    requires PlanOk(plan) && KeysDistinct(s.calls) && CallsPlaced(s, plan) && AllSettled(s.calls)
    requires s.stage == GoldenThree || s.status == Running
    requires ConfirmedUnits(s.calls, ChapterExtraction) == {} ==> s.queue == []
    requires QueueInPlan(s, plan)
    ensures Inv(Advance(s, s.stage, now, packAccepted).0, plan)
  {
    var t := Advance(s, s.stage, now, packAccepted).0;
    if NextStage(s.stage).Some? {
      SettledBelow(s, plan, NextStage(s.stage).value);
    }
    assert plan(t.stage) != [];
  }

  lemma AppendKeepsKeys(calls: seq<Call>, c: Call)
    requires KeysDistinct(calls) && StateOf(calls, c.stage, c.unitKey).None?
    requires forall x | x in calls :: x.callId != c.callId
    ensures KeysDistinct(calls + [c])
  {
    StateOfMember(calls, c.stage, c.unitKey);
    var t := calls + [c];
    forall i, j | 0 <= i < j < |t|
      ensures !IsFor(t[i], t[j].stage, t[j].unitKey) && t[i].callId != t[j].callId
    {
      assert t[i] in calls;
    }
  }

  lemma AppendOne(calls: seq<Call>, c: Call)
    requires AllSettled(calls)
    ensures OneUnsettled(calls + [c])
  {
    var t := calls + [c];
    forall i, j | 0 <= i < j < |t| ensures t[i].state == Settled || t[j].state == Settled {
      assert t[i] in calls;
    }
  }

  lemma NextAfterSend(s: Study, plan: Plan, c: Call)
    requires Next(s, plan) == Pending(c.unitKey) && c.stage == s.stage && c.state == Dispatched
    requires ConfirmedUnits(s.calls, ChapterExtraction) == {} ==> s.queue == []
    ensures var t := s.(calls := s.calls + [c]);
            Next(t, plan) == Blocked || (s.stage == ChapterExtraction && Next(t, plan) == Exhausted)
  {
    var t := s.(calls := s.calls + [c]);
    ScanAfterSend(s.calls, s.stage, Offered(s, plan), c);
    assert c in t.calls;
    if s.stage == ChapterExtraction && !HasCalls(s.calls, ChapterExtraction) {
      assert Offered(t, plan) == [];
    } else {
      assert forall x | x in s.calls :: x in t.calls;
      assert Offered(t, plan) == Offered(s, plan);
    }
  }

  lemma SendKeepsInv(s: Study, plan: Plan, c: Call)
    requires PlanOk(plan) && Inv(s, plan) && Next(s, plan) == Pending(c.unitKey)
    requires c.stage == s.stage && c.state == Dispatched && forall x | x in s.calls :: x.callId != c.callId
    requires s.status == Confirmed || s.status == Running
    ensures Inv(s.(calls := s.calls + [c]), plan)
  {
    hide ScanUnits, StateOf, KeysDistinct, OneUnsettled, Offered, ConfirmedUnits;
    var t := s.(calls := s.calls + [c]);
    ScanMeaning(s.calls, s.stage, Offered(s, plan));
    OfferedInPlan(s, plan, c.unitKey);
    AppendKeepsKeys(s.calls, c);
    AppendOne(s.calls, c);
    NextAfterSend(s, plan, c);
    ConfirmedAfterSend(s.calls, c, s.stage);
    ConfirmedAfterSend(s.calls, c, ChapterExtraction);
    assert c in t.calls;
  }

  /** What a dispatch may send belongs to the plan. */
  lemma OfferedInPlan(s: Study, plan: Plan, u: string)
    requires QueueInPlan(s, plan) && u in Offered(s, plan)
    ensures u in plan(s.stage)
  {
  }

  ghost predicate QueueInPlan(s: Study, plan: Plan)
  {
    forall u | u in s.queue :: u in plan(ChapterExtraction)
  }

  lemma DispatchKeepsInv(s: Study, plan: Plan, inputAccepted: bool, packAccepted: bool, callId: string,
                         requestId: string, now: string)
    requires PlanOk(plan) && Inv(s, plan) && forall x | x in s.calls :: x.callId != callId
    ensures Inv(Dispatch(s, plan, inputAccepted, packAccepted, callId, requestId, now).0, plan)
  {
    hide ScanUnits, KeysDistinct, OneUnsettled, Offered, ConfirmedUnits, CallsPlaced;
    if s.status == Confirmed || s.status == Running {
      if Next(s, plan).Pending? && inputAccepted {
        SendKeepsInv(s, plan, Call(callId, requestId, s.stage, Next(s, plan).unitKey, Dispatched));
      } else if Next(s, plan) == Exhausted && s.stage != ChapterExtraction {
        AdvanceKeepsInv(s, plan, now, packAccepted);
      }
    }
  }

  lemma SettleKeepsCalls(s: Study, plan: Plan, i: nat, queue: seq<string>)
    requires KeysDistinct(s.calls) && OneUnsettled(s.calls) && CallsPlaced(s, plan)
    requires i < |s.calls| && s.calls[i].state == Dispatched
    ensures var t := s.(calls := SetState(s.calls, i, Settled), queue := queue);
            && KeysDistinct(t.calls) && OneUnsettled(t.calls) && AllSettled(t.calls) && CallsPlaced(t, plan)
            && HasCalls(t.calls, s.calls[i].stage)
  {
    var t := SetState(s.calls, i, Settled);
    forall c | c in t ensures c.state == Settled && c.unitKey in plan(c.stage) && Ordinal(c.stage) <= Ordinal(s.stage) {
      var k :| 0 <= k < |t| && t[k] == c;
      assert s.calls[k] in s.calls;
    }
    assert t[i] in t;
  }

  /** After an expanding answer the first requested chapter is the next one to send. */
  lemma RequestIsSendable(s: Study, plan: Plan, i: nat, next: seq<string>)
    requires KeysDistinct(s.calls) && OneUnsettled(s.calls) && CallsPlaced(s, plan)
    requires i < |s.calls| && s.calls[i].state == Dispatched && s.calls[i].stage == s.stage == ChapterExtraction
    requires next != [] && Requestable(s, plan, s.calls[i].unitKey, next)
    ensures Next(s.(calls := SetState(s.calls, i, Settled), queue := next), plan) == Pending(next[0])
    ensures !(next[0] in ConfirmedUnits(SetState(s.calls, i, Settled), ChapterExtraction))
  {
    var t := s.(calls := SetState(s.calls, i, Settled), queue := next);
    SettleKeepsCalls(s, plan, i, next);
    ConfirmedAfterSettle(s.calls, i, ChapterExtraction);
    var first := next[0];
    assert first in next;
    StateOfMember(t.calls, ChapterExtraction, first);
    if StateOf(t.calls, ChapterExtraction, first) == Some(Settled) {
      SettledIsConfirmed(t.calls, ChapterExtraction, first);
    }
  }

  /** What a committed confirmation leaves: the invariant, no open call, and a stage that is due or has a unit to send. */
  lemma CommitKeepsInv(s: Study, plan: Plan, callId: string, requestId: string, o: Output, hasEvidence: bool)
    requires PlanOk(plan) && Inv(s, plan)
    ensures var (t, r) := Commit(s, plan, callId, requestId, o, hasEvidence);
            && Inv(t, plan)
            && (r.Err? ==> t == s)
            && (r.Ok? ==> AllSettled(t.calls) && t.stage == s.stage && t.status == s.status
                          && (s.status == Confirmed || s.status == Running)
                          && (r.value.Some? ==> r.value.value == s.stage)
                          && (r.value.Some? <==> Due(t, plan)))
  {
    hide ScanUnits, KeysDistinct, OneUnsettled, Offered, ConfirmedUnits, CallsPlaced, FindCall, Requestable, HasCalls;
    FindCallSound(s.calls, callId);
    var found := FindCall(s.calls, callId);
    if found.Some? && s.calls[found.value].state == Dispatched {
      var i := found.value;
      var call := s.calls[i];
      OpenCallIsCurrent(s, plan, i);
      SettleKeepsCalls(s, plan, i, if call.stage == ChapterExtraction then o.next else s.queue);
      ConfirmedAfterSettle(s.calls, i, call.stage);
      ConfirmedAfterSettle(s.calls, i, ChapterExtraction);
      var t := s.(calls := SetState(s.calls, i, Settled),
                  queue := if call.stage == ChapterExtraction then o.next else s.queue);
      ConfirmedWithinPlan(t, plan, call.stage);
      if call.stage == ChapterExtraction && Requestable(s, plan, call.unitKey, o.next) {
        RequestedInPlan(s, plan, call.unitKey, o.next);
        if o.next != [] {
          RequestIsSendable(s, plan, i, o.next);
          FullLeavesNone(s, plan, i, o.next);
        }
      }
    }
  }

  /** A request for new chapters is only possible while some are left. */
  lemma FullLeavesNone(s: Study, plan: Plan, i: nat, next: seq<string>)
    requires PlanOk(plan) && Inv(s, plan) && i < |s.calls|
    requires s.calls[i].state == Dispatched && s.calls[i].stage == s.stage == ChapterExtraction
    requires next != [] && Requestable(s, plan, s.calls[i].unitKey, next)
    ensures |ConfirmedUnits(SetState(s.calls, i, Settled), ChapterExtraction)| != |plan(ChapterExtraction)|
  {
    hide ScanUnits, Offered, ConfirmedUnits;
    var t := s.(calls := SetState(s.calls, i, Settled), queue := next);
    SettleKeepsCalls(s, plan, i, next);
    ConfirmedWithinPlan(t, plan, ChapterExtraction);
    ConfirmedAfterSettle(s.calls, i, ChapterExtraction);
    assert next[0] in next;
  }

  lemma ConfirmKeepsInv(s: Study, plan: Plan, callId: string, requestId: string, o: Output, hasEvidence: bool,
                        packAccepted: bool, now: string)
    requires PlanOk(plan) && Inv(s, plan)
    ensures Inv(Confirm(s, plan, callId, requestId, o, hasEvidence, packAccepted, now).0, plan)
  {
    hide Commit, KeysDistinct, OneUnsettled, CallsPlaced, ConfirmedUnits, Advance, Due;
    CommitKeepsInv(s, plan, callId, requestId, o, hasEvidence);
    var (t, r) := Commit(s, plan, callId, requestId, o, hasEvidence);
    if r.Ok? && r.value.Some? {
      AdvanceKeepsInv(t, plan, now, packAccepted);
    }
  }

  lemma RequestedInPlan(s: Study, plan: Plan, u: string, next: seq<string>)
    requires Requestable(s, plan, u, next)
    ensures forall x | x in next :: x in plan(ChapterExtraction)
  {
  }

  lemma OpenCallIsCurrent(s: Study, plan: Plan, i: nat)
    requires Inv(s, plan) && i < |s.calls| && s.calls[i].state != Settled
    ensures s.calls[i].stage == s.stage && !AllSettled(s.calls)
    ensures s.status == Confirmed || s.status == Running
  {
    assert s.calls[i] in s.calls;
  }

  lemma MarkKeepsInv(s: Study, plan: Plan, callId: string)
    requires PlanOk(plan) && Inv(s, plan)
    ensures Inv(MarkUnconfirmed(s, callId).0, plan)
  {
    hide ScanUnits, FindCall, ConfirmedUnits, HasCalls, KeysDistinct, OneUnsettled, CallsPlaced;
    FindCallSound(s.calls, callId);
    var found := FindCall(s.calls, callId);
    if found.Some? && s.calls[found.value].state == Dispatched {
      MarkKeepsCalls(s, plan, found.value);
      OpenCallIsCurrent(s, plan, found.value);
      ScanAfterMark(s.calls, s.stage, Offered(s, plan), found.value);
      ConfirmedAfterMark(s.calls, found.value, s.stage);
      ConfirmedAfterMark(s.calls, found.value, ChapterExtraction);
    }
  }

  lemma MarkKeepsCalls(s: Study, plan: Plan, i: nat)
    requires KeysDistinct(s.calls) && OneUnsettled(s.calls) && CallsPlaced(s, plan)
    requires i < |s.calls| && s.calls[i].state == Dispatched
    ensures var t := s.(calls := SetState(s.calls, i, Unconfirmed));
            KeysDistinct(t.calls) && OneUnsettled(t.calls) && CallsPlaced(t, plan) && !AllSettled(t.calls)
  {
    var t := SetState(s.calls, i, Unconfirmed);
    forall c | c in t
      ensures c.unitKey in plan(c.stage) && Ordinal(c.stage) <= Ordinal(s.stage) && (c.state != Settled ==> c.stage == s.stage)
    {
      var k :| 0 <= k < |t| && t[k] == c;
      assert s.calls[k] in s.calls;
    }
    assert t[i] in t;
  }

  lemma ContinueKeepsInv(s: Study, plan: Plan, expected: Checkpoint, authorization: string)
    requires PlanOk(plan) && Inv(s, plan)
    ensures Inv(Continue(s, expected, authorization).0, plan)
  {
    var t := Continue(s, expected, authorization).0;
    if t != s {
      SettledBelow(s, plan, ChapterExtraction);
      var first := plan(ChapterExtraction)[..1];
      assert plan(ChapterExtraction) != [] && Offered(t, plan) == first;
      StateOfMember(t.calls, ChapterExtraction, first[0]);
    }
  }

  // ----- Runs -----

  /** A confirmation may stop once it has committed, before it advances the stage. */
  datatype Event =
    | DispatchEvent(inputAccepted: bool, packAccepted: bool, callId: string, requestId: string, now: string)
    | ConfirmEvent(callId: string, requestId: string, output: Output, hasEvidence: bool, packAccepted: bool, now: string,
                   stops: bool)
    | MarkEvent(callId: string)
    | ContinueEvent(expected: Checkpoint, authorization: string)

  function Apply(s: Study, plan: Plan, e: Event): Study
  {
    match e
    case DispatchEvent(input, pack, callId, requestId, now) => Dispatch(s, plan, input, pack, callId, requestId, now).0
    case ConfirmEvent(callId, requestId, o, evidence, pack, now, stops) =>
      if stops then Commit(s, plan, callId, requestId, o, evidence).0
      else Confirm(s, plan, callId, requestId, o, evidence, pack, now).0
    case MarkEvent(callId) => MarkUnconfirmed(s, callId).0
    case ContinueEvent(expected, authorization) => Continue(s, expected, authorization).0
  }

  /** Call ids are drawn fresh. */
  ghost predicate FreshCall(s: Study, e: Event)
  {
    e.DispatchEvent? ==> forall c | c in s.calls :: c.callId != e.callId
  }

  function Run(plan: Plan, events: seq<Event>, k: nat): Study
    requires k <= |events|
  {
    if k == 0 then START else Apply(Run(plan, events, k - 1), plan, events[k - 1])
  }

  ghost predicate FreshRun(plan: Plan, events: seq<Event>)
  {
    forall k | 0 <= k < |events| :: FreshCall(Run(plan, events, k), events[k])
  }

  lemma ApplyKeepsInv(s: Study, plan: Plan, e: Event)
    requires PlanOk(plan) && Inv(s, plan) && FreshCall(s, e)
    ensures Inv(Apply(s, plan, e), plan)
  {
    match e
    case DispatchEvent(input, pack, callId, requestId, now) =>
      DispatchKeepsInv(s, plan, input, pack, callId, requestId, now);
    case ConfirmEvent(callId, requestId, o, evidence, pack, now, stops) =>
      CommitKeepsInv(s, plan, callId, requestId, o, evidence);
      ConfirmKeepsInv(s, plan, callId, requestId, o, evidence, pack, now);
    case MarkEvent(callId) => MarkKeepsInv(s, plan, callId);
    case ContinueEvent(expected, authorization) => ContinueKeepsInv(s, plan, expected, authorization);
  }

  /** Main result: every reachable study satisfies the invariant. */
  lemma {:induction false} RunKeepsInv(plan: Plan, events: seq<Event>, k: nat)
    requires PlanOk(plan) && FreshRun(plan, events) && k <= |events|
    ensures Inv(Run(plan, events, k), plan)
  {
    hide Inv, Apply, PlanOk;
    if k == 0 {
      StartIsOk(plan);
    } else {
      RunKeepsInv(plan, events, k - 1);
      ApplyKeepsInv(Run(plan, events, k - 1), plan, events[k - 1]);
    }
  }

  lemma StartIsOk(plan: Plan)
    requires PlanOk(plan)
    ensures Inv(START, plan)
  {
    assert plan(GoldenThree) != [];
  }

  // ----- Safety -----

  /** The call an event sends out, if any. */
  function Sent(s: Study, plan: Plan, e: Event): Option<Call>
  {
    if !e.DispatchEvent? then None
    else
      var r := Dispatch(s, plan, e.inputAccepted, e.packAccepted, e.callId, e.requestId, e.now).1;
      if r.Ok? then r.value else None
  }

  lemma CallsAreKept(s: Study, plan: Plan, e: Event, stage: Stage, u: string)
    requires exists c | c in s.calls :: IsFor(c, stage, u)
    ensures exists c | c in Apply(s, plan, e).calls :: IsFor(c, stage, u)
  {
    hide Commit, MarkUnconfirmed, ScanUnits;
    if e.ConfirmEvent? {
      CommitCalls(s, plan, e.callId, e.requestId, e.output, e.hasEvidence);
    } else if e.MarkEvent? {
      MarkCalls(s, e.callId);
    }
    var c :| c in s.calls && IsFor(c, stage, u);
    var k :| 0 <= k < |s.calls| && s.calls[k] == c;
    var t := Apply(s, plan, e).calls;
    assert |t| >= |s.calls| && IsFor(t[k], stage, u);
  }

  lemma CommitCalls(s: Study, plan: Plan, callId: string, requestId: string, o: Output, hasEvidence: bool)
    ensures var t := Commit(s, plan, callId, requestId, o, hasEvidence).0.calls;
            |t| == |s.calls| && forall k | 0 <= k < |t| :: t[k].stage == s.calls[k].stage && t[k].unitKey == s.calls[k].unitKey
  {
    hide Requestable, ConfirmedUnits;
    FindCallSound(s.calls, callId);
  }

  lemma MarkCalls(s: Study, callId: string)
    ensures var t := MarkUnconfirmed(s, callId).0.calls;
            |t| == |s.calls| && forall k | 0 <= k < |t| :: t[k].stage == s.calls[k].stage && t[k].unitKey == s.calls[k].unitKey
  {
    FindCallSound(s.calls, callId);
  }

  lemma {:induction false} CallsAreKeptLong(plan: Plan, events: seq<Event>, i: nat, j: nat, stage: Stage, u: string)
    requires i <= j <= |events| && exists c | c in Run(plan, events, i).calls :: IsFor(c, stage, u)
    ensures exists c | c in Run(plan, events, j).calls :: IsFor(c, stage, u)
    decreases j - i
  {
    hide Apply;
    if i < j {
      CallsAreKeptLong(plan, events, i, j - 1, stage, u);
      CallsAreKept(Run(plan, events, j - 1), plan, events[j - 1], stage, u);
    }
  }

  lemma SentMeaning(s: Study, plan: Plan, e: Event)
    requires Sent(s, plan, e).Some?
    ensures var c := Sent(s, plan, e).value;
            && c.stage == s.stage && c.state == Dispatched && c in Apply(s, plan, e).calls
            && Next(s, plan) == Pending(c.unitKey)
            && forall x | x in s.calls :: !IsFor(x, c.stage, c.unitKey)
  {
    var c := Sent(s, plan, e).value;
    assert Apply(s, plan, e).calls[|s.calls|] == c;
    ScanMeaning(s.calls, s.stage, Offered(s, plan));
    StateOfMember(s.calls, c.stage, c.unitKey);
  }

  /** Main result: two calls a run sends are never for the same unit of the same stage. */
  lemma SentAtMostOnce(plan: Plan, events: seq<Event>, i: nat, j: nat)
    requires i < j < |events|
    requires Sent(Run(plan, events, i), plan, events[i]).Some? && Sent(Run(plan, events, j), plan, events[j]).Some?
    ensures var a := Sent(Run(plan, events, i), plan, events[i]).value;
            var b := Sent(Run(plan, events, j), plan, events[j]).value;
            a.stage != b.stage || a.unitKey != b.unitKey
  {
    hide Dispatch, Run;
    var a := Sent(Run(plan, events, i), plan, events[i]).value;
    SentMeaning(Run(plan, events, i), plan, events[i]);
    SentMeaning(Run(plan, events, j), plan, events[j]);
    assert IsFor(a, a.stage, a.unitKey);
    RunNext(plan, events, i);
    CallsAreKeptLong(plan, events, i + 1, j, a.stage, a.unitKey);
  }

  lemma RunNext(plan: Plan, events: seq<Event>, i: nat)
    requires i < |events|
    ensures Run(plan, events, i + 1) == Apply(Run(plan, events, i), plan, events[i])
  {
  }

  /** Main result: a call goes out only when every earlier one is settled. */
  lemma SentOnlyWhenSettled(s: Study, plan: Plan, e: Event)
    requires Inv(s, plan) && Sent(s, plan, e).Some?
    ensures AllSettled(s.calls)
  {
    SentMeaning(s, plan, e);
  }

  lemma ConfirmIsCommit(s: Study, plan: Plan, callId: string, requestId: string, o: Output, hasEvidence: bool,
                        packAccepted: bool, now: string)
    ensures var (t, r) := Commit(s, plan, callId, requestId, o, hasEvidence);
            Confirm(s, plan, callId, requestId, o, hasEvidence, packAccepted, now).0
            == if r.Ok? && r.value.Some? then Advance(t, r.value.value, now, packAccepted).0 else t
  {
    hide FindCall, Requestable, ConfirmedUnits, Advance;
  }

  lemma CommitSettles(s: Study, plan: Plan, callId: string, requestId: string, o: Output, hasEvidence: bool)
    requires Inv(s, plan)
    ensures var (t, r) := Commit(s, plan, callId, requestId, o, hasEvidence);
            && t.stage == s.stage && t.status == s.status && t.checkpoint == s.checkpoint
            && (r.Ok? ==> AllSettled(t.calls) && (r.value.Some? ==> r.value.value == s.stage))
  {
    hide ScanUnits, ConfirmedUnits, HasCalls, Requestable, FindCall;
    FindCallSound(s.calls, callId);
    var found := FindCall(s.calls, callId);
    if found.Some? && s.calls[found.value].state == Dispatched {
      OpenCallIsCurrent(s, plan, found.value);
      SettleKeepsCalls(s, plan, found.value, s.queue);
    }
  }

  /** The stage stays or moves to the next one, and leaves Golden Three only by a current continuation. */
  lemma StageMoves(s: Study, plan: Plan, e: Event)
    requires Inv(s, plan)
    ensures var t := Apply(s, plan, e);
            && (t.stage == s.stage || NextStage(s.stage) == Some(t.stage))
            && (s.stage == GoldenThree && t.stage != GoldenThree ==>
                  e.ContinueEvent? && s.status == PausedGoldenThree && e.expected == s.checkpoint
                  && e.authorization != "" && AllSettled(s.calls))
            && (t.stage != s.stage ==> s.stage == GoldenThree || AllSettled(t.calls))
  {
    hide Commit, KeysDistinct, OneUnsettled, ConfirmedUnits, HasCalls, StateOf;
    match e
    case ConfirmEvent(callId, requestId, o, evidence, pack, now, stops) =>
      CommitSettles(s, plan, callId, requestId, o, evidence);
      ConfirmIsCommit(s, plan, callId, requestId, o, evidence, pack, now);
    case DispatchEvent(input, pack, callId, requestId, now) =>
      ScanMeaning(s.calls, s.stage, Offered(s, plan));
    case MarkEvent(callId) =>
      FindCallSound(s.calls, callId);
    case ContinueEvent(expected, authorization) =>
  }

  // ----- Progress -----

  /** Extraction that has its last answer and no open call, and was not advanced. */
  ghost predicate Stuck(s: Study)
  {
    s.status == Running && AllSettled(s.calls) && ExtractionAnswered(s)
  }

  /**
   * Main result: with no open call, a dispatch sends the next unit of a stage that is not due. A stage that is due
   * it advances, whatever kept it from being advanced before, except extraction, which it leaves as it is.
   */
  lemma DispatchMakesProgress(s: Study, plan: Plan, e: Event)
    requires PlanOk(plan) && Inv(s, plan) && AllSettled(s.calls) && e.DispatchEvent? && e.inputAccepted
    requires s.status == Confirmed || s.status == Running
    ensures Sent(s, plan, e).Some? <==> !Due(s, plan)
    ensures Due(s, plan) ==>
              Apply(s, plan, e) == if s.stage == ChapterExtraction then s else Advance(s, s.stage, e.now, e.packAccepted).0
  {
    hide ConfirmedUnits, KeysDistinct, OneUnsettled, StateOf;
    ScanMeaning(s.calls, s.stage, Offered(s, plan));
    if Next(s, plan) == Exhausted {
      forall u | u in plan(s.stage) && s.stage != ChapterExtraction ensures u in ConfirmedUnits(s.calls, s.stage) {
        SettledIsConfirmed(s.calls, s.stage, u);
      }
      ConfirmedWithinPlan(s, plan, s.stage);
    } else if s.stage != ChapterExtraction {
      PendingIsUnconfirmed(s, plan);
    }
  }

  lemma PendingIsUnconfirmed(s: Study, plan: Plan)
    requires PlanOk(plan) && CallsPlaced(s, plan) && Next(s, plan).Pending? && s.stage != ChapterExtraction
    ensures UnitsLeft(s, plan)
  {
    hide ConfirmedUnits, StateOf;
    ScanMeaning(s.calls, s.stage, Offered(s, plan));
    ConfirmedWithinPlan(s, plan, s.stage);
    UnsentIsUnconfirmed(s.calls, s.stage, Next(s, plan).unitKey);
  }

  lemma UnsentIsUnconfirmed(calls: seq<Call>, stage: Stage, u: string)
    requires StateOf(calls, stage, u).None?
    ensures u !in ConfirmedUnits(calls, stage)
  {
    StateOfMember(calls, stage, u);
  }

  /**
   * Main result: each accepted confirmation adds one unit to its stage, never more than the plan has; so a stage has
   * all its answers after at most that many. Unless it stops, the confirmation of the last answer ends the stage, and
   * while extraction goes on there is a unit to send.
   */
  lemma ConfirmationCounts(s: Study, plan: Plan, e: Event)
    requires PlanOk(plan) && Inv(s, plan) && e.ConfirmEvent?
    requires Commit(s, plan, e.callId, e.requestId, e.output, e.hasEvidence).1.Ok?
    ensures var t := Apply(s, plan, e);
            var before, after := |ConfirmedUnits(s.calls, s.stage)|, |ConfirmedUnits(t.calls, s.stage)|;
            && after == before + 1 <= |plan(s.stage)|
            && (!e.stops && after == |plan(s.stage)| ==>
                  t.stage != s.stage || t.status == PausedGoldenThree || t.status == Complete || !e.packAccepted)
            && (s.stage == ChapterExtraction && t.stage == s.stage ==> Next(t, plan).Pending? || (e.stops && Due(t, plan)))
  {
    hide ScanUnits, FindCall, Offered, KeysDistinct, OneUnsettled, CallsPlaced, ConfirmedUnits, HasCalls;
    CommitKeepsInv(s, plan, e.callId, e.requestId, e.output, e.hasEvidence);
    FindCallSound(s.calls, e.callId);
    var i := FindCall(s.calls, e.callId).value;
    OpenCallIsCurrent(s, plan, i);
    ConfirmedAfterSettle(s.calls, i, s.stage);
    SettleKeepsCalls(s, plan, i, s.queue);
    ConfirmedWithinPlan(s.(calls := SetState(s.calls, i, Settled)), plan, s.stage);
  }

  // ----- Stopping before a stage is advanced -----

  /** Whether the event commits the last answer of extraction and stops before advancing it. */
  predicate StopsAtLastAnswer(s: Study, plan: Plan, e: Event)
  {
    e.ConfirmEvent? && e.stops
    && Commit(s, plan, e.callId, e.requestId, e.output, e.hasEvidence).1 == Ok(Some(ChapterExtraction))
  }

  /** One event leaves extraction stuck exactly when it was stuck, or stopped at its last answer. */
  lemma StuckStep(s: Study, plan: Plan, e: Event)
    requires PlanOk(plan) && Inv(s, plan)
    ensures Stuck(Apply(s, plan, e)) <==> Stuck(s) || StopsAtLastAnswer(s, plan, e)
    ensures Stuck(s) ==> Apply(s, plan, e) == s
  {
    hide ScanUnits, Commit, Inv, KeysDistinct, OneUnsettled, CallsPlaced, ConfirmedUnits, HasCalls, PlanOk;
    match e
    case DispatchEvent(input, pack, callId, requestId, now) => DispatchSticks(s, plan, e);
    case ConfirmEvent(callId, requestId, o, evidence, pack, now, stops) =>
      if Stuck(s) {
        StuckRefuses(s, plan, callId, requestId, o, evidence);
      }
      CommitKeepsInv(s, plan, callId, requestId, o, evidence);
      StuckIsDue(Commit(s, plan, callId, requestId, o, evidence).0, plan);
    case MarkEvent(callId) =>
      MarkSticks(s, plan, callId);
    case ContinueEvent(expected, authorization) =>
      ContinueSticks(s, plan, expected, authorization);
  }

  lemma StuckIsDue(s: Study, plan: Plan)
    requires Inv(s, plan)
    ensures Stuck(s) <==> Due(s, plan) && s.stage == ChapterExtraction
  {
  }

  lemma DispatchSticks(s: Study, plan: Plan, e: Event)
    requires PlanOk(plan) && Inv(s, plan) && e.DispatchEvent?
    ensures Stuck(Apply(s, plan, e)) <==> Stuck(s)
    ensures Stuck(s) ==> Apply(s, plan, e) == s
  {
    var t := Apply(s, plan, e);
    if |t.calls| > |s.calls| {
      assert t.calls[|s.calls|] in t.calls;
    }
  }

  lemma StuckRefuses(s: Study, plan: Plan, callId: string, requestId: string, o: Output, hasEvidence: bool)
    requires Stuck(s)
    ensures Commit(s, plan, callId, requestId, o, hasEvidence).1.Err?
  {
    FindCallSound(s.calls, callId);
  }

  lemma MarkSticks(s: Study, plan: Plan, callId: string)
    requires PlanOk(plan) && Inv(s, plan)
    ensures var t := MarkUnconfirmed(s, callId).0; (Stuck(t) <==> Stuck(s)) && (Stuck(s) ==> t == s)
  {
    hide ScanUnits, ConfirmedUnits, HasCalls, FindCall;
    FindCallSound(s.calls, callId);
    var found := FindCall(s.calls, callId);
    if found.Some? && s.calls[found.value].state == Dispatched {
      assert s.calls[found.value] in s.calls;
      MarkKeepsCalls(s, plan, found.value);
    }
  }

  lemma ContinueSticks(s: Study, plan: Plan, expected: Checkpoint, authorization: string)
    requires Inv(s, plan)
    ensures var t := Continue(s, expected, authorization).0; (Stuck(t) <==> Stuck(s)) && (Stuck(s) ==> t == s)
  {
    if s.stage == GoldenThree {
      SettledBelow(s, plan, ChapterExtraction);
    }
  }

  /**
   * Main result: extraction is stuck exactly when some confirmation of the run committed its last answer and stopped
   * before advancing it.
   */
  lemma {:induction false} StuckExactly(plan: Plan, events: seq<Event>, k: nat)
    requires PlanOk(plan) && FreshRun(plan, events) && k <= |events|
    ensures Stuck(Run(plan, events, k)) <==> exists j | 0 <= j < k :: StopsAtLastAnswer(Run(plan, events, j), plan, events[j])
  {
    hide Inv, Apply, PlanOk, Stuck, StopsAtLastAnswer;
    if k == 0 {
      StartIsNotStuck();
    } else {
      StuckExactly(plan, events, k - 1);
      RunKeepsInv(plan, events, k - 1);
      StuckStep(Run(plan, events, k - 1), plan, events[k - 1]);
    }
  }

  lemma StartIsNotStuck()
    ensures !Stuck(START)
  {
  }

  // ----- Studies that have come to a halt -----

  /** The outcome of some call is not known, as after a failed transport. */
  ghost predicate OutcomeUnknown(s: Study)
  {
    exists c | c in s.calls :: c.state == Unconfirmed
  }

  lemma UnknownIsOpen(s: Study, plan: Plan)
    requires Inv(s, plan) && OutcomeUnknown(s)
    ensures !AllSettled(s.calls) && (s.status == Confirmed || s.status == Running)
    ensures forall c | c in s.calls :: c.state != Dispatched
  {
    var u :| u in s.calls && u.state == Unconfirmed;
    var i :| 0 <= i < |s.calls| && s.calls[i] == u;
    forall c | c in s.calls ensures c.state != Dispatched {
      var j :| 0 <= j < |s.calls| && s.calls[j] == c;
      assert i < j || j < i || i == j;
    }
    OpenCallIsCurrent(s, plan, i);
  }

  /** No event takes a call out of that state, or sends another one. */
  lemma UnknownHalts(s: Study, plan: Plan, e: Event)
    requires Inv(s, plan) && OutcomeUnknown(s)
    ensures Apply(s, plan, e) == s
  {
    hide ScanUnits, Offered, KeysDistinct, OneUnsettled, CallsPlaced, ConfirmedUnits, HasCalls, Requestable, OutcomeUnknown;
    UnknownIsOpen(s, plan);
    match e
    case DispatchEvent(_, _, _, _, _) =>
    case ConfirmEvent(callId, _, _, _, _, _, _) => FindCallSound(s.calls, callId);
    case MarkEvent(callId) => FindCallSound(s.calls, callId);
    case ContinueEvent(_, _) =>
  }

  lemma CompleteHalts(s: Study, plan: Plan, e: Event)
    requires Inv(s, plan) && s.status == Complete
    ensures Apply(s, plan, e) == s
  {
    hide ScanUnits, Offered, KeysDistinct, OneUnsettled, CallsPlaced, ConfirmedUnits, HasCalls, Requestable;
    match e
    case DispatchEvent(_, _, _, _, _) =>
    case ConfirmEvent(callId, _, _, _, _, _, _) => FindCallSound(s.calls, callId);
    case MarkEvent(callId) => FindCallSound(s.calls, callId);
    case ContinueEvent(_, _) =>
  }

  /** An event that changes any study that is neither complete nor stuck nor waits for an unknown outcome. */
  ghost function Moving(s: Study, callId: string): Event
  {
    if s.status == PausedGoldenThree then ContinueEvent(s.checkpoint, "authorized")
    else if AllSettled(s.calls) then DispatchEvent(true, true, callId, "request", "now")
    else
      var c :| c in s.calls && c.state != Settled;
      MarkEvent(c.callId)
  }

  lemma MovingMoves(s: Study, plan: Plan, callId: string)
    requires PlanOk(plan) && Inv(s, plan) && forall c | c in s.calls :: c.callId != callId
    requires s.status != Complete && !Stuck(s) && !OutcomeUnknown(s)
    ensures FreshCall(s, Moving(s, callId)) && Apply(s, plan, Moving(s, callId)) != s
  {
    hide ScanUnits, Offered, KeysDistinct, OneUnsettled, CallsPlaced, ConfirmedUnits, HasCalls, PlanOk;
    if s.status != PausedGoldenThree {
      if AllSettled(s.calls) {
        DispatchMoves(s, plan, Moving(s, callId));
      } else {
        var c :| c in s.calls && c.state != Settled && Moving(s, callId) == MarkEvent(c.callId);
        MarkMoves(s, plan, c);
      }
    }
  }

  lemma DispatchMoves(s: Study, plan: Plan, e: Event)
    requires PlanOk(plan) && Inv(s, plan) && (s.status == Confirmed || s.status == Running) && AllSettled(s.calls)
    requires e.DispatchEvent? && e.inputAccepted && e.packAccepted && !Stuck(s)
    ensures Apply(s, plan, e) != s
  {
    hide ScanUnits, Offered, KeysDistinct, OneUnsettled, CallsPlaced, ConfirmedUnits, HasCalls, PlanOk;
    DispatchMakesProgress(s, plan, e);
    if Sent(s, plan, e).Some? {
      SentMeaning(s, plan, e);
      var c := Sent(s, plan, e).value;
      assert c !in s.calls;
    }
  }

  lemma MarkMoves(s: Study, plan: Plan, c: Call)
    requires Inv(s, plan) && c in s.calls && c.state == Dispatched
    ensures Apply(s, plan, MarkEvent(c.callId)) != s
  {
    hide ScanUnits, Offered, CallsPlaced, ConfirmedUnits, HasCalls;
    FindCallSound(s.calls, c.callId);
    var i := FindCall(s.calls, c.callId).value;
    var k :| 0 <= k < |s.calls| && s.calls[k] == c;
    assert i == k;
    assert MarkUnconfirmed(s, c.callId).0.calls[k].state == Unconfirmed;
  }

  /**
   * Main result: no event changes a study exactly when it is complete, its extraction is answered and was not advanced,
   * or the outcome of a call is unknown.
   */
  lemma HaltedExactly(s: Study, plan: Plan, callId: string)
    requires PlanOk(plan) && Inv(s, plan) && forall c | c in s.calls :: c.callId != callId
    ensures (forall e | FreshCall(s, e) :: Apply(s, plan, e) == s)
       <==> s.status == Complete || Stuck(s) || OutcomeUnknown(s)
  {
    hide Apply, Inv, PlanOk, Stuck, OutcomeUnknown, FreshCall;
    if s.status == Complete || Stuck(s) || OutcomeUnknown(s) {
      forall e | FreshCall(s, e) ensures Apply(s, plan, e) == s {
        if s.status == Complete {
          CompleteHalts(s, plan, e);
        } else if Stuck(s) {
          StuckStep(s, plan, e);
        } else {
          UnknownHalts(s, plan, e);
        }
      }
    } else {
      MovingMoves(s, plan, callId);
    }
  }

  /** Whether the event marks an open call, so that its outcome is unknown from then on. */
  predicate Marks(s: Study, e: Event)
  {
    e.MarkEvent? && MarkUnconfirmed(s, e.callId).1.None?
  }

  lemma UnknownStep(s: Study, plan: Plan, e: Event)
    requires PlanOk(plan) && Inv(s, plan)
    ensures OutcomeUnknown(Apply(s, plan, e)) <==> OutcomeUnknown(s) || Marks(s, e)
  {
    hide Inv, OutcomeUnknown, PlanOk, ScanUnits, Offered, ConfirmedUnits, Requestable, Commit, MarkUnconfirmed;
    if OutcomeUnknown(s) {
      UnknownHalts(s, plan, e);
    } else {
      match e
      case DispatchEvent(_, _, _, _, _) => DispatchIsKnown(s, plan, e);
      case ConfirmEvent(_, _, _, _, _, _, _) => ConfirmIsKnown(s, plan, e);
      case MarkEvent(callId) => MarkIsUnknown(s, callId);
      case ContinueEvent(_, _) => SameCallsKnown(s, Apply(s, plan, e));
    }
  }

  lemma SameCallsKnown(s: Study, t: Study)
    requires t.calls == s.calls
    ensures OutcomeUnknown(t) <==> OutcomeUnknown(s)
  {
  }

  lemma DispatchIsKnown(s: Study, plan: Plan, e: Event)
    requires !OutcomeUnknown(s) && e.DispatchEvent?
    ensures !OutcomeUnknown(Apply(s, plan, e))
  {
    hide ScanUnits, Offered;
  }

  lemma ConfirmIsKnown(s: Study, plan: Plan, e: Event)
    requires PlanOk(plan) && Inv(s, plan) && !OutcomeUnknown(s) && e.ConfirmEvent?
    ensures !OutcomeUnknown(Apply(s, plan, e))
  {
    hide Inv, PlanOk, FindCall, Requestable, ConfirmedUnits, HasCalls, ValidFor;
    CommitKeepsInv(s, plan, e.callId, e.requestId, e.output, e.hasEvidence);
    var t := Commit(s, plan, e.callId, e.requestId, e.output, e.hasEvidence).0;
    assert Apply(s, plan, e).calls == t.calls;
    assert !OutcomeUnknown(t);
  }

  lemma MarkIsUnknown(s: Study, callId: string)
    requires !OutcomeUnknown(s)
    ensures OutcomeUnknown(MarkUnconfirmed(s, callId).0) <==> MarkUnconfirmed(s, callId).1.None?
  {
    FindCallSound(s.calls, callId);
    var t := MarkUnconfirmed(s, callId).0;
    if MarkUnconfirmed(s, callId).1.None? {
      assert t.calls[FindCall(s.calls, callId).value] in t.calls;
    }
  }

  /**
   * Main result: a run has come to such a halt short of completion exactly when one of its events stopped at the last
   * answer of extraction, or marked an open call.
   */
  lemma {:induction false} HaltedByExactly(plan: Plan, events: seq<Event>, k: nat)
    requires PlanOk(plan) && FreshRun(plan, events) && k <= |events|
    ensures Stuck(Run(plan, events, k)) || OutcomeUnknown(Run(plan, events, k))
       <==> exists j | 0 <= j < k ::
              StopsAtLastAnswer(Run(plan, events, j), plan, events[j]) || Marks(Run(plan, events, j), events[j])
  {
    hide Inv, Apply, PlanOk, Stuck, OutcomeUnknown, StopsAtLastAnswer, Marks;
    if k == 0 {
      StartIsNotStuck();
      assert !OutcomeUnknown(START) by { StartIsKnown(); }
    } else {
      HaltedByExactly(plan, events, k - 1);
      RunKeepsInv(plan, events, k - 1);
      StuckStep(Run(plan, events, k - 1), plan, events[k - 1]);
      UnknownStep(Run(plan, events, k - 1), plan, events[k - 1]);
    }
  }

  lemma StartIsKnown()
    ensures !OutcomeUnknown(START)
  {
  }

  /** And then it stays as it is: no later dispatch, confirmation, mark or continuation changes the study. */
  lemma {:induction false} HaltedForGood(plan: Plan, events: seq<Event>, i: nat, k: nat)
    requires PlanOk(plan) && FreshRun(plan, events) && i <= k <= |events|
    requires Stuck(Run(plan, events, i)) || OutcomeUnknown(Run(plan, events, i))
    ensures Run(plan, events, k) == Run(plan, events, i)
    decreases k - i
  {
    hide Inv, Apply, PlanOk, Stuck, OutcomeUnknown, Run, FreshRun;
    if i < k {
      HaltedForGood(plan, events, i, k - 1);
      RunKeepsInv(plan, events, k - 1);
      RunNext(plan, events, k - 1);
      if Stuck(Run(plan, events, i)) {
        StuckStep(Run(plan, events, k - 1), plan, events[k - 1]);
      } else {
        UnknownHalts(Run(plan, events, k - 1), plan, events[k - 1]);
      }
    }
  }

  // ----- Two runs that halt -----

  /** The first call goes out, and its transport fails. */
  const FAILED_TRANSPORT: seq<Event> := [DispatchEvent(true, true, "c", "r", "t"), MarkEvent("c")]

  /** Main result: of any plan, the second event of a run can end the study. */
  lemma FailedTransportHalts(plan: Plan)
    requires PlanOk(plan)
    ensures FreshRun(plan, FAILED_TRANSPORT)
    ensures var s := Run(plan, FAILED_TRANSPORT, 2);
            OutcomeUnknown(s) && s.status == Confirmed && forall e :: Apply(s, plan, e) == s
  {
    var es := FAILED_TRANSPORT;
    var call := Call("c", "r", GoldenThree, plan(GoldenThree)[0], Dispatched);
    assert Run(plan, es, 1) == START.(calls := [call]) by {
      assert Run(plan, es, 0) == START;
    }
    var s := Run(plan, es, 2);
    assert s == START.(calls := [call.(state := Unconfirmed)]);
    assert s.calls[0] in s.calls;
    RunKeepsInv(plan, es, 2);
    forall e ensures Apply(s, plan, e) == s {
      UnknownHalts(s, plan, e);
    }
  }

  /**
   * The preview has one unit; it is answered, the study continues, the first chapter is answered as the last one, and
   * the process stops before it advances the stage.
   */
  const STOPPED_AT_LAST: seq<Event> := [
    DispatchEvent(true, true, "c1", "r1", "t"),
    ConfirmEvent("c1", "r1", Output(GoldenThree, true, false, [], false), true, true, "t", false),
    ContinueEvent(AtPause("t"), "authorized"),
    DispatchEvent(true, true, "c2", "r2", "t"),
    ConfirmEvent("c2", "r2", Output(ChapterExtraction, true, false, [], true), true, true, "t", true)]

  lemma PreviewRun(plan: Plan)
    requires PlanOk(plan) && |plan(GoldenThree)| == 1
    ensures Run(plan, STOPPED_AT_LAST, 1)
            == START.(calls := [Call("c1", "r1", GoldenThree, plan(GoldenThree)[0], Dispatched)])
    ensures Run(plan, STOPPED_AT_LAST, 2)
            == Study(GoldenThree, PausedGoldenThree, AtPause("t"), [Call("c1", "r1", GoldenThree, plan(GoldenThree)[0], Settled)], [])
    ensures Run(plan, STOPPED_AT_LAST, 3)
            == Study(ChapterExtraction, Running, Continued(AtPause("t"), "authorized"),
                     [Call("c1", "r1", GoldenThree, plan(GoldenThree)[0], Settled)], [])
  {
    var es := STOPPED_AT_LAST;
    var call := Call("c1", "r1", GoldenThree, plan(GoldenThree)[0], Dispatched);
    assert Run(plan, es, 0) == START;
    var s := Run(plan, es, 1);
    assert s == START.(calls := [call]);
    var done := SetState(s.calls, 0, Settled);
    assert done == [call.(state := Settled)];
    assert ConfirmedUnits(done, GoldenThree) == {call.unitKey};
    assert FindCall(s.calls, "c1") == Some(0);
  }

  lemma SendsFirst(s: Study, plan: Plan, u: string, e: Event)
    requires Offered(s, plan) == [u] && StateOf(s.calls, s.stage, u).None? && s.status == Running
    requires e.DispatchEvent? && e.inputAccepted
    ensures Apply(s, plan, e) == s.(calls := s.calls + [Call(e.callId, e.requestId, s.stage, u, Dispatched)])
  {
  }

  /** Main result: a run that leaves extraction answered and never advanced. */
  lemma StoppedAtLastHalts(plan: Plan)
    requires PlanOk(plan) && |plan(GoldenThree)| == 1
    ensures FreshRun(plan, STOPPED_AT_LAST)
    ensures var s := Run(plan, STOPPED_AT_LAST, 5);
            Stuck(s) && !OutcomeUnknown(s) && forall e :: Apply(s, plan, e) == s
  {
    hide HasCalls, ConfirmedUnits;
    var es := STOPPED_AT_LAST;
    PreviewRun(plan);
    var call := Call("c2", "r2", ChapterExtraction, plan(ChapterExtraction)[0], Dispatched);
    var s3, s4, s := Run(plan, es, 3), Run(plan, es, 4), Run(plan, es, 5);
    SettledBelow(s3.(stage := GoldenThree), plan, ChapterExtraction);
    assert Offered(s3, plan) == [plan(ChapterExtraction)[0]];
    assert s4 == Apply(s3, plan, es[3]);
    SendsFirst(s3, plan, plan(ChapterExtraction)[0], es[3]);
    assert FindCall(s4.calls[1..], "c2") == Some(0) && FindCall(s4.calls, "c2") == Some(1);
    assert s == s4.(calls := SetState(s4.calls, 1, Settled));
    RunKeepsInv(plan, es, 5);
    StuckExactly(plan, es, 5);
    forall e ensures Apply(s, plan, e) == s {
      StuckStep(s, plan, e);
    }
  }
}
