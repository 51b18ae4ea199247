/**
 * The plan ledger: stored proposals, the active plan of each target, and the idempotency keys of
 * activations. Proposal ids are chosen by the callers; the fingerprint is a hash of the content.
 */
module PlanLedgers {
  import opened Common

  /** What a fingerprint binds: all of a proposal but its fingerprint and status. */
  datatype Content = Content(id: string, target: string, expected: nat, body: string)

  datatype Status = Proposed | Active | Superseded | Stale

  datatype Proposal = Proposal(content: Content, fingerprint: string, status: Status)

  datatype ActivePlan = ActivePlan(proposal: Proposal, version: nat)

  /** An author's receipt; `intact` stands for its own field and fingerprint checks. */
  datatype Authorization = Authorization(intact: bool, proposalId: string, fingerprint: string, expected: nat, key: string)

  datatype Use = Use(proposalId: string, version: nat)

  datatype Error = FingerprintMismatch | NotAProposal | IdExists | ReceiptInvalid | KeyUsedElsewhere | NoLongerCurrent
    | NoSuchProposal | ProposalChanged | VersionChanged

  datatype Ledger = Ledger(proposals: map<string, Proposal>, active: map<string, ActivePlan>, uses: map<string, Use>)

  const EMPTY := Ledger(map[], map[], map[])

  type Seal = Content -> string

  predicate Sealed(p: Proposal, seal: Seal) { p.fingerprint == seal(p.content) }

  // ----- Steps -----

  /** A duplicate id is reported, but only after the stored proposal was replaced. */
  function Save(s: Ledger, p: Proposal, seal: Seal): (Ledger, Option<Error>)
  {
    if !Sealed(p, seal) then (s, Some(FingerprintMismatch))
    else if p.status != Proposed then (s, Some(NotAProposal))
    else (s.(proposals := s.proposals[p.content.id := p]), if p.content.id in s.proposals then Some(IdExists) else None)
  }

  function VersionOf(s: Ledger, target: string): nat
  {
    if target in s.active then s.active[target].version else 0
  }

  /** Why an authorization under a new key is refused. */
  function Refusal(s: Ledger, a: Authorization, seal: Seal): Option<Error>
  {
    if a.proposalId !in s.proposals then Some(NoSuchProposal)
    else
      var p := s.proposals[a.proposalId];
      if !Sealed(p, seal) then Some(FingerprintMismatch)
      else if p.fingerprint != a.fingerprint then Some(ProposalChanged)
      else if VersionOf(s, p.content.target) != a.expected || p.content.expected != a.expected then Some(VersionChanged)
      else None
  }

  function Replay(s: Ledger, a: Authorization): Result<ActivePlan, Error>
    requires a.key in s.uses && s.uses[a.key].proposalId in s.proposals
  {
    var use := s.uses[a.key];
    if use.proposalId != a.proposalId then Err(KeyUsedElsewhere)
    else
      var target := s.proposals[use.proposalId].content.target;
      if target in s.active && s.active[target].version == use.version then Ok(s.active[target]) else Err(NoLongerCurrent)
  }

  function Activation(s: Ledger, a: Authorization, seal: Seal): (Ledger, Result<ActivePlan, Error>)
    requires a.key in s.uses ==> s.uses[a.key].proposalId in s.proposals
  {
    if !a.intact then (s, Err(ReceiptInvalid))
    else if a.key in s.uses then (s, Replay(s, a))
    else
      match Refusal(s, a, seal)
      case Some(e) => (s, Err(e))
      case None =>
        var p := s.proposals[a.proposalId].(status := Active);
        var plan := ActivePlan(p, VersionOf(s, p.content.target) + 1);
        (Ledger(s.proposals[p.content.id := p], s.active[p.content.target := plan],
                s.uses[a.key := Use(p.content.id, plan.version)]),
         Ok(plan))
  }

  // ----- Runs -----

  datatype Op = SaveOp(proposal: Proposal) | ActivateOp(authorization: Authorization)

  /** One activation under a new key. */
  datatype Entry = Entry(key: string, content: Content, version: nat)

  /** The ledger with the activations that made it, in order. */
  datatype Trace = Trace(ledger: Ledger, log: seq<Entry>)

  function Next(t: Trace, op: Op, seal: Seal): Trace
    requires Inv(t, seal)
  {
    match op
    case SaveOp(p) => t.(ledger := Save(t.ledger, p, seal).0)
    case ActivateOp(a) =>
      var (s, result) := Activation(t.ledger, a, seal);
      if result.Ok? && a.key !in t.ledger.uses
      then Trace(s, t.log + [Entry(a.key, result.value.proposal.content, result.value.version)])
      else t.(ledger := s)
  }

  /** The number of activations of a target. */
  function Count(log: seq<Entry>, target: string): nat
  {
    if log == [] then 0
    else Count(log[..|log| - 1], target) + if log[|log| - 1].content.target == target then 1 else 0
  }

  ghost predicate StoreInv(s: Ledger, seal: Seal)
  {
    forall id | id in s.proposals :: s.proposals[id].content.id == id && Sealed(s.proposals[id], seal)
  }

  ghost predicate ActiveInv(s: Ledger, log: seq<Entry>)
  {
    && (forall t | t in s.active ::
         && s.active[t].proposal.content.target == t && s.active[t].proposal.status == Active
         && exists e :: e in log && e.content == s.active[t].proposal.content && e.version == s.active[t].version)
    && (forall t :: VersionOf(s, t) == Count(log, t))
  }

  ghost predicate UseInv(s: Ledger, log: seq<Entry>)
  {
    && (forall key | key in s.uses ::
         s.uses[key].proposalId in s.proposals && exists e :: e in log && e.key == key)
    && (forall e | e in log ::
         && e.key in s.uses && s.uses[e.key] == Use(e.content.id, e.version)
         && e.version == e.content.expected + 1 && e.version <= VersionOf(s, e.content.target))
  }

  /** The log of a target counts up from one; keys are used once. */
  ghost predicate LogInv(log: seq<Entry>)
  {
    && (forall i | 0 <= i < |log| :: log[i].version == Count(log[..i], log[i].content.target) + 1)
    && (forall i, j | 0 <= i < j < |log| :: log[i].key != log[j].key)
    && (forall i, j | 0 <= i < j < |log| && log[i].content.target == log[j].content.target ::
         log[i].version < log[j].version)
  }

  ghost predicate Inv(t: Trace, seal: Seal)
  {
    StoreInv(t.ledger, seal) && ActiveInv(t.ledger, t.log) && UseInv(t.ledger, t.log) && LogInv(t.log)
  }

  lemma EmptyInv(seal: Seal)
    ensures Inv(Trace(EMPTY, []), seal)
  {
  }

  lemma SaveEffect(s: Ledger, p: Proposal, seal: Seal)
    ensures var n := Save(s, p, seal).0;
      n == s || (Sealed(p, seal) && n == s.(proposals := s.proposals[p.content.id := p]))
  {
  }

  lemma SaveKeepsInv(t: Trace, p: Proposal, seal: Seal)
    requires Inv(t, seal)
    ensures Inv(Next(t, SaveOp(p), seal), seal)
  {
    hide Save, Count, LogInv, ActiveInv, UseInv, Sealed;
    var s, n := t.ledger, Save(t.ledger, p, seal).0;
    SaveEffect(s, p, seal);
    SameActive(s, n, t.log);
    SameUses(s, n, t.log);
  }

  lemma SameActive(s: Ledger, n: Ledger, log: seq<Entry>)
    requires ActiveInv(s, log) && n.active == s.active
    ensures ActiveInv(n, log)
  {
    hide Count;
    forall x ensures VersionOf(n, x) == Count(log, x) {
      assert VersionOf(s, x) == Count(log, x);
    }
  }

  lemma SameUses(s: Ledger, n: Ledger, log: seq<Entry>)
    requires UseInv(s, log) && n.active == s.active && n.uses == s.uses && s.proposals.Keys <= n.proposals.Keys
    ensures UseInv(n, log)
  {
    forall e | e in log ensures e.version <= VersionOf(n, e.content.target) {
      assert e.version <= VersionOf(s, e.content.target);
    }
  }

  lemma CountAppend(log: seq<Entry>, e: Entry, target: string)
    ensures Count(log + [e], target) == Count(log, target) + if e.content.target == target then 1 else 0
  {
    assert (log + [e])[..|log|] == log;
  }

  /** What a new activation does. */
  lemma ActivationEffect(t: Trace, a: Authorization, seal: Seal)
    requires Inv(t, seal) && a.intact && a.key !in t.ledger.uses && Refusal(t.ledger, a, seal).None?
    ensures var s, n := t.ledger, Next(t, ActivateOp(a), seal);
      var p := s.proposals[a.proposalId].(status := Active);
      var v := VersionOf(s, p.content.target) + 1;
      && p.content.id == a.proposalId && Sealed(p, seal) && v == p.content.expected + 1
      && n == Trace(Ledger(s.proposals[a.proposalId := p], s.active[p.content.target := ActivePlan(p, v)],
                           s.uses[a.key := Use(a.proposalId, v)]),
                    t.log + [Entry(a.key, p.content, v)])
  {
    hide ActiveInv, LogInv, UseInv;
  }

  lemma ActivateKeepsInv(t: Trace, a: Authorization, seal: Seal)
    requires Inv(t, seal)
    ensures Inv(Next(t, ActivateOp(a), seal), seal)
  {
    if a.intact && a.key !in t.ledger.uses && Refusal(t.ledger, a, seal).None? {
      hide Inv, Activation, Refusal, Sealed;
      ActivationEffect(t, a, seal);
      NewActivationKeepsInv(t, a.key, t.ledger.proposals[a.proposalId].(status := Active), seal);
    }
  }

  /** The ledger and log after an activation of `p` under a new key. */
  function Activated(t: Trace, key: string, p: Proposal): Trace
  {
    var s, v := t.ledger, VersionOf(t.ledger, p.content.target) + 1;
    Trace(Ledger(s.proposals[p.content.id := p], s.active[p.content.target := ActivePlan(p, v)],
                 s.uses[key := Use(p.content.id, v)]),
          t.log + [Entry(key, p.content, v)])
  }

  lemma NewActivationKeepsInv(t: Trace, key: string, p: Proposal, seal: Seal)
    requires Inv(t, seal) && key !in t.ledger.uses && p.content.id in t.ledger.proposals
    requires p.status == Active && Sealed(p, seal) && p.content.expected == VersionOf(t.ledger, p.content.target)
    ensures Inv(Activated(t, key, p), seal)
  {
    hide Sealed;
    NewActivationKeepsActive(t, key, p, seal);
    NewActivationKeepsUses(t, key, p, seal);
    NewActivationKeepsLog(t, key, p, seal);
  }

  lemma NewActivationKeepsActive(t: Trace, key: string, p: Proposal, seal: Seal)
    requires Inv(t, seal) && p.status == Active
    ensures ActiveInv(Activated(t, key, p).ledger, Activated(t, key, p).log)
  {
    hide Count, StoreInv, UseInv, LogInv, Sealed;
    var s, n := t.ledger, Activated(t, key, p);
    var e := n.log[|t.log|];
    forall x ensures VersionOf(n.ledger, x) == Count(n.log, x) {
      CountAppend(t.log, e, x);
    }
    forall x | x in n.ledger.active
      ensures exists e :: e in n.log && e.content == n.ledger.active[x].proposal.content && e.version == n.ledger.active[x].version
    {
      if x == p.content.target {
        assert e in n.log;
      } else {
        var d :| d in t.log && d.content == s.active[x].proposal.content && d.version == s.active[x].version;
        assert d in n.log;
      }
    }
  }

  lemma NewActivationKeepsUses(t: Trace, key: string, p: Proposal, seal: Seal)
    requires Inv(t, seal) && key !in t.ledger.uses && p.content.id in t.ledger.proposals
    requires p.content.expected == VersionOf(t.ledger, p.content.target)
    ensures UseInv(Activated(t, key, p).ledger, Activated(t, key, p).log)
  {
    hide Count, StoreInv, ActiveInv, LogInv, Sealed;
    var s, n := t.ledger, Activated(t, key, p);
    var e := n.log[|t.log|];
    assert n.log == t.log + [e];
    forall k | k in n.ledger.uses ensures exists e :: e in n.log && e.key == k {
      if k == key {
        assert e in n.log;
      } else {
        var d :| d in t.log && d.key == k;
        assert d in n.log;
      }
    }
    forall d | d in n.log
      ensures d.key in n.ledger.uses && n.ledger.uses[d.key] == Use(d.content.id, d.version)
      ensures d.version == d.content.expected + 1 && d.version <= VersionOf(n.ledger, d.content.target)
    {
      if d in t.log {
        assert d.key in s.uses && d.key != key;
      } else {
        assert d == e;
      }
    }
  }

  lemma NewActivationKeepsLog(t: Trace, key: string, p: Proposal, seal: Seal)
    requires Inv(t, seal) && key !in t.ledger.uses
    ensures LogInv(Activated(t, key, p).log)
  {
    hide StoreInv, Sealed, Count, Inv, LogInv, Activated;
    InvFacts(t, seal);
    var v := VersionOf(t.ledger, p.content.target) + 1;
    LogAppend(t.log, Entry(key, p.content, v));
    ActivatedLog(t, key, p);
  }

  lemma ActivatedLog(t: Trace, key: string, p: Proposal)
    ensures Activated(t, key, p).log == t.log + [Entry(key, p.content, VersionOf(t.ledger, p.content.target) + 1)]
  {
  }

  /** The log facts that the other parts of the invariant give. */
  lemma InvFacts(t: Trace, seal: Seal)
    requires Inv(t, seal)
    ensures LogInv(t.log)
    ensures forall target :: VersionOf(t.ledger, target) == Count(t.log, target)
    ensures forall e | e in t.log :: e.key in t.ledger.uses && e.version <= Count(t.log, e.content.target)
  {
    hide Count, StoreInv, LogInv;
  }

  lemma LogAppend(log: seq<Entry>, e: Entry)
    requires LogInv(log) && forall d | d in log :: d.key != e.key && d.version <= Count(log, d.content.target)
    requires e.version == Count(log, e.content.target) + 1
    ensures LogInv(log + [e])
  {
    hide Count;
    var more := log + [e];
    forall i | 0 <= i < |more| ensures more[i].version == Count(more[..i], more[i].content.target) + 1 {
      assert more[..i] == if i < |log| then log[..i] else log;
    }
    assert forall i | 0 <= i < |log| :: more[i] == log[i] && log[i] in log;
  }

  function Run(ops: seq<Op>, seal: Seal): (t: Trace)
    ensures Inv(t, seal)
  {
    if ops == [] then EmptyInv(seal); Trace(EMPTY, [])
    else
      var t, op := Run(ops[..|ops| - 1], seal), ops[|ops| - 1];
      NextKeepsInv(t, op, seal);
      Next(t, op, seal)
  }

  lemma NextKeepsInv(t: Trace, op: Op, seal: Seal)
    requires Inv(t, seal)
    ensures Inv(Next(t, op, seal), seal)
  {
    match op
    case SaveOp(p) => SaveKeepsInv(t, p, seal);
    case ActivateOp(a) => ActivateKeepsInv(t, a, seal);
  }

  // ----- What a run keeps -----

  /**
   * Main result: at most once. In any run no proposal content is activated twice, whatever keys, receipts or
   * repeated saves are used.
   */
  lemma ActivatedAtMostOnce(ops: seq<Op>, seal: Seal, i: nat, j: nat)
    requires i < j < |Run(ops, seal).log|
    ensures Run(ops, seal).log[i].content != Run(ops, seal).log[j].content
    ensures Run(ops, seal).log[i].key != Run(ops, seal).log[j].key
  {
    hide Run;
  }

  /** Main result: a target's active version counts its activations, and the n-th of them makes version n. */
  lemma VersionsCountActivations(ops: seq<Op>, seal: Seal, target: string)
    ensures VersionOf(Run(ops, seal).ledger, target) == Count(Run(ops, seal).log, target)
    ensures forall i | 0 <= i < |Run(ops, seal).log| ::
      Run(ops, seal).log[i].version == Count(Run(ops, seal).log[..i], Run(ops, seal).log[i].content.target) + 1
  {
    hide Run, Count;
  }

  /** One step raises the version of one target by one, or of none. */
  lemma StepRaisesOneVersion(t: Trace, op: Op, seal: Seal, target: string)
    requires Inv(t, seal)
    ensures var n := Next(t, op, seal);
      VersionOf(n.ledger, target) == VersionOf(t.ledger, target)
        + if |n.log| > |t.log| && n.log[|t.log|].content.target == target then 1 else 0
  {
    hide Inv, Next, Count;
    StepEffect(t, op, seal);
  }

  /** A step stores a proposal, activates a stored one under a new key, or changes nothing. */
  lemma StepEffect(t: Trace, op: Op, seal: Seal)
    requires Inv(t, seal)
    ensures var n := Next(t, op, seal);
      || n == t
      || (op.SaveOp? && n == t.(ledger := t.ledger.(proposals := t.ledger.proposals[op.proposal.content.id := op.proposal])))
      || (&& op.ActivateOp? && op.authorization.proposalId in t.ledger.proposals
          && n == Activated(t, op.authorization.key,
                            t.ledger.proposals[op.authorization.proposalId].(status := Active))
          && n.ledger.proposals[op.authorization.proposalId].content.id == op.authorization.proposalId)
  {
    hide ActiveInv, LogInv, Count;
  }

  // ----- Replays -----

  lemma UsesAreStored(t: Trace, seal: Seal)
    requires Inv(t, seal)
    ensures forall key | key in t.ledger.uses :: t.ledger.uses[key].proposalId in t.ledger.proposals
  {
  }

  lemma ReplayChangesNothing(t: Trace, a: Authorization, seal: Seal)
    requires Inv(t, seal) && a.key in t.ledger.uses
    ensures Next(t, ActivateOp(a), seal) == t
  {
  }

  /** An active plan is the one that some activation made; target and version tell which. */
  lemma ActivePlanIsLogged(t: Trace, seal: Seal, e: Entry, target: string)
    requires Inv(t, seal) && e in t.log && target in t.ledger.active
    ensures e.content == t.ledger.active[target].proposal.content
       <==> e.content.target == target && e.version == t.ledger.active[target].version
  {
    hide Count, StoreInv;
    var plan := t.ledger.active[target];
    var d :| d in t.log && d.content == plan.proposal.content && d.version == plan.version;
    var i :| 0 <= i < |t.log| && t.log[i] == e;
    var j :| 0 <= j < |t.log| && t.log[j] == d;
  }

  /** Whether the stored proposal of an activation has been replaced by one for another target. */
  predicate Retargeted(s: Ledger, e: Entry)
  {
    e.content.id in s.proposals && s.proposals[e.content.id].content.target != e.content.target
  }

  /**
   * Main result: when a replay misleads. A replay that succeeds returns exactly the plan its key activated,
   * except precisely when the stored proposal was replaced, under its id, by one for another target. Then it
   * returns that other target's plan, if the versions happen to agree.
   */
  lemma ReplayExactly(t: Trace, a: Authorization, seal: Seal, e: Entry)
    requires Inv(t, seal) && a.intact && e in t.log && e.key == a.key
    ensures var result := Activation(t.ledger, a, seal).1;
      result.Ok? ==>
        && a.proposalId == e.content.id
        && result.value.version == e.version
        && (result.value.proposal.content == e.content <==> !Retargeted(t.ledger, e))
  {
    hide Count, LogInv, ActiveInv;
    var s := t.ledger;
    assert s.uses[a.key] == Use(e.content.id, e.version);
    var target := s.proposals[e.content.id].content.target;
    if target in s.active {
      ActivePlanIsLogged(t, seal, e, target);
    }
  }

  /** Without such a replacement, a replay succeeds exactly while the activation is the target's latest. */
  lemma ReplayWhileCurrent(t: Trace, a: Authorization, seal: Seal, e: Entry)
    requires Inv(t, seal) && a.intact && e in t.log && e.key == a.key && !Retargeted(t.ledger, e)
    ensures Activation(t.ledger, a, seal).1.Ok?
       <==> a.proposalId == e.content.id && VersionOf(t.ledger, e.content.target) == e.version
  {
    assert t.ledger.uses[a.key] == Use(e.content.id, e.version);
  }

  // ----- Fresh ids -----

  /** A save that does not replace other content under the same id; ids drawn at random are always so. */
  predicate KeepsContent(s: Ledger, op: Op)
  {
    op.SaveOp? && op.proposal.content.id in s.proposals ==>
      s.proposals[op.proposal.content.id].content == op.proposal.content
  }

  predicate IdsAreFresh(ops: seq<Op>, seal: Seal)
  {
    if ops == [] then true
    else IdsAreFresh(ops[..|ops| - 1], seal) && KeepsContent(Run(ops[..|ops| - 1], seal).ledger, ops[|ops| - 1])
  }

  ghost predicate ContentStored(t: Trace)
  {
    forall e | e in t.log :: e.content.id in t.ledger.proposals && t.ledger.proposals[e.content.id].content == e.content
  }

  lemma {:induction false} FreshIdsKeepContent(ops: seq<Op>, seal: Seal)
    requires IdsAreFresh(ops, seal)
    ensures ContentStored(Run(ops, seal))
  {
    if ops != [] {
      hide Inv;
      var t, op := Run(ops[..|ops| - 1], seal), ops[|ops| - 1];
      FreshIdsKeepContent(ops[..|ops| - 1], seal);
      StepKeepsContent(t, op, seal);
    }
  }

  lemma StepKeepsContent(t: Trace, op: Op, seal: Seal)
    requires Inv(t, seal) && ContentStored(t) && KeepsContent(t.ledger, op)
    ensures ContentStored(Next(t, op, seal))
  {
    hide Inv, Next, Count;
    StepEffect(t, op, seal);
  }

  /**
   * Main result: with fresh proposal ids, a proposal id is activated at most once over a run, and replaying a
   * used key returns exactly the plan that key activated or is refused.
   */
  lemma FreshIdsReplayFaithfully(ops: seq<Op>, seal: Seal, a: Authorization, e: Entry)
    requires IdsAreFresh(ops, seal) && a.intact && e in Run(ops, seal).log && e.key == a.key
    ensures var result := Activation(Run(ops, seal).ledger, a, seal).1;
      result.Ok? ==> result.value.proposal.content == e.content && result.value.version == e.version
    ensures forall d | d in Run(ops, seal).log && d.content.id == e.content.id :: d == e
  {
    hide Inv, IdsAreFresh, Run, Activation;
    var t := Run(ops, seal);
    FreshIdsKeepContent(ops, seal);
    ReplayExactly(t, a, seal, e);
    forall d | d in t.log && d.content.id == e.content.id ensures d == e {
      var i :| 0 <= i < |t.log| && t.log[i] == e;
      var j :| 0 <= j < |t.log| && t.log[j] == d;
      if i < j {
        ActivatedAtMostOnce(ops, seal, i, j);
      } else if j < i {
        ActivatedAtMostOnce(ops, seal, j, i);
      }
    }
  }

  /**
   * Why fresh ids matter: a second proposal under a used id is reported as a duplicate, but by then it has
   * replaced the first, and replaying the first one's key returns a plan for another target.
   */
  lemma ReusedIdMisleadsReplay(seal: Seal)
    ensures var first, other, reused :=
        Content("p", "book", 0, "one"), Content("q", "volume", 0, "two"), Content("p", "volume", 0, "three");
      var s1 := Save(EMPTY, Proposal(first, seal(first), Proposed), seal).0;
      var activation := Authorization(true, "p", seal(first), 0, "key");
      var (s2, result) := Activation(s1, activation, seal);
      var s3 := Save(s2, Proposal(other, seal(other), Proposed), seal).0;
      var s4 := Activation(s3, Authorization(true, "q", seal(other), 0, "other"), seal).0;
      var (s5, error) := Save(s4, Proposal(reused, seal(reused), Proposed), seal);
      var replay := Activation(s5, activation, seal).1;
      && result.Ok? && result.value.proposal.content == first
      && error == Some(IdExists)
      && replay.Ok? && replay.value.proposal.content == other
  {
    var first, other := Content("p", "book", 0, "one"), Content("q", "volume", 0, "two");
    var s2 := Activation(Save(EMPTY, Proposal(first, seal(first), Proposed), seal).0,
                       Authorization(true, "p", seal(first), 0, "key"), seal).0;
    assert s2.active == map["book" := ActivePlan(Proposal(first, seal(first), Active), 1)];
    assert s2.uses == map["key" := Use("p", 1)];
    assert other.target !in s2.active;
  }

  // ----- The ledger -----

  class PlanLedger {
    var proposals: map<string, Proposal>
    var active: map<string, ActivePlan>
    var idempotency: map<string, Use>
    const seal: Seal
    /** The activations so far. */
    ghost var log: seq<Entry>

    ghost function State(): Trace
      reads this
    {
      Trace(Ledger(proposals, active, idempotency), log)
    }

    ghost predicate Valid()
      reads this
    {
      Inv(State(), seal)
    }

    constructor (seal: Seal)
      ensures Valid() && State() == Trace(EMPTY, []) && this.seal == seal
    {
      proposals, active, idempotency, log := map[], map[], map[], [];
      this.seal := seal;
    }

    method SaveProposal(proposal: Proposal) returns (error: Option<Error>)
      requires Valid()
      modifies this
      ensures Valid()
      ensures State() == Next(old(State()), SaveOp(proposal), seal)
      ensures error == Save(old(State().ledger), proposal, seal).1
    {
      hide Inv;
      SaveKeepsInv(State(), proposal, seal);
      if !Sealed(proposal, seal) {
        return Some(FingerprintMismatch);
      }
      if proposal.status != Proposed {
        return Some(NotAProposal);
      }
      var existed := proposal.content.id in proposals;
      proposals := proposals[proposal.content.id := proposal];
      if existed {
        return Some(IdExists);
      }
      return None;
    }

    method Activate(authorization: Authorization) returns (result: Result<ActivePlan, Error>)
      requires Valid()
      modifies this
      ensures Valid()
      ensures State() == Next(old(State()), ActivateOp(authorization), seal)
      ensures result == Activation(old(State().ledger), authorization, seal).1
    {
      hide Inv;
      ghost var before := State();
      ActivateKeepsInv(before, authorization, seal);
      UsesAreStored(before, seal);
      if !authorization.intact {
        return Err(ReceiptInvalid);
      }
      if authorization.key in idempotency {
        var prior := idempotency[authorization.key];
        if prior.proposalId != authorization.proposalId {
          return Err(KeyUsedElsewhere);
        }
        var target := proposals[prior.proposalId].content.target;
        if target in active && active[target].version == prior.version {
          return Ok(active[target]);
        }
        return Err(NoLongerCurrent);
      }
      if authorization.proposalId !in proposals {
        return Err(NoSuchProposal);
      }
      var proposal := proposals[authorization.proposalId];
      if !Sealed(proposal, seal) {
        return Err(FingerprintMismatch);
      }
      if proposal.fingerprint != authorization.fingerprint {
        return Err(ProposalChanged);
      }
      var target := proposal.content.target;
      var current := if target in active then active[target].version else 0;
      if current != authorization.expected || proposal.content.expected != authorization.expected {
        return Err(VersionChanged);
      }
      if target in active {
        active := active[target := active[target].(proposal := active[target].proposal.(status := Superseded))];
      }
      var activated := proposal.(status := Active);
      var version := current + 1;
      proposals := proposals[activated.content.id := activated];
      active := active[target := ActivePlan(activated, version)];
      idempotency := idempotency[authorization.key := Use(proposal.content.id, version)];
      log := log + [Entry(authorization.key, activated.content, version)];
      ActivationEffect(before, authorization, seal);
      assert active == before.ledger.active[target := ActivePlan(activated, version)];
      return Ok(active[target]);
    }
  }
}
