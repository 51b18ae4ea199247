/** The vault object: its transactions as loops over the indexes, with one alarm to keep. */
module SessionVault {
  import opened Common
  import opened SecretStore

  class SessionVault {
    var leases: map<string, Lease>
    var globalIndex: seq<string>
    var sessionIndex: map<string, seq<string>>
    var bindings: map<string, string>
    var tombstones: map<string, string>
    var alarm: Option<nat>

    constructor ()
      ensures Valid() && Store() == EMPTY
    {
      leases, globalIndex, sessionIndex, bindings, tombstones := map[], [], map[], map[], map[];
      alarm := None;
    }

    ghost function Store(): Store
      reads this
    {
      SecretStore.Store(leases, globalIndex, sessionIndex, bindings, tombstones)
    }

    ghost predicate Valid()
      reads this
    {
      StoreInv(Store()) && IsEarliest(leases, alarm)
    }

    method RemoveLease(leaseId: string)
      requires StoreInv(Store()) && leaseId in leases
      modifies `leases, `globalIndex, `sessionIndex
      ensures Store() == Restrict(old(Store()), old(leases).Keys - {leaseId})
      ensures StoreInv(Store())
    {
      hide StoreInv, Restrict, Keep, KeepSessions;
      RemoveIsRestrict(Store(), leaseId);
      var session := leases[leaseId].sessionId;
      leases := leases - {leaseId};
      var mine := Drop(sessionIndex[session], leaseId);
      sessionIndex := if mine != [] then sessionIndex[session := mine] else sessionIndex - {session};
      globalIndex := Drop(globalIndex, leaseId);
    }

    /** One pass over the index: ended leases go, and the earliest end of the rest becomes the alarm. */
    method ScheduleNextAlarm(now: nat)
      requires StoreInv(Store())
      modifies `leases, `globalIndex, `sessionIndex, `alarm
      ensures Store() == Purge(old(Store()), now) && Valid()
    {
      hide StoreInv, Restrict, Purge, Remaining, IsEarliest;
      ghost var before := Store();
      PassStart(before, now);
      NextAlarmIsEarliest(before, now);
      PassEnd(before, now);
      var leaseIds := globalIndex;
      var next: Option<nat> := None;
      var i := 0;
      while i < |leaseIds|
        invariant 0 <= i <= |leaseIds| && StoreInv(Store())
        invariant Store() == Restrict(before, Remaining(before, leaseIds[..i], now))
        invariant next == NextAlarm(before.leases, leaseIds[..i], now)
      {
        PassStep(before, i, now);
        assert leaseIds[..i + 1][..i] == leaseIds[..i];
        var record := leases[leaseIds[i]];
        if now >= Expiry(record) {
          RemoveLease(leaseIds[i]);
        } else {
          next := Some(if next.None? then Expiry(record) else Min(next.value, Expiry(record)));
        }
        i := i + 1;
      }
      assert leaseIds[..i] == leaseIds;
      alarm := next;
    }

    method LeaseSecret(workspaceId: string, sessionId: string, purpose: Purpose, secret: string,
                       leaseId: string, now: nat) returns (r: Result<(), VaultError>)
      requires Valid() && leaseId !in leases
      modifies this
      ensures Valid()
      ensures (Store(), r) == LeaseTx(old(Store()), leaseId,
                                      NewLease(workspaceId, sessionId, purpose, secret, leaseId, now), now)
    {
      hide StoreInv, IsEarliest, Purge;
      if sessionId in bindings && bindings[sessionId] != workspaceId { return Err(BindingInvalid); }
      if sessionId in tombstones { return Err(SessionDestroyed); }
      if |globalIndex| >= MAX_INDEX { return Err(IndexFull); }
      var record := NewLease(workspaceId, sessionId, purpose, secret, leaseId, now);
      AddLeaseKeepsInv(Store(), leaseId, record);
      bindings := bindings[sessionId := workspaceId];
      var mine := if sessionId in sessionIndex then sessionIndex[sessionId] else [];
      leases := leases[leaseId := record];
      sessionIndex := sessionIndex[sessionId := mine + [leaseId]];
      globalIndex := globalIndex + [leaseId];
      ScheduleNextAlarm(now);
      r := Ok(());
    }

    method CheckSession(workspaceId: string, sessionId: string) returns (refused: Option<VaultError>)
      ensures refused == SessionCheck(Store(), workspaceId, sessionId)
    {
      if sessionId !in bindings { return Some(BindingMissing); }
      if bindings[sessionId] != workspaceId { return Some(BindingInvalid); }
      refused := if sessionId in tombstones then Some(SessionDestroyed) else None;
    }

    /** The first transaction of a read. */
    method ReadProbe(leaseId: string, workspaceId: string, sessionId: string, now: nat)
      returns (r: Result<Lease, VaultError>)
      requires Valid()
      modifies this
      ensures Valid() && (Store(), r) == ProbeTx(old(Store()), leaseId, workspaceId, sessionId, now)
    {
      var refused := CheckSession(workspaceId, sessionId);
      if refused.Some? { return Err(refused.value); }
      if leaseId !in leases { return Err(LeaseNotFound); }
      var record := leases[leaseId];
      if !Owns(record, workspaceId, sessionId) { return Err(LeaseForbidden); }
      if now > record.lastAccessedAt + IDLE_MS || now >= record.absoluteExpiresAt {
        ghost var before := Store();
        PurgeTwice(before, before.leases.Keys - {leaseId}, now);
        RemoveLease(leaseId);
        ScheduleNextAlarm(now);
        return Err(LeaseExpired);
      }
      r := Ok(record);
    }

    /** The second transaction of a read, which records the access if nothing changed meanwhile. */
    method ReadCommit(leaseId: string, workspaceId: string, sessionId: string, probe: Lease, now: nat)
      returns (r: Result<(), VaultError>)
      requires Valid() && ProbeTimely(probe, now)
      requires leaseId in leases ==> leases[leaseId].absoluteExpiresAt == probe.absoluteExpiresAt
      modifies this
      ensures Valid() && (Store(), r) == CommitTx(old(Store()), leaseId, workspaceId, sessionId, probe, now)
    {
      var refused := CheckSession(workspaceId, sessionId);
      if refused.Some? { return Err(refused.value); }
      if leaseId !in leases { return Err(LeaseNotFound); }
      var current := leases[leaseId];
      if !Owns(current, workspaceId, sessionId) || current.lastAccessedAt != probe.lastAccessedAt
         || current.sealed != probe.sealed { return Err(LeaseConflict); }
      TouchKeepsInv(Store(), leaseId, now);
      leases := leases[leaseId := current.(lastAccessedAt := now)];
      ScheduleNextAlarm(now);
      r := Ok(());
    }

    /** A read that nothing interrupts returns the secret that was leased, and records its access. */
    method ReadSecret(leaseId: string, workspaceId: string, sessionId: string, now: nat)
      returns (r: Result<string, VaultError>)
      requires Valid() && (leaseId in leases ==> leases[leaseId].lastAccessedAt <= now)
      modifies this
      ensures Valid()
      ensures r.Ok? <==> ProbeTx(old(Store()), leaseId, workspaceId, sessionId, now).1.Ok?
      ensures r.Ok? ==> leaseId in old(leases) && r.value == old(leases)[leaseId].sealed.secret
                        && leaseId in leases && leases[leaseId] == old(leases)[leaseId].(lastAccessedAt := now)
    {
      if ProbeTx(Store(), leaseId, workspaceId, sessionId, now).1.Ok? {
        ProbeThenCommit(Store(), leaseId, workspaceId, sessionId, now);
      }
      hide StoreInv, IsEarliest, ProbeTx, CommitTx;
      var probe := ReadProbe(leaseId, workspaceId, sessionId, now);
      if probe.Err? { return Err(probe.error); }
      var plaintext := OpenSealed(probe.value, leaseId);
      if plaintext.Err? { return plaintext; }
      var updated := ReadCommit(leaseId, workspaceId, sessionId, probe.value, now);
      r := if updated.Ok? then plaintext else Err(LeaseConflict);
    }

    static lemma ProbeThenCommit(s: Store, leaseId: string, workspaceId: string, sessionId: string, now: nat)
      requires StoreInv(s) && (leaseId in s.leases ==> s.leases[leaseId].lastAccessedAt <= now)
      requires ProbeTx(s, leaseId, workspaceId, sessionId, now).1.Ok?
      ensures leaseId in s.leases
      ensures var probe := s.leases[leaseId];
              var (t, r) := CommitTx(s, leaseId, workspaceId, sessionId, probe, now);
              && ProbeTx(s, leaseId, workspaceId, sessionId, now) == (s, Ok(probe))
              && ProbeTimely(probe, now) && OpenSealed(probe, leaseId) == Ok(probe.sealed.secret)
              && r.Ok? && leaseId in t.leases && t.leases[leaseId] == probe.(lastAccessedAt := now)
    {
      hide StoreInv, SessionOk, LeaseOk, Purge, Touch, Distinct;
      TouchedStays(s, leaseId, now);
    }

    static lemma TouchedStays(s: Store, leaseId: string, now: nat)
      requires StoreInv(s) && leaseId in s.leases && now < s.leases[leaseId].absoluteExpiresAt
      ensures var t := Purge(Touch(s, leaseId, now), now);
              leaseId in t.leases && t.leases[leaseId] == s.leases[leaseId].(lastAccessedAt := now)
      ensures s.leases[leaseId].sealed.bound
              == Bound(s.leases[leaseId].workspaceId, s.leases[leaseId].sessionId, leaseId, s.leases[leaseId].purpose)
      ensures s.leases[leaseId].absoluteExpiresAt == s.leases[leaseId].createdAt + ABSOLUTE_MS
      ensures s.leases[leaseId].createdAt <= s.leases[leaseId].lastAccessedAt
    {
      hide Keep, KeepSessions, SessionOk, Distinct;
      assert LeaseOk(s, leaseId);
    }

    /** The leases of a session found in either index. */
    method CollectOwned(workspaceId: string, sessionId: string) returns (owned: seq<string>)
      requires StoreInv(Store())
      ensures Distinct(owned) && forall id | id in owned :: id in leases
      ensures Members(owned) == OwnedIds(Store(), workspaceId, sessionId)
    {
      hide StoreInv, Scanned;
      ghost var s := Store();
      var candidates := (if sessionId in sessionIndex then sessionIndex[sessionId] else []) + globalIndex;
      owned := [];
      ScanStarts(s, workspaceId, sessionId, candidates);
      var i := 0;
      while i < |candidates|
        invariant 0 <= i <= |candidates| && Scanned(s, workspaceId, sessionId, candidates[..i], owned)
      {
        var id := candidates[i];
        assert candidates[..i + 1] == candidates[..i] + [id];
        ScanSteps(s, workspaceId, sessionId, candidates[..i], owned, id);
        if id in leases && Owns(leases[id], workspaceId, sessionId) && id !in owned {
          owned := owned + [id];
        }
        i := i + 1;
      }
      assert candidates[..i] == candidates;
      ScanEnds(s, workspaceId, sessionId, candidates, owned);
    }

    /** The leases of the session among those looked at, each once. */
    static ghost predicate Scanned(s: Store, workspaceId: string, sessionId: string, seen: seq<string>, owned: seq<string>)
    {
      Distinct(owned) && forall id :: id in owned <==> id in seen && id in OwnedIds(s, workspaceId, sessionId)
    }

    static lemma ScanStarts(s: Store, workspaceId: string, sessionId: string, candidates: seq<string>)
      ensures Scanned(s, workspaceId, sessionId, candidates[..0], [])
    {
    }

    static lemma ScanSteps(s: Store, workspaceId: string, sessionId: string, seen: seq<string>, owned: seq<string>, id: string)
      requires Scanned(s, workspaceId, sessionId, seen, owned)
      ensures var next := if id in s.leases && Owns(s.leases[id], workspaceId, sessionId) && id !in owned
                          then owned + [id] else owned;
              Scanned(s, workspaceId, sessionId, seen + [id], next)
    {
    }

    static lemma ScanEnds(s: Store, workspaceId: string, sessionId: string, candidates: seq<string>, owned: seq<string>)
      requires StoreInv(s) && Scanned(s, workspaceId, sessionId, candidates, owned)
      requires forall id | id in s.globalIndex :: id in candidates
      ensures Distinct(owned) && Members(owned) == OwnedIds(s, workspaceId, sessionId)
      ensures forall id | id in owned :: id in s.leases
    {
      hide SessionOk, Distinct;
      forall id | id in s.leases ensures id in s.globalIndex {
        assert LeaseOk(s, id);
      }
    }

    /** Removes the given leases one after another. */
    method RemoveAll(owned: seq<string>)
      requires StoreInv(Store()) && Distinct(owned) && forall id | id in owned :: id in leases
      modifies `leases, `globalIndex, `sessionIndex
      ensures StoreInv(Store())
      ensures Store() == Restrict(old(Store()), old(leases).Keys - Members(owned))
    {
      hide StoreInv, Restrict;
      ghost var before := Store();
      ghost var keys := before.leases.Keys;
      RestrictToAll(before, keys);
      var i := 0;
      while i < |owned|
        invariant 0 <= i <= |owned| && StoreInv(Store())
        invariant keys == before.leases.Keys - Members(owned[..i])
        invariant Store() == Restrict(before, keys)
      {
        MembersStep(owned, i);
        KeysOfRestrict(before, keys);
        RestrictTwice(before, keys, keys - {owned[i]});
        RemoveLease(owned[i]);
        keys := keys - {owned[i]};
        i := i + 1;
      }
      assert owned[..i] == owned;
    }

    method DestroySession(workspaceId: string, sessionId: string, now: nat) returns (r: Result<nat, VaultError>)
      requires Valid()
      modifies this
      ensures Valid() && (Store(), r) == DestroyTx(old(Store()), workspaceId, sessionId, now)
    {
      hide StoreInv, IsEarliest, Restrict, OwnedIds, Purge;
      if sessionId in bindings && bindings[sessionId] != workspaceId { return Err(BindingInvalid); }
      if sessionId in tombstones { return Ok(0); }
      ghost var before := Store();
      BuriedKeepsInv(before, workspaceId, sessionId);
      NoneLeft(before, workspaceId, sessionId);
      var owned := CollectOwned(workspaceId, sessionId);
      CountDistinct(owned);
      RemoveAll(owned);
      bindings := bindings[sessionId := workspaceId];
      tombstones := tombstones[sessionId := workspaceId];
      sessionIndex := sessionIndex - {sessionId};
      assert Store() == Buried(before, workspaceId, sessionId);
      ScheduleNextAlarm(now);
      r := Ok(|owned|);
    }

    static lemma NoneLeft(s: Store, workspaceId: string, sessionId: string)
      requires StoreInv(s) && !BoundElsewhere(s, workspaceId, sessionId)
      ensures sessionId !in Buried(s, workspaceId, sessionId).sessionIndex
    {
      var t := Buried(s, workspaceId, sessionId);
      BuriedKeepsInv(s, workspaceId, sessionId);
      forall id ensures id !in t.leases || t.leases[id].sessionId != sessionId {
        assert id in t.leases ==> LeaseOk(t, id);
      }
      if sessionId in t.sessionIndex {
        SessionIdsStored(t, sessionId);
        assert t.sessionIndex[sessionId][0] in t.sessionIndex[sessionId];
      }
    }

    /** Wakes at the alarm: drops every ended lease and sets the next alarm. */
    method Alarm(now: nat)
      requires Valid()
      modifies this
      ensures Valid() && Store() == Purge(old(Store()), now)
    {
      hide StoreInv, Restrict, Remaining, IsEarliest;
      ghost var before := Store();
      PassStart(before, now);
      PassEnd(before, now);
      PurgeTwice(before, LiveIds(before, now), now);
      var leaseIds := globalIndex;
      var i := 0;
      while i < |leaseIds|
        invariant 0 <= i <= |leaseIds| && StoreInv(Store())
        invariant Store() == Restrict(before, Remaining(before, leaseIds[..i], now))
      {
        PassStep(before, i, now);
        if now >= Expiry(leases[leaseIds[i]]) {
          RemoveLease(leaseIds[i]);
        }
        i := i + 1;
      }
      assert leaseIds[..i] == leaseIds;
      ScheduleNextAlarm(now);
    }
  }

  function Members(ids: seq<string>): set<string> { set id | id in ids }

  lemma MembersStep(ids: seq<string>, i: nat)
    requires Distinct(ids) && i < |ids|
    ensures Members(ids[..i + 1]) == Members(ids[..i]) + {ids[i]} && ids[i] !in Members(ids[..i])
  {
    assert ids[..i + 1] == ids[..i] + [ids[i]];
  }

  lemma {:induction false} CountDistinct(ids: seq<string>)
    requires Distinct(ids)
    ensures |Members(ids)| == |ids|
  {
    if ids != [] {
      var rest := ids[..|ids| - 1];
      CountDistinct(rest);
      assert Members(ids) == Members(rest) + {ids[|ids| - 1]};
    }
  }
}
