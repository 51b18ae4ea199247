/**
 * The data of the secret-lease vault and its transactions: leases, a global and a per-session
 * index, session bindings and tombstones. Sealing keeps the secret with the identity its
 * authenticated data binds.
 */
module SecretStore {
  import opened Common

  const IDLE_MS := 30 * 60 * 1000
  const ABSOLUTE_MS := 8 * 60 * 60 * 1000
  const MAX_INDEX := 2048

  datatype Purpose = WorkosAccess | WorkosRefresh | ModelEndpoint

  datatype Bound = Bound(workspaceId: string, sessionId: string, leaseId: string, purpose: Purpose)

  datatype Sealed = Sealed(secret: string, bound: Bound)

  datatype Lease = Lease(
    workspaceId: string, sessionId: string, purpose: Purpose, sealed: Sealed,
    createdAt: nat, lastAccessedAt: nat, absoluteExpiresAt: nat)

  datatype Store = Store(
    leases: map<string, Lease>,
    globalIndex: seq<string>,
    sessionIndex: map<string, seq<string>>,
    bindings: map<string, string>,
    tombstones: map<string, string>)

  const EMPTY := Store(map[], [], map[], map[], map[])

  datatype VaultError =
    | BindingMissing | BindingInvalid | SessionDestroyed | LeaseNotFound | LeaseForbidden
    | LeaseExpired | LeaseConflict | IndexFull | IntegrityFailed

  function Min(a: nat, b: nat): nat { if a < b then a else b }

  /** When a lease ends: after thirty idle minutes, and never later than its absolute bound. */
  function Expiry(l: Lease): nat { Min(l.lastAccessedAt + IDLE_MS, l.absoluteExpiresAt) }

  function NewLease(workspaceId: string, sessionId: string, purpose: Purpose, secret: string, leaseId: string, now: nat): Lease
  {
    Lease(workspaceId, sessionId, purpose, Sealed(secret, Bound(workspaceId, sessionId, leaseId, purpose)),
          now, now, now + ABSOLUTE_MS)
  }

  // ----- Restricting the store to a set of leases -----

  function Keep(ids: seq<string>, keys: set<string>): seq<string>
  {
    if ids == [] then []
    else if ids[0] in keys then [ids[0]] + Keep(ids[1..], keys)
    else Keep(ids[1..], keys)
  }

  function KeepSessions(index: map<string, seq<string>>, keys: set<string>): map<string, seq<string>>
  {
    map s | s in index && Keep(index[s], keys) != [] :: Keep(index[s], keys)
  }

  /** The store with only the leases in `keys`, and both indexes cut down to match. */
  function Restrict(s: Store, keys: set<string>): Store
  {
    s.(leases := map id | id in s.leases && id in keys :: s.leases[id],
       globalIndex := Keep(s.globalIndex, keys),
       sessionIndex := KeepSessions(s.sessionIndex, keys))
  }

  function LiveIds(s: Store, now: nat): set<string>
  {
    set id | id in s.leases && now < Expiry(s.leases[id])
  }

  function Purge(s: Store, now: nat): Store { Restrict(s, LiveIds(s, now)) }

  // ----- Transactions -----

  function AddLease(s: Store, leaseId: string, lease: Lease): Store
  {
    var mine := if lease.sessionId in s.sessionIndex then s.sessionIndex[lease.sessionId] else [];
    s.(leases := s.leases[leaseId := lease],
       globalIndex := s.globalIndex + [leaseId],
       sessionIndex := s.sessionIndex[lease.sessionId := mine + [leaseId]],
       bindings := s.bindings[lease.sessionId := lease.workspaceId])
  }

  predicate BoundElsewhere(s: Store, workspaceId: string, sessionId: string)
  {
    sessionId in s.bindings && s.bindings[sessionId] != workspaceId
  }

  function LeaseTx(s: Store, leaseId: string, lease: Lease, now: nat): (Store, Result<(), VaultError>)
  {
    if BoundElsewhere(s, lease.workspaceId, lease.sessionId) then (s, Err(BindingInvalid))
    else if lease.sessionId in s.tombstones then (s, Err(SessionDestroyed))
    else if |s.globalIndex| >= MAX_INDEX then (s, Err(IndexFull))
    else (Purge(AddLease(s, leaseId, lease), now), Ok(()))
  }

  /** The checks both read transactions make before they look at the lease. */
  function SessionCheck(s: Store, workspaceId: string, sessionId: string): Option<VaultError>
  {
    if sessionId !in s.bindings then Some(BindingMissing)
    else if s.bindings[sessionId] != workspaceId then Some(BindingInvalid)
    else if sessionId in s.tombstones then Some(SessionDestroyed)
    else None
  }

  predicate Owns(l: Lease, workspaceId: string, sessionId: string)
  {
    l.workspaceId == workspaceId && l.sessionId == sessionId
  }

  function ProbeTx(s: Store, leaseId: string, workspaceId: string, sessionId: string, now: nat)
    : (Store, Result<Lease, VaultError>)
  {
    var refused := SessionCheck(s, workspaceId, sessionId);
    if refused.Some? then (s, Err(refused.value))
    else if leaseId !in s.leases then (s, Err(LeaseNotFound))
    else
      var l := s.leases[leaseId];
      if !Owns(l, workspaceId, sessionId) then (s, Err(LeaseForbidden))
      else if now > l.lastAccessedAt + IDLE_MS || now >= l.absoluteExpiresAt then (Purge(s, now), Err(LeaseExpired))
      else (s, Ok(l))
  }

  function CommitTx(s: Store, leaseId: string, workspaceId: string, sessionId: string, probe: Lease, now: nat)
    : (Store, Result<(), VaultError>)
  {
    var refused := SessionCheck(s, workspaceId, sessionId);
    if refused.Some? then (s, Err(refused.value))
    else if leaseId !in s.leases then (s, Err(LeaseNotFound))
    else
      var l := s.leases[leaseId];
      if !Owns(l, workspaceId, sessionId) || l.lastAccessedAt != probe.lastAccessedAt || l.sealed != probe.sealed
      then (s, Err(LeaseConflict))
      else (Purge(Touch(s, leaseId, now), now), Ok(()))
  }

  function Touch(s: Store, leaseId: string, now: nat): Store
    requires leaseId in s.leases
  {
    s.(leases := s.leases[leaseId := s.leases[leaseId].(lastAccessedAt := now)])
  }

  function OwnedIds(s: Store, workspaceId: string, sessionId: string): set<string>
  {
    set id | id in s.leases && Owns(s.leases[id], workspaceId, sessionId)
  }

  function Buried(s: Store, workspaceId: string, sessionId: string): Store
  {
    Restrict(s, s.leases.Keys - OwnedIds(s, workspaceId, sessionId))
      .(bindings := s.bindings[sessionId := workspaceId], tombstones := s.tombstones[sessionId := workspaceId])
  }

  function DestroyTx(s: Store, workspaceId: string, sessionId: string, now: nat): (Store, Result<nat, VaultError>)
  {
    if BoundElsewhere(s, workspaceId, sessionId) then (s, Err(BindingInvalid))
    else if sessionId in s.tombstones then (s, Ok(0))
    else (Purge(Buried(s, workspaceId, sessionId), now), Ok(|OwnedIds(s, workspaceId, sessionId)|))
  }

  // ----- Invariant -----

  ghost predicate Distinct(ids: seq<string>)
  {
    forall i, j | 0 <= i < j < |ids| :: ids[i] != ids[j]
  }

  ghost predicate LeaseOk(s: Store, id: string)
    requires id in s.leases
  {
    var l := s.leases[id];
    && id in s.globalIndex
    && l.sessionId in s.sessionIndex && id in s.sessionIndex[l.sessionId]
    && l.sessionId in s.bindings && s.bindings[l.sessionId] == l.workspaceId
    && l.sessionId !in s.tombstones
    && l.createdAt <= l.lastAccessedAt < l.absoluteExpiresAt == l.createdAt + ABSOLUTE_MS
    && l.sealed.bound == Bound(l.workspaceId, l.sessionId, id, l.purpose)
  }

  ghost predicate SessionOk(s: Store, session: string)
    requires session in s.sessionIndex
  {
    var ids := s.sessionIndex[session];
    && ids != [] && Distinct(ids)
    && forall id | id in ids :: id in s.leases && s.leases[id].sessionId == session
  }

  ghost predicate StoreInv(s: Store)
  {
    && (forall id | id in s.leases :: LeaseOk(s, id))
    && (forall id | id in s.globalIndex :: id in s.leases)
    && Distinct(s.globalIndex) && |s.globalIndex| <= MAX_INDEX
    && (forall session | session in s.sessionIndex :: SessionOk(s, session))
    && (forall session | session in s.tombstones ::
          session in s.bindings && s.bindings[session] == s.tombstones[session])
  }

  // ----- Keep and Restrict -----

  lemma {:induction false} KeepMembers(ids: seq<string>, keys: set<string>)
    ensures forall id :: id in Keep(ids, keys) <==> id in ids && id in keys
    ensures |Keep(ids, keys)| <= |ids|
    ensures Distinct(ids) ==> Distinct(Keep(ids, keys))
  {
    if ids != [] {
      KeepMembers(ids[1..], keys);
      assert ids == [ids[0]] + ids[1..];
      if Distinct(ids) {
        assert forall i, j | 0 <= i < j < |ids[1..]| :: ids[1..][i] == ids[i + 1] != ids[j + 1] == ids[1..][j];
        forall id | id in ids[1..] ensures id != ids[0] {
          var i :| 0 <= i < |ids[1..]| && ids[1..][i] == id;
          assert ids[i + 1] == id;
        }
      }
    }
  }

  lemma {:induction false} KeepAll(ids: seq<string>, keys: set<string>)
    requires forall id | id in ids :: id in keys
    ensures Keep(ids, keys) == ids
  {
    if ids != [] {
      assert ids[0] in ids;
      KeepAll(ids[1..], keys);
    }
  }

  lemma {:induction false} KeepTwice(ids: seq<string>, outer: set<string>, inner: set<string>)
    requires inner <= outer
    ensures Keep(Keep(ids, outer), inner) == Keep(ids, inner)
  {
    if ids != [] {
      KeepTwice(ids[1..], outer, inner);
      if ids[0] in outer {
        assert ([ids[0]] + Keep(ids[1..], outer))[1..] == Keep(ids[1..], outer);
      }
    }
  }

  lemma RestrictTwice(s: Store, outer: set<string>, inner: set<string>)
    requires inner <= outer
    ensures Restrict(Restrict(s, outer), inner) == Restrict(s, inner)
  {
    KeepTwice(s.globalIndex, outer, inner);
    forall session | session in s.sessionIndex
      ensures Keep(Keep(s.sessionIndex[session], outer), inner) == Keep(s.sessionIndex[session], inner)
    {
      KeepTwice(s.sessionIndex[session], outer, inner);
    }
    assert Keep([], inner) == [];
  }

  lemma KeepSessionsAll(index: map<string, seq<string>>, keys: set<string>)
    requires forall session | session in index :: index[session] != []
    requires forall session, id | session in index && id in index[session] :: id in keys
    ensures KeepSessions(index, keys) == index
  {
    forall session | session in index ensures Keep(index[session], keys) == index[session] {
      KeepAll(index[session], keys);
    }
  }

  lemma IndexedWithin(s: Store, keys: set<string>)
    requires StoreInv(s) && s.leases.Keys <= keys
    ensures forall id | id in s.globalIndex :: id in keys
    ensures forall session | session in s.sessionIndex :: s.sessionIndex[session] != []
    ensures forall session, id | session in s.sessionIndex && id in s.sessionIndex[session] :: id in keys
  {
    hide LeaseOk;
    forall session | session in s.sessionIndex
      ensures s.sessionIndex[session] != [] && forall id | id in s.sessionIndex[session] :: id in keys
    {
      assert SessionOk(s, session);
    }
  }

  lemma RestrictToAll(s: Store, keys: set<string>)
    requires StoreInv(s) && s.leases.Keys <= keys
    ensures Restrict(s, keys) == s
  {
    hide LeaseOk, KeepSessions, Keep;
    IndexedWithin(s, keys);
    KeepAll(s.globalIndex, keys);
    KeepSessionsAll(s.sessionIndex, keys);
    assert (map id | id in s.leases && id in keys :: s.leases[id]) == s.leases;
  }

  lemma RestrictKeepsInv(s: Store, keys: set<string>)
    requires StoreInv(s)
    ensures StoreInv(Restrict(s, keys))
  {
    var t := Restrict(s, keys);
    KeepMembers(s.globalIndex, keys);
    forall session | session in s.sessionIndex
      ensures forall id :: id in Keep(s.sessionIndex[session], keys) <==> id in s.sessionIndex[session] && id in keys
      ensures Distinct(Keep(s.sessionIndex[session], keys))
    {
      assert SessionOk(s, session);
      KeepMembers(s.sessionIndex[session], keys);
    }
    forall id | id in t.leases ensures LeaseOk(t, id) {
      assert LeaseOk(s, id);
    }
    forall session | session in t.sessionIndex ensures SessionOk(t, session) {
      assert SessionOk(s, session);
    }
  }

  // ----- Removing one lease -----

  function Drop(ids: seq<string>, id: string): seq<string>
  {
    if ids == [] then []
    else if ids[0] == id then Drop(ids[1..], id)
    else [ids[0]] + Drop(ids[1..], id)
  }

  /** Deleting a lease and filtering its id out of its session's index and the global one. */
  function Remove(s: Store, leaseId: string): Store
    requires leaseId in s.leases && s.leases[leaseId].sessionId in s.sessionIndex
  {
    var session := s.leases[leaseId].sessionId;
    var mine := Drop(s.sessionIndex[session], leaseId);
    s.(leases := s.leases - {leaseId},
       globalIndex := Drop(s.globalIndex, leaseId),
       sessionIndex := if mine != [] then s.sessionIndex[session := mine] else s.sessionIndex - {session})
  }

  lemma {:induction false} DropIsKeep(ids: seq<string>, id: string, keys: set<string>)
    requires forall x | x in ids :: x in keys
    ensures Drop(ids, id) == Keep(ids, keys - {id})
  {
    if ids != [] {
      assert ids[0] in ids;
      DropIsKeep(ids[1..], id, keys);
    }
  }

  lemma SessionIdsStored(s: Store, session: string)
    requires StoreInv(s) && session in s.sessionIndex
    ensures s.sessionIndex[session] != []
    ensures forall id | id in s.sessionIndex[session] :: id in s.leases && s.leases[id].sessionId == session
  {
    assert SessionOk(s, session);
  }

  /** Only the removed lease's own session loses an id. */
  lemma SessionAfterRemove(s: Store, leaseId: string, other: string)
    requires StoreInv(s) && leaseId in s.leases && other in s.sessionIndex
    ensures s.sessionIndex[other] != []
    ensures Keep(s.sessionIndex[other], s.leases.Keys - {leaseId})
            == if other == s.leases[leaseId].sessionId then Drop(s.sessionIndex[other], leaseId)
               else s.sessionIndex[other]
  {
    SessionIdsStored(s, other);
    hide StoreInv;
    if other == s.leases[leaseId].sessionId {
      DropIsKeep(s.sessionIndex[other], leaseId, s.leases.Keys);
    } else {
      KeepAll(s.sessionIndex[other], s.leases.Keys - {leaseId});
    }
  }

  lemma SessionsWithout(index: map<string, seq<string>>, keys: set<string>, session: string, mine: seq<string>)
    requires session in index && Keep(index[session], keys) == mine
    requires forall other | other in index && other != session ::
               index[other] != [] && Keep(index[other], keys) == index[other]
    ensures KeepSessions(index, keys) == if mine != [] then index[session := mine] else index - {session}
  {
  }

  lemma RemoveIsRestrict(s: Store, leaseId: string)
    requires StoreInv(s) && leaseId in s.leases
    ensures s.leases[leaseId].sessionId in s.sessionIndex
    ensures Remove(s, leaseId) == Restrict(s, s.leases.Keys - {leaseId})
    ensures StoreInv(Remove(s, leaseId))
  {
    hide StoreInv, LeaseOk, Keep, KeepSessions, Drop;
    var keys := s.leases.Keys - {leaseId};
    GlobalAfterRemove(s, leaseId);
    RestrictKeepsInv(s, keys);
    var session := s.leases[leaseId].sessionId;
    forall other | other in s.sessionIndex
      ensures s.sessionIndex[other] != []
      ensures Keep(s.sessionIndex[other], keys)
              == if other == session then Drop(s.sessionIndex[other], leaseId) else s.sessionIndex[other]
    {
      SessionAfterRemove(s, leaseId, other);
    }
    SessionsWithout(s.sessionIndex, keys, session, Drop(s.sessionIndex[session], leaseId));
    assert Remove(s, leaseId).leases == Restrict(s, keys).leases;
  }

  lemma GlobalAfterRemove(s: Store, leaseId: string)
    requires StoreInv(s) && leaseId in s.leases
    ensures s.leases[leaseId].sessionId in s.sessionIndex
    ensures Drop(s.globalIndex, leaseId) == Keep(s.globalIndex, s.leases.Keys - {leaseId})
  {
    assert LeaseOk(s, leaseId);
    DropIsKeep(s.globalIndex, leaseId, s.leases.Keys);
  }

  // ----- The passes over the global index -----

  /** The leases left once the ended ones among `seen` are gone. */
  function Remaining(s: Store, seen: seq<string>, now: nat): set<string>
  {
    set id | id in s.leases && (id in seen ==> now < Expiry(s.leases[id]))
  }

  lemma PassStart(s: Store, now: nat)
    requires StoreInv(s)
    ensures Remaining(s, [], now) == s.leases.Keys
    ensures Restrict(s, Remaining(s, [], now)) == s
  {
    RestrictToAll(s, s.leases.Keys);
  }

  /** One step of a pass: the next id is a stored lease, and removing it when ended goes on. */
  lemma PassStep(s: Store, i: nat, now: nat)
    requires StoreInv(s) && i < |s.globalIndex|
    ensures var id, seen := s.globalIndex[i], s.globalIndex[..i];
            var t := Restrict(s, Remaining(s, seen, now));
            var next := Restrict(s, Remaining(s, s.globalIndex[..i + 1], now));
            && StoreInv(t) && id in s.leases && id in t.leases && t.leases[id] == s.leases[id]
            && next == if now < Expiry(s.leases[id]) then t else Restrict(t, t.leases.Keys - {id})
  {
    var id, seen := s.globalIndex[i], s.globalIndex[..i];
    var keys := Remaining(s, seen, now);
    RestrictKeepsInv(s, keys);
    RemainingStep(s, i, now);
    KeysOfRestrict(s, keys);
    RestrictTwice(s, keys, keys - {id});
    hide StoreInv, Restrict, Remaining;
  }

  lemma KeysOfRestrict(s: Store, keys: set<string>)
    requires keys <= s.leases.Keys
    ensures Restrict(s, keys).leases.Keys == keys
    ensures forall id | id in keys :: Restrict(s, keys).leases[id] == s.leases[id]
  {
  }

  lemma RemainingStep(s: Store, i: nat, now: nat)
    requires StoreInv(s) && i < |s.globalIndex|
    ensures var id := s.globalIndex[i];
            var keys := Remaining(s, s.globalIndex[..i], now);
            && id in s.leases && id in keys && keys <= s.leases.Keys
            && Remaining(s, s.globalIndex[..i + 1], now) == if now < Expiry(s.leases[id]) then keys else keys - {id}
  {
    var id, seen := s.globalIndex[i], s.globalIndex[..i];
    assert id in s.globalIndex && id !in seen;
    hide StoreInv;
    assert s.globalIndex[..i + 1] == seen + [id];
  }

  lemma PassEnd(s: Store, now: nat)
    requires StoreInv(s)
    ensures Restrict(s, Remaining(s, s.globalIndex, now)) == Purge(s, now)
  {
    forall id | id in s.leases ensures id in s.globalIndex {
      assert LeaseOk(s, id);
    }
    assert Remaining(s, s.globalIndex, now) == LiveIds(s, now);
  }

  lemma PurgeTwice(s: Store, keys: set<string>, now: nat)
    requires LiveIds(s, now) <= keys
    ensures Purge(Restrict(s, keys), now) == Purge(s, now)
  {
    RestrictTwice(s, keys, LiveIds(s, now));
    assert LiveIds(Restrict(s, keys), now) == LiveIds(s, now);
  }

  /** The earliest end among the leases of `ids` that have not ended, as the pass computes it. */
  function NextAlarm(leases: map<string, Lease>, ids: seq<string>, now: nat): Option<nat>
  {
    if ids == [] then None
    else
      var id := ids[|ids| - 1];
      var next := NextAlarm(leases, ids[..|ids| - 1], now);
      if id !in leases || now >= Expiry(leases[id]) then next
      else Some(if next.None? then Expiry(leases[id]) else Min(next.value, Expiry(leases[id])))
  }

  /** The alarm that leases call for: their earliest end, or none. */
  ghost predicate IsEarliest(leases: map<string, Lease>, alarm: Option<nat>)
  {
    match alarm
    case None => leases == map[]
    case Some(at) =>
      && (exists id | id in leases :: Expiry(leases[id]) == at)
      && (forall id | id in leases :: at <= Expiry(leases[id]))
  }

  lemma {:induction false} NextAlarmBounds(leases: map<string, Lease>, ids: seq<string>, now: nat)
    ensures var next := NextAlarm(leases, ids, now);
            && (forall id | id in ids && id in leases && now < Expiry(leases[id]) ::
                  next.Some? && next.value <= Expiry(leases[id]))
            && (next.Some? ==> exists id | id in ids :: id in leases && now < Expiry(leases[id]) == next.value)
  {
    if ids != [] {
      NextAlarmBounds(leases, ids[..|ids| - 1], now);
      assert ids == ids[..|ids| - 1] + [ids[|ids| - 1]];
    }
  }

  lemma NextAlarmIsEarliest(s: Store, now: nat)
    requires StoreInv(s)
    ensures IsEarliest(Purge(s, now).leases, NextAlarm(s.leases, s.globalIndex, now))
  {
    var left := Purge(s, now).leases;
    NextAlarmBounds(s.leases, s.globalIndex, now);
    forall id | id in left ensures id in s.globalIndex {
      assert LeaseOk(s, id);
    }
    var next := NextAlarm(s.leases, s.globalIndex, now);
    if next.None? {
      assert forall id :: id !in left;
    } else {
      var id :| id in s.globalIndex && id in s.leases && now < Expiry(s.leases[id]) == next.value;
      assert id in left;
    }
  }

  // ----- What every transaction keeps -----

  lemma AddLeaseKeepsInv(s: Store, leaseId: string, lease: Lease)
    requires StoreInv(s) && leaseId !in s.leases && |s.globalIndex| < MAX_INDEX
    requires !BoundElsewhere(s, lease.workspaceId, lease.sessionId) && lease.sessionId !in s.tombstones
    requires lease.createdAt <= lease.lastAccessedAt < lease.absoluteExpiresAt == lease.createdAt + ABSOLUTE_MS
    requires lease.sealed.bound == Bound(lease.workspaceId, lease.sessionId, leaseId, lease.purpose)
    ensures StoreInv(AddLease(s, leaseId, lease))
  {
    var t := AddLease(s, leaseId, lease);
    forall id | id in t.leases ensures LeaseOk(t, id) {
      if id != leaseId {
        assert LeaseOk(s, id);
      }
    }
    forall session | session in t.sessionIndex ensures SessionOk(t, session) {
      if session in s.sessionIndex {
        assert SessionOk(s, session);
      }
    }
  }

  lemma TouchKeepsInv(s: Store, leaseId: string, now: nat)
    requires StoreInv(s) && leaseId in s.leases
    requires s.leases[leaseId].lastAccessedAt <= now < s.leases[leaseId].absoluteExpiresAt
    ensures StoreInv(Touch(s, leaseId, now))
  {
    var t := Touch(s, leaseId, now);
    forall id | id in t.leases ensures LeaseOk(t, id) {
      assert LeaseOk(s, id);
    }
    forall session | session in t.sessionIndex ensures SessionOk(t, session) {
      assert SessionOk(s, session);
    }
  }

  lemma BuriedKeepsInv(s: Store, workspaceId: string, sessionId: string)
    requires StoreInv(s) && !BoundElsewhere(s, workspaceId, sessionId)
    ensures StoreInv(Buried(s, workspaceId, sessionId))
  {
    var keys := s.leases.Keys - OwnedIds(s, workspaceId, sessionId);
    var r := Restrict(s, keys);
    forall id | id in r.leases ensures s.leases[id].sessionId != sessionId {
      assert LeaseOk(s, id);
    }
    RestrictKeepsInv(s, keys);
    BuryKeepsInv(r, workspaceId, sessionId);
  }

  lemma BuryKeepsInv(s: Store, workspaceId: string, sessionId: string)
    requires StoreInv(s) && !BoundElsewhere(s, workspaceId, sessionId)
    requires forall id | id in s.leases :: s.leases[id].sessionId != sessionId
    ensures StoreInv(s.(bindings := s.bindings[sessionId := workspaceId],
                        tombstones := s.tombstones[sessionId := workspaceId]))
  {
    var t := s.(bindings := s.bindings[sessionId := workspaceId],
                tombstones := s.tombstones[sessionId := workspaceId]);
    forall id | id in t.leases ensures LeaseOk(t, id) {
      assert LeaseOk(s, id);
    }
    forall session | session in t.sessionIndex ensures SessionOk(t, session) {
      assert SessionOk(s, session);
    }
  }

  /** A probe that a commit may follow: its clock value lies in the life of the lease it saw. */
  predicate ProbeTimely(probe: Lease, now: nat)
  {
    probe.lastAccessedAt <= now < probe.absoluteExpiresAt
  }

  lemma CommitKeepsInv(s: Store, leaseId: string, workspaceId: string, sessionId: string, probe: Lease, now: nat)
    requires StoreInv(s) && ProbeTimely(probe, now)
    requires leaseId in s.leases ==> s.leases[leaseId].absoluteExpiresAt == probe.absoluteExpiresAt
    ensures StoreInv(CommitTx(s, leaseId, workspaceId, sessionId, probe, now).0)
  {
    if CommitTx(s, leaseId, workspaceId, sessionId, probe, now).1.Ok? {
      TouchKeepsInv(s, leaseId, now);
      RestrictKeepsInv(Touch(s, leaseId, now), LiveIds(Touch(s, leaseId, now), now));
    }
  }

  // ----- Runs: transactions of any callers, with reads in flight -----

  /** A read between its two transactions: what its probe saw, and the clock value it took. */
  datatype Read = Read(leaseId: string, workspaceId: string, sessionId: string, probe: Lease, now: nat)

  datatype World = World(store: Store, drawn: set<string>, inFlight: map<nat, Read>, clock: nat)

  datatype Event =
    | Leased(leaseId: string, workspaceId: string, sessionId: string, purpose: Purpose, secret: string, now: nat)
    | Probed(reader: nat, leaseId: string, workspaceId: string, sessionId: string, now: nat)
    | Committed(reader: nat)
    | Destroyed(workspaceId: string, sessionId: string, now: nat)
    | Alarmed(now: nat)

  /**
   * Lease ids are drawn once, a commit ends a read in flight, and a read takes its time no earlier than the last access
   * of its lease. Any other transaction may carry a clock value older than those before it.
   */
  predicate Plausible(w: World, e: Event)
  {
    match e
    case Leased(id, _, _, _, _, _) => id !in w.drawn
    case Probed(_, id, _, _, now) => id in w.store.leases ==> w.store.leases[id].lastAccessedAt <= now
    case Committed(reader) => reader in w.inFlight
    case _ => true
  }

  function Latest(a: nat, b: nat): nat { if a < b then b else a }

  function Commit(s: Store, r: Read): (Store, Result<(), VaultError>)
  {
    CommitTx(s, r.leaseId, r.workspaceId, r.sessionId, r.probe, r.now)
  }

  function Step(w: World, e: Event): World
    requires Plausible(w, e)
  {
    match e
    case Leased(id, workspace, session, purpose, secret, now) =>
      w.(store := LeaseTx(w.store, id, NewLease(workspace, session, purpose, secret, id, now), now).0,
         drawn := w.drawn + {id}, clock := Latest(w.clock, now))
    case Probed(reader, id, workspace, session, now) =>
      var (t, r) := ProbeTx(w.store, id, workspace, session, now);
      w.(store := t, clock := Latest(w.clock, now),
         inFlight := if r.Ok? then w.inFlight[reader := Read(id, workspace, session, r.value, now)] else w.inFlight)
    case Committed(reader) =>
      w.(store := Commit(w.store, w.inFlight[reader]).0, inFlight := w.inFlight - {reader})
    case Destroyed(workspace, session, now) => w.(store := DestroyTx(w.store, workspace, session, now).0, clock := Latest(w.clock, now))
    case Alarmed(now) => w.(store := Purge(w.store, now), clock := Latest(w.clock, now))
  }

  /** The read saw the lease that its id still stands for, at a time within the lease's life. */
  ghost predicate ReadOk(w: World, r: Read)
  {
    && ProbeTimely(r.probe, r.now) && r.now <= w.clock && r.leaseId in w.drawn
    && Owns(r.probe, r.workspaceId, r.sessionId)
    && r.probe.sealed.bound == Bound(r.workspaceId, r.sessionId, r.leaseId, r.probe.purpose)
    && (r.leaseId in w.store.leases ==>
          var l := w.store.leases[r.leaseId];
          l.sealed == r.probe.sealed && l.createdAt == r.probe.createdAt
          && l.absoluteExpiresAt == r.probe.absoluteExpiresAt)
  }

  ghost predicate WorldInv(w: World)
  {
    && StoreInv(w.store)
    && (forall id | id in w.store.leases :: id in w.drawn && w.store.leases[id].lastAccessedAt <= w.clock)
    && (forall k | k in w.inFlight :: ReadOk(w, w.inFlight[k]))
  }

  lemma StepKeepsStoreInv(w: World, e: Event)
    requires WorldInv(w) && Plausible(w, e)
    ensures StoreInv(Step(w, e).store)
  {
    var s := w.store;
    match e
    case Leased(id, workspace, session, purpose, secret, now) =>
      var lease := NewLease(workspace, session, purpose, secret, id, now);
      if LeaseTx(s, id, lease, now).1.Ok? {
        AddLeaseKeepsInv(s, id, lease);
        RestrictKeepsInv(AddLease(s, id, lease), LiveIds(AddLease(s, id, lease), now));
      }
    case Probed(_, id, workspace, session, now) => RestrictKeepsInv(s, LiveIds(s, now));
    case Committed(reader) =>
      var r := w.inFlight[reader];
      assert ReadOk(w, r);
      CommitKeepsInv(s, r.leaseId, r.workspaceId, r.sessionId, r.probe, r.now);
    case Destroyed(workspace, session, now) =>
      if !BoundElsewhere(s, workspace, session) {
        BuriedKeepsInv(s, workspace, session);
        RestrictKeepsInv(Buried(s, workspace, session), LiveIds(Buried(s, workspace, session), now));
      }
    case Alarmed(now) => RestrictKeepsInv(s, LiveIds(s, now));
  }

  /** A lease that stays keeps its secret and bounds; its last access moves forward, to a read's clock. */
  lemma LeaseOnlyAges(w: World, e: Event, id: string)
    requires WorldInv(w) && Plausible(w, e) && id in Step(w, e).store.leases
    ensures var m := Step(w, e).store.leases[id];
            && m.lastAccessedAt <= Step(w, e).clock
            && (id in w.store.leases ==>
                  var l := w.store.leases[id];
                  m.sealed == l.sealed && m.createdAt == l.createdAt && m.absoluteExpiresAt == l.absoluteExpiresAt
                  && l.lastAccessedAt <= m.lastAccessedAt)
            && (id !in w.store.leases ==> e.Leased? && e.leaseId == id)
  {
    hide StoreInv;
    if e.Committed? {
      assert ReadOk(w, w.inFlight[e.reader]);
    }
  }

  lemma ProbeIsOk(w: World, e: Event)
    requires WorldInv(w) && Plausible(w, e) && e.Probed?
    requires ProbeTx(w.store, e.leaseId, e.workspaceId, e.sessionId, e.now).1.Ok?
    ensures ReadOk(Step(w, e), Step(w, e).inFlight[e.reader])
  {
    assert LeaseOk(w.store, e.leaseId);
  }

  lemma StepKeepsInv(w: World, e: Event)
    requires WorldInv(w) && Plausible(w, e)
    ensures WorldInv(Step(w, e))
  {
    hide StoreInv, LeaseTx, ProbeTx, CommitTx, DestroyTx, Purge;
    var u := Step(w, e);
    StepKeepsStoreInv(w, e);
    forall id | id in u.store.leases ensures id in u.drawn && u.store.leases[id].lastAccessedAt <= u.clock {
      LeaseOnlyAges(w, e, id);
    }
    forall k | k in u.inFlight ensures ReadOk(u, u.inFlight[k]) {
      if e.Probed? && k == e.reader && ProbeTx(w.store, e.leaseId, e.workspaceId, e.sessionId, e.now).1.Ok? {
        ProbeIsOk(w, e);
      } else {
        assert ReadOk(w, w.inFlight[k]);
        if w.inFlight[k].leaseId in u.store.leases {
          LeaseOnlyAges(w, e, w.inFlight[k].leaseId);
        }
      }
    }
  }

  predicate PlausibleRun(w: World, events: seq<Event>)
    decreases |events|
  {
    events == [] || (Plausible(w, events[0]) && PlausibleRun(Step(w, events[0]), events[1..]))
  }

  function Run(w: World, events: seq<Event>): World
    requires PlausibleRun(w, events)
    decreases |events|
  {
    if events == [] then w else Run(Step(w, events[0]), events[1..])
  }

  /** Main result: indexes, bindings, tombstones, expiry bounds and reads in flight agree after every run. */
  lemma {:induction false} RunKeepsInv(w: World, events: seq<Event>)
    requires WorldInv(w) && PlausibleRun(w, events)
    ensures WorldInv(Run(w, events))
    decreases |events|
  {
    if events != [] {
      StepKeepsInv(w, events[0]);
      RunKeepsInv(Step(w, events[0]), events[1..]);
    }
  }

  /** In every reachable store a lease is stored iff it is globally indexed iff its session lists it. */
  lemma StoredIffIndexed(s: Store, id: string)
    requires StoreInv(s)
    ensures id in s.leases <==> id in s.globalIndex
    ensures id in s.leases <==> exists session | session in s.sessionIndex :: id in s.sessionIndex[session]
    ensures forall session | session in s.sessionIndex && id in s.sessionIndex[session] ::
              id in s.leases && s.leases[id].sessionId == session && session !in s.tombstones
  {
    if id in s.leases {
      assert LeaseOk(s, id);
    }
    forall session | session in s.sessionIndex && id in s.sessionIndex[session]
      ensures id in s.leases && s.leases[id].sessionId == session && session !in s.tombstones
    {
      assert SessionOk(s, session);
      assert LeaseOk(s, id);
    }
  }

  // ----- Interleaved reads -----

  lemma {:induction false} TombstonesPersist(w: World, events: seq<Event>, session: string)
    requires PlausibleRun(w, events) && session in w.store.tombstones
    ensures session in Run(w, events).store.tombstones
    decreases |events|
  {
    if events != [] {
      assert session in Step(w, events[0]).store.tombstones;
      TombstonesPersist(Step(w, events[0]), events[1..], session);
    }
  }

  /** Main result: once a destruction of its session committed, no read in flight ends in plaintext. */
  lemma DestroyedSessionUnreadable(w: World, destroy: Event, events: seq<Event>, r: Read)
    requires destroy.Destroyed? && Plausible(w, destroy) && destroy.sessionId == r.sessionId
    requires DestroyTx(w.store, destroy.workspaceId, destroy.sessionId, destroy.now).1.Ok?
    requires PlausibleRun(Step(w, destroy), events)
    ensures Commit(Run(Step(w, destroy), events).store, r).1.Err?
  {
    assert r.sessionId in Step(w, destroy).store.tombstones;
    TombstonesPersist(Step(w, destroy), events, r.sessionId);
  }

  function OpenSealed(l: Lease, leaseId: string): Result<string, VaultError>
  {
    if l.sealed.bound == Bound(l.workspaceId, l.sessionId, leaseId, l.purpose) then Ok(l.sealed.secret)
    else Err(IntegrityFailed)
  }

  lemma LiveSurvives(s: Store, id: string, now: nat)
    requires id in s.leases && now < Expiry(s.leases[id])
    ensures id in Purge(s, now).leases && Purge(s, now).leases[id] == s.leases[id]
  {
  }

  /**
   * Main result: however other calls fell between its transactions, a read that commits found
   * the lease it had probed in a session still standing; it opens to the sealed secret, sets a
   * last access no earlier than before, and leaves an end after its own clock value and at
   * most eight hours after creation.
   */
  lemma InterleavedRead(w: World, reader: nat)
    requires WorldInv(w) && reader in w.inFlight
    ensures var r := w.inFlight[reader];
            var (t, outcome) := Commit(w.store, r);
            && OpenSealed(r.probe, r.leaseId) == Ok(r.probe.sealed.secret)
            && (outcome.Ok? ==>
                  && r.sessionId !in w.store.tombstones
                  && r.leaseId in w.store.leases && r.leaseId in t.leases
                  && w.store.leases[r.leaseId] == r.probe
                  && t.leases[r.leaseId] == r.probe.(lastAccessedAt := r.now)
                  && r.probe.lastAccessedAt <= r.now
                  && r.now < Expiry(t.leases[r.leaseId]) <= r.probe.createdAt + ABSOLUTE_MS)
  {
    hide Restrict, LiveIds;
    var r := w.inFlight[reader];
    assert ReadOk(w, r);
    if r.leaseId in w.store.leases {
      assert LeaseOk(w.store, r.leaseId);
      LiveSurvives(Touch(w.store, r.leaseId, r.now), r.leaseId, r.now);
    }
  }
}
