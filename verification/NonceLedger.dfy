/**
 * One-time nonces of core proofs: a bounded index beside a record store. A call first sweeps
 * expired entries; a call that then fails has deleted expired records without rewriting the
 * index, so the two agree only above the latest clock value seen.
 */
module NonceLedger {
  import opened Common
  import opened Shapes

  const SKEW_MS := 5000
  const LIFETIME_MS := 30000
  const INDEX_MAX := 256

  datatype Record = Record(
    sessionId: string, projectId: Option<string>, nonceHash: string, proofDigest: string,
    issuedAt: int, expiresAt: int, replayExpiresAt: int, consumedAt: int)

  /** An index entry repeats a record without its digest. */
  datatype Entry = Entry(
    nonceHash: string, sessionId: string, projectId: Option<string>,
    issuedAt: int, expiresAt: int, replayExpiresAt: int, consumedAt: int)

  datatype Input = Input(
    sessionId: string, projectId: Option<string>, nonce: string, proofDigest: string, issuedAt: int, expiresAt: int)

  datatype NonceError = Invalid | RecordInvalid | Capacity | Replayed | DigestConflict

  datatype Ledger = Ledger(index: Option<seq<Entry>>, records: map<string, Record>)

  const EMPTY := Ledger(None, map[])

  predicate NonceShape(s: string)
  {
    0 < |s| <= 128 && forall i | 0 <= i < |s| :: IdChar(s[i]) && s[i] != '.' && s[i] != ':'
  }

  predicate SafeInt(n: int) { -MAX_SAFE <= n <= MAX_SAFE }

  predicate ValidAt(input: Input, now: int)
  {
    && BoundedId(input.sessionId) && NonceShape(input.nonce) && Fingerprint(input.proofDigest)
    && (input.projectId.Some? ==> BoundedId(input.projectId.value))
    && SafeInt(input.issuedAt) && SafeInt(input.expiresAt)
    && input.issuedAt < input.expiresAt <= input.issuedAt + LIFETIME_MS
    && SafeInt(input.expiresAt + SKEW_MS)
    && input.issuedAt - SKEW_MS <= now <= input.expiresAt + SKEW_MS
  }

  function EntryOf(r: Record): Entry
  {
    Entry(r.nonceHash, r.sessionId, r.projectId, r.issuedAt, r.expiresAt, r.replayExpiresAt, r.consumedAt)
  }

  predicate EntryShape(e: Entry)
  {
    e.issuedAt < e.expiresAt && e.replayExpiresAt == e.expiresAt + SKEW_MS && e.consumedAt >= 0
  }

  predicate RecordShape(r: Record, nonceHash: string)
  {
    r.nonceHash == nonceHash && r.replayExpiresAt == r.expiresAt + SKEW_MS
  }

  function NewRecord(input: Input, nonceHash: string, now: int): Record
  {
    Record(input.sessionId, input.projectId, nonceHash, input.proofDigest,
           input.issuedAt, input.expiresAt, input.expiresAt + SKEW_MS, now)
  }

  // ----- The sweep over the index -----

  datatype Swept = Swept(ok: bool, live: seq<Entry>, records: map<string, Record>)

  /** Entries in order: a repeat or a mismatch stops the sweep; expired ones lose their record. */
  function Sweep(index: seq<Entry>, seen: set<string>, live: seq<Entry>, records: map<string, Record>, now: int): Swept
  {
    if index == [] then Swept(true, live, records)
    else
      var e := index[0];
      if !EntryShape(e) || e.nonceHash in seen then Swept(false, live, records)
      else if e.replayExpiresAt <= now then
        Sweep(index[1..], seen + {e.nonceHash}, live, records - {e.nonceHash}, now)
      else if e.nonceHash !in records || EntryOf(records[e.nonceHash]) != e then Swept(false, live, records)
      else Sweep(index[1..], seen + {e.nonceHash}, live + [e], records, now)
  }

  function Hashes(entries: seq<Entry>): set<string> { set i | 0 <= i < |entries| :: entries[i].nonceHash }

  function Without(entries: seq<Entry>, hash: string): seq<Entry>
  {
    if entries == [] then []
    else if entries[0].nonceHash == hash then Without(entries[1..], hash)
    else [entries[0]] + Without(entries[1..], hash)
  }

  function Consume(l: Ledger, hash: string -> string, input: Input, now: int): (Ledger, Result<(), NonceError>)
  {
    if !ValidAt(input, now) then (l, Err(Invalid))
    else if l.index.None? && l.records != map[] then (l, Err(RecordInvalid))
    else
      var index := if l.index.None? then [] else l.index.value;
      var swept := Sweep(index, {}, [], l.records, now);
      var after := Ledger(l.index, swept.records);
      var h := hash(input.nonce);
      if !swept.ok then (after, Err(RecordInvalid))
      else if |swept.live| >= INDEX_MAX && h !in Hashes(swept.live) then (after, Err(Capacity))
      else if h in swept.records && !RecordShape(swept.records[h], h) then (after, Err(RecordInvalid))
      else if h in swept.records && swept.records[h].replayExpiresAt > now then
        var previous := swept.records[h];
        (after, Err(if previous.sessionId == input.sessionId && previous.projectId == input.projectId
                       && previous.proofDigest == input.proofDigest then Replayed else DigestConflict))
      else
        var record := NewRecord(input, h, now);
        (Ledger(Some(Without(swept.live, h) + [EntryOf(record)]), swept.records[h := record]), Ok(()))
  }

  // ----- Invariant, relative to the latest clock value -----

  ghost predicate Distinct(entries: seq<Entry>)
  {
    forall i, j | 0 <= i < j < |entries| :: entries[i].nonceHash != entries[j].nonceHash
  }

  ghost predicate Agree(entries: seq<Entry>, records: map<string, Record>, clock: int)
  {
    && (forall i | 0 <= i < |entries| :: EntryShape(entries[i]))
    && (forall i | 0 <= i < |entries| && entries[i].replayExpiresAt > clock ::
          entries[i].nonceHash in records)
    && (forall i | 0 <= i < |entries| && entries[i].nonceHash in records ::
          EntryOf(records[entries[i].nonceHash]) == entries[i])
    && records.Keys <= Hashes(entries)
  }

  ghost predicate LedgerInv(l: Ledger, clock: int)
  {
    if l.index.None? then l.records == map[]
    else Distinct(l.index.value) && |l.index.value| <= INDEX_MAX && Agree(l.index.value, l.records, clock)
  }

  /** The entries of the index that have not expired, in order. */
  function LiveAt(index: seq<Entry>, now: int): seq<Entry>
  {
    if index == [] then []
    else if index[0].replayExpiresAt > now then [index[0]] + LiveAt(index[1..], now)
    else LiveAt(index[1..], now)
  }

  lemma {:induction false} LiveAtIsLive(index: seq<Entry>, now: int)
    ensures forall e :: e in LiveAt(index, now) <==> e in index && e.replayExpiresAt > now
    ensures |LiveAt(index, now)| <= |index|
    ensures Distinct(index) ==> Distinct(LiveAt(index, now))
  {
    hide Distinct;
    if index == [] {
      EmptyDistinct();
    } else {
      LiveAtIsLive(index[1..], now);
      assert index == [index[0]] + index[1..];
      if Distinct(index) {
        TailIsDistinct(index);
        if index[0].replayExpiresAt > now {
          PrependKeepsDistinct(index[0], LiveAt(index[1..], now));
        }
      }
    }
  }

  lemma EmptyDistinct()
    ensures Distinct([])
  {
  }

  lemma TailIsDistinct(entries: seq<Entry>)
    requires entries != [] && Distinct(entries)
    ensures Distinct(entries[1..]) && forall e | e in entries[1..] :: e.nonceHash != entries[0].nonceHash
  {
    forall i, j | 0 <= i < j < |entries[1..]| ensures entries[1..][i].nonceHash != entries[1..][j].nonceHash {
      assert entries[i + 1].nonceHash != entries[j + 1].nonceHash;
    }
    forall e | e in entries[1..] ensures e.nonceHash != entries[0].nonceHash {
      var i :| 0 <= i < |entries[1..]| && entries[1..][i] == e;
      assert entries[i + 1] == e;
    }
  }

  lemma PrependKeepsDistinct(e: Entry, rest: seq<Entry>)
    requires Distinct(rest) && forall x | x in rest :: x.nonceHash != e.nonceHash
    ensures Distinct([e] + rest)
  {
    var all := [e] + rest;
    forall i, j | 0 <= i < j < |all| ensures all[i].nonceHash != all[j].nonceHash {
      assert all[j] == rest[j - 1] && all[j] in rest;
      if i > 0 {
        assert all[i] == rest[i - 1];
      }
    }
  }

  function LiveRecords(records: map<string, Record>, now: int): map<string, Record>
  {
    map h | h in records && records[h].replayExpiresAt > now :: records[h]
  }

  lemma NextIsNew(done: seq<Entry>, e: Entry, rest: seq<Entry>)
    requires Distinct(done + ([e] + rest))
    ensures e.nonceHash !in Hashes(done) && Hashes(done + [e]) == Hashes(done) + {e.nonceHash}
  {
    var all, next := done + ([e] + rest), done + [e];
    forall i | 0 <= i < |done| ensures done[i].nonceHash != e.nonceHash {
      assert all[i].nonceHash != all[|done|].nonceHash;
    }
    assert forall i | 0 <= i < |done| :: next[i] == done[i];
    assert next[|done|] == e;
  }

  lemma HeadAgrees(all: seq<Entry>, i: nat, records: map<string, Record>, clock: int)
    requires i < |all| && Agree(all, records, clock)
    ensures EntryShape(all[i]) && (all[i].replayExpiresAt > clock ==> all[i].nonceHash in records)
    ensures all[i].nonceHash in records ==> EntryOf(records[all[i].nonceHash]) == all[i]
  {
  }

  lemma AllSwept(done: seq<Entry>, records: map<string, Record>, clock: int, now: int)
    requires Agree(done, records, clock)
    requires forall h | h in records && h in Hashes(done) :: records[h].replayExpiresAt > now
    ensures LiveRecords(records, now) == records
  {
  }

  lemma LiveWithout(records: map<string, Record>, h: string, now: int)
    requires h in records ==> records[h].replayExpiresAt <= now
    ensures LiveRecords(records - {h}, now) == LiveRecords(records, now)
  {
  }

  /** On an agreeing store the sweep succeeds and keeps exactly what has not expired. */
  lemma {:induction false} SweepKeepsLive(index: seq<Entry>, done: seq<Entry>, live: seq<Entry>,
                                          records: map<string, Record>, clock: int, now: int)
    requires clock <= now && Distinct(done + index) && Agree(done + index, records, clock)
    requires forall h | h in records && h in Hashes(done) :: records[h].replayExpiresAt > now
    ensures Sweep(index, Hashes(done), live, records, now)
            == Swept(true, live + LiveAt(index, now), LiveRecords(records, now))
    decreases |index|
  {
    hide Distinct, Agree, Hashes, EntryShape, LiveRecords;
    var all := done + index;
    if index == [] {
      assert all == done && live + [] == live;
      AllSwept(done, records, clock, now);
    } else {
      var e := index[0];
      assert e == all[|done|];
      assert [e] + index[1..] == index;
      NextIsNew(done, e, index[1..]);
      HeadAgrees(all, |done|, records, clock);
      var done' := done + [e];
      assert done' + index[1..] == all;
      if e.replayExpiresAt <= now {
        var rest := records - {e.nonceHash};
        AgreeAfterDelete(all, |done|, records, clock, now);
        SweepKeepsLive(index[1..], done', live, rest, now, now);
        LiveWithout(records, e.nonceHash, now);
      } else {
        SweepKeepsLive(index[1..], done', live + [e], records, clock, now);
        assert live + [e] + LiveAt(index[1..], now) == live + LiveAt(index, now);
      }
    }
  }

  lemma AgreeAfterDelete(all: seq<Entry>, i: nat, records: map<string, Record>, clock: int, now: int)
    requires clock <= now && i < |all| && Distinct(all) && Agree(all, records, clock)
    requires all[i].replayExpiresAt <= now
    ensures Agree(all, records - {all[i].nonceHash}, now)
    ensures all[i].nonceHash in records ==> records[all[i].nonceHash].replayExpiresAt <= now
  {
    var rest := records - {all[i].nonceHash};
    forall j | 0 <= j < |all| && all[j].replayExpiresAt > now ensures all[j].nonceHash in rest {
      if j < i { assert all[j].nonceHash != all[i].nonceHash; }
      if i < j { assert all[i].nonceHash != all[j].nonceHash; }
    }
  }

  // ----- What one call does to an agreeing ledger -----

  function IndexOf(l: Ledger): seq<Entry> { if l.index.None? then [] else l.index.value }

  lemma SweepOfLedger(l: Ledger, clock: int, now: int)
    requires LedgerInv(l, clock) && clock <= now
    ensures Sweep(IndexOf(l), {}, [], l.records, now)
            == Swept(true, LiveAt(IndexOf(l), now), LiveRecords(l.records, now))
  {
    var index := IndexOf(l);
    assert Hashes([]) == {} && [] + index == index && [] + LiveAt(index, now) == LiveAt(index, now);
    SweepKeepsLive(index, [], [], l.records, clock, now);
  }

  lemma HashesOfLive(l: Ledger, clock: int, now: int)
    requires LedgerInv(l, clock) && clock <= now
    ensures Hashes(LiveAt(IndexOf(l), now)) == LiveRecords(l.records, now).Keys
    ensures Agree(LiveAt(IndexOf(l), now), LiveRecords(l.records, now), now)
  {
    var index, live, records := IndexOf(l), LiveAt(IndexOf(l), now), LiveRecords(l.records, now);
    LiveAtIsLive(index, now);
    forall i | 0 <= i < |live|
      ensures EntryShape(live[i]) && live[i].nonceHash in records && EntryOf(records[live[i].nonceHash]) == live[i]
    {
      assert live[i] in live;
      var k :| 0 <= k < |index| && index[k] == live[i];
    }
    forall h | h in records ensures h in Hashes(live) {
      assert h in Hashes(index);
      var k :| 0 <= k < |index| && index[k].nonceHash == h;
      assert index[k] in live;
    }
  }

  lemma {:induction false} WithoutAbsent(entries: seq<Entry>, h: string)
    requires h !in Hashes(entries)
    ensures Without(entries, h) == entries
  {
    if entries != [] {
      assert forall i | 0 <= i < |entries[1..]| :: entries[1..][i] == entries[i + 1];
      assert entries[0].nonceHash in Hashes(entries);
      WithoutAbsent(entries[1..], h);
    }
  }

  /** The unexpired record that blocks a nonce, if there is one. */
  predicate Blocked(l: Ledger, h: string, now: int)
  {
    h in l.records && l.records[h].replayExpiresAt > now
  }

  /** Main result: on an agreeing ledger the answer and the new state are these, and no answer finds damage. */
  lemma ConsumeExactly(l: Ledger, hash: string -> string, input: Input, clock: int, now: int)
    requires LedgerInv(l, clock) && clock <= now && ValidAt(input, now)
    ensures var h := hash(input.nonce);
            var (l', r) := Consume(l, hash, input, now);
            var live := LiveAt(IndexOf(l), now);
            && (r.Ok? <==> !Blocked(l, h, now) && |live| < INDEX_MAX)
            && r != Err(RecordInvalid)
            && (r == Err(Replayed) || r == Err(DigestConflict) <==> Blocked(l, h, now))
            && (r.Ok? ==> l' == Ledger(Some(live + [EntryOf(NewRecord(input, h, now))]),
                                       LiveRecords(l.records, now)[h := NewRecord(input, h, now)]))
            && (r.Err? ==> l' == Ledger(l.index, LiveRecords(l.records, now)))
  {
    hide Sweep, Distinct, ValidAt, Without;
    SweepOfLedger(l, clock, now);
    HashesOfLive(l, clock, now);
    if hash(input.nonce) !in LiveRecords(l.records, now) {
      WithoutAbsent(LiveAt(IndexOf(l), now), hash(input.nonce));
    }
  }

  lemma ConsumeKeepsInv(l: Ledger, hash: string -> string, input: Input, clock: int, now: int)
    requires LedgerInv(l, clock) && clock <= now && 0 <= now
    ensures LedgerInv(Consume(l, hash, input, now).0, now)
  {
    if ValidAt(input, now) {
      ConsumeExactly(l, hash, input, clock, now);
      var (l', r) := Consume(l, hash, input, now);
      if r.Ok? {
        AppendKeepsInv(l, hash(input.nonce), NewRecord(input, hash(input.nonce), now), clock, now);
      }
    }
  }

  lemma LiveIsDistinct(l: Ledger, clock: int, now: int)
    requires LedgerInv(l, clock)
    ensures Distinct(LiveAt(IndexOf(l), now))
  {
    hide LiveAt, Agree;
    LiveAtIsLive(IndexOf(l), now);
  }

  lemma NotBlockedIsAbsent(l: Ledger, h: string, now: int)
    ensures Blocked(l, h, now) <==> h in LiveRecords(l.records, now)
  {
  }

  lemma AppendKeepsInv(l: Ledger, h: string, record: Record, clock: int, now: int)
    requires LedgerInv(l, clock) && clock <= now && !Blocked(l, h, now) && |LiveAt(IndexOf(l), now)| < INDEX_MAX
    requires record.nonceHash == h && EntryShape(EntryOf(record))
    ensures LedgerInv(Ledger(Some(LiveAt(IndexOf(l), now) + [EntryOf(record)]),
                             LiveRecords(l.records, now)[h := record]), now)
  {
    hide LiveAt, LiveRecords, EntryShape, IndexOf;
    var live, records := LiveAt(IndexOf(l), now), LiveRecords(l.records, now);
    HashesOfLive(l, clock, now);
    LiveIsDistinct(l, clock, now);
    NotBlockedIsAbsent(l, h, now);
    var entries := live + [EntryOf(record)];
    forall i | 0 <= i < |live| ensures live[i].nonceHash != h {
      assert live[i].nonceHash in Hashes(live);
    }
    assert entries[|live|].nonceHash == h;
    forall k | k in records[h := record] ensures k in Hashes(entries) {
      if k != h {
        assert k in Hashes(live);
        var i :| 0 <= i < |live| && live[i].nonceHash == k;
        assert entries[i].nonceHash == k;
      }
    }
  }

  // ----- Runs under a clock that never goes back -----

  datatype Call = Call(input: Input, now: nat)

  ghost predicate Monotone(calls: seq<Call>)
  {
    forall i, j | 0 <= i < j < |calls| :: calls[i].now <= calls[j].now
  }

  ghost function After(hash: string -> string, calls: seq<Call>, k: nat): Ledger
    requires k <= |calls|
  {
    if k == 0 then EMPTY else Consume(After(hash, calls, k - 1), hash, calls[k - 1].input, calls[k - 1].now).0
  }

  ghost predicate Consumed(hash: string -> string, calls: seq<Call>, k: nat)
    requires k < |calls|
  {
    Consume(After(hash, calls, k), hash, calls[k].input, calls[k].now).1.Ok?
  }

  function ClockBefore(calls: seq<Call>, k: nat): nat
    requires k <= |calls|
  {
    if k == 0 then 0 else calls[k - 1].now
  }

  lemma {:induction false} RunKeepsInv(hash: string -> string, calls: seq<Call>, k: nat)
    requires Monotone(calls) && k <= |calls|
    ensures LedgerInv(After(hash, calls, k), ClockBefore(calls, k))
  {
    if k > 0 {
      RunKeepsInv(hash, calls, k - 1);
      ConsumeKeepsInv(After(hash, calls, k - 1), hash, calls[k - 1].input, ClockBefore(calls, k - 1), calls[k - 1].now);
    }
  }

  /** An unexpired record outlives every call made before its expiry. */
  lemma {:induction false} RecordOutlives(hash: string -> string, calls: seq<Call>, i: nat, j: nat, h: string, record: Record)
    requires Monotone(calls) && i <= j < |calls| && calls[j].now < record.replayExpiresAt
    requires h in After(hash, calls, i).records && After(hash, calls, i).records[h] == record
    ensures h in After(hash, calls, j).records && After(hash, calls, j).records[h] == record
    decreases j - i
  {
    if i < j {
      RecordOutlives(hash, calls, i, j - 1, h, record);
      RunKeepsInv(hash, calls, j - 1);
      var c := calls[j - 1];
      if ValidAt(c.input, c.now) {
        ConsumeExactly(After(hash, calls, j - 1), hash, c.input, ClockBefore(calls, j - 1), c.now);
      }
    }
  }

  lemma ConsumedIsRecorded(hash: string -> string, calls: seq<Call>, k: nat)
    requires Monotone(calls) && k < |calls| && Consumed(hash, calls, k)
    ensures var h := hash(calls[k].input.nonce);
            && !Blocked(After(hash, calls, k), h, calls[k].now)
            && h in After(hash, calls, k + 1).records
            && After(hash, calls, k + 1).records[h] == NewRecord(calls[k].input, h, calls[k].now)
  {
    RunKeepsInv(hash, calls, k);
    ConsumeExactly(After(hash, calls, k), hash, calls[k].input, ClockBefore(calls, k), calls[k].now);
  }

  /** Main result: no nonce is consumed again before the first consumption's replay expiry. */
  lemma NoReplay(hash: string -> string, calls: seq<Call>, i: nat, j: nat)
    requires Monotone(calls) && i < j < |calls|
    requires hash(calls[i].input.nonce) == hash(calls[j].input.nonce)
    requires Consumed(hash, calls, i) && Consumed(hash, calls, j)
    ensures calls[j].now >= calls[i].input.expiresAt + SKEW_MS
  {
    hide Consume;
    var h := hash(calls[i].input.nonce);
    ConsumedIsRecorded(hash, calls, i);
    ConsumedIsRecorded(hash, calls, j);
    if calls[j].now < calls[i].input.expiresAt + SKEW_MS {
      RecordOutlives(hash, calls, i + 1, j, h, NewRecord(calls[i].input, h, calls[i].now));
    }
  }

  /** The bound is exact: at the replay expiry itself the same nonce is accepted once more. */
  lemma ReplayAtExpiry(hash: string -> string, input: Input, now: int)
    requires ValidAt(input, now) && 0 <= now
    ensures var (l, r) := Consume(EMPTY, hash, input, now);
            r.Ok? && Consume(l, hash, input, input.expiresAt + SKEW_MS).1.Ok?
  {
    var later := input.expiresAt + SKEW_MS;
    ConsumeExactly(EMPTY, hash, input, now, now);
    ConsumeKeepsInv(EMPTY, hash, input, now, now);
    var l := Consume(EMPTY, hash, input, now).0;
    ConsumeExactly(l, hash, input, now, later);
    LiveAtIsLive(IndexOf(l), later);
  }

  // ----- The ledger object -----

  class CoreNonceLedger {
    const hash: string -> string
    var index: Option<seq<Entry>>
    var records: map<string, Record>
    /** The clock value of the latest call. */
    ghost var clock: int

    constructor (hash: string -> string)
      ensures this.hash == hash && State() == EMPTY && clock == 0 && Valid()
    {
      this.hash := hash;
      index := None;
      records := map[];
      clock := 0;
    }

    ghost predicate Valid()
      reads this
    {
      LedgerInv(State(), clock)
    }

    lemma ConsumedIsValid(input: Input, now: int)
      ensures Valid() && clock <= now && 0 <= now ==> LedgerInv(Consume(State(), hash, input, now).0, now)
    {
      if Valid() && clock <= now && 0 <= now {
        ConsumeKeepsInv(State(), hash, input, clock, now);
      }
    }

    ghost function State(): Ledger
      reads this
    {
      Ledger(index, records)
    }

    /** One pass over the index, deleting expired records in place and collecting live entries. */
    method SweepIndex(entries: seq<Entry>, now: int) returns (ok: bool, liveIndex: seq<Entry>)
      modifies this`records
      ensures Swept(ok, liveIndex, records) == Sweep(entries, {}, [], old(records), now)
    {
      liveIndex := [];
      var seen := {};
      var i := 0;
      assert entries[0..] == entries;
      while i < |entries|
        invariant 0 <= i <= |entries|
        invariant Sweep(entries[i..], seen, liveIndex, records, now) == Sweep(entries, {}, [], old(records), now)
      {
        var entry := entries[i];
        assert entries[i..][1..] == entries[i + 1..];
        if !EntryShape(entry) || entry.nonceHash in seen { return false, liveIndex; }
        seen := seen + {entry.nonceHash};
        if entry.replayExpiresAt <= now {
          records := records - {entry.nonceHash};
        } else {
          if entry.nonceHash !in records || EntryOf(records[entry.nonceHash]) != entry { return false, liveIndex; }
          liveIndex := liveIndex + [entry];
        }
        i := i + 1;
      }
      ok := true;
    }

    method ConsumeCoreNonce(input: Input, now: int) returns (r: Result<(), NonceError>)
      modifies this
      ensures (State(), r) == Consume(old(State()), hash, input, now)
      ensures old(Valid()) && old(clock) <= now && 0 <= now ==> Valid() && clock == now
    {
      ConsumedIsValid(input, now);
      clock := now;
      if !ValidAt(input, now) { return Err(Invalid); }
      var nonceHash := hash(input.nonce);
      if index.None? && records != map[] { return Err(RecordInvalid); }
      var ok, liveIndex := SweepIndex(if index.None? then [] else index.value, now);
      if !ok { return Err(RecordInvalid); }
      if |liveIndex| >= INDEX_MAX && nonceHash !in Hashes(liveIndex) { return Err(Capacity); }
      if nonceHash in records {
        var previous := records[nonceHash];
        if !RecordShape(previous, nonceHash) { return Err(RecordInvalid); }
        if previous.replayExpiresAt > now {
          return Err(if previous.sessionId == input.sessionId && previous.projectId == input.projectId
                        && previous.proofDigest == input.proofDigest then Replayed else DigestConflict);
        }
      }
      var record := NewRecord(input, nonceHash, now);
      records := records[nonceHash := record];
      index := Some(Without(liveIndex, nonceHash) + [EntryOf(record)]);
      r := Ok(());
    }
  }
}
