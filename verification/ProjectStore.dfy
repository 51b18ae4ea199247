/**
 * The encrypted object store: one sealed envelope per workspace, project and content hash,
 * written only when the key is free. Sealing is modelled as recording the plaintext with the
 * key version and the identity that the authenticated data binds.
 */
module ProjectStore {
  import opened Common
  import opened Shapes
  import opened CoordinatorState

  newtype byte = x: int | 0 <= x < 256
  type Bytes = seq<byte>

  datatype Envelope = Envelope(
    keyVersion: string, workspaceId: string, projectId: string, versionId: string, plaintext: Bytes)

  /** One workspace and the hash functions of its deployment. */
  datatype Config = Config(
    workspaceId: string,
    workspaceHash: string,
    contentHash: Bytes -> string,
    requestHash: (string, string, nat, string, nat) -> string)

  /** The keys one request runs with: the one that seals, and perhaps its predecessor. */
  datatype Keys = Keys(current: string, previous: Option<string>)

  function Ring(keys: Keys): set<string>
  {
    {keys.current} + if keys.previous.Some? then {keys.previous.value} else {}
  }

  datatype StoreError =
    | NotFound
    | EnvelopeInvalid
    | IntegrityFailed
    | PointerInvalid
    | TransportLimit
    | ContentConflict
    | GcInvalid
    | DeletePending

  function ObjectKey(cfg: Config, projectId: string, versionId: string): string
  {
    "v2/" + cfg.workspaceHash + "/" + (projectId + "/versions/" + versionId + ".qfbundle")
  }

  predicate TransportSize(bytes: Bytes) { 0 < |bytes| <= MAX_VERSION_BYTES }

  // ----- Keys -----

  lemma {:induction false} SplitAtSlash(a: string, b: string, x: string, y: string)
    requires forall i | 0 <= i < |a| :: a[i] != '/'
    requires forall i | 0 <= i < |b| :: b[i] != '/'
    requires a + "/" + x == b + "/" + y
    ensures a == b && x == y
  {
    var s := a + "/" + x;
    assert s[|a|] == '/' && s[|b|] == '/';
    assert a == s[..|a|] && b == s[..|b|];
    assert x == s[|a| + 1..] && y == s[|b| + 1..];
  }

  lemma ConcatInjective(a: string, x: string, y: string)
    ensures a + x == a + y ==> x == y
    ensures x + a == y + a ==> x == y
  {
    assert (a + x)[|a|..] == x && (a + y)[|a|..] == y;
    assert (x + a)[..|x|] == x && (y + a)[..|y|] == y;
    assert x + a == y + a ==> |x| == |y|;
  }

  /** Within a workspace an object key names one project and one version. */
  lemma ObjectKeyInjective(cfg: Config, p: string, v: string, q: string, w: string)
    requires BoundedProjectId(p) && BoundedProjectId(q)
    requires ObjectKey(cfg, p, v) == ObjectKey(cfg, q, w)
    ensures p == q && v == w
  {
    var tailP := p + "/versions/" + v + ".qfbundle";
    var tailQ := q + "/versions/" + w + ".qfbundle";
    ConcatInjective("v2/" + cfg.workspaceHash + "/", tailP, tailQ);
    var restP := "versions/" + (v + ".qfbundle");
    var restQ := "versions/" + (w + ".qfbundle");
    assert tailP == p + "/" + restP && tailQ == q + "/" + restQ;
    SplitAtSlash(p, q, restP, restQ);
    ConcatInjective("versions/", v + ".qfbundle", w + ".qfbundle");
    ConcatInjective(".qfbundle", v, w);
  }

  // ----- Operations -----

  type Bucket = map<string, Envelope>

  /** Opening an object checks every bound field, the key ring and the content hash. */
  function Open(cfg: Config, keys: Keys, bucket: Bucket, projectId: string, versionId: string): Result<Bytes, StoreError>
  {
    var key := ObjectKey(cfg, projectId, versionId);
    if key !in bucket then Err(NotFound)
    else
      var e := bucket[key];
      if e.keyVersion !in Ring(keys) || e.workspaceId != cfg.workspaceId
         || e.projectId != projectId || e.versionId != versionId || !TransportSize(e.plaintext) then
        Err(EnvelopeInvalid)
      else if cfg.contentHash(e.plaintext) != versionId then Err(IntegrityFailed)
      else Ok(e.plaintext)
  }

  function SealedBundle(cfg: Config, keys: Keys, projectId: string, bundle: Bytes): Envelope
  {
    Envelope(keys.current, cfg.workspaceId, projectId, cfg.contentHash(bundle), bundle)
  }

  /** Stores the bundle if its key is free, and otherwise checks that the same bytes are there. */
  function Put(cfg: Config, keys: Keys, bucket: Bucket, projectId: string, bundle: Bytes)
    : (Bucket, Result<string, StoreError>)
  {
    var versionId := cfg.contentHash(bundle);
    var key := ObjectKey(cfg, projectId, versionId);
    if !TransportSize(bundle) then (bucket, Err(TransportLimit))
    else if key in bucket then
      var existing := Open(cfg, keys, bucket, projectId, versionId);
      (bucket, if existing.Err? then Err(existing.error)
               else if existing.value != bundle then Err(ContentConflict) else Ok(versionId))
    else
      (bucket[key := SealedBundle(cfg, keys, projectId, bundle)], Ok(versionId))
  }

  predicate MayRead(cfg: Config, projectId: string, q: Pointer)
  {
    && q.workspaceId == cfg.workspaceId && Fingerprint(q.versionId) && Fingerprint(q.plaintextFingerprint)
    && q.objectKey == ObjectKey(cfg, projectId, q.versionId)
  }

  function Read(cfg: Config, keys: Keys, bucket: Bucket, projectId: string, q: Pointer): Result<Bytes, StoreError>
  {
    if q.state != Live || !MayRead(cfg, projectId, q) then Err(PointerInvalid)
    else
      var found := Open(cfg, keys, bucket, projectId, q.versionId);
      if found.Ok? && cfg.contentHash(found.value) != q.plaintextFingerprint then Err(IntegrityFailed) else found
  }

  predicate MayCollect(cfg: Config, projectId: string, receipt: GcReceipt)
  {
    && receipt.id.workspaceId == cfg.workspaceId && !receipt.completed
    && Fingerprint(receipt.versionId) && Fingerprint(receipt.id.plaintextFingerprint)
    && 0 < receipt.byteSize <= MAX_VERSION_BYTES
    && receipt.id.objectKey == ObjectKey(cfg, projectId, receipt.versionId)
  }

  /** Every stored envelope sits under its own key and holds the bytes its version names. */
  ghost predicate BucketInv(cfg: Config, bucket: Bucket)
  {
    forall k | k in bucket ::
      var e := bucket[k];
      && k == ObjectKey(cfg, e.projectId, e.versionId)
      && BoundedProjectId(e.projectId)
      && e.workspaceId == cfg.workspaceId
      && TransportSize(e.plaintext)
      && cfg.contentHash(e.plaintext) == e.versionId
  }

  lemma PutKeepsInv(cfg: Config, keys: Keys, bucket: Bucket, projectId: string, bundle: Bytes)
    requires BucketInv(cfg, bucket) && BoundedProjectId(projectId)
    ensures var (b, r) := Put(cfg, keys, bucket, projectId, bundle);
            && BucketInv(cfg, b)
            && bucket.Keys <= b.Keys
            && (r.Ok? ==> r.value == cfg.contentHash(bundle) && ObjectKey(cfg, projectId, r.value) in b)
  {
  }

  /** A present object opens exactly when its key version is still in the ring, and to bytes of its hash. */
  lemma OpenExactly(cfg: Config, keys: Keys, bucket: Bucket, projectId: string, versionId: string)
    requires BucketInv(cfg, bucket) && BoundedProjectId(projectId)
    ensures var key := ObjectKey(cfg, projectId, versionId);
            var r := Open(cfg, keys, bucket, projectId, versionId);
            && (r.Ok? <==> key in bucket && bucket[key].keyVersion in Ring(keys))
            && (r.Ok? ==> cfg.contentHash(r.value) == versionId)
  {
    var key := ObjectKey(cfg, projectId, versionId);
    if key in bucket {
      ObjectKeyInjective(cfg, projectId, versionId, bucket[key].projectId, bucket[key].versionId);
    }
  }

  /** What was put is what is opened, under the same keys. */
  lemma PutThenOpen(cfg: Config, keys: Keys, bucket: Bucket, projectId: string, bundle: Bytes)
    requires BucketInv(cfg, bucket) && BoundedProjectId(projectId)
    requires Put(cfg, keys, bucket, projectId, bundle).1.Ok?
    ensures Open(cfg, keys, Put(cfg, keys, bucket, projectId, bundle).0, projectId, cfg.contentHash(bundle)) == Ok(bundle)
  {
  }

  /** The object service: envelopes under their keys, shared by all requests. */
  class ObjectBucket {
    var objects: Bucket

    constructor ()
      ensures objects == map[]
    {
      objects := map[];
    }
  }

  /** The store that one request opens over the bucket, with the keys of its time. */
  class EncryptedProjectStore {
    const cfg: Config
    const keys: Keys
    const bucket: ObjectBucket

    constructor (cfg: Config, keys: Keys, bucket: ObjectBucket)
      ensures this.cfg == cfg && this.keys == keys && this.bucket == bucket
    {
      this.cfg, this.keys, this.bucket := cfg, keys, bucket;
    }

    method OpenObject(projectId: string, versionId: string) returns (r: Result<Bytes, StoreError>)
      ensures r == Open(cfg, keys, bucket.objects, projectId, versionId)
    {
      var key := ObjectKey(cfg, projectId, versionId);
      if key !in bucket.objects { return Err(NotFound); }
      var e := bucket.objects[key];
      if e.keyVersion !in Ring(keys) || e.workspaceId != cfg.workspaceId
         || e.projectId != projectId || e.versionId != versionId || !TransportSize(e.plaintext) {
        return Err(EnvelopeInvalid);
      }
      if cfg.contentHash(e.plaintext) != versionId { return Err(IntegrityFailed); }
      r := Ok(e.plaintext);
    }

    method UploadVerified(projectId: string, bundle: Bytes) returns (r: Result<string, StoreError>)
      modifies bucket
      ensures (bucket.objects, r) == Put(cfg, keys, old(bucket.objects), projectId, bundle)
      ensures old(BucketInv(cfg, bucket.objects)) && BoundedProjectId(projectId) ==> BucketInv(cfg, bucket.objects)
    {
      if BoundedProjectId(projectId) {
        PutWhenValid(projectId, bundle);
      }
      if !TransportSize(bundle) { return Err(TransportLimit); }
      var versionId := cfg.contentHash(bundle);
      var key := ObjectKey(cfg, projectId, versionId);
      if key in bucket.objects {
        var existing := OpenObject(projectId, versionId);
        if existing.Err? { return Err(existing.error); }
        if existing.value != bundle { return Err(ContentConflict); }
        return Ok(versionId);
      }
      bucket.objects := bucket.objects[key := SealedBundle(cfg, keys, projectId, bundle)];
      r := Ok(versionId);
    }

    lemma PutWhenValid(projectId: string, bundle: Bytes)
      requires BoundedProjectId(projectId)
      ensures BucketInv(cfg, bucket.objects) ==> BucketInv(cfg, Put(cfg, keys, bucket.objects, projectId, bundle).0)
    {
      if BucketInv(cfg, bucket.objects) {
        PutKeepsInv(cfg, keys, bucket.objects, projectId, bundle);
      }
    }

    method ReadVerified(projectId: string, q: Pointer) returns (r: Result<Bytes, StoreError>)
      ensures r == Read(cfg, keys, bucket.objects, projectId, q)
    {
      if q.state != Live || !MayRead(cfg, projectId, q) { return Err(PointerInvalid); }
      r := OpenObject(projectId, q.versionId);
      if r.Ok? && cfg.contentHash(r.value) != q.plaintextFingerprint { r := Err(IntegrityFailed); }
    }

    /** Removes the object of a deleted pointer; the object service may refuse. */
    method DeleteVerified(projectId: string, q: Pointer, accepted: bool) returns (ok: bool)
      modifies bucket
      ensures ok == (MayRead(cfg, projectId, q) && accepted)
      ensures bucket.objects == if ok then old(bucket.objects) - {q.objectKey} else old(bucket.objects)
    {
      if !MayRead(cfg, projectId, q) || !accepted { return false; }
      bucket.objects := bucket.objects - {q.objectKey};
      ok := true;
    }

    /** Removes the object of a pending collection; the object service may refuse. */
    method DeleteGcObject(projectId: string, receipt: GcReceipt, accepted: bool) returns (ok: bool)
      modifies bucket
      ensures ok == (MayCollect(cfg, projectId, receipt) && accepted)
      ensures bucket.objects
              == if ok then old(bucket.objects) - {ObjectKey(cfg, projectId, receipt.versionId)} else old(bucket.objects)
    {
      if !MayCollect(cfg, projectId, receipt) || !accepted { return false; }
      bucket.objects := bucket.objects - {receipt.id.objectKey};
      ok := true;
    }
  }
}
