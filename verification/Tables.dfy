/** The database: one map per table, keyed by its primary key, and the queries the handlers share. */
module Tables {
  import opened Prelude
  import opened CompositeEtag

  const INT8_MAX := 0x7fff_ffff_ffff_ffff

  /** Seconds since 1970 as int(time.time()) gives them; they fit a BIGINT. */
  type Epoch = t: nat | t <= INT8_MAX

  type Positive = n: nat | n > 0 witness 1

  // ----- keys -----

  datatype NoteKey = NoteKey(user: Uuid, note: Uuid)
  datatype AttKey = AttKey(user: Uuid, note: Uuid, attachment: Uuid)
  datatype ChunkKey = ChunkKey(att: AttKey, index: int)
  datatype StageKey = StageKey(upload: Uuid, index: int)

  function NoteOf(k: AttKey): NoteKey {
    NoteKey(k.user, k.note)
  }

  // ----- rows -----

  datatype TokenRow = TokenRow(user: Uuid, expiresAt: int, revokedAt: Option<int>)
  datatype VaultRow = VaultRow(header: Bytes, publicKey: Bytes, algorithmId: nat)
  datatype NoteRow = NoteRow(title: string, updatedAt: nat, etag: Digest, deletedAt: Option<int>)
  datatype AttRow = AttRow(size: nat, etag: Digest, contentType: Option<string>, updatedAt: nat)
  datatype Status = InProgress | Aborted
  datatype SessionRow = SessionRow(
    att: AttKey, totalSize: nat, chunkSize: Positive, received: int, expected: nat, status: Status, expiresAt: int)
  datatype ShareRow = ShareRow(note: Uuid, owner: Uuid, recipient: Uuid, wrappedFek: Bytes)

  datatype Db = Db(
    users: map<Uuid, string>,
    tokens: map<Digest, TokenRow>,
    vaults: map<Uuid, VaultRow>,
    notes: map<NoteKey, NoteRow>,
    blobs: map<NoteKey, Bytes>,
    attachments: map<AttKey, AttRow>,
    chunks: map<ChunkKey, Bytes>,
    sessions: map<Uuid, SessionRow>,
    staged: map<StageKey, Bytes>,
    shares: map<Uuid, ShareRow>)

  const EMPTY_DB := Db(map[], map[], map[], map[], map[], map[], map[], map[], map[], map[])

  // ----- outcomes of a request -----

  datatype Error =
    | Unauthorized | InvalidCredentials | Validation | Conflict
    | NoteNotFound | AttachmentNotFound | ChunkNotFound | StoredSizeMismatch
    | ShareNotFound | UserNotFound | AlreadyShared | EmailExists

  /** Fail is an APIError; Crash is an uncaught exception, such as a violated constraint. */
  datatype Outcome<+T> = Ok(value: T) | Fail(error: Error) | Crash

  // ----- queries -----

  /** get_active_note finds a row */
  predicate Active(notes: map<NoteKey, NoteRow>, nk: NoteKey) {
    nk in notes && notes[nk].deletedAt.None?
  }

  function AttIds(atts: map<AttKey, AttRow>, nk: NoteKey): set<Uuid> {
    set k | k in atts && NoteOf(k) == nk :: k.attachment
  }

  /** The attachments of one note. */
  function AttsOf(atts: map<AttKey, AttRow>, nk: NoteKey): map<Uuid, AttRow> {
    map a | a in AttIds(atts, nk) :: atts[AttKey(nk.user, nk.note, a)]
  }

  /** list_note_attachments: the ids in ascending order. */
  function Listing(m: map<Uuid, AttRow>): (ids: seq<Uuid>)
    ensures Ascending(ids) && |ids| == |m|
    ensures forall a :: a in ids <==> a in m
  {
    var ids := InOrder(m.Keys);
    assert forall i :: 0 <= i < |ids| ==> ids[i] in m.Keys;
    ids
  }

  function EtagPairs(m: map<Uuid, AttRow>): seq<(Uuid, Digest)> {
    PairsOf(m, Listing(m))
  }

  function PairsOf(m: map<Uuid, AttRow>, ids: seq<Uuid>): (pairs: seq<(Uuid, Digest)>)
    requires forall a :: a in ids ==> a in m
    ensures |pairs| == |ids|
    ensures forall i :: 0 <= i < |ids| ==> pairs[i] == (ids[i], m[ids[i]].etag)
  {
    seq(|ids|, i requires 0 <= i < |ids| =>
      assert ids[i] in ids;
      (ids[i], m[ids[i]].etag))
  }

  /** max((a.updated_at for a in attachments), default=0) */
  function LatestStamp(m: map<Uuid, AttRow>, ids: seq<Uuid>): nat
    requires forall a :: a in ids ==> a in m
  {
    if ids == [] then 0 else
    assert ids[0] in ids;
    Max(m[ids[0]].updatedAt, LatestStamp(m, ids[1..]))
  }

  function SyncEtag(sha: Bytes -> Digest, body: Bytes, m: map<Uuid, AttRow>): Digest {
    Composite(sha, sha(body), EtagPairs(m))
  }

  function SyncStamp(bodyUpdatedAt: nat, m: map<Uuid, AttRow>): nat {
    Max(bodyUpdatedAt, LatestStamp(m, Listing(m)))
  }

  // ----- chunk tables -----

  function ChunkAt(chunks: map<ChunkKey, Bytes>, k: AttKey, i: int): Bytes {
    if ChunkKey(k, i) in chunks then chunks[ChunkKey(k, i)] else []
  }

  function ChunkParts(chunks: map<ChunkKey, Bytes>, k: AttKey, n: nat): seq<Bytes> {
    seq(n, i => ChunkAt(chunks, k, i))
  }

  /** The first n permanent chunks of an attachment, concatenated. */
  function Content(chunks: map<ChunkKey, Bytes>, k: AttKey, n: nat): Bytes {
    Join(ChunkParts(chunks, k, n))
  }

  function StagedIndices(staged: map<StageKey, Bytes>, upload: Uuid): set<int> {
    set s | s in staged && s.upload == upload :: s.index
  }

  function StagedAt(staged: map<StageKey, Bytes>, upload: Uuid, i: int): Bytes {
    if StageKey(upload, i) in staged then staged[StageKey(upload, i)] else []
  }

  /** The staged rows of one upload, ORDER BY chunk_index. */
  function StagedParts(staged: map<StageKey, Bytes>, upload: Uuid): seq<Bytes> {
    PartsAt(staged, upload, InOrder(StagedIndices(staged, upload)))
  }

  function PartsAt(staged: map<StageKey, Bytes>, upload: Uuid, indices: seq<int>): seq<Bytes> {
    seq(|indices|, j requires 0 <= j < |indices| => StagedAt(staged, upload, indices[j]))
  }
}
