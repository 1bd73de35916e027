/** What holds of every reachable database. */
module Invariants {
  import opened Prelude
  import opened ChunkMath
  import opened CompositeEtag
  import opened Tables
  import opened Accounts
  import Ssnt
  import Ssnv

  // ----- attachments and their chunks -----

  /** The chunks of k are exactly those its size asks for, and its etag is their hash. */
  ghost predicate AttachmentOk(sha: Bytes -> Digest, row: AttRow, chunks: map<ChunkKey, Bytes>, k: AttKey) {
    && row.size <= SIZE_LIMIT
    && (forall i {:trigger ChunkKey(k, i)} :: 0 <= i < ChunkCount(row.size) ==>
          ChunkKey(k, i) in chunks && |chunks[ChunkKey(k, i)]| == SliceLength(row.size, i))
    && row.etag == sha(Content(chunks, k, ChunkCount(row.size)))
  }

  ghost predicate ChunksOk(sha: Bytes -> Digest, atts: map<AttKey, AttRow>, chunks: map<ChunkKey, Bytes>) {
    && (forall k :: k in atts ==> AttachmentOk(sha, atts[k], chunks, k))
    && (forall c :: c in chunks ==> c.att in atts && 0 <= c.index < ChunkCount(atts[c.att].size))
  }

  // ----- the sync index -----

  ghost predicate NoteInSync(sha: Bytes -> Digest, row: NoteRow, body: Bytes, nk: NoteKey, m: map<Uuid, AttRow>) {
    && Ssnt.Parse(body).Parsed?
    && var f := Ssnt.Parse(body).value;
    && f.noteId == nk.note
    && row.title == f.title
    && row.etag == SyncEtag(sha, body, m)
    && row.updatedAt == SyncStamp(f.updatedAt, m)
  }

  ghost predicate SyncOk(
    sha: Bytes -> Digest, notes: map<NoteKey, NoteRow>, blobs: map<NoteKey, Bytes>, atts: map<AttKey, AttRow>)
  {
    forall nk :: nk in notes && notes[nk].deletedAt.None? ==>
      nk in blobs && NoteInSync(sha, notes[nk], blobs[nk], nk, AttsOf(atts, nk))
  }

  /** Bodies and attachments exist only under notes that are not tombstones. */
  ghost predicate ContentOnlyUnderActive(
    notes: map<NoteKey, NoteRow>, blobs: map<NoteKey, Bytes>, atts: map<AttKey, AttRow>)
  {
    && (forall nk :: nk in blobs ==> Active(notes, nk))
    && (forall k :: k in atts ==> Active(notes, NoteOf(k)))
  }

  ghost predicate StampsFit(notes: map<NoteKey, NoteRow>, atts: map<AttKey, AttRow>) {
    && (forall nk :: nk in notes ==> notes[nk].updatedAt <= INT8_MAX)
    && (forall k :: k in atts ==> atts[k].updatedAt <= INT8_MAX)
  }

  // ----- upload sessions -----

  ghost predicate SessionShapeOk(s: SessionRow) {
    && s.chunkSize == CHUNK_SIZE
    && 0 < s.totalSize <= SIZE_LIMIT
    && s.expected == ChunkCount(s.totalSize)
    && s.received >= 0
  }

  /** Every staged row fits its session; the counter never exceeds the rows there
      are. This much survives interleaved chunk uploads. */
  ghost predicate SessionsOk(sessions: map<Uuid, SessionRow>, staged: map<StageKey, Bytes>) {
    && (forall u :: u in sessions ==> SessionShapeOk(sessions[u]))
    && (forall u :: u in sessions && sessions[u].status == InProgress ==>
          sessions[u].received <= |StagedIndices(staged, u)|)
    && (forall s :: s in staged ==>
          && s.upload in sessions
          && 0 <= s.index < sessions[s.upload].expected
          && |staged[s]| == SliceLength(sessions[s.upload].totalSize, s.index))
  }

  /** With each request atomic the counter is exact, an aborted session is empty
      and at most one session per attachment is in progress. */
  ghost predicate SessionsExact(sessions: map<Uuid, SessionRow>, staged: map<StageKey, Bytes>) {
    && (forall u :: u in sessions && sessions[u].status == InProgress ==>
          sessions[u].received == |StagedIndices(staged, u)|)
    && (forall s :: s in staged ==> s.upload in sessions && sessions[s.upload].status == InProgress)
    && (forall u, v | u in sessions && v in sessions && sessions[u].att == sessions[v].att ::
          sessions[u].status == InProgress && sessions[v].status == InProgress ==> u == v)
  }

  // ----- accounts, grants, foreign keys -----

  ghost predicate UsersOk(users: map<Uuid, string>) {
    && (forall u :: u in users ==> Lower(users[u]) == users[u])
    && (forall u, v :: u in users && v in users && users[u] == users[v] ==> u == v)
  }

  ghost predicate VaultsOk(vaults: map<Uuid, VaultRow>) {
    forall u :: u in vaults ==> VaultOk(vaults[u])
  }

  /** The stored header is a version 2 header, and the indexed columns are its fields. */
  ghost predicate VaultOk(v: VaultRow) {
    && Ssnv.Parse(v.header).Parsed?
    && var m := Ssnv.Metadata(Ssnv.Parse(v.header).value);
    && m.formatVersion == 2
    && m.publicKey == Some(v.publicKey) && |v.publicKey| == 32
    && m.algorithmId.Some? && m.algorithmId.value < 256
    && v.algorithmId == (if m.algorithmId.value == 0 then 1 else m.algorithmId.value)
  }

  ghost predicate SharesOk(shares: map<Uuid, ShareRow>) {
    && (forall i :: i in shares ==> shares[i].owner != shares[i].recipient)
    && (forall i, j | i in shares && j in shares && shares[i].note == shares[j].note ::
          shares[i].recipient == shares[j].recipient ==> i == j)
  }

  /** Every foreign key of the schema points at a row (content tables are covered
      by ContentOnlyUnderActive, ChunksOk and SessionsOk). */
  ghost predicate KeysOk(db: Db) {
    && (forall h :: h in db.tokens ==> db.tokens[h].user in db.users)
    && (forall u :: u in db.vaults ==> u in db.users)
    && (forall nk :: nk in db.notes ==> nk.user in db.users)
    && (forall u :: u in db.sessions ==> db.sessions[u].att.user in db.users)
    && (forall i :: i in db.shares ==>
          db.shares[i].recipient in db.users && NoteKey(db.shares[i].owner, db.shares[i].note) in db.notes)
  }

  ghost predicate Inv(sha: Bytes -> Digest, db: Db) {
    && ChunksOk(sha, db.attachments, db.chunks)
    && SyncOk(sha, db.notes, db.blobs, db.attachments)
    && ContentOnlyUnderActive(db.notes, db.blobs, db.attachments)
    && StampsFit(db.notes, db.attachments)
    && SessionsOk(db.sessions, db.staged)
    && UsersOk(db.users)
    && VaultsOk(db.vaults)
    && SharesOk(db.shares)
    && KeysOk(db)
  }

  // ----- reading facts off the tables -----

  lemma AttsOfEntry(atts: map<AttKey, AttRow>, nk: NoteKey, a: Uuid)
    ensures a in AttsOf(atts, nk) <==> AttKey(nk.user, nk.note, a) in atts
    ensures a in AttsOf(atts, nk) ==> AttsOf(atts, nk)[a] == atts[AttKey(nk.user, nk.note, a)]
  {
    if AttKey(nk.user, nk.note, a) in atts {
      assert NoteOf(AttKey(nk.user, nk.note, a)) == nk;
    }
  }

  /** Tables that agree on one note's attachments have the same attachments for it. */
  lemma AttsOfSame(a: map<AttKey, AttRow>, b: map<AttKey, AttRow>, nk: NoteKey)
    requires forall k :: NoteOf(k) == nk ==> (k in a <==> k in b) && (k in a ==> a[k] == b[k])
    ensures AttsOf(a, nk) == AttsOf(b, nk)
  {
    forall x: Uuid
      ensures x in AttsOf(a, nk) <==> x in AttsOf(b, nk)
      ensures x in AttsOf(a, nk) ==> AttsOf(a, nk)[x] == AttsOf(b, nk)[x]
    {
      assert NoteOf(AttKey(nk.user, nk.note, x)) == nk;
      AttsOfEntry(a, nk, x);
      AttsOfEntry(b, nk, x);
    }
  }

  lemma ContentSame(a: map<ChunkKey, Bytes>, b: map<ChunkKey, Bytes>, k: AttKey, n: nat)
    requires forall i :: 0 <= i < n ==> ChunkAt(a, k, i) == ChunkAt(b, k, i)
    ensures Content(a, k, n) == Content(b, k, n)
  {
    assert ChunkParts(a, k, n) == ChunkParts(b, k, n);
  }

  lemma AttachmentOkFrame(
    sha: Bytes -> Digest, row: AttRow, a: map<ChunkKey, Bytes>, b: map<ChunkKey, Bytes>, k: AttKey)
    requires AttachmentOk(sha, row, a, k)
    requires forall c :: c in a && c.att == k ==> c in b && b[c] == a[c]
    ensures AttachmentOk(sha, row, b, k)
  {
    var n := ChunkCount(row.size);
    forall i | 0 <= i < n
      ensures ChunkKey(k, i) in b && b[ChunkKey(k, i)] == a[ChunkKey(k, i)]
    {
      assert ChunkKey(k, i) in a;
    }
    ContentSame(a, b, k, n);
  }

  lemma ActiveWithAttachment(sha: Bytes -> Digest, db: Db, k: AttKey)
    requires Inv(sha, db) && k in db.attachments
    ensures Active(db.notes, NoteOf(k))
  {
    hide ChunksOk, SyncOk, StampsFit, SessionsOk, UsersOk, VaultsOk, SharesOk, KeysOk;
  }
}
