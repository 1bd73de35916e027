/** What each note operation does to the database, as a function of the state before it. */
module NoteService {
  import opened Prelude
  import opened ChunkMath
  import opened CompositeEtag
  import opened Tables
  import Ssnt

  const MAX_BODY_BYTES := 10_485_760

  datatype NoteUpload = NoteUpload(updatedAt: nat, etag: Digest)
  datatype AttachmentUpload = AttachmentUpload(
    size: nat, etag: Digest, updatedAt: nat, noteEtag: Digest, contentType: Option<string>)

  /** PostgreSQL TEXT cannot hold U+0000. */
  predicate IsPgText(s: string) {
    '\0' !in s
  }

  // ----- stats over a note's attachments -----

  function SumSizes(m: map<Uuid, AttRow>, ids: seq<Uuid>): nat
    requires forall a :: a in ids ==> a in m
  {
    if ids == [] then 0 else
    assert ids[0] in ids;
    m[ids[0]].size + SumSizes(m, ids[1..])
  }

  /** attachment_stats: row count and sum of sizes. */
  function Stats(m: map<Uuid, AttRow>): (nat, nat) {
    (|m|, SumSizes(m, Listing(m)))
  }

  // ----- recompute_note_sync_metadata -----

  datatype BodyInfo = BodyInfo(bytes: Bytes, updatedAt: nat)

  function BodyOf(db: Db, nk: NoteKey): Outcome<BodyInfo> {
    if nk !in db.blobs then Fail(NoteNotFound) else
    match Ssnt.Parse(db.blobs[nk])
    case ParseError => Fail(Validation)
    case UnicodeError => Crash
    case Parsed(f) => Ok(BodyInfo(db.blobs[nk], f.updatedAt))
  }

  function Recompute(sha: Bytes -> Digest, db: Db, nk: NoteKey, given: Option<BodyInfo>): (r: (Db, Outcome<NoteUpload>))
    ensures r.0 == db.(notes := r.0.notes)
    ensures !r.1.Ok? ==> r.0 == db
  {
    if !Active(db.notes, nk) then (db, Fail(NoteNotFound)) else
    match (if given.Some? then Ok(given.value) else BodyOf(db, nk))
    case Fail(e) => (db, Fail(e))
    case Crash => (db, Crash)
    case Ok(body) =>
      var m := AttsOf(db.attachments, nk);
      var etag := SyncEtag(sha, body.bytes, m);
      var stamp := SyncStamp(body.updatedAt, m);
      if stamp > INT8_MAX then (db, Crash) else
      (db.(notes := db.notes[nk := db.notes[nk].(etag := etag, updatedAt := stamp)]), Ok(NoteUpload(stamp, etag)))
  }

  // ----- put_note_body -----

  /** The If-Match header, when there is a row to match, must name its etag. */
  predicate IfMatchFails(ifMatch: Option<string>, etag: Digest) {
    ifMatch.Some? && StripQuotes(ifMatch.value) != etag
  }

  /** Insert or update the note row and its body; etag and stamp are recomputed after. */
  function WriteBody(sha: Bytes -> Digest, db: Db, nk: NoteKey, body: Bytes, f: Ssnt.Fields): Db {
    var row := if nk in db.notes then db.notes[nk].(title := f.title) else NoteRow(f.title, f.updatedAt, sha([]), None);
    db.(notes := db.notes[nk := row], blobs := db.blobs[nk := body])
  }

  /** The checks before anything is written; None lets the request through. */
  function BodyRefusal(db: Db, nk: NoteKey, f: Ssnt.Fields, ifMatch: Option<string>): (r: Option<Outcome<NoteUpload>>)
    ensures r.Some? ==> !r.value.Ok?
  {
    if f.noteId != nk.note then Some(Fail(Validation))
    else if (f.attachmentCount, f.attachmentsTotalSize) != Stats(AttsOf(db.attachments, nk)) then Some(Fail(Validation))
    else if Active(db.notes, nk) && IfMatchFails(ifMatch, db.notes[nk].etag) then Some(Fail(Conflict))
    else if nk in db.notes && !Active(db.notes, nk) then Some(Crash)       // primary key of notes
    else if nk !in db.notes && nk in db.blobs then Some(Crash)             // primary key of note_blobs
    else if !IsPgText(f.title) || f.updatedAt > INT8_MAX then Some(Crash)  // column types
    else None
  }

  function PutBody(
    sha: Bytes -> Digest, db: Db, nk: NoteKey, body: Bytes, ifMatch: Option<string>): (r: (Db, Outcome<NoteUpload>))
    ensures r.0 == db.(notes := r.0.notes, blobs := r.0.blobs)
    ensures !r.1.Ok? ==> r.0 == db
  {
    if |body| > MAX_BODY_BYTES || body == [] then (db, Fail(Validation)) else
    match Ssnt.Parse(body)
    case ParseError => (db, Fail(Validation))
    case UnicodeError => (db, Crash)
    case Parsed(f) =>
      match BodyRefusal(db, nk, f, ifMatch)
      case Some(refusal) => (db, refusal)
      case None =>
        var (db', out) := Recompute(sha, WriteBody(sha, db, nk, body, f), nk, Some(BodyInfo(body, f.updatedAt)));
        if out.Ok? then (db', out) else (db, out)
  }

  // ----- permanent chunks -----

  /** Delete the attachment's chunks, then insert the staged rows in their place. */
  function Promote(
    chunks: map<ChunkKey, Bytes>, staged: map<StageKey, Bytes>, k: AttKey, upload: Uuid): map<ChunkKey, Bytes> {
    (map c | c in chunks && c.att != k :: chunks[c])
    + (map i | i in StagedIndices(staged, upload) :: ChunkKey(k, i) := staged[StageKey(upload, i)])
  }

  function AttachmentAfter(
    before: Option<AttRow>, size: nat, etag: Digest, stamp: nat, contentType: Option<string>): AttRow {
    var kept := if contentType.None? && before.Some? then before.value.contentType else contentType;
    AttRow(size, etag, kept, stamp)
  }

  /** The attachment row and its chunks as the staged rows of an upload give them. */
  function WriteAttachment(
    sha: Bytes -> Digest, db: Db, k: AttKey, upload: Uuid, totalSize: nat,
    contentType: Option<string>, stamp: Epoch): Db
  {
    var before := if k in db.attachments then Some(db.attachments[k]) else None;
    var row := AttachmentAfter(before, totalSize, sha(Join(StagedParts(db.staged, upload))), stamp, contentType);
    db.(attachments := db.attachments[k := row], chunks := Promote(db.chunks, db.staged, k, upload))
  }

  function AttachmentRefusal(
    db: Db, k: AttKey, contentType: Option<string>, ifMatch: Option<string>): Option<Outcome<AttachmentUpload>>
  {
    if !Active(db.notes, NoteOf(k)) then Some(Fail(NoteNotFound))
    else if k in db.attachments && IfMatchFails(ifMatch, db.attachments[k].etag) then Some(Fail(Conflict))
    else if contentType.Some? && !IsPgText(contentType.value) then Some(Crash)
    else None
  }

  function Finalize(
    sha: Bytes -> Digest, db: Db, k: AttKey, upload: Uuid, totalSize: nat,
    contentType: Option<string>, ifMatch: Option<string>, stamp: Epoch
  ): (r: (Db, Outcome<AttachmentUpload>))
    ensures r.0 == db.(notes := r.0.notes, attachments := r.0.attachments, chunks := r.0.chunks)
    ensures !r.1.Ok? ==> r.0 == db
  {
    match AttachmentRefusal(db, k, contentType, ifMatch)
    case Some(refusal) => (db, refusal)
    case None =>
      var written := WriteAttachment(sha, db, k, upload, totalSize, contentType, stamp);
      var (db', out) := Recompute(sha, written, NoteOf(k), None);
      match out
      case Fail(e) => (db, Fail(e))
      case Crash => (db, Crash)
      case Ok(note) =>
        var row := written.attachments[k];
        (db', Ok(AttachmentUpload(totalSize, row.etag, stamp, note.etag, row.contentType)))
  }

  // ----- deletion -----

  function ChunksWithout(chunks: map<ChunkKey, Bytes>, k: AttKey): map<ChunkKey, Bytes> {
    map c | c in chunks && c.att != k :: chunks[c]
  }

  function EraseAttachment(db: Db, k: AttKey): Db {
    db.(attachments := db.attachments - {k}, chunks := ChunksWithout(db.chunks, k))
  }

  function DeleteAttachment(sha: Bytes -> Digest, db: Db, k: AttKey): (r: (Db, Outcome<()>))
    ensures r.0 == db.(notes := r.0.notes, attachments := r.0.attachments, chunks := r.0.chunks)
    ensures !r.1.Ok? ==> r.0 == db
  {
    if !Active(db.notes, NoteOf(k)) then (db, Fail(NoteNotFound))
    else if k !in db.attachments then (db, Fail(AttachmentNotFound))
    else
      var (db', out) := Recompute(sha, EraseAttachment(db, k), NoteOf(k), None);
      match out
      case Fail(e) => (db, Fail(e))
      case Crash => (db, Crash)
      case Ok(_) => (db', Ok(()))
  }

  /** The tombstone stays; body, attachments and (by cascade) chunks go. */
  function SoftDelete(db: Db, nk: NoteKey, now: int): (r: (Db, Outcome<()>))
    ensures r.0 == db.(notes := r.0.notes, blobs := r.0.blobs, attachments := r.0.attachments, chunks := r.0.chunks)
    ensures !r.1.Ok? ==> r.0 == db
  {
    if !Active(db.notes, nk) then (db, Fail(NoteNotFound)) else
    (db.(notes := db.notes[nk := db.notes[nk].(deletedAt := Some(now))],
         blobs := db.blobs - {nk},
         attachments := map k | k in db.attachments && NoteOf(k) != nk :: db.attachments[k],
         chunks := map c | c in db.chunks && NoteOf(c.att) != nk :: db.chunks[c]),
     Ok(()))
  }

  // ----- the owner's read routes -----

  function GetBody(sha: Bytes -> Digest, db: Db, nk: NoteKey): Outcome<(Bytes, Digest)> {
    if !Active(db.notes, nk) || nk !in db.blobs then Fail(NoteNotFound)
    else Ok((db.blobs[nk], sha(db.blobs[nk])))
  }

  /** The part the owner's and the shared chunk route have in common. */
  function ReadChunk(db: Db, k: AttKey, index: int): Outcome<(Bytes, Digest)> {
    if k !in db.attachments then Fail(AttachmentNotFound) else
    match ExpectedAttachmentChunk(db.attachments[k].size, index)
    case None => Fail(Validation)
    case Some(expected) =>
      if ChunkKey(k, index) !in db.chunks then Fail(ChunkNotFound)
      else if |db.chunks[ChunkKey(k, index)]| != expected then Fail(StoredSizeMismatch)
      else Ok((db.chunks[ChunkKey(k, index)], db.attachments[k].etag))
  }

  function GetChunk(db: Db, k: AttKey, index: int): Outcome<(Bytes, Digest)> {
    if !Active(db.notes, NoteOf(k)) then Fail(NoteNotFound) else ReadChunk(db, k, index)
  }

  datatype Summary = Summary(
    id: Uuid, size: nat, etag: Digest, updatedAt: nat, contentType: Option<string>, totalChunks: nat)

  function Summaries(m: map<Uuid, AttRow>, ids: seq<Uuid>): (s: seq<Summary>)
    requires forall a :: a in ids ==> a in m
    ensures |s| == |ids|
  {
    if ids == [] then [] else
    assert ids[0] in ids;
    var row := m[ids[0]];
    [Summary(ids[0], row.size, row.etag, row.updatedAt, row.contentType, TotalChunks(row.size))]
    + Summaries(m, ids[1..])
  }

  function Manifest(db: Db, nk: NoteKey): seq<Summary> {
    var m := AttsOf(db.attachments, nk);
    Summaries(m, Listing(m))
  }

  function GetManifest(db: Db, nk: NoteKey): Outcome<seq<Summary>> {
    if !Active(db.notes, nk) then Fail(NoteNotFound) else Ok(Manifest(db, nk))
  }
}
