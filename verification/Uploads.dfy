/** The upload-session state machine, as functions of the state before each request. */
module Uploads {
  import opened Prelude
  import opened ChunkMath
  import opened CompositeEtag
  import opened Tables
  import opened NoteService

  const UPLOAD_SESSION_TTL := 24 * 60 * 60 * 1_000_000  // 24 hours in microseconds

  /** The two readings of the clock a request makes, in microseconds. */
  datatype Clock = Clock(first: int, second: int)

  datatype InitUpload = InitUpload(upload: Uuid, chunkSize: nat, totalChunks: nat)

  /** Only sessions and staged chunks differ. */
  ghost predicate OnlyUploads(db: Db, db': Db) {
    db' == db.(sessions := db'.sessions, staged := db'.staged)
  }

  // ----- aborting sessions -----

  /** Mark these sessions aborted and delete their staged rows. */
  function Abort(db: Db, ids: set<Uuid>): (db': Db)
    ensures OnlyUploads(db, db') && db'.sessions.Keys == db.sessions.Keys
  {
    db.(sessions := map u | u in db.sessions ::
                      if u in ids then db.sessions[u].(status := Aborted) else db.sessions[u],
        staged := map s | s in db.staged && s.upload !in ids :: db.staged[s])
  }

  function Expired(db: Db, user: Uuid, now: int): set<Uuid> {
    set u | u in db.sessions && db.sessions[u].att.user == user && db.sessions[u].status == InProgress
            && db.sessions[u].expiresAt < now
  }

  function InProgressFor(db: Db, k: AttKey): set<Uuid> {
    set u | u in db.sessions && db.sessions[u].att == k && db.sessions[u].status == InProgress
  }

  /** _cleanup_expired_sessions, which commits on its own. */
  function Cleanup(db: Db, user: Uuid, now: int): (db': Db)
    ensures OnlyUploads(db, db') && db'.sessions.Keys == db.sessions.Keys
  {
    Abort(db, Expired(db, user, now))
  }

  /** _get_upload_session */
  function OpenSession(db: Db, k: AttKey, upload: Uuid, t: Clock): (r: (Db, Outcome<SessionRow>))
    ensures OnlyUploads(db, r.0)
    ensures r.1.Ok? ==>
              && upload in r.0.sessions && r.0.sessions[upload] == r.1.value
              && r.1.value.att == k && r.1.value.status == InProgress
  {
    var db1 := Cleanup(db, k.user, t.first);
    if upload !in db1.sessions || db1.sessions[upload].att != k then (db1, Fail(NoteNotFound))
    else if db1.sessions[upload].expiresAt < t.second then (Abort(db1, {upload}), Fail(Conflict))
    else if db1.sessions[upload].status != InProgress then (db1, Fail(Conflict))
    else (db1, Ok(db1.sessions[upload]))
  }

  // ----- the three requests -----

  function Init(db: Db, k: AttKey, totalSize: nat, upload: Uuid, t: Clock): (r: (Db, Outcome<InitUpload>))
    ensures OnlyUploads(db, r.0)
    ensures r.1.Ok? ==> upload !in db.sessions && upload in r.0.sessions
  {
    if totalSize == 0 then (db, Fail(Validation))
    else if !Active(db.notes, NoteOf(k)) then (db, Fail(NoteNotFound))
    else
      var db1 := Cleanup(db, k.user, t.first);
      var db2 := Abort(db1, InProgressFor(db1, k));
      var total := TotalChunks(totalSize);
      if total > INT4_MAX || upload in db2.sessions then (db1, Crash)  // INTEGER column, primary key
      else
        var row := SessionRow(k, totalSize, CHUNK_SIZE, 0, total, InProgress, t.second + UPLOAD_SESSION_TTL);
        (db2.(sessions := db2.sessions[upload := row]), Ok(InitUpload(upload, CHUNK_SIZE, total)))
  }

  function ChunkLengthOf(s: SessionRow, index: int): Option<nat> {
    ExpectedSessionChunk(s.totalSize, s.chunkSize, s.expected, index)
  }

  /** The staged row is overwritten when there is one, else inserted and counted. */
  function Stage(db: Db, upload: Uuid, index: int, data: Bytes): (db': Db)
    requires upload in db.sessions
    ensures OnlyUploads(db, db') && db'.sessions.Keys == db.sessions.Keys
    ensures db'.staged == db.staged[StageKey(upload, index) := data]
  {
    var key := StageKey(upload, index);
    if key in db.staged then db.(staged := db.staged[key := data])
    else
      var s := db.sessions[upload];
      db.(staged := db.staged[key := data], sessions := db.sessions[upload := s.(received := s.received + 1)])
  }

  function PutChunk(db: Db, k: AttKey, upload: Uuid, index: int, data: Bytes, t: Clock): (r: (Db, Outcome<()>))
    ensures OnlyUploads(db, r.0)
  {
    var (db1, got) := OpenSession(db, k, upload, t);
    match got
    case Fail(e) => (db1, Fail(e))
    case Crash => (db1, Crash)
    case Ok(s) =>
      if ChunkLengthOf(s, index) != Some(|data|) then (db1, Fail(Validation))
      else (Stage(db1, upload, index, data), Ok(()))
  }

  /** Complete's last two statements: staged rows and session are deleted. */
  function DropSession(db: Db, upload: Uuid): (db': Db)
    ensures OnlyUploads(db, db') && upload !in db'.sessions
  {
    db.(staged := map s | s in db.staged && s.upload != upload :: db.staged[s],
        sessions := db.sessions - {upload})
  }

  function Complete(
    sha: Bytes -> Digest, db: Db, k: AttKey, upload: Uuid,
    ifMatch: Option<string>, contentType: Option<string>, t: Clock, stamp: Epoch
  ): (r: (Db, Outcome<AttachmentUpload>))
    ensures r.0 == db.(notes := r.0.notes, attachments := r.0.attachments, chunks := r.0.chunks,
                       sessions := r.0.sessions, staged := r.0.staged)
    ensures !r.1.Ok? ==> OnlyUploads(db, r.0)
  {
    var (db1, got) := OpenSession(db, k, upload, t);
    match got
    case Fail(e) => (db1, Fail(e))
    case Crash => (db1, Crash)
    case Ok(s) =>
      var parts := StagedParts(db1.staged, upload);
      if s.received != s.expected || |parts| != s.expected || TotalLength(parts) != s.totalSize
      then (db1, Fail(Validation))
      else
        var (db2, out) := Finalize(sha, db1, k, upload, s.totalSize, contentType, ifMatch, stamp);
        if out.Ok? then (DropSession(db2, upload), out) else (db1, out)
  }
}
