/** How upload sessions may change, and what completing one does or does not do. */
module SessionSafety {
  import opened Prelude
  import opened ChunkMath
  import opened CompositeEtag
  import opened Tables
  import opened NoteService
  import opened Uploads
  import opened Accounts
  import opened Invariants
  import opened UploadProofs
  import opened NoteProofs
  import opened AccountProofs
  import opened Machine
  import opened Frames

  // ----- status only moves from in progress to aborted, or the row goes -----

  /** One session before and after a step. */
  ghost predicate Moves(before: SessionRow, after: SessionRow) {
    && after == before.(received := after.received, status := after.status)
    && (before.status == Aborted ==> after.status == Aborted)
    && before.received <= after.received
  }

  /** Sessions move only forward; while in progress they lose no staged row, and the
      counter moves exactly with the rows. */
  ghost predicate SessionsMove(db: Db, db': Db) {
    && (forall u :: u in db.sessions && u in db'.sessions ==> Moves(db.sessions[u], db'.sessions[u]))
    && (forall s :: s in db.staged && s.upload in db.sessions && InProgressIn(db', s.upload) ==> s in db'.staged)
    && (forall u :: u in db.sessions && InProgressIn(db', u) ==> Uncounted(db', u) == Uncounted(db, u))
  }

  ghost predicate InProgressIn(db: Db, upload: Uuid) {
    upload in db.sessions && db.sessions[upload].status == InProgress
  }

  /** How many staged rows the counter misses. */
  ghost function Uncounted(db: Db, upload: Uuid): int
    requires upload in db.sessions
  {
    |StagedIndices(db.staged, upload)| - db.sessions[upload].received
  }

  lemma AbortMoves(db: Db, ids: set<Uuid>)
    ensures SessionsMove(db, Abort(db, ids))
  {
    hide StagedIndices;
    forall u: Uuid | u !in ids { StagedIndicesSame(db.staged, Abort(db, ids).staged, u); }
  }

  lemma MovesCompose(a: Db, b: Db, c: Db)
    requires SessionsMove(a, b) && SessionsMove(b, c) && a.sessions.Keys <= b.sessions.Keys
    ensures SessionsMove(a, c)
  {
    hide Uncounted;
  }

  lemma OpenSessionMoves(db: Db, k: AttKey, upload: Uuid, t: Clock)
    ensures SessionsMove(db, OpenSession(db, k, upload, t).0)
    ensures OpenSession(db, k, upload, t).0.sessions.Keys == db.sessions.Keys
  {
    hide Expired, Abort, SessionsMove;
    var db1 := Cleanup(db, k.user, t.first);
    AbortMoves(db, Expired(db, k.user, t.first));
    AbortMoves(db1, {upload});
    MovesCompose(db, db1, Abort(db1, {upload}));
    if OpenSession(db, k, upload, t).0 == db1 {
    } else {
      assert OpenSession(db, k, upload, t).0 == Abort(db1, {upload});
    }
  }

  /** Starting an upload under an unused id touches older sessions only by aborting them. */
  lemma InitMoves(db: Db, k: AttKey, totalSize: nat, upload: Uuid, t: Clock)
    ensures SessionsMove(db, Init(db, k, totalSize, upload, t).0)
    ensures forall u :: u in Init(db, k, totalSize, upload, t).0.sessions ==> u in db.sessions || u == upload
    ensures upload in db.sessions ==> !Init(db, k, totalSize, upload, t).1.Ok?
  {
    hide Init, Expired, InProgressFor, Abort, SessionsMove;
    var db1 := Cleanup(db, k.user, t.first);
    var db2 := Abort(db1, InProgressFor(db1, k));
    InitShape(db, k, totalSize, upload, t);
    AbortMoves(db, Expired(db, k.user, t.first));
    AbortMoves(db1, InProgressFor(db1, k));
    MovesCompose(db, db1, db2);
    StaysPut(db);
    if Init(db, k, totalSize, upload, t).1.Ok? {
      AddedMoves(db, db2, Init(db, k, totalSize, upload, t).0, upload);
    } else {
    }
  }

  lemma InitShape(db: Db, k: AttKey, totalSize: nat, upload: Uuid, t: Clock)
    ensures var (db', out) := Init(db, k, totalSize, upload, t);
            var db1 := Cleanup(db, k.user, t.first);
            var db2 := Abort(db1, InProgressFor(db1, k));
            && (!out.Ok? ==> db' == db || db' == db1)
            && (out.Ok? ==> upload !in db2.sessions && upload in db'.sessions
                            && db' == db2.(sessions := db2.sessions[upload := db'.sessions[upload]]))
  {
    hide Expired, InProgressFor, TotalChunks, Abort;
  }

  lemma StaysPut(db: Db)
    ensures SessionsMove(db, db)
  {
  }

  lemma AddedMoves(db: Db, db2: Db, db': Db, upload: Uuid)
    requires SessionsMove(db, db2) && upload !in db2.sessions && db2.sessions.Keys == db.sessions.Keys
    requires upload in db'.sessions && db'.sessions == db2.sessions[upload := db'.sessions[upload]]
             && db'.staged == db2.staged
    ensures SessionsMove(db, db')
  {
  }

  lemma StageMoves(db: Db, upload: Uuid, index: int, data: Bytes)
    requires upload in db.sessions
    ensures SessionsMove(db, Stage(db, upload, index, data))
  {
    hide StagedIndices, Stage;
    StageCounts(db, upload, index, data);
    forall u: Uuid | u != upload { StageElsewhere(db, upload, index, data, u); }
  }

  lemma DropMoves(db: Db, db2: Db, upload: Uuid)
    requires db2.sessions == db.sessions && db2.staged == db.staged
    ensures SessionsMove(db, DropSession(db2, upload))
    ensures DropSession(db2, upload).sessions.Keys <= db.sessions.Keys
  {
    hide StagedIndices;
    forall u: Uuid | u != upload { DropSessionElsewhere(db2, upload, u); }
  }

  lemma PutChunkMoves(db: Db, k: AttKey, upload: Uuid, index: int, data: Bytes, t: Clock)
    ensures SessionsMove(db, PutChunk(db, k, upload, index, data, t).0)
    ensures PutChunk(db, k, upload, index, data, t).0.sessions.Keys == db.sessions.Keys
  {
    hide OpenSession, ChunkLengthOf, Stage, SessionsMove;
    OpenSessionMoves(db, k, upload, t);
    var (db1, got) := OpenSession(db, k, upload, t);
    if got.Ok? && ChunkLengthOf(got.value, index) == Some(|data|) {
      StageMoves(db1, upload, index, data);
      MovesCompose(db, db1, Stage(db1, upload, index, data));
    }
  }

  lemma CompleteMoves(
    sha: Bytes -> Digest, db: Db, k: AttKey, upload: Uuid,
    ifMatch: Option<string>, contentType: Option<string>, t: Clock, stamp: Epoch)
    ensures SessionsMove(db, Complete(sha, db, k, upload, ifMatch, contentType, t, stamp).0)
    ensures Complete(sha, db, k, upload, ifMatch, contentType, t, stamp).0.sessions.Keys <= db.sessions.Keys
  {
    hide OpenSession, Finalize, StagedParts, TotalLength, SessionsMove, DropSession;
    OpenSessionMoves(db, k, upload, t);
    var (db1, got) := OpenSession(db, k, upload, t);
    if Complete(sha, db, k, upload, ifMatch, contentType, t, stamp).1.Ok? {
      var db2 := Finalize(sha, db1, k, upload, got.value.totalSize, contentType, ifMatch, stamp).0;
      DropMoves(db1, db2, upload);
      MovesCompose(db, db1, DropSession(db2, upload));
    } else {
    }
  }

  lemma OtherStepsLeaveSessions(sha: Bytes -> Digest, db: Db, r: Request)
    requires !r.StartUpload? && !r.UploadChunk? && !r.CompleteUpload? && !r.DeleteAccount?
    ensures Apply(sha, db, r).0.sessions == db.sessions && Apply(sha, db, r).0.staged == db.staged
  {
    hide Handle;
    OtherHandlersLeaveUploads(sha, db, r);
  }

  /** Requests that leave the upload tables alone make every session stay put. */
  lemma OtherStepsMove(sha: Bytes -> Digest, db: Db, r: Request)
    requires !r.StartUpload? && !r.UploadChunk? && !r.CompleteUpload? && !r.DeleteAccount?
    ensures SessionsMove(db, Apply(sha, db, r).0) && Apply(sha, db, r).0.sessions == db.sessions
  {
    hide Apply;
    OtherStepsLeaveSessions(sha, db, r);
  }

  lemma DeletionMoves(db: Db, user: Uuid)
    ensures SessionsMove(db, DeleteUser(db, user)) && DeleteUser(db, user).sessions.Keys <= db.sessions.Keys
  {
    hide StagedIndices;
    forall u: Uuid | u in db.sessions && db.sessions[u].att.user != user { DeleteUserStaged(db, user, u); }
  }

  /** Over one step: the surviving sessions move only forward, and the only session
      that can appear is the one a StartUpload names. */
  lemma StepMoves(sha: Bytes -> Digest, db: Db, r: Request)
    ensures SessionsMove(db, Apply(sha, db, r).0)
    ensures forall u :: u in Apply(sha, db, r).0.sessions ==> u in db.sessions || (r.StartUpload? && r.upload == u)
  {
    hide Init, PutChunk, Complete, PutBody, SoftDelete, DeleteAttachment, Register, Login, Rotate, RevokeAll, PutVault,
      Share, Revoke, RemoveShared, DeleteUser;
    match r
    case StartUpload(k, totalSize, upload, clock) => InitMoves(db, k, totalSize, upload, clock);
    case UploadChunk(k, upload, index, data, clock) => PutChunkMoves(db, k, upload, index, data, clock);
    case CompleteUpload(k, upload, ifMatch, contentType, clock, stamp) =>
      CompleteMoves(sha, db, k, upload, ifMatch, contentType, clock, stamp);
    case DeleteAccount(user, _) =>
      DeletionMoves(db, user);
      StaysPut(db);
    case _ => OtherStepsMove(sha, db, r);
  }

  /** Closed: gone or aborted. */
  ghost predicate Closed(db: Db, upload: Uuid) {
    upload in db.sessions ==> db.sessions[upload].status == Aborted
  }

  /** A closed upload id stays closed as long as no upload is started under it anew. */
  lemma {:induction false} ClosedStays(sha: Bytes -> Digest, db: Db, rs: seq<Request>, upload: Uuid)
    requires Closed(db, upload)
    requires forall r :: r in rs && r.StartUpload? ==> r.upload != upload
    ensures Closed(Run(sha, db, rs), upload)
    decreases |rs|
  {
    hide Apply;
    if rs != [] {
      assert rs[0] in rs;
      ClosedStep(sha, db, rs[0], upload);
      ClosedStays(sha, Apply(sha, db, rs[0]).0, rs[1..], upload);
    }
  }

  lemma ClosedStep(sha: Bytes -> Digest, db: Db, r: Request, upload: Uuid)
    requires Closed(db, upload) && (r.StartUpload? ==> r.upload != upload)
    ensures Closed(Apply(sha, db, r).0, upload)
  {
    hide Apply;
    StepMoves(sha, db, r);
  }

  /** No chunk and no completion is accepted for a closed upload. */
  lemma ClosedRefuses(db: Db, k: AttKey, upload: Uuid, t: Clock)
    requires Closed(db, upload)
    ensures !OpenSession(db, k, upload, t).1.Ok?
  {
  }

  /** Cleaning up ends exactly the user's expired sessions in progress: they are
      aborted and emptied, and every other session keeps its row and its chunks. */
  lemma CleanupEndsExpired(db: Db, user: Uuid, now: int, u: Uuid)
    requires u in db.sessions
    ensures var s, db' := db.sessions[u], Cleanup(db, user, now);
            && u in db'.sessions
            && (if s.att.user == user && s.status == InProgress && s.expiresAt < now
                then db'.sessions[u] == s.(status := Aborted) && StagedIndices(db'.staged, u) == {}
                else db'.sessions[u] == s && StagedIndices(db'.staged, u) == StagedIndices(db.staged, u))
  {
    hide StagedIndices;
    var db' := Cleanup(db, user, now);
    if u in Expired(db, user, now) {
      forall i ensures i !in StagedIndices(db'.staged, u) {
        StagedIndex(db'.staged, u, i);
      }
    } else {
      StagedIndicesSame(db.staged, db'.staged, u);
    }
  }

  // ----- complete is all or nothing -----

  ghost predicate Live(s: SessionRow, t: Clock) {
    s.expiresAt >= t.first && s.expiresAt >= t.second
  }

  /** Sessions that were not expired keep their row and their staged chunks. */
  ghost predicate OnlyExpiredChange(db: Db, db': Db, t: Clock) {
    && OnlyUploads(db, db')
    && (forall u :: u in db.sessions && Live(db.sessions[u], t) ==>
          u in db'.sessions && db'.sessions[u] == db.sessions[u])
    && (forall s :: s in db.staged && s.upload in db.sessions && Live(db.sessions[s.upload], t) ==>
          s in db'.staged && db'.staged[s] == db.staged[s])
  }

  lemma AbortExpiredOnly(db: Db, ids: set<Uuid>, t: Clock)
    requires forall u :: u in ids && u in db.sessions ==> !Live(db.sessions[u], t)
    ensures OnlyExpiredChange(db, Abort(db, ids), t)
  {
  }

  lemma OpenSessionOnlyExpires(db: Db, k: AttKey, upload: Uuid, t: Clock)
    ensures OnlyExpiredChange(db, OpenSession(db, k, upload, t).0, t)
  {
    hide OnlyExpiredChange, Abort;
    var ids := Expired(db, k.user, t.first);
    AbortExpiredOnly(db, ids, t);
    var db1 := Cleanup(db, k.user, t.first);
    if OpenSession(db, k, upload, t).0 == db1 {
    } else {
      assert db1.sessions[upload].expiresAt < t.second;
      AbortKeepsExpiry(db, ids, upload);
      AbortExpiredOnly(db, ids + {upload}, t);
      AbortTwice(db, ids, {upload});
    }
  }

  lemma AbortKeepsExpiry(db: Db, ids: set<Uuid>, upload: Uuid)
    ensures upload in db.sessions ==> Abort(db, ids).sessions[upload].expiresAt == db.sessions[upload].expiresAt
  {
  }

  lemma AbortTwice(db: Db, a: set<Uuid>, b: set<Uuid>)
    ensures Abort(Abort(db, a), b) == Abort(db, a + b)
  {
  }

  /** A completion that fails leaves everything but expired sessions as it was. */
  lemma FailedCompleteChangesNothing(
    sha: Bytes -> Digest, db: Db, k: AttKey, upload: Uuid,
    ifMatch: Option<string>, contentType: Option<string>, t: Clock, stamp: Epoch)
    requires !Complete(sha, db, k, upload, ifMatch, contentType, t, stamp).1.Ok?
    ensures OnlyExpiredChange(db, Complete(sha, db, k, upload, ifMatch, contentType, t, stamp).0, t)
  {
    hide OpenSession, Finalize, StagedParts, TotalLength, OnlyExpiredChange;
    OpenSessionOnlyExpires(db, k, upload, t);
  }

  /** When a completion succeeds, in terms a client can check beforehand. */
  ghost predicate ReadyToComplete(
    db: Db, k: AttKey, upload: Uuid, ifMatch: Option<string>, contentType: Option<string>, t: Clock)
  {
    && upload in db.sessions && db.sessions[upload].att == k && db.sessions[upload].status == InProgress
    && Live(db.sessions[upload], t)
    && db.sessions[upload].received == |StagedIndices(db.staged, upload)| == db.sessions[upload].expected
    && Active(db.notes, NoteOf(k))
    && (k in db.attachments && ifMatch.Some? ==> StripQuotes(ifMatch.value) == db.attachments[k].etag)
    && (contentType.Some? ==> '\0' !in contentType.value)
  }

  lemma OpenedUnchanged(db: Db, k: AttKey, upload: Uuid, t: Clock)
    ensures OpenSession(db, k, upload, t).1.Ok? <==>
              && upload in db.sessions && db.sessions[upload].att == k && db.sessions[upload].status == InProgress
              && Live(db.sessions[upload], t)
    ensures OpenSession(db, k, upload, t).1.Ok? ==>
              && OpenSession(db, k, upload, t).0 == Cleanup(db, k.user, t.first)
              && OpenSession(db, k, upload, t).1.value == db.sessions[upload]
              && forall i ::
                  (StageKey(upload, i) in db.staged <==> StageKey(upload, i) in OpenSession(db, k, upload, t).0.staged)
                          && (StageKey(upload, i) in db.staged ==>
                                OpenSession(db, k, upload, t).0.staged[StageKey(upload, i)]
                                == db.staged[StageKey(upload, i)])
  {
  }

  lemma CompletesIffReady(
    sha: Bytes -> Digest, db: Db, k: AttKey, upload: Uuid,
    ifMatch: Option<string>, contentType: Option<string>, t: Clock, stamp: Epoch)
    requires Inv(sha, db)
    ensures Complete(sha, db, k, upload, ifMatch, contentType, t, stamp).1.Ok?
       <==> ReadyToComplete(db, k, upload, ifMatch, contentType, t)
  {
    hide Inv, OpenSession, Finalize, StagedParts, TotalLength, StagedIndices, Cleanup, StripQuotes;
    OpenSessionKeeps(sha, db, k, upload, t);
    OpenedUnchanged(db, k, upload, t);
    var (db1, got) := OpenSession(db, k, upload, t);
    if got.Ok? {
      var s := got.value;
      StagedIndicesSame(db.staged, db1.staged, upload);
      PartsCountRows(db1.staged, upload);
      if |StagedParts(db1.staged, upload)| == s.expected {
        SessionsOfInv(sha, db1);
        NoSizeMismatch(db1, upload);
        FinalizeKeepsInv(sha, db1, k, upload, contentType, ifMatch, stamp);
      }
    }
  }

  /** Which answer a session gives that is not open: it is not there for this
      attachment, or it has expired or ended. */
  lemma OpenSessionAnswers(db: Db, k: AttKey, upload: Uuid, t: Clock)
    ensures OpenSession(db, k, upload, t).1 == Fail(NoteNotFound)
       <==> upload !in db.sessions || db.sessions[upload].att != k
    ensures OpenSession(db, k, upload, t).1 == Fail(Conflict)
       <==> && upload in db.sessions && db.sessions[upload].att == k
            && (db.sessions[upload].status == Aborted || !Live(db.sessions[upload], t))
    ensures !OpenSession(db, k, upload, t).1.Ok? ==>
              OpenSession(db, k, upload, t).1 == Fail(NoteNotFound) || OpenSession(db, k, upload, t).1 == Fail(Conflict)
  {
  }

  /** Which answer a completion gets that is not accepted: for an open session, first
      missing or uncounted chunks, then the note, the etag and the content type. */
  lemma CompleteAnswers(
    sha: Bytes -> Digest, db: Db, k: AttKey, upload: Uuid,
    ifMatch: Option<string>, contentType: Option<string>, t: Clock, stamp: Epoch)
    requires Inv(sha, db) && OpenSession(db, k, upload, t).1.Ok?
    ensures upload in db.sessions
    ensures var out := Complete(sha, db, k, upload, ifMatch, contentType, t, stamp).1;
            var s := db.sessions[upload];
            var whole := s.received == |StagedIndices(db.staged, upload)| == s.expected;
            var stale := k in db.attachments && ifMatch.Some? && StripQuotes(ifMatch.value) != db.attachments[k].etag;
            && (out == Fail(Validation) <==> !whole)
            && (out == Fail(NoteNotFound) <==> whole && !Active(db.notes, NoteOf(k)))
            && (out == Fail(Conflict) <==> whole && Active(db.notes, NoteOf(k)) && stale)
            && (out == Crash <==> && whole && Active(db.notes, NoteOf(k)) && !stale
                                  && contentType.Some? && '\0' in contentType.value)
  {
    hide Inv, OpenSession, Finalize, StagedParts, TotalLength, StagedIndices, Cleanup, StripQuotes, AttachmentRefusal;
    OpenSessionKeeps(sha, db, k, upload, t);
    OpenedUnchanged(db, k, upload, t);
    var (db1, got) := OpenSession(db, k, upload, t);
    var s := got.value;
    StagedIndicesSame(db.staged, db1.staged, upload);
    PartsCountRows(db1.staged, upload);
    if |StagedParts(db1.staged, upload)| == s.expected {
      SessionsOfInv(sha, db1);
      NoSizeMismatch(db1, upload);
      FinalizeKeepsInv(sha, db1, k, upload, contentType, ifMatch, stamp);
      AttachmentRefusalIs(db1, k, contentType, ifMatch);
      if AttachmentRefusal(db1, k, contentType, ifMatch).Some? {
        FinalizeRefuses(sha, db1, k, upload, s.totalSize, contentType, ifMatch, stamp);
      }
    }
  }

  lemma FinalizeRefuses(
    sha: Bytes -> Digest, db: Db, k: AttKey, upload: Uuid, totalSize: nat,
    contentType: Option<string>, ifMatch: Option<string>, stamp: Epoch)
    requires AttachmentRefusal(db, k, contentType, ifMatch).Some?
    ensures Some(Finalize(sha, db, k, upload, totalSize, contentType, ifMatch, stamp).1)
         == AttachmentRefusal(db, k, contentType, ifMatch)
  {
    hide AttachmentRefusal;
  }

  lemma PartsCountRows(staged: map<StageKey, Bytes>, upload: Uuid)
    ensures |StagedParts(staged, upload)| == |StagedIndices(staged, upload)|
  {
  }

  /** A completion that succeeds removes the upload, writes this one attachment and
      its note's etag and stamp, and nothing else; it cannot be repeated. */
  lemma SuccessfulComplete(
    sha: Bytes -> Digest, db: Db, k: AttKey, upload: Uuid,
    ifMatch: Option<string>, contentType: Option<string>, t: Clock, stamp: Epoch, later: Clock)
    requires Complete(sha, db, k, upload, ifMatch, contentType, t, stamp).1.Ok?
    ensures var (db', out) := Complete(sha, db, k, upload, ifMatch, contentType, t, stamp);
            && upload !in db'.sessions && StagedIndices(db'.staged, upload) == {}
            && TouchesOnly(db, db', NoteOf(k)) && db'.blobs == db.blobs
            && (forall other :: other != k ==>
                  (other in db'.attachments <==> other in db.attachments)
                  && (other in db.attachments ==> db'.attachments[other] == db.attachments[other]))
            && (forall c: ChunkKey :: c.att != k ==>
                  (c in db'.chunks <==> c in db.chunks) && (c in db.chunks ==> db'.chunks[c] == db.chunks[c]))
            && k in db'.attachments
            && db'.attachments[k] == AttRow(out.value.size, out.value.etag, out.value.contentType, stamp)
            && out.value.updatedAt == stamp
            && out.value.contentType
               == (if contentType.None? && k in db.attachments then db.attachments[k].contentType else contentType)
            && NoteOf(k) in db.notes && NoteOf(k) in db'.notes
            && db'.notes[NoteOf(k)] == db.notes[NoteOf(k)].(
                 etag := out.value.noteEtag, updatedAt := db'.notes[NoteOf(k)].updatedAt)
            && OpenSession(db', k, upload, later).1 == Fail(NoteNotFound)
  {
    hide OpenSession, Finalize, StagedParts, TotalLength, TouchesOnly, StagedIndices;
    CompleteFrame(sha, db, k, upload, ifMatch, contentType, t, stamp);
    var (db1, got) := OpenSession(db, k, upload, t);
    FinalizeSuccess(sha, db1, k, upload, got.value.totalSize, contentType, ifMatch, stamp);
    FinalizeReply(sha, db1, k, upload, got.value.totalSize, contentType, ifMatch, stamp);
    var (db2, out) := Finalize(sha, db1, k, upload, got.value.totalSize, contentType, ifMatch, stamp);
    NothingStaged(db2, upload);
    MissingSession(DropSession(db2, upload), k, upload, later);
  }

  lemma NothingStaged(db: Db, upload: Uuid)
    ensures StagedIndices(DropSession(db, upload).staged, upload) == {}
  {
  }

  lemma MissingSession(db: Db, k: AttKey, upload: Uuid, t: Clock)
    requires upload !in db.sessions
    ensures OpenSession(db, k, upload, t).1 == Fail(NoteNotFound)
  {
  }

  lemma FinalizeSuccess(
    sha: Bytes -> Digest, db: Db, k: AttKey, upload: Uuid, totalSize: nat,
    contentType: Option<string>, ifMatch: Option<string>, stamp: Epoch)
    requires Finalize(sha, db, k, upload, totalSize, contentType, ifMatch, stamp).1.Ok?
    ensures var (db', out) := Finalize(sha, db, k, upload, totalSize, contentType, ifMatch, stamp);
            && k in db'.attachments && db'.attachments == db.attachments[k := db'.attachments[k]]
            && db'.attachments[k].size == totalSize
            && db'.attachments[k].etag == sha(Join(StagedParts(db.staged, upload)))
            && db'.chunks == Promote(db.chunks, db.staged, k, upload)
            && (forall c: ChunkKey :: c.att != k ==>
                  (c in db'.chunks <==> c in db.chunks) && (c in db.chunks ==> db'.chunks[c] == db.chunks[c]))
            && NoteOf(k) in db.notes && NoteOf(k) in db'.notes
            && db'.notes[NoteOf(k)] == db.notes[NoteOf(k)].(
                 etag := out.value.noteEtag, updatedAt := db'.notes[NoteOf(k)].updatedAt)
  {
    hide Promote, Join, StagedParts, StripQuotes, IsPgText, SyncEtag, SyncStamp, AttsOf, BodyOf;
    forall c: ChunkKey { PromotedChunks(db.chunks, db.staged, k, upload, c); }
  }

  lemma FinalizeReply(
    sha: Bytes -> Digest, db: Db, k: AttKey, upload: Uuid, totalSize: nat,
    contentType: Option<string>, ifMatch: Option<string>, stamp: Epoch)
    requires Finalize(sha, db, k, upload, totalSize, contentType, ifMatch, stamp).1.Ok?
    ensures var (db', out) := Finalize(sha, db, k, upload, totalSize, contentType, ifMatch, stamp);
            && k in db'.attachments && out.value.size == totalSize
            && db'.attachments[k] == AttRow(out.value.size, out.value.etag, out.value.contentType, stamp)
            && out.value.updatedAt == stamp
            && out.value.contentType
               == (if contentType.None? && k in db.attachments then db.attachments[k].contentType else contentType)
  {
    hide Recompute, StripQuotes, IsPgText, Promote, Join, StagedParts;
  }
}
