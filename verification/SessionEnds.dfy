/** Which upload sessions each upload request ends, row by row. */
module SessionEnds {
  import opened Prelude
  import opened ChunkMath
  import opened CompositeEtag
  import opened Tables
  import opened NoteService
  import opened Uploads
  import opened Machine
  import opened RoundTrip

  /** A session is ended by marking its row aborted and deleting its staged rows; a
      session that is not ended keeps both. */
  ghost predicate EndedOrKept(db: Db, db': Db, u: Uuid, ended: bool)
    requires u in db.sessions
  {
    && u in db'.sessions
    && db'.sessions[u] == (if ended then db.sessions[u].(status := Aborted) else db.sessions[u])
    && forall i :: StagedRow(db', u, i) == if ended then None else StagedRow(db, u, i)
  }

  /** In progress for this user, and past its expiry at the first reading of the clock. */
  predicate RunOut(s: SessionRow, user: Uuid, t: Clock) {
    s.att.user == user && s.status == InProgress && s.expiresAt < t.first
  }

  /** The session that is asked for ends as well if it expires between the readings. */
  predicate RunsOut(s: SessionRow, k: AttKey, asked: bool, t: Clock) {
    RunOut(s, k.user, t) || (asked && s.att == k && s.expiresAt < t.second)
  }

  lemma AbortEnds(db: Db, ids: set<Uuid>, u: Uuid)
    requires u in db.sessions
    ensures EndedOrKept(db, Abort(db, ids), u, u in ids)
  {
  }

  lemma EndedTwice(db: Db, db1: Db, db2: Db, u: Uuid, first: bool, second: bool)
    requires u in db.sessions && EndedOrKept(db, db1, u, first) && EndedOrKept(db1, db2, u, second)
    ensures EndedOrKept(db, db2, u, first || second)
  {
    hide StagedRow;
  }

  lemma CleanupEnds(db: Db, user: Uuid, t: Clock, u: Uuid)
    requires u in db.sessions
    ensures EndedOrKept(db, Cleanup(db, user, t.first), u, RunOut(db.sessions[u], user, t))
  {
    hide Abort, EndedOrKept;
    AbortEnds(db, Expired(db, user, t.first), u);
  }

  lemma OpenSessionEnds(db: Db, k: AttKey, upload: Uuid, t: Clock, u: Uuid)
    requires u in db.sessions
    ensures EndedOrKept(db, OpenSession(db, k, upload, t).0, u, RunsOut(db.sessions[u], k, u == upload, t))
  {
    hide Abort, Cleanup, StagedRow;
    var db1 := Cleanup(db, k.user, t.first);
    CleanupEnds(db, k.user, t, u);
    if upload in db1.sessions && db1.sessions[upload].att == k && db1.sessions[upload].expiresAt < t.second {
      AbortEnds(db1, {upload}, u);
      EndedTwice(db, db1, Abort(db1, {upload}), u, RunOut(db.sessions[u], k.user, t), u == upload);
    }
  }

  lemma SameChunks(db: Db, db1: Db, db2: Db, u: Uuid, ended: bool)
    requires u in db.sessions && EndedOrKept(db, db1, u, ended)
    requires u in db2.sessions && db2.sessions[u] == db1.sessions[u]
    requires forall i :: StageKey(u, i) in db2.staged <==> StageKey(u, i) in db1.staged
    requires forall i :: StageKey(u, i) in db1.staged ==> db2.staged[StageKey(u, i)] == db1.staged[StageKey(u, i)]
    ensures EndedOrKept(db, db2, u, ended)
  {
    forall i ensures StagedRow(db2, u, i) == StagedRow(db1, u, i) {
    }
  }

  /** A refused start changes nothing; one that raises has cleaned up; one that succeeds
      has also ended the attachment's sessions and added its own. */
  lemma InitSplits(db: Db, k: AttKey, totalSize: nat, upload: Uuid, t: Clock)
    ensures var (db', out) := Init(db, k, totalSize, upload, t);
            var db1 := Cleanup(db, k.user, t.first);
            var db2 := Abort(db1, InProgressFor(db1, k));
            && (out.Fail? ==> db' == db)
            && (out.Crash? ==> db' == db1)
            && (out.Ok? ==> upload !in db2.sessions && upload in db'.sessions && db'.staged == db2.staged
                            && db'.sessions == db2.sessions[upload := db'.sessions[upload]])
  {
    hide Abort, Cleanup, TotalChunks, InProgressFor;
  }

  lemma InitEnds(db: Db, k: AttKey, totalSize: nat, upload: Uuid, t: Clock, u: Uuid)
    requires u in db.sessions
    ensures var (db', out) := Init(db, k, totalSize, upload, t);
            var s := db.sessions[u];
            && (out.Fail? ==> db' == db)
            && (out.Crash? ==> EndedOrKept(db, db', u, RunOut(s, k.user, t)))
            && (out.Ok? ==> EndedOrKept(db, db', u, RunOut(s, k.user, t) || (s.att == k && s.status == InProgress)))
            && db'.sessions.Keys == db.sessions.Keys + (if out.Ok? then {upload} else {})
  {
    hide Init, Abort, Cleanup, StagedRow, Expired;
    var s, db1 := db.sessions[u], Cleanup(db, k.user, t.first);
    InitSplits(db, k, totalSize, upload, t);
    CleanupEnds(db, k.user, t, u);
    if Init(db, k, totalSize, upload, t).1.Ok? {
      var ids := InProgressFor(db1, k);
      AbortEnds(db1, ids, u);
      EndedTwice(db, db1, Abort(db1, ids), u, RunOut(s, k.user, t), u in ids);
      SameChunks(db, Abort(db1, ids), Init(db, k, totalSize, upload, t).0, u, RunOut(s, k.user, t) || u in ids);
    }
  }

  lemma StageElsewhere(db: Db, upload: Uuid, index: int, data: Bytes, u: Uuid)
    requires upload in db.sessions && u in db.sessions && u != upload
    ensures EndedOrKept(db, Stage(db, upload, index, data), u, false)
  {
    if StageKey(upload, index) in db.staged {
    } else {
    }
  }

  lemma PutChunkEnds(db: Db, k: AttKey, upload: Uuid, index: int, data: Bytes, t: Clock, u: Uuid)
    requires u in db.sessions
    ensures var (db', out) := PutChunk(db, k, upload, index, data, t);
            && (u != upload || !out.Ok? ==> EndedOrKept(db, db', u, RunsOut(db.sessions[u], k, u == upload, t)))
            && db'.sessions.Keys == db.sessions.Keys
  {
    hide OpenSession, StagedRow, RunsOut, ChunkLengthOf, Stage;
    OpenSessionEnds(db, k, upload, t, u);
    OpenSessionKeys(db, k, upload, t);
    if u != upload && PutChunk(db, k, upload, index, data, t).1.Ok? {
      var db1 := OpenSession(db, k, upload, t).0;
      StageElsewhere(db1, upload, index, data, u);
      EndedTwice(db, db1, Stage(db1, upload, index, data), u, RunsOut(db.sessions[u], k, false, t), false);
    }
  }

  lemma OpenSessionKeys(db: Db, k: AttKey, upload: Uuid, t: Clock)
    ensures OpenSession(db, k, upload, t).0.sessions.Keys == db.sessions.Keys
  {
    hide Cleanup, Abort;
  }

  lemma DropElsewhere(db: Db, upload: Uuid, u: Uuid)
    requires u in db.sessions && u != upload
    ensures EndedOrKept(db, DropSession(db, upload), u, false)
  {
  }

  lemma CompleteEnds(
    sha: Bytes -> Digest, db: Db, k: AttKey, upload: Uuid, ifMatch: Option<string>, contentType: Option<string>,
    t: Clock, stamp: Epoch, u: Uuid)
    requires u in db.sessions
    ensures var (db', out) := Complete(sha, db, k, upload, ifMatch, contentType, t, stamp);
            && (u != upload || !out.Ok? ==> EndedOrKept(db, db', u, RunsOut(db.sessions[u], k, u == upload, t)))
            && db'.sessions.Keys == db.sessions.Keys - (if out.Ok? then {upload} else {})
  {
    hide OpenSession, StagedRow, RunsOut, Finalize, StagedParts, TotalLength, DropSession;
    OpenSessionEnds(db, k, upload, t, u);
    OpenSessionKeys(db, k, upload, t);
    var (db1, got) := OpenSession(db, k, upload, t);
    if Complete(sha, db, k, upload, ifMatch, contentType, t, stamp).1.Ok? {
      var db2 := Finalize(sha, db1, k, upload, got.value.totalSize, contentType, ifMatch, stamp).0;
      DropKeys(db2, upload);
      if u != upload {
        SameChunks(db, db1, db2, u, RunsOut(db.sessions[u], k, false, t));
        DropElsewhere(db2, upload, u);
        EndedTwice(db, db2, DropSession(db2, upload), u, RunsOut(db.sessions[u], k, false, t), false);
      }
    }
  }

  lemma DropKeys(db: Db, upload: Uuid)
    ensures DropSession(db, upload).sessions.Keys == db.sessions.Keys - {upload}
  {
  }

  // ----- the three requests -----

  /** Starting an upload ends the user's expired sessions and, if it succeeds, the
      attachment's session in progress; a refused start ends none. */
  lemma StartUploadEnds(sha: Bytes -> Digest, db: Db, k: AttKey, totalSize: nat, upload: Uuid, t: Clock, u: Uuid)
    requires k.user in db.users && u in db.sessions
    ensures var (db', reply) := Apply(sha, db, StartUpload(k, totalSize, upload, t));
            var s := db.sessions[u];
            && (reply.Refused? ==> db' == db)
            && (reply.Crashed? ==> EndedOrKept(db, db', u, RunOut(s, k.user, t)))
            && (reply.Started? ==>
                  EndedOrKept(db, db', u, RunOut(s, k.user, t) || (s.att == k && s.status == InProgress)))
            && db'.sessions.Keys == db.sessions.Keys + (if reply.Started? then {upload} else {})
  {
    hide Init, EndedOrKept, RunOut;
    InitEnds(db, k, totalSize, upload, t, u);
  }

  /** A chunk upload ends the user's expired sessions, whatever it is answered; it
      writes to no session but the one it names, and to that one only if it succeeds. */
  lemma UploadChunkEnds(
    sha: Bytes -> Digest, db: Db, k: AttKey, upload: Uuid, index: int, data: Bytes, t: Clock, u: Uuid)
    requires k.user in db.users && u in db.sessions
    ensures var (db', reply) := Apply(sha, db, UploadChunk(k, upload, index, data, t));
            && (u != upload || reply != Done ==>
                  EndedOrKept(db, db', u, RunsOut(db.sessions[u], k, u == upload, t)))
            && db'.sessions.Keys == db.sessions.Keys
  {
    hide PutChunk, EndedOrKept, RunsOut;
    PutChunkEnds(db, k, upload, index, data, t, u);
  }

  /** So does a completion, which also removes the session it completes. */
  lemma CompleteUploadEnds(
    sha: Bytes -> Digest, db: Db, k: AttKey, upload: Uuid, ifMatch: Option<string>, contentType: Option<string>,
    t: Clock, stamp: Epoch, u: Uuid)
    requires k.user in db.users && u in db.sessions
    ensures var (db', reply) := Apply(sha, db, CompleteUpload(k, upload, ifMatch, contentType, t, stamp));
            && (u != upload || !reply.Uploaded? ==>
                  EndedOrKept(db, db', u, RunsOut(db.sessions[u], k, u == upload, t)))
            && db'.sessions.Keys == db.sessions.Keys - (if reply.Uploaded? then {upload} else {})
  {
    hide Complete, EndedOrKept, RunsOut;
    CompleteEnds(sha, db, k, upload, ifMatch, contentType, t, stamp, u);
  }
}
