/** What each request leaves alone: other notes, other users, and every tombstone. */
module Frames {
  import opened Prelude
  import ChunkMath
  import opened CompositeEtag
  import opened Tables
  import opened NoteService
  import opened Uploads
  import opened Accounts
  import opened Invariants
  import opened UploadProofs
  import opened NoteProofs
  import opened Machine
  import Ssnt

  /** Rows of every note but nk are the same in all four content tables. */
  ghost predicate TouchesOnly(db: Db, db': Db, nk: NoteKey) {
    && (forall o :: o != nk ==> (o in db.notes <==> o in db'.notes) && (o in db.notes ==> db'.notes[o] == db.notes[o]))
    && (forall o :: o != nk ==> (o in db.blobs <==> o in db'.blobs) && (o in db.blobs ==> db'.blobs[o] == db.blobs[o]))
    && (forall k :: NoteOf(k) != nk ==>
          (k in db.attachments <==> k in db'.attachments)
          && (k in db.attachments ==> db'.attachments[k] == db.attachments[k]))
    && (forall c: ChunkKey :: NoteOf(c.att) != nk ==>
          (c in db.chunks <==> c in db'.chunks) && (c in db.chunks ==> db'.chunks[c] == db.chunks[c]))
  }

  ghost predicate SameContent(db: Db, db': Db) {
    db'.notes == db.notes && db'.blobs == db.blobs && db'.attachments == db.attachments && db'.chunks == db.chunks
  }

  ghost predicate Tombstone(db: Db, nk: NoteKey) {
    nk in db.notes && db.notes[nk].deletedAt.Some?
  }

  lemma RecomputeFrame(sha: Bytes -> Digest, db: Db, nk: NoteKey, given: Option<BodyInfo>)
    ensures var db' := Recompute(sha, db, nk, given).0;
            && (forall o :: o != nk ==>
                  (o in db.notes <==> o in db'.notes) && (o in db.notes ==> db'.notes[o] == db.notes[o]))
  {
    hide SyncEtag, SyncStamp, AttsOf, BodyOf;
    if Recompute(sha, db, nk, given).1.Ok? {
    } else {
    }
  }

  lemma PutBodyFrame(sha: Bytes -> Digest, db: Db, nk: NoteKey, body: Bytes, ifMatch: Option<string>)
    ensures TouchesOnly(db, PutBody(sha, db, nk, body, ifMatch).0, nk)
    ensures Tombstone(db, nk) ==>
              PutBody(sha, db, nk, body, ifMatch).0 == db && !PutBody(sha, db, nk, body, ifMatch).1.Ok?
  {
    hide PutBody, BodyRefusal, Recompute, Ssnt.Parse;
    PutBodyShape(sha, db, nk, body, ifMatch);
    if PutBody(sha, db, nk, body, ifMatch).1.Ok? {
      var f := Ssnt.Parse(body).value;
      RecomputeFrame(sha, WriteBody(sha, db, nk, body, f), nk, Some(BodyInfo(body, f.updatedAt)));
    }
  }

  lemma SoftDeleteFrame(db: Db, nk: NoteKey, now: int)
    ensures TouchesOnly(db, SoftDelete(db, nk, now).0, nk)
    ensures Tombstone(db, nk) ==> SoftDelete(db, nk, now).0 == db
  {
  }

  lemma EraseFrame(db: Db, k: AttKey)
    ensures TouchesOnly(db, EraseAttachment(db, k), NoteOf(k))
    ensures EraseAttachment(db, k).notes == db.notes
  {
  }

  lemma TouchesOnlyThenNotes(db: Db, mid: Db, db': Db, nk: NoteKey)
    requires TouchesOnly(db, mid, nk)
    requires db' == mid.(notes := db'.notes)
    requires forall o :: o != nk ==>
               (o in mid.notes <==> o in db'.notes) && (o in mid.notes ==> db'.notes[o] == mid.notes[o])
    ensures TouchesOnly(db, db', nk)
  {
  }

  lemma DeleteAttachmentFrame(sha: Bytes -> Digest, db: Db, k: AttKey)
    ensures TouchesOnly(db, DeleteAttachment(sha, db, k).0, NoteOf(k))
    ensures Tombstone(db, NoteOf(k)) ==> DeleteAttachment(sha, db, k).0 == db
  {
    hide Recompute, EraseAttachment, TouchesOnly;
    var nk := NoteOf(k);
    EraseFrame(db, k);
    RecomputeFrame(sha, EraseAttachment(db, k), nk, None);
    TouchesOnlyThenNotes(db, EraseAttachment(db, k), Recompute(sha, EraseAttachment(db, k), nk, None).0, nk);
    NothingTouched(db, nk);
  }

  lemma NothingTouched(db: Db, nk: NoteKey)
    ensures TouchesOnly(db, db, nk)
  {
  }

  lemma WriteAttachmentFrame(
    sha: Bytes -> Digest, db: Db, k: AttKey, upload: Uuid, totalSize: nat, contentType: Option<string>, stamp: Epoch)
    ensures TouchesOnly(db, WriteAttachment(sha, db, k, upload, totalSize, contentType, stamp), NoteOf(k))
  {
    hide Promote, Join, StagedParts;
    var after := WriteAttachment(sha, db, k, upload, totalSize, contentType, stamp);
    forall c: ChunkKey | NoteOf(c.att) != NoteOf(k)
      ensures (c in db.chunks <==> c in after.chunks) && (c in db.chunks ==> after.chunks[c] == db.chunks[c])
    {
      PromotedChunks(db.chunks, db.staged, k, upload, c);
    }
  }

  lemma FinalizeFrame(
    sha: Bytes -> Digest, db: Db, k: AttKey, upload: Uuid, totalSize: nat,
    contentType: Option<string>, ifMatch: Option<string>, stamp: Epoch)
    ensures TouchesOnly(db, Finalize(sha, db, k, upload, totalSize, contentType, ifMatch, stamp).0, NoteOf(k))
    ensures Tombstone(db, NoteOf(k)) ==> Finalize(sha, db, k, upload, totalSize, contentType, ifMatch, stamp).0 == db
  {
    hide Finalize, Recompute, WriteAttachment, TouchesOnly, StripQuotes, IsPgText;
    var nk := NoteOf(k);
    FinalizeShape(sha, db, k, upload, totalSize, contentType, ifMatch, stamp);
    var mid := WriteAttachment(sha, db, k, upload, totalSize, contentType, stamp);
    WriteAttachmentFrame(sha, db, k, upload, totalSize, contentType, stamp);
    RecomputeFrame(sha, mid, nk, None);
    TouchesOnlyThenNotes(db, mid, Recompute(sha, mid, nk, None).0, nk);
    NothingTouched(db, nk);
  }

  lemma CompleteFrame(
    sha: Bytes -> Digest, db: Db, k: AttKey, upload: Uuid,
    ifMatch: Option<string>, contentType: Option<string>, t: Clock, stamp: Epoch)
    ensures TouchesOnly(db, Complete(sha, db, k, upload, ifMatch, contentType, t, stamp).0, NoteOf(k))
    ensures Tombstone(db, NoteOf(k)) ==> SameContent(db, Complete(sha, db, k, upload, ifMatch, contentType, t, stamp).0)
  {
    hide OpenSession, Finalize, StagedParts, TotalLength, TouchesOnly;
    var nk := NoteOf(k);
    var (db1, got) := OpenSession(db, k, upload, t);
    NothingTouched(db, nk);
    SameContentFrame(db, db, db, db1, nk);
    if got.Ok? {
      var db2 := Finalize(sha, db1, k, upload, got.value.totalSize, contentType, ifMatch, stamp).0;
      FinalizeFrame(sha, db1, k, upload, got.value.totalSize, contentType, ifMatch, stamp);
      SameContentFrame(db1, db, db2, DropSession(db2, upload), nk);
      if Complete(sha, db, k, upload, ifMatch, contentType, t, stamp).1.Ok? {
      } else {
        assert SameContent(db, Complete(sha, db, k, upload, ifMatch, contentType, t, stamp).0);
      }
    }
  }

  /** TouchesOnly looks at the content tables alone. */
  lemma SameContentFrame(a: Db, a': Db, b: Db, b': Db, nk: NoteKey)
    requires SameContent(a, a') && SameContent(b, b')
    ensures TouchesOnly(a, b, nk) ==> TouchesOnly(a', b', nk)
  {
  }

  /** The note a request writes to, if it writes to note content at all. */
  function Target(r: Request): Option<NoteKey> {
    match r
    case PutNoteBody(user, note, _, _) => Some(NoteKey(user, note))
    case DeleteNote(user, note, _) => Some(NoteKey(user, note))
    case RemoveAttachment(k) => Some(NoteOf(k))
    case CompleteUpload(k, _, _, _, _, _) => Some(NoteOf(k))
    case _ => None
  }

  lemma HandleFrame(sha: Bytes -> Digest, db: Db, r: Request, nk: NoteKey)
    requires Target(r) == Some(nk)
    ensures TouchesOnly(db, Handle(sha, db, r).0, nk)
    ensures Tombstone(db, nk) ==> SameContent(db, Handle(sha, db, r).0)
  {
    hide PutBody, SoftDelete, DeleteAttachment, Complete, TouchesOnly, Tombstone;
    match r
    case PutNoteBody(_, _, body, ifMatch) => PutBodyFrame(sha, db, nk, body, ifMatch);
    case DeleteNote(_, _, now) => SoftDeleteFrame(db, nk, now);
    case RemoveAttachment(k) => DeleteAttachmentFrame(sha, db, k);
    case CompleteUpload(k, upload, ifMatch, contentType, clock, stamp) =>
      CompleteFrame(sha, db, k, upload, ifMatch, contentType, clock, stamp);
  }

  lemma HandleNoContent(sha: Bytes -> Digest, db: Db, r: Request)
    requires Target(r).None? && !r.DeleteAccount?
    ensures SameContent(db, Handle(sha, db, r).0)
  {
    hide Init, PutChunk, Register, Login, Rotate, RevokeAll, PutVault, Share, Revoke, RemoveShared;
    match r
    case StartUpload(_, _, _, _) =>
    case UploadChunk(_, _, _, _, _) =>
    case ShareNote(_, _, _, _, _) =>
    case RevokeShare(_, _, _) =>
    case RemoveSharedNote(_, _) =>
    case RegisterUser(_, _, _, _) =>
    case LoginUser(_, _, _, _) =>
    case RefreshTokens(_, _, _) =>
    case Logout(_, _) =>
    case PutVaultHeader(_, _) =>
  }

  // ----- tombstones -----

  /** No step but the deletion of the owner's account changes a tombstone row. */
  lemma TombstoneStep(sha: Bytes -> Digest, db: Db, r: Request, nk: NoteKey)
    requires Tombstone(db, nk) && r != DeleteAccount(nk.user, true)
    ensures Tombstone(Apply(sha, db, r).0, nk) && Apply(sha, db, r).0.notes[nk] == db.notes[nk]
  {
    hide Handle;
    if Caller(r).Some? && Caller(r).value !in db.users {
    } else if r.DeleteAccount? {
      HandleDeletion(sha, db, r);
    } else if Target(r).Some? {
      HandleFrame(sha, db, r, Target(r).value);
    } else {
      HandleNoContent(sha, db, r);
    }
  }

  /** Absorbing: the tombstone outlives every run without that account's deletion. */
  lemma {:induction false} TombstoneRun(sha: Bytes -> Digest, db: Db, rs: seq<Request>, nk: NoteKey)
    requires Tombstone(db, nk) && DeleteAccount(nk.user, true) !in rs
    ensures Tombstone(Run(sha, db, rs), nk) && Run(sha, db, rs).notes[nk] == db.notes[nk]
    decreases |rs|
  {
    hide Apply;
    if rs != [] {
      assert rs[0] in rs;
      TombstoneStep(sha, db, rs[0], nk);
      TombstoneRun(sha, Apply(sha, db, rs[0]).0, rs[1..], nk);
    }
  }

  /** Empty: no body, attachment or chunk, and no route returns a content byte,
      although a grant on the note may still be found. */
  lemma TombstoneIsEmpty(
    sha: Bytes -> Digest, db: Db, nk: NoteKey, recipient: Uuid, a: Uuid, index: int,
    body: Bytes, ifMatch: Option<string>)
    requires Inv(sha, db) && Tombstone(db, nk)
    ensures nk !in db.blobs
    ensures forall k :: k in db.attachments ==> NoteOf(k) != nk
    ensures forall c :: c in db.chunks ==> NoteOf(c.att) != nk
    ensures GetBody(sha, db, nk) == Fail(NoteNotFound)
    ensures GetManifest(db, nk) == Fail(NoteNotFound)
    ensures GetChunk(db, AttKey(nk.user, nk.note, a), index) == Fail(NoteNotFound)
    ensures FindGrant(db, recipient, nk.note).Ok? && FindGrant(db, recipient, nk.note).value.owner == nk.user ==>
              && SharedBody(sha, db, recipient, nk.note) == Fail(ShareNotFound)
              && SharedNote(db, recipient, nk.note) == Fail(ShareNotFound)
              && SharedManifest(db, recipient, nk.note) == Ok([])
              && SharedChunk(db, recipient, nk.note, a, index) == Fail(AttachmentNotFound)
    ensures PutBody(sha, db, nk, body, ifMatch).0 == db && !PutBody(sha, db, nk, body, ifMatch).1.Ok?
  {
    hide SyncOk, SessionsOk, AttachmentOk, StampsFit, UsersOk, VaultsOk, SharesOk, KeysOk, PutBody, FindGrant,
      SyncEtag;
    PutBodyFrame(sha, db, nk, body, ifMatch);
    NoAttachmentsNoManifest(db, nk);
  }

  lemma NoAttachmentsNoManifest(db: Db, nk: NoteKey)
    requires forall k :: k in db.attachments ==> NoteOf(k) != nk
    ensures Manifest(db, nk) == []
  {
    assert AttIds(db.attachments, nk) == {};
    assert AttsOf(db.attachments, nk) == map[];
    assert |Listing(map[])| == 0;
  }

  // ----- isolation between users -----

  /** Everything user u owns in the content tables is the same. */
  ghost predicate SameContentForUser(db: Db, db': Db, u: Uuid) {
    && (forall o: NoteKey :: o.user == u ==>
          (o in db.notes <==> o in db'.notes) && (o in db.notes ==> db'.notes[o] == db.notes[o]))
    && (forall o: NoteKey :: o.user == u ==>
          (o in db.blobs <==> o in db'.blobs) && (o in db.blobs ==> db'.blobs[o] == db.blobs[o]))
    && (forall k: AttKey :: k.user == u ==>
          && (k in db.attachments <==> k in db'.attachments)
          && (k in db.attachments ==> db'.attachments[k] == db.attachments[k]))
    && (forall c: ChunkKey :: c.att.user == u ==>
          (c in db.chunks <==> c in db'.chunks) && (c in db.chunks ==> db'.chunks[c] == db.chunks[c]))
  }

  predicate OwnsSession(db: Db, upload: Uuid, u: Uuid) {
    upload in db.sessions && db.sessions[upload].att.user == u
  }

  /** User u's upload sessions and their staged chunks are the same. */
  ghost predicate SameUploadsForUser(db: Db, db': Db, u: Uuid) {
    && (forall s :: OwnsSession(db, s, u) <==> OwnsSession(db', s, u))
    && (forall s :: OwnsSession(db, s, u) ==> db'.sessions[s] == db.sessions[s])
    && (forall k: StageKey :: OwnsSession(db, k.upload, u) ==>
          (k in db.staged <==> k in db'.staged) && (k in db.staged ==> db'.staged[k] == db.staged[k]))
  }

  lemma SameUploadsTwice(a: Db, b: Db, c: Db, u: Uuid)
    requires SameUploadsForUser(a, b, u) && SameUploadsForUser(b, c, u)
    ensures SameUploadsForUser(a, c, u)
  {
  }

  lemma SameUploadTables(db: Db, db': Db, u: Uuid)
    requires db'.sessions == db.sessions && db'.staged == db.staged
    ensures SameUploadsForUser(db, db', u)
  {
  }

  lemma AbortForeign(db: Db, ids: set<Uuid>, u: Uuid)
    requires forall s :: s in ids && s in db.sessions ==> db.sessions[s].att.user != u
    ensures SameUploadsForUser(db, Abort(db, ids), u)
  {
  }

  lemma CleanupForeign(db: Db, user: Uuid, now: int, u: Uuid)
    requires user != u
    ensures SameUploadsForUser(db, Cleanup(db, user, now), u)
  {
    hide Abort;
    AbortForeign(db, Expired(db, user, now), u);
  }

  lemma OpenSessionForeign(db: Db, k: AttKey, upload: Uuid, t: Clock, u: Uuid)
    requires k.user != u
    ensures SameUploadsForUser(db, OpenSession(db, k, upload, t).0, u)
  {
    hide SameUploadsForUser, Abort, Cleanup;
    var db1 := Cleanup(db, k.user, t.first);
    CleanupForeign(db, k.user, t.first, u);
    if OpenSession(db, k, upload, t).0 == db1 {
    } else {
      assert OpenSession(db, k, upload, t).0 == Abort(db1, {upload});
      AbortForeign(db1, {upload}, u);
      SameUploadsTwice(db, db1, Abort(db1, {upload}), u);
    }
  }

  lemma InitForeign(db: Db, k: AttKey, totalSize: nat, upload: Uuid, t: Clock, u: Uuid)
    requires k.user != u
    ensures SameUploadsForUser(db, Init(db, k, totalSize, upload, t).0, u)
  {
    hide SameUploadsForUser, Abort, Cleanup, ChunkMath.TotalChunks;
    var db1 := Cleanup(db, k.user, t.first);
    var db2 := Abort(db1, InProgressFor(db1, k));
    var (db', out) := Init(db, k, totalSize, upload, t);
    CleanupForeign(db, k.user, t.first, u);
    AbortForeign(db1, InProgressFor(db1, k), u);
    SameUploadsTwice(db, db1, db2, u);
    SameUploadTables(db, db, u);
    if out.Ok? {
      AddedForeign(db2, db', upload, u);
      SameUploadsTwice(db, db2, db', u);
    }
  }

  lemma AddedForeign(db: Db, db': Db, upload: Uuid, u: Uuid)
    requires upload !in db.sessions && upload in db'.sessions && db'.sessions[upload].att.user != u
    requires db' == db.(sessions := db.sessions[upload := db'.sessions[upload]])
    ensures SameUploadsForUser(db, db', u)
  {
  }

  lemma StageForeign(db: Db, upload: Uuid, index: int, data: Bytes, u: Uuid)
    requires upload in db.sessions && db.sessions[upload].att.user != u
    ensures SameUploadsForUser(db, Stage(db, upload, index, data), u)
  {
    if StageKey(upload, index) in db.staged {
    } else {
    }
  }

  lemma DropForeign(db: Db, upload: Uuid, u: Uuid)
    requires !OwnsSession(db, upload, u)
    ensures SameUploadsForUser(db, DropSession(db, upload), u)
  {
  }

  lemma PutChunkForeign(db: Db, k: AttKey, upload: Uuid, index: int, data: Bytes, t: Clock, u: Uuid)
    requires k.user != u
    ensures SameUploadsForUser(db, PutChunk(db, k, upload, index, data, t).0, u)
  {
    hide SameUploadsForUser, OpenSession, ChunkLengthOf, Stage;
    var (db1, got) := OpenSession(db, k, upload, t);
    OpenSessionForeign(db, k, upload, t, u);
    if got.Ok? && ChunkLengthOf(got.value, index) == Some(|data|) {
      StageForeign(db1, upload, index, data, u);
      SameUploadsTwice(db, db1, Stage(db1, upload, index, data), u);
    }
  }

  lemma CompleteForeign(
    sha: Bytes -> Digest, db: Db, k: AttKey, upload: Uuid,
    ifMatch: Option<string>, contentType: Option<string>, t: Clock, stamp: Epoch, u: Uuid)
    requires k.user != u
    ensures SameUploadsForUser(db, Complete(sha, db, k, upload, ifMatch, contentType, t, stamp).0, u)
  {
    hide SameUploadsForUser, OpenSession, Finalize, StagedParts, TotalLength, DropSession;
    var (db1, got) := OpenSession(db, k, upload, t);
    OpenSessionForeign(db, k, upload, t, u);
    if Complete(sha, db, k, upload, ifMatch, contentType, t, stamp).1.Ok? {
      var db2 := Finalize(sha, db1, k, upload, got.value.totalSize, contentType, ifMatch, stamp).0;
      SameUploadTables(db1, db2, u);
      DropForeign(db2, upload, u);
      SameUploadsTwice(db, db1, db2, u);
      SameUploadsTwice(db, db2, DropSession(db2, upload), u);
    } else {
    }
  }

  lemma DeletionForeign(db: Db, user: Uuid, u: Uuid)
    requires user != u
    ensures SameUploadsForUser(db, DeleteUser(db, user), u) && SameContentForUser(db, DeleteUser(db, user), u)
  {
  }

  lemma UploadsForeign(sha: Bytes -> Digest, db: Db, r: Request, u: Uuid)
    requires Caller(r).Some? && Caller(r) != Some(u) && (r.StartUpload? || r.UploadChunk? || r.CompleteUpload?)
    ensures SameUploadsForUser(db, Handle(sha, db, r).0, u)
  {
    hide SameUploadsForUser, Init, PutChunk, Complete;
    match r
    case StartUpload(k, totalSize, upload, t) => InitForeign(db, k, totalSize, upload, t, u);
    case UploadChunk(k, upload, index, data, t) => PutChunkForeign(db, k, upload, index, data, t, u);
    case CompleteUpload(k, upload, ifMatch, contentType, t, stamp) =>
      CompleteForeign(sha, db, k, upload, ifMatch, contentType, t, stamp, u);
  }

  lemma OtherHandlersLeaveUploads(sha: Bytes -> Digest, db: Db, r: Request)
    requires !r.StartUpload? && !r.UploadChunk? && !r.CompleteUpload? && !r.DeleteAccount?
    ensures Handle(sha, db, r).0.sessions == db.sessions && Handle(sha, db, r).0.staged == db.staged
  {
    hide PutBody, SoftDelete, DeleteAttachment, Register, Login, Rotate, RevokeAll, PutVault, Share, Revoke,
      RemoveShared;
  }

  lemma TouchesOnlyOther(db: Db, db': Db, nk: NoteKey, u: Uuid)
    requires TouchesOnly(db, db', nk) && nk.user != u
    ensures SameContentForUser(db, db', u)
  {
  }

  lemma OthersLeaveContent(sha: Bytes -> Digest, db: Db, r: Request, u: Uuid)
    requires Caller(r) != Some(u) && !r.DeleteAccount?
    ensures SameContentForUser(db, Handle(sha, db, r).0, u)
  {
    hide Handle, TouchesOnly;
    if Target(r).Some? {
      HandleFrame(sha, db, r, Target(r).value);
      TouchesOnlyOther(db, Handle(sha, db, r).0, Target(r).value, u);
    } else {
      HandleNoContent(sha, db, r);
    }
  }

  lemma OthersLeaveUploads(sha: Bytes -> Digest, db: Db, r: Request, u: Uuid)
    requires Caller(r) != Some(u) && !r.DeleteAccount?
    ensures SameUploadsForUser(db, Handle(sha, db, r).0, u)
  {
    hide Handle, SameUploadsForUser;
    if r.StartUpload? || r.UploadChunk? || r.CompleteUpload? {
      UploadsForeign(sha, db, r, u);
    } else {
      OtherHandlersLeaveUploads(sha, db, r);
      SameUploadTables(db, Handle(sha, db, r).0, u);
    }
  }

  /** A request made as anybody else, a grant holder included, changes no note, body,
      attachment, chunk, upload session or staged chunk of u. */
  lemma OthersCannotWrite(sha: Bytes -> Digest, db: Db, r: Request, u: Uuid)
    requires Caller(r) != Some(u)
    ensures SameContentForUser(db, Apply(sha, db, r).0, u)
    ensures SameUploadsForUser(db, Apply(sha, db, r).0, u)
  {
    hide Handle, SameContentForUser, SameUploadsForUser;
    Unchanged(db, u);
    if Caller(r).Some? && Caller(r).value !in db.users {
    } else if r.DeleteAccount? {
      HandleDeletion(sha, db, r);
      DeletionForeign(db, r.user, u);
    } else {
      OthersLeaveContent(sha, db, r, u);
      OthersLeaveUploads(sha, db, r, u);
    }
  }

  lemma Unchanged(db: Db, u: Uuid)
    ensures SameContentForUser(db, db, u) && SameUploadsForUser(db, db, u)
  {
  }
}
