/** Why the note and attachment operations keep the invariants. */
module NoteProofs {
  import opened Prelude
  import opened CompositeEtag
  import opened Tables
  import opened NoteService
  import opened Uploads
  import opened Invariants
  import opened UploadProofs
  import Ssnt
  import opened Buffer

  // ----- recomputing the index of one note -----

  ghost predicate BodyFits(row: NoteRow, body: Bytes, nk: NoteKey) {
    && Ssnt.Parse(body).Parsed?
    && Ssnt.Parse(body).value.noteId == nk.note
    && Ssnt.Parse(body).value.title == row.title
    && Ssnt.Parse(body).value.updatedAt <= INT8_MAX
  }

  /** Every note but nk is in sync, and nk lacks only its etag and stamp. */
  ghost predicate SyncButOne(sha: Bytes -> Digest, db: Db, nk: NoteKey) {
    && Active(db.notes, nk) && nk in db.blobs
    && BodyFits(db.notes[nk], db.blobs[nk], nk)
    && (forall other :: other in db.notes && db.notes[other].deletedAt.None? && other != nk ==>
          other in db.blobs
          && NoteInSync(sha, db.notes[other], db.blobs[other], other, AttsOf(db.attachments, other)))
  }

  lemma {:induction false} LatestStampBound(m: map<Uuid, AttRow>, ids: seq<Uuid>, bound: nat)
    requires forall a :: a in ids ==> a in m && m[a].updatedAt <= bound
    ensures LatestStamp(m, ids) <= bound
  {
    if ids != [] {
      assert ids[0] in ids;
      LatestStampBound(m, ids[1..], bound);
    }
  }

  lemma SyncStampBound(atts: map<AttKey, AttRow>, nk: NoteKey, bodyUpdatedAt: nat)
    requires bodyUpdatedAt <= INT8_MAX
    requires forall k :: k in atts ==> atts[k].updatedAt <= INT8_MAX
    ensures SyncStamp(bodyUpdatedAt, AttsOf(atts, nk)) <= INT8_MAX
  {
    hide AttsOf, LatestStamp;
    var m := AttsOf(atts, nk);
    forall a: Uuid | a in m ensures m[a].updatedAt <= INT8_MAX {
      AttsOfEntry(atts, nk, a);
    }
    LatestStampBound(m, Listing(m), INT8_MAX);
  }

  /** Recomputing completes the index, whichever way it got the body. */
  lemma RecomputeRestores(sha: Bytes -> Digest, db: Db, nk: NoteKey, given: Option<BodyInfo>)
    requires SyncButOne(sha, db, nk)
    requires given.Some? ==> given.value == BodyInfo(db.blobs[nk], Ssnt.Parse(db.blobs[nk]).value.updatedAt)
    requires StampsFit(db.notes, db.attachments)
    ensures Recompute(sha, db, nk, given).1.Ok?
    ensures var (db', out) := Recompute(sha, db, nk, given);
            && db' == db.(notes := db'.notes)
            && db'.notes == db.notes[nk := db.notes[nk].(etag := out.value.etag, updatedAt := out.value.updatedAt)]
            && out.value.etag == SyncEtag(sha, db.blobs[nk], AttsOf(db.attachments, nk))
            && SyncOk(sha, db'.notes, db'.blobs, db'.attachments)
            && StampsFit(db'.notes, db'.attachments)
  {
    hide AttsOf, SyncEtag, SyncStamp, Ssnt.Parse;
    SyncStampBound(db.attachments, nk, Ssnt.Parse(db.blobs[nk]).value.updatedAt);
  }

  /** In a reachable state an active note's body parses and its stamp fits. */
  lemma ActiveBodyFits(sha: Bytes -> Digest, db: Db, nk: NoteKey)
    requires SyncOk(sha, db.notes, db.blobs, db.attachments) && StampsFit(db.notes, db.attachments)
    requires Active(db.notes, nk)
    ensures nk in db.blobs && BodyFits(db.notes[nk], db.blobs[nk], nk)
  {
    hide AttsOf, SyncEtag, LatestStamp, Ssnt.Parse;
    assert NoteInSync(sha, db.notes[nk], db.blobs[nk], nk, AttsOf(db.attachments, nk));
  }

  /** Changing attachments of nk alone leaves every other note in sync. */
  lemma OthersStaySynced(
    sha: Bytes -> Digest, db: Db, nk: NoteKey, atts: map<AttKey, AttRow>, chunks: map<ChunkKey, Bytes>)
    requires SyncOk(sha, db.notes, db.blobs, db.attachments) && StampsFit(db.notes, db.attachments)
    requires Active(db.notes, nk)
    requires forall k :: NoteOf(k) != nk ==> (k in atts <==> k in db.attachments)
    requires forall k :: NoteOf(k) != nk && k in atts ==> atts[k] == db.attachments[k]
    ensures SyncButOne(sha, db.(attachments := atts, chunks := chunks), nk)
  {
    hide AttsOf, NoteInSync, Ssnt.Parse, BodyFits;
    ActiveBodyFits(sha, db, nk);
    forall other: NoteKey | other != nk
      ensures AttsOf(atts, other) == AttsOf(db.attachments, other)
    {
      AttsOfSame(atts, db.attachments, other);
    }
  }

  /** New note tables in an otherwise unchanged database. */
  lemma ReplacedTables(
    sha: Bytes -> Digest, db: Db, notes: map<NoteKey, NoteRow>, blobs: map<NoteKey, Bytes>,
    atts: map<AttKey, AttRow>, chunks: map<ChunkKey, Bytes>)
    requires Inv(sha, db)
    requires ChunksOk(sha, atts, chunks) && SyncOk(sha, notes, blobs, atts)
    requires ContentOnlyUnderActive(notes, blobs, atts) && StampsFit(notes, atts)
    requires db.notes.Keys <= notes.Keys && forall nk :: nk in notes ==> nk.user in db.users
    ensures Inv(sha, db.(notes := notes, blobs := blobs, attachments := atts, chunks := chunks))
  {
    hide ChunksOk, SyncOk, ContentOnlyUnderActive, StampsFit, SessionsOk, UsersOk, VaultsOk, SharesOk;
  }

  lemma StillUnderActive(
    notes: map<NoteKey, NoteRow>, blobs: map<NoteKey, Bytes>, atts: map<AttKey, AttRow>, nk: NoteKey, row: NoteRow)
    requires ContentOnlyUnderActive(notes, blobs, atts) && row.deletedAt.None?
    ensures ContentOnlyUnderActive(notes[nk := row], blobs, atts)
  {
  }

  /** After a successful recompute of nk the whole database is consistent again. */
  lemma RecomputeKeepsInv(sha: Bytes -> Digest, db: Db, mid: Db, nk: NoteKey, given: Option<BodyInfo>)
    requires Inv(sha, db) && nk.user in db.users
    requires mid == db.(notes := mid.notes, blobs := mid.blobs, attachments := mid.attachments, chunks := mid.chunks)
    requires ChunksOk(sha, mid.attachments, mid.chunks) && SyncButOne(sha, mid, nk)
             && StampsFit(mid.notes, mid.attachments)
    requires ContentOnlyUnderActive(mid.notes, mid.blobs, mid.attachments)
    requires db.notes.Keys <= mid.notes.Keys <= db.notes.Keys + {nk}
    requires given.Some? ==> given.value == BodyInfo(mid.blobs[nk], Ssnt.Parse(mid.blobs[nk]).value.updatedAt)
    ensures Recompute(sha, mid, nk, given).1.Ok?
    ensures Inv(sha, Recompute(sha, mid, nk, given).0)
  {
    hide ChunksOk, SyncOk, StampsFit, SessionsOk, UsersOk, VaultsOk, SharesOk, ContentOnlyUnderActive,
      Recompute, BodyFits, NoteInSync, AttsOf, Ssnt.Parse;
    RecomputeRestores(sha, mid, nk, given);
    var notes := Recompute(sha, mid, nk, given).0.notes;
    StillUnderActive(mid.notes, mid.blobs, mid.attachments, nk, notes[nk]);
    ReplacedTables(sha, db, notes, mid.blobs, mid.attachments, mid.chunks);
  }

  // ----- put_note_body -----

  lemma BodyWritten(sha: Bytes -> Digest, db: Db, nk: NoteKey, body: Bytes, f: Ssnt.Fields)
    requires Inv(sha, db)
    requires Ssnt.Parse(body) == Parsed(f) && f.noteId == nk.note && f.updatedAt <= INT8_MAX
    requires nk in db.notes ==> Active(db.notes, nk)
    ensures var mid := WriteBody(sha, db, nk, body, f);
            && SyncButOne(sha, mid, nk) && StampsFit(mid.notes, mid.attachments)
            && ContentOnlyUnderActive(mid.notes, mid.blobs, mid.attachments)
  {
    hide AttsOf, NoteInSync, Ssnt.Parse, ChunksOk, SessionsOk, UsersOk, VaultsOk, SharesOk, KeysOk;
  }

  /** A successful PUT is one write of row and body, completed by one recompute. */
  lemma PutBodyShape(sha: Bytes -> Digest, db: Db, nk: NoteKey, body: Bytes, ifMatch: Option<string>)
    ensures var (db', out) := PutBody(sha, db, nk, body, ifMatch);
            && (!out.Ok? ==> db' == db)
            && (out.Ok? ==>
                  && Ssnt.Parse(body).Parsed?
                  && var f := Ssnt.Parse(body).value;
                  && f.noteId == nk.note && f.updatedAt <= INT8_MAX && (nk in db.notes ==> Active(db.notes, nk))
                  && BodyRefusal(db, nk, f, ifMatch).None?
                  && (db', out)
                     == Recompute(sha, WriteBody(sha, db, nk, body, f), nk, Some(BodyInfo(body, f.updatedAt))))
  {
    hide AttsOf, Ssnt.Parse, Recompute, Stats, StripQuotes, WriteBody;
  }

  /** Which answer refuses a body that parses: the header against URL and attachments,
      then the etag, then the keys, then the column types. */
  lemma BodyRefusalIs(db: Db, nk: NoteKey, f: Ssnt.Fields, ifMatch: Option<string>)
    ensures var wrong := f.noteId != nk.note
                         || (f.attachmentCount, f.attachmentsTotalSize) != Stats(AttsOf(db.attachments, nk));
            var stale := Active(db.notes, nk) && ifMatch.Some? && StripQuotes(ifMatch.value) != db.notes[nk].etag;
            var taken := !Active(db.notes, nk) && (nk in db.notes || nk in db.blobs);
            var untyped := '\0' in f.title || f.updatedAt > INT8_MAX;
            var refusal := BodyRefusal(db, nk, f, ifMatch);
            && (refusal == Some(Fail(Validation)) <==> wrong)
            && (refusal == Some(Fail(Conflict)) <==> !wrong && stale)
            && (refusal == Some(Crash) <==> !wrong && !stale && (taken || untyped))
            && (refusal == None <==> !wrong && !stale && !taken && !untyped)
  {
    hide StripQuotes, Stats, AttsOf;
  }

  /** Which answer every body PUT gets that is not accepted. */
  lemma PutBodyAnswers(sha: Bytes -> Digest, db: Db, nk: NoteKey, body: Bytes, ifMatch: Option<string>)
    requires Inv(sha, db) && nk.user in db.users
    ensures var out := PutBody(sha, db, nk, body, ifMatch).1;
            var sized := 0 < |body| <= 10_485_760;
            && (!sized || Ssnt.Parse(body).ParseError? ==> out == Fail(Validation))
            && (sized && Ssnt.Parse(body).UnicodeError? ==> out == Crash)
            && (sized && Ssnt.Parse(body).Parsed? ==>
                  var f := Ssnt.Parse(body).value;
                  var wrong := f.noteId != nk.note
                            || (f.attachmentCount, f.attachmentsTotalSize) != Stats(AttsOf(db.attachments, nk));
                  var stale := Active(db.notes, nk) && ifMatch.Some? && StripQuotes(ifMatch.value) != db.notes[nk].etag;
                  var taken := nk in db.notes && db.notes[nk].deletedAt.Some?;
                  var untyped := '\0' in f.title || f.updatedAt > 0x7fff_ffff_ffff_ffff;
                  && (out == Fail(Validation) <==> wrong)
                  && (out == Fail(Conflict) <==> !wrong && stale)
                  && (out == Crash <==> !wrong && !stale && (taken || untyped))
                  && (out.Ok? <==> !wrong && !stale && !taken && !untyped))
  {
    hide Inv, Recompute, ContentOnlyUnderActive, StampsFit, SyncButOne, Ssnt.Parse, BodyRefusal, WriteBody, Stats,
      AttsOf, StripQuotes;
    if 0 < |body| <= MAX_BODY_BYTES && Ssnt.Parse(body).Parsed? {
      var f := Ssnt.Parse(body).value;
      BodyRefusalIs(db, nk, f, ifMatch);
      if nk in db.blobs {
        BodiesBelongToNotes(sha, db, nk);
      }
      if BodyRefusal(db, nk, f, ifMatch).None? {
        BodyWritten(sha, db, nk, body, f);
        ChunksOfInv(sha, db);
        WrittenTables(sha, db, nk, body, f);
        RecomputeKeepsInv(sha, db, WriteBody(sha, db, nk, body, f), nk, Some(BodyInfo(body, f.updatedAt)));
      }
    }
  }

  lemma BodiesBelongToNotes(sha: Bytes -> Digest, db: Db, nk: NoteKey)
    requires Inv(sha, db) && nk in db.blobs
    ensures Active(db.notes, nk)
  {
  }

  lemma WrittenTables(sha: Bytes -> Digest, db: Db, nk: NoteKey, body: Bytes, f: Ssnt.Fields)
    ensures var mid := WriteBody(sha, db, nk, body, f);
            && mid == db.(notes := mid.notes, blobs := mid.blobs)
            && nk in mid.blobs && mid.blobs[nk] == body
            && db.notes.Keys <= mid.notes.Keys <= db.notes.Keys + {nk}
  {
  }

  lemma PutBodyKeeps(sha: Bytes -> Digest, db: Db, nk: NoteKey, body: Bytes, ifMatch: Option<string>)
    requires Inv(sha, db) && nk.user in db.users
    ensures Inv(sha, PutBody(sha, db, nk, body, ifMatch).0)
  {
    hide Inv, PutBody, Recompute, ContentOnlyUnderActive, StampsFit, SyncButOne, Ssnt.Parse, BodyRefusal;
    PutBodyShape(sha, db, nk, body, ifMatch);
    if PutBody(sha, db, nk, body, ifMatch).1.Ok? {
      var f := Ssnt.Parse(body).value;
      var mid := WriteBody(sha, db, nk, body, f);
      BodyWritten(sha, db, nk, body, f);
      ChunksOfInv(sha, db);
      RecomputeKeepsInv(sha, db, mid, nk, Some(BodyInfo(body, f.updatedAt)));
    }
  }

  lemma ChunksOfInv(sha: Bytes -> Digest, db: Db)
    requires Inv(sha, db)
    ensures ChunksOk(sha, db.attachments, db.chunks)
  {
  }

  // ----- finalize_chunked_upload and complete_upload -----

  lemma AttachmentWritten(
    sha: Bytes -> Digest, db: Db, k: AttKey, upload: Uuid, contentType: Option<string>, stamp: Epoch)
    requires Inv(sha, db) && Active(db.notes, NoteOf(k)) && upload in db.sessions
    requires |StagedParts(db.staged, upload)| == db.sessions[upload].expected
    ensures var mid := WriteAttachment(sha, db, k, upload, db.sessions[upload].totalSize, contentType, stamp);
            && ChunksOk(sha, mid.attachments, mid.chunks)
            && SyncButOne(sha, mid, NoteOf(k)) && StampsFit(mid.notes, mid.attachments)
            && ContentOnlyUnderActive(mid.notes, mid.blobs, mid.attachments)
  {
    hide ChunksOk, SyncOk, SyncButOne, SessionsOk, UsersOk, VaultsOk, SharesOk, KeysOk, StagedParts, Join, Promote;
    var mid := WriteAttachment(sha, db, k, upload, db.sessions[upload].totalSize, contentType, stamp);
    PromoteKeepsChunks(sha, db, k, upload, mid.attachments[k]);
    OthersStaySynced(sha, db, NoteOf(k), mid.attachments, mid.chunks);
  }

  lemma FinalizeShape(
    sha: Bytes -> Digest, db: Db, k: AttKey, upload: Uuid, totalSize: nat,
    contentType: Option<string>, ifMatch: Option<string>, stamp: Epoch)
    ensures var (db', out) := Finalize(sha, db, k, upload, totalSize, contentType, ifMatch, stamp);
            && (!out.Ok? ==> db' == db)
            && (AttachmentRefusal(db, k, contentType, ifMatch).Some? ==> !out.Ok?)
            && (AttachmentRefusal(db, k, contentType, ifMatch).None? ==>
                  var mid := WriteAttachment(sha, db, k, upload, totalSize, contentType, stamp);
                  var (done, note) := Recompute(sha, mid, NoteOf(k), None);
                  && Active(db.notes, NoteOf(k))
                  && (out.Ok? <==> note.Ok?)
                  && (out.Ok? ==>
                        && db' == done && out.value.etag == mid.attachments[k].etag
                        && out.value.size == totalSize && out.value.noteEtag == note.value.etag))
  {
    hide Recompute, StripQuotes, IsPgText, WriteAttachment;
  }

  /** Which answer refuses a completion: first the note, then the etag, then the column type. */
  lemma AttachmentRefusalIs(db: Db, k: AttKey, contentType: Option<string>, ifMatch: Option<string>)
    ensures var stale := k in db.attachments && ifMatch.Some? && StripQuotes(ifMatch.value) != db.attachments[k].etag;
            var untyped := contentType.Some? && '\0' in contentType.value;
            var refusal := AttachmentRefusal(db, k, contentType, ifMatch);
            && (refusal == Some(Fail(NoteNotFound)) <==> !Active(db.notes, NoteOf(k)))
            && (refusal == Some(Fail(Conflict)) <==> Active(db.notes, NoteOf(k)) && stale)
            && (refusal == Some(Crash) <==> Active(db.notes, NoteOf(k)) && !stale && untyped)
            && (refusal == None <==> Active(db.notes, NoteOf(k)) && !stale && !untyped)
  {
    hide StripQuotes;
  }

  /** In a reachable state finalizing fails only by a refusal, and keeps the invariants. */
  lemma FinalizeKeepsInv(
    sha: Bytes -> Digest, db: Db, k: AttKey, upload: Uuid,
    contentType: Option<string>, ifMatch: Option<string>, stamp: Epoch)
    requires Inv(sha, db) && upload in db.sessions
    requires |StagedParts(db.staged, upload)| == db.sessions[upload].expected
    ensures var (db', out) := Finalize(sha, db, k, upload, db.sessions[upload].totalSize, contentType, ifMatch, stamp);
            && (out.Ok? <==>
                  && Active(db.notes, NoteOf(k))
                  && (k in db.attachments && ifMatch.Some? ==> StripQuotes(ifMatch.value) == db.attachments[k].etag)
                  && (contentType.Some? ==> '\0' !in contentType.value))
            && (!out.Ok? ==> db' == db)
            && Inv(sha, db')
  {
    hide Inv, Finalize, Recompute, SyncButOne, StampsFit, ContentOnlyUnderActive, StagedParts, Join, Promote,
      AttachmentRefusal, StripQuotes;
    var size := db.sessions[upload].totalSize;
    AttachmentRefusalIs(db, k, contentType, ifMatch);
    FinalizeShape(sha, db, k, upload, size, contentType, ifMatch, stamp);
    if AttachmentRefusal(db, k, contentType, ifMatch).None? {
      var mid := WriteAttachment(sha, db, k, upload, size, contentType, stamp);
      AttachmentWritten(sha, db, k, upload, contentType, stamp);
      ActiveOwnerExists(sha, db, NoteOf(k));
      RecomputeKeepsInv(sha, db, mid, NoteOf(k), None);
    }
  }

  lemma DropSessionKeepsInv(sha: Bytes -> Digest, db: Db, upload: Uuid)
    requires Inv(sha, db)
    ensures Inv(sha, DropSession(db, upload))
  {
    hide ChunksOk, SyncOk, ContentOnlyUnderActive, StampsFit, SessionsOk, UsersOk, VaultsOk, SharesOk;
    DropSessionKeeps(db, upload);
  }

  lemma CompleteKeeps(
    sha: Bytes -> Digest, db: Db, k: AttKey, upload: Uuid,
    ifMatch: Option<string>, contentType: Option<string>, t: Clock, stamp: Epoch)
    requires Inv(sha, db)
    ensures var db' := Complete(sha, db, k, upload, ifMatch, contentType, t, stamp).0;
            && Inv(sha, db')
            && (SessionsExact(db.sessions, db.staged) ==> SessionsExact(db'.sessions, db'.staged))
  {
    hide Inv, SessionsExact, OpenSession, Finalize, StagedParts, TotalLength, DropSession;
    OpenSessionKeeps(sha, db, k, upload, t);
    var (db1, got) := OpenSession(db, k, upload, t);
    if got.Ok? {
      var s := got.value;
      var parts := StagedParts(db1.staged, upload);
      if s.received == s.expected && |parts| == s.expected && TotalLength(parts) == s.totalSize {
        FinalizeKeepsInv(sha, db1, k, upload, contentType, ifMatch, stamp);
        var db2 := Finalize(sha, db1, k, upload, s.totalSize, contentType, ifMatch, stamp).0;
        DropSessionKeepsInv(sha, db2, upload);
        if SessionsExact(db1.sessions, db1.staged) {
          DropSessionKeepsExact(db2, upload);
        }
      }
    }
  }

  // ----- delete_attachment -----

  lemma AttachmentErased(sha: Bytes -> Digest, db: Db, k: AttKey)
    requires Inv(sha, db) && Active(db.notes, NoteOf(k))
    ensures var mid := EraseAttachment(db, k);
            && ChunksOk(sha, mid.attachments, mid.chunks)
            && SyncButOne(sha, mid, NoteOf(k)) && StampsFit(mid.notes, mid.attachments)
            && ContentOnlyUnderActive(mid.notes, mid.blobs, mid.attachments)
  {
    hide ChunksOk, SyncOk, SyncButOne, SessionsOk, UsersOk, VaultsOk, SharesOk, KeysOk, ChunksWithout;
    var mid := EraseAttachment(db, k);
    ChunksWithoutKeeps(sha, db.attachments, db.chunks, k);
    OthersStaySynced(sha, db, NoteOf(k), mid.attachments, mid.chunks);
  }

  lemma DeleteAttachmentKeeps(sha: Bytes -> Digest, db: Db, k: AttKey)
    requires Inv(sha, db)
    ensures Inv(sha, DeleteAttachment(sha, db, k).0)
    ensures DeleteAttachment(sha, db, k).1.Ok? <==> Active(db.notes, NoteOf(k)) && k in db.attachments
  {
    hide Inv, Recompute, SyncButOne, StampsFit, ContentOnlyUnderActive;
    if Active(db.notes, NoteOf(k)) && k in db.attachments {
      AttachmentErased(sha, db, k);
      ActiveOwnerExists(sha, db, NoteOf(k));
      RecomputeKeepsInv(sha, db, EraseAttachment(db, k), NoteOf(k), None);
    }
  }

  lemma ChunksWithoutKeeps(sha: Bytes -> Digest, atts: map<AttKey, AttRow>, chunks: map<ChunkKey, Bytes>, k: AttKey)
    requires ChunksOk(sha, atts, chunks)
    ensures ChunksOk(sha, atts - {k}, ChunksWithout(chunks, k))
  {
    hide AttachmentOk;
    forall other | other in atts && other != k
      ensures AttachmentOk(sha, atts[other], ChunksWithout(chunks, k), other)
    {
      AttachmentOkFrame(sha, atts[other], chunks, ChunksWithout(chunks, k), other);
    }
  }

  // ----- soft_delete_note -----

  lemma SoftDeleteKeepsChunks(sha: Bytes -> Digest, db: Db, nk: NoteKey, now: int)
    requires ChunksOk(sha, db.attachments, db.chunks)
    ensures ChunksOk(sha, SoftDelete(db, nk, now).0.attachments, SoftDelete(db, nk, now).0.chunks)
  {
    hide AttachmentOk;
    var after := SoftDelete(db, nk, now).0;
    forall k | k in after.attachments
      ensures AttachmentOk(sha, after.attachments[k], after.chunks, k)
    {
      AttachmentOkFrame(sha, db.attachments[k], db.chunks, after.chunks, k);
    }
  }

  lemma SoftDeleteKeepsSync(sha: Bytes -> Digest, db: Db, nk: NoteKey, now: int)
    requires SyncOk(sha, db.notes, db.blobs, db.attachments)
    ensures var after := SoftDelete(db, nk, now).0; SyncOk(sha, after.notes, after.blobs, after.attachments)
  {
    hide AttsOf, NoteInSync;
    var after := SoftDelete(db, nk, now).0;
    forall other: NoteKey | other != nk
      ensures AttsOf(after.attachments, other) == AttsOf(db.attachments, other)
    {
      AttsOfSame(after.attachments, db.attachments, other);
    }
  }

  lemma SoftDeleteKeeps(sha: Bytes -> Digest, db: Db, nk: NoteKey, now: int)
    requires Inv(sha, db)
    ensures Inv(sha, SoftDelete(db, nk, now).0)
  {
    hide ChunksOk, SyncOk, SessionsOk, UsersOk, VaultsOk, SharesOk;
    SoftDeleteKeepsChunks(sha, db, nk, now);
    SoftDeleteKeepsSync(sha, db, nk, now);
  }
}
