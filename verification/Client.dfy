/** A client driving the store: the upload loop and the download loop. */
module Client {
  import opened Prelude
  import opened ChunkMath
  import opened CompositeEtag
  import opened Tables
  import opened NoteService
  import opened Uploads
  import opened Accounts
  import opened Invariants
  import opened UploadProofs
  import opened NoteProofs
  import opened SessionSafety
  import opened Machine
  import opened Frames
  import opened Downloads
  import opened RoundTrip
  import Store

  /** Clock readings of request number i; the whole upload takes less than a day. */
  ghost predicate WithinADay(times: nat -> Clock) {
    forall i :: times(i).first <= times(0).second + UPLOAD_SESSION_TTL
                && times(i).second <= times(0).second + UPLOAD_SESSION_TTL
  }

  ghost predicate Consistent(store: Store.Store)
    reads store
  {
    store.Idle() && Inv(store.sha, store.View()) && SessionsExact(store.sessions, store.staged)
  }

  /** The chunk the client cuts at offset is the slice the server expects. */
  lemma CutIsSlice(data: Bytes, index: nat, offset: nat)
    requires index < ChunkCount(|data|) && offset == index * CHUNK_SIZE
    ensures offset < |data|
    ensures index < ChunkCount(|data|) - 1 ==>
              offset + CHUNK_SIZE <= |data| && data[offset..offset + CHUNK_SIZE] == Slice(data, index)
    ensures index == ChunkCount(|data|) - 1 ==> data[offset..] == Slice(data, index)
  {
  }

  /** The server admits exactly that slice. */
  lemma SliceAdmitted(s: SessionRow, data: Bytes, index: nat)
    requires SessionShapeOk(s) && s.totalSize == |data| && index < ChunkCount(|data|)
    ensures ChunkLengthOf(s, index) == Some(|Slice(data, index)|)
  {
    hide ChunkLengthOf, Slice;
    AdmittedLength(s, index, |Slice(data, index)|);
  }

  /** What the loop has established after some requests. */
  ghost predicate Progress(
    db1: Db, db: Db, sha: Bytes -> Digest, s: SessionRow, upload: Uuid, rs: seq<Request>, data: Bytes, n: nat)
  {
    && db == Run(sha, db1, rs) && StillOpen(db, s, upload)
    && UndisturbingRun(sha, db1, s, upload, rs)
    && (forall i :: 0 <= i < n ==> LastWrite(s, upload, rs, i) == Some(Slice(data, i)))
  }

  lemma ProgressStep(
    db1: Db, db: Db, sha: Bytes -> Digest, s: SessionRow, upload: Uuid, rs: seq<Request>, data: Bytes, n: nat, t: Clock)
    requires Progress(db1, db, sha, s, upload, rs, data, n)
    requires SessionShapeOk(s) && s.totalSize == |data| && n < ChunkCount(|data|)
    requires t.first <= s.expiresAt && t.second <= s.expiresAt
    ensures PutChunk(db, s.att, upload, n, Slice(data, n), t).1.Ok?
    ensures Progress(db1, PutChunk(db, s.att, upload, n, Slice(data, n), t).0, sha, s, upload,
                     rs + [Request.UploadChunk(s.att, upload, n, Slice(data, n), t)], data, n + 1)
  {
    hide Handle, PutChunk, StillOpen, ChunkLengthOf, Slice, Run, UndisturbingRun;
    var r := Request.UploadChunk(s.att, upload, n, Slice(data, n), t);
    SliceAdmitted(s, data, n);
    OwnChunk(db, s, upload, n, Slice(data, n), t);
    OwnWriteStep(sha, db, s, upload, r);
    UndisturbingSnoc(sha, db1, s, upload, rs, r);
    OwnerIsUser(db, s, upload);
    RunSnoc(sha, db1, rs, r);
    assert (rs + [r])[..|rs|] == rs;
  }

  /** upload_attachment_chunks: start, cut and send every chunk, complete. */
  method UploadAttachmentChunks(
    store: Store.Store, k: AttKey, data: Bytes, contentType: string, upload: Uuid, times: nat -> Clock, stamp: Epoch
  ) returns (r: Outcome<AttachmentUpload>)
    requires Consistent(store) && WithinADay(times)
    requires Active(store.notes, NoteOf(k)) && 0 < |data| <= SIZE_LIMIT && upload !in store.sessions
    requires IsPgText(contentType)
    modifies store
    ensures Consistent(store)
    ensures r.Ok? && r.value.size == |data| && r.value.etag == store.sha(data)
    ensures NoteOf(k) in store.notes && r.value.noteEtag == store.notes[NoteOf(k)].etag && upload !in store.sessions
    ensures k in store.attachments && store.attachments[k].size == |data|
              && store.attachments[k].etag == store.sha(data)
    ensures Fetch(store.View(), k, TotalChunks(|data|)) == Some(data)
    ensures store.users == old(store.users) && store.blobs == old(store.blobs) && store.shares == old(store.shares)
  {
    hide Inv, SessionsExact, Init, Complete, PutChunk, Run, Slice, FloatCeil, Fetch, StillOpen,
      Progress;
    ghost var db0 := store.View();
    StartsIff(db0, k, |data|, upload, times(0));
    var started := store.InitUpload(k, |data|, upload, times(0));
    ghost var db1 := store.View();
    OwnerOfInit(store.sha, db0, k, |data|, upload, times(0));
    SessionStarted(db0, k, |data|, upload, times(0));
    ghost var s := db1.sessions[upload];
    var total := started.value.totalChunks;
    var offset := 0;
    ghost var rs: seq<Request> := [];
    NoProgressYet(db1, store.sha, s, upload, data);
    for index := 0 to total
      invariant store.Idle() && OnlyUploads(db1, store.View())
      invariant Progress(db1, store.View(), store.sha, s, upload, rs, data, index)
      invariant offset == if index < total then index * CHUNK_SIZE else |data|
    {
      CutIsSlice(data, index, offset);
      var chunk := if index < total - 1 then data[offset..offset + CHUNK_SIZE] else data[offset..];
      offset := offset + |chunk|;
      ProgressStep(db1, store.View(), store.sha, s, upload, rs, data, index, times(index + 1));
      var put := store.UploadChunk(k, upload, index, chunk, times(index + 1));
      assert put.Ok?;
      rs := rs + [Request.UploadChunk(k, upload, index, chunk, times(index + 1))];
    }
    ghost var db2 := store.View();
    assert SameContent(db1, db2);
    Finishing(store.sha, db0, db1, db2, k, s, upload, data, rs, Some(contentType), times, stamp);
    r := store.CompleteUpload(k, upload, None, Some(contentType), times(total + 1), stamp);
  }

  lemma NoProgressYet(db1: Db, sha: Bytes -> Digest, s: SessionRow, upload: Uuid, data: Bytes)
    requires StillOpen(db1, s, upload)
    ensures Progress(db1, db1, sha, s, upload, [], data, 0)
  {
  }

  /** The chunks sent are all there are, so the completion goes through. */
  lemma Finishing(
    sha: Bytes -> Digest, db0: Db, db1: Db, db2: Db, k: AttKey, s: SessionRow, upload: Uuid,
    data: Bytes, rs: seq<Request>,
    contentType: Option<string>, times: nat -> Clock, stamp: Epoch)
    requires Inv(sha, db0) && SessionsExact(db0.sessions, db0.staged) && WithinADay(times)
    requires Init(db0, k, |data|, upload, times(0)).1.Ok? && db1 == Init(db0, k, |data|, upload, times(0)).0
    requires s == db1.sessions[upload] && s.expiresAt == times(0).second + UPLOAD_SESSION_TTL && s.att == k
    requires Progress(db1, db2, sha, s, upload, rs, data, ChunkCount(|data|))
    requires SameContent(db1, db2) && Active(db0.notes, NoteOf(k)) && contentType.Some? && IsPgText(contentType.value)
    ensures var (db3, out) := Complete(sha, db2, k, upload, None, contentType, times(ChunkCount(|data|) + 1), stamp);
            && out.Ok? && out.value.size == |data| && out.value.etag == sha(data)
            && NoteOf(k) in db3.notes && out.value.noteEtag == db3.notes[NoteOf(k)].etag && upload !in db3.sessions
            && k in db3.attachments && db3.attachments[k].size == |data| && db3.attachments[k].etag == sha(data)
            && Fetch(db3, k, TotalChunks(|data|)) == Some(data)
            && Inv(sha, db3) && SessionsExact(db3.sessions, db3.staged)
  {
    hide Inv, SessionsExact, Init, Complete, Run, Slice, TotalChunks, Fetch, StillOpen, UndisturbingRun, LastWrite,
      FindGrant, GetChunk, SharedChunk;
    var t := times(ChunkCount(|data|) + 1);
    UploadThenDownload(sha, db0, k, data, upload, times(0), rs, None, contentType, t, stamp, k.user);
    InitKeeps(sha, db0, k, |data|, upload, times(0));
    RunKeeps(sha, db1, rs);
    SuccessfulComplete(sha, db2, k, upload, None, contentType, t, stamp, t);
    CompleteKeeps(sha, db2, k, upload, None, contentType, t, stamp);
  }

  /** download_attachment_chunks, as the owner or under a grant: every request is
      answered, and the parts joined are the stored content. */
  method DownloadAttachmentChunks(store: Store.Store, k: AttKey, totalChunks: nat, recipient: Option<Uuid>)
    returns (data: Bytes)
    requires Inv(store.sha, store.View()) && k in store.attachments
    requires totalChunks == TotalChunks(store.attachments[k].size)
    requires recipient.Some? ==>
               && FindGrant(store.View(), recipient.value, k.note).Ok?
               && FindGrant(store.View(), recipient.value, k.note).value.owner == k.user
    ensures Fetch(store.View(), k, totalChunks) == Some(data)
    ensures |data| == store.attachments[k].size && store.sha(data) == store.attachments[k].etag
  {
    hide Inv, Fetch, TotalChunks, FindGrant, ReadChunk;
    ghost var db := store.View();
    ActiveWithAttachment(store.sha, db, k);
    NothingFetched(db, k);
    data := [];
    for index := 0 to totalChunks
      invariant Fetch(db, k, index) == Some(data)
    {
      ChunkServed(store.sha, db, k, index);
      var got: Outcome<(Bytes, Digest)>;
      if recipient.Some? {
        got := store.GetSharedAttachmentChunk(recipient.value, k.note, k.attachment, index);
      } else {
        got := store.GetAttachmentChunk(k, index);
      }
      FetchedOneMore(db, k, index, data);
      data := data + got.value.0;
    }
    DownloadMatchesEtag(store.sha, db, k);
  }

  lemma NothingFetched(db: Db, k: AttKey)
    ensures Fetch(db, k, 0) == Some([])
  {
  }

  lemma FetchedOneMore(db: Db, k: AttKey, index: nat, front: Bytes)
    requires Fetch(db, k, index) == Some(front) && ReadChunk(db, k, index).Ok?
    ensures Fetch(db, k, index + 1) == Some(front + ReadChunk(db, k, index).value.0)
  {
    hide ReadChunk;
  }
}
