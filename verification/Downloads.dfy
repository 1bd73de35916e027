/** What the chunk routes answer in a reachable state. */
module Downloads {
  import opened Prelude
  import opened ChunkMath
  import opened CompositeEtag
  import opened Tables
  import opened NoteService
  import opened Invariants

  lemma ExpectedInRange(size: nat, index: int)
    requires size <= SIZE_LIMIT
    ensures TotalChunks(size) == ChunkCount(size)
    ensures ExpectedAttachmentChunk(size, index)
         == if 0 <= index < ChunkCount(size) then Some(SliceLength(size, index)) else None
  {
    hide FloatCeil;
    ChunkLengthsAgree(size, index);
  }

  /** Every index below totalChunks is served with the length the manifest implies;
      the "chunk not found" and "size mismatch" answers never occur. */
  lemma ChunkServed(sha: Bytes -> Digest, db: Db, k: AttKey, index: int)
    requires Inv(sha, db) && k in db.attachments
    ensures ReadChunk(db, k, index)
         == if 0 <= index < TotalChunks(db.attachments[k].size)
            then Ok((ChunkAt(db.chunks, k, index), db.attachments[k].etag))
            else Fail(Validation)
    ensures 0 <= index < TotalChunks(db.attachments[k].size) ==>
              |ChunkAt(db.chunks, k, index)| == SliceLength(db.attachments[k].size, index)
  {
    hide TotalChunks, ExpectedAttachmentChunk, SliceLength, Content;
    assert AttachmentOk(sha, db.attachments[k], db.chunks, k);
    ExpectedInRange(db.attachments[k].size, index);
  }

  /** What a client gets by fetching 0..totalChunks-1: None as soon as one fetch fails. */
  function Fetch(db: Db, k: AttKey, n: nat): Option<Bytes> {
    if n == 0 then Some([]) else
    match (Fetch(db, k, n - 1), ReadChunk(db, k, n - 1))
    case (Some(front), Ok((chunk, _))) => Some(front + chunk)
    case _ => None
  }

  lemma {:induction false} FetchPrefix(sha: Bytes -> Digest, db: Db, k: AttKey, n: nat)
    requires Inv(sha, db) && k in db.attachments && n <= TotalChunks(db.attachments[k].size)
    ensures Fetch(db, k, n) == Some(Content(db.chunks, k, n))
    ensures |Content(db.chunks, k, n)| == SumOfSlices(db.attachments[k].size, n)
  {
    hide Inv, ReadChunk, TotalChunks, SliceLength, Join;
    if n > 0 {
      FetchPrefix(sha, db, k, n - 1);
      ChunkServed(sha, db, k, n - 1);
      JoinSnoc(ChunkParts(db.chunks, k, n - 1), ChunkAt(db.chunks, k, n - 1));
      assert ChunkParts(db.chunks, k, n) == ChunkParts(db.chunks, k, n - 1) + [ChunkAt(db.chunks, k, n - 1)];
    } else {
      assert ChunkParts(db.chunks, k, 0) == [];
      JoinEmpty();
    }
  }

  /** Fetching every chunk yields bytes of exactly the advertised size and hash. */
  lemma DownloadMatchesEtag(sha: Bytes -> Digest, db: Db, k: AttKey)
    requires Inv(sha, db) && k in db.attachments
    ensures var row := db.attachments[k];
            var whole := Fetch(db, k, TotalChunks(row.size));
            && whole.Some?
            && |whole.value| == row.size
            && sha(whole.value) == row.etag
  {
    hide SliceLength, Content, TotalChunks, ReadChunk, Fetch;
    var row := db.attachments[k];
    assert AttachmentOk(sha, row, db.chunks, k);
    ExpectedInRange(row.size, 0);
    FetchPrefix(sha, db, k, TotalChunks(row.size));
    ChunkLengthsSum(row.size);
  }
}
