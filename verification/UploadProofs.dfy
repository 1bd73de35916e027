/** Why the upload requests keep the invariants. */
module UploadProofs {
  import opened Prelude
  import opened ChunkMath
  import opened CompositeEtag
  import opened Tables
  import opened NoteService
  import opened Uploads
  import opened Invariants

  // ----- staged rows of one upload -----

  lemma StagedIndex(staged: map<StageKey, Bytes>, upload: Uuid, i: int)
    ensures i in StagedIndices(staged, upload) <==> StageKey(upload, i) in staged
  {
    if StageKey(upload, i) in staged {
      assert StageKey(upload, i).upload == upload;
    }
  }

  lemma StagedIndicesSame(a: map<StageKey, Bytes>, b: map<StageKey, Bytes>, upload: Uuid)
    requires forall i :: StageKey(upload, i) in a <==> StageKey(upload, i) in b
    ensures StagedIndices(a, upload) == StagedIndices(b, upload)
  {
    forall i ensures i in StagedIndices(a, upload) <==> i in StagedIndices(b, upload) {
      StagedIndex(a, upload, i);
      StagedIndex(b, upload, i);
    }
  }

  lemma StagedIndicesInserted(a: map<StageKey, Bytes>, upload: Uuid, i: int, data: Bytes)
    ensures StagedIndices(a[StageKey(upload, i) := data], upload) == StagedIndices(a, upload) + {i}
  {
    var b := a[StageKey(upload, i) := data];
    forall j ensures j in StagedIndices(b, upload) <==> j in StagedIndices(a, upload) + {i} {
      StagedIndex(a, upload, j);
      StagedIndex(b, upload, j);
    }
  }

  // ----- aborting -----

  lemma AbortKeepsSessions(db: Db, ids: set<Uuid>)
    requires SessionsOk(db.sessions, db.staged)
    ensures SessionsOk(Abort(db, ids).sessions, Abort(db, ids).staged)
  {
    var after := Abort(db, ids);
    forall u | u in after.sessions && after.sessions[u].status == InProgress
      ensures after.sessions[u].received <= |StagedIndices(after.staged, u)|
    {
      StagedIndicesSame(db.staged, after.staged, u);
    }
  }

  lemma AbortKeepsExact(db: Db, ids: set<Uuid>)
    requires SessionsExact(db.sessions, db.staged)
    ensures SessionsExact(Abort(db, ids).sessions, Abort(db, ids).staged)
  {
    var after := Abort(db, ids);
    forall u | u in after.sessions && after.sessions[u].status == InProgress
      ensures after.sessions[u].received == |StagedIndices(after.staged, u)|
    {
      StagedIndicesSame(db.staged, after.staged, u);
    }
  }

  lemma AbortKeepsInv(sha: Bytes -> Digest, db: Db, ids: set<Uuid>)
    requires Inv(sha, db)
    ensures Inv(sha, Abort(db, ids))
  {
    hide ChunksOk, SyncOk, ContentOnlyUnderActive, StampsFit, UsersOk, VaultsOk, SharesOk;
    AbortKeepsSessions(db, ids);
  }

  // ----- opening a session -----

  /** Whatever opening a session answers, only expired sessions changed. */
  lemma OpenSessionKeeps(sha: Bytes -> Digest, db: Db, k: AttKey, upload: Uuid, t: Clock)
    requires Inv(sha, db)
    ensures Inv(sha, OpenSession(db, k, upload, t).0)
    ensures SessionsExact(db.sessions, db.staged) ==>
              SessionsExact(OpenSession(db, k, upload, t).0.sessions, OpenSession(db, k, upload, t).0.staged)
    ensures OpenSession(db, k, upload, t).1.Ok? ==>
              var (db1, got) := OpenSession(db, k, upload, t);
              upload in db1.sessions && db1.sessions[upload] == got.value && got.value.att == k
              && got.value.status == InProgress
  {
    hide Inv, Abort, Expired, SessionsExact;
    var db1 := Cleanup(db, k.user, t.first);
    AbortKeepsInv(sha, db, Expired(db, k.user, t.first));
    AbortKeepsInv(sha, db1, {upload});
    if SessionsExact(db.sessions, db.staged) {
      AbortKeepsExact(db, Expired(db, k.user, t.first));
      AbortKeepsExact(db1, {upload});
    }
  }

  // ----- init -----

  lemma NewSessionKeeps(db: Db, upload: Uuid, row: SessionRow)
    requires SessionsOk(db.sessions, db.staged)
    requires upload !in db.sessions && SessionShapeOk(row) && row.received == 0
    ensures SessionsOk(db.sessions[upload := row], db.staged)
    ensures SessionsExact(db.sessions, db.staged) && row.status == InProgress
              && (forall u :: u in db.sessions && db.sessions[u].status == InProgress ==> db.sessions[u].att != row.att)
            ==> SessionsExact(db.sessions[upload := row], db.staged)
  {
    assert StagedIndices(db.staged, upload) == {};
  }

  lemma NewSessionKeepsInv(sha: Bytes -> Digest, db: Db, upload: Uuid, row: SessionRow)
    requires Inv(sha, db)
    requires upload !in db.sessions && SessionShapeOk(row) && row.received == 0 && row.att.user in db.users
    ensures Inv(sha, db.(sessions := db.sessions[upload := row]))
  {
    hide SessionsOk, ChunksOk, SyncOk, ContentOnlyUnderActive, StampsFit, UsersOk, VaultsOk, SharesOk;
    NewSessionKeeps(db, upload, row);
  }

  /** After the older sessions are aborted none is in progress for the attachment. */
  lemma NoneInProgress(db: Db, k: AttKey)
    ensures forall u :: u in Abort(db, InProgressFor(db, k)).sessions
              && Abort(db, InProgressFor(db, k)).sessions[u].status == InProgress
              ==> Abort(db, InProgressFor(db, k)).sessions[u].att != k
  {
  }

  lemma ActiveOwnerExists(sha: Bytes -> Digest, db: Db, nk: NoteKey)
    requires Inv(sha, db) && Active(db.notes, nk)
    ensures nk.user in db.users
  {
  }

  lemma InitKeeps(sha: Bytes -> Digest, db: Db, k: AttKey, totalSize: nat, upload: Uuid, t: Clock)
    requires Inv(sha, db)
    ensures Inv(sha, Init(db, k, totalSize, upload, t).0)
    ensures SessionsExact(db.sessions, db.staged) ==>
              SessionsExact(Init(db, k, totalSize, upload, t).0.sessions, Init(db, k, totalSize, upload, t).0.staged)
  {
    hide Inv, SessionsExact, SessionsOk, Abort, Expired, InProgressFor, FloatCeil;
    if totalSize > 0 && Active(db.notes, NoteOf(k)) {
      var old1 := Expired(db, k.user, t.first);
      var db1 := Cleanup(db, k.user, t.first);
      var old2 := InProgressFor(db1, k);
      var db2 := Abort(db1, old2);
      AbortKeepsInv(sha, db, old1);
      AbortKeepsInv(sha, db1, old2);
      if SessionsExact(db.sessions, db.staged) {
        AbortKeepsExact(db, old1);
        AbortKeepsExact(db1, old2);
      }
      if TotalChunks(totalSize) <= INT4_MAX && upload !in db2.sessions {
        var row := SessionRow(k, totalSize, CHUNK_SIZE, 0, TotalChunks(totalSize),
          InProgress, t.second + UPLOAD_SESSION_TTL);
        ActiveOwnerExists(sha, db, NoteOf(k));
        NoneInProgress(db1, k);
        NewSessionKeepsInv(sha, db2, upload, row);
        SessionsOfInv(sha, db2);
        NewSessionKeeps(db2, upload, row);
      }
    }
  }

  lemma SessionsOfInv(sha: Bytes -> Digest, db: Db)
    requires Inv(sha, db)
    ensures SessionsOk(db.sessions, db.staged)
  {
  }

  // ----- staging a chunk -----

  /** The length check admits exactly the slice of the whole that the index stands for. */
  lemma AdmittedLength(s: SessionRow, index: int, length: nat)
    requires SessionShapeOk(s)
    ensures ChunkLengthOf(s, index) == Some(length)
       <==> 0 <= index < s.expected && length == SliceLength(s.totalSize, index)
  {
    hide FloatCeil;
    ChunkLengthsAgree(s.totalSize, index);
  }

  /** The counter of this upload moves with its rows. */
  lemma StageCounts(db: Db, upload: Uuid, index: int, data: Bytes)
    requires upload in db.sessions
    ensures var s, s' := db.sessions[upload], Stage(db, upload, index, data).sessions[upload];
            && s' == s.(received := s'.received)
            && s.received <= s'.received
            && s'.received - s.received
               == |StagedIndices(Stage(db, upload, index, data).staged, upload)| - |StagedIndices(db.staged, upload)|
  {
    hide StagedIndices;
    var before := StagedIndices(db.staged, upload);
    StagedIndicesInserted(db.staged, upload, index, data);
    StagedIndex(db.staged, upload, index);
    if index in before {
      assert before + {index} == before;
    }
  }

  /** No other upload notices. */
  lemma StageElsewhere(db: Db, upload: Uuid, index: int, data: Bytes, u: Uuid)
    requires upload in db.sessions && u != upload
    ensures var after := Stage(db, upload, index, data);
            && StagedIndices(after.staged, u) == StagedIndices(db.staged, u)
            && (u in after.sessions <==> u in db.sessions)
            && (u in db.sessions ==> after.sessions[u] == db.sessions[u])
  {
    hide StagedIndices;
    if StageKey(upload, index) in db.staged {
      StagedIndicesSame(db.staged, Stage(db, upload, index, data).staged, u);
    } else {
      StagedIndicesSame(db.staged, Stage(db, upload, index, data).staged, u);
    }
  }

  lemma StageKeeps(db: Db, upload: Uuid, index: int, data: Bytes)
    requires SessionsOk(db.sessions, db.staged)
    requires upload in db.sessions
    requires 0 <= index < db.sessions[upload].expected && |data| == SliceLength(db.sessions[upload].totalSize, index)
    ensures SessionsOk(Stage(db, upload, index, data).sessions, Stage(db, upload, index, data).staged)
  {
    hide StagedIndices, SliceLength, ChunkCount, Stage;
    StageCounts(db, upload, index, data);
    forall u: Uuid | u != upload { StageElsewhere(db, upload, index, data, u); }
  }

  lemma StageKeepsExact(db: Db, upload: Uuid, index: int, data: Bytes)
    requires SessionsExact(db.sessions, db.staged)
    requires upload in db.sessions && db.sessions[upload].status == InProgress
    ensures SessionsExact(Stage(db, upload, index, data).sessions, Stage(db, upload, index, data).staged)
  {
    hide StagedIndices, Stage;
    StageCounts(db, upload, index, data);
    forall u: Uuid | u != upload { StageElsewhere(db, upload, index, data, u); }
  }

  lemma PutChunkKeeps(sha: Bytes -> Digest, db: Db, k: AttKey, upload: Uuid, index: int, data: Bytes, t: Clock)
    requires Inv(sha, db)
    ensures Inv(sha, PutChunk(db, k, upload, index, data, t).0)
    ensures SessionsExact(db.sessions, db.staged) ==>
              SessionsExact(PutChunk(db, k, upload, index, data, t).0.sessions,
                PutChunk(db, k, upload, index, data, t).0.staged)
  {
    hide Inv, SessionsExact, OpenSession, ChunkLengthOf, Stage;
    OpenSessionKeeps(sha, db, k, upload, t);
    var (db1, got) := OpenSession(db, k, upload, t);
    if got.Ok? && ChunkLengthOf(got.value, index) == Some(|data|) {
      StageKeepsInv(sha, db1, upload, index, data);
    }
  }

  lemma StageKeepsOwners(db: Db, upload: Uuid, index: int, data: Bytes)
    requires upload in db.sessions
    ensures forall u :: u in db.sessions ==> Stage(db, upload, index, data).sessions[u].att == db.sessions[u].att
  {
    if StageKey(upload, index) in db.staged {
    } else {
    }
  }

  lemma StageKeepsInv(sha: Bytes -> Digest, db: Db, upload: Uuid, index: int, data: Bytes)
    requires Inv(sha, db) && upload in db.sessions
    requires ChunkLengthOf(db.sessions[upload], index) == Some(|data|)
    ensures Inv(sha, Stage(db, upload, index, data))
    ensures SessionsExact(db.sessions, db.staged) && db.sessions[upload].status == InProgress ==>
              SessionsExact(Stage(db, upload, index, data).sessions, Stage(db, upload, index, data).staged)
  {
    hide SessionsOk, SessionsExact, ChunksOk, SyncOk, ContentOnlyUnderActive, StampsFit, UsersOk, VaultsOk,
      SharesOk, ChunkLengthOf, Stage;
    ShapeOf(db, upload);
    AdmittedLength(db.sessions[upload], index, |data|);
    StageKeeps(db, upload, index, data);
    StageKeepsOwners(db, upload, index, data);
    if SessionsExact(db.sessions, db.staged) && db.sessions[upload].status == InProgress {
      StageKeepsExact(db, upload, index, data);
    }
  }

  lemma ShapeOf(db: Db, upload: Uuid)
    requires SessionsOk(db.sessions, db.staged) && upload in db.sessions
    ensures SessionShapeOk(db.sessions[upload])
  {
  }

  // ----- completing -----

  /** As many in-range rows as expected are all the rows expected. */
  lemma AllStaged(db: Db, upload: Uuid)
    requires SessionsOk(db.sessions, db.staged) && upload in db.sessions
    requires |StagedParts(db.staged, upload)| == db.sessions[upload].expected
    ensures StagedIndices(db.staged, upload) == Below(db.sessions[upload].expected)
    ensures StagedParts(db.staged, upload)
         == seq(db.sessions[upload].expected, i => StagedAt(db.staged, upload, i))
    ensures forall i :: 0 <= i < db.sessions[upload].expected ==> StageKey(upload, i) in db.staged
  {
    hide StagedIndices, InOrder, SliceLength;
    var n := db.sessions[upload].expected;
    var rows := StagedIndices(db.staged, upload);
    forall i: int ensures i in rows ==> 0 <= i < n {
      StagedIndex(db.staged, upload, i);
      assert i in rows ==> StageKey(upload, i) in db.staged;
    }
    Pigeonhole(rows, n);
    assert StagedParts(db.staged, upload) == seq(n, i => StagedAt(db.staged, upload, i));
    InRange(n);
    forall i | 0 <= i < n ensures StageKey(upload, i) in db.staged {
      assert i in Range(n) && i in rows;
      StagedIndex(db.staged, upload, i);
    }
  }

  lemma {:induction false} PartsTotal(parts: seq<Bytes>, size: nat, n: nat)
    requires |parts| == n
    requires forall i :: 0 <= i < n ==> |parts[i]| == SliceLength(size, i)
    ensures TotalLength(parts) == SumOfSlices(size, n)
  {
    if n > 0 {
      PartsTotal(parts[..n - 1], size, n - 1);
    }
  }

  /** The "Assembled blob size mismatch" branch is dead: the row count decides. */
  lemma NoSizeMismatch(db: Db, upload: Uuid)
    requires SessionsOk(db.sessions, db.staged) && upload in db.sessions
    requires |StagedParts(db.staged, upload)| == db.sessions[upload].expected
    ensures TotalLength(StagedParts(db.staged, upload)) == db.sessions[upload].totalSize
  {
    var s := db.sessions[upload];
    var parts := StagedParts(db.staged, upload);
    AllStaged(db, upload);
    forall i | 0 <= i < |parts| ensures |parts[i]| == SliceLength(s.totalSize, i) {
      assert StageKey(upload, i) in db.staged;
    }
    PartsTotal(parts, s.totalSize, s.expected);
    ChunkLengthsSum(s.totalSize);
  }

  /** After promotion the attachment's chunks are the staged rows, and no others. */
  lemma PromotedChunks(chunks: map<ChunkKey, Bytes>, staged: map<StageKey, Bytes>, k: AttKey, upload: Uuid, c: ChunkKey)
    ensures c.att != k ==> (c in Promote(chunks, staged, k, upload) <==> c in chunks)
    ensures c.att != k && c in chunks ==> Promote(chunks, staged, k, upload)[c] == chunks[c]
    ensures c.att == k ==> (c in Promote(chunks, staged, k, upload) <==> StageKey(upload, c.index) in staged)
    ensures c.att == k && StageKey(upload, c.index) in staged ==>
              Promote(chunks, staged, k, upload)[c] == staged[StageKey(upload, c.index)]
  {
    var kept := map d | d in chunks && d.att != k :: chunks[d];
    var added := map i | i in StagedIndices(staged, upload) :: ChunkKey(k, i) := staged[StageKey(upload, i)];
    assert Promote(chunks, staged, k, upload) == kept + added;
    StagedIndex(staged, upload, c.index);
    if c.att == k && StageKey(upload, c.index) in staged {
      assert c == ChunkKey(k, c.index);
      assert c in added;
    }
  }

  lemma PromoteKeepsChunks(
    sha: Bytes -> Digest, db: Db, k: AttKey, upload: Uuid, row: AttRow)
    requires ChunksOk(sha, db.attachments, db.chunks)
    requires SessionsOk(db.sessions, db.staged) && upload in db.sessions
    requires |StagedParts(db.staged, upload)| == db.sessions[upload].expected
    requires row.size == db.sessions[upload].totalSize
    requires row.etag == sha(Join(StagedParts(db.staged, upload)))
    ensures ChunksOk(sha, db.attachments[k := row], Promote(db.chunks, db.staged, k, upload))
  {
    hide Promote, StagedParts, Join, SliceLength, StagedIndices;
    var s := db.sessions[upload];
    var chunks := Promote(db.chunks, db.staged, k, upload);
    AllStaged(db, upload);
    forall c: ChunkKey
      ensures c.att != k ==> (c in chunks <==> c in db.chunks) && (c in chunks ==> chunks[c] == db.chunks[c])
      ensures c.att == k ==> (c in chunks <==> StageKey(upload, c.index) in db.staged)
      ensures c.att == k && c in chunks ==> chunks[c] == db.staged[StageKey(upload, c.index)]
    {
      PromotedChunks(db.chunks, db.staged, k, upload, c);
    }
    forall other | other in db.attachments && other != k
      ensures AttachmentOk(sha, db.attachments[other], chunks, other)
    {
      AttachmentOkFrame(sha, db.attachments[other], db.chunks, chunks, other);
    }
    assert AttachmentOk(sha, row, chunks, k) by {
      forall i | 0 <= i < s.expected
        ensures ChunkKey(k, i) in chunks && |chunks[ChunkKey(k, i)]| == SliceLength(row.size, i)
        ensures ChunkAt(chunks, k, i) == StagedAt(db.staged, upload, i)
      {
        assert StageKey(upload, i) in db.staged;
      }
      assert ChunkParts(chunks, k, s.expected) == StagedParts(db.staged, upload);
    }
  }

  lemma DropSessionElsewhere(db: Db, upload: Uuid, u: Uuid)
    requires u != upload
    ensures StagedIndices(DropSession(db, upload).staged, u) == StagedIndices(db.staged, u)
  {
    hide StagedIndices;
    StagedIndicesSame(db.staged, DropSession(db, upload).staged, u);
  }

  lemma DropSessionKeeps(db: Db, upload: Uuid)
    requires SessionsOk(db.sessions, db.staged)
    ensures SessionsOk(DropSession(db, upload).sessions, DropSession(db, upload).staged)
  {
    hide StagedIndices, SliceLength, ChunkCount;
    forall u: Uuid | u != upload { DropSessionElsewhere(db, upload, u); }
  }

  lemma DropSessionKeepsExact(db: Db, upload: Uuid)
    requires SessionsExact(db.sessions, db.staged)
    ensures SessionsExact(DropSession(db, upload).sessions, DropSession(db, upload).staged)
  {
    hide StagedIndices;
    forall u: Uuid | u != upload { DropSessionElsewhere(db, upload, u); }
  }
}
