/** What is uploaded is what is downloaded, whatever else happens in between. */
module RoundTrip {
  import opened Prelude
  import opened ChunkMath
  import opened CompositeEtag
  import opened Tables
  import opened NoteService
  import opened Uploads
  import opened Accounts
  import opened Invariants
  import opened UploadProofs
  import opened NoteProofs
  import opened Machine
  import opened Frames
  import opened SessionSafety
  import opened Downloads

  // ----- cutting a byte string into chunks -----

  /** data[index * CHUNK_SIZE : (index + 1) * CHUNK_SIZE] */
  function Slice(data: Bytes, index: nat): (chunk: Bytes)
    ensures |chunk| == SliceLength(|data|, index)
  {
    var pos := index * CHUNK_SIZE;
    if pos >= |data| then [] else data[pos..pos + SliceLength(|data|, index)]
  }

  function Slices(data: Bytes, n: nat): (parts: seq<Bytes>)
    ensures |parts| == n && forall i :: 0 <= i < n ==> parts[i] == Slice(data, i)
  {
    seq(n, i requires 0 <= i < n => Slice(data, i))
  }

  lemma SliceExtends(data: Bytes, i: nat)
    ensures data[..Min(|data|, i * CHUNK_SIZE)] + Slice(data, i) == data[..Min(|data|, (i + 1) * CHUNK_SIZE)]
  {
  }

  lemma {:induction false} SlicesPrefix(data: Bytes, n: nat)
    ensures Join(Slices(data, n)) == data[..Min(|data|, n * CHUNK_SIZE)]
  {
    hide Join, Slice;
    if n > 0 {
      SlicesPrefix(data, n - 1);
      JoinSnoc(Slices(data, n - 1), Slice(data, n - 1));
      assert Slices(data, n) == Slices(data, n - 1) + [Slice(data, n - 1)];
      SliceExtends(data, n - 1);
    } else {
      assert Slices(data, 0) == [];
      JoinEmpty();
    }
  }

  /** Cutting and joining are inverse. */
  lemma SlicesJoin(data: Bytes)
    ensures Join(Slices(data, ChunkCount(|data|))) == data
  {
    SlicesPrefix(data, ChunkCount(|data|));
    assert data[..|data|] == data;
  }

  // ----- one upload while requests go on around it -----

  /** The request stores data as chunk i of the upload, if its length is accepted. */
  predicate Writes(s: SessionRow, upload: Uuid, r: Request, i: int) {
    && r.UploadChunk? && r.att == s.att && r.upload == upload && r.index == i
    && ChunkLengthOf(s, i) == Some(|r.data|)
  }

  /** The bytes most recently accepted for chunk i. */
  function LastWrite(s: SessionRow, upload: Uuid, rs: seq<Request>, i: int): Option<Bytes> {
    if rs == [] then None
    else if Writes(s, upload, rs[|rs| - 1], i) then Some(rs[|rs| - 1].data)
    else LastWrite(s, upload, rs[..|rs| - 1], i)
  }

  /** Requests under which an upload lives on: its account is not deleted, no other
      upload of the attachment is started, completing it is refused, and the clocks
      that could expire it are not past its deadline. */
  predicate Undisturbing(sha: Bytes -> Digest, db: Db, s: SessionRow, upload: Uuid, r: Request) {
    match r
    case DeleteAccount(user, verified) => user != s.att.user || !verified
    case StartUpload(k, _, _, t) => k != s.att && (k.user == s.att.user ==> t.first <= s.expiresAt)
    case UploadChunk(k, u, _, _, t) =>
      && (k.user == s.att.user ==> t.first <= s.expiresAt)
      && (k == s.att && u == upload ==> t.second <= s.expiresAt)
    case CompleteUpload(k, u, _, _, t, _) =>
      && (k.user == s.att.user ==> t.first <= s.expiresAt)
      && (k == s.att && u == upload ==> t.second <= s.expiresAt && !Apply(sha, db, r).1.Uploaded?)
    case _ => true
  }

  /** Each request of the run is undisturbing in the state it meets. */
  ghost predicate UndisturbingRun(sha: Bytes -> Digest, db: Db, s: SessionRow, upload: Uuid, rs: seq<Request>) {
    forall i :: 0 <= i < |rs| ==> Undisturbing(sha, Run(sha, db, rs[..i]), s, upload, rs[i])
  }

  lemma UndisturbingFront(sha: Bytes -> Digest, db: Db, s: SessionRow, upload: Uuid, rs: seq<Request>)
    requires rs != [] && UndisturbingRun(sha, db, s, upload, rs)
    ensures UndisturbingRun(sha, db, s, upload, rs[..|rs| - 1])
    ensures Undisturbing(sha, Run(sha, db, rs[..|rs| - 1]), s, upload, rs[|rs| - 1])
  {
    hide Undisturbing, Run;
    var front := rs[..|rs| - 1];
    forall i | 0 <= i < |front| ensures Undisturbing(sha, Run(sha, db, front[..i]), s, upload, front[i]) {
      assert front[..i] == rs[..i];
    }
  }

  lemma UndisturbingSnoc(sha: Bytes -> Digest, db: Db, s: SessionRow, upload: Uuid, rs: seq<Request>, r: Request)
    requires UndisturbingRun(sha, db, s, upload, rs) && Undisturbing(sha, Run(sha, db, rs), s, upload, r)
    ensures UndisturbingRun(sha, db, s, upload, rs + [r])
  {
    hide Undisturbing, Run;
    var all := rs + [r];
    forall i | 0 <= i < |all| ensures Undisturbing(sha, Run(sha, db, all[..i]), s, upload, all[i]) {
      assert all[..i] == rs[..i];
      assert rs[..|rs|] == rs;
    }
  }

  function StagedRow(db: Db, upload: Uuid, i: int): Option<Bytes> {
    if StageKey(upload, i) in db.staged then Some(db.staged[StageKey(upload, i)]) else None
  }

  /** The session is open and unchanged but for its counter. */
  ghost predicate StillOpen(db: Db, s: SessionRow, upload: Uuid) {
    && s.status == InProgress && s.att.user in db.users
    && upload in db.sessions && db.sessions[upload] == s.(received := db.sessions[upload].received)
  }

  ghost predicate SameUpload(db: Db, db': Db, upload: Uuid) {
    && (upload in db.sessions <==> upload in db'.sessions)
    && (upload in db.sessions ==> db'.sessions[upload] == db.sessions[upload])
    && (forall i :: StagedRow(db', upload, i) == StagedRow(db, upload, i))
    && db.users.Keys <= db'.users.Keys
  }

  lemma SameUploadTwice(a: Db, b: Db, c: Db, upload: Uuid)
    requires SameUpload(a, b, upload) && SameUpload(b, c, upload)
    ensures SameUpload(a, c, upload)
  {
  }

  lemma AbortSame(db: Db, ids: set<Uuid>, upload: Uuid)
    requires upload !in ids
    ensures SameUpload(db, Abort(db, ids), upload)
  {
  }

  /** Opening a session leaves an unexpired other one alone. */
  lemma OpenSessionSame(db: Db, k: AttKey, used: Uuid, t: Clock, upload: Uuid)
    requires upload in db.sessions
    requires db.sessions[upload].att.user == k.user ==> t.first <= db.sessions[upload].expiresAt
    requires used == upload && db.sessions[upload].att == k ==> t.second <= db.sessions[upload].expiresAt
    ensures SameUpload(db, OpenSession(db, k, used, t).0, upload)
  {
    hide SameUpload, Abort;
    var db1 := Cleanup(db, k.user, t.first);
    AbortSame(db, Expired(db, k.user, t.first), upload);
    assert SameUpload(db, db1, upload);
    if OpenSession(db, k, used, t).0 == db1 {
    } else {
      assert OpenSession(db, k, used, t).0 == Abort(db1, {used});
      if used == upload {
        SameRow(db, db1, upload);
      }
      AbortSame(db1, {used}, upload);
      SameUploadTwice(db, db1, Abort(db1, {used}), upload);
    }
  }

  lemma SameRow(db: Db, db': Db, upload: Uuid)
    requires SameUpload(db, db', upload) && upload in db.sessions
    ensures upload in db'.sessions && db'.sessions[upload] == db.sessions[upload]
  {
  }

  lemma InitSame(db: Db, k: AttKey, totalSize: nat, started: Uuid, t: Clock, upload: Uuid)
    requires upload in db.sessions && k != db.sessions[upload].att
    requires db.sessions[upload].att.user == k.user ==> t.first <= db.sessions[upload].expiresAt
    ensures SameUpload(db, Init(db, k, totalSize, started, t).0, upload)
  {
    hide SameUpload, Abort, TotalChunks;
    var ids := Expired(db, k.user, t.first);
    var db1 := Cleanup(db, k.user, t.first);
    AbortSame(db, ids, upload);
    SameRow(db, db1, upload);
    var db2 := Abort(db1, InProgressFor(db1, k));
    AbortSame(db1, InProgressFor(db1, k), upload);
    SameUploadTwice(db, db1, db2, upload);
    var db' := Init(db, k, totalSize, started, t).0;
    if db' == db {
      SameAsItself(db, upload);
    } else if db' == db1 {
    } else {
      OtherSessionAdded(db2, db', started, upload);
      SameUploadTwice(db, db2, db', upload);
    }
  }

  lemma SameAsItself(db: Db, upload: Uuid)
    ensures SameUpload(db, db, upload)
  {
  }

  lemma OtherSessionAdded(db: Db, db': Db, started: Uuid, upload: Uuid)
    requires started != upload && started in db'.sessions
    requires db' == db.(sessions := db.sessions[started := db'.sessions[started]])
    ensures SameUpload(db, db', upload)
  {
  }

  lemma StageSame(db: Db, staging: Uuid, index: int, data: Bytes, upload: Uuid)
    requires staging in db.sessions && staging != upload
    ensures SameUpload(db, Stage(db, staging, index, data), upload)
  {
    if StageKey(staging, index) in db.staged {
    } else {
    }
  }

  lemma DropSame(db: Db, dropped: Uuid, upload: Uuid)
    requires dropped != upload
    ensures SameUpload(db, DropSession(db, dropped), upload)
  {
  }

  lemma SameTables(a: Db, b: Db, c: Db, upload: Uuid)
    requires SameUpload(a, b, upload)
    requires c.sessions == b.sessions && c.staged == b.staged && c.users == b.users
    ensures SameUpload(a, c, upload)
  {
  }

  lemma PutChunkSame(db: Db, k: AttKey, staging: Uuid, index: int, data: Bytes, t: Clock, upload: Uuid)
    requires upload in db.sessions && !(staging == upload && db.sessions[upload].att == k)
    requires db.sessions[upload].att.user == k.user ==> t.first <= db.sessions[upload].expiresAt
    ensures SameUpload(db, PutChunk(db, k, staging, index, data, t).0, upload)
  {
    hide SameUpload, OpenSession, ChunkLengthOf, Stage;
    OpenSessionSame(db, k, staging, t, upload);
    var (db1, got) := OpenSession(db, k, staging, t);
    if got.Ok? && ChunkLengthOf(got.value, index) == Some(|data|) {
      SameRow(db, db1, upload);
      StageSame(db1, staging, index, data, upload);
      SameUploadTwice(db, db1, Stage(db1, staging, index, data), upload);
    }
  }

  lemma CompleteSame(
    sha: Bytes -> Digest, db: Db, k: AttKey, completed: Uuid,
    ifMatch: Option<string>, contentType: Option<string>, t: Clock, stamp: Epoch, upload: Uuid)
    requires upload in db.sessions && !(completed == upload && db.sessions[upload].att == k)
    requires db.sessions[upload].att.user == k.user ==> t.first <= db.sessions[upload].expiresAt
    ensures SameUpload(db, Complete(sha, db, k, completed, ifMatch, contentType, t, stamp).0, upload)
  {
    hide SameUpload, OpenSession, Finalize, StagedParts, TotalLength, DropSession;
    OpenSessionSame(db, k, completed, t, upload);
    var (db1, got) := OpenSession(db, k, completed, t);
    SameRow(db, db1, upload);
    if Complete(sha, db, k, completed, ifMatch, contentType, t, stamp).1.Ok? {
      var db2 := Finalize(sha, db1, k, completed, got.value.totalSize, contentType, ifMatch, stamp).0;
      SameTables(db, db1, db2, upload);
      DropSame(db2, completed, upload);
      SameUploadTwice(db, db2, DropSession(db2, completed), upload);
    } else {
    }
  }

  lemma DeletionSame(db: Db, user: Uuid, s: SessionRow, upload: Uuid)
    requires StillOpen(db, s, upload) && user != s.att.user
    ensures StillOpen(DeleteUser(db, user), s, upload)
    ensures forall i :: StagedRow(DeleteUser(db, user), upload, i) == StagedRow(db, upload, i)
  {
  }

  lemma UsersGrow(db: Db, user: Uuid, email: string, hash: Digest, now: int)
    ensures db.users.Keys <= Register(db, user, email, hash, now).0.users.Keys
  {
    hide FindUser;
  }

  lemma OtherStepsSame(sha: Bytes -> Digest, db: Db, r: Request, upload: Uuid)
    requires !r.StartUpload? && !r.UploadChunk? && !r.CompleteUpload? && !r.DeleteAccount?
    ensures SameUpload(db, Handle(sha, db, r).0, upload)
  {
    hide PutBody, SoftDelete, DeleteAttachment, Login, Rotate, RevokeAll, PutVault, Share, Revoke, RemoveShared,
      Register, SameUpload;
    var db' := Handle(sha, db, r).0;
    OtherHandlersLeaveUploads(sha, db, r);
    match r
    case RegisterUser(user, email, hash, now) =>
      UsersGrow(db, user, email, hash, now);
      MoreUsers(db, db', upload);
    case _ => MoreUsers(db, db', upload);
  }

  lemma MoreUsers(db: Db, db': Db, upload: Uuid)
    requires db'.sessions == db.sessions && db'.staged == db.staged && db.users.Keys <= db'.users.Keys
    ensures SameUpload(db, db', upload)
  {
  }

  /** A chunk sent to the open upload is stored if and only if its length is accepted. */
  lemma OwnChunk(db: Db, s: SessionRow, upload: Uuid, index: int, data: Bytes, t: Clock)
    requires StillOpen(db, s, upload) && t.first <= s.expiresAt && t.second <= s.expiresAt
    ensures var (db', out) := PutChunk(db, s.att, upload, index, data, t);
            && StillOpen(db', s, upload)
            && (out.Ok? <==> ChunkLengthOf(s, index) == Some(|data|))
            && forall i :: StagedRow(db', upload, i)
                  == if i == index && out.Ok? then Some(data) else StagedRow(db, upload, i)
  {
    hide OpenSession, Stage;
    OpenedUnchanged(db, s.att, upload, t);
    OpenSessionSame(db, s.att, upload, t, upload);
    var (db1, got) := OpenSession(db, s.att, upload, t);
    if ChunkLengthOf(s, index) == Some(|data|) {
      StageCounts(db1, upload, index, data);
    }
  }

  predicate OwnWrite(s: SessionRow, upload: Uuid, r: Request) {
    r.UploadChunk? && r.att == s.att && r.upload == upload
  }

  lemma OtherUploadsSame(sha: Bytes -> Digest, db: Db, s: SessionRow, upload: Uuid, r: Request)
    requires StillOpen(db, s, upload) && Undisturbing(sha, db, s, upload, r) && !OwnWrite(s, upload, r)
    requires r.StartUpload? || r.UploadChunk? || r.CompleteUpload?
    ensures SameUpload(db, Handle(sha, db, r).0, upload)
  {
    hide Init, PutChunk, Complete, SameUpload;
    match r
    case StartUpload(k, totalSize, u, t) => InitSame(db, k, totalSize, u, t, upload);
    case UploadChunk(k, u, index, data, t) => PutChunkSame(db, k, u, index, data, t, upload);
    case CompleteUpload(k, u, ifMatch, contentType, t, stamp) =>
      if k == s.att && u == upload {
        OwnerIsUser(db, s, upload);
        RefusedCompleteSame(sha, db, k, upload, ifMatch, contentType, t, stamp);
      } else {
        CompleteSame(sha, db, k, u, ifMatch, contentType, t, stamp, upload);
      }
  }

  /** A premature or otherwise refused completion leaves a live upload as it was. */
  lemma RefusedCompleteSame(
    sha: Bytes -> Digest, db: Db, k: AttKey, upload: Uuid,
    ifMatch: Option<string>, contentType: Option<string>, t: Clock, stamp: Epoch)
    requires upload in db.sessions && Live(db.sessions[upload], t)
    requires !Complete(sha, db, k, upload, ifMatch, contentType, t, stamp).1.Ok?
    ensures SameUpload(db, Complete(sha, db, k, upload, ifMatch, contentType, t, stamp).0, upload)
  {
    hide SameUpload, OpenSession, Finalize, StagedParts, TotalLength, DropSession;
    OpenSessionSame(db, k, upload, t, upload);
  }

  lemma OwnWriteStep(sha: Bytes -> Digest, db: Db, s: SessionRow, upload: Uuid, r: Request)
    requires StillOpen(db, s, upload) && Undisturbing(sha, db, s, upload, r) && OwnWrite(s, upload, r)
    ensures Handle(sha, db, r).0 == PutChunk(db, s.att, upload, r.index, r.data, r.clock).0
    ensures r.clock.first <= s.expiresAt && r.clock.second <= s.expiresAt
  {
    hide PutChunk, StillOpen;
  }

  lemma SameKeepsOpen(db: Db, db': Db, s: SessionRow, upload: Uuid)
    requires StillOpen(db, s, upload) && SameUpload(db, db', upload)
    ensures StillOpen(db', s, upload)
    ensures forall i :: StagedRow(db', upload, i) == StagedRow(db, upload, i)
  {
    hide StagedRow;
  }

  /** One step: an undisturbing request leaves the upload alone, or writes one chunk. */
  lemma UploadStep(sha: Bytes -> Digest, db: Db, s: SessionRow, upload: Uuid, r: Request, i: int)
    requires StillOpen(db, s, upload) && Undisturbing(sha, db, s, upload, r)
    ensures StillOpen(Apply(sha, db, r).0, s, upload)
    ensures StagedRow(Apply(sha, db, r).0, upload, i)
         == if Writes(s, upload, r, i) then Some(r.data) else StagedRow(db, upload, i)
  {
    hide Handle, StillOpen, SameUpload, StagedRow, ChunkLengthOf, PutChunk, Undisturbing, DeleteUser;
    var db' := Handle(sha, db, r).0;
    if Caller(r).Some? && Caller(r).value !in db.users {
      assert OwnWrite(s, upload, r) ==> s.att.user in db.users by { OwnerIsUser(db, s, upload); }
    } else if OwnWrite(s, upload, r) {
      OwnWriteStep(sha, db, s, upload, r);
      OwnChunk(db, s, upload, r.index, r.data, r.clock);
    } else if r.DeleteAccount? {
      HandleDeletion(sha, db, r);
      OtherAccount(sha, db, s, upload, r);
      if r.verified {
        DeletionSame(db, r.user, s, upload);
      }
    } else if r.StartUpload? || r.UploadChunk? || r.CompleteUpload? {
      OtherUploadsSame(sha, db, s, upload, r);
      SameKeepsOpen(db, db', s, upload);
    } else {
      OtherStepsSame(sha, db, r, upload);
      SameKeepsOpen(db, db', s, upload);
    }
  }

  lemma OwnerIsUser(db: Db, s: SessionRow, upload: Uuid)
    requires StillOpen(db, s, upload)
    ensures s.att.user in db.users
  {
  }

  lemma OtherAccount(sha: Bytes -> Digest, db: Db, s: SessionRow, upload: Uuid, r: Request)
    requires Undisturbing(sha, db, s, upload, r) && r.DeleteAccount?
    ensures r.user != s.att.user || !r.verified
  {
  }

  /** Over a whole run: every staged row is the last one written at its index. */
  lemma {:induction false} LastWriteWins(
    sha: Bytes -> Digest, db: Db, s: SessionRow, upload: Uuid, rs: seq<Request>, i: int)
    requires StillOpen(db, s, upload) && StagedRow(db, upload, i) == None
    requires UndisturbingRun(sha, db, s, upload, rs)
    ensures StillOpen(Run(sha, db, rs), s, upload)
    ensures StagedRow(Run(sha, db, rs), upload, i) == LastWrite(s, upload, rs, i)
  {
    hide Apply, StillOpen, Writes, Undisturbing, UndisturbingRun;
    if rs != [] {
      var front, r := rs[..|rs| - 1], rs[|rs| - 1];
      assert rs == front + [r];
      UndisturbingFront(sha, db, s, upload, rs);
      LastWriteWins(sha, db, s, upload, front, i);
      RunSnoc(sha, db, front, r);
      UploadStep(sha, Run(sha, db, front), s, upload, r, i);
    }
  }

  // ----- the round trip -----

  /** An upload can be started for any active note and any size the columns hold. */
  lemma StartsIff(db: Db, k: AttKey, totalSize: nat, upload: Uuid, t: Clock)
    ensures Init(db, k, totalSize, upload, t).1.Ok?
       <==> Active(db.notes, NoteOf(k)) && 0 < totalSize <= SIZE_LIMIT && upload !in db.sessions
    ensures Init(db, k, totalSize, upload, t).1.Ok? ==>
              Init(db, k, totalSize, upload, t).1.value == InitUpload(upload, CHUNK_SIZE, ChunkCount(totalSize))
  {
    hide Abort, Expired, InProgressFor, FloatCeil;
  }

  /** The session that Init opened. */
  lemma SessionStarted(db: Db, k: AttKey, totalSize: nat, upload: Uuid, t: Clock)
    requires Init(db, k, totalSize, upload, t).1.Ok? && k.user in db.users
    ensures totalSize <= SIZE_LIMIT
    ensures var db' := Init(db, k, totalSize, upload, t).0;
            var s := SessionRow(k, totalSize, CHUNK_SIZE, 0, ChunkCount(totalSize),
              InProgress, t.second + UPLOAD_SESSION_TTL);
            StillOpen(db', s, upload) && db'.sessions[upload] == s
  {
    hide Abort, Expired, InProgressFor, FloatCeil;
  }

  lemma NothingStagedYet(sha: Bytes -> Digest, db: Db, k: AttKey, totalSize: nat, upload: Uuid, t: Clock, i: int)
    requires Inv(sha, db) && Init(db, k, totalSize, upload, t).1.Ok?
    ensures StagedRow(Init(db, k, totalSize, upload, t).0, upload, i) == None
  {
    hide ChunksOk, SyncOk, ContentOnlyUnderActive, StampsFit, UsersOk, VaultsOk, SharesOk, KeysOk, Expired,
      InProgressFor, TotalChunks, SliceLength, ChunkCount, StagedIndices;
    var db1 := Cleanup(db, k.user, t.first);
    var db2 := Abort(db1, InProgressFor(db1, k));
    assert db2.sessions.Keys == db.sessions.Keys && upload !in db.sessions;
    assert forall s :: s in db2.staged ==> s in db.staged;
  }

  /** The rows staged are the slices of data. */
  lemma StagedAreSlices(db: Db, upload: Uuid, data: Bytes)
    requires SessionsOk(db.sessions, db.staged) && upload in db.sessions
    requires db.sessions[upload].expected == ChunkCount(|data|)
    requires forall i :: 0 <= i < ChunkCount(|data|) ==> StagedRow(db, upload, i) == Some(Slice(data, i))
    ensures |StagedIndices(db.staged, upload)| == ChunkCount(|data|)
    ensures StagedParts(db.staged, upload) == Slices(data, ChunkCount(|data|))
  {
    hide StagedIndices, InOrder, SliceLength, Slice;
    var n := ChunkCount(|data|);
    var rows := StagedIndices(db.staged, upload);
    InRange(n);
    forall i: int ensures i in rows <==> i in Below(n) {
      StagedIndex(db.staged, upload, i);
      assert i in rows ==> StageKey(upload, i) in db.staged;
      assert 0 <= i < n ==> StagedRow(db, upload, i).Some?;
      assert i in Below(n) <==> i in Range(n);
    }
    assert rows == Below(n);
    BelowSize(n);
    AllStaged(db, upload);
    forall i | 0 <= i < n ensures StagedParts(db.staged, upload)[i] == Slice(data, i) {
      assert StagedRow(db, upload, i) == Some(Slice(data, i));
    }
  }

  /** Whatever the opened session sees is what was staged before the request. */
  lemma OpenedRows(db: Db, k: AttKey, upload: Uuid, t: Clock, i: int)
    requires OpenSession(db, k, upload, t).1.Ok?
    ensures StagedRow(OpenSession(db, k, upload, t).0, upload, i) == StagedRow(db, upload, i)
  {
    hide OpenSession;
    OpenedUnchanged(db, k, upload, t);
  }

  /** Completing over the slices of data stores data, with its own size and hash,
      and leaves no other chunk under the attachment. */
  lemma CompleteStores(
    sha: Bytes -> Digest, db: Db, k: AttKey, upload: Uuid, data: Bytes,
    ifMatch: Option<string>, contentType: Option<string>, t: Clock, stamp: Epoch)
    requires Inv(sha, db)
    requires upload in db.sessions && db.sessions[upload].totalSize == |data|
    requires forall i :: 0 <= i < ChunkCount(|data|) ==> StagedRow(db, upload, i) == Some(Slice(data, i))
    requires Complete(sha, db, k, upload, ifMatch, contentType, t, stamp).1.Ok?
    ensures var (db', out) := Complete(sha, db, k, upload, ifMatch, contentType, t, stamp);
            && k in db'.attachments && db'.attachments[k].size == |data| == out.value.size
            && db'.attachments[k].etag == sha(data) == out.value.etag
            && (forall c: ChunkKey :: c.att == k ==> (c in db'.chunks <==> 0 <= c.index < ChunkCount(|data|)))
            && (forall i :: 0 <= i < ChunkCount(|data|) ==> ChunkAt(db'.chunks, k, i) == Slice(data, i))
  {
    hide Inv, OpenSession, Finalize, StagedParts, TotalLength, Slice, StagedRow, Promote, Join, WriteAttachment;
    var (db1, got) := OpenSession(db, k, upload, t);
    OpenSessionKeeps(sha, db, k, upload, t);
    OpenedUnchanged(db, k, upload, t);
    forall i { OpenedRows(db, k, upload, t, i); }
    SessionsOfInv(sha, db1);
    ShapeOf(db1, upload);
    StagedAreSlices(db1, upload, data);
    SlicesJoin(data);
    FinalizeSuccess(sha, db1, k, upload, |data|, contentType, ifMatch, stamp);
    FinalizeReply(sha, db1, k, upload, |data|, contentType, ifMatch, stamp);
    PromotedSlices(db1, k, upload, data);
  }

  lemma PromotedSlices(db: Db, k: AttKey, upload: Uuid, data: Bytes)
    requires SessionsOk(db.sessions, db.staged) && upload in db.sessions
    requires db.sessions[upload].expected == ChunkCount(|data|)
    requires forall i :: 0 <= i < ChunkCount(|data|) ==> StagedRow(db, upload, i) == Some(Slice(data, i))
    ensures var chunks := Promote(db.chunks, db.staged, k, upload);
            && (forall c: ChunkKey :: c.att == k ==> (c in chunks <==> 0 <= c.index < ChunkCount(|data|)))
            && (forall i :: 0 <= i < ChunkCount(|data|) ==> ChunkAt(chunks, k, i) == Slice(data, i))
  {
    hide Promote, Slice, SliceLength;
    var chunks := Promote(db.chunks, db.staged, k, upload);
    forall c: ChunkKey | c.att == k
      ensures c in chunks <==> 0 <= c.index < ChunkCount(|data|)
      ensures 0 <= c.index < ChunkCount(|data|) ==> ChunkAt(chunks, k, c.index) == Slice(data, c.index)
    {
      PromotedChunks(db.chunks, db.staged, k, upload, c);
      assert 0 <= c.index < ChunkCount(|data|) ==> StagedRow(db, upload, c.index) == Some(Slice(data, c.index));
      assert c == ChunkKey(k, c.index);
    }
    forall i | 0 <= i < ChunkCount(|data|) ensures ChunkAt(chunks, k, i) == Slice(data, i) {
      assert ChunkKey(k, i).att == k;
    }
  }

  /** Chunks that are the slices of data are served, and joined they are data. */
  lemma FetchesSlices(sha: Bytes -> Digest, db: Db, k: AttKey, data: Bytes)
    requires Inv(sha, db) && k in db.attachments && db.attachments[k].size == |data|
    requires forall i :: 0 <= i < ChunkCount(|data|) ==> ChunkAt(db.chunks, k, i) == Slice(data, i)
    ensures TotalChunks(|data|) == ChunkCount(|data|)
    ensures Fetch(db, k, TotalChunks(|data|)) == Some(data)
    ensures forall i :: 0 <= i < ChunkCount(|data|) ==>
              ReadChunk(db, k, i) == Ok((Slice(data, i), db.attachments[k].etag))
  {
    hide Inv, Slice, ReadChunk, TotalChunks, Join, Fetch, Content, ChunkCount;
    var n := ChunkCount(|data|);
    SizeFits(sha, db, k);
    FetchPrefix(sha, db, k, n);
    ContentIsJoin(db.chunks, k, n);
    assert ChunkParts(db.chunks, k, n) == Slices(data, n);
    SlicesJoin(data);
    forall i | 0 <= i < n ensures ReadChunk(db, k, i) == Ok((Slice(data, i), db.attachments[k].etag)) {
      ChunkServed(sha, db, k, i);
    }
  }

  lemma SizeFits(sha: Bytes -> Digest, db: Db, k: AttKey)
    requires Inv(sha, db) && k in db.attachments
    ensures TotalChunks(db.attachments[k].size) == ChunkCount(db.attachments[k].size)
  {
    hide Content, SliceLength, FloatCeil;
    assert AttachmentOk(sha, db.attachments[k], db.chunks, k);
  }

  lemma ContentIsJoin(chunks: map<ChunkKey, Bytes>, k: AttKey, n: nat)
    ensures Content(chunks, k, n) == Join(ChunkParts(chunks, k, n))
  {
  }

  /** Upload, then download. An upload of data is opened; any undisturbing requests
      follow, among them chunk PUTs in any order and any number, the last accepted
      one for each index carrying that slice of data; then completion succeeds if
      the attachment may be written at that moment, and the owner and every holder
      of the owner's grant read back exactly data. */
  lemma UploadThenDownload(
    sha: Bytes -> Digest, db: Db, k: AttKey, data: Bytes, upload: Uuid, t: Clock, rs: seq<Request>,
    ifMatch: Option<string>, contentType: Option<string>, t2: Clock, stamp: Epoch, recipient: Uuid)
    requires Inv(sha, db) && SessionsExact(db.sessions, db.staged)
    requires Init(db, k, |data|, upload, t).1.Ok?
    requires var s := Init(db, k, |data|, upload, t).0.sessions[upload];
             && UndisturbingRun(sha, Init(db, k, |data|, upload, t).0, s, upload, rs)
             && (forall i :: 0 <= i < ChunkCount(|data|) ==> LastWrite(s, upload, rs, i) == Some(Slice(data, i)))
             && Live(s, t2)
    requires var before := Run(sha, Init(db, k, |data|, upload, t).0, rs);
             && Active(before.notes, NoteOf(k))
             && (k in before.attachments && ifMatch.Some? ==>
                   StripQuotes(ifMatch.value) == before.attachments[k].etag)
             && (contentType.Some? ==> '\0' !in contentType.value)
    ensures var before := Run(sha, Init(db, k, |data|, upload, t).0, rs);
            var (db', out) := Complete(sha, before, k, upload, ifMatch, contentType, t2, stamp);
            && out.Ok? && out.value.size == |data| && out.value.etag == sha(data)
            && k in db'.attachments && db'.attachments[k].size == |data| && db'.attachments[k].etag == sha(data)
            && TotalChunks(|data|) == ChunkCount(|data|)
            && Fetch(db', k, TotalChunks(|data|)) == Some(data)
            && (forall i :: 0 <= i < ChunkCount(|data|) ==> GetChunk(db', k, i) == Ok((Slice(data, i), sha(data))))
            && (forall c: ChunkKey :: c.att == k ==> (c in db'.chunks <==> 0 <= c.index < ChunkCount(|data|)))
            && (FindGrant(db', recipient, k.note).Ok? && FindGrant(db', recipient, k.note).value.owner == k.user ==>
                  forall i :: 0 <= i < ChunkCount(|data|) ==>
                    SharedChunk(db', recipient, k.note, k.attachment, i) == Ok((Slice(data, i), sha(data))))
  {
    hide Inv, SessionsExact, Init, Complete, Run, Fetch, Slice, ReadChunk, FindGrant, StripQuotes,
      TotalChunks, LastWrite, UndisturbingRun, StagedIndices;
    var db1 := Init(db, k, |data|, upload, t).0;
    OwnerOfInit(sha, db, k, |data|, upload, t);
    SessionStarted(db, k, |data|, upload, t);
    var s := db1.sessions[upload];
    var db2 := Run(sha, db1, rs);
    var (db3, out) := Complete(sha, db2, k, upload, ifMatch, contentType, t2, stamp);
    InitKeeps(sha, db, k, |data|, upload, t);
    RunKeeps(sha, db1, rs);
    forall i ensures StillOpen(db2, s, upload) && StagedRow(db2, upload, i) == LastWrite(s, upload, rs, i) {
      NothingStagedYet(sha, db, k, |data|, upload, t, i);
      LastWriteWins(sha, db1, s, upload, rs, i);
    }
    assert StillOpen(db2, s, upload) by { assert StagedRow(db2, upload, 0) == LastWrite(s, upload, rs, 0); }
    SessionsOfInv(sha, db2);
    StagedAreSlices(db2, upload, data);
    ExactCount(db2, upload);
    CompletesIffReady(sha, db2, k, upload, ifMatch, contentType, t2, stamp);
    CompleteStores(sha, db2, k, upload, data, ifMatch, contentType, t2, stamp);
    CompleteKeeps(sha, db2, k, upload, ifMatch, contentType, t2, stamp);
    FetchesSlices(sha, db3, k, data);
    ActiveWithAttachment(sha, db3, k);
  }

  lemma OwnerOfInit(sha: Bytes -> Digest, db: Db, k: AttKey, totalSize: nat, upload: Uuid, t: Clock)
    requires Inv(sha, db) && Init(db, k, totalSize, upload, t).1.Ok?
    ensures k.user in db.users
  {
    hide Inv, Abort, TotalChunks;
    ActiveOwnerExists(sha, db, NoteOf(k));
  }

  lemma ExactCount(db: Db, upload: Uuid)
    requires SessionsExact(db.sessions, db.staged) && upload in db.sessions && db.sessions[upload].status == InProgress
    ensures db.sessions[upload].received == |StagedIndices(db.staged, upload)|
  {
    hide StagedIndices;
  }
}
