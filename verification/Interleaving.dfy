/** Chunk uploads in three steps: several clients open the session, look for the
    staged row and commit, with anything happening in between. */
module Interleaving {
  import opened Prelude
  import opened ChunkMath
  import opened CompositeEtag
  import opened Tables
  import opened NoteService
  import opened Uploads
  import opened Invariants
  import opened UploadProofs
  import opened Machine
  import opened SessionSafety

  /** What a request in flight remembers: the session row it loaded, and, once it
      has looked, the staged row it found. */
  datatype Pending = Pending(
    upload: Uuid, index: int, data: Bytes, seen: SessionRow, looked: Option<Option<Bytes>>)

  datatype World = World(db: Db, clients: map<nat, Pending>)

  datatype Step =
    | Atomic(request: Request)
    | Open(client: nat, att: AttKey, upload: Uuid, index: int, data: Bytes, clock: Clock)
    | Look(client: nat)
    | Commit(client: nat)
    | Disconnect(client: nat)

  // ----- the three parts of upload_chunk -----

  /** Up to and including the length check. */
  function OpenChunk(db: Db, k: AttKey, upload: Uuid, index: int, data: Bytes, t: Clock): (Db, Outcome<Pending>) {
    var (db1, got) := OpenSession(db, k, upload, t);
    match got
    case Fail(e) => (db1, Fail(e))
    case Crash => (db1, Crash)
    case Ok(s) =>
      if ChunkLengthOf(s, index) != Some(|data|) then (db1, Fail(Validation))
      else (db1, Ok(Pending(upload, index, data, s, None)))
  }

  function LookUp(db: Db, p: Pending): (q: Pending)
    ensures q == p.(looked := q.looked) && q.looked.Some?
  {
    var key := StageKey(p.upload, p.index);
    p.(looked := Some(if key in db.staged then Some(db.staged[key]) else None))
  }

  /** The counter is written as one more than the value loaded when the session was
      opened. A violated key or a vanished row rolls everything back. */
  function CommitChunk(db: Db, p: Pending): (Db, Outcome<()>)
    requires p.looked.Some?
  {
    var key := StageKey(p.upload, p.index);
    match p.looked.value
    case None =>
      if key in db.staged || p.upload !in db.sessions then (db, Crash)
      else (db.(staged := db.staged[key := p.data],
                sessions := db.sessions[p.upload := db.sessions[p.upload].(received := p.seen.received + 1)]),
            Ok(()))
    case Some(before) =>
      if before == p.data then (db, Ok(()))       // nothing to update
      else if key !in db.staged then (db, Crash)  // the row to update is gone
      else (db.(staged := db.staged[key := p.data]), Ok(()))
  }

  /** With nothing in between, the three parts are the atomic request. */
  lemma BackToBack(db: Db, k: AttKey, upload: Uuid, index: int, data: Bytes, t: Clock)
    ensures match OpenChunk(db, k, upload, index, data, t)
            case (db1, Ok(p)) => PutChunk(db, k, upload, index, data, t) == CommitChunk(db1, LookUp(db1, p))
            case (db1, Fail(e)) => PutChunk(db, k, upload, index, data, t) == (db1, Fail(e))
            case (db1, Crash) => PutChunk(db, k, upload, index, data, t) == (db1, Crash)
  {
    hide OpenSession, ChunkLengthOf;
    var (db1, p) := OpenChunk(db, k, upload, index, data, t);
    if p.Ok? && StageKey(upload, index) in db1.staged && db1.staged[StageKey(upload, index)] == data {
      assert db1.staged[StageKey(upload, index) := data] == db1.staged;
    }
  }

  function Next(sha: Bytes -> Digest, w: World, step: Step): World {
    match step
    case Atomic(r) => w.(db := Apply(sha, w.db, r).0)
    case Open(c, k, upload, index, data, t) =>
      if c in w.clients || k.user !in w.db.users then w else
      var (db1, p) := OpenChunk(w.db, k, upload, index, data, t);
      World(db1, if p.Ok? then w.clients[c := p.value] else w.clients)
    case Look(c) =>
      if c !in w.clients || w.clients[c].looked.Some? then w
      else w.(clients := w.clients[c := LookUp(w.db, w.clients[c])])
    case Commit(c) =>
      if c !in w.clients || w.clients[c].looked.None? then w
      else World(CommitChunk(w.db, w.clients[c]).0, w.clients - {c})
    case Disconnect(c) => w.(clients := w.clients - {c})
  }

  /** Session ids are never issued twice, so none in use by a client is issued anew. */
  predicate Admissible(w: World, step: Step) {
    step.Atomic? && step.request.StartUpload? ==>
      forall c | c in w.clients :: w.clients[c].upload != step.request.upload
  }

  function RunWorld(sha: Bytes -> Digest, w: World, steps: seq<Step>): World {
    if steps == [] then w
    else Next(sha, RunWorld(sha, w, steps[..|steps| - 1]), steps[|steps| - 1])
  }

  predicate AdmissibleRun(sha: Bytes -> Digest, w: World, steps: seq<Step>) {
    steps == []
    || (&& AdmissibleRun(sha, w, steps[..|steps| - 1])
        && Admissible(RunWorld(sha, w, steps[..|steps| - 1]), steps[|steps| - 1]))
  }

  lemma RunWorldSnoc(sha: Bytes -> Digest, w: World, steps: seq<Step>, step: Step)
    ensures RunWorld(sha, w, steps + [step]) == Next(sha, RunWorld(sha, w, steps), step)
    ensures AdmissibleRun(sha, w, steps + [step]) <==>
              AdmissibleRun(sha, w, steps) && Admissible(RunWorld(sha, w, steps), step)
  {
    hide Next, Admissible;
    assert (steps + [step])[..|steps|] == steps;
  }

  // ----- what holds of a request in flight -----

  /** Its session, if still there, is the one it loaded but for counter and status;
      while that is in progress the value it loaded is covered by staged rows, and if
      it equals their number nobody has counted since. */
  ghost predicate PendingOk(db: Db, p: Pending) {
    && SessionShapeOk(p.seen) && ChunkLengthOf(p.seen, p.index) == Some(|p.data|)
    && (p.upload in db.sessions ==> SameFixed(p.seen, db.sessions[p.upload]))
    && (InProgressIn(db, p.upload) ==>
          && p.seen.received <= |StagedIndices(db.staged, p.upload)|
          && (p.seen.received == |StagedIndices(db.staged, p.upload)| ==>
                db.sessions[p.upload].received == p.seen.received))
  }

  ghost predicate SameFixed(before: SessionRow, after: SessionRow) {
    after == before.(received := after.received, status := after.status)
  }

  ghost predicate WorldOk(sha: Bytes -> Digest, w: World) {
    Inv(sha, w.db) && forall c :: c in w.clients ==> PendingOk(w.db, w.clients[c])
  }

  /** SessionsMove without the counter, which a late commit may set back. */
  ghost predicate SessionsKept(db: Db, db': Db) {
    && (forall u :: u in db.sessions && u in db'.sessions ==>
          SameFixed(db.sessions[u], db'.sessions[u])
          && (db.sessions[u].status == Aborted ==> db'.sessions[u].status == Aborted))
    && (forall s :: s in db.staged && s.upload in db.sessions && InProgressIn(db', s.upload) ==> s in db'.staged)
    && (forall u | u in db.sessions && InProgressIn(db', u) ::
          |StagedIndices(db'.staged, u)| == |StagedIndices(db.staged, u)| ==>
          db'.sessions[u].received == db.sessions[u].received)
  }

  lemma MovedAreKept(db: Db, db': Db)
    requires SessionsMove(db, db')
    ensures SessionsKept(db, db')
  {
    hide StagedIndices;
    assert forall u :: u in db.sessions && InProgressIn(db', u) ==> Uncounted(db', u) == Uncounted(db, u);
  }

  /** A request in flight is as good as before after any step that keeps sessions. */
  lemma PendingSurvives(db: Db, db': Db, p: Pending)
    requires PendingOk(db, p) && SessionsKept(db, db') && (p.upload in db'.sessions ==> p.upload in db.sessions)
    ensures PendingOk(db', p)
  {
    hide StagedIndices, ChunkLengthOf;
    if InProgressIn(db', p.upload) {
      assert StagedIndices(db.staged, p.upload) <= StagedIndices(db'.staged, p.upload) by {
        forall i | i in StagedIndices(db.staged, p.upload) ensures i in StagedIndices(db'.staged, p.upload) {
          StagedIndex(db.staged, p.upload, i);
          StagedIndex(db'.staged, p.upload, i);
          assert StageKey(p.upload, i) in db.staged;
        }
      }
      SubsetSize(StagedIndices(db.staged, p.upload), StagedIndices(db'.staged, p.upload));
    }
  }

  // ----- the steps keep it -----

  lemma AtomicKeeps(sha: Bytes -> Digest, w: World, r: Request)
    requires WorldOk(sha, w) && Admissible(w, Atomic(r))
    ensures WorldOk(sha, Next(sha, w, Atomic(r)))
  {
    hide Inv, Apply, PendingOk, SessionsKept, SessionsMove;
    var db' := Apply(sha, w.db, r).0;
    StepKeeps(sha, w.db, r);
    StepMoves(sha, w.db, r);
    MovedAreKept(w.db, db');
    forall c | c in w.clients ensures PendingOk(db', w.clients[c]) {
      PendingSurvives(w.db, db', w.clients[c]);
    }
  }

  lemma OpenedPendingOk(sha: Bytes -> Digest, db: Db, k: AttKey, upload: Uuid, index: int, data: Bytes, t: Clock)
    requires Inv(sha, db)
    ensures var (db1, p) := OpenChunk(db, k, upload, index, data, t);
            && Inv(sha, db1) && SessionsKept(db, db1) && db1.sessions.Keys == db.sessions.Keys
            && (p.Ok? ==> PendingOk(db1, p.value))
  {
    hide Inv, OpenSession, ChunkLengthOf, SessionsMove, SessionsKept, StagedIndices;
    var db1 := OpenSession(db, k, upload, t).0;
    OpenSessionKeeps(sha, db, k, upload, t);
    OpenSessionMoves(db, k, upload, t);
    MovedAreKept(db, db1);
    SessionsOfInv(sha, db1);
  }

  lemma OpenKeeps(sha: Bytes -> Digest, w: World, step: Step)
    requires WorldOk(sha, w) && step.Open?
    ensures WorldOk(sha, Next(sha, w, step))
  {
    hide Inv, OpenChunk, PendingOk, SessionsKept;
    var (db1, p) := OpenChunk(w.db, step.att, step.upload, step.index, step.data, step.clock);
    OpenedPendingOk(sha, w.db, step.att, step.upload, step.index, step.data, step.clock);
    forall c | c in w.clients ensures PendingOk(db1, w.clients[c]) {
      PendingSurvives(w.db, db1, w.clients[c]);
    }
  }

  lemma LookKeeps(sha: Bytes -> Digest, w: World, c: nat)
    requires WorldOk(sha, w)
    ensures WorldOk(sha, Next(sha, w, Look(c)))
  {
    hide Inv, LookUp, SessionShapeOk, ChunkLengthOf, StagedIndices;
  }

  ghost predicate Inserts(db: Db, db': Db, p: Pending) {
    && p.upload in db.sessions && StageKey(p.upload, p.index) !in db.staged
    && OnlyUploads(db, db') && db'.staged == db.staged[StageKey(p.upload, p.index) := p.data]
    && db'.sessions == db.sessions[p.upload := db.sessions[p.upload].(received := p.seen.received + 1)]
  }

  ghost predicate Overwrites(db: Db, db': Db, p: Pending) {
    && StageKey(p.upload, p.index) in db.staged && OnlyUploads(db, db')
    && db'.staged == db.staged[StageKey(p.upload, p.index) := p.data] && db'.sessions == db.sessions
  }

  lemma CommitShape(db: Db, p: Pending)
    requires p.looked.Some?
    ensures var db' := CommitChunk(db, p).0; db' == db || Inserts(db, db', p) || Overwrites(db, db', p)
  {
  }

  /** A commit succeeds exactly if the row it found missing is still missing and the
      session is there, or if the row it found is still there or needs no change; it then
      leaves its bytes in that row. A failed one changes nothing. */
  lemma CommitAnswers(db: Db, p: Pending)
    requires p.looked.Some?
    ensures var (db', out) := CommitChunk(db, p);
            var key := StageKey(p.upload, p.index);
            && (out.Ok? <==> match p.looked.value
                             case None => key !in db.staged && p.upload in db.sessions
                             case Some(before) => before == p.data || key in db.staged)
            && (!out.Ok? ==> db' == db && out == Crash)
            && (out.Ok? ==> if p.looked.value.None? then Inserts(db, db', p)
                            else if p.looked.value.value == p.data then db' == db
                            else Overwrites(db, db', p))
  {
  }

  lemma CommitKeepsSessionsKept(db: Db, p: Pending)
    requires p.looked.Some?
    ensures SessionsKept(db, CommitChunk(db, p).0) && CommitChunk(db, p).0.sessions.Keys == db.sessions.Keys
  {
    hide CommitChunk, SessionsKept;
    var db' := CommitChunk(db, p).0;
    CommitShape(db, p);
    if Inserts(db, db', p) {
      InsertKept(db, db', p);
    } else {
      OverwriteKept(db, db');
    }
  }

  lemma InsertKept(db: Db, db': Db, p: Pending)
    requires Inserts(db, db', p)
    ensures SessionsKept(db, db')
  {
    hide StagedIndices;
    StagedIndicesInserted(db.staged, p.upload, p.index, p.data);
    StagedIndex(db.staged, p.upload, p.index);
  }

  lemma OverwriteKept(db: Db, db': Db)
    requires db'.sessions == db.sessions && db.staged.Keys <= db'.staged.Keys
    ensures SessionsKept(db, db')
  {
  }

  lemma OverwriteKeeps(db: Db, db': Db, p: Pending)
    requires SessionsOk(db.sessions, db.staged) && Overwrites(db, db', p)
    requires p.upload in db.sessions ==> 0 <= p.index < db.sessions[p.upload].expected
    requires p.upload in db.sessions ==> |p.data| == SliceLength(db.sessions[p.upload].totalSize, p.index)
    ensures SessionsOk(db'.sessions, db'.staged)
  {
    hide StagedIndices, SliceLength, SessionShapeOk;
    forall u: Uuid ensures StagedIndices(db'.staged, u) == StagedIndices(db.staged, u) {
      StagedIndicesSame(db.staged, db'.staged, u);
    }
  }

  /** An inserted row makes up for the counter being written, whatever it was before. */
  lemma InsertKeeps(db: Db, db': Db, p: Pending)
    requires SessionsOk(db.sessions, db.staged) && Inserts(db, db', p)
    requires 0 <= p.index < db.sessions[p.upload].expected
             && |p.data| == SliceLength(db.sessions[p.upload].totalSize, p.index)
    requires InProgressIn(db, p.upload) ==> p.seen.received <= |StagedIndices(db.staged, p.upload)|
    requires p.seen.received >= 0
    ensures SessionsOk(db'.sessions, db'.staged)
  {
    hide StagedIndices, SliceLength, ChunkCount;
    StagedIndicesInserted(db.staged, p.upload, p.index, p.data);
    StagedIndex(db.staged, p.upload, p.index);
    forall u: Uuid | u != p.upload ensures StagedIndices(db'.staged, u) == StagedIndices(db.staged, u) {
      StagedIndicesSame(db.staged, db'.staged, u);
    }
  }

  lemma AdmittedPending(db: Db, p: Pending)
    requires PendingOk(db, p) && p.upload in db.sessions
    ensures 0 <= p.index < db.sessions[p.upload].expected
    ensures |p.data| == SliceLength(db.sessions[p.upload].totalSize, p.index)
    ensures p.seen.received >= 0
  {
    hide StagedIndices, SliceLength, ChunkLengthOf;
    AdmittedLength(p.seen, p.index, |p.data|);
  }

  lemma CommitKeepsSessionsOk(db: Db, p: Pending)
    requires SessionsOk(db.sessions, db.staged) && PendingOk(db, p) && p.looked.Some?
    ensures SessionsOk(CommitChunk(db, p).0.sessions, CommitChunk(db, p).0.staged)
  {
    hide CommitChunk, SessionsOk, StagedIndices, SliceLength, ChunkLengthOf, SessionShapeOk, SameFixed;
    var db' := CommitChunk(db, p).0;
    CommitShape(db, p);
    if p.upload in db.sessions {
      AdmittedPending(db, p);
    }
    if db' == db {
    } else if Inserts(db, db', p) {
      InsertKeeps(db, db', p);
    } else {
      OverwriteKeeps(db, db', p);
    }
  }

  lemma CommitKeepsInv(sha: Bytes -> Digest, db: Db, p: Pending)
    requires Inv(sha, db) && PendingOk(db, p) && p.looked.Some?
    ensures Inv(sha, CommitChunk(db, p).0)
  {
    hide ChunksOk, SyncOk, ContentOnlyUnderActive, StampsFit, SessionsOk, UsersOk, VaultsOk, SharesOk, PendingOk,
      CommitChunk;
    var db' := CommitChunk(db, p).0;
    CommitKeepsSessionsOk(db, p);
    CommitShape(db, p);
    SameOwners(db, db', p);
    UploadTablesReplaced(sha, db, db');
  }

  lemma SameOwners(db: Db, db': Db, p: Pending)
    requires db' == db || Inserts(db, db', p) || Overwrites(db, db', p)
    ensures OnlyUploads(db, db')
    ensures forall u :: u in db'.sessions ==> u in db.sessions && db'.sessions[u].att == db.sessions[u].att
  {
    if db' == db {
    } else if Inserts(db, db', p) {
    } else {
    }
  }

  lemma UploadTablesReplaced(sha: Bytes -> Digest, db: Db, db': Db)
    requires Inv(sha, db) && OnlyUploads(db, db') && SessionsOk(db'.sessions, db'.staged)
    requires forall u :: u in db'.sessions ==> u in db.sessions && db'.sessions[u].att == db.sessions[u].att
    ensures Inv(sha, db')
  {
    hide ChunksOk, SyncOk, ContentOnlyUnderActive, StampsFit, SessionsOk, UsersOk, VaultsOk, SharesOk;
  }

  lemma CommitKeeps(sha: Bytes -> Digest, w: World, c: nat)
    requires WorldOk(sha, w)
    ensures WorldOk(sha, Next(sha, w, Commit(c)))
  {
    hide Inv, PendingOk, SessionsKept, CommitChunk;
    if c in w.clients && w.clients[c].looked.Some? {
      var db' := CommitChunk(w.db, w.clients[c]).0;
      CommitKeepsInv(sha, w.db, w.clients[c]);
      CommitKeepsSessionsKept(w.db, w.clients[c]);
      forall d | d in w.clients ensures PendingOk(db', w.clients[d]) {
        PendingSurvives(w.db, db', w.clients[d]);
      }
    }
  }

  lemma WorldStepKeeps(sha: Bytes -> Digest, w: World, step: Step)
    requires WorldOk(sha, w) && Admissible(w, step)
    ensures WorldOk(sha, Next(sha, w, step))
  {
    hide Inv, PendingOk, Next, Admissible;
    match step
    case Atomic(r) => AtomicKeeps(sha, w, r);
    case Open(_, _, _, _, _, _) => OpenKeeps(sha, w, step);
    case Look(c) => LookKeeps(sha, w, c);
    case Commit(c) => CommitKeeps(sha, w, c);
    case Disconnect(c) => DisconnectKeeps(sha, w, c);
  }

  lemma DisconnectKeeps(sha: Bytes -> Digest, w: World, c: nat)
    requires WorldOk(sha, w)
    ensures WorldOk(sha, Next(sha, w, Disconnect(c)))
  {
    hide Inv, PendingOk;
  }

  lemma {:induction false} WorldRunKeeps(sha: Bytes -> Digest, w: World, steps: seq<Step>)
    requires WorldOk(sha, w) && AdmissibleRun(sha, w, steps)
    ensures WorldOk(sha, RunWorld(sha, w, steps))
  {
    hide WorldOk, Next, Admissible;
    if steps != [] {
      WorldRunKeeps(sha, w, steps[..|steps| - 1]);
      WorldStepKeeps(sha, RunWorld(sha, w, steps[..|steps| - 1]), steps[|steps| - 1]);
    }
  }

  // ----- the safety results -----

  /** However chunk uploads interleave, the invariants of the store hold: among
      them, a session in progress never counts more rows than are staged, and every
      staged row is in range with the length of its slice. */
  lemma InterleavedReachable(sha: Bytes -> Digest, steps: seq<Step>)
    requires AdmissibleRun(sha, World(EMPTY_DB, map[]), steps)
    ensures var db := RunWorld(sha, World(EMPTY_DB, map[]), steps).db;
            && Inv(sha, db)
            && (forall u :: InProgressIn(db, u) ==> db.sessions[u].received <= |StagedIndices(db.staged, u)|)
            && (forall s :: s in db.staged ==> s.upload in db.sessions && 0 <= s.index < db.sessions[s.upload].expected)
  {
    hide ChunksOk, SyncOk, ContentOnlyUnderActive, StampsFit, UsersOk, VaultsOk, SharesOk, KeysOk,
      StagedIndices, SliceLength,
      RunWorld, PendingOk, SessionShapeOk, AdmissibleRun;
    EmptyDbOk(sha);
    WorldRunKeeps(sha, World(EMPTY_DB, map[]), steps);
  }

  /** A completion that succeeds after any interleaving promotes every index of
      0..n-1, each with its right length, and the whole has the size announced. */
  lemma InterleavedCompleteIsWhole(
    sha: Bytes -> Digest, steps: seq<Step>, k: AttKey, upload: Uuid,
    ifMatch: Option<string>, contentType: Option<string>, t: Clock, stamp: Epoch)
    requires AdmissibleRun(sha, World(EMPTY_DB, map[]), steps)
    requires Complete(sha, RunWorld(sha, World(EMPTY_DB, map[]), steps).db,
               k, upload, ifMatch, contentType, t, stamp).1.Ok?
    ensures var db := RunWorld(sha, World(EMPTY_DB, map[]), steps).db;
            var (db', out) := Complete(sha, db, k, upload, ifMatch, contentType, t, stamp);
            && upload in db.sessions && out.value.size == db.sessions[upload].totalSize
            && StagedIndices(db.staged, upload) == Below(ChunkCount(out.value.size))
            && k in db'.attachments && db'.attachments[k].size == out.value.size
            && (forall i :: 0 <= i < ChunkCount(out.value.size) ==>
                  && StageKey(upload, i) in db.staged && ChunkKey(k, i) in db'.chunks
                  && db'.chunks[ChunkKey(k, i)] == db.staged[StageKey(upload, i)]
                  && |db.staged[StageKey(upload, i)]| == SliceLength(out.value.size, i))
            && (forall c: ChunkKey :: c.att == k && c in db'.chunks ==> 0 <= c.index < ChunkCount(out.value.size))
  {
    hide Inv, RunWorld, AdmissibleRun, Complete, StagedIndices, SliceLength, ChunkCount;
    InterleavedReachable(sha, steps);
    var db := RunWorld(sha, World(EMPTY_DB, map[]), steps).db;
    CompleteIsWhole(sha, db, k, upload, ifMatch, contentType, t, stamp);
  }

  lemma CompleteIsWhole(
    sha: Bytes -> Digest, db: Db, k: AttKey, upload: Uuid,
    ifMatch: Option<string>, contentType: Option<string>, t: Clock, stamp: Epoch)
    requires Inv(sha, db) && Complete(sha, db, k, upload, ifMatch, contentType, t, stamp).1.Ok?
    ensures var (db', out) := Complete(sha, db, k, upload, ifMatch, contentType, t, stamp);
            && upload in db.sessions && out.value.size == db.sessions[upload].totalSize
            && StagedIndices(db.staged, upload) == Below(ChunkCount(out.value.size))
            && k in db'.attachments && db'.attachments[k].size == out.value.size
            && (forall i :: 0 <= i < ChunkCount(out.value.size) ==>
                  && StageKey(upload, i) in db.staged && ChunkKey(k, i) in db'.chunks
                  && db'.chunks[ChunkKey(k, i)] == db.staged[StageKey(upload, i)]
                  && |db.staged[StageKey(upload, i)]| == SliceLength(out.value.size, i))
            && (forall c: ChunkKey :: c.att == k && c in db'.chunks ==> 0 <= c.index < ChunkCount(out.value.size))
  {
    hide Inv, OpenSession, Finalize, StagedParts, TotalLength, StagedIndices, SliceLength, ChunkCount, Promote, Join;
    var (db1, got) := OpenSession(db, k, upload, t);
    OpenSessionKeeps(sha, db, k, upload, t);
    OpenedUnchanged(db, k, upload, t);
    SessionsOfInv(sha, db1);
    var size := got.value.totalSize;
    AllStaged(db1, upload);
    StagedIndicesSame(db.staged, db1.staged, upload);
    FinalizeSuccess(sha, db1, k, upload, size, contentType, ifMatch, stamp);
    FinalizeReply(sha, db1, k, upload, size, contentType, ifMatch, stamp);
    var chunks := Promote(db1.chunks, db1.staged, k, upload);
    forall c: ChunkKey | c.att == k
      ensures c in chunks <==> StageKey(upload, c.index) in db1.staged
      ensures c in chunks ==> chunks[c] == db1.staged[StageKey(upload, c.index)]
    {
      PromotedChunks(db1.chunks, db1.staged, k, upload, c);
    }
    forall i | 0 <= i < ChunkCount(size)
      ensures StageKey(upload, i) in db.staged && ChunkKey(k, i) in chunks
      ensures chunks[ChunkKey(k, i)] == db.staged[StageKey(upload, i)]
      ensures |db.staged[StageKey(upload, i)]| == SliceLength(size, i)
    {
      assert StageKey(upload, i) in db1.staged;
      assert ChunkKey(k, i).att == k;
    }
  }

  /** The counter is only a lower bound: two clients that loaded the same session
      and staged different chunks leave two rows but count one. */
  lemma LostUpdate(db: Db, p: Pending, q: Pending)
    requires p.looked == q.looked == Some(None) && p.seen == q.seen && p.upload == q.upload && p.index != q.index
    requires p.upload in db.sessions && db.sessions[p.upload] == p.seen
             && p.seen.received == |StagedIndices(db.staged, p.upload)|
    requires StageKey(p.upload, p.index) !in db.staged && StageKey(p.upload, q.index) !in db.staged
    ensures var (db1, first) := CommitChunk(db, p);
            var (db2, second) := CommitChunk(db1, q);
            && first.Ok? && second.Ok?
            && p.upload in db2.sessions
            && db2.sessions[p.upload].received == p.seen.received + 1
            && |StagedIndices(db2.staged, p.upload)| == p.seen.received + 2
  {
    hide StagedIndices;
    var db1 := CommitChunk(db, p).0;
    StagedIndicesInserted(db.staged, p.upload, p.index, p.data);
    StagedIndex(db.staged, p.upload, p.index);
    StagedIndicesInserted(db1.staged, p.upload, q.index, q.data);
    StagedIndex(db1.staged, p.upload, q.index);
  }
}
