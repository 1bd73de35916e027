/** When received_chunks is the number of staged chunks, and what becomes of an upload
    for which it is not. */
module Counting {
  import opened Prelude
  import opened ChunkMath
  import opened CompositeEtag
  import opened Buffer
  import opened Tables
  import opened Uploads
  import opened Invariants
  import opened UploadProofs
  import opened Machine
  import opened SessionSafety
  import opened RoundTrip
  import opened Interleaving

  const START := World(EMPTY_DB, map[])

  // ----- one commit -----

  /** The commit inserts a row for the upload. */
  predicate InsertsInto(w: World, step: Step, upload: Uuid) {
    && step.Commit? && step.client in w.clients
    && var p := w.clients[step.client];
    && p.upload == upload && p.looked == Some(None) && CommitChunk(w.db, p).1.Ok?
  }

  /** ... and the counter it had loaded is no longer the stored one. */
  predicate StaleInsert(w: World, step: Step, upload: Uuid) {
    && InsertsInto(w, step, upload) && upload in w.db.sessions
    && w.clients[step.client].seen.received != w.db.sessions[upload].received
  }

  /** A commit that inserts keeps an exact counter exact if and only if the value it
      loaded is still the stored one. */
  lemma CommitExactIff(db: Db, p: Pending)
    requires p.looked == Some(None) && CommitChunk(db, p).1.Ok?
    requires p.upload in db.sessions && Uncounted(db, p.upload) == 0
    ensures p.upload in CommitChunk(db, p).0.sessions
    ensures Uncounted(CommitChunk(db, p).0, p.upload) == 0 <==> p.seen.received == db.sessions[p.upload].received
  {
    hide StagedIndices;
    InsertUncounted(db, p);
  }

  lemma InsertUncounted(db: Db, p: Pending)
    requires p.looked == Some(None) && CommitChunk(db, p).1.Ok?
    ensures p.upload in db.sessions && p.upload in CommitChunk(db, p).0.sessions
    ensures Uncounted(CommitChunk(db, p).0, p.upload) == |StagedIndices(db.staged, p.upload)| - p.seen.received
  {
    hide StagedIndices;
    StagedIndicesInserted(db.staged, p.upload, p.index, p.data);
    StagedIndex(db.staged, p.upload, p.index);
  }

  lemma OverwriteUncounted(db: Db, p: Pending, u: Uuid)
    requires p.looked.Some? && u in db.sessions && (p.looked.value.Some? || !CommitChunk(db, p).1.Ok? || p.upload != u)
    ensures u in CommitChunk(db, p).0.sessions && CommitChunk(db, p).0.sessions[u] == db.sessions[u]
    ensures Uncounted(CommitChunk(db, p).0, u) == Uncounted(db, u)
  {
    hide StagedIndices, CommitChunk;
    var after := CommitChunk(db, p).0;
    CommitShape(db, p);
    if after == db {
    } else if Inserts(db, after, p) {
      InsertedElsewhere(db, p, u);
      StagedIndicesSame(db.staged, after.staged, u);
    } else {
      StagedIndicesSame(db.staged, after.staged, u);
    }
  }

  lemma InsertedElsewhere(db: Db, p: Pending, u: Uuid)
    requires p.looked.Some? && (p.looked.value.Some? || !CommitChunk(db, p).1.Ok? || p.upload != u)
    requires Inserts(db, CommitChunk(db, p).0, p)
    ensures p.upload != u
  {
  }

  // ----- one step -----

  lemma NothingUncounted(sha: Bytes -> Digest, db: Db, u: Uuid)
    requires Inv(sha, db) && InProgressIn(db, u)
    ensures Uncounted(db, u) >= 0
  {
    hide StagedIndices;
    SessionsOfInv(sha, db);
    CountIsBound(db, u);
  }

  lemma CountIsBound(db: Db, u: Uuid)
    requires SessionsOk(db.sessions, db.staged) && InProgressIn(db, u)
    ensures db.sessions[u].received <= |StagedIndices(db.staged, u)|
  {
    hide StagedIndices, SliceLength, SessionShapeOk;
  }

  lemma OpenMoves(sha: Bytes -> Digest, w: World, step: Step)
    requires step.Open?
    ensures SessionsMove(w.db, Next(sha, w, step).db) && Next(sha, w, step).db.sessions.Keys == w.db.sessions.Keys
  {
    hide OpenSession, ChunkLengthOf, SessionsMove;
    StaysPut(w.db);
    OpenSessionMoves(w.db, step.att, step.upload, step.clock);
  }

  /** Every step but a commit moves sessions forward, and starts at most the one named. */
  lemma OtherStepMoves(sha: Bytes -> Digest, w: World, step: Step)
    requires !step.Commit?
    ensures SessionsMove(w.db, Next(sha, w, step).db)
    ensures forall u :: u in Next(sha, w, step).db.sessions ==>
              u in w.db.sessions || (step.Atomic? && step.request.StartUpload? && step.request.upload == u)
  {
    hide Apply, OpenChunk, SessionsMove;
    match step
    case Atomic(r) => StepMoves(sha, w.db, r);
    case Open(_, _, _, _, _, _) => OpenMoves(sha, w, step);
    case Look(_) => StaysPut(w.db);
    case Disconnect(_) => StaysPut(w.db);
  }

  /** A session that a step starts counts nothing, and nothing is staged. */
  lemma FreshlyCounted(sha: Bytes -> Digest, w: World, r: Request, u: Uuid)
    requires WorldOk(sha, w) && u !in w.db.sessions && u in Apply(sha, w.db, r).0.sessions
    ensures Uncounted(Apply(sha, w.db, r).0, u) == 0
  {
    hide Apply, Init, Inv, StagedIndices, PendingOk;
    StepMoves(sha, w.db, r);
    StartedBy(sha, w.db, r);
    OwnerOfInit(sha, w.db, r.att, r.totalSize, u, r.clock);
    SessionStarted(w.db, r.att, r.totalSize, u, r.clock);
    var db' := Apply(sha, w.db, r).0;
    forall i ensures i !in StagedIndices(db'.staged, u) {
      NothingStagedYet(sha, w.db, r.att, r.totalSize, u, r.clock, i);
      StagedIndex(db'.staged, u, i);
    }
    assert StagedIndices(db'.staged, u) == {};
  }

  lemma StartedBy(sha: Bytes -> Digest, db: Db, r: Request)
    requires r.StartUpload? && r.upload !in db.sessions && r.upload in Apply(sha, db, r).0.sessions
    ensures Init(db, r.att, r.totalSize, r.upload, r.clock).1.Ok?
    ensures Apply(sha, db, r).0 == Init(db, r.att, r.totalSize, r.upload, r.clock).0
  {
    hide Init;
    InitShape(db, r.att, r.totalSize, r.upload, r.clock);
  }

  /** Over one step, for a session in progress afterwards: a stale insert leaves rows
      uncounted; any other step leaves rows uncounted exactly if some were before. */
  lemma StepCounts(sha: Bytes -> Digest, w: World, step: Step, u: Uuid)
    requires WorldOk(sha, w) && Admissible(w, step) && InProgressIn(Next(sha, w, step).db, u)
    ensures u !in w.db.sessions ==> Uncounted(Next(sha, w, step).db, u) == 0 && !StaleInsert(w, step, u)
    ensures u in w.db.sessions ==>
              && InProgressIn(w.db, u)
              && (StaleInsert(w, step, u) ==> Uncounted(Next(sha, w, step).db, u) > 0)
              && (!StaleInsert(w, step, u) ==> Uncounted(Next(sha, w, step).db, u) == Uncounted(w.db, u))
  {
    hide Inv, Apply, CommitChunk, OpenChunk, StagedIndices, PendingOk, Admissible;
    if step.Commit? {
      CommitCounts(sha, w, step.client, u);
    } else {
      OtherStepMoves(sha, w, step);
      if u !in w.db.sessions {
        FreshlyCounted(sha, w, step.request, u);
      }
    }
  }

  lemma CommitCounts(sha: Bytes -> Digest, w: World, c: nat, u: Uuid)
    requires WorldOk(sha, w) && InProgressIn(Next(sha, w, Commit(c)).db, u)
    ensures InProgressIn(w.db, u)
    ensures StaleInsert(w, Commit(c), u) ==> Uncounted(Next(sha, w, Commit(c)).db, u) > 0
    ensures !StaleInsert(w, Commit(c), u) ==> Uncounted(Next(sha, w, Commit(c)).db, u) == Uncounted(w.db, u)
  {
    hide Inv, CommitChunk, StagedIndices, SessionShapeOk, ChunkLengthOf;
    if c in w.clients && w.clients[c].looked.Some? {
      var p := w.clients[c];
      CommitKeepsSessionsKept(w.db, p);
      CommitStatus(w.db, p, u);
      if InsertsInto(w, Commit(c), u) {
        InsertUncounted(w.db, p);
      } else {
        OverwriteUncounted(w.db, p, u);
      }
    }
  }

  lemma CommitStatus(db: Db, p: Pending, u: Uuid)
    requires p.looked.Some? && InProgressIn(CommitChunk(db, p).0, u)
    ensures InProgressIn(db, u)
  {
  }

  // ----- whole runs -----

  /** How many stale inserts went into the upload since it was last started. */
  function StaleInserts(sha: Bytes -> Digest, w: World, steps: seq<Step>, u: Uuid): nat {
    if steps == [] then 0 else
    var front, step := steps[..|steps| - 1], steps[|steps| - 1];
    var before := RunWorld(sha, w, front);
    (if u in before.db.sessions then StaleInserts(sha, w, front, u) else 0)
    + (if StaleInsert(before, step, u) then 1 else 0)
  }

  lemma {:induction false} CountsFrom(sha: Bytes -> Digest, w: World, steps: seq<Step>, u: Uuid)
    requires WorldOk(sha, w) && AdmissibleRun(sha, w, steps)
    requires u in w.db.sessions ==> Uncounted(w.db, u) == 0
    requires InProgressIn(RunWorld(sha, w, steps).db, u)
    ensures Uncounted(RunWorld(sha, w, steps).db, u) == 0 <==> StaleInserts(sha, w, steps, u) == 0
  {
    hide WorldOk, Next, Admissible, StaleInsert, Uncounted;
    if steps != [] {
      var front, step := steps[..|steps| - 1], steps[|steps| - 1];
      var before := RunWorld(sha, w, front);
      WorldRunKeeps(sha, w, front);
      StepCounts(sha, before, step, u);
      if u in before.db.sessions {
        CountsFrom(sha, w, front, u);
      }
    }
  }

  /** After any interleaving, a session in progress counts exactly its staged chunks if
      and only if no client has inserted a chunk into it, since it was started, on top
      of a counter that had moved after the client loaded it. Overlapping uploads that
      only overwrite, or whose counter did not move, do no harm. */
  lemma CountsExactlyIff(sha: Bytes -> Digest, steps: seq<Step>, u: Uuid)
    requires AdmissibleRun(sha, START, steps) && InProgressIn(RunWorld(sha, START, steps).db, u)
    ensures var db := RunWorld(sha, START, steps).db;
            db.sessions[u].received == |StagedIndices(db.staged, u)| <==> StaleInserts(sha, START, steps, u) == 0
  {
    hide RunWorld, AdmissibleRun, StaleInserts, Inv, StagedIndices;
    EmptyDbOk(sha);
    CountsFrom(sha, START, steps, u);
  }

  /** Nothing starts an upload under this id. */
  ghost predicate NeverStarted(steps: seq<Step>, u: Uuid) {
    forall s :: s in steps && s.Atomic? && s.request.StartUpload? ==> s.request.upload != u
  }

  lemma {:induction false} StaysShort(sha: Bytes -> Digest, w: World, steps: seq<Step>, u: Uuid)
    requires WorldOk(sha, w) && AdmissibleRun(sha, w, steps) && NeverStarted(steps, u)
    requires InProgressIn(w.db, u) ==> Uncounted(w.db, u) > 0
    ensures InProgressIn(RunWorld(sha, w, steps).db, u) ==> Uncounted(RunWorld(sha, w, steps).db, u) > 0
  {
    hide WorldOk, Next, Admissible, StaleInsert, Uncounted;
    if steps != [] {
      var front, step := steps[..|steps| - 1], steps[|steps| - 1];
      assert steps == front + [step];
      var before := RunWorld(sha, w, front);
      StaysShort(sha, w, front, u);
      WorldRunKeeps(sha, w, front);
      if InProgressIn(Next(sha, before, step).db, u) {
        StepCounts(sha, before, step, u);
        OnlyStartAdds(sha, before, step, u);
      }
    }
  }

  lemma OnlyStartAdds(sha: Bytes -> Digest, w: World, step: Step, u: Uuid)
    requires !(step.Atomic? && step.request.StartUpload? && step.request.upload == u)
    requires u in Next(sha, w, step).db.sessions
    ensures u in w.db.sessions
  {
    hide Apply, OpenChunk, CommitChunk, SessionsMove, SessionsKept;
    if step.Commit? {
      if step.client in w.clients && w.clients[step.client].looked.Some? {
        CommitKeepsSessionsKept(w.db, w.clients[step.client]);
      }
    } else {
      OtherStepMoves(sha, w, step);
    }
  }

  /** A lost count is never regained: whatever follows, no completion of that upload
      ever succeeds, even with every chunk staged. The client has to start anew. */
  lemma NeverCompletes(
    sha: Bytes -> Digest, w: World, steps: seq<Step>, k: AttKey, u: Uuid,
    ifMatch: Option<string>, contentType: Option<string>, t: Clock, stamp: Epoch)
    requires WorldOk(sha, w) && AdmissibleRun(sha, w, steps) && NeverStarted(steps, u)
    requires InProgressIn(w.db, u) && w.db.sessions[u].received != |StagedIndices(w.db.staged, u)|
    ensures !Complete(sha, RunWorld(sha, w, steps).db, k, u, ifMatch, contentType, t, stamp).1.Ok?
  {
    hide RunWorld, AdmissibleRun, Inv, PendingOk, StagedIndices, Complete, NeverStarted, StripQuotes;
    var db := RunWorld(sha, w, steps).db;
    NothingUncounted(sha, w.db, u);
    StaysShort(sha, w, steps, u);
    WorldRunKeeps(sha, w, steps);
    CompletesIffReady(sha, db, k, u, ifMatch, contentType, t, stamp);
  }
}
