/** A run of the service in which two overlapping chunk uploads leave an upload that
    has every chunk and can never be completed. */
module LostCount {
  import opened Prelude
  import opened ChunkMath
  import opened CompositeEtag
  import opened Tables
  import opened NoteService
  import opened Uploads
  import opened Accounts
  import opened Invariants
  import opened UploadProofs
  import opened NoteProofs
  import opened AccountProofs
  import opened Machine
  import opened Frames
  import opened SessionSafety
  import opened Interleaving
  import opened EndToEnd
  import opened Effects
  import opened Counting
  import BigEndian
  import Buffer
  import Utf8
  import Ssnt
  import Store

  const OWNER: Uuid := 1
  const NOTE := NoteKey(OWNER, 2)
  const ATTACHMENT := AttKey(OWNER, 2, 3)
  const UPLOAD: Uuid := 4
  const NOW := Clock(0, 0)
  const SIZE := CHUNK_SIZE + 1

  /** An empty note without attachments. */
  const FIELDS := Ssnt.Fields(2, "", 0, 0, 0, 0, [], [])

  function Token(): Digest {
    var zeros: seq<char> := seq(64, _ => '0');
    zeros
  }

  function Zeros(n: nat): Bytes {
    seq(n, _ => 0)
  }

  lemma FieldsFit()
    ensures FirstBody(FIELDS, NOTE)
  {
    hide BigEndian.Encode, BigEndian.Pow256;
    BigEndian.Widths();
    assert Utf8.Encode("") == [];
    assert Buffer.FitsPrefix([]);
    assert |Buffer.PutPrefixed([])| == 4;
    assert |Ssnt.PrintTail(FIELDS)| == 36;
  }

  ghost function Body(): Bytes {
    FieldsFit();
    Ssnt.Print(FIELDS)
  }

  /** Register, write a note, start an upload of two chunks. */
  ghost function Opening(): seq<Step> {
    [Atomic(RegisterUser(OWNER, "a@b.c", Token(), 0)),
     Atomic(PutNoteBody(OWNER, NOTE.note, Body(), None)),
     Atomic(StartUpload(ATTACHMENT, SIZE, UPLOAD, NOW))]
  }

  /** Client 0 sends the first chunk while client 1 sends the second. */
  function Race(): seq<Step> {
    [Open(0, ATTACHMENT, UPLOAD, 0, Zeros(CHUNK_SIZE), NOW),
     Open(1, ATTACHMENT, UPLOAD, 1, Zeros(1), NOW),
     Look(0), Look(1), Commit(0), Commit(1)]
  }

  const SESSION := SessionRow(ATTACHMENT, SIZE, CHUNK_SIZE, 0, 2, InProgress, UPLOAD_SESSION_TTL)

  /** One upload, freshly started, and nothing else going on. */
  ghost predicate Ready(w: World) {
    && OWNER in w.db.users && w.clients == map[]
    && w.db.sessions == map[UPLOAD := SESSION] && w.db.staged == map[]
  }

  function Accounted(): Db {
    Register(EMPTY_DB, OWNER, "a@b.c", Token(), 0).0
  }

  ghost function Written(sha: Bytes -> Digest): Db {
    PutBody(sha, Accounted(), NOTE, Body(), None).0
  }

  lemma AfterRegistering(sha: Bytes -> Digest)
    ensures OnlyAccounts(Accounted()) && OWNER in Accounted().users && Inv(sha, Accounted())
  {
    hide Inv, Register, Lower, Token;
    EmptyDbOk(sha);
    Registered(EMPTY_DB, OWNER, "a@b.c", Token(), 0);
    RegisterKeeps(sha, EMPTY_DB, OWNER, "a@b.c", Token(), 0);
  }

  lemma AfterWriting(sha: Bytes -> Digest)
    ensures Inv(sha, Written(sha)) && OWNER in Written(sha).users && Active(Written(sha).notes, NOTE)
    ensures Written(sha).sessions == map[] && Written(sha).staged == map[]
  {
    hide Inv, PutBody, Ssnt.Print, Ssnt.Parse, Ssnt.Printable, TouchesOnly, Accounted;
    FieldsFit();
    AfterRegistering(sha);
    FirstBodyAccepted(sha, Accounted(), NOTE, FIELDS);
    SuccessfulPut(sha, Accounted(), NOTE, Body(), None);
    PutBodyKeeps(sha, Accounted(), NOTE, Body(), None);
  }

  lemma OpeningApplies(sha: Bytes -> Digest)
    ensures Apply(sha, EMPTY_DB, Opening()[0].request).0 == Accounted()
    ensures OWNER in Accounted().users ==> Apply(sha, Accounted(), Opening()[1].request).0 == Written(sha)
  {
    hide Register, PutBody, Token, Body;
  }

  lemma StartFromNone(db: Db)
    requires db.sessions == map[] && db.staged == map[] && Active(db.notes, NOTE)
    ensures var db' := Init(db, ATTACHMENT, SIZE, UPLOAD, NOW).0;
            db'.sessions == map[UPLOAD := SESSION] && db'.staged == map[] && db'.users == db.users
  {
    hide FloatCeil;
    assert Cleanup(db, OWNER, 0).sessions == map[];
  }

  lemma StartApplies(sha: Bytes -> Digest, db: Db)
    requires OWNER in db.users
    ensures Apply(sha, db, Opening()[2].request).0 == Init(db, ATTACHMENT, SIZE, UPLOAD, NOW).0
  {
    hide Init, Token, Body;
  }

  lemma OpeningIsReady(sha: Bytes -> Digest)
    ensures AdmissibleRun(sha, START, Opening()) && Ready(RunWorld(sha, START, Opening()))
  {
    hide Inv, Init, Apply, Accounted, Written;
    var steps := Opening();
    assert steps == [] + [steps[0]] + [steps[1]] + [steps[2]];
    RunWorldSnoc(sha, START, [], steps[0]);
    RunWorldSnoc(sha, START, [] + [steps[0]], steps[1]);
    RunWorldSnoc(sha, START, [] + [steps[0]] + [steps[1]], steps[2]);
    AfterRegistering(sha);
    AfterWriting(sha);
    OpeningApplies(sha);
    StartFromNone(Written(sha));
    StartApplies(sha, Written(sha));
  }

  lemma OpensUnchanged(db: Db)
    requires db.sessions == map[UPLOAD := SESSION]
    ensures OpenSession(db, ATTACHMENT, UPLOAD, NOW) == (db, Ok(SESSION))
  {
    Store.AbortNone(db);
    assert Expired(db, OWNER, 0) == {};
  }

  lemma BothAdmitted()
    ensures ChunkLengthOf(SESSION, 0) == Some(|Zeros(CHUNK_SIZE)|)
    ensures ChunkLengthOf(SESSION, 1) == Some(|Zeros(1)|)
  {
  }

  ghost function First(): Pending {
    Pending(UPLOAD, 0, Zeros(CHUNK_SIZE), SESSION, Some(None))
  }

  ghost function Second(): Pending {
    Pending(UPLOAD, 1, Zeros(1), SESSION, Some(None))
  }

  /** Both clients have loaded the same counter and found no row. */
  lemma BothLooked(sha: Bytes -> Digest, w: World)
    requires Ready(w)
    ensures AdmissibleRun(sha, w, Race()[..4])
    ensures RunWorld(sha, w, Race()[..4]) == World(w.db, map[0 := First(), 1 := Second()])
  {
    hide OpenSession, ChunkLengthOf, Zeros;
    var steps := Race();
    assert steps[..4] == [] + [steps[0]] + [steps[1]] + [steps[2]] + [steps[3]];
    OpensUnchanged(w.db);
    BothAdmitted();
    var first := Pending(UPLOAD, 0, Zeros(CHUNK_SIZE), SESSION, None);
    var second := Pending(UPLOAD, 1, Zeros(1), SESSION, None);
    RunWorldSnoc(sha, w, [], steps[0]);
    assert RunWorld(sha, w, [] + [steps[0]]) == World(w.db, map[0 := first]);
    RunWorldSnoc(sha, w, [] + [steps[0]], steps[1]);
    assert RunWorld(sha, w, [] + [steps[0]] + [steps[1]]) == World(w.db, map[0 := first, 1 := second]);
    RunWorldSnoc(sha, w, [] + [steps[0]] + [steps[1]], steps[2]);
    assert RunWorld(sha, w, [] + [steps[0]] + [steps[1]] + [steps[2]]) == World(w.db, map[0 := First(), 1 := second]);
    RunWorldSnoc(sha, w, [] + [steps[0]] + [steps[1]] + [steps[2]], steps[3]);
  }

  lemma FirstCommit(db: Db)
    requires db.sessions == map[UPLOAD := SESSION] && db.staged == map[]
    ensures CommitChunk(db, First()).0.sessions == map[UPLOAD := SESSION.(received := 1)]
    ensures CommitChunk(db, First()).0.staged == map[StageKey(UPLOAD, 0) := Zeros(CHUNK_SIZE)]
  {
    hide Zeros;
  }

  lemma SecondCommit(db: Db)
    requires db.sessions == map[UPLOAD := SESSION.(received := 1)]
    requires db.staged == map[StageKey(UPLOAD, 0) := Zeros(CHUNK_SIZE)]
    ensures CommitChunk(db, Second()).0.sessions == map[UPLOAD := SESSION.(received := 1)]
    ensures CommitChunk(db, Second()).0.staged
         == map[StageKey(UPLOAD, 0) := Zeros(CHUNK_SIZE), StageKey(UPLOAD, 1) := Zeros(1)]
  {
    hide Zeros;
  }

  lemma NextCommit(sha: Bytes -> Digest, w: World, c: nat)
    requires c in w.clients && w.clients[c].looked.Some?
    ensures Admissible(w, Commit(c))
    ensures Next(sha, w, Commit(c)) == World(CommitChunk(w.db, w.clients[c]).0, w.clients - {c})
  {
    hide CommitChunk;
  }

  /** Both commit: two rows, counted once. */
  lemma BothCommitted(sha: Bytes -> Digest, w: World)
    requires Ready(w)
    ensures AdmissibleRun(sha, w, Race())
    ensures var db := RunWorld(sha, w, Race()).db;
            && db.sessions == map[UPLOAD := SESSION.(received := 1)]
            && db.staged == map[StageKey(UPLOAD, 0) := Zeros(CHUNK_SIZE), StageKey(UPLOAD, 1) := Zeros(1)]
  {
    hide Zeros, CommitChunk, RunWorld, AdmissibleRun, Next, Admissible;
    var steps := Race();
    assert steps == steps[..4] + [steps[4]] + [steps[5]];
    BothLooked(sha, w);
    var w4 := RunWorld(sha, w, steps[..4]);
    RunWorldSnoc(sha, w, steps[..4], steps[4]);
    NextCommit(sha, w4, 0);
    FirstCommit(w4.db);
    var w5 := RunWorld(sha, w, steps[..4] + [steps[4]]);
    RunWorldSnoc(sha, w, steps[..4] + [steps[4]], steps[5]);
    NextCommit(sha, w5, 1);
    SecondCommit(w5.db);
  }

  lemma {:induction false} RunJoins(sha: Bytes -> Digest, w: World, a: seq<Step>, b: seq<Step>)
    ensures RunWorld(sha, w, a + b) == RunWorld(sha, RunWorld(sha, w, a), b)
    ensures AdmissibleRun(sha, w, a + b) <==> AdmissibleRun(sha, w, a) && AdmissibleRun(sha, RunWorld(sha, w, a), b)
    decreases |b|
  {
    hide Next, Admissible;
    if b == [] {
      assert a + b == a;
    } else {
      var n := |b| - 1;
      assert a + b == (a + b[..n]) + [b[n]] && b == b[..n] + [b[n]];
      RunJoins(sha, w, a, b[..n]);
      RunWorldSnoc(sha, w, a + b[..n], b[n]);
      RunWorldSnoc(sha, RunWorld(sha, w, a), b[..n], b[n]);
    }
  }

  /** From the empty database: after this run every chunk of the upload is staged, the
      counter says 1 of 2, one stale insert happened, and completing is refused. */
  lemma LostCountReached(sha: Bytes -> Digest, ifMatch: Option<string>, contentType: Option<string>, stamp: Epoch)
    ensures AdmissibleRun(sha, START, Opening() + Race())
    ensures var db := RunWorld(sha, START, Opening() + Race()).db;
            && InProgressIn(db, UPLOAD) && db.sessions[UPLOAD].received == 1 && db.sessions[UPLOAD].expected == 2
            && StagedIndices(db.staged, UPLOAD) == {0, 1}
            && StaleInserts(sha, START, Opening() + Race(), UPLOAD) > 0
            && Complete(sha, db, ATTACHMENT, UPLOAD, ifMatch, contentType, NOW, stamp).1 == Fail(Validation)
  {
    hide RunWorld, AdmissibleRun, StaleInserts, OpenSession, Complete, Inv;
    OpeningIsReady(sha);
    RunJoins(sha, START, Opening(), Race());
    BothCommitted(sha, RunWorld(sha, START, Opening()));
    var db := RunWorld(sha, START, Opening() + Race()).db;
    forall i ensures i in StagedIndices(db.staged, UPLOAD) <==> i in {0, 1} {
      StagedIndex(db.staged, UPLOAD, i);
    }
    assert StagedIndices(db.staged, UPLOAD) == {0, 1};
    CountsExactlyIff(sha, Opening() + Race(), UPLOAD);
    MissingCount(sha, db, ifMatch, contentType, stamp);
  }

  lemma MissingCount(sha: Bytes -> Digest, db: Db, ifMatch: Option<string>, contentType: Option<string>, stamp: Epoch)
    requires db.sessions == map[UPLOAD := SESSION.(received := 1)]
    ensures Complete(sha, db, ATTACHMENT, UPLOAD, ifMatch, contentType, NOW, stamp).1 == Fail(Validation)
  {
    hide Finalize, StagedParts, TotalLength, Cleanup;
    OpenedUnchanged(db, ATTACHMENT, UPLOAD, NOW);
  }

  /** And so it stays, whatever anybody does with that upload afterwards. */
  lemma LostForGood(
    sha: Bytes -> Digest, more: seq<Step>, ifMatch: Option<string>, contentType: Option<string>, t: Clock, stamp: Epoch)
    requires AdmissibleRun(sha, START, Opening() + Race() + more) && NeverStarted(more, UPLOAD)
    ensures var db := RunWorld(sha, START, Opening() + Race() + more).db;
            !Complete(sha, db, ATTACHMENT, UPLOAD, ifMatch, contentType, t, stamp).1.Ok?
  {
    hide RunWorld, AdmissibleRun, NeverStarted, Complete, Inv, PendingOk, Opening, Race;
    var steps := Opening() + Race();
    LostCountReached(sha, ifMatch, contentType, stamp);
    RunJoins(sha, START, steps, more);
    EmptyDbOk(sha);
    WorldRunKeeps(sha, START, steps);
    NeverCompletes(sha, RunWorld(sha, START, steps), more, ATTACHMENT, UPLOAD, ifMatch, contentType, t, stamp);
  }
}
