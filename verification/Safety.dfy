/** The safety results, stated of every state a run of requests can reach from the
    empty database. */
module Safety {
  import opened Prelude
  import opened ChunkMath
  import opened CompositeEtag
  import opened Tables
  import opened NoteService
  import opened Invariants
  import opened UploadProofs
  import opened Machine
  import opened Frames
  import opened Downloads
  import opened RoundTrip
  import opened SyncIndex
  import AccountDeletion
  import Ssnt

  function Reach(sha: Bytes -> Digest, rs: seq<Request>): Db {
    Run(sha, EMPTY_DB, rs)
  }

  /** The chunks of an attachment are exactly 0..totalChunks-1; the owner's download
      route serves each of them, refuses every other index as invalid, and never
      answers "chunk not found" or "size mismatch"; what it serves has the stored
      size and hash. */
  lemma StoreInvariant(sha: Bytes -> Digest, rs: seq<Request>, k: AttKey, index: int)
    requires k in Reach(sha, rs).attachments
    ensures var db := Reach(sha, rs);
            var row := db.attachments[k];
            var whole := Fetch(db, k, TotalChunks(row.size));
            && TotalChunks(row.size) == ChunkCount(row.size)
            && (ChunkKey(k, index) in db.chunks <==> 0 <= index < TotalChunks(row.size))
            && GetChunk(db, k, index)
               == (if ChunkKey(k, index) in db.chunks then Ok((db.chunks[ChunkKey(k, index)], row.etag))
                   else Fail(Validation))
            && (ChunkKey(k, index) in db.chunks ==> |db.chunks[ChunkKey(k, index)]| == SliceLength(row.size, index))
            && whole.Some? && |whole.value| == row.size && sha(whole.value) == row.etag
  {
    hide Run, Inv, SessionsExact, ReadChunk, TotalChunks, SliceLength, Fetch, ChunkCount;
    var db := Reach(sha, rs);
    Reachable(sha, rs);
    SizeFits(sha, db, k);
    ActiveWithAttachment(sha, db, k);
    ChunkServed(sha, db, k, index);
    DownloadMatchesEtag(sha, db, k);
    ChunkRange(sha, db, k, index);
  }

  lemma ChunkRange(sha: Bytes -> Digest, db: Db, k: AttKey, index: int)
    requires Inv(sha, db) && k in db.attachments
    ensures ChunkKey(k, index) in db.chunks <==> 0 <= index < ChunkCount(db.attachments[k].size)
  {
    hide SyncOk, StampsFit, SessionsOk, UsersOk, VaultsOk, SharesOk, KeysOk, Content, SliceLength, ChunkCount;
    assert AttachmentOk(sha, db.attachments[k], db.chunks, k);
    assert ChunkKey(k, index).att == k;
  }

  /** The cached etag, stamp and title of an active note are those of its body and
      its current attachments. */
  lemma SyncIndexInvariant(sha: Bytes -> Digest, rs: seq<Request>, nk: NoteKey)
    requires Active(Reach(sha, rs).notes, nk)
    ensures var db := Reach(sha, rs);
            var m := AttsOf(db.attachments, nk);
            && nk in db.blobs && Ssnt.Parse(db.blobs[nk]).Parsed?
            && var f := Ssnt.Parse(db.blobs[nk]).value;
            && f.noteId == nk.note && db.notes[nk].title == f.title
            && db.notes[nk].etag == Composite(sha, sha(db.blobs[nk]), EtagPairs(m))
            && f.updatedAt <= db.notes[nk].updatedAt
            && (forall a :: a in m ==> m[a].updatedAt <= db.notes[nk].updatedAt)
            && (db.notes[nk].updatedAt == f.updatedAt || exists a :: a in m && m[a].updatedAt == db.notes[nk].updatedAt)
  {
    hide Run, Inv, SessionsExact, AttsOf, EtagPairs, Ssnt.Parse;
    Reachable(sha, rs);
    IndexAgrees(sha, Reach(sha, rs), nk);
  }

  /** One session in progress per attachment at most; it counts its staged rows
      exactly, and never more than it expects; an aborted session has none. */
  lemma SessionInvariant(sha: Bytes -> Digest, rs: seq<Request>, u: Uuid, v: Uuid)
    requires u in Reach(sha, rs).sessions && v in Reach(sha, rs).sessions
    ensures var db := Reach(sha, rs);
            var s := db.sessions[u];
            && (s.status == InProgress ==> s.received == |StagedIndices(db.staged, u)| <= s.expected)
            && (s.status == Aborted ==> StagedIndices(db.staged, u) == {})
            && (s.status == db.sessions[v].status == InProgress && s.att == db.sessions[v].att ==> u == v)
  {
    hide Run, ChunksOk, SyncOk, ContentOnlyUnderActive, StampsFit, UsersOk, VaultsOk, SharesOk, KeysOk,
      StagedIndices, SliceLength;
    var db := Reach(sha, rs);
    Reachable(sha, rs);
    StagedWithin(db, u);
    if db.sessions[u].status == Aborted {
      AbortedIsEmpty(db, u);
    }
  }

  lemma AbortedIsEmpty(db: Db, u: Uuid)
    requires SessionsExact(db.sessions, db.staged) && u in db.sessions && db.sessions[u].status == Aborted
    ensures StagedIndices(db.staged, u) == {}
  {
    assert forall s :: s in db.staged ==> s.upload != u;
  }

  lemma StagedWithin(db: Db, u: Uuid)
    requires SessionsOk(db.sessions, db.staged) && u in db.sessions
    ensures |StagedIndices(db.staged, u)| <= db.sessions[u].expected
  {
    hide StagedIndices, SliceLength, ChunkCount;
    var n := db.sessions[u].expected;
    forall i | i in StagedIndices(db.staged, u) ensures i in Below(n) {
      StagedIndex(db.staged, u, i);
      assert StageKey(u, i).index == i;
      InRange(n);
      assert i in Range(n);
    }
    SubsetSize(StagedIndices(db.staged, u), Below(n));
    BelowSize(n);
  }

  lemma {:induction false} RunAppend(sha: Bytes -> Digest, db: Db, rs: seq<Request>, more: seq<Request>)
    ensures Run(sha, db, rs + more) == Run(sha, Run(sha, db, rs), more)
    decreases |rs|
  {
    hide Apply;
    if rs == [] {
      assert rs + more == more;
    } else {
      assert (rs + more)[1..] == rs[1..] + more;
      RunAppend(sha, Apply(sha, db, rs[0]).0, rs[1..], more);
    }
  }

  /** A note deleted at some point of a run is, at every later point before its
      account is deleted, still deleted at the same time and without any content. */
  lemma TombstoneInvariant(sha: Bytes -> Digest, rs: seq<Request>, more: seq<Request>, nk: NoteKey)
    requires Tombstone(Reach(sha, rs), nk) && DeleteAccount(nk.user, true) !in more
    ensures var later := Reach(sha, rs + more);
            && Tombstone(later, nk) && later.notes[nk].deletedAt == Reach(sha, rs).notes[nk].deletedAt
            && nk !in later.blobs
            && (forall k :: k in later.attachments ==> NoteOf(k) != nk)
            && (forall c :: c in later.chunks ==> NoteOf(c.att) != nk)
  {
    hide Run, Inv, SessionsExact;
    RunAppend(sha, EMPTY_DB, rs, more);
    TombstoneRun(sha, Reach(sha, rs), more, nk);
    Reachable(sha, rs + more);
    TombstoneIsEmpty(sha, Reach(sha, rs + more), nk, 0, 0, 0, [], None);
  }

  /** Owner and recipient of a grant differ and both exist, the granted note row
      exists, and no recipient holds two grants of one note id. */
  lemma GrantInvariant(sha: Bytes -> Digest, rs: seq<Request>, i: Uuid, j: Uuid)
    requires i in Reach(sha, rs).shares && j in Reach(sha, rs).shares
    ensures var db := Reach(sha, rs);
            && db.shares[i].owner != db.shares[i].recipient
            && db.shares[i].owner in db.users && db.shares[i].recipient in db.users
            && NoteKey(db.shares[i].owner, db.shares[i].note) in db.notes
            && (db.shares[i].note == db.shares[j].note && db.shares[i].recipient == db.shares[j].recipient ==> i == j)
  {
    hide Run, ChunksOk, SyncOk, ContentOnlyUnderActive, StampsFit, SessionsOk, SessionsExact, UsersOk, VaultsOk;
    Reachable(sha, rs);
  }

  /** Whatever a row refers to exists. */
  lemma ReferentialIntegrityInvariant(
    sha: Bytes -> Digest, rs: seq<Request>, r: AccountDeletion.Row, parent: AccountDeletion.Row)
    requires AccountDeletion.Exists(Reach(sha, rs), r) && parent in AccountDeletion.References(Reach(sha, rs), r)
    ensures AccountDeletion.Exists(Reach(sha, rs), parent)
  {
    hide Run, Inv, SessionsExact, AccountDeletion.Exists, AccountDeletion.References;
    Reachable(sha, rs);
    AccountDeletion.ReferentialIntegrity(sha, Reach(sha, rs), r, parent);
  }
}
