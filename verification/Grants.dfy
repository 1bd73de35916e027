/** What a share grant gives its holder, and who can create or end one. */
module Grants {
  import opened Prelude
  import ChunkMath
  import opened CompositeEtag
  import opened Tables
  import opened NoteService
  import opened Accounts
  import opened Invariants
  import opened AccountProofs
  import opened Downloads

  /** scalar_one_or_none never meets two rows. */
  lemma GrantFound(sha: Bytes -> Digest, db: Db, recipient: Uuid, note: Uuid)
    requires Inv(sha, db)
    ensures FindGrant(db, recipient, note) != Crash
    ensures FindGrant(db, recipient, note).Ok?
       <==> exists i :: i in db.shares && db.shares[i].recipient == recipient && db.shares[i].note == note
    ensures FindGrant(db, recipient, note).Ok? ==>
              var share := FindGrant(db, recipient, note).value;
              share.owner != recipient && recipient in db.users && NoteKey(share.owner, note) in db.notes
  {
    hide ChunksOk, SyncOk, ContentOnlyUnderActive, StampsFit, SessionsOk, UsersOk, VaultsOk;
    GrantsAtMostOne(db, recipient, note);
    var found := GrantsTo(db, recipient, note);
    if exists i :: i in db.shares && db.shares[i].recipient == recipient && db.shares[i].note == note {
      var i :| i in db.shares && db.shares[i].recipient == recipient && db.shares[i].note == note;
      assert i in found;
    }
  }

  lemma UserFound(sha: Bytes -> Digest, db: Db, email: string)
    requires Inv(sha, db)
    ensures FindUser(db, email).Ok?
    ensures forall u :: u in db.users && SameAddress(db.users[u], email) ==> FindUser(db, email) == Ok(Some(u))
    ensures FindUser(db, email) == Ok(None) <==> forall u :: u in db.users ==> !SameAddress(db.users[u], email)
  {
    hide ChunksOk, SyncOk, ContentOnlyUnderActive, StampsFit, SessionsOk, SharesOk, VaultsOk, KeysOk;
    hide Lower, SameAddress;
    UsersAtMostOne(db, email);
    NamedAlike(db, email);
    forall u | u in db.users && SameAddress(db.users[u], email) ensures FindUser(db, email) == Ok(Some(u)) {
      assert u in UsersNamed(db, email);
    }
    if forall u :: u in db.users ==> !SameAddress(db.users[u], email) {
      assert UsersNamed(db, email) == {};
    }
  }

  /** While the note is active the holder reads byte for byte what the owner reads. */
  lemma SharedReadsAgree(sha: Bytes -> Digest, db: Db, recipient: Uuid, note: Uuid, a: Uuid, index: int)
    requires Inv(sha, db) && FindGrant(db, recipient, note).Ok?
    requires Active(db.notes, NoteKey(FindGrant(db, recipient, note).value.owner, note))
    ensures var nk := NoteKey(FindGrant(db, recipient, note).value.owner, note);
            && SharedBody(sha, db, recipient, note) == GetBody(sha, db, nk)
            && GetBody(sha, db, nk).Ok? && nk in db.blobs
            && SharedNote(db, recipient, note) == Ok((FindGrant(db, recipient, note).value.wrappedFek, db.blobs[nk]))
            && SharedManifest(db, recipient, note) == GetManifest(db, nk)
            && SharedChunk(db, recipient, note, a, index) == GetChunk(db, AttKey(nk.user, note, a), index)
  {
    hide ChunksOk, ContentOnlyUnderActive, StampsFit, SessionsOk, UsersOk, VaultsOk, SharesOk, KeysOk, NoteInSync,
      Manifest, ReadChunk, FindGrant, AttsOf;
  }

  /** So a whole attachment fetched under a grant has the owner's size and hash. */
  lemma SharedDownload(sha: Bytes -> Digest, db: Db, recipient: Uuid, note: Uuid, a: Uuid)
    requires Inv(sha, db) && FindGrant(db, recipient, note).Ok?
    requires AttKey(FindGrant(db, recipient, note).value.owner, note, a) in db.attachments
    ensures var k := AttKey(FindGrant(db, recipient, note).value.owner, note, a);
            var row := db.attachments[k];
            && (forall i :: 0 <= i < ChunkMath.TotalChunks(row.size) ==>
                  SharedChunk(db, recipient, note, a, i) == Ok((ChunkAt(db.chunks, k, i), row.etag)))
            && Fetch(db, k, ChunkMath.TotalChunks(row.size)).Some?
            && sha(Fetch(db, k, ChunkMath.TotalChunks(row.size)).value) == row.etag
  {
    hide Inv, ReadChunk, FindGrant, Fetch, ChunkMath.TotalChunks;
    var k := AttKey(FindGrant(db, recipient, note).value.owner, note, a);
    DownloadMatchesEtag(sha, db, k);
    forall i | 0 <= i < ChunkMath.TotalChunks(db.attachments[k].size)
      ensures SharedChunk(db, recipient, note, a, i) == Ok((ChunkAt(db.chunks, k, i), db.attachments[k].etag))
    {
      ChunkServed(sha, db, k, i);
    }
  }

  /** When sharing succeeds. A second grant of the same note id to the same
      recipient is refused, whoever the first grant's owner is. */
  lemma SharesIff(
    sha: Bytes -> Digest, db: Db, owner: Uuid, note: Uuid, recipient: Uuid, email: string,
    wrappedFek: Option<Bytes>, id: Uuid)
    requires Inv(sha, db) && recipient in db.users && SameAddress(db.users[recipient], email) && id !in db.shares
    ensures Share(db, owner, note, email, wrappedFek, id).1.Ok?
       <==> && Active(db.notes, NoteKey(owner, note)) && recipient != owner && IsKey(wrappedFek)
            && FindGrant(db, recipient, note).Fail?
    ensures Active(db.notes, NoteKey(owner, note)) && recipient != owner && IsKey(wrappedFek) ==>
              FindGrant(db, recipient, note).Ok? ==>
              Share(db, owner, note, email, wrappedFek, id).1 == Fail(AlreadyShared)
    ensures Share(db, owner, note, email, wrappedFek, id).1.Ok? ==>
              && var db' := Share(db, owner, note, email, wrappedFek, id).0;
              && db'.shares == db.shares[id := ShareRow(note, owner, recipient, wrappedFek.value)]
              && Share(db, owner, note, email, wrappedFek, id).1 == Ok(id)
              && FindGrant(db', recipient, note) == Ok(ShareRow(note, owner, recipient, wrappedFek.value))
  {
    hide Inv, FindGrant, FindUser;
    UserFound(sha, db, email);
    GrantFound(sha, db, recipient, note);
    if Share(db, owner, note, email, wrappedFek, id).1.Ok? {
      NewGrantIsFound(db, id, ShareRow(note, owner, recipient, wrappedFek.value));
    }
  }

  lemma NewGrantIsFound(db: Db, id: Uuid, row: ShareRow)
    requires id !in db.shares && FindGrant(db, row.recipient, row.note).Fail?
    ensures FindGrant(db.(shares := db.shares[id := row]), row.recipient, row.note) == Ok(row)
  {
    var after := db.(shares := db.shares[id := row]);
    assert GrantsTo(db, row.recipient, row.note) == {};
    forall i | i in db.shares ensures i !in GrantsTo(after, row.recipient, row.note) {
      assert i !in GrantsTo(db, row.recipient, row.note);
    }
    assert GrantsTo(after, row.recipient, row.note) == {id};
  }

  /** Removing a shared note ends that one grant and nothing else. */
  lemma RemoveEndsGrant(sha: Bytes -> Digest, db: Db, recipient: Uuid, note: Uuid)
    requires Inv(sha, db)
    ensures var (db', out) := RemoveShared(db, recipient, note);
            && (out.Ok? <==> FindGrant(db, recipient, note).Ok?)
            && FindGrant(db', recipient, note) == Fail(ShareNotFound)
            && (forall i :: i in db.shares && !(db.shares[i].recipient == recipient && db.shares[i].note == note) ==>
                  i in db'.shares && db'.shares[i] == db.shares[i])
  {
    hide Inv;
    GrantFound(sha, db, recipient, note);
    var db' := RemoveShared(db, recipient, note).0;
    assert GrantsTo(db', recipient, note) == {};
  }

  lemma RevokeRemoves(sha: Bytes -> Digest, db: Db, owner: Uuid, note: Uuid, recipient: Uuid, email: string)
    requires Inv(sha, db) && recipient in db.users && SameAddress(db.users[recipient], email)
    requires |OwnGrants(db, owner, note, recipient)| <= 1
    ensures var (db', out) := Revoke(db, owner, note, email);
            && (out.Ok? <==> OwnGrants(db, owner, note, recipient) != {})
            && db'.shares == db.shares - OwnGrants(db, owner, note, recipient)
  {
    hide Inv, FindUser, GrantsTo;
    UserFound(sha, db, email);
  }

  lemma OwnGrantsAre(sha: Bytes -> Digest, db: Db, owner: Uuid, note: Uuid, recipient: Uuid)
    requires Inv(sha, db)
    ensures |OwnGrants(db, owner, note, recipient)| <= 1
    ensures OwnGrants(db, owner, note, recipient)
         == if FindGrant(db, recipient, note).Ok? && FindGrant(db, recipient, note).value.owner == owner
            then GrantsTo(db, recipient, note) else {}
  {
    hide Inv, GrantsTo;
    GrantFound(sha, db, recipient, note);
    OneGrant(sha, db, recipient, note);
    var found := GrantsTo(db, recipient, note);
    SubsetSize(OwnGrants(db, owner, note, recipient), found);
    if found != {} {
      assert found == {TheOnly(found)};
    }
  }

  lemma WithoutGrants(db: Db, recipient: Uuid, note: Uuid)
    ensures FindGrant(db.(shares := db.shares - GrantsTo(db, recipient, note)), recipient, note) == Fail(ShareNotFound)
  {
    var after := db.(shares := db.shares - GrantsTo(db, recipient, note));
    assert GrantsTo(after, recipient, note) == {};
  }

  /** Revoking ends the caller's grant to that user; another owner's grant of the
      same note id survives. */
  lemma RevokeEndsOwnGrant(sha: Bytes -> Digest, db: Db, owner: Uuid, note: Uuid, recipient: Uuid, email: string)
    requires Inv(sha, db) && recipient in db.users && SameAddress(db.users[recipient], email)
    ensures var (db', out) := Revoke(db, owner, note, email);
            && (out.Ok? <==> FindGrant(db, recipient, note).Ok? && FindGrant(db, recipient, note).value.owner == owner)
            && (out.Ok? ==> FindGrant(db', recipient, note) == Fail(ShareNotFound))
            && (forall i | i in db.shares ::
                  db.shares[i].owner != owner || db.shares[i].recipient != recipient || db.shares[i].note != note ==>
                  i in db'.shares && db'.shares[i] == db.shares[i])
  {
    hide Inv, FindGrant, Revoke;
    OwnGrantsAre(sha, db, owner, note, recipient);
    RevokeRemoves(sha, db, owner, note, recipient, email);
    WithoutGrants(db, recipient, note);
    GrantIsThere(sha, db, recipient, note);
  }

  lemma GrantIsThere(sha: Bytes -> Digest, db: Db, recipient: Uuid, note: Uuid)
    requires Inv(sha, db)
    ensures FindGrant(db, recipient, note).Ok? <==> GrantsTo(db, recipient, note) != {}
  {
    hide Inv;
    OneGrant(sha, db, recipient, note);
  }

  lemma OneGrant(sha: Bytes -> Digest, db: Db, recipient: Uuid, note: Uuid)
    requires Inv(sha, db)
    ensures GrantsTo(db, recipient, note) == {} || |GrantsTo(db, recipient, note)| == 1
  {
    hide ChunksOk, SyncOk, ContentOnlyUnderActive, StampsFit, SessionsOk, UsersOk, VaultsOk, KeysOk;
    GrantsAtMostOne(db, recipient, note);
  }

  /** A grant of this note id to this recipient. */
  ghost predicate Granted(db: Db, recipient: Uuid, note: Uuid) {
    exists i :: i in db.shares && db.shares[i].recipient == recipient && db.shares[i].note == note
  }

  /** Without a grant every shared route says that there is none, whoever owns what. */
  lemma NoGrantNoRead(sha: Bytes -> Digest, db: Db, recipient: Uuid, note: Uuid, a: Uuid, index: int)
    requires !Granted(db, recipient, note)
    ensures SharedBody(sha, db, recipient, note) == Fail(ShareNotFound)
    ensures SharedNote(db, recipient, note) == Fail(ShareNotFound)
    ensures SharedManifest(db, recipient, note) == Fail(ShareNotFound)
    ensures SharedChunk(db, recipient, note, a, index) == Fail(ShareNotFound)
  {
    forall i ensures i !in GrantsTo(db, recipient, note) {
    }
    assert GrantsTo(db, recipient, note) == {};
  }
}
