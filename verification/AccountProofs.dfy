/** Why the account, vault and grant operations keep the invariants. */
module AccountProofs {
  import opened Prelude
  import opened CompositeEtag
  import opened Tables
  import opened Accounts
  import opened Invariants
  import Ssnv

  // ----- tokens, users, vault -----

  lemma IssueTokenKeeps(sha: Bytes -> Digest, db: Db, user: Uuid, hash: Digest, now: int)
    requires Inv(sha, db) && user in db.users
    ensures Inv(sha, IssueToken(db, user, hash, now).0)
  {
    hide ChunksOk, SyncOk, ContentOnlyUnderActive, StampsFit, SessionsOk, UsersOk, VaultsOk, SharesOk;
  }

  lemma LoginKeeps(sha: Bytes -> Digest, db: Db, email: string, verified: bool, hash: Digest, now: int)
    requires Inv(sha, db)
    ensures Inv(sha, Login(db, email, verified, hash, now).0)
  {
    hide Inv, IssueToken, FindUser;
    var found := FindUser(db, email);
    if found.Ok? && found.value.Some? && verified {
      IssueTokenKeeps(sha, db, found.value.value, hash, now);
    }
  }

  lemma RotateKeeps(sha: Bytes -> Digest, db: Db, hash: Digest, next: Digest, now: int)
    requires Inv(sha, db)
    ensures Inv(sha, Rotate(db, hash, next, now).0)
  {
    hide ChunksOk, SyncOk, ContentOnlyUnderActive, StampsFit, SessionsOk, UsersOk, VaultsOk, SharesOk;
  }

  lemma RevokeAllKeeps(sha: Bytes -> Digest, db: Db, user: Uuid, now: int)
    requires Inv(sha, db)
    ensures Inv(sha, RevokeAll(db, user, now))
  {
    hide ChunksOk, SyncOk, ContentOnlyUnderActive, StampsFit, SessionsOk, UsersOk, VaultsOk, SharesOk;
  }

  lemma AddUserKeeps(sha: Bytes -> Digest, db: Db, user: Uuid, email: string)
    requires Inv(sha, db) && user !in db.users && UsersNamed(db, email) == {}
    ensures Inv(sha, db.(users := db.users[user := Lower(email)]))
  {
    hide ChunksOk, SyncOk, ContentOnlyUnderActive, StampsFit, SessionsOk, VaultsOk, SharesOk, Lower;
    LowerTwice(email);
    forall u | u in db.users ensures db.users[u] != Lower(email) {
      assert u !in UsersNamed(db, email);
    }
  }

  lemma RegisterKeeps(sha: Bytes -> Digest, db: Db, user: Uuid, email: string, hash: Digest, now: int)
    requires Inv(sha, db)
    ensures Inv(sha, Register(db, user, email, hash, now).0)
  {
    hide Inv, IssueToken, UsersNamed, FindUser, Lower, SameAddress;
    NamedAlike(db, email);
    if FindUser(db, email) == Ok(None) && user !in db.users {
      AddUserKeeps(sha, db, user, email);
      IssueTokenKeeps(sha, db.(users := db.users[user := Lower(email)]), user, hash, now);
    }
  }

  lemma PutVaultKeeps(sha: Bytes -> Digest, db: Db, user: Uuid, header: Bytes)
    requires Inv(sha, db) && user in db.users
    ensures Inv(sha, PutVault(db, user, header).0)
  {
    hide ChunksOk, SyncOk, ContentOnlyUnderActive, StampsFit, SessionsOk, UsersOk, SharesOk, Ssnv.Parse;
    if Ssnv.Parse(header).Parsed? {
      Ssnv.KeyOnlyInVersion2(header);
    }
  }

  // ----- grants -----

  lemma GrantsAtMostOne(db: Db, recipient: Uuid, note: Uuid)
    requires SharesOk(db.shares)
    ensures |GrantsTo(db, recipient, note)| <= 1
  {
    var found := GrantsTo(db, recipient, note);
    if found != {} {
      var i :| i in found;
      assert found == {i};
    }
  }

  lemma UsersAtMostOne(db: Db, email: string)
    requires UsersOk(db.users)
    ensures |UsersNamed(db, email)| <= 1
  {
    hide Lower;
    var found := UsersNamed(db, email);
    if found != {} {
      var u :| u in found;
      assert found == {u};
    }
  }

  lemma NewShareKeeps(sha: Bytes -> Digest, db: Db, id: Uuid, row: ShareRow)
    requires Inv(sha, db) && id !in db.shares
    requires GrantsTo(db, row.recipient, row.note) == {}
    requires row.owner != row.recipient && row.recipient in db.users && NoteKey(row.owner, row.note) in db.notes
    ensures Inv(sha, db.(shares := db.shares[id := row]))
  {
    hide ChunksOk, SyncOk, ContentOnlyUnderActive, StampsFit, SessionsOk, UsersOk, VaultsOk;
    forall i | i in db.shares && db.shares[i].note == row.note ensures db.shares[i].recipient != row.recipient {
      assert i !in GrantsTo(db, row.recipient, row.note);
    }
  }

  lemma FewerSharesKeep(sha: Bytes -> Digest, db: Db, gone: set<Uuid>)
    requires Inv(sha, db)
    ensures Inv(sha, db.(shares := db.shares - gone))
  {
    hide ChunksOk, SyncOk, ContentOnlyUnderActive, StampsFit, SessionsOk, UsersOk, VaultsOk;
  }

  lemma ShareKeeps(
    sha: Bytes -> Digest, db: Db, owner: Uuid, note: Uuid, email: string, wrappedFek: Option<Bytes>, id: Uuid)
    requires Inv(sha, db)
    ensures Inv(sha, Share(db, owner, note, email, wrappedFek, id).0)
  {
    hide Inv, FindUser, FindGrant, GrantsTo;
    var (db', out) := Share(db, owner, note, email, wrappedFek, id);
    if out.Ok? {
      NewShareKeeps(sha, db, id, db'.shares[id]);
    }
  }

  lemma RevokeKeeps(sha: Bytes -> Digest, db: Db, owner: Uuid, note: Uuid, email: string)
    requires Inv(sha, db)
    ensures Inv(sha, Revoke(db, owner, note, email).0)
  {
    hide Inv, FindUser, GrantsTo;
    var (db', out) := Revoke(db, owner, note, email);
    if out.Ok? {
      FewerSharesKeep(sha, db, db.shares.Keys - db'.shares.Keys);
      assert db'.shares == db.shares - (db.shares.Keys - db'.shares.Keys);
    }
  }

  lemma RemoveSharedKeeps(sha: Bytes -> Digest, db: Db, recipient: Uuid, note: Uuid)
    requires Inv(sha, db)
    ensures Inv(sha, RemoveShared(db, recipient, note).0)
  {
    hide Inv, GrantsTo;
    FewerSharesKeep(sha, db, GrantsTo(db, recipient, note));
  }

  // ----- deleting a user -----

  lemma DeleteUserKeepsChunks(sha: Bytes -> Digest, db: Db, user: Uuid)
    requires ChunksOk(sha, db.attachments, db.chunks)
    ensures ChunksOk(sha, DeleteUser(db, user).attachments, DeleteUser(db, user).chunks)
  {
    hide AttachmentOk;
    var after := DeleteUser(db, user);
    forall k | k in after.attachments ensures AttachmentOk(sha, after.attachments[k], after.chunks, k) {
      AttachmentOkFrame(sha, db.attachments[k], db.chunks, after.chunks, k);
    }
  }

  lemma DeleteUserKeepsSync(sha: Bytes -> Digest, db: Db, user: Uuid)
    requires SyncOk(sha, db.notes, db.blobs, db.attachments)
    ensures var after := DeleteUser(db, user); SyncOk(sha, after.notes, after.blobs, after.attachments)
  {
    hide AttsOf, NoteInSync;
    var after := DeleteUser(db, user);
    forall nk: NoteKey | nk.user != user ensures AttsOf(after.attachments, nk) == AttsOf(db.attachments, nk) {
      AttsOfSame(after.attachments, db.attachments, nk);
    }
  }

  lemma DeleteUserStaged(db: Db, user: Uuid, u: Uuid)
    requires u in db.sessions && db.sessions[u].att.user != user
    ensures StagedIndices(DeleteUser(db, user).staged, u) == StagedIndices(db.staged, u)
  {
    var after := DeleteUser(db, user).staged;
    forall i ensures i in StagedIndices(after, u) <==> i in StagedIndices(db.staged, u) {
      assert i in StagedIndices(after, u) ==> StageKey(u, i) in after;
      assert i in StagedIndices(db.staged, u) ==> StageKey(u, i) in db.staged;
      assert StageKey(u, i) in after <==> StageKey(u, i) in db.staged;
      assert StageKey(u, i).upload == u;
    }
  }

  lemma DeleteUserKeepsSessions(db: Db, user: Uuid)
    requires SessionsOk(db.sessions, db.staged)
    ensures SessionsOk(DeleteUser(db, user).sessions, DeleteUser(db, user).staged)
    ensures SessionsExact(db.sessions, db.staged) ==>
              SessionsExact(DeleteUser(db, user).sessions, DeleteUser(db, user).staged)
  {
    hide StagedIndices;
    var after := DeleteUser(db, user);
    forall u | u in after.sessions ensures StagedIndices(after.staged, u) == StagedIndices(db.staged, u) {
      DeleteUserStaged(db, user, u);
    }
  }

  lemma DeleteUserKeepsKeys(db: Db, user: Uuid)
    requires KeysOk(db)
    ensures KeysOk(DeleteUser(db, user))
  {
  }

  lemma DeleteUserKeepsContent(db: Db, user: Uuid)
    requires ContentOnlyUnderActive(db.notes, db.blobs, db.attachments) && StampsFit(db.notes, db.attachments)
    ensures var after := DeleteUser(db, user);
            && ContentOnlyUnderActive(after.notes, after.blobs, after.attachments)
            && StampsFit(after.notes, after.attachments)
  {
  }

  lemma DeleteUserKeepsAccounts(db: Db, user: Uuid)
    requires UsersOk(db.users) && VaultsOk(db.vaults) && SharesOk(db.shares)
    ensures var after := DeleteUser(db, user);
            UsersOk(after.users) && VaultsOk(after.vaults) && SharesOk(after.shares)
  {
    hide VaultOk;
  }

  lemma DeleteUserKeeps(sha: Bytes -> Digest, db: Db, user: Uuid)
    requires Inv(sha, db)
    ensures Inv(sha, DeleteUser(db, user))
    ensures SessionsExact(db.sessions, db.staged) ==>
              SessionsExact(DeleteUser(db, user).sessions, DeleteUser(db, user).staged)
  {
    hide ChunksOk, SyncOk, ContentOnlyUnderActive, StampsFit, SessionsOk, SessionsExact, UsersOk, VaultsOk,
      SharesOk, KeysOk, DeleteUser;
    DeleteUserKeepsChunks(sha, db, user);
    DeleteUserKeepsSync(sha, db, user);
    DeleteUserKeepsSessions(db, user);
    DeleteUserKeepsKeys(db, user);
    DeleteUserKeepsContent(db, user);
    DeleteUserKeepsAccounts(db, user);
  }

  lemma CloseAccountKeeps(sha: Bytes -> Digest, db: Db, user: Uuid, verified: bool)
    requires Inv(sha, db)
    ensures Inv(sha, CloseAccount(db, user, verified).0)
    ensures SessionsExact(db.sessions, db.staged) ==>
              SessionsExact(CloseAccount(db, user, verified).0.sessions, CloseAccount(db, user, verified).0.staged)
  {
    hide Inv, SessionsExact, DeleteUser;
    DeleteUserKeeps(sha, db, user);
  }
}
