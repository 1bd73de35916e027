/** Share grants over whole runs: who makes one, who ends one, and what its end means. */
module GrantRuns {
  import opened Prelude
  import opened CompositeEtag
  import opened Tables
  import opened NoteService
  import opened Uploads
  import opened Accounts
  import opened Invariants
  import opened Machine
  import opened Grants

  /** The request is answered as having shared this note id with this recipient. */
  ghost predicate Makes(sha: Bytes -> Digest, db: Db, r: Request, recipient: Uuid, note: Uuid) {
    && r.ShareNote? && r.note == note && Apply(sha, db, r).1.Shared?
    && recipient in db.users && SameAddress(db.users[recipient], r.email)
  }

  /** The requests that end the grant a row stands for: revoked by its owner under the
      recipient's address, removed by its recipient, or either account deleted. */
  ghost predicate EndsGrant(db: Db, r: Request, row: ShareRow) {
    || (&& r.RevokeShare? && r.user == row.owner && r.note == row.note
        && row.recipient in db.users && SameAddress(db.users[row.recipient], r.email))
    || (r.RemoveSharedNote? && r.user == row.recipient && r.note == row.note)
    || (r.DeleteAccount? && r.verified && (r.user == row.owner || r.user == row.recipient))
  }

  lemma OtherStepsLeaveShares(sha: Bytes -> Digest, db: Db, r: Request)
    requires !r.ShareNote? && !r.RevokeShare? && !r.RemoveSharedNote? && !(r.DeleteAccount? && r.verified)
    ensures Apply(sha, db, r).0.shares == db.shares
  {
    hide PutBody, SoftDelete, DeleteAttachment, Init, PutChunk, Complete, PutVault, Register, Login, Rotate, RevokeAll;
  }

  // ----- making a grant -----

  lemma ShareApplies(sha: Bytes -> Digest, db: Db, r: Request)
    requires r.ShareNote? && r.user in db.users
    ensures var (db', out) := Share(db, r.user, r.note, r.email, r.wrappedFek, r.id);
            Apply(sha, db, r).0 == db' && (Apply(sha, db, r).1.Shared? <==> out.Ok?)
  {
    hide Share;
  }

  lemma ShareShape(
    db: Db, owner: Uuid, note: Uuid, email: string, wrappedFek: Option<Bytes>, id: Uuid)
    ensures var (db', out) := Share(db, owner, note, email, wrappedFek, id);
            out.Ok? ==>
              && id !in db.shares && wrappedFek.Some?
              && exists u :: u in db.users && SameAddress(db.users[u], email)
                          && db'.shares == db.shares[id := ShareRow(note, owner, u, wrappedFek.value)]
  {
    hide FindUser, FindGrant, SameAddress;
    FoundUser(db, email);
  }

  lemma SharedWith(sha: Bytes -> Digest, db: Db, r: Request)
    requires r.ShareNote?
    ensures Apply(sha, db, r).1.Shared? ==>
              && r.id !in db.shares && r.wrappedFek.Some?
              && exists u :: u in db.users && SameAddress(db.users[u], r.email)
                          && Apply(sha, db, r).0.shares
                             == db.shares[r.id := ShareRow(r.note, r.user, u, r.wrappedFek.value)]
    ensures !Apply(sha, db, r).1.Shared? ==> Apply(sha, db, r).0 == db
  {
    hide Share, SameAddress;
    if r.user in db.users {
      hide Apply;
      ShareApplies(sha, db, r);
      ShareShape(db, r.user, r.note, r.email, r.wrappedFek, r.id);
    } else {
    }
  }

  lemma OnlyShareMakes(sha: Bytes -> Digest, db: Db, r: Request, recipient: Uuid, note: Uuid)
    requires Inv(sha, db) && !Granted(db, recipient, note) && !Makes(sha, db, r, recipient, note)
    ensures !Granted(Apply(sha, db, r).0, recipient, note)
  {
    hide Inv, Apply, SameAddress;
    var db' := Apply(sha, db, r).0;
    if r.ShareNote? {
      SharedWith(sha, db, r);
    } else {
      SharesShrink(sha, db, r);
    }
  }

  /** Every request but a share only removes grants. */
  lemma SharesShrink(sha: Bytes -> Digest, db: Db, r: Request)
    requires !r.ShareNote?
    ensures forall i :: i in Apply(sha, db, r).0.shares ==>
              i in db.shares && Apply(sha, db, r).0.shares[i] == db.shares[i]
  {
    hide Apply;
    if r.RevokeShare? || r.RemoveSharedNote? {
      RemovalShrinks(sha, db, r);
    } else if r.DeleteAccount? && r.verified {
      DeletionShrinks(sha, db, r);
    } else {
      OtherStepsLeaveShares(sha, db, r);
    }
  }

  lemma RemovalShrinks(sha: Bytes -> Digest, db: Db, r: Request)
    requires r.RevokeShare? || r.RemoveSharedNote?
    ensures forall i :: i in Apply(sha, db, r).0.shares ==>
              i in db.shares && Apply(sha, db, r).0.shares[i] == db.shares[i]
  {
    hide FindUser, FindGrant, OwnGrants, GrantsTo;
  }

  lemma DeletionShrinks(sha: Bytes -> Digest, db: Db, r: Request)
    requires r.DeleteAccount?
    ensures forall i :: i in Apply(sha, db, r).0.shares ==>
              i in db.shares && Apply(sha, db, r).0.shares[i] == db.shares[i]
  {
    hide Handle;
    if Caller(r).Some? && Caller(r).value !in db.users {
    } else {
      HandleDeletion(sha, db, r);
    }
  }

  /** No request of the run makes such a grant. */
  ghost predicate NoneMade(sha: Bytes -> Digest, db: Db, rs: seq<Request>, recipient: Uuid, note: Uuid)
    decreases |rs|
  {
    || rs == []
    || (&& !Makes(sha, db, rs[0], recipient, note)
        && NoneMade(sha, Apply(sha, db, rs[0]).0, rs[1..], recipient, note))
  }

  lemma {:induction false} StaysUngranted(sha: Bytes -> Digest, db: Db, rs: seq<Request>, recipient: Uuid, note: Uuid)
    requires Inv(sha, db) && !Granted(db, recipient, note) && NoneMade(sha, db, rs, recipient, note)
    ensures !Granted(Run(sha, db, rs), recipient, note)
    decreases |rs|
  {
    hide Inv, Apply, Granted, Makes;
    if rs != [] {
      OnlyShareMakes(sha, db, rs[0], recipient, note);
      StepKeeps(sha, db, rs[0]);
      StaysUngranted(sha, Apply(sha, db, rs[0]).0, rs[1..], recipient, note);
    }
  }

  // ----- ending a grant -----

  lemma RevokeApplies(sha: Bytes -> Digest, db: Db, r: Request)
    requires r.RevokeShare? && r.user in db.users
    ensures Apply(sha, db, r).0 == Revoke(db, r.user, r.note, r.email).0
    ensures Revoke(db, r.user, r.note, r.email).1.Ok? ==> Apply(sha, db, r).1 == Done
  {
    hide Revoke;
  }

  lemma RemoveApplies(sha: Bytes -> Digest, db: Db, r: Request)
    requires r.RemoveSharedNote? && r.user in db.users
    ensures Apply(sha, db, r).0 == RemoveShared(db, r.user, r.note).0
    ensures RemoveShared(db, r.user, r.note).1.Ok? ==> Apply(sha, db, r).1 == Done
  {
    hide RemoveShared;
  }

  lemma DeletionApplies(sha: Bytes -> Digest, db: Db, r: Request)
    requires r.DeleteAccount? && r.verified && r.user in db.users
    ensures Apply(sha, db, r) == (DeleteUser(db, r.user), Done)
  {
    hide DeleteUser;
  }

  ghost predicate OnlyGrantLike(db: Db, i: Uuid)
    requires i in db.shares
  {
    forall j | j in db.shares && db.shares[j].recipient == db.shares[i].recipient
               && db.shares[j].note == db.shares[i].note :: j == i
  }

  /** The row FindGrant finds is the only one of its recipient and note id. */
  lemma TheGrant(sha: Bytes -> Digest, db: Db, i: Uuid)
    requires Inv(sha, db) && i in db.shares
    ensures FindGrant(db, db.shares[i].recipient, db.shares[i].note) == Ok(db.shares[i])
    ensures OnlyGrantLike(db, i)
  {
    hide ChunksOk, SyncOk, ContentOnlyUnderActive, StampsFit, SessionsOk, UsersOk, VaultsOk, KeysOk, FindGrant;
    var row := db.shares[i];
    GrantFound(sha, db, row.recipient, row.note);
    FoundIsStored(db, row.recipient, row.note);
  }

  lemma FoundIsStored(db: Db, recipient: Uuid, note: Uuid)
    ensures FindGrant(db, recipient, note).Ok? ==>
              exists j :: j in db.shares && db.shares[j] == FindGrant(db, recipient, note).value
                       && db.shares[j].recipient == recipient && db.shares[j].note == note
  {
  }

  lemma NotFoundNotGranted(sha: Bytes -> Digest, db: Db, recipient: Uuid, note: Uuid)
    requires FindGrant(db, recipient, note) == Fail(ShareNotFound)
    ensures !Granted(db, recipient, note)
  {
    forall i | i in db.shares ensures !(db.shares[i].recipient == recipient && db.shares[i].note == note) {
      assert i !in GrantsTo(db, recipient, note);
    }
  }

  /** A revocation, a removal or an account deletion is done, and ends the grant. */
  lemma EndingEnds(sha: Bytes -> Digest, db: Db, r: Request, i: Uuid)
    requires Inv(sha, db) && i in db.shares && EndsGrant(db, r, db.shares[i])
    ensures Apply(sha, db, r).1 == Done
    ensures !Granted(Apply(sha, db, r).0, db.shares[i].recipient, db.shares[i].note)
  {
    hide Inv, Apply, FindGrant, Revoke, RemoveShared, DeleteUser, SameAddress, Granted;
    var row := db.shares[i];
    TheGrant(sha, db, i);
    PartiesExist(sha, db, i);
    if r.RevokeShare? {
      RevokeEndsOwnGrant(sha, db, r.user, r.note, row.recipient, r.email);
      RevokeApplies(sha, db, r);
      NotFoundNotGranted(sha, Apply(sha, db, r).0, row.recipient, row.note);
    } else if r.RemoveSharedNote? {
      RemoveEndsGrant(sha, db, r.user, r.note);
      RemoveApplies(sha, db, r);
      NotFoundNotGranted(sha, Apply(sha, db, r).0, row.recipient, row.note);
    } else {
      DeletionApplies(sha, db, r);
      DeletedWithParty(db, r.user, i);
    }
  }

  lemma PartiesExist(sha: Bytes -> Digest, db: Db, i: Uuid)
    requires Inv(sha, db) && i in db.shares
    ensures db.shares[i].owner in db.users && db.shares[i].recipient in db.users
  {
    hide ChunksOk, SyncOk, ContentOnlyUnderActive, StampsFit, SessionsOk, UsersOk, VaultsOk, SharesOk;
  }

  lemma DeletedWithParty(db: Db, user: Uuid, i: Uuid)
    requires i in db.shares && (user == db.shares[i].owner || user == db.shares[i].recipient)
    requires OnlyGrantLike(db, i)
    ensures !Granted(DeleteUser(db, user), db.shares[i].recipient, db.shares[i].note)
  {
  }

  /** Once a grant has been ended, no shared route answers its recipient for that note id
      until somebody has shared it with the recipient again. */
  lemma EndedGrantIsOver(
    sha: Bytes -> Digest, db: Db, r: Request, i: Uuid, rs: seq<Request>, a: Uuid, index: int)
    requires Inv(sha, db) && i in db.shares && EndsGrant(db, r, db.shares[i])
    requires NoneMade(sha, Apply(sha, db, r).0, rs, db.shares[i].recipient, db.shares[i].note)
    ensures var later, recipient, note := Run(sha, Apply(sha, db, r).0, rs), db.shares[i].recipient, db.shares[i].note;
            && SharedBody(sha, later, recipient, note) == Fail(ShareNotFound)
            && SharedNote(later, recipient, note) == Fail(ShareNotFound)
            && SharedManifest(later, recipient, note) == Fail(ShareNotFound)
            && SharedChunk(later, recipient, note, a, index) == Fail(ShareNotFound)
  {
    hide Inv, Apply, Run, Granted, EndsGrant, NoneMade, SharedBody, SharedNote, SharedManifest, SharedChunk;
    EndingEnds(sha, db, r, i);
    StepKeeps(sha, db, r);
    StaysUngranted(sha, Apply(sha, db, r).0, rs, db.shares[i].recipient, db.shares[i].note);
    NoGrantNoRead(sha, Run(sha, Apply(sha, db, r).0, rs), db.shares[i].recipient, db.shares[i].note, a, index);
  }

  // ----- and nothing else ends it -----

  lemma RevokeSpares(db: Db, owner: Uuid, note: Uuid, email: string, i: Uuid)
    requires i in db.shares
    requires !(db.shares[i].owner == owner && db.shares[i].note == note && db.shares[i].recipient in db.users
               && SameAddress(db.users[db.shares[i].recipient], email))
    ensures i in Revoke(db, owner, note, email).0.shares && Revoke(db, owner, note, email).0.shares[i] == db.shares[i]
  {
    hide FindUser, SameAddress;
    FoundUser(db, email);
  }

  lemma RevocationSpares(sha: Bytes -> Digest, db: Db, r: Request, i: Uuid)
    requires i in db.shares && !EndsGrant(db, r, db.shares[i])
    requires r.RevokeShare?
    ensures i in Apply(sha, db, r).0.shares && Apply(sha, db, r).0.shares[i] == db.shares[i]
  {
    hide Revoke, SameAddress;
    if r.user in db.users {
      RevokeApplies(sha, db, r);
      RevokeSpares(db, r.user, r.note, r.email, i);
    }
  }

  lemma FoundUser(db: Db, email: string)
    ensures FindUser(db, email).Ok? && FindUser(db, email).value.Some? ==>
              var u := FindUser(db, email).value.value; u in db.users && SameAddress(db.users[u], email)
  {
    hide SameAddress;
  }

  lemma RemovalSpares(sha: Bytes -> Digest, db: Db, r: Request, i: Uuid)
    requires i in db.shares && !EndsGrant(db, r, db.shares[i])
    requires r.RemoveSharedNote?
    ensures i in Apply(sha, db, r).0.shares && Apply(sha, db, r).0.shares[i] == db.shares[i]
  {
    hide FindGrant;
  }

  lemma DeletionSpares(sha: Bytes -> Digest, db: Db, r: Request, i: Uuid)
    requires i in db.shares && !EndsGrant(db, r, db.shares[i])
    requires r.DeleteAccount? && r.verified
    ensures i in Apply(sha, db, r).0.shares && Apply(sha, db, r).0.shares[i] == db.shares[i]
  {
    if r.user in db.users {
      DeletionApplies(sha, db, r);
    }
  }

  lemma OnlyTheseEnd(sha: Bytes -> Digest, db: Db, r: Request, i: Uuid)
    requires Inv(sha, db) && i in db.shares && !EndsGrant(db, r, db.shares[i])
    ensures i in Apply(sha, db, r).0.shares && Apply(sha, db, r).0.shares[i] == db.shares[i]
  {
    hide Inv, Apply, EndsGrant, SameAddress;
    if r.ShareNote? {
      SharedWith(sha, db, r);
    } else if r.RevokeShare? {
      RevocationSpares(sha, db, r, i);
    } else if r.RemoveSharedNote? {
      RemovalSpares(sha, db, r, i);
    } else if r.DeleteAccount? && r.verified {
      DeletionSpares(sha, db, r, i);
    } else {
      OtherStepsLeaveShares(sha, db, r);
    }
  }

  /** Nothing in the run ends the grant. */
  ghost predicate NeverEnded(sha: Bytes -> Digest, db: Db, rs: seq<Request>, row: ShareRow)
    decreases |rs|
  {
    rs == [] || (!EndsGrant(db, rs[0], row) && NeverEnded(sha, Apply(sha, db, rs[0]).0, rs[1..], row))
  }

  /** A grant lasts, unchanged, until one of those requests ends it. */
  lemma {:induction false} GrantLasts(sha: Bytes -> Digest, db: Db, rs: seq<Request>, i: Uuid)
    requires Inv(sha, db) && i in db.shares && NeverEnded(sha, db, rs, db.shares[i])
    ensures i in Run(sha, db, rs).shares && Run(sha, db, rs).shares[i] == db.shares[i]
    decreases |rs|
  {
    hide Inv, Apply, EndsGrant;
    if rs != [] {
      OnlyTheseEnd(sha, db, rs[0], i);
      StepKeeps(sha, db, rs[0]);
      GrantLasts(sha, Apply(sha, db, rs[0]).0, rs[1..], i);
    }
  }
}
