/** What the service answers to every request, case by case, in terms of the stored
    rows. A refusal leaves the database as it was; only an upload request may have ended
    expired sessions first. */
module Answers {
  import opened Prelude
  import opened ChunkMath
  import opened CompositeEtag
  import opened Buffer
  import opened Tables
  import opened NoteService
  import opened Uploads
  import opened Accounts
  import opened Invariants
  import opened UploadProofs
  import opened NoteProofs
  import opened Machine
  import opened SessionSafety
  import opened Grants
  import opened RoundTrip
  import opened Effects
  import Ssnv

  /** Requests that carry an access token are refused when its user is gone. */
  lemma NeedsUser(sha: Bytes -> Digest, db: Db, r: Request, user: Uuid)
    requires user !in db.users
    requires match r
             case RegisterUser(_, _, _, _) => false
             case LoginUser(_, _, _, _) => false
             case RefreshTokens(_, _, _) => false
             case StartUpload(k, _, _, _) => k.user == user
             case UploadChunk(k, _, _, _, _) => k.user == user
             case CompleteUpload(k, _, _, _, _, _) => k.user == user
             case RemoveAttachment(k) => k.user == user
             case _ => r.user == user
    ensures Apply(sha, db, r) == (db, Refused(Unauthorized))
  {
    hide Handle;
  }

  // ----- accounts -----

  lemma RegisterAnswers(sha: Bytes -> Digest, db: Db, user: Uuid, email: string, hash: Digest, now: int)
    requires Inv(sha, db) && user !in db.users && hash !in db.tokens
    ensures var (db', reply) := Apply(sha, db, RegisterUser(user, email, hash, now));
            if exists u :: u in db.users && SameAddress(db.users[u], email)
            then (db', reply) == (db, Refused(EmailExists))
            else && reply == Done && db' == db.(users := db'.users, tokens := db'.tokens)
                 && db'.users == db.users[user := Lower(email)]
                 && db'.tokens == db.tokens[hash := TokenRow(user, now + 30 * 86_400_000_000, None)]
  {
    hide Inv, FindUser, Lower, SameAddress;
    UserFound(sha, db, email);
  }

  lemma LoginAnswers(sha: Bytes -> Digest, db: Db, email: string, verified: bool, hash: Digest, now: int, u: Uuid)
    requires Inv(sha, db) && hash !in db.tokens
    ensures var (db', reply) := Apply(sha, db, LoginUser(email, verified, hash, now));
            && (u in db.users && SameAddress(db.users[u], email) && verified ==>
                  reply == Done
                  && db' == db.(tokens := db.tokens[hash := TokenRow(u, now + 30 * 86_400_000_000, None)]))
            && (!verified || (forall v :: v in db.users ==> !SameAddress(db.users[v], email)) ==>
                  (db', reply) == (db, Refused(InvalidCredentials)))
  {
    hide Inv, Login, SameAddress;
    LoginIff(sha, db, email, verified, hash, now);
  }

  lemma RefreshAnswers(sha: Bytes -> Digest, db: Db, presented: Digest, next: Digest, now: int)
    requires Inv(sha, db) && next !in db.tokens
    ensures var (db', reply) := Apply(sha, db, RefreshTokens(presented, next, now));
            if presented in db.tokens && db.tokens[presented].revokedAt.None? && now <= db.tokens[presented].expiresAt
            then var user := db.tokens[presented].user;
                 && reply == Refreshed(user) && db' == db.(tokens := db'.tokens)
                 && db'.tokens == db.tokens[presented := db.tokens[presented].(revokedAt := Some(now))]
                                           [next := TokenRow(user, now + 30 * 86_400_000_000, None)]
            else (db', reply) == (db, Refused(Unauthorized))
  {
    hide ChunksOk, SyncOk, ContentOnlyUnderActive, StampsFit, SessionsOk, UsersOk, VaultsOk, SharesOk;
  }

  lemma DeleteAccountAnswers(sha: Bytes -> Digest, db: Db, user: Uuid, verified: bool)
    requires user in db.users
    ensures Apply(sha, db, DeleteAccount(user, verified))
         == if verified then (DeleteUser(db, user), Done) else (db, Refused(InvalidCredentials))
  {
    hide DeleteUser;
  }

  lemma NeverBadText(header: Bytes)
    ensures !Ssnv.Parse(header).UnicodeError?
  {
  }

  /** A vault header is accepted exactly if it is a version 2 encoding; nothing raises. */
  lemma PutVaultAnswers(sha: Bytes -> Digest, db: Db, user: Uuid, header: Bytes)
    requires user in db.users
    ensures var (db', reply) := Apply(sha, db, PutVaultHeader(user, header));
            if Ssnv.Parse(header).Parsed? && Ssnv.Parse(header).value.identity.Some?
            then var i := Ssnv.Parse(header).value.identity.value;
                 && reply == Done
                 && db' == db.(vaults := db.vaults[user := VaultRow(
                             header, i.publicKey, if i.algorithmId == 0 then 1 else i.algorithmId)])
            else (db', reply) == (db, Refused(Validation))
  {
    hide Ssnv.Parse;
    NeverBadText(header);
    EmptyIsRefused();
  }

  lemma EmptyIsRefused()
    ensures Ssnv.Parse([]) == ParseError
  {
  }

  // ----- notes -----

  /** The state and reply of a body PUT are those PutBodyAnswers and SuccessfulPut describe. */
  lemma PutNoteBodyAnswers(
    sha: Bytes -> Digest, db: Db, user: Uuid, note: Uuid, body: Bytes, ifMatch: Option<string>)
    requires user in db.users
    ensures var (db', out) := PutBody(sha, db, NoteKey(user, note), body, ifMatch);
            Apply(sha, db, PutNoteBody(user, note, body, ifMatch))
            == match out
               case Ok(saved) => (db', NoteSaved(saved))
               case Fail(e) => (db, Refused(e))
               case Crash => (db, Crashed)
  {
    hide PutBody;
  }

  lemma DeleteNoteAnswers(sha: Bytes -> Digest, db: Db, user: Uuid, note: Uuid, now: int)
    requires user in db.users
    ensures var nk := NoteKey(user, note);
            Apply(sha, db, DeleteNote(user, note, now))
            == if nk in db.notes && db.notes[nk].deletedAt.None? then (SoftDelete(db, nk, now).0, Done)
               else (db, Refused(NoteNotFound))
  {
  }

  lemma RemoveAttachmentAnswers(sha: Bytes -> Digest, db: Db, k: AttKey)
    requires Inv(sha, db) && k.user in db.users
    ensures Apply(sha, db, RemoveAttachment(k))
         == if !(NoteOf(k) in db.notes && db.notes[NoteOf(k)].deletedAt.None?) then (db, Refused(NoteNotFound))
            else if k !in db.attachments then (db, Refused(AttachmentNotFound))
            else (DeleteAttachment(sha, db, k).0, Done)
  {
    hide Inv, Recompute;
    DeleteAttachmentKeeps(sha, db, k);
  }

  // ----- uploads -----

  lemma StartUploadAnswers(sha: Bytes -> Digest, db: Db, k: AttKey, totalSize: nat, upload: Uuid, t: Clock)
    requires k.user in db.users
    ensures var (db', reply) := Apply(sha, db, StartUpload(k, totalSize, upload, t));
            && OnlyUploads(db, db')
            && reply == (if totalSize == 0 then Refused(Validation)
                         else if !(NoteOf(k) in db.notes && db.notes[NoteOf(k)].deletedAt.None?)
                         then Refused(NoteNotFound)
                         else if totalSize > 0x7fff_ffff * 5_242_880 || upload in db.sessions then Crashed
                         else Started(InitUpload(upload, 5_242_880, ChunkCount(totalSize))))
            && (reply.Started? ==>
                  upload in db'.sessions
                  && db'.sessions[upload] == SessionRow(
                       k, totalSize, 5_242_880, 0, ChunkCount(totalSize), InProgress, t.second + 86_400_000_000))
  {
    hide Abort, Expired, InProgressFor, FloatCeil;
  }

  /** A chunk is stored exactly in an open, unexpired session of this attachment, at an
      index in range, with the length of its slice. */
  lemma UploadChunkAnswers(
    sha: Bytes -> Digest, db: Db, k: AttKey, upload: Uuid, index: int, data: Bytes, t: Clock)
    requires Inv(sha, db) && k.user in db.users
    ensures var (db', reply) := Apply(sha, db, UploadChunk(k, upload, index, data, t));
            && OnlyUploads(db, db')
            && reply == (if upload !in db.sessions || db.sessions[upload].att != k then Refused(NoteNotFound)
                         else if db.sessions[upload].status == Aborted || !Live(db.sessions[upload], t)
                         then Refused(Conflict)
                         else if 0 <= index < ChunkCount(db.sessions[upload].totalSize)
                              && |data| == SliceLength(db.sessions[upload].totalSize, index) then Done
                         else Refused(Validation))
            && (reply == Done ==> StagedRow(db', upload, index) == Some(data))
  {
    hide Inv, OpenSession, ChunkLengthOf, Stage, ChunkCount, SliceLength;
    OpenSessionAnswers(db, k, upload, t);
    OpenedUnchanged(db, k, upload, t);
    if upload in db.sessions {
      SessionsOfInv(sha, db);
      ShapeOf(db, upload);
      AdmittedLength(db.sessions[upload], index, |data|);
    }
  }

  lemma CompleteUploadAnswers(
    sha: Bytes -> Digest, db: Db, k: AttKey, upload: Uuid,
    ifMatch: Option<string>, contentType: Option<string>, t: Clock, stamp: Epoch)
    requires Inv(sha, db) && k.user in db.users
    ensures var (db', reply) := Apply(sha, db, CompleteUpload(k, upload, ifMatch, contentType, t, stamp));
            && db' == Complete(sha, db, k, upload, ifMatch, contentType, t, stamp).0
            && (reply.Uploaded? ==>
                  Ok(reply.attachment) == Complete(sha, db, k, upload, ifMatch, contentType, t, stamp).1)
            && (if upload !in db.sessions || db.sessions[upload].att != k then reply == Refused(NoteNotFound)
                else if db.sessions[upload].status == Aborted || !Live(db.sessions[upload], t)
                then reply == Refused(Conflict)
                else if db.sessions[upload].received != db.sessions[upload].expected
                     || |StagedIndices(db.staged, upload)| != db.sessions[upload].expected
                then reply == Refused(Validation)
                else if !(NoteOf(k) in db.notes && db.notes[NoteOf(k)].deletedAt.None?)
                then reply == Refused(NoteNotFound)
                else if k in db.attachments && ifMatch.Some? && StripQuotes(ifMatch.value) != db.attachments[k].etag
                then reply == Refused(Conflict)
                else if contentType.Some? && '\0' in contentType.value then reply == Crashed
                else reply.Uploaded?)
  {
    hide Inv, OpenSession, Complete, StagedIndices, StripQuotes;
    OpenSessionAnswers(db, k, upload, t);
    OpenedUnchanged(db, k, upload, t);
    CompletesIffReady(sha, db, k, upload, ifMatch, contentType, t, stamp);
    if OpenSession(db, k, upload, t).1.Ok? {
      CompleteAnswers(sha, db, k, upload, ifMatch, contentType, t, stamp);
    } else {
      UnopenedComplete(sha, db, k, upload, ifMatch, contentType, t, stamp);
    }
  }

  lemma UnopenedComplete(
    sha: Bytes -> Digest, db: Db, k: AttKey, upload: Uuid,
    ifMatch: Option<string>, contentType: Option<string>, t: Clock, stamp: Epoch)
    requires OpenSession(db, k, upload, t).1.Fail?
    ensures Complete(sha, db, k, upload, ifMatch, contentType, t, stamp).1
         == Fail(OpenSession(db, k, upload, t).1.error)
  {
    hide OpenSession;
  }

  // ----- sharing -----

  /** Sharing is refused for a note that is not the caller's or is deleted, an address
      nobody has, oneself, a key that does not decode, and a recipient who already holds
      a grant of this note id; else the grant is made. */
  lemma ShareNoteAnswers(
    sha: Bytes -> Digest, db: Db, user: Uuid, note: Uuid, email: string, wrappedFek: Option<Bytes>, id: Uuid, u: Uuid)
    requires Inv(sha, db) && user in db.users && id !in db.shares
    ensures var (db', reply) := Apply(sha, db, ShareNote(user, note, email, wrappedFek, id));
            var nk := NoteKey(user, note);
            if !(nk in db.notes && db.notes[nk].deletedAt.None?) then (db', reply) == (db, Refused(NoteNotFound))
            else && ((forall v :: v in db.users ==> !SameAddress(db.users[v], email)) ==>
                       (db', reply) == (db, Refused(UserNotFound)))
                 && (u in db.users && SameAddress(db.users[u], email) ==>
                       if u == user || wrappedFek.None? || wrappedFek.value == []
                       then (db', reply) == (db, Refused(Validation))
                       else if Granted(db, u, note) then (db', reply) == (db, Refused(AlreadyShared))
                       else && reply == Shared(id)
                            && db' == db.(shares := db.shares[id := ShareRow(note, user, u, wrappedFek.value)]))
  {
    hide Inv, FindUser, FindGrant, SameAddress;
    UserFound(sha, db, email);
    GrantFound(sha, db, u, note);
  }

  /** Revoking is refused exactly when the caller has no grant of this note id to a user
      with this address. */
  lemma RevokeShareAnswers(sha: Bytes -> Digest, db: Db, user: Uuid, note: Uuid, email: string)
    requires Inv(sha, db) && user in db.users
    ensures var (db', reply) := Apply(sha, db, RevokeShare(user, note, email));
            if exists i :: i in db.shares && db.shares[i].owner == user && db.shares[i].note == note
                        && db.shares[i].recipient in db.users && SameAddress(db.users[db.shares[i].recipient], email)
            then reply == Done
            else (db', reply) == (db, Refused(ShareNotFound))
  {
    hide Inv, FindUser, OwnGrants, SameAddress;
    UserFound(sha, db, email);
    var found := FindUser(db, email).value;
    if found.Some? {
      OwnGrantsAre(sha, db, user, note, found.value);
      OwnGrantsHold(db, user, note, found.value);
      FoundAlike(db, email);
    }
  }

  lemma OwnGrantsHold(db: Db, owner: Uuid, note: Uuid, recipient: Uuid)
    ensures OwnGrants(db, owner, note, recipient) != {}
       <==> exists i :: i in db.shares && db.shares[i].owner == owner && db.shares[i].note == note
                     && db.shares[i].recipient == recipient
  {
    if i :| i in db.shares && db.shares[i].owner == owner && db.shares[i].note == note
            && db.shares[i].recipient == recipient {
      assert i in OwnGrants(db, owner, note, recipient);
    }
  }

  lemma RemoveSharedAnswers(sha: Bytes -> Digest, db: Db, user: Uuid, note: Uuid)
    requires Inv(sha, db) && user in db.users
    ensures var (db', reply) := Apply(sha, db, RemoveSharedNote(user, note));
            if Granted(db, user, note) then reply == Done else (db', reply) == (db, Refused(ShareNotFound))
  {
    hide Inv, FindGrant, GrantsTo;
    GrantFound(sha, db, user, note);
    RefusedIsNotFound(db, user, note);
  }

  lemma RefusedIsNotFound(db: Db, recipient: Uuid, note: Uuid)
    ensures FindGrant(db, recipient, note).Fail? ==> FindGrant(db, recipient, note) == Fail(ShareNotFound)
  {
  }

  // ----- the read routes -----

  /** The owner's routes answer for active notes, and for these with what is stored. */
  lemma OwnerReadAnswers(sha: Bytes -> Digest, db: Db, nk: NoteKey, a: Uuid, index: int)
    requires Inv(sha, db)
    ensures var active := nk in db.notes && db.notes[nk].deletedAt.None?;
            var k := AttKey(nk.user, nk.note, a);
            && (!active ==> GetBody(sha, db, nk) == Fail(NoteNotFound) && GetManifest(db, nk) == Fail(NoteNotFound)
                            && GetChunk(db, k, index) == Fail(NoteNotFound))
            && (active ==> nk in db.blobs && GetBody(sha, db, nk) == Ok((db.blobs[nk], sha(db.blobs[nk])))
                           && GetManifest(db, nk) == Ok(Manifest(db, nk)))
            && (active && k !in db.attachments ==> GetChunk(db, k, index) == Fail(AttachmentNotFound))
  {
    hide ChunksOk, ContentOnlyUnderActive, StampsFit, SessionsOk, UsersOk, VaultsOk, SharesOk, KeysOk, NoteInSync,
      Manifest;
  }
}
