/** The service as one state machine: every request is one atomic step. */
module Machine {
  import opened Prelude
  import opened CompositeEtag
  import opened Tables
  import opened NoteService
  import opened Uploads
  import opened Accounts
  import opened Invariants
  import opened UploadProofs
  import opened NoteProofs
  import opened AccountProofs

  datatype Request =
    | RegisterUser(user: Uuid, email: string, hash: Digest, now: int)
    | LoginUser(email: string, verified: bool, hash: Digest, now: int)
    | RefreshTokens(presented: Digest, next: Digest, now: int)
    | Logout(user: Uuid, now: int)
    | DeleteAccount(user: Uuid, verified: bool)
    | PutVaultHeader(user: Uuid, header: Bytes)
    | PutNoteBody(user: Uuid, note: Uuid, body: Bytes, ifMatch: Option<string>)
    | DeleteNote(user: Uuid, note: Uuid, now: int)
    | StartUpload(att: AttKey, totalSize: nat, upload: Uuid, clock: Clock)
    | UploadChunk(att: AttKey, upload: Uuid, index: int, data: Bytes, clock: Clock)
    | CompleteUpload(
        att: AttKey, upload: Uuid, ifMatch: Option<string>, contentType: Option<string>, clock: Clock, stamp: Epoch)
    | RemoveAttachment(att: AttKey)
    | ShareNote(user: Uuid, note: Uuid, email: string, wrappedFek: Option<Bytes>, id: Uuid)
    | RevokeShare(user: Uuid, note: Uuid, email: string)
    | RemoveSharedNote(user: Uuid, note: Uuid)

  datatype Reply =
    | Done
    | NoteSaved(note: NoteUpload)
    | Started(init: InitUpload)
    | Uploaded(attachment: AttachmentUpload)
    | Shared(id: Uuid)
    | Refreshed(user: Uuid)
    | Refused(error: Error)
    | Crashed

  /** The user a request is authenticated as, for the requests that carry an access token. */
  function Caller(r: Request): Option<Uuid> {
    match r
    case RegisterUser(_, _, _, _) => None
    case LoginUser(_, _, _, _) => None
    case RefreshTokens(_, _, _) => None
    case StartUpload(k, _, _, _) => Some(k.user)
    case UploadChunk(k, _, _, _, _) => Some(k.user)
    case CompleteUpload(k, _, _, _, _, _) => Some(k.user)
    case RemoveAttachment(k) => Some(k.user)
    case _ => Some(r.user)
  }

  function ReplyOf<T>(out: Outcome<T>, wrap: T -> Reply): Reply {
    match out
    case Ok(v) => wrap(v)
    case Fail(e) => Refused(e)
    case Crash => Crashed
  }

  function Apply(sha: Bytes -> Digest, db: Db, r: Request): (Db, Reply) {
    if Caller(r).Some? && Caller(r).value !in db.users then (db, Refused(Unauthorized)) else
    Handle(sha, db, r)
  }

  function Handle(sha: Bytes -> Digest, db: Db, r: Request): (Db, Reply) {
    match r
    case RegisterUser(user, email, hash, now) =>
      var (db', out) := Register(db, user, email, hash, now); (db', ReplyOf(out, _ => Done))
    case LoginUser(email, verified, hash, now) =>
      var (db', out) := Login(db, email, verified, hash, now); (db', ReplyOf(out, _ => Done))
    case RefreshTokens(presented, next, now) =>
      var (db', out) := Rotate(db, presented, next, now); (db', ReplyOf(out, u => Refreshed(u)))
    case Logout(user, now) => (RevokeAll(db, user, now), Done)
    case DeleteAccount(user, verified) =>
      var (db', out) := CloseAccount(db, user, verified); (db', ReplyOf(out, _ => Done))
    case PutVaultHeader(user, header) =>
      var (db', out) := PutVault(db, user, header); (db', ReplyOf(out, _ => Done))
    case PutNoteBody(user, note, body, ifMatch) =>
      var (db', out) := PutBody(sha, db, NoteKey(user, note), body, ifMatch); (db', ReplyOf(out, n => NoteSaved(n)))
    case DeleteNote(user, note, now) =>
      var (db', out) := SoftDelete(db, NoteKey(user, note), now); (db', ReplyOf(out, _ => Done))
    case StartUpload(k, totalSize, upload, clock) =>
      var (db', out) := Init(db, k, totalSize, upload, clock); (db', ReplyOf(out, i => Started(i)))
    case UploadChunk(k, upload, index, data, clock) =>
      var (db', out) := PutChunk(db, k, upload, index, data, clock); (db', ReplyOf(out, _ => Done))
    case CompleteUpload(k, upload, ifMatch, contentType, clock, stamp) =>
      var (db', out) := Complete(sha, db, k, upload, ifMatch, contentType, clock, stamp);
      (db', ReplyOf(out, a => Uploaded(a)))
    case RemoveAttachment(k) =>
      var (db', out) := DeleteAttachment(sha, db, k); (db', ReplyOf(out, _ => Done))
    case ShareNote(user, note, email, wrappedFek, id) =>
      var (db', out) := Share(db, user, note, email, wrappedFek, id); (db', ReplyOf(out, i => Shared(i)))
    case RevokeShare(user, note, email) =>
      var (db', out) := Revoke(db, user, note, email); (db', ReplyOf(out, _ => Done))
    case RemoveSharedNote(user, note) =>
      var (db', out) := RemoveShared(db, user, note); (db', ReplyOf(out, _ => Done))
  }

  function Run(sha: Bytes -> Digest, db: Db, rs: seq<Request>): Db
    decreases |rs|
  {
    if rs == [] then db else Run(sha, Apply(sha, db, rs[0]).0, rs[1..])
  }

  lemma {:induction false} RunSnoc(sha: Bytes -> Digest, db: Db, rs: seq<Request>, r: Request)
    ensures Run(sha, db, rs + [r]) == Apply(sha, Run(sha, db, rs), r).0
    decreases |rs|
  {
    hide Apply;
    if rs == [] {
      assert [r][1..] == [];
    } else {
      assert (rs + [r])[1..] == rs[1..] + [r];
      RunSnoc(sha, Apply(sha, db, rs[0]).0, rs[1..], r);
    }
  }

  // ----- every step keeps the invariants -----

  lemma SessionsUntouched(db: Db, db': Db)
    requires db'.sessions == db.sessions && db'.staged == db.staged
    ensures SessionsExact(db.sessions, db.staged) ==> SessionsExact(db'.sessions, db'.staged)
  {
  }

  lemma NoteStepKeeps(sha: Bytes -> Digest, db: Db, r: Request)
    requires Inv(sha, db) && (Caller(r).Some? ==> Caller(r).value in db.users)
    requires r.PutNoteBody? || r.DeleteNote? || r.RemoveAttachment?
    ensures Inv(sha, Handle(sha, db, r).0)
    ensures Handle(sha, db, r).0.sessions == db.sessions && Handle(sha, db, r).0.staged == db.staged
  {
    hide Inv, PutBody, SoftDelete, DeleteAttachment;
    match r
    case PutNoteBody(user, note, body, ifMatch) =>
      PutBodyKeeps(sha, db, NoteKey(user, note), body, ifMatch);
    case DeleteNote(user, note, now) =>
      SoftDeleteKeeps(sha, db, NoteKey(user, note), now);
    case RemoveAttachment(k) =>
      DeleteAttachmentKeeps(sha, db, k);
  }

  lemma UploadStepKeeps(sha: Bytes -> Digest, db: Db, r: Request)
    requires Inv(sha, db)
    requires r.StartUpload? || r.UploadChunk? || r.CompleteUpload?
    ensures Inv(sha, Handle(sha, db, r).0)
    ensures SessionsExact(db.sessions, db.staged) ==>
              SessionsExact(Handle(sha, db, r).0.sessions, Handle(sha, db, r).0.staged)
  {
    hide Inv, SessionsExact, Init, PutChunk, Complete;
    match r
    case StartUpload(k, totalSize, upload, clock) => InitKeeps(sha, db, k, totalSize, upload, clock);
    case UploadChunk(k, upload, index, data, clock) => PutChunkKeeps(sha, db, k, upload, index, data, clock);
    case CompleteUpload(k, upload, ifMatch, contentType, clock, stamp) =>
      CompleteKeeps(sha, db, k, upload, ifMatch, contentType, clock, stamp);
  }

  lemma AccountStepKeeps(sha: Bytes -> Digest, db: Db, r: Request)
    requires Inv(sha, db) && (Caller(r).Some? ==> Caller(r).value in db.users)
    requires r.RegisterUser? || r.LoginUser? || r.RefreshTokens? || r.Logout? || r.PutVaultHeader?
    ensures Inv(sha, Handle(sha, db, r).0)
    ensures Handle(sha, db, r).0.sessions == db.sessions && Handle(sha, db, r).0.staged == db.staged
  {
    hide Inv, Register, Login, Rotate, RevokeAll, PutVault;
    match r
    case RegisterUser(user, email, hash, now) => RegisterKeeps(sha, db, user, email, hash, now);
    case LoginUser(email, verified, hash, now) => LoginKeeps(sha, db, email, verified, hash, now);
    case RefreshTokens(presented, next, now) => RotateKeeps(sha, db, presented, next, now);
    case Logout(user, now) => RevokeAllKeeps(sha, db, user, now);
    case PutVaultHeader(user, header) => PutVaultKeeps(sha, db, user, header);
  }

  lemma ShareStepKeeps(sha: Bytes -> Digest, db: Db, r: Request)
    requires Inv(sha, db)
    requires r.ShareNote? || r.RevokeShare? || r.RemoveSharedNote?
    ensures Inv(sha, Handle(sha, db, r).0)
    ensures Handle(sha, db, r).0.sessions == db.sessions && Handle(sha, db, r).0.staged == db.staged
  {
    hide Inv, Share, Revoke, RemoveShared;
    match r
    case ShareNote(user, note, email, wrappedFek, id) => ShareKeeps(sha, db, user, note, email, wrappedFek, id);
    case RevokeShare(user, note, email) => RevokeKeeps(sha, db, user, note, email);
    case RemoveSharedNote(user, note) => RemoveSharedKeeps(sha, db, user, note);
  }

  lemma StepKeeps(sha: Bytes -> Digest, db: Db, r: Request)
    requires Inv(sha, db)
    ensures Inv(sha, Apply(sha, db, r).0)
    ensures SessionsExact(db.sessions, db.staged) ==>
              SessionsExact(Apply(sha, db, r).0.sessions, Apply(sha, db, r).0.staged)
  {
    hide Inv, SessionsExact, Handle;
    if Caller(r).Some? && Caller(r).value !in db.users {
    } else {
      var db' := Handle(sha, db, r).0;
      if r.PutNoteBody? || r.DeleteNote? || r.RemoveAttachment? {
        NoteStepKeeps(sha, db, r);
        SessionsUntouched(db, db');
      } else if r.StartUpload? || r.UploadChunk? || r.CompleteUpload? {
        UploadStepKeeps(sha, db, r);
      } else if r.DeleteAccount? {
        CloseAccountKeeps(sha, db, r.user, r.verified);
        HandleDeletion(sha, db, r);
      } else if r.ShareNote? || r.RevokeShare? || r.RemoveSharedNote? {
        ShareStepKeeps(sha, db, r);
        SessionsUntouched(db, db');
      } else {
        AccountStepKeeps(sha, db, r);
        SessionsUntouched(db, db');
      }
    }
  }

  lemma HandleDeletion(sha: Bytes -> Digest, db: Db, r: Request)
    requires r.DeleteAccount?
    ensures Handle(sha, db, r).0 == CloseAccount(db, r.user, r.verified).0
    ensures Handle(sha, db, r).0 == if r.verified then DeleteUser(db, r.user) else db
  {
  }

  /** Safety over whole runs: every reachable state satisfies the invariants. */
  lemma {:induction false} RunKeeps(sha: Bytes -> Digest, db: Db, rs: seq<Request>)
    requires Inv(sha, db) && SessionsExact(db.sessions, db.staged)
    ensures Inv(sha, Run(sha, db, rs))
    ensures SessionsExact(Run(sha, db, rs).sessions, Run(sha, db, rs).staged)
    decreases |rs|
  {
    hide Inv, SessionsExact, Apply;
    if rs != [] {
      StepKeeps(sha, db, rs[0]);
      RunKeeps(sha, Apply(sha, db, rs[0]).0, rs[1..]);
    }
  }

  lemma EmptyDbOk(sha: Bytes -> Digest)
    ensures Inv(sha, EMPTY_DB) && SessionsExact(EMPTY_DB.sessions, EMPTY_DB.staged)
  {
  }

  lemma Reachable(sha: Bytes -> Digest, rs: seq<Request>)
    ensures Inv(sha, Run(sha, EMPTY_DB, rs))
    ensures SessionsExact(Run(sha, EMPTY_DB, rs).sessions, Run(sha, EMPTY_DB, rs).staged)
  {
    EmptyDbOk(sha);
    RunKeeps(sha, EMPTY_DB, rs);
  }
}
