/** The imperative handlers, put behind one entry point, are the state machine. */
module Server {
  import opened Prelude
  import opened CompositeEtag
  import opened Tables
  import opened NoteService
  import opened Uploads
  import opened Accounts
  import opened Invariants
  import opened Machine
  import Store

  method Serve(store: Store.Store, r: Request) returns (reply: Reply)
    requires store.Idle()
    modifies store
    ensures store.Idle() && (store.View(), reply) == Apply(store.sha, old(store.View()), r)
  {
    hide Handle;
    if Caller(r).Some? && Caller(r).value !in store.users {
      return Refused(Unauthorized);
    }
    if r.StartUpload? || r.UploadChunk? || r.CompleteUpload? {
      reply := ServeUpload(store, r);
    } else if r.PutNoteBody? || r.DeleteNote? || r.RemoveAttachment? {
      reply := ServeNote(store, r);
    } else if r.ShareNote? || r.RevokeShare? || r.RemoveSharedNote? {
      reply := ServeShare(store, r);
    } else {
      reply := ServeAccount(store, r);
    }
  }

  method ServeUpload(store: Store.Store, r: Request) returns (reply: Reply)
    requires store.Idle() && (r.StartUpload? || r.UploadChunk? || r.CompleteUpload?)
    modifies store
    ensures store.Idle() && (store.View(), reply) == Handle(store.sha, old(store.View()), r)
  {
    hide Init, PutChunk, Complete;
    match r
    case StartUpload(k, totalSize, upload, clock) =>
      var out := store.InitUpload(k, totalSize, upload, clock);
      return ReplyOf(out, i => Started(i));
    case UploadChunk(k, upload, index, data, clock) =>
      var out := store.UploadChunk(k, upload, index, data, clock);
      return ReplyOf(out, _ => Done);
    case CompleteUpload(k, upload, ifMatch, contentType, clock, stamp) =>
      var out := store.CompleteUpload(k, upload, ifMatch, contentType, clock, stamp);
      return ReplyOf(out, a => Uploaded(a));
  }

  method ServeNote(store: Store.Store, r: Request) returns (reply: Reply)
    requires store.Idle() && (r.PutNoteBody? || r.DeleteNote? || r.RemoveAttachment?)
    modifies store
    ensures store.Idle() && (store.View(), reply) == Handle(store.sha, old(store.View()), r)
  {
    hide PutBody, SoftDelete, DeleteAttachment;
    match r
    case PutNoteBody(user, note, body, ifMatch) =>
      var out := store.PutNoteBody(NoteKey(user, note), body, ifMatch);
      return ReplyOf(out, n => NoteSaved(n));
    case DeleteNote(user, note, now) =>
      var out := store.SoftDeleteNote(NoteKey(user, note), now);
      return ReplyOf(out, _ => Done);
    case RemoveAttachment(k) =>
      var out := store.DeleteAttachment(k);
      return ReplyOf(out, _ => Done);
  }

  method ServeShare(store: Store.Store, r: Request) returns (reply: Reply)
    requires store.Idle() && (r.ShareNote? || r.RevokeShare? || r.RemoveSharedNote?)
    modifies store
    ensures store.Idle() && (store.View(), reply) == Handle(store.sha, old(store.View()), r)
  {
    hide Share, Revoke, RemoveShared;
    match r
    case ShareNote(user, note, email, wrappedFek, id) =>
      var out := store.ShareNote(user, note, email, wrappedFek, id);
      return ReplyOf(out, i => Shared(i));
    case RevokeShare(user, note, email) =>
      var out := store.RevokeShare(user, note, email);
      return ReplyOf(out, _ => Done);
    case RemoveSharedNote(user, note) =>
      var out := store.RemoveSharedNote(user, note);
      return ReplyOf(out, _ => Done);
  }

  method ServeAccount(store: Store.Store, r: Request) returns (reply: Reply)
    requires store.Idle()
    requires r.RegisterUser? || r.LoginUser? || r.RefreshTokens? || r.Logout? || r.DeleteAccount? || r.PutVaultHeader?
    modifies store
    ensures store.Idle() && (store.View(), reply) == Handle(store.sha, old(store.View()), r)
  {
    hide Register, Login, Rotate, RevokeAll, CloseAccount, PutVault;
    match r
    case RegisterUser(user, email, hash, now) =>
      var out := store.RegisterUser(user, email, hash, now);
      return ReplyOf(out, _ => Done);
    case LoginUser(email, verified, hash, now) =>
      var out := store.LoginUser(email, verified, hash, now);
      return ReplyOf(out, _ => Done);
    case RefreshTokens(presented, next, now) =>
      var out := store.RotateRefreshToken(presented, next, now);
      return ReplyOf(out, u => Refreshed(u));
    case Logout(user, now) =>
      store.RevokeAllRefreshTokens(user, now);
      return Done;
    case DeleteAccount(user, verified) =>
      var out := store.DeleteAccount(user, verified);
      return ReplyOf(out, _ => Done);
    case PutVaultHeader(user, header) =>
      var out := store.PutVaultHeader(user, header);
      return ReplyOf(out, _ => Done);
  }

  /** A store that has served any sequence of requests is in a reachable state, and
      everything proved of those holds of it. */
  method ServeAll(sha: Bytes -> Digest, rs: seq<Request>) returns (store: Store.Store)
    ensures store.sha == sha && store.Idle() && store.View() == Run(sha, EMPTY_DB, rs)
    ensures Inv(sha, store.View()) && SessionsExact(store.sessions, store.staged)
    ensures fresh(store)
  {
    hide Apply, Inv, SessionsExact, Run;
    store := new Store.Store(sha);
    EmptyRun(sha, EMPTY_DB);
    for i := 0 to |rs|
      invariant fresh(store) && store.sha == sha && store.Idle() && store.View() == Run(sha, EMPTY_DB, rs[..i])
    {
      assert rs[..i + 1] == rs[..i] + [rs[i]];
      RunSnoc(sha, EMPTY_DB, rs[..i], rs[i]);
      var _ := Serve(store, rs[i]);
    }
    assert rs[..|rs|] == rs;
    Reachable(sha, rs);
  }

  lemma EmptyRun(sha: Bytes -> Digest, db: Db)
    ensures Run(sha, db, []) == db
  {
  }
}
