/** Refresh-token rotation over whole runs. */
module Rotation {
  import opened Prelude
  import opened CompositeEtag
  import opened Tables
  import opened NoteService
  import opened Uploads
  import opened Accounts
  import opened Machine

  /** The token hash a request tries to insert. */
  function Issues(r: Request): Option<Digest> {
    match r
    case RegisterUser(_, _, hash, _) => Some(hash)
    case LoginUser(_, _, hash, _) => Some(hash)
    case RefreshTokens(_, next, _) => Some(next)
    case _ => None
  }

  /** Absent or revoked: the hash cannot be redeemed now. */
  predicate Spent(db: Db, hash: Digest) {
    hash in db.tokens ==> db.tokens[hash].revokedAt.Some?
  }

  predicate Redeems(sha: Bytes -> Digest, db: Db, r: Request, hash: Digest) {
    r.RefreshTokens? && r.presented == hash && Apply(sha, db, r).1.Refreshed?
  }

  /** How often a hash is redeemed along a run. */
  function Redemptions(sha: Bytes -> Digest, db: Db, rs: seq<Request>, hash: Digest): nat
    decreases |rs|
  {
    if rs == [] then 0 else
    (if Redeems(sha, db, rs[0], hash) then 1 else 0) + Redemptions(sha, Apply(sha, db, rs[0]).0, rs[1..], hash)
  }

  /** Rows are added or revoked; owner, expiry and revocation of a row never change otherwise. */
  ghost predicate TokensMove(db: Db, db': Db, issued: Option<Digest>) {
    forall h :: h in db'.tokens ==>
      if h in db.tokens then
        && db'.tokens[h].user == db.tokens[h].user && db'.tokens[h].expiresAt == db.tokens[h].expiresAt
        && (db.tokens[h].revokedAt.Some? ==> db'.tokens[h] == db.tokens[h])
      else issued == Some(h) && db'.tokens[h].revokedAt.None?
  }

  lemma OtherStepsLeaveTokens(sha: Bytes -> Digest, db: Db, r: Request)
    requires Issues(r).None? && !r.Logout? && !r.DeleteAccount?
    ensures Apply(sha, db, r).0.tokens == db.tokens
  {
    hide PutBody, SoftDelete, DeleteAttachment, Init, PutChunk, Complete, PutVault, Share, Revoke, RemoveShared;
    match r
    case PutVaultHeader(_, _) =>
    case PutNoteBody(_, _, _, _) =>
    case DeleteNote(_, _, _) =>
    case StartUpload(_, _, _, _) =>
    case UploadChunk(_, _, _, _, _) =>
    case CompleteUpload(_, _, _, _, _, _) =>
    case RemoveAttachment(_) =>
    case ShareNote(_, _, _, _, _) =>
    case RevokeShare(_, _, _) =>
    case RemoveSharedNote(_, _) =>
  }

  lemma RegisterTokens(db: Db, user: Uuid, email: string, hash: Digest, now: int)
    ensures TokensMove(db, Register(db, user, email, hash, now).0, Some(hash))
  {
    hide FindUser;
    if hash in db.tokens {
    } else {
    }
  }

  lemma LoginTokens(db: Db, email: string, verified: bool, hash: Digest, now: int)
    ensures TokensMove(db, Login(db, email, verified, hash, now).0, Some(hash))
  {
    hide FindUser;
  }

  lemma RotateTokens(db: Db, hash: Digest, next: Digest, now: int)
    ensures TokensMove(db, Rotate(db, hash, next, now).0, Some(next))
  {
  }

  lemma FewerTokens(db: Db, user: Uuid, now: int)
    ensures TokensMove(db, RevokeAll(db, user, now), None)
    ensures TokensMove(db, DeleteUser(db, user), None)
  {
  }

  lemma SameTokens(db: Db)
    ensures TokensMove(db, db, None)
  {
  }

  lemma TokenStep(sha: Bytes -> Digest, db: Db, r: Request)
    ensures TokensMove(db, Apply(sha, db, r).0, Issues(r))
  {
    hide PutBody, SoftDelete, DeleteAttachment, Init, PutChunk, Complete, PutVault, Share, Revoke, RemoveShared,
      Register, Login, Rotate, RevokeAll, DeleteUser;
    match r
    case RegisterUser(user, email, hash, now) => RegisterTokens(db, user, email, hash, now);
    case LoginUser(email, verified, hash, now) => LoginTokens(db, email, verified, hash, now);
    case RefreshTokens(presented, next, now) => RotateTokens(db, presented, next, now);
    case Logout(user, now) => FewerTokens(db, user, now);
    case DeleteAccount(user, _) =>
      FewerTokens(db, user, 0);
      SameTokens(db);
    case _ => OtherStepsLeaveTokens(sha, db, r);
  }

  /** A redemption presents a live token in time, and leaves it revoked. */
  lemma RedeemingSpends(sha: Bytes -> Digest, db: Db, r: Request, hash: Digest)
    ensures Redeems(sha, db, r, hash) ==>
              && hash in db.tokens && db.tokens[hash].revokedAt.None? && r.now <= db.tokens[hash].expiresAt
              && r.next !in db.tokens
              && Apply(sha, db, r).0.tokens == db.tokens[hash := db.tokens[hash].(revokedAt := Some(r.now))]

                        [r.next := TokenRow(db.tokens[hash].user, r.now + REFRESH_TOKEN_TTL, None)]
  {
    hide PutBody, SoftDelete, DeleteAttachment, Init, PutChunk, Complete, PutVault, Share, Revoke, RemoveShared,
      Register, Login, RevokeAll, DeleteUser;
  }

  lemma SpentStays(sha: Bytes -> Digest, db: Db, r: Request, hash: Digest)
    requires Spent(db, hash) && Issues(r) != Some(hash)
    ensures Spent(Apply(sha, db, r).0, hash)
    ensures !Redeems(sha, db, r, hash)
  {
    hide Apply, Redeems;
    TokenStep(sha, db, r);
    RedeemingSpends(sha, db, r, hash);
  }

  ghost predicate NeverIssued(rs: seq<Request>, hash: Digest) {
    forall r :: r in rs ==> Issues(r) != Some(hash)
  }

  /** A spent hash that nobody issues again is never redeemed. */
  lemma {:induction false} SpentNeverRedeemed(sha: Bytes -> Digest, db: Db, rs: seq<Request>, hash: Digest)
    requires Spent(db, hash) && NeverIssued(rs, hash)
    ensures Redemptions(sha, db, rs, hash) == 0
    decreases |rs|
  {
    hide Apply, Spent, Redeems;
    if rs != [] {
      assert rs[0] in rs;
      SpentStays(sha, db, rs[0], hash);
      SpentNeverRedeemed(sha, Apply(sha, db, rs[0]).0, rs[1..], hash);
    }
  }

  lemma {:induction false} RedeemedAtMostOnceFrom(sha: Bytes -> Digest, db: Db, rs: seq<Request>, hash: Digest)
    requires NeverIssued(rs, hash)
    ensures Redemptions(sha, db, rs, hash) <= 1
    decreases |rs|
  {
    hide Apply, Redeems;
    if rs != [] {
      assert rs[0] in rs;
      var db' := Apply(sha, db, rs[0]).0;
      if Redeems(sha, db, rs[0], hash) {
        RedeemingSpends(sha, db, rs[0], hash);
        assert rs[0].RefreshTokens? by { IsRefresh(sha, db, rs[0], hash); }
        SpentNeverRedeemed(sha, db', rs[1..], hash);
      } else {
        RedeemedAtMostOnceFrom(sha, db', rs[1..], hash);
      }
    }
  }

  lemma IsRefresh(sha: Bytes -> Digest, db: Db, r: Request, hash: Digest)
    requires Redeems(sha, db, r, hash)
    ensures r.RefreshTokens?
  {
  }

  /** Token hashes are distinct: at most one request of the run issues this one. */
  ghost predicate IssuedAtMostOnce(rs: seq<Request>, hash: Digest) {
    forall i, j :: 0 <= i < j < |rs| && Issues(rs[i]) == Some(hash) ==> Issues(rs[j]) != Some(hash)
  }

  /** From a state that does not hold the token yet, every refresh token is
      redeemed at most once over any run, whatever else happens in between. */
  lemma {:induction false} RedeemedAtMostOnce(sha: Bytes -> Digest, db: Db, rs: seq<Request>, hash: Digest)
    requires Spent(db, hash) && IssuedAtMostOnce(rs, hash)
    ensures Redemptions(sha, db, rs, hash) <= 1
    decreases |rs|
  {
    hide Apply, Redeems, Spent;
    if rs != [] {
      var db' := Apply(sha, db, rs[0]).0;
      forall i, j | 0 <= i < j < |rs[1..]| && Issues(rs[1..][i]) == Some(hash)
        ensures Issues(rs[1..][j]) != Some(hash) {
        assert rs[1..][i] == rs[i + 1] && rs[1..][j] == rs[j + 1];
      }
      if Issues(rs[0]) == Some(hash) {
        forall r | r in rs[1..] ensures Issues(r) != Some(hash) {
          var j :| 0 <= j < |rs[1..]| && rs[1..][j] == r;
          assert rs[j + 1] == r;
        }
        NotRedeemedWhenSpent(sha, db, rs[0], hash);
        RedeemedAtMostOnceFrom(sha, db', rs[1..], hash);
      } else {
        SpentStays(sha, db, rs[0], hash);
        RedeemedAtMostOnce(sha, db', rs[1..], hash);
      }
    }
  }

  lemma NotRedeemedWhenSpent(sha: Bytes -> Digest, db: Db, r: Request, hash: Digest)
    requires Spent(db, hash)
    ensures !Redeems(sha, db, r, hash)
  {
    hide Redeems;
    RedeemingSpends(sha, db, r, hash);
  }

  /** After a logout none of the user's earlier tokens is ever redeemed. */
  lemma LogoutEndsTokens(sha: Bytes -> Digest, db: Db, user: Uuid, now: int, rs: seq<Request>, hash: Digest)
    requires user in db.users && hash in db.tokens && db.tokens[hash].user == user
    requires NeverIssued(rs, hash)
    ensures Redemptions(sha, Apply(sha, db, Logout(user, now)).0, rs, hash) == 0
  {
    hide Redemptions;
    SpentNeverRedeemed(sha, Apply(sha, db, Logout(user, now)).0, rs, hash);
  }

  // ----- who ends a token -----

  /** The requests that may end this user's token: presenting it, the user's logout, and
      the deletion of the user's account. */
  predicate Ends(r: Request, hash: Digest, user: Uuid) {
    || (r.RefreshTokens? && r.presented == hash)
    || (r.Logout? && r.user == user)
    || (r.DeleteAccount? && r.user == user && r.verified)
  }

  /** A logout revokes exactly the caller's live tokens, at the time of the logout; every
      other row, of this user or another, stays as it is. */
  lemma LogoutRevokes(sha: Bytes -> Digest, db: Db, user: Uuid, now: int, hash: Digest)
    requires user in db.users
    ensures var (db', reply) := Apply(sha, db, Logout(user, now));
            && reply == Done && db' == db.(tokens := db'.tokens)
            && (hash in db'.tokens <==> hash in db.tokens)
            && (hash in db.tokens ==>
                  db'.tokens[hash]
                  == if db.tokens[hash].user == user && db.tokens[hash].revokedAt.None?
                     then TokenRow(user, db.tokens[hash].expiresAt, Some(now)) else db.tokens[hash])
  {
  }

  /** Between two states no row was lost, and only this one may have been revoked. */
  ghost predicate OthersLive(db: Db, db': Db, except: Option<Digest>) {
    forall h :: h in db.tokens && Some(h) != except ==> h in db'.tokens && db'.tokens[h] == db.tokens[h]
  }

  lemma IssuingEndsNone(db: Db, user: Uuid, hash: Digest, now: int)
    ensures OthersLive(db, IssueToken(db, user, hash, now).0, None)
  {
    if hash in db.tokens {
    } else {
    }
  }

  lemma RegisterEndsNone(db: Db, user: Uuid, email: string, hash: Digest, now: int)
    ensures OthersLive(db, Register(db, user, email, hash, now).0, None)
  {
    hide FindUser, IssueToken, Lower;
    IssuingEndsNone(db.(users := db.users[user := Lower(email)]), user, hash, now);
  }

  lemma LoginEndsNone(db: Db, email: string, verified: bool, hash: Digest, now: int)
    ensures OthersLive(db, Login(db, email, verified, hash, now).0, None)
  {
    hide FindUser, IssueToken;
    var found := FindUser(db, email);
    if found.Ok? && found.value.Some? {
      IssuingEndsNone(db, found.value.value, hash, now);
    }
  }

  lemma RotateEndsOne(db: Db, hash: Digest, next: Digest, now: int)
    ensures OthersLive(db, Rotate(db, hash, next, now).0, Some(hash))
  {
  }

  lemma DeletionEndsOwn(db: Db, user: Uuid, hash: Digest)
    requires hash in db.tokens && db.tokens[hash].user != user
    ensures hash in DeleteUser(db, user).tokens && DeleteUser(db, user).tokens[hash] == db.tokens[hash]
  {
  }

  /** No other request touches the token. */
  lemma OthersDoNotEnd(sha: Bytes -> Digest, db: Db, r: Request, hash: Digest)
    requires hash in db.tokens && !Ends(r, hash, db.tokens[hash].user)
    ensures hash in Apply(sha, db, r).0.tokens && Apply(sha, db, r).0.tokens[hash] == db.tokens[hash]
  {
    hide PutBody, SoftDelete, DeleteAttachment, Init, PutChunk, Complete, PutVault, Share, Revoke, RemoveShared,
      Register, Login, Rotate, RevokeAll, DeleteUser;
    match r
    case RegisterUser(user, email, h, now) => RegisterEndsNone(db, user, email, h, now);
    case LoginUser(email, verified, h, now) => LoginEndsNone(db, email, verified, h, now);
    case RefreshTokens(presented, next, now) => RotateEndsOne(db, presented, next, now);
    case Logout(user, now) =>
      if user in db.users {
        LogoutRevokes(sha, db, user, now, hash);
      }
    case DeleteAccount(user, _) =>
      if db.tokens[hash].user != user {
        DeletionEndsOwn(db, user, hash);
      }
    case _ => OtherStepsLeaveTokens(sha, db, r);
  }

  /** Over runs: a stored token stays exactly as it is until its own redemption, its own
      user's logout or its own user's deletion, whatever other users do. */
  lemma {:induction false} TokenLasts(sha: Bytes -> Digest, db: Db, rs: seq<Request>, hash: Digest)
    requires hash in db.tokens && forall r :: r in rs ==> !Ends(r, hash, db.tokens[hash].user)
    ensures hash in Run(sha, db, rs).tokens && Run(sha, db, rs).tokens[hash] == db.tokens[hash]
    decreases |rs|
  {
    hide Apply, Ends;
    if rs != [] {
      assert rs[0] in rs;
      OthersDoNotEnd(sha, db, rs[0], hash);
      TokenLasts(sha, Apply(sha, db, rs[0]).0, rs[1..], hash);
    }
  }

  // ----- lineages -----

  /** Which login a stored token descends from; logins are numbered as they happen. */
  datatype Lineages = Lineages(of: map<Digest, nat>, logins: nat)

  function Follow(sha: Bytes -> Digest, db: Db, l: Lineages, r: Request): Lineages {
    var db' := Apply(sha, db, r).0;
    match r
    case RefreshTokens(presented, next, _) =>
      if Redeems(sha, db, r, presented) && presented in l.of then l.(of := l.of[next := l.of[presented]]) else l
    case _ =>
      if Issues(r).Some? && Issues(r).value !in db.tokens && Issues(r).value in db'.tokens
      then Lineages(l.of[Issues(r).value := l.logins], l.logins + 1) else l
  }

  /** Every stored token has a lineage; no lineage has two unrevoked tokens. */
  ghost predicate LineagesOk(db: Db, l: Lineages) {
    && (forall h :: h in db.tokens ==> h in l.of && l.of[h] < l.logins)
    && (forall g, h | g in db.tokens && h in db.tokens
                      && db.tokens[g].revokedAt.None? && db.tokens[h].revokedAt.None? ::
          g in l.of && h in l.of && l.of[g] == l.of[h] ==> g == h)
  }

  lemma LineageStep(sha: Bytes -> Digest, db: Db, l: Lineages, r: Request)
    requires LineagesOk(db, l)
    ensures LineagesOk(Apply(sha, db, r).0, Follow(sha, db, l, r))
  {
    hide Apply;
    TokenStep(sha, db, r);
    if r.RefreshTokens? {
      RedeemingSpends(sha, db, r, r.presented);
      if !Redeems(sha, db, r, r.presented) {
        FailedRefresh(sha, db, r);
      }
    }
  }

  lemma FailedRefresh(sha: Bytes -> Digest, db: Db, r: Request)
    requires r.RefreshTokens? && !Redeems(sha, db, r, r.presented)
    ensures Apply(sha, db, r).0 == db
  {
    hide PutBody, SoftDelete, DeleteAttachment, Init, PutChunk, Complete, PutVault, Share, Revoke, RemoveShared,
      Register, Login, RevokeAll, DeleteUser;
  }

  ghost function FollowRun(sha: Bytes -> Digest, db: Db, l: Lineages, rs: seq<Request>): Lineages
    decreases |rs|
  {
    if rs == [] then l else FollowRun(sha, Apply(sha, db, rs[0]).0, Follow(sha, db, l, rs[0]), rs[1..])
  }

  /** Over any run each login has at most one unrevoked token at a time. */
  lemma {:induction false} OneLiveTokenPerLogin(sha: Bytes -> Digest, db: Db, l: Lineages, rs: seq<Request>)
    requires LineagesOk(db, l)
    ensures LineagesOk(Run(sha, db, rs), FollowRun(sha, db, l, rs))
    decreases |rs|
  {
    hide Apply, LineagesOk, Follow;
    if rs != [] {
      LineageStep(sha, db, l, rs[0]);
      OneLiveTokenPerLogin(sha, Apply(sha, db, rs[0]).0, Follow(sha, db, l, rs[0]), rs[1..]);
    }
  }
}
