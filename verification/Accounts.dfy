/** Users, refresh tokens, vault headers and share grants. */
module Accounts {
  import opened Prelude
  import opened CompositeEtag
  import opened Tables
  import opened NoteService
  import Ssnv

  const REFRESH_TOKEN_TTL := 30 * 24 * 60 * 60 * 1_000_000  // 30 days in microseconds

  // ----- refresh tokens -----

  function IssueToken(db: Db, user: Uuid, hash: Digest, now: int): (r: (Db, Outcome<()>))
    ensures r.0 == db.(tokens := r.0.tokens)
  {
    if hash in db.tokens then (db, Crash)  // UNIQUE (token_hash)
    else (db.(tokens := db.tokens[hash := TokenRow(user, now + REFRESH_TOKEN_TTL, None)]), Ok(()))
  }

  /** rotate_refresh_token: the stored token is revoked and a new one issued, or nothing happens. */
  function Rotate(db: Db, hash: Digest, next: Digest, now: int): (r: (Db, Outcome<Uuid>))
    ensures r.0 == db.(tokens := r.0.tokens)
    ensures !r.1.Ok? ==> r.0 == db
  {
    if hash !in db.tokens || db.tokens[hash].revokedAt.Some? then (db, Fail(Unauthorized))
    else if db.tokens[hash].expiresAt < now then (db, Fail(Unauthorized))
    else if db.tokens[hash].user !in db.users || next in db.tokens then (db, Crash)
    else
      var row := db.tokens[hash];
      (db.(tokens := db.tokens[hash := row.(revokedAt := Some(now))]
                              [next := TokenRow(row.user, now + REFRESH_TOKEN_TTL, None)]),
       Ok(row.user))
  }

  /** revoke_all_refresh_tokens */
  function RevokeAll(db: Db, user: Uuid, now: int): (db': Db)
    ensures db' == db.(tokens := db'.tokens) && db'.tokens.Keys == db.tokens.Keys
  {
    db.(tokens := map h | h in db.tokens ::
                    if db.tokens[h].user == user && db.tokens[h].revokedAt.None?
                    then db.tokens[h].(revokedAt := Some(now)) else db.tokens[h])
  }

  // ----- users -----

  function LowerChar(c: char): char {
    if 'A' <= c <= 'Z' then (c as int + 32) as char else c
  }

  /** lower(), for ASCII letters. */
  function Lower(s: string): (t: string)
    ensures |t| == |s|
  {
    seq(|s|, i requires 0 <= i < |s| => LowerChar(s[i]))
  }

  lemma LowerTwice(s: string)
    ensures Lower(Lower(s)) == Lower(s)
  {
  }

  /** The same letter in either case, or the same character. */
  predicate SameLetter(c: char, d: char) {
    || c == d
    || ('A' <= c <= 'Z' && 'a' <= d <= 'z' && c as int - 'A' as int == d as int - 'a' as int)
    || ('a' <= c <= 'z' && 'A' <= d <= 'Z' && c as int - 'a' as int == d as int - 'A' as int)
  }

  /** Addresses that differ in nothing but the case of ASCII letters. */
  predicate SameAddress(s: string, t: string) {
    |s| == |t| && forall i :: 0 <= i < |s| ==> SameLetter(s[i], t[i])
  }

  /** Lower folds the case of letters, and nothing else. */
  lemma LowerIs(s: string, t: string)
    ensures forall i :: 0 <= i < |s| ==> !('A' <= Lower(s)[i] <= 'Z')
    ensures SameAddress(s, Lower(s))
    ensures Lower(s) == Lower(t) <==> SameAddress(s, t)
  {
    if Lower(s) == Lower(t) {
      forall i | 0 <= i < |s| ensures SameLetter(s[i], t[i]) {
        assert Lower(s)[i] == Lower(t)[i];
      }
    }
  }

  /** WHERE lower(email) = lower(:email) */
  function UsersNamed(db: Db, email: string): set<Uuid> {
    set u | u in db.users && Lower(db.users[u]) == Lower(email)
  }

  lemma NamedAlike(db: Db, email: string)
    ensures forall u :: u in UsersNamed(db, email) <==> u in db.users && SameAddress(db.users[u], email)
  {
    hide Lower;
    forall u | u in db.users ensures Lower(db.users[u]) == Lower(email) <==> SameAddress(db.users[u], email) {
      LowerIs(db.users[u], email);
    }
  }

  function TheOnly(s: set<Uuid>): (i: Uuid)
    requires |s| == 1
    ensures i in s && s == {i}
  {
    SingletonHasOne(s);
    var i :| i in s && s == {i};
    i
  }

  lemma SingletonHasOne<T>(s: set<T>)
    requires |s| == 1
    ensures exists x :: x in s && s == {x}
  {
    var x :| x in s;
    assert |s - {x}| == 0;
    assert s == {x};
  }

  /** find_user_by_email: two matching rows raise. */
  function FindUser(db: Db, email: string): (r: Outcome<Option<Uuid>>)
    ensures r.Ok? && r.value.Some? ==> r.value.value in db.users && SameAddress(db.users[r.value.value], email)
    ensures r.Ok? && r.value.None? ==> forall u :: u in db.users ==> !SameAddress(db.users[u], email)
    ensures !r.Fail?
  {
    var found := UsersNamed(db, email);
    NamedAlike(db, email);
    if |found| > 1 then Crash else if found == {} then Ok(None) else Ok(Some(TheOnly(found)))
  }

  /** Two commits: first the user, with the address in lower case, then the first refresh token. */
  function Register(db: Db, user: Uuid, email: string, hash: Digest, now: int): (r: (Db, Outcome<()>))
    ensures r.0 == db.(users := r.0.users, tokens := r.0.tokens)
  {
    match FindUser(db, email)
    case Crash => (db, Crash)
    case Fail(e) => (db, Fail(e))
    case Ok(Some(_)) => (db, Fail(EmailExists))
    case Ok(None) =>
      if user in db.users then (db, Crash)
      else IssueToken(db.(users := db.users[user := Lower(email)]), user, hash, now)
  }

  /** The password check itself is foreign code; its answer is `verified`. */
  function Login(db: Db, email: string, verified: bool, hash: Digest, now: int): (r: (Db, Outcome<()>))
    ensures r.0 == db.(tokens := r.0.tokens)
  {
    match FindUser(db, email)
    case Crash => (db, Crash)
    case Fail(e) => (db, Fail(e))
    case Ok(None) => (db, Fail(InvalidCredentials))
    case Ok(Some(user)) => if verified then IssueToken(db, user, hash, now) else (db, Fail(InvalidCredentials))
  }

  /** delete_account: nothing happens unless the password was right. */
  function CloseAccount(db: Db, user: Uuid, verified: bool): (Db, Outcome<()>) {
    if verified then (DeleteUser(db, user), Ok(())) else (db, Fail(InvalidCredentials))
  }

  /** Deleting the users row, and what the foreign keys take with it. */
  function DeleteUser(db: Db, user: Uuid): Db {
    Db(db.users - {user},
       map h | h in db.tokens && db.tokens[h].user != user :: db.tokens[h],
       db.vaults - {user},
       map n | n in db.notes && n.user != user :: db.notes[n],
       map n | n in db.blobs && n.user != user :: db.blobs[n],
       map k | k in db.attachments && k.user != user :: db.attachments[k],
       map c | c in db.chunks && c.att.user != user :: db.chunks[c],
       map u | u in db.sessions && db.sessions[u].att.user != user :: db.sessions[u],
       map s | s in db.staged && !(s.upload in db.sessions && db.sessions[s.upload].att.user == user) :: db.staged[s],
       map i | i in db.shares && db.shares[i].owner != user && db.shares[i].recipient != user :: db.shares[i])
  }

  // ----- vault header -----

  function PutVault(db: Db, user: Uuid, header: Bytes): (r: (Db, Outcome<()>))
    ensures r.0 == db.(vaults := r.0.vaults)
    ensures !r.1.Ok? ==> r.0 == db
  {
    if header == [] then (db, Fail(Validation)) else
    match Ssnv.Parse(header)
    case ParseError => (db, Fail(Validation))
    case UnicodeError => (db, Crash)
    case Parsed(h) =>
      match Ssnv.Metadata(h).publicKey
      case None => (db, Fail(Validation))
      case Some(key) =>
        var row := VaultRow(header, key, StoredAlgorithm(Ssnv.Metadata(h).algorithmId));
        (db.(vaults := db.vaults[user := row]), Ok(()))
  }

  /** metadata.algorithm_id or 1 */
  function StoredAlgorithm(id: Option<nat>): nat {
    if id.None? || id.value == 0 then 1 else id.value
  }

  // ----- share grants -----

  /** The grants of one note id to one recipient. */
  function GrantsTo(db: Db, recipient: Uuid, note: Uuid): set<Uuid> {
    set i | i in db.shares && db.shares[i].recipient == recipient && db.shares[i].note == note
  }

  /** The caller's own grants of a note id to a user. */
  function OwnGrants(db: Db, owner: Uuid, note: Uuid, recipient: Uuid): set<Uuid> {
    set i | i in GrantsTo(db, recipient, note) && db.shares[i].owner == owner
  }

  /** scalar_one_or_none: two matching rows raise. */
  function FindGrant(db: Db, recipient: Uuid, note: Uuid): (r: Outcome<ShareRow>)
    ensures r.Fail? ==> GrantsTo(db, recipient, note) == {}
    ensures r.Ok? ==> exists i :: i in db.shares && db.shares[i] == r.value
    ensures r.Ok? ==> r.value.note == note && r.value.recipient == recipient
  {
    var found := GrantsTo(db, recipient, note);
    if |found| > 1 then Crash
    else if found == {} then Fail(ShareNotFound)
    else Ok(db.shares[TheOnly(found)])
  }

  /** decode_wrapped_fek accepts it: base64 of at least one byte. */
  predicate IsKey(wrappedFek: Option<Bytes>) {
    wrappedFek.Some? && wrappedFek.value != []
  }

  /** wrappedFek is None when the base64 text did not decode. */
  function Share(
    db: Db, owner: Uuid, note: Uuid, email: string, wrappedFek: Option<Bytes>, id: Uuid
  ): (r: (Db, Outcome<Uuid>))
    ensures r.0 == db.(shares := r.0.shares)
    ensures !r.1.Ok? ==> r.0 == db
  {
    if !Active(db.notes, NoteKey(owner, note)) then (db, Fail(NoteNotFound)) else
    match FindUser(db, email)
    case Crash => (db, Crash)
    case Fail(e) => (db, Fail(e))
    case Ok(None) => (db, Fail(UserNotFound))
    case Ok(Some(recipient)) =>
      if recipient == owner || !IsKey(wrappedFek) then (db, Fail(Validation))
      else match FindGrant(db, recipient, note)
        case Crash => (db, Crash)
        case Ok(_) => (db, Fail(AlreadyShared))
        case Fail(_) =>
          if id in db.shares then (db, Crash)
          else (db.(shares := db.shares[id := ShareRow(note, owner, recipient, wrappedFek.value)]), Ok(id))
  }

  function Revoke(db: Db, owner: Uuid, note: Uuid, email: string): (r: (Db, Outcome<()>))
    ensures r.0 == db.(shares := r.0.shares)
    ensures !r.1.Ok? ==> r.0 == db
  {
    match FindUser(db, email)
    case Crash => (db, Crash)
    case Fail(e) => (db, Fail(e))
    case Ok(None) => (db, Fail(ShareNotFound))
    case Ok(Some(recipient)) =>
      var found := OwnGrants(db, owner, note, recipient);
      if |found| > 1 then (db, Crash)
      else if found == {} then (db, Fail(ShareNotFound))
      else (db.(shares := db.shares - found), Ok(()))
  }

  function RemoveShared(db: Db, recipient: Uuid, note: Uuid): (r: (Db, Outcome<()>))
    ensures r.0 == db.(shares := r.0.shares)
    ensures !r.1.Ok? ==> r.0 == db
  {
    match FindGrant(db, recipient, note)
    case Crash => (db, Crash)
    case Fail(e) => (db, Fail(e))
    case Ok(_) => (db.(shares := db.shares - GrantsTo(db, recipient, note)), Ok(()))
  }

  // ----- the shared read routes -----

  function SharedBody(sha: Bytes -> Digest, db: Db, recipient: Uuid, note: Uuid): Outcome<(Bytes, Digest)> {
    match FindGrant(db, recipient, note)
    case Crash => Crash
    case Fail(e) => Fail(e)
    case Ok(share) =>
      var nk := NoteKey(share.owner, note);
      if nk !in db.blobs then Fail(ShareNotFound) else Ok((db.blobs[nk], sha(db.blobs[nk])))
  }

  /** The JSON form of a shared note: the wrapped key and the body. */
  function SharedNote(db: Db, recipient: Uuid, note: Uuid): Outcome<(Bytes, Bytes)> {
    match FindGrant(db, recipient, note)
    case Crash => Crash
    case Fail(e) => Fail(e)
    case Ok(share) =>
      var nk := NoteKey(share.owner, note);
      if nk !in db.blobs then Fail(ShareNotFound) else Ok((share.wrappedFek, db.blobs[nk]))
  }

  function SharedManifest(db: Db, recipient: Uuid, note: Uuid): Outcome<seq<Summary>> {
    match FindGrant(db, recipient, note)
    case Crash => Crash
    case Fail(e) => Fail(e)
    case Ok(share) => Ok(Manifest(db, NoteKey(share.owner, note)))
  }

  function SharedChunk(db: Db, recipient: Uuid, note: Uuid, attachment: Uuid, index: int): Outcome<(Bytes, Digest)> {
    match FindGrant(db, recipient, note)
    case Crash => Crash
    case Fail(e) => Fail(e)
    case Ok(share) => ReadChunk(db, AttKey(share.owner, note, attachment), index)
  }
}
