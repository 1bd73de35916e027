/** Deleting an account removes exactly what the foreign keys hang below it. */
module AccountDeletion {
  import opened Prelude
  import opened CompositeEtag
  import opened Tables
  import opened Accounts
  import opened Invariants

  /** A row of some table. */
  datatype Row =
    | UserRow(user: Uuid)
    | TokenOf(hash: Digest)
    | VaultOf(owner: Uuid)
    | NoteAt(note: NoteKey)
    | BlobAt(blob: NoteKey)
    | AttachmentAt(att: AttKey)
    | ChunkRow(chunk: ChunkKey)
    | SessionOf(session: Uuid)
    | StagedRow(stage: StageKey)
    | GrantOf(grant: Uuid)

  predicate Exists(db: Db, r: Row) {
    match r
    case UserRow(u) => u in db.users
    case TokenOf(h) => h in db.tokens
    case VaultOf(u) => u in db.vaults
    case NoteAt(n) => n in db.notes
    case BlobAt(n) => n in db.blobs
    case AttachmentAt(k) => k in db.attachments
    case ChunkRow(c) => c in db.chunks
    case SessionOf(u) => u in db.sessions
    case StagedRow(s) => s in db.staged
    case GrantOf(i) => i in db.shares
  }

  /** The rows that a row's foreign keys, all ON DELETE CASCADE, refer to. */
  function References(db: Db, r: Row): set<Row> {
    match r
    case UserRow(_) => {}
    case TokenOf(h) => if h in db.tokens then {UserRow(db.tokens[h].user)} else {}
    case VaultOf(u) => {UserRow(u)}
    case NoteAt(n) => {UserRow(n.user)}
    case BlobAt(n) => {NoteAt(n)}
    case AttachmentAt(k) => {NoteAt(NoteOf(k))}
    case ChunkRow(c) => {AttachmentAt(c.att)}
    case SessionOf(u) => if u in db.sessions then {UserRow(db.sessions[u].att.user)} else {}
    case StagedRow(s) => {SessionOf(s.upload)}
    case GrantOf(i) =>
      if i in db.shares then {UserRow(db.shares[i].recipient), NoteAt(NoteKey(db.shares[i].owner, db.shares[i].note))}
      else {}
  }

  function Depth(r: Row): nat {
    match r
    case UserRow(_) => 0
    case TokenOf(_) => 1
    case VaultOf(_) => 1
    case NoteAt(_) => 1
    case SessionOf(_) => 1
    case BlobAt(_) => 2
    case AttachmentAt(_) => 2
    case StagedRow(_) => 2
    case GrantOf(_) => 2
    case ChunkRow(_) => 3
  }

  /** The row hangs below root by a path of foreign keys. */
  ghost predicate HangsBelow(db: Db, r: Row, root: Row)
    decreases Depth(r)
  {
    exists parent :: parent in References(db, r) && Depth(parent) < Depth(r)
      && (parent == root || HangsBelow(db, parent, root))
  }

  /** Every reference of an existing row leads to an existing row. */
  lemma ReferentialIntegrity(sha: Bytes -> Digest, db: Db, r: Row, parent: Row)
    requires Inv(sha, db) && Exists(db, r) && parent in References(db, r)
    ensures Exists(db, parent)
  {
    hide SyncOk, AttachmentOk, StampsFit, UsersOk, VaultsOk, SharesOk, SessionShapeOk;
  }

  // HangsBelow, one table at a time.

  lemma BelowUser(db: Db, r: Row, u: Uuid)
    requires Depth(r) == 1
    ensures HangsBelow(db, r, UserRow(u)) <==> UserRow(u) in References(db, r)
  {
    forall parent | parent in References(db, r) ensures parent.UserRow? && !HangsBelow(db, parent, UserRow(u)) {
    }
  }

  /** Which user a content row belongs to decides. */
  lemma HangsBelowUser(db: Db, r: Row, u: Uuid)
    requires Exists(db, r)
    ensures HangsBelow(db, r, UserRow(u)) <==>
      match r
      case UserRow(_) => false
      case TokenOf(h) => db.tokens[h].user == u
      case VaultOf(v) => v == u
      case NoteAt(n) => n.user == u
      case BlobAt(n) => n.user == u
      case AttachmentAt(k) => k.user == u
      case ChunkRow(c) => c.att.user == u
      case SessionOf(s) => db.sessions[s].att.user == u
      case StagedRow(s) => s.upload in db.sessions && db.sessions[s.upload].att.user == u
      case GrantOf(i) => db.shares[i].recipient == u || db.shares[i].owner == u
  {
    match r
    case UserRow(_) =>
    case TokenOf(h) => BelowUser(db, r, u);
    case VaultOf(v) => BelowUser(db, r, u);
    case NoteAt(n) => BelowUser(db, r, u);
    case SessionOf(s) => BelowUser(db, r, u);
    case BlobAt(n) => BelowUser(db, NoteAt(n), u); assert NoteAt(n) in References(db, r);
    case AttachmentAt(k) => BelowUser(db, NoteAt(NoteOf(k)), u); assert NoteAt(NoteOf(k)) in References(db, r);
    case StagedRow(s) => BelowUser(db, SessionOf(s.upload), u); assert SessionOf(s.upload) in References(db, r);
    case GrantOf(i) => GrantBelow(db, i, u);
    case ChunkRow(c) =>
      BelowUser(db, NoteAt(NoteOf(c.att)), u);
      assert NoteAt(NoteOf(c.att)) in References(db, AttachmentAt(c.att));
      assert AttachmentAt(c.att) in References(db, r);
  }

  lemma GrantBelow(db: Db, i: Uuid, u: Uuid)
    requires i in db.shares
    ensures HangsBelow(db, GrantOf(i), UserRow(u)) <==> db.shares[i].recipient == u || db.shares[i].owner == u
  {
    var note := NoteAt(NoteKey(db.shares[i].owner, db.shares[i].note));
    var recipient := UserRow(db.shares[i].recipient);
    BelowUser(db, note, u);
    assert note in References(db, GrantOf(i)) && recipient in References(db, GrantOf(i));
    assert !HangsBelow(db, recipient, UserRow(u));
  }

  ghost predicate SameRow(db: Db, db': Db, r: Row)
    requires Exists(db, r) && Exists(db', r)
  {
    match r
    case UserRow(u) => db'.users[u] == db.users[u]
    case TokenOf(h) => db'.tokens[h] == db.tokens[h]
    case VaultOf(u) => db'.vaults[u] == db.vaults[u]
    case NoteAt(n) => db'.notes[n] == db.notes[n]
    case BlobAt(n) => db'.blobs[n] == db.blobs[n]
    case AttachmentAt(k) => db'.attachments[k] == db.attachments[k]
    case ChunkRow(c) => db'.chunks[c] == db.chunks[c]
    case SessionOf(u) => db'.sessions[u] == db.sessions[u]
    case StagedRow(s) => db'.staged[s] == db.staged[s]
    case GrantOf(i) => db'.shares[i] == db.shares[i]
  }

  /** A row goes if and only if it is the user or hangs below it; every other row
      keeps its contents, grants given and received included. */
  lemma DeletesExactlyTheCascade(db: Db, user: Uuid, r: Row)
    ensures Exists(DeleteUser(db, user), r) <==>
              Exists(db, r) && r != UserRow(user) && !HangsBelow(db, r, UserRow(user))
    ensures Exists(DeleteUser(db, user), r) ==> SameRow(db, DeleteUser(db, user), r)
  {
    hide HangsBelow;
    if Exists(db, r) {
      HangsBelowUser(db, r, user);
    }
  }
}
