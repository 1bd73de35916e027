/** The handlers as the service runs them: statements on mutable tables inside a
    transaction. Each is proved to compute its specification function. */
module Store {
  import opened Prelude
  import opened ChunkMath
  import opened CompositeEtag
  import opened Tables
  import opened NoteService
  import opened Uploads
  import opened Accounts
  import opened Invariants
  import opened UploadProofs
  import opened Downloads
  import Ssnt
  import Ssnv

  lemma AbortNone(db: Db)
    ensures Abort(db, {}) == db
  {
  }

  lemma AbortOne(db: Db, done: set<Uuid>, u: Uuid)
    requires u in db.sessions
    ensures var mid := Abort(db, done);
            Abort(db, done + {u}) == mid.(sessions := mid.sessions[u := mid.sessions[u].(status := Aborted)],
                                          staged := map s | s in mid.staged && s.upload != u :: mid.staged[s])
  {
  }

  /** The staged rows inserted one after the other. */
  function Inserted(
    chunks: map<ChunkKey, Bytes>, staged: map<StageKey, Bytes>, k: AttKey, upload: Uuid, order: seq<int>
  ): map<ChunkKey, Bytes>
  {
    if order == [] then chunks else
    var j := order[|order| - 1];
    Inserted(chunks, staged, k, upload, order[..|order| - 1])[ChunkKey(k, j) := StagedAt(staged, upload, j)]
  }

  lemma {:induction false} InsertedEntry(
    chunks: map<ChunkKey, Bytes>, staged: map<StageKey, Bytes>, k: AttKey, upload: Uuid, order: seq<int>, c: ChunkKey)
    ensures var after := Inserted(chunks, staged, k, upload, order);
            && (c in after <==> c in chunks || (c.att == k && c.index in order))
            && (c in after ==>
                  after[c] == if c.att == k && c.index in order then StagedAt(staged, upload, c.index) else chunks[c])
  {
    if order != [] {
      var n := |order| - 1;
      InsertedEntry(chunks, staged, k, upload, order[..n], c);
      assert order == order[..n] + [order[n]];
    }
  }

  /** Deleting the attachment's chunks and inserting the staged rows is promotion. */
  lemma InsertedIsPromoted(chunks: map<ChunkKey, Bytes>, staged: map<StageKey, Bytes>, k: AttKey, upload: Uuid)
    ensures Inserted(ChunksWithout(chunks, k), staged, k, upload, InOrder(StagedIndices(staged, upload)))
         == Promote(chunks, staged, k, upload)
  {
    hide Inserted, Promote, StagedIndices, InOrder;
    var order := InOrder(StagedIndices(staged, upload));
    var after, spec := Inserted(ChunksWithout(chunks, k), staged, k, upload, order), Promote(chunks, staged, k, upload);
    forall c: ChunkKey
      ensures c in after <==> c in spec
      ensures c in after ==> after[c] == spec[c]
    {
      InsertedEntry(ChunksWithout(chunks, k), staged, k, upload, order, c);
      PromotedChunks(chunks, staged, k, upload, c);
      StagedIndex(staged, upload, c.index);
    }
  }

  lemma DeletedUsers(db: Db, user: Uuid)
    ensures DeleteUser(db, user).users == db.users - {user}
  {
  }

  lemma TooLong(sha: Bytes -> Digest, db: Db, nk: NoteKey, body: Bytes, ifMatch: Option<string>)
    requires |body| > MAX_BODY_BYTES
    ensures PutBody(sha, db, nk, body, ifMatch) == (db, Fail(Validation))
  {
  }

  /** What a client of the chunk routes relies on. */
  ghost predicate Serves(row: AttRow, index: int, r: Outcome<(Bytes, Digest)>) {
    if 0 <= index < TotalChunks(row.size)
    then r.Ok? && |r.value.0| == SliceLength(row.size, index) && r.value.1 == row.etag
    else r == Fail(Validation)
  }

  class Store {
    const sha: Bytes -> Digest

    // The tables as the open transaction sees them.
    var users: map<Uuid, string>
    var tokens: map<Digest, TokenRow>
    var vaults: map<Uuid, VaultRow>
    var notes: map<NoteKey, NoteRow>
    var blobs: map<NoteKey, Bytes>
    var attachments: map<AttKey, AttRow>
    var chunks: map<ChunkKey, Bytes>
    var sessions: map<Uuid, SessionRow>
    var staged: map<StageKey, Bytes>
    var shares: map<Uuid, ShareRow>

    /** What the last commit made durable. */
    var committed: Db

    function View(): Db
      reads this
    {
      Db(users, tokens, vaults, notes, blobs, attachments, chunks, sessions, staged, shares)
    }

    /** No transaction is under way. */
    ghost predicate Idle()
      reads this
    {
      View() == committed
    }

    constructor (sha: Bytes -> Digest)
      ensures this.sha == sha && Idle() && committed == EMPTY_DB
    {
      this.sha := sha;
      users, tokens, vaults, notes, blobs := map[], map[], map[], map[], map[];
      attachments, chunks, sessions, staged, shares := map[], map[], map[], map[], map[];
      committed := EMPTY_DB;
    }

    method Commit()
      modifies this`committed
      ensures committed == View()
    {
      committed := View();
    }

    /** What happens to the open transaction when a handler raises. */
    method Rollback()
      modifies this
      ensures Idle() && committed == old(committed)
    {
      users := committed.users;
      tokens := committed.tokens;
      vaults := committed.vaults;
      notes := committed.notes;
      blobs := committed.blobs;
      attachments := committed.attachments;
      chunks := committed.chunks;
      sessions := committed.sessions;
      staged := committed.staged;
      shares := committed.shares;
    }

    // ----- upload sessions -----

    /** The loop both aborting functions run over the sessions they selected. */
    method AbortSessions(ids: set<Uuid>)
      requires ids <= sessions.Keys
      modifies this`sessions, this`staged
      ensures View() == Abort(old(View()), ids)
    {
      hide Abort;
      var remaining := ids;
      AbortNone(View());
      assert ids - ids == {};
      while remaining != {}
        invariant remaining <= ids
        invariant View() == Abort(old(View()), ids - remaining)
      {
        var u: Uuid :| u in remaining;
        AbortOne(old(View()), ids - remaining, u);
        assert ids - (remaining - {u}) == ids - remaining + {u};
        sessions := sessions[u := sessions[u].(status := Aborted)];
        staged := map s | s in staged && s.upload != u :: staged[s];
        remaining := remaining - {u};
      }
      assert ids - {} == ids;
    }

    method CleanupExpiredSessions(user: Uuid, now: int)
      requires Idle()
      modifies this`sessions, this`staged, this`committed
      ensures Idle() && View() == Cleanup(old(View()), user, now)
    {
      AbortSessions(Expired(View(), user, now));
      Commit();
    }

    method AbortInProgressSessions(k: AttKey)
      modifies this`sessions, this`staged
      ensures View() == Abort(old(View()), InProgressFor(old(View()), k))
    {
      AbortSessions(InProgressFor(View(), k));
    }

    method GetUploadSession(k: AttKey, upload: Uuid, t: Clock) returns (r: Outcome<SessionRow>)
      requires Idle()
      modifies this`sessions, this`staged, this`committed
      ensures Idle() && (View(), r) == OpenSession(old(View()), k, upload, t)
    {
      hide Expired;
      CleanupExpiredSessions(k.user, t.first);
      if upload !in sessions || sessions[upload].att != k {
        return Fail(NoteNotFound);
      }
      if sessions[upload].expiresAt < t.second {
        AbortSessions({upload});
        Commit();
        return Fail(Conflict);
      }
      if sessions[upload].status != InProgress {
        return Fail(Conflict);
      }
      return Ok(sessions[upload]);
    }

    method InitUpload(k: AttKey, totalSize: nat, upload: Uuid, t: Clock) returns (r: Outcome<Uploads.InitUpload>)
      requires Idle()
      modifies this
      ensures Idle() && (View(), r) == Init(old(View()), k, totalSize, upload, t)
    {
      hide Expired, InProgressFor, Abort, FloatCeil;
      if totalSize == 0 {
        return Fail(Validation);
      }
      if !Active(notes, NoteOf(k)) {
        return Fail(NoteNotFound);
      }
      CleanupExpiredSessions(k.user, t.first);
      AbortInProgressSessions(k);
      var total := TotalChunks(totalSize);
      if total > INT4_MAX || upload in sessions {
        Rollback();
        return Crash;
      }
      sessions := sessions[upload := SessionRow(k, totalSize, CHUNK_SIZE, 0, total,
        InProgress, t.second + UPLOAD_SESSION_TTL)];
      Commit();
      return Ok(Uploads.InitUpload(upload, CHUNK_SIZE, total));
    }

    method UploadChunk(k: AttKey, upload: Uuid, index: int, data: Bytes, t: Clock) returns (r: Outcome<()>)
      requires Idle()
      modifies this`sessions, this`staged, this`committed
      ensures Idle() && (View(), r) == PutChunk(old(View()), k, upload, index, data, t)
    {
      hide OpenSession, ChunkLengthOf;
      var got := GetUploadSession(k, upload, t);
      match got
      case Fail(e) => return Fail(e);
      case Crash => return Crash;
      case Ok(session) =>
        if ChunkLengthOf(session, index) != Some(|data|) {
          return Fail(Validation);
        }
        var key := StageKey(upload, index);
        if key !in staged {
          staged := staged[key := data];
          sessions := sessions[upload := session.(received := session.received + 1)];
        } else {
          staged := staged[key := data];
        }
        Commit();
        return Ok(());
    }

    /** sum(len(chunk.data) for chunk in chunks) */
    static method SumLengths(parts: seq<Bytes>) returns (total: nat)
      ensures total == TotalLength(parts)
    {
      hide TotalLength;
      JoinEmpty();
      total := 0;
      for i := 0 to |parts|
        invariant total == TotalLength(parts[..i])
      {
        assert parts[..i + 1] == parts[..i] + [parts[i]];
        JoinSnoc(parts[..i], parts[i]);
        total := total + |parts[i]|;
      }
      assert parts[..|parts|] == parts;
    }

    method CompleteUpload(
      k: AttKey, upload: Uuid, ifMatch: Option<string>, contentType: Option<string>, t: Clock, stamp: Epoch
    ) returns (r: Outcome<AttachmentUpload>)
      requires Idle()
      modifies this
      ensures Idle() && (View(), r) == Complete(sha, old(View()), k, upload, ifMatch, contentType, t, stamp)
    {
      hide OpenSession, Finalize, StagedParts, TotalLength, StagedIndices;
      var got := GetUploadSession(k, upload, t);
      match got
      case Fail(e) => return Fail(e);
      case Crash => return Crash;
      case Ok(session) =>
        if session.received != session.expected {
          return Fail(Validation);
        }
        var parts := StagedParts(staged, upload);
        if |parts| != session.expected {
          return Fail(Validation);
        }
        var total := SumLengths(parts);
        if total != session.totalSize {
          return Fail(Validation);
        }
        r := FinalizeChunkedUpload(k, upload, session.totalSize, contentType, ifMatch, stamp);
        if r.Ok? {
          staged := map s | s in staged && s.upload != upload :: staged[s];
          sessions := sessions - {upload};
          Commit();
        } else {
          Rollback();
        }
    }

    // ----- attachments -----

    /** The hasher is fed chunk by chunk; what it has been fed is their concatenation. */
    static method Feed(parts: seq<Bytes>) returns (fed: Bytes)
      ensures fed == Join(parts)
    {
      hide Join;
      JoinEmpty();
      fed := [];
      for i := 0 to |parts|
        invariant fed == Join(parts[..i])
      {
        assert parts[..i + 1] == parts[..i] + [parts[i]];
        JoinSnoc(parts[..i], parts[i]);
        fed := fed + parts[i];
      }
      assert parts[..|parts|] == parts;
    }

    method ComputeUploadEtag(upload: Uuid) returns (etag: Digest)
      ensures etag == sha(Join(StagedParts(staged, upload)))
    {
      hide StagedParts, Join;
      var fed := Feed(StagedParts(staged, upload));
      return sha(fed);
    }

    /** Delete the attachment's chunks, then insert the staged rows one at a time. */
    method PromoteUploadChunks(k: AttKey, upload: Uuid)
      modifies this`chunks
      ensures chunks == Promote(old(chunks), staged, k, upload)
    {
      hide Promote, StagedIndices, InOrder;
      chunks := ChunksWithout(chunks, k);
      var order := InOrder(StagedIndices(staged, upload));
      for i := 0 to |order|
        invariant chunks == Inserted(ChunksWithout(old(chunks), k), staged, k, upload, order[..i])
      {
        assert order[..i + 1][..i] == order[..i];
        chunks := chunks[ChunkKey(k, order[i]) := StagedAt(staged, upload, order[i])];
      }
      assert order[..|order|] == order;
      InsertedIsPromoted(old(chunks), staged, k, upload);
    }

    method WriteAttachmentRow(
      k: AttKey, existing: Option<AttRow>, totalSize: nat, etag: Digest, stamp: Epoch, contentType: Option<string>)
      requires existing == if k in attachments then Some(attachments[k]) else None
      modifies this`attachments
      ensures attachments == old(attachments)[k := AttachmentAfter(existing, totalSize, etag, stamp, contentType)]
    {
      if existing.None? {
        attachments := attachments[k := AttRow(totalSize, etag, contentType, stamp)];
      } else {
        attachments := attachments[k := existing.value.(size := totalSize, etag := etag, updatedAt := stamp)];
        if contentType.Some? {
          attachments := attachments[k := attachments[k].(contentType := contentType)];
        }
      }
    }

    /** Leaves the transaction open; the caller commits or rolls back. */
    method FinalizeChunkedUpload(
      k: AttKey, upload: Uuid, totalSize: nat, contentType: Option<string>, ifMatch: Option<string>, stamp: Epoch
    ) returns (r: Outcome<AttachmentUpload>)
      modifies this`notes, this`attachments, this`chunks
      ensures r == Finalize(sha, old(View()), k, upload, totalSize, contentType, ifMatch, stamp).1
      ensures r.Ok? ==> View() == Finalize(sha, old(View()), k, upload, totalSize, contentType, ifMatch, stamp).0
    {
      hide Promote, StagedParts, Join, Recompute, StripQuotes, IsPgText;
      if !Active(notes, NoteOf(k)) {
        return Fail(NoteNotFound);
      }
      var existing := if k in attachments then Some(attachments[k]) else None;
      if existing.Some? && ifMatch.Some? && StripQuotes(ifMatch.value) != existing.value.etag {
        return Fail(Conflict);
      }
      var etag := ComputeUploadEtag(upload);
      WriteAttachmentRow(k, existing, totalSize, etag, stamp, contentType);
      var storedContentType := attachments[k].contentType;
      PromoteUploadChunks(k, upload);
      if contentType.Some? && !IsPgText(contentType.value) {
        return Crash;  // flush
      }
      assert View() == WriteAttachment(sha, old(View()), k, upload, totalSize, contentType, stamp);
      var note := RecomputeNoteSyncMetadata(NoteOf(k), None);
      match note
      case Fail(e) => return Fail(e);
      case Crash => return Crash;
      case Ok(n) => return Ok(AttachmentUpload(totalSize, etag, stamp, n.etag, storedContentType));
    }

    method DeleteAttachment(k: AttKey) returns (r: Outcome<()>)
      requires Idle()
      modifies this
      ensures Idle() && (View(), r) == NoteService.DeleteAttachment(sha, old(View()), k)
    {
      hide Recompute;
      if !Active(notes, NoteOf(k)) {
        return Fail(NoteNotFound);
      }
      if k !in attachments {
        return Fail(AttachmentNotFound);
      }
      attachments := attachments - {k};
      chunks := ChunksWithout(chunks, k);  // ON DELETE CASCADE
      assert View() == EraseAttachment(old(View()), k);
      var note := RecomputeNoteSyncMetadata(NoteOf(k), None);
      match note
      case Fail(e) => Rollback(); return Fail(e);
      case Crash => Rollback(); return Crash;
      case Ok(_) => Commit(); return Ok(());
    }

    // ----- notes -----

    /** max((a.updated_at for a in attachments), default=0) */
    method LatestAttachmentStamp(m: map<Uuid, AttRow>) returns (latest: nat)
      ensures latest == LatestStamp(m, Listing(m))
    {
      hide Listing;
      var ids := Listing(m);
      latest := 0;
      var i := |ids|;
      while i > 0
        invariant 0 <= i <= |ids|
        invariant latest == LatestStamp(m, ids[i..])
      {
        i := i - 1;
        assert ids[i] in ids;
        assert ids[i..][1..] == ids[i + 1..];
        latest := Max(m[ids[i]].updatedAt, latest);
      }
      assert ids[0..] == ids;
    }

    method RecomputeNoteSyncMetadata(nk: NoteKey, given: Option<BodyInfo>) returns (r: Outcome<NoteUpload>)
      modifies this`notes
      ensures (View(), r) == Recompute(sha, old(View()), nk, given)
    {
      hide AttsOf, LatestStamp, Ssnt.Parse, Listing;
      if !Active(notes, nk) {
        return Fail(NoteNotFound);
      }
      var body: Bytes;
      var bodyUpdatedAt: nat;
      match given {
        case Some(info) =>
          body, bodyUpdatedAt := info.bytes, info.updatedAt;
        case None =>
          if nk !in blobs {
            return Fail(NoteNotFound);
          }
          body := blobs[nk];
          var parsed := Ssnt.ParseNoteBlob(body);
          match parsed {
            case ParseError => return Fail(Validation);
            case UnicodeError => return Crash;
            case Parsed(metadata) => bodyUpdatedAt := metadata.updatedAt;
          }
      }
      var m := AttsOf(attachments, nk);
      var composite := Composite(sha, sha(body), EtagPairs(m));
      var latest := LatestAttachmentStamp(m);
      var updatedAt := Max(bodyUpdatedAt, latest);
      if updatedAt > INT8_MAX {
        return Crash;
      }
      notes := notes[nk := notes[nk].(etag := composite, updatedAt := updatedAt)];
      return Ok(NoteUpload(updatedAt, composite));
    }

    method PutNoteBody(nk: NoteKey, body: Bytes, ifMatch: Option<string>) returns (r: Outcome<NoteUpload>)
      requires Idle()
      modifies this
      ensures Idle() && (View(), r) == PutBody(sha, old(View()), nk, body, ifMatch)
    {
      hide PutBody;
      if |body| > MAX_BODY_BYTES {
        TooLong(sha, View(), nk, body, ifMatch);
        return Fail(Validation);
      }
      r := PersistNoteBody(nk, body, ifMatch);
      if !r.Ok? {
        Rollback();
      }
    }

    /** Raises, with whatever it had written still uncommitted, unless it succeeds. */
    method PersistNoteBody(nk: NoteKey, body: Bytes, ifMatch: Option<string>) returns (r: Outcome<NoteUpload>)
      requires Idle() && |body| <= MAX_BODY_BYTES
      modifies this`notes, this`blobs, this`committed
      ensures r == PutBody(sha, old(View()), nk, body, ifMatch).1
      ensures committed == PutBody(sha, old(View()), nk, body, ifMatch).0
      ensures r.Ok? ==> Idle()
    {
      hide AttsOf, Ssnt.Parse, Stats, Recompute, IsPgText, StripQuotes;
      if body == [] {
        return Fail(Validation);
      }
      var parsed := Ssnt.ParseNoteBlob(body);
      match parsed
      case ParseError => return Fail(Validation);
      case UnicodeError => return Crash;
      case Parsed(metadata) =>
        if metadata.noteId != nk.note {
          return Fail(Validation);
        }
        var (count, totalSize) := Stats(AttsOf(attachments, nk));
        if metadata.attachmentCount != count {
          return Fail(Validation);
        }
        if metadata.attachmentsTotalSize != totalSize {
          return Fail(Validation);
        }
        if Active(notes, nk) && ifMatch.Some? && notes[nk].etag != StripQuotes(ifMatch.value) {
          return Fail(Conflict);
        }
        ghost var f := Ssnt.Parse(body).value;
        if !Active(notes, nk) {
          if nk in notes || nk in blobs {
            return Crash;  // primary keys
          }
          notes := notes[nk := NoteRow(metadata.title, metadata.updatedAt, sha([]), None)];
          blobs := blobs[nk := body];
        } else {
          notes := notes[nk := notes[nk].(title := metadata.title)];
          blobs := blobs[nk := body];
        }
        if !IsPgText(metadata.title) || metadata.updatedAt > INT8_MAX {
          return Crash;  // flush
        }
        assert View() == WriteBody(sha, old(View()), nk, body, f);
        r := RecomputeNoteSyncMetadata(nk, Some(BodyInfo(body, metadata.updatedAt)));
        if r.Ok? {
          Commit();
        }
    }

    method SoftDeleteNote(nk: NoteKey, now: int) returns (r: Outcome<()>)
      requires Idle()
      modifies this`notes, this`blobs, this`attachments, this`chunks, this`committed
      ensures Idle() && (View(), r) == SoftDelete(old(View()), nk, now)
    {
      if !Active(notes, nk) {
        return Fail(NoteNotFound);
      }
      notes := notes[nk := notes[nk].(deletedAt := Some(now))];
      blobs := blobs - {nk};
      attachments := map k | k in attachments && NoteOf(k) != nk :: attachments[k];
      chunks := map c | c in chunks && NoteOf(c.att) != nk :: chunks[c];  // ON DELETE CASCADE
      Commit();
      return Ok(());
    }

    /** In a reachable state every index in range is served with its length and the
        attachment's etag, and every other index is refused as invalid. */
    method GetAttachmentChunk(k: AttKey, index: int) returns (r: Outcome<(Bytes, Digest)>)
      ensures r == GetChunk(View(), k, index)
      ensures Inv(sha, View()) && k in attachments ==> Serves(attachments[k], index, r)
      ensures Inv(sha, View()) && k !in attachments ==>
                r == Fail(if Active(notes, NoteOf(k)) then AttachmentNotFound else NoteNotFound)
    {
      hide ReadChunk, Inv, Serves;
      if !Active(notes, NoteOf(k)) {
        if Inv(sha, View()) && k in attachments {
          ActiveWithAttachment(sha, View(), k);
        }
        return Fail(NoteNotFound);
      }
      r := ServeChunk(k, index);
    }

    method GetSharedAttachmentChunk(recipient: Uuid, note: Uuid, attachment: Uuid, index: int)
      returns (r: Outcome<(Bytes, Digest)>)
      ensures r == SharedChunk(View(), recipient, note, attachment, index)
      ensures FindGrant(View(), recipient, note).Ok? ==>
                var k := AttKey(FindGrant(View(), recipient, note).value.owner, note, attachment);
                Inv(sha, View()) ==>
                if k in attachments then Serves(attachments[k], index, r) else r == Fail(AttachmentNotFound)
    {
      hide FindGrant, ReadChunk, Inv, Serves;
      var share := FindGrant(View(), recipient, note);
      match share
      case Crash => return Crash;
      case Fail(e) => return Fail(e);
      case Ok(grant) => r := ServeChunk(AttKey(grant.owner, note, attachment), index);
    }

    method ServeChunk(k: AttKey, index: int) returns (r: Outcome<(Bytes, Digest)>)
      ensures r == ReadChunk(View(), k, index)
      ensures Inv(sha, View()) && k in attachments ==> Serves(attachments[k], index, r)
      ensures k !in attachments ==> r == Fail(AttachmentNotFound)
    {
      hide ExpectedAttachmentChunk, TotalChunks, SliceLength, Inv;
      if Inv(sha, View()) && k in attachments {
        ChunkServed(sha, View(), k, index);
      }
      if k !in attachments {
        return Fail(AttachmentNotFound);
      }
      var expected := ExpectedAttachmentChunk(attachments[k].size, index);
      if expected.None? {
        return Fail(Validation);
      }
      var key := ChunkKey(k, index);
      if key !in chunks {
        return Fail(ChunkNotFound);
      }
      if |chunks[key]| != expected.value {
        return Fail(StoredSizeMismatch);
      }
      return Ok((chunks[key], attachments[k].etag));
    }

    // ----- vault header -----

    method PutVaultHeader(user: Uuid, header: Bytes) returns (r: Outcome<()>)
      requires Idle()
      modifies this`vaults, this`committed
      ensures Idle() && (View(), r) == PutVault(old(View()), user, header)
    {
      hide Ssnv.Parse;
      if header == [] {
        return Fail(Validation);
      }
      var parsed := Ssnv.ParseVaultHeader(header);
      match parsed
      case ParseError => return Fail(Validation);
      case UnicodeError => return Crash;
      case Parsed(metadata) =>
        if metadata.publicKey.None? {
          return Fail(Validation);
        }
        var algorithmId := 1;  // metadata.algorithm_id or 1
        if metadata.algorithmId.Some? && metadata.algorithmId.value != 0 {
          algorithmId := metadata.algorithmId.value;
        }
        if user !in vaults {
          vaults := vaults[user := VaultRow(header, metadata.publicKey.value, algorithmId)];
        } else {
          vaults := vaults[user := vaults[user].(header := header)];
          vaults := vaults[user := vaults[user].(publicKey := metadata.publicKey.value)];
          vaults := vaults[user := vaults[user].(algorithmId := algorithmId)];
        }
        assert vaults == old(vaults)[user := VaultRow(header, metadata.publicKey.value, algorithmId)];
        Commit();
        return Ok(());
    }

    // ----- refresh tokens and accounts -----

    /** Adds the row; false stands for the violated UNIQUE constraint. */
    method CreateRefreshToken(user: Uuid, hash: Digest, now: int) returns (ok: bool)
      modifies this`tokens
      ensures ok == (hash !in old(tokens))
      ensures tokens == if ok then old(tokens)[hash := TokenRow(user, now + REFRESH_TOKEN_TTL, None)] else old(tokens)
    {
      ok := hash !in tokens;
      if ok {
        tokens := tokens[hash := TokenRow(user, now + REFRESH_TOKEN_TTL, None)];
      }
    }

    /** Two transactions: the user row is committed before the first token is added. */
    method RegisterUser(user: Uuid, email: string, hash: Digest, now: int) returns (r: Outcome<()>)
      requires Idle()
      modifies this`users, this`tokens, this`committed
      ensures Idle() && (View(), r) == Register(old(View()), user, email, hash, now)
    {
      hide FindUser, Lower, IssueToken;
      var existing := FindUser(View(), email);
      if existing.Crash? {
        return Crash;
      }
      if existing.value.Some? {
        return Fail(EmailExists);
      }
      if user in users {
        return Crash;
      }
      users := users[user := Lower(email)];
      Commit();
      r := AddToken(user, hash, now);
    }

    method LoginUser(email: string, verified: bool, hash: Digest, now: int) returns (r: Outcome<()>)
      requires Idle()
      modifies this`tokens, this`committed
      ensures Idle() && (View(), r) == Login(old(View()), email, verified, hash, now)
    {
      hide FindUser, IssueToken;
      var user := FindUser(View(), email);
      if user.Crash? {
        return Crash;
      }
      if user.value.None? || !verified {
        return Fail(InvalidCredentials);
      }
      r := AddToken(user.value.value, hash, now);
    }

    method AddToken(user: Uuid, hash: Digest, now: int) returns (r: Outcome<()>)
      requires Idle()
      modifies this`tokens, this`committed
      ensures Idle() && (View(), r) == IssueToken(old(View()), user, hash, now)
    {
      var added := CreateRefreshToken(user, hash, now);
      if !added {
        return Crash;
      }
      Commit();
      return Ok(());
    }

    method RotateRefreshToken(hash: Digest, next: Digest, now: int) returns (r: Outcome<Uuid>)
      requires Idle()
      modifies this
      ensures Idle() && (View(), r) == Rotate(old(View()), hash, next, now)
    {
      if hash !in tokens || tokens[hash].revokedAt.Some? {
        return Fail(Unauthorized);
      }
      var stored := tokens[hash];
      if stored.expiresAt < now {
        return Fail(Unauthorized);
      }
      if stored.user !in users {
        return Crash;
      }
      tokens := tokens[hash := stored.(revokedAt := Some(now))];
      var added := CreateRefreshToken(stored.user, next, now);
      if !added {
        Rollback();
        return Crash;
      }
      Commit();
      return Ok(stored.user);
    }

    method RevokeAllRefreshTokens(user: Uuid, now: int)
      requires Idle()
      modifies this`tokens, this`committed
      ensures Idle() && View() == RevokeAll(old(View()), user, now)
    {
      var remaining := set h | h in tokens && tokens[h].user == user && tokens[h].revokedAt.None?;
      ghost var all := remaining;
      while remaining != {}
        invariant remaining <= all && tokens.Keys == old(tokens).Keys
        invariant forall h :: h in tokens ==>
                    tokens[h] == if h in all - remaining then old(tokens)[h].(revokedAt := Some(now))
                    else old(tokens)[h]
      {
        var h: Digest :| h in remaining;
        tokens := tokens[h := tokens[h].(revokedAt := Some(now))];
        remaining := remaining - {h};
      }
      assert tokens == RevokeAll(old(View()), user, now).tokens;
      Commit();
    }

    /** Deleting the row takes with it every row the foreign keys hang below it. */
    method DeleteAccount(user: Uuid, verified: bool) returns (r: Outcome<()>)
      requires Idle()
      modifies this
      ensures Idle() && (View(), r) == CloseAccount(old(View()), user, verified)
    {
      hide DeleteUser;
      if !verified {
        return Fail(InvalidCredentials);
      }
      RemoveUser(user);
      return Ok(());
    }

    method RemoveUser(user: Uuid)
      requires Idle()
      modifies this
      ensures Idle() && View() == DeleteUser(old(View()), user)
    {
      hide DeleteUser;
      ghost var before := View();
      DeletedUsers(before, user);
      users := users - {user};
      CascadeToTokensAndShares(user, before);
      CascadeToSessions(user, before);
      CascadeToNotes(user, before);
      CascadeToAttachments(user, before);
      Commit();
    }

    method CascadeToTokensAndShares(user: Uuid, ghost before: Db)
      requires tokens == before.tokens && vaults == before.vaults && shares == before.shares
      modifies this`tokens, this`vaults, this`shares
      ensures tokens == DeleteUser(before, user).tokens
      ensures vaults == DeleteUser(before, user).vaults
      ensures shares == DeleteUser(before, user).shares
    {
      tokens := map h | h in tokens && tokens[h].user != user :: tokens[h];
      vaults := vaults - {user};
      shares := map i | i in shares && shares[i].owner != user && shares[i].recipient != user :: shares[i];
    }

    method CascadeToSessions(user: Uuid, ghost before: Db)
      requires sessions == before.sessions && staged == before.staged
      modifies this`sessions, this`staged
      ensures sessions == DeleteUser(before, user).sessions
      ensures staged == DeleteUser(before, user).staged
    {
      var doomed := set u | u in sessions && sessions[u].att.user == user;
      staged := map s | s in staged && s.upload !in doomed :: staged[s];
      sessions := sessions - doomed;
    }

    method CascadeToNotes(user: Uuid, ghost before: Db)
      requires notes == before.notes && blobs == before.blobs
      modifies this`notes, this`blobs
      ensures notes == DeleteUser(before, user).notes && blobs == DeleteUser(before, user).blobs
    {
      notes := map n | n in notes && n.user != user :: notes[n];
      blobs := map n | n in blobs && n.user != user :: blobs[n];
    }

    method CascadeToAttachments(user: Uuid, ghost before: Db)
      requires attachments == before.attachments && chunks == before.chunks
      modifies this`attachments, this`chunks
      ensures attachments == DeleteUser(before, user).attachments && chunks == DeleteUser(before, user).chunks
    {
      attachments := map k | k in attachments && k.user != user :: attachments[k];
      chunks := map c | c in chunks && c.att.user != user :: chunks[c];
    }

    // ----- share grants -----

    method ShareNote(owner: Uuid, note: Uuid, email: string, wrappedFek: Option<Bytes>, id: Uuid)
      returns (r: Outcome<Uuid>)
      requires Idle()
      modifies this`shares, this`committed
      ensures Idle() && (View(), r) == Share(old(View()), owner, note, email, wrappedFek, id)
    {
      hide FindUser, FindGrant;
      if !Active(notes, NoteKey(owner, note)) {
        return Fail(NoteNotFound);
      }
      var found := FindUser(View(), email);
      match found
      case Crash => return Crash;
      case Fail(e) => return Fail(e);
      case Ok(None) => return Fail(UserNotFound);
      case Ok(Some(recipient)) =>
        if recipient == owner {
          return Fail(Validation);
        }
        if wrappedFek.None? || wrappedFek.value == [] {
          return Fail(Validation);
        }
        var existing := FindGrant(View(), recipient, note);
        match existing {
          case Crash => return Crash;
          case Ok(_) => return Fail(AlreadyShared);
          case Fail(_) =>
        }
        if id in shares {
          return Crash;
        }
        shares := shares[id := ShareRow(note, owner, recipient, wrappedFek.value)];
        Commit();
        return Ok(id);
    }

    method RevokeShare(owner: Uuid, note: Uuid, email: string) returns (r: Outcome<()>)
      requires Idle()
      modifies this`shares, this`committed
      ensures Idle() && (View(), r) == Revoke(old(View()), owner, note, email)
    {
      hide FindUser, OwnGrants;
      var user := FindUser(View(), email);
      match user
      case Crash => return Crash;
      case Fail(e) => return Fail(e);
      case Ok(None) => return Fail(ShareNotFound);
      case Ok(Some(recipient)) =>
        var found := OwnGrants(View(), owner, note, recipient);
        if |found| > 1 {
          return Crash;
        }
        if found == {} {
          return Fail(ShareNotFound);
        }
        shares := shares - found;
        Commit();
        return Ok(());
    }

    method RemoveSharedNote(recipient: Uuid, note: Uuid) returns (r: Outcome<()>)
      requires Idle()
      modifies this`shares, this`committed
      ensures Idle() && (View(), r) == RemoveShared(old(View()), recipient, note)
    {
      hide FindGrant;
      var share := FindGrant(View(), recipient, note);
      match share
      case Crash => return Crash;
      case Fail(e) => return Fail(e);
      case Ok(_) =>
        shares := shares - GrantsTo(View(), recipient, note);
        Commit();
        return Ok(());
    }
  }
}
