/** When the note requests succeed, and what they then leave behind. */
module Effects {
  import opened Prelude
  import opened ChunkMath
  import opened CompositeEtag
  import opened Buffer
  import opened Tables
  import opened NoteService
  import opened Accounts
  import opened Invariants
  import opened NoteProofs
  import opened AccountProofs
  import opened Machine
  import opened Frames
  import opened Downloads
  import opened Grants
  import opened RoundTrip
  import opened Rotation
  import Ssnt

  /** A body PUT succeeds exactly when the body is one encoding of at most 10 MB that
      names the note and states its attachments, the note is not deleted, an If-Match
      sent for an existing note is current, and title and time fit their columns. */
  lemma PutBodyIff(sha: Bytes -> Digest, db: Db, nk: NoteKey, body: Bytes, ifMatch: Option<string>)
    requires Inv(sha, db) && nk.user in db.users
    ensures PutBody(sha, db, nk, body, ifMatch).1.Ok?
       <==> && 0 < |body| <= 10_485_760 && Ssnt.Parse(body).Parsed?
            && var f := Ssnt.Parse(body).value;
            && f.noteId == nk.note
            && (f.attachmentCount, f.attachmentsTotalSize) == Stats(AttsOf(db.attachments, nk))
            && (nk in db.notes ==> db.notes[nk].deletedAt.None?)
            && (nk in db.notes && ifMatch.Some? ==> StripQuotes(ifMatch.value) == db.notes[nk].etag)
            && '\0' !in f.title && f.updatedAt <= 0x7fff_ffff_ffff_ffff
  {
    hide Inv, PutBody, Ssnt.Parse, Stats, AttsOf, StripQuotes;
    PutBodyAnswers(sha, db, nk, body, ifMatch);
  }

  /** What a successful PUT stores and answers; other notes keep everything. */
  lemma SuccessfulPut(sha: Bytes -> Digest, db: Db, nk: NoteKey, body: Bytes, ifMatch: Option<string>)
    requires Inv(sha, db) && nk.user in db.users && PutBody(sha, db, nk, body, ifMatch).1.Ok?
    ensures var (db', out) := PutBody(sha, db, nk, body, ifMatch);
            && TouchesOnly(db, db', nk) && db'.attachments == db.attachments && db'.chunks == db.chunks
            && Active(db'.notes, nk) && nk in db'.blobs && db'.blobs[nk] == body
            && GetBody(sha, db', nk) == Ok((body, sha(body)))
            && db'.notes[nk].etag == out.value.etag && db'.notes[nk].updatedAt == out.value.updatedAt
            && out.value.etag == SyncEtag(sha, body, AttsOf(db.attachments, nk))
            && Ssnt.Parse(body).Parsed? && db'.notes[nk].title == Ssnt.Parse(body).value.title
  {
    hide Inv, PutBody, BodyRefusal, Ssnt.Parse, SyncButOne, StampsFit, ContentOnlyUnderActive, TouchesOnly,
      SyncEtag, AttsOf, SyncStamp, ChunksOk;
    PutBodyFrame(sha, db, nk, body, ifMatch);
    PutBodyShape(sha, db, nk, body, ifMatch);
    var f := Ssnt.Parse(body).value;
    var mid := WriteBody(sha, db, nk, body, f);
    BodyWritten(sha, db, nk, body, f);
  }

  /** Deleting an attachment removes its row and its chunks and nothing else, and the
      note's index follows. */
  lemma SuccessfulDelete(sha: Bytes -> Digest, db: Db, k: AttKey)
    requires DeleteAttachment(sha, db, k).1.Ok?
    ensures var db' := DeleteAttachment(sha, db, k).0;
            && db'.attachments == db.attachments - {k} && db'.blobs == db.blobs
            && (forall c: ChunkKey :: c in db'.chunks <==> c in db.chunks && c.att != k)
            && TouchesOnly(db, db', NoteOf(k))
            && NoteOf(k) in db.blobs && NoteOf(k) in db'.notes
            && db'.notes[NoteOf(k)].etag == SyncEtag(sha, db.blobs[NoteOf(k)], AttsOf(db.attachments - {k}, NoteOf(k)))
  {
    hide TouchesOnly, SyncEtag, AttsOf, SyncStamp, Ssnt.Parse;
    DeleteAttachmentFrame(sha, db, k);
  }

  /** Deleting a note succeeds exactly on active notes and leaves a tombstone. */
  lemma SoftDeleteIff(db: Db, nk: NoteKey, now: int)
    ensures SoftDelete(db, nk, now).1.Ok? <==> Active(db.notes, nk)
    ensures SoftDelete(db, nk, now).1.Ok? ==>
              var db' := SoftDelete(db, nk, now).0;
              && Tombstone(db', nk) && db'.notes[nk] == db.notes[nk].(deletedAt := Some(now))
              && nk !in db'.blobs && (forall k :: k in db'.attachments ==> NoteOf(k) != nk)
              && TouchesOnly(db, db', nk)
  {
    SoftDeleteFrame(db, nk, now);
  }

  /** The manifest has one entry per attachment, in id order, and each states the
      number of chunks that can be fetched. */
  lemma ManifestDescribes(sha: Bytes -> Digest, db: Db, nk: NoteKey, i: nat)
    requires Inv(sha, db) && i < |Manifest(db, nk)|
    ensures |Manifest(db, nk)| == |AttIds(db.attachments, nk)|
    ensures i > 0 ==> Manifest(db, nk)[i - 1].id < Manifest(db, nk)[i].id
    ensures var entry := Manifest(db, nk)[i];
            var k := AttKey(nk.user, nk.note, entry.id);
            && k in db.attachments
            && AttRow(entry.size, entry.etag, entry.contentType, entry.updatedAt) == db.attachments[k]
            && entry.totalChunks == ChunkCount(entry.size)
            && Fetch(db, k, entry.totalChunks).Some?
            && |Fetch(db, k, entry.totalChunks).value| == entry.size
            && sha(Fetch(db, k, entry.totalChunks).value) == entry.etag
  {
    hide Inv, AttsOf, Listing, Fetch, TotalChunks, Summaries;
    var m := AttsOf(db.attachments, nk);
    var ids := Listing(m);
    assert m.Keys == AttIds(db.attachments, nk) by { KeysAre(db, nk); }
    SummaryAt(m, ids, i);
    assert ids[i] in ids;
    AttsOfEntry(db.attachments, nk, ids[i]);
    var k := AttKey(nk.user, nk.note, ids[i]);
    SizeFits(sha, db, k);
    DownloadMatchesEtag(sha, db, k);
    if i > 0 {
      SummaryAt(m, ids, i - 1);
    }
  }

  lemma KeysAre(db: Db, nk: NoteKey)
    ensures AttsOf(db.attachments, nk).Keys == AttIds(db.attachments, nk)
  {
  }

  lemma {:induction false} SummaryAt(m: map<Uuid, AttRow>, ids: seq<Uuid>, i: nat)
    requires (forall a :: a in ids ==> a in m) && i < |ids|
    ensures ids[i] in m
    ensures var row := m[ids[i]];
            Summaries(m, ids)[i]
            == Summary(ids[i], row.size, row.etag, row.updatedAt, row.contentType, TotalChunks(row.size))
  {
    hide TotalChunks;
    assert ids[0] in ids;
    if i > 0 {
      SummaryAt(m, ids[1..], i - 1);
    }
  }

  /** A refresh succeeds exactly for a stored, unrevoked token presented in time. */
  lemma RedeemsIff(sha: Bytes -> Digest, db: Db, presented: Digest, next: Digest, now: int)
    requires Inv(sha, db) && next !in db.tokens
    ensures Redeems(sha, db, RefreshTokens(presented, next, now), presented)
       <==> presented in db.tokens && db.tokens[presented].revokedAt.None? && now <= db.tokens[presented].expiresAt
  {
    hide ChunksOk, SyncOk, ContentOnlyUnderActive, StampsFit, SessionsOk, UsersOk, VaultsOk, SharesOk;
  }

  /** Registering succeeds exactly for an address nobody has in any case (with an unused
      id and token hash). The user is then found under exactly the addresses that differ
      from it in nothing but case, and the token can be redeemed for 30 days. */
  lemma RegistersIff(
    sha: Bytes -> Digest, db: Db, user: Uuid, email: string, hash: Digest, now: int,
    other: string, next: Digest, later: int)
    requires Inv(sha, db) && user !in db.users
    ensures Register(db, user, email, hash, now).1.Ok?
       <==> (forall u :: u in db.users ==> !SameAddress(db.users[u], email)) && hash !in db.tokens
    ensures Register(db, user, email, hash, now).1 == Fail(EmailExists)
       <==> exists u :: u in db.users && SameAddress(db.users[u], email)
    ensures Register(db, user, email, hash, now).1.Ok? ==>
              var db' := Register(db, user, email, hash, now).0;
              && user in db'.users && SameAddress(db'.users[user], email)
              && (FindUser(db', other) == Ok(Some(user)) <==> SameAddress(email, other))
    ensures Register(db, user, email, hash, now).1.Ok? && next !in db.tokens && next != hash ==>
              (Redeems(sha, Register(db, user, email, hash, now).0, RefreshTokens(hash, next, later), hash)
               <==> later <= now + 30 * 86_400_000_000)
  {
    hide Inv, FindUser, Redeems, Lower, SameAddress;
    UserFound(sha, db, email);
    if Register(db, user, email, hash, now).1.Ok? {
      var db' := Register(db, user, email, hash, now).0;
      RegisterKeeps(sha, db, user, email, hash, now);
      UserFound(sha, db', other);
      FoundAlike(db', other);
      LowerTwice(email);
      LowerIs(email, other);
      LowerIs(Lower(email), other);
      LowerIs(Lower(email), email);
      if next !in db.tokens && next != hash {
        RedeemsIff(sha, db', hash, next, later);
      }
    }
  }

  lemma FoundAlike(db: Db, email: string)
    ensures forall u :: FindUser(db, email) == Ok(Some(u)) ==> u in db.users && SameAddress(db.users[u], email)
  {
    hide SameAddress;
  }

  /** Logging in succeeds exactly for an address some user has, in whatever case, with
      the right password (and a fresh token hash); it adds one token of that user. */
  lemma LoginIff(sha: Bytes -> Digest, db: Db, email: string, verified: bool, hash: Digest, now: int)
    requires Inv(sha, db) && hash !in db.tokens
    ensures Login(db, email, verified, hash, now).1.Ok?
       <==> verified && exists u :: u in db.users && SameAddress(db.users[u], email)
    ensures !Login(db, email, verified, hash, now).1.Ok? ==>
              Login(db, email, verified, hash, now) == (db, Fail(InvalidCredentials))
    ensures forall u :: u in db.users && SameAddress(db.users[u], email) && verified ==>
              Login(db, email, verified, hash, now).0
              == db.(tokens := db.tokens[hash := TokenRow(u, now + 30 * 86_400_000_000, None)])
  {
    hide Inv, FindUser, SameAddress;
    UserFound(sha, db, email);
  }
}
