/** One user registers, writes a note, uploads an attachment and shares the note;
    another reads it. The scenario of the service's own tests, for all inputs. */
module EndToEnd {
  import opened Prelude
  import opened ChunkMath
  import opened CompositeEtag
  import opened Buffer
  import opened Tables
  import opened NoteService
  import opened Uploads
  import opened Accounts
  import opened Invariants
  import opened NoteProofs
  import opened AccountProofs
  import opened Machine
  import opened Frames
  import opened Downloads
  import opened Grants
  import opened RoundTrip
  import opened Effects
  import opened Client
  import Ssnt
  import Store

  /** A database with users and their tokens and nothing else. */
  ghost predicate OnlyAccounts(db: Db) {
    db == EMPTY_DB.(users := db.users, tokens := db.tokens)
  }

  lemma Registered(db: Db, user: Uuid, email: string, hash: Digest, now: int)
    requires OnlyAccounts(db) && user !in db.users && hash !in db.tokens
    requires forall u :: u in db.users ==> !SameAddress(db.users[u], email)
    ensures Register(db, user, email, hash, now).1.Ok?
    ensures var db' := Register(db, user, email, hash, now).0;
            && OnlyAccounts(db') && db'.users == db.users[user := Lower(email)]
            && db'.tokens.Keys == db.tokens.Keys + {hash}
  {
    hide Lower, SameAddress;
    NamedAlike(db, email);
    assert UsersNamed(db, email) == {};
  }

  /** The first body of a new note is accepted when it is well formed, names the note
      and states that there are no attachments. */
  lemma FirstBodyAccepted(sha: Bytes -> Digest, db: Db, nk: NoteKey, f: Ssnt.Fields)
    requires Inv(sha, db) && OnlyAccounts(db) && nk.user in db.users
    requires FirstBody(f, nk)
    ensures PutBody(sha, db, nk, Ssnt.Print(f), None).1.Ok?
  {
    hide Inv, PutBody, Ssnt.Parse, Ssnt.Print, AttsOf, Stats, Ssnt.Printable;
    Ssnt.Canonical(Ssnt.Print(f), f);
    NoAttachments(nk);
    BodyNotEmpty(f);
    PutBodyIff(sha, db, nk, Ssnt.Print(f), None);
  }

  lemma BodyNotEmpty(f: Ssnt.Fields)
    requires Ssnt.Printable(f)
    ensures Ssnt.Print(f) != []
  {
    hide Ssnt.PrintTail;
  }

  lemma NoAttachments(nk: NoteKey)
    ensures Stats(AttsOf(map[], nk)) == (0, 0)
  {
    assert AttIds(map[], nk) == {};
    assert AttsOf(map[], nk) == map[];
    assert Listing(map[]) == [];
  }

  ghost predicate FirstBody(f: Ssnt.Fields, nk: NoteKey) {
    && Ssnt.Printable(f) && |Ssnt.Print(f)| <= MAX_BODY_BYTES
    && f.noteId == nk.note && f.attachmentCount == 0 && f.attachmentsTotalSize == 0
    && IsPgText(f.title) && f.updatedAt <= INT8_MAX
  }

  datatype Cast = Cast(
    owner: Uuid, ownerEmail: string, ownerHash: Digest, reader: Uuid, readerEmail: string, readerHash: Digest)

  ghost predicate Distinct(c: Cast) {
    c.owner != c.reader && !SameAddress(c.ownerEmail, c.readerEmail) && c.ownerHash != c.readerHash
  }

  /** What the service answered along the way. */
  datatype Replies = Replies(
    owner: Outcome<()>, reader: Outcome<()>, saved: Outcome<NoteUpload>,
    uploaded: Outcome<AttachmentUpload>, shared: Outcome<Uuid>)

  /** Two accounts, and the owner's first note. */
  method Prepare(sha: Bytes -> Digest, c: Cast, note: Uuid, f: Ssnt.Fields, now: int)
    returns (store: Store.Store, owner: Outcome<()>, reader: Outcome<()>, saved: Outcome<NoteUpload>)
    requires Distinct(c) && FirstBody(f, NoteKey(c.owner, note))
    ensures fresh(store) && store.sha == sha && Consistent(store)
    ensures owner.Ok? && reader.Ok? && saved.Ok? && saved.value.etag == SyncEtag(sha, Ssnt.Print(f), map[])
    ensures store.users == map[c.owner := Lower(c.ownerEmail)][c.reader := Lower(c.readerEmail)]
    ensures Active(store.notes, NoteKey(c.owner, note)) && store.blobs == map[NoteKey(c.owner, note) := Ssnt.Print(f)]
    ensures store.notes[NoteKey(c.owner, note)].etag == saved.value.etag
    ensures store.sessions == map[] && store.shares == map[]
  {
    hide Inv, SessionsExact, Register, PutBody, Ssnt.Print, Ssnt.Parse, Ssnt.Printable, TouchesOnly, AttsOf, Lower,
      SyncEtag, SameAddress;
    var nk := NoteKey(c.owner, note);
    store := new Store.Store(sha);
    EmptyDbOk(sha);
    LowerTwice(c.ownerEmail);
    LowerIs(c.ownerEmail, c.readerEmail);
    LowerIs(Lower(c.ownerEmail), c.readerEmail);
    Registered(store.View(), c.owner, c.ownerEmail, c.ownerHash, now);
    RegisterKeeps(sha, store.View(), c.owner, c.ownerEmail, c.ownerHash, now);
    owner := store.RegisterUser(c.owner, c.ownerEmail, c.ownerHash, now);
    Registered(store.View(), c.reader, c.readerEmail, c.readerHash, now);
    RegisterKeeps(sha, store.View(), c.reader, c.readerEmail, c.readerHash, now);
    reader := store.RegisterUser(c.reader, c.readerEmail, c.readerHash, now);
    ghost var db := store.View();
    var body := Ssnt.MakeNoteBlob(f);
    FirstBodyAccepted(sha, db, nk, f);
    SuccessfulPut(sha, db, nk, body, None);
    PutBodyKeeps(sha, db, nk, body, None);
    saved := store.PutNoteBody(nk, body, None);
    NoneAttached(nk);
    OnlyBlob(sha, db, store.View(), nk, body);
  }

  lemma NoneAttached(nk: NoteKey)
    ensures AttsOf(map[], nk) == map[]
  {
    assert AttIds(map[], nk) == {};
  }

  lemma OnlyBlob(sha: Bytes -> Digest, db: Db, db': Db, nk: NoteKey, body: Bytes)
    requires db.blobs == map[] && TouchesOnly(db, db', nk) && nk in db'.blobs && db'.blobs[nk] == body
    ensures db'.blobs == map[nk := body]
  {
    forall o | o in db'.blobs ensures o == nk {
      assert o != nk ==> o in db.blobs;
    }
  }

  /** The whole scenario. Every request is answered as it should be; the store then
      holds the attachment, serves each of its chunks to owner and reader as the
      slices of the bytes uploaded, and serves the reader the body; and that is what
      the two download loops return. */
  method UploadShareDownload(
    sha: Bytes -> Digest, c: Cast, note: Uuid, f: Ssnt.Fields, attachment: Uuid, data: Bytes, contentType: string,
    upload: Uuid, times: nat -> Clock, stamp: Epoch, wrappedFek: Bytes, share: Uuid
  ) returns (store: Store.Store, replies: Replies, ownerCopy: Bytes, readerCopy: Bytes)
    requires Distinct(c) && FirstBody(f, NoteKey(c.owner, note))
    requires 0 < |data| <= SIZE_LIMIT && IsPgText(contentType) && WithinADay(times) && wrappedFek != []
    ensures fresh(store) && store.sha == sha && Consistent(store)
    ensures replies.owner.Ok? && replies.reader.Ok?
    ensures replies.saved.Ok? && replies.saved.value.etag == SyncEtag(sha, Ssnt.Print(f), map[])
    ensures replies.uploaded.Ok? && replies.uploaded.value.size == |data| && replies.uploaded.value.etag == sha(data)
    ensures NoteKey(c.owner, note) in store.notes
    ensures replies.uploaded.value.noteEtag == store.notes[NoteKey(c.owner, note)].etag
    ensures replies.shared == Ok(share)
    ensures FindGrant(store.View(), c.reader, note) == Ok(ShareRow(note, c.owner, c.reader, wrappedFek))
    ensures Fetch(store.View(), AttKey(c.owner, note, attachment), TotalChunks(|data|)) == Some(data)
    ensures forall i :: 0 <= i < ChunkCount(|data|) ==>
              && GetChunk(store.View(), AttKey(c.owner, note, attachment), i) == Ok((Slice(data, i), sha(data)))
              && SharedChunk(store.View(), c.reader, note, attachment, i) == Ok((Slice(data, i), sha(data)))
    ensures SharedBody(sha, store.View(), c.reader, note) == Ok((Ssnt.Print(f), sha(Ssnt.Print(f))))
    ensures ownerCopy == data && readerCopy == data
  {
    hide Inv, SessionsExact, Fetch, TotalChunks, Share, FindGrant, Ssnt.Print, Ssnt.Printable, Lower, SyncEtag,
      SameAddress, ReadChunk, Slice, GetChunk, SharedChunk;
    var nk := NoteKey(c.owner, note);
    var k := AttKey(c.owner, note, attachment);
    var owner, reader, saved;
    store, owner, reader, saved := Prepare(sha, c, note, f, 0);
    var uploaded := UploadAttachmentChunks(store, k, data, contentType, upload, times, stamp);
    ghost var db := store.View();
    ActiveWithAttachment(sha, db, k);
    NoGrantYet(db, c.reader, note);
    LowerIs(c.readerEmail, c.readerEmail);
    LowerIs(Lower(c.readerEmail), c.readerEmail);
    LowerTwice(c.readerEmail);
    SharesIff(sha, db, c.owner, note, c.reader, c.readerEmail, Some(wrappedFek), share);
    ShareKeeps(sha, db, c.owner, note, c.readerEmail, Some(wrappedFek), share);
    var shared := store.ShareNote(c.owner, note, c.readerEmail, Some(wrappedFek), share);
    replies := Replies(owner, reader, saved, uploaded, shared);
    FetchLooksAtContent(db, store.View(), k, TotalChunks(|data|));
    ChunksAreSlices(sha, store.View(), k, c.reader, data);
    ownerCopy := DownloadAttachmentChunks(store, k, TotalChunks(|data|), None);
    readerCopy := DownloadAttachmentChunks(store, k, TotalChunks(|data|), Some(c.reader));
  }

  /** If fetching everything gives data, each chunk is the slice of data it should be. */
  lemma ChunksAreSlices(sha: Bytes -> Digest, db: Db, k: AttKey, reader: Uuid, data: Bytes)
    requires Inv(sha, db) && k in db.attachments && db.attachments[k].size == |data|
    requires Fetch(db, k, TotalChunks(|data|)) == Some(data)
    requires FindGrant(db, reader, k.note).Ok? && FindGrant(db, reader, k.note).value.owner == k.user
    ensures forall i :: 0 <= i < ChunkCount(|data|) ==>
              && GetChunk(db, k, i) == Ok((Slice(data, i), db.attachments[k].etag))
              && SharedChunk(db, reader, k.note, k.attachment, i) == Ok((Slice(data, i), db.attachments[k].etag))
  {
    hide Inv, Fetch, TotalChunks, FindGrant, ReadChunk, Slice, ChunkCount;
    SizeFits(sha, db, k);
    ActiveWithAttachment(sha, db, k);
    forall i | 0 <= i < ChunkCount(|data|) ensures ReadChunk(db, k, i) == Ok((Slice(data, i), db.attachments[k].etag)) {
      ChunkServed(sha, db, k, i);
      ChunkIsSlice(sha, db, k, data, i);
    }
  }

  /** The i-th chunk sits at its place in the whole. */
  lemma ChunkIsSlice(sha: Bytes -> Digest, db: Db, k: AttKey, data: Bytes, i: nat)
    requires Inv(sha, db) && k in db.attachments && db.attachments[k].size == |data|
    requires i < ChunkCount(|data|) && Fetch(db, k, TotalChunks(|data|)) == Some(data)
    ensures ChunkAt(db.chunks, k, i) == Slice(data, i)
  {
    hide Inv, Fetch, TotalChunks, ReadChunk, SliceLength, Join;
    SizeFits(sha, db, k);
    FetchPrefix(sha, db, k, TotalChunks(|data|));
    FetchPrefix(sha, db, k, i);
    FetchPrefix(sha, db, k, i + 1);
    PrefixOfContent(db.chunks, k, i, i + 1);
    PrefixOfContent(db.chunks, k, i + 1, ChunkCount(|data|));
    NextChunk(db.chunks, k, i);
    SumOfSlicesPrefix(|data|, i);
    SumOfSlicesPrefix(|data|, i + 1);
    SliceInside(data, i, Content(db.chunks, k, i), ChunkAt(db.chunks, k, i));
  }

  lemma SliceInside(data: Bytes, i: nat, front: Bytes, chunk: Bytes)
    requires i < ChunkCount(|data|) && front + chunk <= data
    requires |front| == Min(|data|, i * CHUNK_SIZE) && |front + chunk| == Min(|data|, (i + 1) * CHUNK_SIZE)
    ensures chunk == Slice(data, i)
  {
    assert (front + chunk)[|front|..] == chunk;
  }

  lemma NextChunk(chunks: map<ChunkKey, Bytes>, k: AttKey, i: nat)
    ensures Content(chunks, k, i + 1) == Content(chunks, k, i) + ChunkAt(chunks, k, i)
  {
    hide Join;
    JoinSnoc(ChunkParts(chunks, k, i), ChunkAt(chunks, k, i));
    assert ChunkParts(chunks, k, i + 1) == ChunkParts(chunks, k, i) + [ChunkAt(chunks, k, i)];
  }

  lemma {:induction false} PrefixOfContent(chunks: map<ChunkKey, Bytes>, k: AttKey, m: nat, n: nat)
    requires m <= n
    ensures Content(chunks, k, m) <= Content(chunks, k, n)
    decreases n
  {
    hide Content;
    if m < n {
      PrefixOfContent(chunks, k, m, n - 1);
      NextChunk(chunks, k, n - 1);
    }
  }

  lemma NoGrantYet(db: Db, recipient: Uuid, note: Uuid)
    requires db.shares == map[]
    ensures FindGrant(db, recipient, note).Fail?
  {
    assert GrantsTo(db, recipient, note) == {};
  }

  lemma {:induction false} FetchLooksAtContent(db: Db, db': Db, k: AttKey, n: nat)
    requires SameContent(db, db')
    ensures Fetch(db', k, n) == Fetch(db, k, n)
  {
    hide ExpectedAttachmentChunk;
    if n > 0 {
      FetchLooksAtContent(db, db', k, n - 1);
    }
  }
}
