/** The composite etag as a faithful name of a note's content, and what If-Match checks. */
module SyncIndex {
  import opened Prelude
  import ChunkMath
  import opened CompositeEtag
  import opened Buffer
  import opened Tables
  import opened NoteService
  import opened Invariants
  import opened Uploads
  import opened UploadProofs
  import opened NoteProofs
  import opened SessionSafety
  import Ssnt

  /** The same attachments with the same etags. */
  ghost predicate SameTags(m: map<Uuid, AttRow>, n: map<Uuid, AttRow>) {
    m.Keys == n.Keys && forall a :: a in m ==> m[a].etag == n[a].etag
  }

  lemma PairListed(m: map<Uuid, AttRow>, a: Uuid)
    ensures forall d: Digest :: (a, d) in EtagPairs(m) <==> a in m && m[a].etag == d
  {
    hide Listing;
    var ids := Listing(m);
    var pairs := EtagPairs(m);
    forall d: Digest ensures (a, d) in pairs <==> a in m && m[a].etag == d {
      if (a, d) in pairs {
        var i :| 0 <= i < |pairs| && pairs[i] == (a, d);
        assert ids[i] in ids;
      }
      if a in m && m[a].etag == d {
        assert a in ids;
        var i :| 0 <= i < |ids| && ids[i] == a;
        assert pairs[i] == (a, d);
      }
    }
  }

  lemma PairsSameTags(m: map<Uuid, AttRow>, n: map<Uuid, AttRow>)
    ensures multiset(EtagPairs(m)) == multiset(EtagPairs(n)) <==> SameTags(m, n)
  {
    hide EtagPairs;
    if multiset(EtagPairs(m)) == multiset(EtagPairs(n)) {
      forall a: Uuid ensures (a in m <==> a in n) && (a in m ==> m[a].etag == n[a].etag) {
        PairListed(m, a);
        PairListed(n, a);
        if a in m {
          assert (a, m[a].etag) in multiset(EtagPairs(m));
          assert (a, m[a].etag) in EtagPairs(n);
        }
        if a in n {
          assert (a, n[a].etag) in multiset(EtagPairs(n));
          assert (a, n[a].etag) in EtagPairs(m);
        }
      }
    }
    if SameTags(m, n) {
      SameTagsSamePairs(m, n);
    }
  }

  lemma SameTagsSamePairs(m: map<Uuid, AttRow>, n: map<Uuid, AttRow>)
    requires SameTags(m, n)
    ensures EtagPairs(m) == EtagPairs(n)
  {
    hide Listing;
    var ids := Listing(m);
    assert forall x :: x in ids ==> x in m.Keys;
    AscendingUnique(ids, Listing(n));
    forall i | 0 <= i < |ids| ensures EtagPairs(m)[i] == EtagPairs(n)[i] {
      assert ids[i] in ids;
    }
  }

  /** Two bodies or payloads on which the hash could be fooled. */
  ghost predicate EtagCollision(sha: Bytes -> Digest, b: Bytes, m: map<Uuid, AttRow>, c: Bytes, n: map<Uuid, AttRow>) {
    || Collision(sha, b, c)
    || Collision(sha, PayloadBytes(sha(b), EtagPairs(m)), PayloadBytes(sha(c), EtagPairs(n)))
  }

  /** Equal sync etags name the same body and the same attachment etags, barring a collision. */
  lemma SyncEtagNamesContent(sha: Bytes -> Digest, b: Bytes, m: map<Uuid, AttRow>, c: Bytes, n: map<Uuid, AttRow>)
    requires !EtagCollision(sha, b, m, c, n)
    ensures SyncEtag(sha, b, m) == SyncEtag(sha, c, n) <==> b == c && SameTags(m, n)
  {
    hide EtagPairs, PayloadBytes;
    CompositeInjective(sha, sha(b), EtagPairs(m), sha(c), EtagPairs(n));
    PairsSameTags(m, n);
  }

  lemma IndexedEtag(sha: Bytes -> Digest, db: Db, nk: NoteKey)
    requires Inv(sha, db) && Active(db.notes, nk)
    ensures nk in db.blobs && db.notes[nk].etag == SyncEtag(sha, db.blobs[nk], AttsOf(db.attachments, nk))
  {
    hide AttsOf, SyncEtag, SyncStamp, Ssnt.Parse;
    assert NoteInSync(sha, db.notes[nk], db.blobs[nk], nk, AttsOf(db.attachments, nk));
  }

  /** A body PUT, not refused for its own content, whose If-Match quotes the etag the
      note had in state db0 is stopped with a conflict exactly when body or attachment
      etags have changed since. */
  lemma IfMatchDetectsChange(
    sha: Bytes -> Digest, db0: Db, db: Db, nk: NoteKey, body: Bytes, f: Ssnt.Fields)
    requires 0 < |body| <= MAX_BODY_BYTES && Ssnt.Parse(body) == Parsed(f)
    requires Inv(sha, db0) && Inv(sha, db) && Active(db0.notes, nk) && Active(db.notes, nk)
    requires nk in db0.blobs && nk in db.blobs
    requires !EtagCollision(sha, db.blobs[nk], AttsOf(db.attachments, nk), db0.blobs[nk], AttsOf(db0.attachments, nk))
    requires f.noteId == nk.note && (f.attachmentCount, f.attachmentsTotalSize) == Stats(AttsOf(db.attachments, nk))
    ensures PutBody(sha, db, nk, body, Some("\"" + db0.notes[nk].etag + "\"")).1 == Fail(Conflict)
       <==> !(db.blobs[nk] == db0.blobs[nk]
              && SameTags(AttsOf(db.attachments, nk), AttsOf(db0.attachments, nk)))
  {
    hide Inv, AttsOf, SyncEtag, Ssnt.Parse, StripQuotes, EtagCollision, SameTags, Stats, PutBody, BodyRefusal;
    ActiveOwnerExists(sha, db, nk);
    PutBodyAnswers(sha, db, nk, body, Some("\"" + db0.notes[nk].etag + "\""));
    IndexedEtag(sha, db, nk);
    IndexedEtag(sha, db0, nk);
    DigestHasNoQuotes(db0.notes[nk].etag);
    SyncEtagNamesContent(sha, db.blobs[nk], AttsOf(db.attachments, nk), db0.blobs[nk], AttsOf(db0.attachments, nk));
  }

  /** A PUT that goes through under If-Match replaces exactly the content the client saw. */
  lemma IfMatchedPutSawCurrent(sha: Bytes -> Digest, db0: Db, db: Db, nk: NoteKey, body: Bytes)
    requires Inv(sha, db0) && Inv(sha, db) && Active(db0.notes, nk) && Active(db.notes, nk)
    requires nk in db0.blobs && nk in db.blobs
    requires !EtagCollision(sha, db.blobs[nk], AttsOf(db.attachments, nk), db0.blobs[nk], AttsOf(db0.attachments, nk))
    requires PutBody(sha, db, nk, body, Some("\"" + db0.notes[nk].etag + "\"")).1.Ok?
    ensures db.blobs[nk] == db0.blobs[nk] && SameTags(AttsOf(db.attachments, nk), AttsOf(db0.attachments, nk))
  {
    hide Inv, AttsOf, Ssnt.Parse, StripQuotes, EtagCollision, SameTags, Stats, PutBody;
    ActiveOwnerExists(sha, db, nk);
    PutBodyAnswers(sha, db, nk, body, Some("\"" + db0.notes[nk].etag + "\""));
    IfMatchDetectsChange(sha, db0, db, nk, body, Ssnt.Parse(body).value);
  }

  lemma AttachmentContent(sha: Bytes -> Digest, db: Db, k: AttKey)
    requires Inv(sha, db) && k in db.attachments
    ensures db.attachments[k].etag == sha(Content(db.chunks, k, ChunkMath.ChunkCount(db.attachments[k].size)))
  {
    hide Content;
    assert AttachmentOk(sha, db.attachments[k], db.chunks, k);
  }

  /** A completion, otherwise ready, that quotes the etag the attachment had in state
      db0 is answered with a conflict exactly when the etag has changed since; so,
      barring a collision, exactly when the bytes have. */
  lemma AttachmentIfMatchDetectsChange(
    sha: Bytes -> Digest, db0: Db, db: Db, k: AttKey, upload: Uuid, contentType: Option<string>, t: Clock, stamp: Epoch)
    requires Inv(sha, db0) && Inv(sha, db) && k in db0.attachments && k in db.attachments
    requires ReadyToComplete(db, k, upload, None, contentType, t)
    ensures var quoted := Some("\"" + db0.attachments[k].etag + "\"");
            var x := Content(db0.chunks, k, ChunkMath.ChunkCount(db0.attachments[k].size));
            var y := Content(db.chunks, k, ChunkMath.ChunkCount(db.attachments[k].size));
            var out := Complete(sha, db, k, upload, quoted, contentType, t, stamp).1;
            && (out == Fail(Conflict) <==> db.attachments[k].etag != db0.attachments[k].etag)
            && (out.Ok? <==> db.attachments[k].etag == db0.attachments[k].etag)
            && (!Collision(sha, x, y) ==> (out == Fail(Conflict) <==> x != y))
  {
    hide Inv, Complete, Content, StripQuotes, StagedIndices;
    var quoted := Some("\"" + db0.attachments[k].etag + "\"");
    DigestHasNoQuotes(db0.attachments[k].etag);
    AttachmentContent(sha, db0, k);
    AttachmentContent(sha, db, k);
    CompletesIffReady(sha, db, k, upload, quoted, contentType, t, stamp);
    CompleteAnswers(sha, db, k, upload, quoted, contentType, t, stamp);
  }

  /** Same etag, same bytes: equal attachment etags mean equal downloads, barring a collision. */
  lemma SameEtagSameContent(sha: Bytes -> Digest, db0: Db, db: Db, k: AttKey, x: Bytes, y: Bytes)
    requires Inv(sha, db0) && Inv(sha, db) && k in db0.attachments && k in db.attachments
    requires x == Content(db.chunks, k, ChunkMath.ChunkCount(db.attachments[k].size))
    requires y == Content(db0.chunks, k, ChunkMath.ChunkCount(db0.attachments[k].size))
    requires db.attachments[k].etag == db0.attachments[k].etag && !Collision(sha, x, y)
    ensures x == y
  {
    assert AttachmentOk(sha, db.attachments[k], db.chunks, k);
    assert AttachmentOk(sha, db0.attachments[k], db0.chunks, k);
  }

  /** What the note list shows of an active note, computed from its content alone. */
  lemma IndexAgrees(sha: Bytes -> Digest, db: Db, nk: NoteKey)
    requires Inv(sha, db) && Active(db.notes, nk)
    ensures nk in db.blobs && Ssnt.Parse(db.blobs[nk]).Parsed?
    ensures var f, m := Ssnt.Parse(db.blobs[nk]).value, AttsOf(db.attachments, nk);
            && f.noteId == nk.note
            && db.notes[nk].title == f.title
            && db.notes[nk].etag == SyncEtag(sha, db.blobs[nk], m)
            && f.updatedAt <= db.notes[nk].updatedAt
            && (forall a :: a in m ==> m[a].updatedAt <= db.notes[nk].updatedAt)
            && (db.notes[nk].updatedAt == f.updatedAt || exists a :: a in m && m[a].updatedAt == db.notes[nk].updatedAt)
  {
    hide AttsOf, SyncEtag, Ssnt.Parse, Listing;
    var m := AttsOf(db.attachments, nk);
    assert NoteInSync(sha, db.notes[nk], db.blobs[nk], nk, m);
    LatestStampIsMax(m, Listing(m));
    assert forall a :: a in m ==> a in Listing(m);
  }

  lemma {:induction false} LatestStampIsMax(m: map<Uuid, AttRow>, ids: seq<Uuid>)
    requires forall a :: a in ids ==> a in m
    ensures forall a :: a in ids ==> m[a].updatedAt <= LatestStamp(m, ids)
    ensures LatestStamp(m, ids) == 0 || exists a :: a in ids && m[a].updatedAt == LatestStamp(m, ids)
  {
    if ids != [] {
      assert ids[0] in ids;
      assert forall a :: a in ids <==> a == ids[0] || a in ids[1..];
      LatestStampIsMax(m, ids[1..]);
    }
  }
}
