/** The attachment counts and sizes of many notes from one grouped query. */
module GroupedStats {
  import opened Prelude
  import opened CompositeEtag
  import opened Tables
  import opened NoteService
  import opened Invariants
  import opened NoteProofs
  import Ssnt

  type Scan = seq<AttKey>

  /** The rows of a WHERE clause, in whatever order the database visits them. */
  ghost predicate ScanOf(rows: Scan, selected: set<AttKey>) {
    && (forall k :: k in rows <==> k in selected)
    && (forall i, j :: 0 <= i < j < |rows| ==> rows[i] != rows[j])
  }

  function RowsOfNote(atts: map<AttKey, AttRow>, nk: NoteKey): set<AttKey> {
    set k | k in atts && NoteOf(k) == nk
  }

  function RowsOfNotes(atts: map<AttKey, AttRow>, user: Uuid, notes: seq<Uuid>): set<AttKey> {
    set k | k in atts && k.user == user && k.note in notes
  }

  function SizeOf(atts: map<AttKey, AttRow>, k: AttKey): nat {
    if k in atts then atts[k].size else 0
  }

  /** SUM(size_bytes) over the rows visited; 0 when there are none. */
  function Sum(atts: map<AttKey, AttRow>, rows: Scan): nat {
    if rows == [] then 0 else Sum(atts, rows[..|rows| - 1]) + SizeOf(atts, rows[|rows| - 1])
  }

  /** SELECT note_id, COUNT(*), SUM(size_bytes) ... GROUP BY note_id, row by row. */
  function GroupBy(atts: map<AttKey, AttRow>, rows: Scan): map<Uuid, (nat, nat)> {
    if rows == [] then map[] else
    var groups := GroupBy(atts, rows[..|rows| - 1]);
    var k := rows[|rows| - 1];
    var (count, total) := Get(groups, k.note);
    groups[k.note := (count + 1, total + SizeOf(atts, k))]
  }

  /** stats.get(note_id, (0, 0)) */
  function Get(stats: map<Uuid, (nat, nat)>, note: Uuid): (nat, nat) {
    if note in stats then stats[note] else (0, 0)
  }

  /** attachment_stats_for_notes: an empty list is answered without a query. */
  function StatsForNotes(atts: map<AttKey, AttRow>, notes: seq<Uuid>, rows: Scan): map<Uuid, (nat, nat)> {
    if notes == [] then map[] else GroupBy(atts, rows)
  }

  // ----- the order of a scan does not matter -----

  lemma {:induction false} SumWithout(atts: map<AttKey, AttRow>, rows: Scan, i: nat)
    requires i < |rows|
    ensures Sum(atts, rows) == Sum(atts, rows[..i] + rows[i + 1..]) + SizeOf(atts, rows[i])
  {
    var n := |rows| - 1;
    if i < n {
      SumWithout(atts, rows[..n], i);
      var rest := rows[..i] + rows[i + 1..];
      assert rest[..n - 1] == rows[..n][..i] + rows[..n][i + 1..];
      assert rest[n - 1] == rows[n];
    } else {
      assert rows[..i] + rows[i + 1..] == rows[..n];
    }
  }

  /** Visiting one row less is a scan of the other rows. */
  lemma ScanWithout(rows: Scan, i: nat, selected: set<AttKey>)
    requires ScanOf(rows, selected) && i < |rows|
    ensures ScanOf(rows[..i] + rows[i + 1..], selected - {rows[i]})
  {
    var rest := rows[..i] + rows[i + 1..];
    assert rows == rows[..i] + [rows[i]] + rows[i + 1..];
    forall x ensures x in rest <==> x in selected - {rows[i]} {
      assert x in rows <==> x in rest || x == rows[i];
      if x in rest {
        var j :| 0 <= j < |rest| && rest[j] == x;
        assert rest[j] == rows[if j < i then j else j + 1];
      }
    }
  }

  lemma ScanSnoc(rows: Scan, k: AttKey, selected: set<AttKey>)
    requires ScanOf(rows, selected) && k !in selected
    ensures ScanOf(rows + [k], selected + {k})
  {
    assert forall x :: x in rows + [k] <==> x in rows || x == k;
    assert forall i :: 0 <= i < |rows| ==> rows[i] in rows;
  }

  lemma EmptyScan(rows: Scan, selected: set<AttKey>)
    requires ScanOf(rows, selected)
    ensures rows == [] <==> selected == {}
  {
    assert rows != [] ==> rows[0] in rows;
  }

  lemma {:induction false} SumAnyOrder(atts: map<AttKey, AttRow>, a: Scan, b: Scan, selected: set<AttKey>)
    requires ScanOf(a, selected) && ScanOf(b, selected)
    ensures |a| == |b| && Sum(atts, a) == Sum(atts, b)
    decreases |a|
  {
    EmptyScan(a, selected);
    EmptyScan(b, selected);
    if a == [] {
    } else {
      var n := |a| - 1;
      assert a[n] in a;
      var i :| 0 <= i < |b| && b[i] == a[n];
      ScanWithout(a, n, selected);
      ScanWithout(b, i, selected);
      assert a[..n] + a[n + 1..] == a[..n];
      SumAnyOrder(atts, a[..n], b[..i] + b[i + 1..], selected - {a[n]});
      SumWithout(atts, b, i);
    }
  }

  // ----- one group of the grouped query -----

  function OnlyNote(rows: Scan, note: Uuid): Scan {
    if rows == [] then [] else
    var front := OnlyNote(rows[..|rows| - 1], note);
    if rows[|rows| - 1].note == note then front + [rows[|rows| - 1]] else front
  }

  /** A group holds exactly its own rows: their number and their sum. */
  lemma {:induction false} GroupIsFilter(atts: map<AttKey, AttRow>, rows: Scan, note: Uuid)
    ensures var mine := OnlyNote(rows, note);
            && Get(GroupBy(atts, rows), note) == (|mine|, Sum(atts, mine))
            && (note in GroupBy(atts, rows) <==> mine != [])
  {
    if rows != [] {
      var front, k := rows[..|rows| - 1], rows[|rows| - 1];
      GroupIsFilter(atts, front, note);
      var mine := OnlyNote(front, note);
      assert (mine + [k])[..|mine|] == mine;
    }
  }

  lemma {:induction false} FilterIsScan(rows: Scan, note: Uuid, selected: set<AttKey>)
    requires ScanOf(rows, selected)
    ensures ScanOf(OnlyNote(rows, note), set k | k in selected && k.note == note)
    decreases |rows|
  {
    if rows == [] {
    } else {
      var n := |rows| - 1;
      var front, k := rows[..n], rows[n];
      ScanWithout(rows, n, selected);
      assert rows[..n] + rows[n + 1..] == front && k in rows;
      FilterIsScan(front, note, selected - {k});
      var others := set x | x in selected - {k} && x.note == note;
      if k.note == note {
        ScanSnoc(OnlyNote(front, note), k, others);
        assert others + {k} == set x | x in selected && x.note == note;
      } else {
        assert others == set x | x in selected && x.note == note;
      }
    }
  }

  // ----- list_note_attachments is one of the scans -----

  function KeysOf(nk: NoteKey, ids: seq<Uuid>): (keys: Scan)
    ensures |keys| == |ids| && forall i :: 0 <= i < |ids| ==> keys[i] == AttKey(nk.user, nk.note, ids[i])
  {
    seq(|ids|, i requires 0 <= i < |ids| => AttKey(nk.user, nk.note, ids[i]))
  }

  lemma ListingIsScan(atts: map<AttKey, AttRow>, nk: NoteKey)
    ensures ScanOf(KeysOf(nk, Listing(AttsOf(atts, nk))), RowsOfNote(atts, nk))
  {
    hide Listing, AttsOf;
    var m := AttsOf(atts, nk);
    var ids := Listing(m);
    forall k: AttKey ensures k in KeysOf(nk, ids) <==> k in RowsOfNote(atts, nk) {
      AttsOfEntry(atts, nk, k.attachment);
      if k in RowsOfNote(atts, nk) {
        assert k == AttKey(nk.user, nk.note, k.attachment) && k.attachment in ids;
        var i :| 0 <= i < |ids| && ids[i] == k.attachment;
        assert KeysOf(nk, ids)[i] == k;
      }
      if k in KeysOf(nk, ids) {
        var i :| 0 <= i < |ids| && KeysOf(nk, ids)[i] == k;
        assert ids[i] in ids;
      }
    }
  }

  lemma {:induction false} SumSizesIsSum(atts: map<AttKey, AttRow>, nk: NoteKey, ids: seq<Uuid>)
    requires forall a :: a in ids ==> a in AttsOf(atts, nk)
    ensures SumSizes(AttsOf(atts, nk), ids) == Sum(atts, KeysOf(nk, ids))
  {
    hide AttsOf;
    var keys := KeysOf(nk, ids);
    if ids != [] {
      assert ids[0] in ids;
      AttsOfEntry(atts, nk, ids[0]);
      SumSizesIsSum(atts, nk, ids[1..]);
      SumWithout(atts, keys, 0);
      assert keys[..0] + keys[0 + 1..] == KeysOf(nk, ids[1..]);
    }
  }

  /** attachment_stats, whose query has no ORDER BY, counts and sums exactly the
      rows of list_note_attachments. */
  lemma SimpleStatsAnyOrder(atts: map<AttKey, AttRow>, nk: NoteKey, rows: Scan)
    requires ScanOf(rows, RowsOfNote(atts, nk))
    ensures (|rows|, Sum(atts, rows)) == Stats(AttsOf(atts, nk))
  {
    hide AttsOf, Listing, SumSizes, Sum;
    var ids := Listing(AttsOf(atts, nk));
    ListingIsScan(atts, nk);
    SumAnyOrder(atts, rows, KeysOf(nk, ids), RowsOfNote(atts, nk));
    SumSizesIsSum(atts, nk, ids);
  }

  /** The grouped statistics refine the simple ones: with the (0, 0) default they
      agree for every listed note, and a note has a group only if it has rows. */
  lemma GroupedRefinesSimple(atts: map<AttKey, AttRow>, user: Uuid, notes: seq<Uuid>, rows: Scan, note: Uuid)
    requires ScanOf(rows, RowsOfNotes(atts, user, notes))
    ensures note in notes ==> Get(StatsForNotes(atts, notes, rows), note) == Stats(AttsOf(atts, NoteKey(user, note)))
    ensures note in StatsForNotes(atts, notes, rows) <==> note in notes && RowsOfNote(atts, NoteKey(user, note)) != {}
  {
    hide AttsOf, Listing, Stats, Sum, GroupBy, OnlyNote;
    var selected := RowsOfNotes(atts, user, notes);
    var mine := OnlyNote(rows, note);
    GroupIsFilter(atts, rows, note);
    FilterIsScan(rows, note, selected);
    if note in notes {
      assert (set k | k in selected && k.note == note) == RowsOfNote(atts, NoteKey(user, note));
      SimpleStatsAnyOrder(atts, NoteKey(user, note), mine);
    }
    EmptyScan(mine, set k | k in selected && k.note == note);
  }

  // ----- list_notes -----

  datatype NoteSummary = NoteSummary(
    id: Uuid, title: string, updatedAt: nat, etag: Digest, attachmentCount: nat, attachmentsTotalSize: nat)

  predicate Listed(db: Db, user: Uuid, includeDeleted: bool, note: Uuid) {
    NoteKey(user, note) in db.notes && (includeDeleted || Active(db.notes, NoteKey(user, note)))
  }

  /** What a query for these notes ORDER BY updated_at DESC may return: each of them
      once, newest first, notes of one time in any order. */
  ghost predicate NewestFirst(db: Db, user: Uuid, wanted: set<Uuid>, notes: seq<Uuid>) {
    && (forall n :: n in notes <==> n in wanted)
    && (forall i, j :: 0 <= i < j < |notes| ==>
          notes[i] != notes[j] && StampOf(db, user, notes[i]) >= StampOf(db, user, notes[j]))
  }

  function ListedNotes(db: Db, user: Uuid, includeDeleted: bool): (wanted: set<Uuid>)
    ensures forall n :: n in wanted <==> Listed(db, user, includeDeleted, n)
  {
    set nk | nk in db.notes && nk.user == user && Listed(db, user, includeDeleted, nk.note) :: nk.note
  }

  function StampOf(db: Db, user: Uuid, n: Uuid): nat {
    if NoteKey(user, n) in db.notes then db.notes[NoteKey(user, n)].updatedAt else 0
  }

  lemma {:induction false} Newest(db: Db, user: Uuid, wanted: set<Uuid>) returns (newest: Uuid)
    requires wanted != {}
    ensures newest in wanted && forall n :: n in wanted ==> StampOf(db, user, n) <= StampOf(db, user, newest)
    decreases wanted
  {
    var n := Member(wanted);
    newest := n;
    if wanted != {n} {
      var other := Newest(db, user, wanted - {n});
      newest := if StampOf(db, user, n) >= StampOf(db, user, other) then n else other;
      assert forall m :: m in wanted ==> m == n || m in wanted - {n};
    }
  }

  /** There always is such an order: the newest note, then the others. */
  lemma {:induction false} NewestFirstExists(db: Db, user: Uuid, wanted: set<Uuid>) returns (notes: seq<Uuid>)
    ensures NewestFirst(db, user, wanted, notes)
    decreases wanted
  {
    notes := [];
    if wanted != {} {
      var n := Newest(db, user, wanted);
      var rest := NewestFirstExists(db, user, wanted - {n});
      notes := [n] + rest;
      forall i | 0 <= i < |rest| ensures StampOf(db, user, rest[i]) <= StampOf(db, user, n) && rest[i] != n {
        assert rest[i] in rest;
      }
    }
  }

  /** The response for the notes the query returned, in the query's order. */
  function ListNotes(db: Db, user: Uuid, notes: seq<Uuid>, rows: Scan): (list: seq<NoteSummary>)
    requires forall n :: n in notes ==> NoteKey(user, n) in db.notes
    ensures |list| == |notes|
  {
    var stats := StatsForNotes(db.attachments, notes, rows);
    seq(|notes|, i requires 0 <= i < |notes| =>
      assert notes[i] in notes;
      var row := db.notes[NoteKey(user, notes[i])];
      NoteSummary(notes[i], row.title, row.updatedAt, row.etag, Get(stats, notes[i]).0, Get(stats, notes[i]).1))
  }

  /** The list has one entry per note asked for, newest first; in a reachable state
      each shows the attachments that note really has, and a tombstone shows none. */
  lemma ListNotesCounts(
    sha: Bytes -> Digest, db: Db, user: Uuid, includeDeleted: bool, notes: seq<Uuid>, rows: Scan, i: nat, j: nat)
    requires Inv(sha, db) && i < |notes|
    requires NewestFirst(db, user, ListedNotes(db, user, includeDeleted), notes)
    requires ScanOf(rows, RowsOfNotes(db.attachments, user, notes))
    ensures forall n :: n in notes <==>
              NoteKey(user, n) in db.notes && (includeDeleted || db.notes[NoteKey(user, n)].deletedAt.None?)
    ensures var list := ListNotes(db, user, notes, rows);
            && list[i].id == notes[i] && NoteKey(user, notes[i]) in db.notes
            && list[i].title == db.notes[NoteKey(user, notes[i])].title
            && list[i].updatedAt == db.notes[NoteKey(user, notes[i])].updatedAt
            && list[i].etag == db.notes[NoteKey(user, notes[i])].etag
            && (list[i].attachmentCount, list[i].attachmentsTotalSize)
               == Stats(AttsOf(db.attachments, NoteKey(user, notes[i])))
            && (!Active(db.notes, NoteKey(user, notes[i])) ==>
                  list[i].attachmentCount == list[i].attachmentsTotalSize == 0)
            && (i < j < |list| ==> list[i].id != list[j].id && list[i].updatedAt >= list[j].updatedAt)
  {
    hide AttsOf, Stats, StatsForNotes, ScanOf, ChunksOk, SyncOk, StampsFit, SessionsOk, UsersOk, VaultsOk, SharesOk,
      KeysOk, ListedNotes;
    assert notes[i] in notes;
    var nk := NoteKey(user, notes[i]);
    GroupedRefinesSimple(db.attachments, user, notes, rows, notes[i]);
    if !Active(db.notes, nk) {
      assert RowsOfNote(db.attachments, nk) == {};
    }
    if i < j < |notes| {
      assert notes[j] in notes;
    }
  }

  /** A body is accepted only when its header states both numbers correctly, and
      they are still correct, by either query, in the state it is committed to. */
  lemma AcceptedHeaderMatches(
    sha: Bytes -> Digest, db: Db, nk: NoteKey, body: Bytes, ifMatch: Option<string>, notes: seq<Uuid>, rows: Scan)
    requires PutBody(sha, db, nk, body, ifMatch).1.Ok?
    requires nk.note in notes
    requires ScanOf(rows, RowsOfNotes(PutBody(sha, db, nk, body, ifMatch).0.attachments, nk.user, notes))
    ensures var db' := PutBody(sha, db, nk, body, ifMatch).0;
            && nk in db'.blobs && db'.blobs[nk] == body && Ssnt.Parse(body).Parsed?
            && var f := Ssnt.Parse(body).value;
            && (f.attachmentCount, f.attachmentsTotalSize) == Stats(AttsOf(db'.attachments, nk))
            && (f.attachmentCount, f.attachmentsTotalSize) == Get(StatsForNotes(db'.attachments, notes, rows), nk.note)
  {
    hide AttsOf, Stats, StatsForNotes, ScanOf, RowsOfNotes, PutBody, Ssnt.Parse, IfMatchFails, Recompute, IsPgText;
    PutBodyShape(sha, db, nk, body, ifMatch);
    GroupedRefinesSimple(PutBody(sha, db, nk, body, ifMatch).0.attachments, nk.user, notes, rows, nk.note);
  }
}
