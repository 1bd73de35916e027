/** Migration 007: inline attachment bytes are cut into chunk rows. */
module Migration {
  import opened Prelude
  import opened ChunkMath
  import opened CompositeEtag
  import opened Tables
  import opened Invariants
  import opened RoundTrip

  const BATCH_SIZE := 100

  /** A BYTEA value is shorter than 1 GB. */
  type Bytea = b: Bytes | |b| < 0x4000_0000

  /** A row of note_attachments while the bytes are still inside it. */
  datatype LegacyRow = LegacyRow(key: AttKey, data: Option<Bytea>, row: AttRow)

  datatype MigrationError = SizeMismatch(attachment: Uuid) | DuplicateKey

  datatype Result<+T> = Success(value: T) | Failure(error: MigrationError)

  // ----- the table in primary key order -----

  predicate KeyLess(a: AttKey, b: AttKey) {
    || a.user < b.user
    || (a.user == b.user && a.note < b.note)
    || (a.user == b.user && a.note == b.note && a.attachment < b.attachment)
  }

  ghost predicate InKeyOrder(rows: seq<LegacyRow>) {
    forall i, j :: 0 <= i < j < |rows| ==> KeyLess(rows[i].key, rows[j].key)
  }

  /** WHERE data IS NOT NULL */
  function NotNull(rows: seq<LegacyRow>): (kept: seq<LegacyRow>)
    ensures forall row :: row in kept <==> row in rows && row.data.Some?
    ensures forall i :: 0 <= i < |kept| ==> kept[i].data.Some?
  {
    if rows == [] then [] else
    var n := |rows| - 1;
    assert rows == rows[..n] + [rows[n]];
    if rows[n].data.Some? then NotNull(rows[..n]) + [rows[n]] else NotNull(rows[..n])
  }

  /** LIMIT limit OFFSET offset */
  function Page(rows: seq<LegacyRow>, limit: nat, offset: nat): (page: seq<LegacyRow>)
    ensures forall i :: 0 <= i < |page| ==> page[i].data.Some?
  {
    var kept := NotNull(rows);
    kept[Min(offset, |kept|)..Min(offset + limit, |kept|)]
  }

  // ----- what migrating comes to, without batches or offsets -----

  /** The chunk rows of one attachment. */
  function RowChunks(row: LegacyRow): map<ChunkKey, Bytes>
    requires row.data.Some?
  {
    Cut(row.key, row.data.value, ChunkCount(|row.data.value|))
  }

  function Cut(key: AttKey, data: Bytes, n: nat): map<ChunkKey, Bytes> {
    map i | 0 <= i < n :: ChunkKey(key, i) := Slice(data, i)
  }

  predicate Clash(chunks: map<ChunkKey, Bytes>, row: LegacyRow)
    requires row.data.Some?
  {
    exists i | 0 <= i < ChunkCount(|row.data.value|) :: ChunkKey(row.key, i) in chunks
  }

  function MigrateRow(chunks: map<ChunkKey, Bytes>, row: LegacyRow): Result<map<ChunkKey, Bytes>>
    requires row.data.Some?
  {
    if |row.data.value| != row.row.size then Failure(SizeMismatch(row.key.attachment))
    else if Clash(chunks, row) then Failure(DuplicateKey)
    else Success(chunks + RowChunks(row))
  }

  /** The rows one after the other; the first failure ends it. */
  function MigrateRows(chunks: map<ChunkKey, Bytes>, rows: seq<LegacyRow>): Result<map<ChunkKey, Bytes>>
    requires forall i :: 0 <= i < |rows| ==> rows[i].data.Some?
  {
    if rows == [] then Success(chunks) else
    var n := |rows| - 1;
    match MigrateRows(chunks, rows[..n])
    case Failure(e) => Failure(e)
    case Success(before) => MigrateRow(before, rows[n])
  }

  lemma {:induction false} FirstFailureEnds(chunks: map<ChunkKey, Bytes>, rows: seq<LegacyRow>, n: nat)
    requires forall i :: 0 <= i < |rows| ==> rows[i].data.Some?
    requires n <= |rows| && MigrateRows(chunks, rows[..n]).Failure?
    ensures MigrateRows(chunks, rows) == MigrateRows(chunks, rows[..n])
  {
    if n < |rows| {
      assert rows[..|rows| - 1][..n] == rows[..n];
      FirstFailureEnds(chunks, rows[..|rows| - 1], n);
    } else {
      assert rows[..n] == rows;
    }
  }

  // ----- the migration as it runs -----

  class Connection {
    const table: seq<LegacyRow>
    var chunks: map<ChunkKey, Bytes>

    constructor (table: seq<LegacyRow>, chunks: map<ChunkKey, Bytes>)
      ensures this.table == table && this.chunks == chunks
    {
      this.table := table;
      this.chunks := chunks;
    }

    /** The slice loop; false stands for a violated primary key. */
    method Split(key: AttKey, data: Bytes) returns (ok: bool)
      modifies this
      ensures ok <==> forall i :: 0 <= i < ChunkCount(|data|) ==> ChunkKey(key, i) !in old(chunks)
      ensures ok ==> chunks == old(chunks) + Cut(key, data, ChunkCount(|data|))
    {
      hide Slice, ChunkCount, Cut;
      var chunkIndex := 0;
      var pos := 0;
      NothingCut(key, data, chunks);
      while pos < |data|
        invariant pos == Min(|data|, chunkIndex * CHUNK_SIZE)
        invariant 0 <= chunkIndex <= ChunkCount(|data|)
        invariant chunks == old(chunks) + Cut(key, data, chunkIndex)
        invariant forall i :: 0 <= i < chunkIndex ==> ChunkKey(key, i) !in old(chunks)
      {
        SliceAt(data, chunkIndex, pos);
        var chunk := data[pos..Min(pos + CHUNK_SIZE, |data|)];
        NotCutYet(key, data, chunkIndex);
        if ChunkKey(key, chunkIndex) in chunks {
          return false;
        }
        CutOneMore(key, data, chunkIndex, old(chunks));
        chunks := chunks[ChunkKey(key, chunkIndex) := chunk];
        pos := pos + |chunk|;
        chunkIndex := chunkIndex + 1;
      }
      AllCut(data, chunkIndex);
      return true;
    }

    method SplitRow(row: LegacyRow) returns (r: Result<()>)
      requires row.data.Some?
      modifies this
      ensures match MigrateRow(old(chunks), row)
              case Success(after) => r == Success(()) && chunks == after
              case Failure(e) => r == Failure(e)
    {
      hide ChunkCount, Cut;
      if |row.data.value| != row.row.size {
        return Failure(SizeMismatch(row.key.attachment));
      }
      var ok := Split(row.key, row.data.value);
      return if ok then Success(()) else Failure(DuplicateKey);
    }

    /** The loop over the rows of one page. */
    method MigratePage(rows: seq<LegacyRow>) returns (r: Result<()>)
      requires forall i :: 0 <= i < |rows| ==> rows[i].data.Some?
      modifies this
      ensures match MigrateRows(old(chunks), rows)
              case Success(after) => r == Success(()) && chunks == after
              case Failure(e) => r == Failure(e)
    {
      hide MigrateRow;
      for i := 0 to |rows|
        invariant MigrateRows(old(chunks), rows[..i]) == Success(chunks)
      {
        assert rows[..i + 1][..i] == rows[..i];
        var split := SplitRow(rows[i]);
        if split.Failure? {
          FirstFailureEnds(old(chunks), rows, i + 1);
          return Failure(split.error);
        }
      }
      assert rows[..|rows|] == rows;
      return Success(());
    }

    /** upgrade(): pages of BATCH_SIZE rows until one comes back empty. On failure
        the transaction is rolled back. */
    method Upgrade() returns (r: Result<()>)
      modifies this
      ensures match MigrateRows(old(chunks), NotNull(table))
              case Success(after) => r == Success(()) && chunks == after
              case Failure(e) => r == Failure(e) && chunks == old(chunks)
    {
      hide MigrateRows, NotNull;
      ghost var kept := NotNull(table);
      var before := chunks;
      var offset := 0;
      NoRows(before);
      while true
        invariant MigrateRows(before, kept[..Min(offset, |kept|)]) == Success(chunks)
        decreases |kept| + BATCH_SIZE - offset
      {
        var rows := Page(table, BATCH_SIZE, offset);
        if rows == [] {
          break;
        }
        ghost var done, next := Min(offset, |kept|), Min(offset + BATCH_SIZE, |kept|);
        assert kept[..next] == kept[..done] + rows;
        MigrateAppend(before, kept[..done], rows);
        var page := MigratePage(rows);
        if page.Failure? {
          FirstFailureEnds(before, kept, next);
          chunks := before;
          return Failure(page.error);
        }
        offset := offset + BATCH_SIZE;
      }
      assert kept[..|kept|] == kept;
      return Success(());
    }
  }

  lemma NoRows(chunks: map<ChunkKey, Bytes>)
    ensures MigrateRows(chunks, []) == Success(chunks)
  {
  }

  /** Migrating page after page is migrating the pages' rows in one go. */
  lemma {:induction false} MigrateAppend(chunks: map<ChunkKey, Bytes>, a: seq<LegacyRow>, b: seq<LegacyRow>)
    requires forall i :: 0 <= i < |a| ==> a[i].data.Some?
    requires forall i :: 0 <= i < |b| ==> b[i].data.Some?
    ensures MigrateRows(chunks, a + b)
         == match MigrateRows(chunks, a)
            case Failure(e) => Failure(e)
            case Success(mid) => MigrateRows(mid, b)
  {
    hide MigrateRow;
    if b == [] {
      assert a + b == a;
    } else {
      var n := |b| - 1;
      assert (a + b)[..|a| + n] == a + b[..n];
      MigrateAppend(chunks, a, b[..n]);
    }
  }

  lemma NothingCut(key: AttKey, data: Bytes, chunks: map<ChunkKey, Bytes>)
    ensures chunks + Cut(key, data, 0) == chunks
  {
  }

  lemma NotCutYet(key: AttKey, data: Bytes, n: nat)
    ensures ChunkKey(key, n) !in Cut(key, data, n)
  {
  }

  lemma CutOneMore(key: AttKey, data: Bytes, n: nat, chunks: map<ChunkKey, Bytes>)
    ensures chunks + Cut(key, data, n + 1) == (chunks + Cut(key, data, n))[ChunkKey(key, n) := Slice(data, n)]
  {
    hide Slice;
  }

  lemma SliceAt(data: Bytes, index: nat, pos: nat)
    requires pos == Min(|data|, index * CHUNK_SIZE) && pos < |data|
    ensures data[pos..Min(pos + CHUNK_SIZE, |data|)] == Slice(data, index)
    ensures index < ChunkCount(|data|)
    ensures pos + |Slice(data, index)| == Min(|data|, (index + 1) * CHUNK_SIZE)
  {
  }

  lemma AllCut(data: Bytes, n: nat)
    requires n <= ChunkCount(|data|) && |data| <= n * CHUNK_SIZE
    ensures n == ChunkCount(|data|)
  {
  }

  // ----- every row is visited once -----

  lemma KeyLessIrreflexive(a: AttKey, b: AttKey)
    ensures KeyLess(a, b) ==> a != b
  {
  }

  lemma {:induction false} NotNullInOrder(rows: seq<LegacyRow>)
    requires InKeyOrder(rows)
    ensures InKeyOrder(NotNull(rows))
    decreases |rows|
  {
    if rows != [] {
      var n := |rows| - 1;
      NotNullInOrder(rows[..n]);
      LastKeyGreatest(rows);
      SnocInOrder(NotNull(rows[..n]), rows[n]);
    }
  }

  lemma LastKeyGreatest(rows: seq<LegacyRow>)
    requires InKeyOrder(rows) && rows != []
    ensures forall row :: row in NotNull(rows[..|rows| - 1]) ==> KeyLess(row.key, rows[|rows| - 1].key)
  {
    hide NotNull, KeyLess;
    var n := |rows| - 1;
    forall row | row in NotNull(rows[..n]) ensures KeyLess(row.key, rows[n].key) {
      assert row in rows[..n];
      var j :| 0 <= j < n && rows[..n][j] == row;
      assert KeyLess(rows[j].key, rows[n].key);
    }
  }

  lemma SnocInOrder(rows: seq<LegacyRow>, last: LegacyRow)
    requires InKeyOrder(rows) && forall row :: row in rows ==> KeyLess(row.key, last.key)
    ensures InKeyOrder(rows + [last])
  {
    hide KeyLess;
    assert forall i :: 0 <= i < |rows| ==> rows[i] in rows;
  }

  lemma DifferentKeys(rows: seq<LegacyRow>)
    requires InKeyOrder(rows)
    ensures forall i, j :: 0 <= i < j < |rows| ==> rows[i].key != rows[j].key
  {
    forall i, j | 0 <= i < j < |rows| ensures rows[i].key != rows[j].key {
      KeyLessIrreflexive(rows[i].key, rows[j].key);
    }
  }

  // ----- what a successful migration leaves -----

  ghost predicate SizesMatch(rows: seq<LegacyRow>) {
    forall i :: 0 <= i < |rows| && rows[i].data.Some? ==> |rows[i].data.value| == rows[i].row.size
  }

  lemma RowEntry(chunks: map<ChunkKey, Bytes>, row: LegacyRow, c: ChunkKey)
    requires row.data.Some? && MigrateRow(chunks, row).Success?
    ensures var after, data := MigrateRow(chunks, row).value, row.data.value;
            && (c.att != row.key ==> (c in after <==> c in chunks) && (c in chunks ==> after[c] == chunks[c]))
            && (c.att == row.key && 0 <= c.index < ChunkCount(|data|) ==>
                  c !in chunks && c in after && after[c] == Slice(data, c.index))
            && (c.att == row.key && !(0 <= c.index < ChunkCount(|data|)) ==>
                  (c in after <==> c in chunks) && (c in chunks ==> after[c] == chunks[c]))
  {
    hide Slice, ChunkCount;
    assert c.att == row.key ==> c == ChunkKey(row.key, c.index);
  }

  /** Chunks of attachments that are not among the rows stay as they are. */
  lemma {:induction false} MigratedElsewhere(chunks: map<ChunkKey, Bytes>, rows: seq<LegacyRow>, c: ChunkKey)
    requires forall i :: 0 <= i < |rows| ==> rows[i].data.Some? && rows[i].key != c.att
    requires MigrateRows(chunks, rows).Success?
    ensures var after := MigrateRows(chunks, rows).value;
            (c in after <==> c in chunks) && (c in chunks ==> after[c] == chunks[c])
  {
    hide MigrateRow;
    if rows != [] {
      var n := |rows| - 1;
      MigratedElsewhere(chunks, rows[..n], c);
      RowEntry(MigrateRows(chunks, rows[..n]).value, rows[n], c);
    }
  }

  /** The chunks of the j-th row are the slices of its data, and there are no others. */
  lemma {:induction false} MigratedEntry(rows: seq<LegacyRow>, j: nat, c: ChunkKey)
    requires forall i :: 0 <= i < |rows| ==> rows[i].data.Some?
    requires forall i, l :: 0 <= i < l < |rows| ==> rows[i].key != rows[l].key
    requires j < |rows| && c.att == rows[j].key && MigrateRows(map[], rows).Success?
    ensures var after, data := MigrateRows(map[], rows).value, rows[j].data.value;
            && (c in after <==> 0 <= c.index < ChunkCount(|data|))
            && (c in after ==> after[c] == Slice(data, c.index))
  {
    hide MigrateRow, Slice, ChunkCount;
    var n := |rows| - 1;
    var before := MigrateRows(map[], rows[..n]).value;
    RowEntry(before, rows[n], c);
    if j < n {
      MigratedEntry(rows[..n], j, c);
    } else {
      MigratedElsewhere(map[], rows[..n], c);
    }
  }

  /** Into an empty chunk table the migration raises if and only if some row's
      length differs from its size_bytes; the primary key is never violated. */
  lemma {:induction false} SucceedsIffSizesMatch(rows: seq<LegacyRow>)
    requires forall i :: 0 <= i < |rows| ==> rows[i].data.Some?
    requires forall i, l :: 0 <= i < l < |rows| ==> rows[i].key != rows[l].key
    ensures MigrateRows(map[], rows).Success? <==> SizesMatch(rows)
  {
    hide ChunkCount, RowChunks;
    if rows != [] {
      var n := |rows| - 1;
      SucceedsIffSizesMatch(rows[..n]);
      if SizesMatch(rows[..n]) {
        var before := MigrateRows(map[], rows[..n]).value;
        forall i | 0 <= i < ChunkCount(|rows[n].data.value|) ensures ChunkKey(rows[n].key, i) !in before {
          MigratedElsewhere(map[], rows[..n], ChunkKey(rows[n].key, i));
        }
      } else {
        var i :| 0 <= i < n && |rows[..n][i].data.value| != rows[..n][i].row.size;
        assert rows[i] == rows[..n][i];
      }
    }
  }

  /** The failure names the first row, in key order, whose length is wrong. */
  lemma RaisesAtFirst(rows: seq<LegacyRow>, j: nat)
    requires forall i :: 0 <= i < |rows| ==> rows[i].data.Some?
    requires forall i, l :: 0 <= i < l < |rows| ==> rows[i].key != rows[l].key
    requires j < |rows| && |rows[j].data.value| != rows[j].row.size
    requires forall i :: 0 <= i < j ==> |rows[i].data.value| == rows[i].row.size
    ensures MigrateRows(map[], rows) == Failure(SizeMismatch(rows[j].key.attachment))
  {
    hide MigrateRow, ChunkCount, RowChunks;
    SucceedsIffSizesMatch(rows[..j]);
    assert rows[..j + 1][..j] == rows[..j];
    WrongSize(MigrateRows(map[], rows[..j]).value, rows[j]);
    FirstFailureEnds(map[], rows, j + 1);
  }

  lemma WrongSize(chunks: map<ChunkKey, Bytes>, row: LegacyRow)
    requires row.data.Some? && |row.data.value| != row.row.size
    ensures MigrateRow(chunks, row) == Failure(SizeMismatch(row.key.attachment))
  {
  }

  // ----- the store it hands over -----

  /** note_attachments once the data column is gone. */
  function Attachments(rows: seq<LegacyRow>): map<AttKey, AttRow> {
    if rows == [] then map[] else
    var n := |rows| - 1;
    Attachments(rows[..n])[rows[n].key := rows[n].row]
  }

  lemma {:induction false} AttachmentsEntry(rows: seq<LegacyRow>)
    requires forall i, l :: 0 <= i < l < |rows| ==> rows[i].key != rows[l].key
    ensures forall j :: 0 <= j < |rows| ==>
              rows[j].key in Attachments(rows) && Attachments(rows)[rows[j].key] == rows[j].row
    ensures forall k :: k in Attachments(rows) ==> exists j :: 0 <= j < |rows| && rows[j].key == k
  {
    if rows != [] {
      var n := |rows| - 1;
      AttachmentsEntry(rows[..n]);
      forall k | k in Attachments(rows) ensures exists j :: 0 <= j < |rows| && rows[j].key == k {
        if k == rows[n].key {
        } else {
          var j :| 0 <= j < n && rows[..n][j].key == k;
          assert rows[j].key == k;
        }
      }
    }
  }

  /** The bytes a row stands for; a null column stands for none. */
  function DataOf(row: LegacyRow): Bytes {
    if row.data.Some? then row.data.value else []
  }

  /** The chunks of every row, data or none, in the migrated table. */
  lemma TableEntry(rows: seq<LegacyRow>, j: nat, c: ChunkKey)
    requires InKeyOrder(rows) && MigrateRows(map[], NotNull(rows)).Success?
    requires j < |rows| && c.att == rows[j].key
    ensures var after := MigrateRows(map[], NotNull(rows)).value;
            && (c in after <==> 0 <= c.index < ChunkCount(|DataOf(rows[j])|))
            && (c in after ==> after[c] == Slice(DataOf(rows[j]), c.index))
  {
    hide MigrateRows, NotNull, Slice;
    var kept := NotNull(rows);
    DifferentKeys(rows);
    NotNullInOrder(rows);
    DifferentKeys(kept);
    assert rows[j] in rows;
    if rows[j].data.Some? {
      assert rows[j] in kept;
      var i :| 0 <= i < |kept| && kept[i] == rows[j];
      MigratedEntry(kept, i, c);
    } else {
      forall i | 0 <= i < |kept| ensures kept[i].key != c.att {
        assert kept[i] in kept;
        var l :| 0 <= l < |rows| && rows[l] == kept[i];
        assert l != j;
      }
      MigratedElsewhere(map[], kept, c);
    }
  }

  lemma MigratedContent(rows: seq<LegacyRow>, j: nat)
    requires InKeyOrder(rows) && MigrateRows(map[], NotNull(rows)).Success? && j < |rows|
    ensures Content(MigrateRows(map[], NotNull(rows)).value, rows[j].key, ChunkCount(|DataOf(rows[j])|))
         == DataOf(rows[j])
  {
    hide MigrateRows, NotNull, Slice, Join, DataOf;
    var after, data := MigrateRows(map[], NotNull(rows)).value, DataOf(rows[j]);
    var n := ChunkCount(|data|);
    forall i | 0 <= i < n ensures ChunkAt(after, rows[j].key, i) == Slice(data, i) {
      TableEntry(rows, j, ChunkKey(rows[j].key, i));
    }
    assert ChunkParts(after, rows[j].key, n) == Slices(data, n);
    SlicesJoin(data);
  }

  lemma NullRowIsEmpty(size: nat)
    ensures ChunkCount(size) == 0 <==> size == 0
  {
  }

  /** One attachment satisfies the store's invariant exactly if its size and etag
      were those of its bytes. */
  lemma RowIsOk(sha: Bytes -> Digest, rows: seq<LegacyRow>, j: nat)
    requires InKeyOrder(rows) && MigrateRows(map[], NotNull(rows)).Success? && SizesMatch(NotNull(rows)) && j < |rows|
    ensures AttachmentOk(sha, rows[j].row, MigrateRows(map[], NotNull(rows)).value, rows[j].key)
       <==> rows[j].row.size == |DataOf(rows[j])| && rows[j].row.etag == sha(DataOf(rows[j]))
  {
    hide MigrateRows, NotNull, Slice, Content, ChunkCount, SliceLength;
    var after, data := MigrateRows(map[], NotNull(rows)).value, DataOf(rows[j]);
    MigratedContent(rows, j);
    NullRowIsEmpty(rows[j].row.size);
    forall i ensures ChunkKey(rows[j].key, i) in after <==> 0 <= i < ChunkCount(|data|)
      ensures 0 <= i < ChunkCount(|data|) ==> after[ChunkKey(rows[j].key, i)] == Slice(data, i)
    {
      TableEntry(rows, j, ChunkKey(rows[j].key, i));
    }
    if rows[j].data.Some? {
      assert rows[j] in rows && rows[j] in NotNull(rows);
      var i :| 0 <= i < |NotNull(rows)| && NotNull(rows)[i] == rows[j];
      assert rows[j].row.size == |data| <= SIZE_LIMIT;
    } else {
      NullRowIsEmpty(0);
      if rows[j].row.size != 0 {
        assert ChunkKey(rows[j].key, 0) !in after;
      }
    }
  }

  /** Every row states the length and the hash of its own bytes. */
  ghost predicate DescribesData(sha: Bytes -> Digest, rows: seq<LegacyRow>) {
    forall j :: 0 <= j < |rows| ==> rows[j].row.size == |DataOf(rows[j])| && rows[j].row.etag == sha(DataOf(rows[j]))
  }

  /** The migration establishes what the upload protocol maintains. It succeeds if
      and only if all sizes are right; the bytes are then unchanged; and the chunk
      tables satisfy the store's invariant if and only if every etag was the hash
      of its row's bytes (and a row without bytes claimed none). */
  lemma MigrationEstablishesStore(sha: Bytes -> Digest, rows: seq<LegacyRow>)
    requires InKeyOrder(rows)
    ensures MigrateRows(map[], NotNull(rows)).Success? <==> SizesMatch(rows)
    ensures MigrateRows(map[], NotNull(rows)).Success? ==>
              var after := MigrateRows(map[], NotNull(rows)).value;
              && (forall j :: 0 <= j < |rows| ==>
                    Content(after, rows[j].key, ChunkCount(|DataOf(rows[j])|)) == DataOf(rows[j]))
              && (ChunksOk(sha, Attachments(rows), after) <==> DescribesData(sha, rows))
  {
    hide MigrateRows, NotNull, Slice, Content, ChunkCount, SliceLength, DataOf, AttachmentOk, Attachments;
    var kept := NotNull(rows);
    NotNullInOrder(rows);
    DifferentKeys(rows);
    DifferentKeys(kept);
    SucceedsIffSizesMatch(kept);
    SameSizes(rows);
    if MigrateRows(map[], kept).Success? {
      var after := MigrateRows(map[], kept).value;
      AttachmentsEntry(rows);
      forall j | 0 <= j < |rows|
        ensures Content(after, rows[j].key, ChunkCount(|DataOf(rows[j])|)) == DataOf(rows[j])
        ensures AttachmentOk(sha, rows[j].row, after, rows[j].key)
           <==> rows[j].row.size == |DataOf(rows[j])| && rows[j].row.etag == sha(DataOf(rows[j]))
      {
        MigratedContent(rows, j);
        RowIsOk(sha, rows, j);
      }
      NoOrphans(rows);
      assert ChunksOk(sha, Attachments(rows), after)
        <==> forall j :: 0 <= j < |rows| ==> AttachmentOk(sha, rows[j].row, after, rows[j].key);
    }
  }

  lemma SameSizes(rows: seq<LegacyRow>)
    ensures SizesMatch(NotNull(rows)) <==> SizesMatch(rows)
  {
    hide NotNull;
    var kept := NotNull(rows);
    if SizesMatch(kept) {
      forall j | 0 <= j < |rows| && rows[j].data.Some? ensures |rows[j].data.value| == rows[j].row.size {
        assert rows[j] in kept;
        var i :| 0 <= i < |kept| && kept[i] == rows[j];
      }
    }
    if SizesMatch(rows) {
      forall i | 0 <= i < |kept| ensures |kept[i].data.value| == kept[i].row.size {
        assert kept[i] in kept;
        var j :| 0 <= j < |rows| && rows[j] == kept[i];
      }
    }
  }

  /** Every migrated chunk belongs to a row, within that row's range. */
  lemma NoOrphans(rows: seq<LegacyRow>)
    requires InKeyOrder(rows) && MigrateRows(map[], NotNull(rows)).Success?
    ensures forall c :: c in MigrateRows(map[], NotNull(rows)).value ==>
              exists j :: 0 <= j < |rows| && rows[j].key == c.att && 0 <= c.index < ChunkCount(|DataOf(rows[j])|)
  {
    hide MigrateRows, NotNull, ChunkCount, DataOf;
    var kept := NotNull(rows);
    forall c | c in MigrateRows(map[], kept).value
      ensures exists j :: 0 <= j < |rows| && rows[j].key == c.att && 0 <= c.index < ChunkCount(|DataOf(rows[j])|)
    {
      if j :| 0 <= j < |rows| && rows[j].key == c.att {
        TableEntry(rows, j, c);
      } else {
        forall i | 0 <= i < |kept| ensures kept[i].key != c.att {
          assert kept[i] in kept;
          var l :| 0 <= l < |rows| && rows[l] == kept[i];
        }
        MigratedElsewhere(map[], kept, c);
      }
    }
  }
}
