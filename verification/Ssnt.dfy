/** The SSNT note body: its grammar, its printer, and the reader-driven parser. */
module Ssnt {
  import opened Prelude
  import opened Buffer
  import BigEndian
  import Utf8

  const MAGIC: Bytes := [0x53, 0x53, 0x4E, 0x54]
  const NOTE_ID_LENGTH := 16

  /** Every field of a note body, also those the server skips. */
  datatype Fields = Fields(
    noteId: Uuid, title: string, createdAt: nat, updatedAt: nat,
    attachmentCount: nat, attachmentsTotalSize: nat, wrappedFek: Bytes, payload: Bytes)

  datatype NoteMetadata = NoteMetadata(
    noteId: Uuid, title: string, updatedAt: nat, attachmentCount: nat, attachmentsTotalSize: nat)

  function Metadata(f: Fields): NoteMetadata {
    NoteMetadata(f.noteId, f.title, f.updatedAt, f.attachmentCount, f.attachmentsTotalSize)
  }

  /** The field values that fit their widths. */
  ghost predicate Printable(f: Fields) {
    && FitsPrefix(Utf8.Encode(f.title))
    && f.createdAt < BigEndian.Pow256(8)
    && f.updatedAt < BigEndian.Pow256(8)
    && f.attachmentCount < BigEndian.Pow256(4)
    && f.attachmentsTotalSize < BigEndian.Pow256(8)
    && FitsPrefix(f.wrappedFek)
    && FitsPrefix(f.payload)
  }

  // The encoding, in two halves: up to the title, and from created_at on.

  ghost function Print(f: Fields): Bytes
    requires Printable(f)
  {
    BigEndian.Widths();
    MAGIC + (BigEndian.Encode(1, 1) + (BigEndian.Encode(f.noteId, NOTE_ID_LENGTH)
      + (PutText(f.title) + PrintTail(f))))
  }

  ghost function PrintTail(f: Fields): Bytes
    requires Printable(f)
  {
    BigEndian.Encode(f.createdAt, 8) + (BigEndian.Encode(f.updatedAt, 8)
      + (BigEndian.Encode(f.attachmentCount, 4) + (BigEndian.Encode(f.attachmentsTotalSize, 8)
      + (PutPrefixed(f.wrappedFek) + (PutPrefixed(f.payload) + [])))))
  }

  /** What the parser accepts, as a function of the bytes. */
  function Parse(data: Bytes): Parse<Fields> {
    if data == [] then ParseError else
    var b0 :- Magic(data, MAGIC);
    var (version, b1) :- UInt(b0, 1);
    if version != 1 then ParseError else
    var (noteId, b2) :- UInt(b1, NOTE_ID_LENGTH);
    var (title, b3) :- Text(b2);
    BigEndian.Widths();
    ParseTail(noteId, title, b3)
  }

  function ParseTail(noteId: Uuid, title: string, b3: Bytes): (r: Parse<Fields>)
    ensures r.Parsed? ==> r.value.noteId == noteId && r.value.title == title
  {
    var (createdAt, b4) :- UInt(b3, 8);
    var (updatedAt, b5) :- UInt(b4, 8);
    var (count, b6) :- UInt(b5, 4);
    var (total, b7) :- UInt(b6, 8);
    var (fek, b8) :- Prefixed(b7);
    var (payload, b9) :- Prefixed(b8);
    if b9 != [] then ParseError
    else Parsed(Fields(noteId, title, createdAt, updatedAt, count, total, fek, payload))
  }

  lemma TailReadsBack(f: Fields)
    requires Printable(f)
    ensures ParseTail(f.noteId, f.title, PrintTail(f)) == Parsed(f)
  {
    hide UInt, Prefixed, PutPrefixed, BigEndian.Encode, BigEndian.Pow256;
    var b := PrintTail(f);
    var b8 := PutPrefixed(f.payload) + [];
    var b7 := PutPrefixed(f.wrappedFek) + b8;
    var b6 := BigEndian.Encode(f.attachmentsTotalSize, 8) + b7;
    var b5 := BigEndian.Encode(f.attachmentCount, 4) + b6;
    var b4 := BigEndian.Encode(f.updatedAt, 8) + b5;
    UIntIff(b, 8, f.createdAt, b4);
    UIntIff(b4, 8, f.updatedAt, b5);
    UIntIff(b5, 4, f.attachmentCount, b6);
    UIntIff(b6, 8, f.attachmentsTotalSize, b7);
    PrefixedIff(b7, f.wrappedFek, b8);
    PrefixedIff(b8, f.payload, []);
  }

  lemma TailWasPrinted(b: Bytes, f: Fields)
    requires FitsPrefix(Utf8.Encode(f.title))
    requires ParseTail(f.noteId, f.title, b) == Parsed(f)
    ensures Printable(f) && b == PrintTail(f)
  {
    hide UInt, Prefixed, PutPrefixed, BigEndian.Encode, BigEndian.Pow256;
    var (c, b4) := UInt(b, 8).value;
    var (u, b5) := UInt(b4, 8).value;
    var (n, b6) := UInt(b5, 4).value;
    var (s, b7) := UInt(b6, 8).value;
    var (k, b8) := Prefixed(b7).value;
    var (p, b9) := Prefixed(b8).value;
    assert b9 == [] && f == Fields(f.noteId, f.title, c, u, n, s, k, p);
    UIntIff(b, 8, c, b4);
    UIntIff(b4, 8, u, b5);
    UIntIff(b5, 4, n, b6);
    UIntIff(b6, 8, s, b7);
    PrefixedIff(b7, k, b8);
    PrefixedIff(b8, p, b9);
  }

  lemma ReadsBack(f: Fields)
    requires Printable(f)
    ensures Parse(Print(f)) == Parsed(f)
  {
    hide UInt, Text, Magic, PutText, PrintTail, ParseTail, BigEndian.Encode, BigEndian.Pow256;
    BigEndian.Widths();
    var b3 := PrintTail(f);
    var b2 := PutText(f.title) + b3;
    var b1 := BigEndian.Encode(f.noteId, NOTE_ID_LENGTH) + b2;
    var b0 := BigEndian.Encode(1, 1) + b1;
    MagicIff(Print(f), MAGIC, b0);
    UIntIff(b0, 1, 1, b1);
    UIntIff(b1, NOTE_ID_LENGTH, f.noteId, b2);
    TextIff(b2, f.title, b3);
    TailReadsBack(f);
  }

  lemma WasPrinted(data: Bytes, f: Fields)
    requires Parse(data) == Parsed(f)
    ensures Printable(f) && data == Print(f)
  {
    hide UInt, Text, Magic, PutText, PrintTail, ParseTail, BigEndian.Encode, BigEndian.Pow256;
    BigEndian.Widths();
    var b0 := Magic(data, MAGIC).value;
    var b1 := UInt(b0, 1).value.1;
    var b2 := UInt(b1, NOTE_ID_LENGTH).value.1;
    var b3 := Text(b2).value.1;
    MagicIff(data, MAGIC, b0);
    UIntIff(b0, 1, 1, b1);
    UIntIff(b1, NOTE_ID_LENGTH, f.noteId, b2);
    TextIff(b2, f.title, b3);
    TailWasPrinted(b3, f);
  }

  /** The parser accepts exactly the encodings, and reads back the fields encoded. */
  lemma Canonical(data: Bytes, f: Fields)
    ensures Parse(data) == Parsed(f) <==> Printable(f) && data == Print(f)
  {
    if Printable(f) && data == Print(f) {
      ReadsBack(f);
    } else if Parse(data) == Parsed(f) {
      WasPrinted(data, f);
    }
  }

  /** Two different field tuples have different encodings. */
  lemma PrintInjective(f: Fields, g: Fields)
    requires Printable(f) && Printable(g) && Print(f) == Print(g)
    ensures f == g
  {
    Canonical(Print(f), f);
    Canonical(Print(g), g);
  }

  /** Reading any more or any fewer bytes than one whole body is refused. */
  lemma NoProperExtension(data: Bytes, more: Bytes)
    requires Parse(data).Parsed? && Parse(data + more).Parsed?
    ensures more == []
  {
    var f, g := Parse(data).value, Parse(data + more).value;
    Canonical(data, f);
    Canonical(data + more, g);
    PrefixFields(f, g, more);
  }

  /** If one encoding continues another, nothing is left over: each length is
      fixed by bytes both have in common. */
  lemma PrefixFields(f: Fields, g: Fields, more: Bytes)
    requires Printable(f) && Printable(g) && Print(g) == Print(f) + more
    ensures more == []
  {
    hide PutText, PrintTail, BigEndian.Encode, BigEndian.Pow256;
    BigEndian.Widths();
    var id, one := BigEndian.Encode(f.noteId, NOTE_ID_LENGTH), BigEndian.Encode(1, 1);
    var fTail := PrintTail(f) + more;
    var f2 := PutText(f.title) + fTail;
    var f1 := id + f2;
    assert Print(g) == MAGIC + (one + f1);
    assert Print(g) == MAGIC + (one + (BigEndian.Encode(g.noteId, NOTE_ID_LENGTH) + (PutText(g.title) + PrintTail(g))));
    CutFront(MAGIC, one + f1, MAGIC,
      one + (BigEndian.Encode(g.noteId, NOTE_ID_LENGTH) + (PutText(g.title) + PrintTail(g))));
    CutFront(one, f1, one, BigEndian.Encode(g.noteId, NOTE_ID_LENGTH) + (PutText(g.title) + PrintTail(g)));
    CutFront(id, f2, BigEndian.Encode(g.noteId, NOTE_ID_LENGTH), PutText(g.title) + PrintTail(g));
    TextIff(f2, f.title, fTail);
    TextIff(f2, g.title, PrintTail(g));
    PrefixTail(f, g, more);
  }

  lemma CutFront(a: Bytes, b: Bytes, c: Bytes, d: Bytes)
    requires |a| == |c| && a + b == c + d
    ensures a == c && b == d
  {
    assert a == (a + b)[..|a|] && c == (c + d)[..|c|];
    assert b == (a + b)[|a|..] && d == (c + d)[|c|..];
  }

  lemma PrefixTail(f: Fields, g: Fields, more: Bytes)
    requires Printable(f) && Printable(g) && PrintTail(g) == PrintTail(f) + more
    ensures more == []
  {
    hide PutPrefixed, BigEndian.Encode, BigEndian.Pow256;
    var fixedF := BigEndian.Encode(f.createdAt, 8) + BigEndian.Encode(f.updatedAt, 8)
      + BigEndian.Encode(f.attachmentCount, 4) + BigEndian.Encode(f.attachmentsTotalSize, 8);
    var fixedG := BigEndian.Encode(g.createdAt, 8) + BigEndian.Encode(g.updatedAt, 8)
      + BigEndian.Encode(g.attachmentCount, 4) + BigEndian.Encode(g.attachmentsTotalSize, 8);
    var lastF := PutPrefixed(f.payload) + more;
    assert PrintTail(f) + more == fixedF + (PutPrefixed(f.wrappedFek) + lastF);
    assert PrintTail(g) == fixedG + (PutPrefixed(g.wrappedFek) + PutPrefixed(g.payload));
    CutFront(fixedF, PutPrefixed(f.wrappedFek) + lastF, fixedG, PutPrefixed(g.wrappedFek) + PutPrefixed(g.payload));
    var b7 := PutPrefixed(f.wrappedFek) + lastF;
    PrefixedIff(b7, f.wrappedFek, lastF);
    PrefixedIff(b7, g.wrappedFek, PutPrefixed(g.payload));
    PrefixedIff(lastF, f.payload, more);
    assert lastF == PutPrefixed(g.payload) + [];
    PrefixedIff(lastF, g.payload, []);
  }

  // ----- the parser and the printer as the code runs them -----

  method ParseNoteBlob(data: Bytes) returns (r: Parse<NoteMetadata>)
    ensures match Parse(data)
            case Parsed(f) => r == Parsed(Metadata(f))
            case ParseError => r == ParseError
            case UnicodeError => r == UnicodeError
  {
    if data == [] {
      return ParseError;
    }
    BigEndian.Widths();
    var reader := new ByteReader(data);
    var _ :- reader.ExpectMagic(MAGIC);
    var version :- reader.ReadU8();
    if version != 1 {
      return ParseError;
    }
    var noteId :- reader.ReadUInt(NOTE_ID_LENGTH);
    var title :- reader.ReadLengthPrefixedString();
    var _ :- reader.ReadU64();
    var updatedAt :- reader.ReadU64();
    var attachmentCount :- reader.ReadU32();
    var attachmentsTotalSize :- reader.ReadU64();
    var _ :- reader.ReadLengthPrefixedBytes();
    var _ :- reader.ReadLengthPrefixedBytes();
    var done := reader.AtEnd();
    if !done {
      return ParseError;
    }
    return Parsed(NoteMetadata(noteId, title, updatedAt, attachmentCount, attachmentsTotalSize));
  }

  /** make_note_blob, appending field by field to one buffer. */
  method MakeNoteBlob(f: Fields) returns (buffer: Bytes)
    requires Printable(f)
    ensures buffer == Print(f)
    ensures Parse(buffer) == Parsed(f)
  {
    hide PutText, PutPrefixed, Parse;
    BigEndian.Widths();
    buffer := [];
    buffer := buffer + MAGIC;
    buffer := buffer + [1];
    buffer := buffer + BigEndian.Encode(f.noteId, NOTE_ID_LENGTH);
    buffer := buffer + PutText(f.title);
    ghost var front := buffer;
    buffer := buffer + BigEndian.Encode(f.createdAt, 8);
    buffer := buffer + BigEndian.Encode(f.updatedAt, 8);
    buffer := buffer + BigEndian.Encode(f.attachmentCount, 4);
    buffer := buffer + BigEndian.Encode(f.attachmentsTotalSize, 8);
    buffer := buffer + PutPrefixed(f.wrappedFek);
    buffer := buffer + PutPrefixed(f.payload);
    assert buffer == front + PrintTail(f);
    assert BigEndian.Encode(1, 1) == [1];
    assert front == MAGIC + BigEndian.Encode(1, 1) + BigEndian.Encode(f.noteId, NOTE_ID_LENGTH) + PutText(f.title);
    Canonical(buffer, f);
  }
}
