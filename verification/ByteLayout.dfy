/** Which byte of a note body or a vault header means what, by its offset. */
module ByteLayout {
  import opened Prelude
  import opened Buffer
  import BigEndian
  import Utf8
  import Ssnt
  import Ssnv

  // ----- integers -----

  /** The first byte is the most significant one. */
  lemma {:induction false} LeadingByte(b: Bytes)
    requires b != []
    ensures BigEndian.Decode(b) == b[0] as nat * BigEndian.Pow256(|b| - 1) + BigEndian.Decode(b[1..])
    decreases |b|
  {
    var front := b[..|b| - 1];
    if |b| > 1 {
      LeadingByte(front);
      assert b[1..][..|b| - 2] == front[1..];
      Shifted(b[0] as nat, |b| - 2);
    } else {
      assert front == [] && b[1..] == [];
    }
  }

  lemma Shifted(x: nat, n: nat)
    ensures x * BigEndian.Pow256(n + 1) == 256 * (x * BigEndian.Pow256(n))
  {
  }

  // ----- reads at an offset -----

  lemma FixedAt(data: Bytes, i: nat, count: nat)
    requires i <= |data|
    ensures Fixed(data[i..], count)
         == if i + count <= |data| then Parsed((data[i..i + count], data[i + count..])) else ParseError
  {
    if i + count <= |data| {
      assert data[i..][..count] == data[i..i + count] && data[i..][count..] == data[i + count..];
    }
  }

  lemma UIntAt(data: Bytes, i: nat, width: nat)
    requires i <= |data|
    ensures UInt(data[i..], width)
         == if i + width <= |data| then Parsed((BigEndian.Decode(data[i..i + width]), data[i + width..]))
            else ParseError
  {
    FixedAt(data, i, width);
  }

  /** Where a length-prefixed field that starts at i ends, if it is all there. */
  function EndOf(data: Bytes, i: nat): (end: Option<nat>)
    ensures end.Some? ==> i + 4 <= end.value <= |data|
  {
    if i + 4 > |data| then None else
    var end := i + 4 + BigEndian.Decode(data[i..i + 4]);
    if end > |data| then None else Some(end)
  }

  lemma PrefixedAt(data: Bytes, i: nat)
    requires i <= |data|
    ensures Prefixed(data[i..])
         == match EndOf(data, i)
            case None => ParseError
            case Some(end) => Parsed((data[i + 4..end], data[end..]))
  {
    hide Fixed, UInt;
    UIntAt(data, i, 4);
    if i + 4 <= |data| {
      FixedAt(data, i + 4, BigEndian.Decode(data[i..i + 4]));
    }
  }

  /** Reading the field at i leaves nothing exactly if it ends with the data. */
  lemma LastFieldAt(data: Bytes, i: nat)
    requires i <= |data|
    ensures EndOf(data, i).None? ==> Prefixed(data[i..]) == ParseError
    ensures EndOf(data, i) == Some(|data|) ==> Prefixed(data[i..]) == Parsed((data[i + 4..], []))
    ensures EndOf(data, i).Some? && EndOf(data, i) != Some(|data|) ==>
              Prefixed(data[i..]).Parsed? && Prefixed(data[i..]).value.1 != []
  {
    hide Prefixed, BigEndian.Decode;
    PrefixedAt(data, i);
    if EndOf(data, i).Some? {
      var end := EndOf(data, i).value;
      assert |data[end..]| == |data| - end;
      if end == |data| {
        assert data[i + 4..end] == data[i + 4..];
        assert data[end..] == [];
      }
    }
  }

  lemma AllOf(data: Bytes)
    ensures data[0..] == data
  {
  }

  // ----- note bodies -----

  /** The front of a note body: "SSNT", version 1, the note id, the whole title. */
  predicate HasFront(data: Bytes) {
    |data| >= 21 && data[..4] == [0x53, 0x53, 0x4E, 0x54] && data[4] == 1 && EndOf(data, 21).Some?
  }

  function IdAt(data: Bytes): Uuid
    requires |data| >= 21
  {
    BigEndian.Widths();
    BigEndian.Decode(data[5..21])
  }

  /** From the title's end p on: created_at, updated_at, attachment count, total size,
      and two length-prefixed fields that end with the data. */
  predicate TailIs(data: Bytes, p: nat, f: Ssnt.Fields) {
    && p + 28 <= |data|
    && BigEndian.Decode(data[p..p + 8]) == f.createdAt
    && BigEndian.Decode(data[p + 8..p + 16]) == f.updatedAt
    && BigEndian.Decode(data[p + 16..p + 20]) == f.attachmentCount
    && BigEndian.Decode(data[p + 20..p + 28]) == f.attachmentsTotalSize
    && EndOf(data, p + 28).Some?
    && var q := EndOf(data, p + 28).value;
    && data[p + 32..q] == f.wrappedFek
    && EndOf(data, q) == Some(|data|)
    && data[q + 4..] == f.payload
  }

  lemma TailAt(data: Bytes, p: nat, id: Uuid, title: string, f: Ssnt.Fields)
    requires p <= |data|
    ensures Ssnt.ParseTail(id, title, data[p..]) == Parsed(f)
       <==> f.noteId == id && f.title == title && TailIs(data, p, f)
    ensures !Ssnt.ParseTail(id, title, data[p..]).UnicodeError?
  {
    hide UInt, Prefixed, BigEndian.Decode;
    UIntAt(data, p, 8);
    if p + 28 <= |data| {
      UIntAt(data, p + 8, 8);
      UIntAt(data, p + 16, 4);
      UIntAt(data, p + 20, 8);
      PrefixedAt(data, p + 28);
      if EndOf(data, p + 28).Some? {
        LastFieldAt(data, EndOf(data, p + 28).value);
      }
    } else if p + 8 <= |data| {
      UIntAt(data, p + 8, 8);
      if p + 16 <= |data| {
        UIntAt(data, p + 16, 4);
        if p + 20 <= |data| {
          UIntAt(data, p + 20, 8);
        }
      }
    }
  }

  lemma FrontAt(data: Bytes)
    ensures Ssnt.Parse(data)
         == if !HasFront(data) then ParseError else
            var end := EndOf(data, 21).value;
            match Utf8.Decode(data[25..end])
            case None => UnicodeError
            case Some(title) => Ssnt.ParseTail(IdAt(data), title, data[end..])
  {
    hide Fixed, UInt, Prefixed, Ssnt.ParseTail, BigEndian.Decode, Utf8.Decode;
    AllOf(data);
    FixedAt(data, 0, 4);
    if |data| >= 4 {
      UIntAt(data, 4, 1);
      if |data| >= 5 {
        OneByte(data, 4);
        UIntAt(data, 5, 16);
        if |data| >= 21 {
          PrefixedAt(data, 21);
        }
      }
    }
  }

  lemma OneByte(data: Bytes, i: nat)
    requires i < |data|
    ensures BigEndian.Decode(data[i..i + 1]) == data[i] as nat
  {
    assert data[i..i + 1] == [data[i]];
    assert BigEndian.Decode([]) == 0;
  }

  /** A note body parses to given fields exactly if they stand at these offsets and
      nothing follows; it raises the decoding error exactly if a complete front carries
      a title that is not UTF-8. */
  lemma SsntLayout(data: Bytes, f: Ssnt.Fields)
    ensures Ssnt.Parse(data) == Parsed(f)
       <==> && HasFront(data)
            && BigEndian.Decode(data[5..21]) == f.noteId
            && Utf8.Decode(data[25..EndOf(data, 21).value]) == Some(f.title)
            && TailIs(data, EndOf(data, 21).value, f)
    ensures Ssnt.Parse(data) == UnicodeError
       <==> HasFront(data) && Utf8.Decode(data[25..EndOf(data, 21).value]) == None
  {
    hide Ssnt.Parse, Ssnt.ParseTail, Utf8.Decode, BigEndian.Decode, TailIs;
    FrontAt(data);
    if HasFront(data) && Utf8.Decode(data[25..EndOf(data, 21).value]).Some? {
      TailAt(data, EndOf(data, 21).value, IdAt(data), Utf8.Decode(data[25..EndOf(data, 21).value]).value, f);
    }
  }

  // ----- vault headers -----

  /** From offset p on: algorithm byte, 32 bytes of key, the wrapped private key. */
  predicate IdentityIs(data: Bytes, p: nat, i: Ssnv.Identity) {
    && p + 33 <= |data|
    && data[p] as nat == i.algorithmId
    && data[p + 1..p + 33] == i.publicKey
    && EndOf(data, p + 33) == Some(|data|)
    && data[p + 37..] == i.wrappedPrivateKey
  }

  /** "SSNV", version, key derivation function, 32 bytes of salt, iterations, two
      length-prefixed keys; version 2 has the identity block after them, version 1 nothing. */
  predicate HeaderIs(data: Bytes, h: Ssnv.Header) {
    && |data| >= 42
    && data[..4] == [0x53, 0x53, 0x4E, 0x56]
    && data[5] as nat == h.kdfId
    && data[6..38] == h.salt
    && BigEndian.Decode(data[38..42]) == h.iterations
    && EndOf(data, 42).Some?
    && var p := EndOf(data, 42).value;
    && data[46..p] == h.wrappedPassword
    && EndOf(data, p).Some?
    && var q := EndOf(data, p).value;
    && data[p + 4..q] == h.wrappedRecovery
    && match h.identity
       case None => data[4] == 1 && q == |data|
       case Some(i) => data[4] == 2 && IdentityIs(data, q, i)
  }

  lemma IdentityAt(data: Bytes, p: nat, version: nat, identity: Option<Ssnv.Identity>)
    requires p <= |data| && (version == 1 || version == 2)
    ensures Ssnv.ParseIdentity(version, data[p..]) == Parsed(identity)
       <==> match identity
            case None => version == 1 && p == |data|
            case Some(i) => version == 2 && IdentityIs(data, p, i)
  {
    hide UInt, Fixed, Prefixed, BigEndian.Decode;
    UIntAt(data, p, 1);
    if p + 1 <= |data| {
      OneByte(data, p);
      FixedAt(data, p + 1, 32);
      if p + 33 <= |data| {
        LastFieldAt(data, p + 33);
      }
    }
  }

  lemma BodyAt(data: Bytes, version: nat, h: Ssnv.Header)
    requires |data| >= 5 && (version == 1 || version == 2)
    ensures Ssnv.ParseBody(version, data[5..]) == Parsed(h)
       <==> && |data| >= 42
            && data[5] as nat == h.kdfId
            && data[6..38] == h.salt
            && BigEndian.Decode(data[38..42]) == h.iterations
            && EndOf(data, 42).Some?
            && var p := EndOf(data, 42).value;
            && data[46..p] == h.wrappedPassword
            && EndOf(data, p).Some?
            && var q := EndOf(data, p).value;
            && data[p + 4..q] == h.wrappedRecovery
            && Ssnv.ParseIdentity(version, data[q..]) == Parsed(h.identity)
  {
    hide UInt, Fixed, Prefixed, Ssnv.ParseIdentity, BigEndian.Decode;
    UIntAt(data, 5, 1);
    if |data| >= 6 {
      OneByte(data, 5);
      FixedAt(data, 6, 32);
      if |data| >= 38 {
        UIntAt(data, 38, 4);
        if |data| >= 42 {
          PrefixedAt(data, 42);
          if EndOf(data, 42).Some? {
            PrefixedAt(data, EndOf(data, 42).value);
          }
        }
      }
    }
  }

  lemma VersionAt(data: Bytes)
    ensures Ssnv.Parse(data)
         == if |data| >= 5 && data[..4] == [0x53, 0x53, 0x4E, 0x56] && (data[4] == 1 || data[4] == 2)
            then Ssnv.ParseBody(data[4] as nat, data[5..]) else ParseError
  {
    hide Fixed, UInt, Ssnv.ParseBody, BigEndian.Decode;
    AllOf(data);
    FixedAt(data, 0, 4);
    if |data| >= 4 {
      UIntAt(data, 4, 1);
      if |data| >= 5 {
        OneByte(data, 4);
      }
    }
  }

  /** A vault header parses to given fields exactly if they stand at these offsets. */
  lemma SsnvLayout(data: Bytes, h: Ssnv.Header)
    ensures Ssnv.Parse(data) == Parsed(h) <==> HeaderIs(data, h)
  {
    hide Ssnv.Parse, Ssnv.ParseBody, Ssnv.ParseIdentity, BigEndian.Decode, IdentityIs;
    VersionAt(data);
    if |data| >= 5 && (data[4] == 1 || data[4] == 2) {
      BodyAt(data, data[4] as nat, h);
      if |data| >= 42 && EndOf(data, 42).Some? && EndOf(data, EndOf(data, 42).value).Some? {
        IdentityAt(data, EndOf(data, EndOf(data, 42).value).value, data[4] as nat, h.identity);
      }
    }
  }

  // ----- UTF-8 -----

  /** The octets of a character as section 3 of RFC 3629 tabulates them: their number,
      their leading bits, and the character's bits in what remains of each. */
  lemma CharBits(c: char)
    ensures var b, n := Utf8.EncodeChar(c), c as nat;
            && |b| == (if n <= 0x7F then 1 else if n <= 0x7FF then 2 else if n <= 0xFFFF then 3 else 4)
            && (|b| == 1 ==> b[0] as nat == n)
            && (|b| == 2 ==> b[0] / 0x20 == 6)
            && (|b| == 3 ==> b[0] / 0x10 == 0xE)
            && (|b| == 4 ==> b[0] / 8 == 0x1E)
            && (forall i :: 1 <= i < |b| ==> b[i] / 0x40 == 2)
            && (|b| == 2 ==> n == b[0] as nat % 0x20 * 0x40 + b[1] as nat % 0x40)
            && (|b| == 3 ==> n == b[0] as nat % 0x10 * 0x1000 + b[1] as nat % 0x40 * 0x40 + b[2] as nat % 0x40)
            && (|b| == 4 ==> n == b[0] as nat % 8 * 0x4_0000 + b[1] as nat % 0x40 * 0x1000
                                  + b[2] as nat % 0x40 * 0x40 + b[3] as nat % 0x40)
  {
    var n := c as nat;
    SixBits(n);
    SixBits(n / 64);
    SixBits(n / 4096);
    ShiftTwice(n);
  }

  lemma SixBits(n: nat)
    ensures n == n / 64 * 64 + n % 64
    ensures Utf8.Tail(n) as nat % 64 == n % 64 && Utf8.Tail(n) / 64 == 2
  {
  }

  lemma ShiftTwice(n: nat)
    ensures n / 64 / 64 == n / 4096 && n / 4096 / 64 == n / 262144
  {
  }
}
