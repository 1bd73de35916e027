/** The SSNV vault header in its two versions: grammar, printer and parser. */
module Ssnv {
  import opened Prelude
  import opened Buffer
  import BigEndian

  const MAGIC: Bytes := [0x53, 0x53, 0x4E, 0x56]
  const SALT_LENGTH := 32
  const IDENTITY_PUBLIC_KEY_LENGTH := 32

  /** The block that only version 2 has. */
  datatype Identity = Identity(algorithmId: nat, publicKey: Bytes, wrappedPrivateKey: Bytes)

  datatype Header = Header(
    kdfId: nat, salt: Bytes, iterations: nat, wrappedPassword: Bytes, wrappedRecovery: Bytes,
    identity: Option<Identity>)

  datatype VaultHeaderMetadata = VaultHeaderMetadata(
    formatVersion: nat, publicKey: Option<Bytes>, algorithmId: Option<nat>)

  function Version(h: Header): nat {
    if h.identity.Some? then 2 else 1
  }

  function Metadata(h: Header): VaultHeaderMetadata {
    match h.identity
    case None => VaultHeaderMetadata(1, None, None)
    case Some(i) => VaultHeaderMetadata(2, Some(i.publicKey), Some(i.algorithmId))
  }

  ghost predicate PrintableIdentity(i: Identity) {
    && i.algorithmId < BigEndian.Pow256(1)
    && |i.publicKey| == IDENTITY_PUBLIC_KEY_LENGTH
    && FitsPrefix(i.wrappedPrivateKey)
  }

  ghost predicate Printable(h: Header) {
    && h.kdfId < BigEndian.Pow256(1)
    && |h.salt| == SALT_LENGTH
    && h.iterations < BigEndian.Pow256(4)
    && FitsPrefix(h.wrappedPassword)
    && FitsPrefix(h.wrappedRecovery)
    && (h.identity.Some? ==> PrintableIdentity(h.identity.value))
  }

  ghost function PrintIdentity(i: Identity): Bytes
    requires PrintableIdentity(i)
  {
    BigEndian.Encode(i.algorithmId, 1) + (i.publicKey + (PutPrefixed(i.wrappedPrivateKey) + []))
  }

  ghost function PrintTail(h: Header): Bytes
    requires Printable(h)
  {
    match h.identity
    case None => []
    case Some(i) => PrintIdentity(i)
  }

  ghost function Print(h: Header): Bytes
    requires Printable(h)
  {
    BigEndian.Widths();
    MAGIC + (BigEndian.Encode(Version(h), 1) + (BigEndian.Encode(h.kdfId, 1)
      + (h.salt + (BigEndian.Encode(h.iterations, 4)
      + (PutPrefixed(h.wrappedPassword) + (PutPrefixed(h.wrappedRecovery) + PrintTail(h)))))))
  }

  function Parse(data: Bytes): Parse<Header> {
    if data == [] then ParseError else
    var b0 :- Magic(data, MAGIC);
    var (version, b1) :- UInt(b0, 1);
    if version != 1 && version != 2 then ParseError else
    ParseBody(version, b1)
  }

  function ParseBody(version: nat, b1: Bytes): Parse<Header> {
    var (kdf, b2) :- UInt(b1, 1);
    var (salt, b3) :- Fixed(b2, SALT_LENGTH);
    var (iterations, b4) :- UInt(b3, 4);
    var (password, b5) :- Prefixed(b4);
    var (recovery, b6) :- Prefixed(b5);
    var identity :- ParseIdentity(version, b6);
    Parsed(Header(kdf, salt, iterations, password, recovery, identity))
  }

  function ParseIdentity(version: nat, b6: Bytes): (r: Parse<Option<Identity>>)
    ensures r.Parsed? ==> (r.value.Some? <==> version == 2)
  {
    if version == 2 then
      var (algorithm, b7) :- UInt(b6, 1);
      var (key, b8) :- Fixed(b7, IDENTITY_PUBLIC_KEY_LENGTH);
      var (wrapped, b9) :- Prefixed(b8);
      if b9 != [] then ParseError else Parsed(Some(Identity(algorithm, key, wrapped)))
    else if b6 != [] then ParseError
    else Parsed(None)
  }

  lemma IdentityReadsBack(i: Identity)
    requires PrintableIdentity(i)
    ensures ParseIdentity(2, PrintIdentity(i)) == Parsed(Some(i))
  {
    hide UInt, Fixed, Prefixed, PutPrefixed, BigEndian.Encode, BigEndian.Pow256;
    var b8 := PutPrefixed(i.wrappedPrivateKey) + [];
    var b7 := i.publicKey + b8;
    UIntIff(PrintIdentity(i), 1, i.algorithmId, b7);
    FixedIff(b7, IDENTITY_PUBLIC_KEY_LENGTH, i.publicKey, b8);
    PrefixedIff(b8, i.wrappedPrivateKey, []);
  }

  lemma IdentityWasPrinted(b: Bytes, i: Identity)
    requires ParseIdentity(2, b) == Parsed(Some(i))
    ensures PrintableIdentity(i) && b == PrintIdentity(i)
  {
    hide UInt, Fixed, Prefixed, PutPrefixed, BigEndian.Encode, BigEndian.Pow256;
    var (algorithm, b7) := UInt(b, 1).value;
    var (key, b8) := Fixed(b7, IDENTITY_PUBLIC_KEY_LENGTH).value;
    var (wrapped, b9) := Prefixed(b8).value;
    assert b9 == [] && i == Identity(algorithm, key, wrapped);
    UIntIff(b, 1, algorithm, b7);
    FixedIff(b7, IDENTITY_PUBLIC_KEY_LENGTH, key, b8);
    PrefixedIff(b8, wrapped, b9);
  }

  lemma ReadsBack(h: Header)
    requires Printable(h)
    ensures Parse(Print(h)) == Parsed(h)
  {
    hide UInt, Fixed, Prefixed, Magic, PutPrefixed, ParseIdentity, PrintIdentity, BigEndian.Encode, BigEndian.Pow256;
    BigEndian.Widths();
    var b6 := PrintTail(h);
    var b5 := PutPrefixed(h.wrappedRecovery) + b6;
    var b4 := PutPrefixed(h.wrappedPassword) + b5;
    var b3 := BigEndian.Encode(h.iterations, 4) + b4;
    var b2 := h.salt + b3;
    var b1 := BigEndian.Encode(h.kdfId, 1) + b2;
    var b0 := BigEndian.Encode(Version(h), 1) + b1;
    MagicIff(Print(h), MAGIC, b0);
    UIntIff(b0, 1, Version(h), b1);
    UIntIff(b1, 1, h.kdfId, b2);
    FixedIff(b2, SALT_LENGTH, h.salt, b3);
    UIntIff(b3, 4, h.iterations, b4);
    PrefixedIff(b4, h.wrappedPassword, b5);
    PrefixedIff(b5, h.wrappedRecovery, b6);
    if h.identity.Some? {
      IdentityReadsBack(h.identity.value);
    } else {
      NoIdentity([]);
    }
  }

  lemma NoIdentity(b: Bytes)
    ensures ParseIdentity(1, b) == Parsed(None) <==> b == []
  {
  }

  lemma WasPrinted(data: Bytes, h: Header)
    requires Parse(data) == Parsed(h)
    ensures Printable(h) && data == Print(h)
  {
    hide UInt, Fixed, Prefixed, Magic, PutPrefixed, ParseIdentity, PrintIdentity, BigEndian.Encode, BigEndian.Pow256;
    BigEndian.Widths();
    var b0 := Magic(data, MAGIC).value;
    var (version, b1) := UInt(b0, 1).value;
    var (kdf, b2) := UInt(b1, 1).value;
    var (salt, b3) := Fixed(b2, SALT_LENGTH).value;
    var (iterations, b4) := UInt(b3, 4).value;
    var (password, b5) := Prefixed(b4).value;
    var (recovery, b6) := Prefixed(b5).value;
    var identity := ParseIdentity(version, b6).value;
    assert h == Header(kdf, salt, iterations, password, recovery, identity);
    MagicIff(data, MAGIC, b0);
    UIntIff(b0, 1, version, b1);
    UIntIff(b1, 1, kdf, b2);
    FixedIff(b2, SALT_LENGTH, salt, b3);
    UIntIff(b3, 4, iterations, b4);
    PrefixedIff(b4, password, b5);
    PrefixedIff(b5, recovery, b6);
    if version == 2 {
      IdentityWasPrinted(b6, identity.value);
    } else {
      NoIdentity(b6);
    }
  }

  /** The parser accepts exactly the encodings of the two versions, each of one header only. */
  lemma Canonical(data: Bytes, h: Header)
    ensures Parse(data) == Parsed(h) <==> Printable(h) && data == Print(h)
  {
    if Printable(h) && data == Print(h) {
      ReadsBack(h);
    } else if Parse(data) == Parsed(h) {
      WasPrinted(data, h);
    }
  }

  /** Version 2 always carries a key of 32 bytes, version 1 never one. */
  lemma KeyOnlyInVersion2(data: Bytes)
    requires Parse(data).Parsed?
    ensures var m := Metadata(Parse(data).value);
            && (m.formatVersion == 2 <==> m.publicKey.Some?)
            && (m.publicKey.Some? <==> m.algorithmId.Some?)
            && (m.publicKey.Some? ==> |m.publicKey.value| == 32 && m.algorithmId.value < 256)
  {
    WasPrinted(data, Parse(data).value);
    BigEndian.Widths();
  }

  /** No two different byte strings parse to the same header. */
  lemma ParseInjective(a: Bytes, b: Bytes)
    requires Parse(a).Parsed? && Parse(a) == Parse(b)
    ensures a == b
  {
    hide Parse, Print;
    Canonical(a, Parse(a).value);
    Canonical(b, Parse(a).value);
  }

  method ParseVaultHeader(data: Bytes) returns (r: Parse<VaultHeaderMetadata>)
    ensures match Parse(data)
            case Parsed(h) => r == Parsed(Metadata(h))
            case ParseError => r == ParseError
            case UnicodeError => r == UnicodeError
  {
    hide UInt, Magic, ParseBody, BigEndian.Pow256;
    if data == [] {
      return ParseError;
    }
    var reader := new ByteReader(data);
    var _ :- reader.ExpectMagic(MAGIC);
    var version :- reader.ReadU8();
    if version != 1 && version != 2 {
      return ParseError;
    }
    assert Parse(data) == ParseBody(version, reader.Rest());
    r := ReadBody(reader, version);
  }

  /** The fields both versions have, then the rest. */
  method ReadBody(reader: ByteReader, version: nat) returns (r: Parse<VaultHeaderMetadata>)
    requires reader.Valid() && (version == 1 || version == 2)
    modifies reader
    ensures match ParseBody(version, old(reader.Rest()))
            case Parsed(h) => r == Parsed(Metadata(h))
            case ParseError => r == ParseError
            case UnicodeError => r == UnicodeError
  {
    hide UInt, Fixed, Prefixed, ParseIdentity, BigEndian.Pow256;
    var _ :- reader.ReadU8();
    var _ :- reader.ReadFixed(SALT_LENGTH);
    var _ :- reader.ReadU32();
    var _ :- reader.ReadLengthPrefixedBytes();
    var _ :- reader.ReadLengthPrefixedBytes();
    r := ReadIdentity(reader, version);
  }

  /** The version 2 block, the end-of-data check and the metadata. */
  method ReadIdentity(reader: ByteReader, version: nat) returns (r: Parse<VaultHeaderMetadata>)
    requires reader.Valid() && (version == 1 || version == 2)
    modifies reader
    ensures match ParseIdentity(version, old(reader.Rest()))
            case Parsed(None) => r == Parsed(VaultHeaderMetadata(1, None, None))
            case Parsed(Some(i)) => r == Parsed(VaultHeaderMetadata(2, Some(i.publicKey), Some(i.algorithmId)))
            case ParseError => r == ParseError
            case UnicodeError => r == UnicodeError
  {
    hide UInt, Fixed, Prefixed, BigEndian.Pow256;
    var publicKey: Option<Bytes> := None;
    var algorithmId: Option<nat> := None;
    if version == 2 {
      var algorithm :- reader.ReadU8();
      var key :- reader.ReadFixed(IDENTITY_PUBLIC_KEY_LENGTH);
      var _ :- reader.ReadLengthPrefixedBytes();
      publicKey, algorithmId := Some(key), Some(algorithm);
    }
    var done := reader.AtEnd();
    if !done {
      return ParseError;
    }
    if version == 2 && (publicKey.None? || algorithmId.None?) {
      return ParseError;
    }
    return Parsed(VaultHeaderMetadata(version, publicKey, algorithmId));
  }

  /** make_vault_header_v2, appending field by field to one buffer. */
  method MakeVaultHeader(h: Header) returns (buffer: Bytes)
    requires Printable(h) && h.identity.Some?
    ensures buffer == Print(h)
    ensures Parse(buffer) == Parsed(h)
  {
    hide PutPrefixed, Parse, ParseIdentity, BigEndian.Pow256;
    BigEndian.Widths();
    var i := h.identity.value;
    buffer := [];
    buffer := buffer + MAGIC;
    buffer := buffer + [2];
    buffer := buffer + BigEndian.Encode(h.kdfId, 1);
    buffer := buffer + h.salt;
    buffer := buffer + BigEndian.Encode(h.iterations, 4);
    buffer := buffer + PutPrefixed(h.wrappedPassword);
    buffer := buffer + PutPrefixed(h.wrappedRecovery);
    assert BigEndian.Encode(2, 1) == [2];
    ghost var front := buffer;
    assert front + PrintTail(h) == Print(h);
    buffer := buffer + BigEndian.Encode(i.algorithmId, 1);
    buffer := buffer + i.publicKey;
    buffer := buffer + PutPrefixed(i.wrappedPrivateKey);
    assert buffer == front + PrintTail(h);
    Canonical(buffer, h);
  }
}
