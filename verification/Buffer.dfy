/** The byte cursor: what each read does to the unread bytes, and the mutable reader itself. */
module Buffer {
  import opened Prelude
  import BigEndian
  import Utf8

  /** ParseError and UnicodeDecodeError are different Python exceptions. */
  datatype Parse<+T> = Parsed(value: T) | ParseError | UnicodeError {
    predicate IsFailure() {
      !Parsed?
    }

    function PropagateFailure<U>(): Parse<U>
      requires IsFailure()
    {
      if ParseError? then ParseError else UnicodeError
    }

    function Extract(): T
      requires Parsed?
    {
      value
    }
  }

  // ----- reads as functions from the unread bytes to a value and the bytes left -----

  function Fixed(b: Bytes, count: nat): Parse<(Bytes, Bytes)> {
    if |b| < count then ParseError else Parsed((b[..count], b[count..]))
  }

  function UInt(b: Bytes, width: nat): (r: Parse<(nat, Bytes)>)
    ensures r.Parsed? ==> r.value.0 < BigEndian.Pow256(width)
  {
    var (raw, rest) :- Fixed(b, width);
    Parsed((BigEndian.Decode(raw), rest))
  }

  function Prefixed(b: Bytes): Parse<(Bytes, Bytes)> {
    var (length, rest) :- UInt(b, 4);
    Fixed(rest, length)
  }

  function Text(b: Bytes): Parse<(string, Bytes)> {
    var (raw, rest) :- Prefixed(b);
    match Utf8.Decode(raw)
    case None => UnicodeError
    case Some(s) => Parsed((s, rest))
  }

  function Magic(b: Bytes, expected: Bytes): Parse<Bytes> {
    var (actual, rest) :- Fixed(b, |expected|);
    if actual != expected then ParseError else Parsed(rest)
  }

  // ----- the matching writers -----

  predicate FitsPrefix(b: Bytes) {
    |b| < 0x1_0000_0000
  }

  function PutPrefixed(b: Bytes): Bytes
    requires FitsPrefix(b)
  {
    BigEndian.Widths();
    BigEndian.Encode(|b|, 4) + b
  }

  function PutText(s: string): Bytes
    requires FitsPrefix(Utf8.Encode(s))
  {
    PutPrefixed(Utf8.Encode(s))
  }

  // ----- reading what was written, and what was read was written -----

  lemma FixedIff(b: Bytes, count: nat, x: Bytes, rest: Bytes)
    ensures Fixed(b, count) == Parsed((x, rest)) <==> b == x + rest && |x| == count
  {
    if b == x + rest && |x| == count {
      assert b[..count] == x && b[count..] == rest;
    }
  }

  lemma UIntIff(b: Bytes, width: nat, v: nat, rest: Bytes)
    ensures UInt(b, width) == Parsed((v, rest))
       <==> v < BigEndian.Pow256(width) && b == BigEndian.Encode(v, width) + rest
  {
    if v < BigEndian.Pow256(width) && b == BigEndian.Encode(v, width) + rest {
      BigEndian.DecodeEncode(v, width);
      FixedIff(b, width, BigEndian.Encode(v, width), rest);
    }
    if UInt(b, width) == Parsed((v, rest)) {
      FixedIff(b, width, b[..width], rest);
      BigEndian.EncodeDecode(b[..width]);
    }
  }

  lemma PrefixedIff(b: Bytes, x: Bytes, rest: Bytes)
    ensures Prefixed(b) == Parsed((x, rest)) <==> FitsPrefix(x) && b == PutPrefixed(x) + rest
  {
    BigEndian.Widths();
    if FitsPrefix(x) && b == PutPrefixed(x) + rest {
      assert b == BigEndian.Encode(|x|, 4) + (x + rest);
      UIntIff(b, 4, |x|, x + rest);
      FixedIff(x + rest, |x|, x, rest);
    }
    if Prefixed(b) == Parsed((x, rest)) {
      var (length, left) := UInt(b, 4).value;
      UIntIff(b, 4, length, left);
      FixedIff(left, length, x, rest);
      assert b == BigEndian.Encode(|x|, 4) + x + rest;
    }
  }

  lemma TextIff(b: Bytes, s: string, rest: Bytes)
    ensures Text(b) == Parsed((s, rest)) <==> FitsPrefix(Utf8.Encode(s)) && b == PutText(s) + rest
  {
    if FitsPrefix(Utf8.Encode(s)) && b == PutText(s) + rest {
      PrefixedIff(b, Utf8.Encode(s), rest);
      Utf8.DecodeEncode(s);
    }
    if Text(b) == Parsed((s, rest)) {
      var (raw, left) := Prefixed(b).value;
      PrefixedIff(b, raw, left);
      Utf8.EncodeDecode(raw);
    }
  }

  lemma MagicIff(b: Bytes, expected: Bytes, rest: Bytes)
    ensures Magic(b, expected) == Parsed(rest) <==> b == expected + rest
  {
    FixedIff(b, |expected|, expected, rest);
  }

  // ----- the reader object -----

  class ByteReader {
    const data: Bytes
    var index: nat

    ghost predicate Valid()
      reads this
    {
      index <= |data|
    }

    /** The unread bytes. */
    ghost function Rest(): Bytes
      reads this
      requires Valid()
    {
      data[index..]
    }

    constructor (data: Bytes)
      ensures Valid() && Rest() == data && this.data == data
    {
      this.data := data;
      index := 0;
    }

    method AtEnd() returns (r: bool)
      requires Valid()
      ensures r <==> Rest() == []
    {
      r := index >= |data|;
    }

    /** A failed read moves nothing; a good one takes its bytes off the front. */
    method ReadFixed(count: nat) returns (r: Parse<Bytes>)
      requires Valid()
      modifies this
      ensures Valid()
      ensures Follows(Fixed(old(Rest()), count), r)
      ensures r.IsFailure() ==> Rest() == old(Rest())
    {
      if |data| - index < count {
        return ParseError;
      }
      var chunk := data[index..index + count];
      index := index + count;
      assert chunk == old(Rest())[..count];
      assert Rest() == old(Rest())[count..];
      return Parsed(chunk);
    }

    method ReadU8() returns (r: Parse<nat>)
      requires Valid()
      modifies this
      ensures Valid() && Follows(UInt(old(Rest()), 1), r)
    {
      r := ReadUInt(1);
    }

    method ReadU32() returns (r: Parse<nat>)
      requires Valid()
      modifies this
      ensures Valid() && Follows(UInt(old(Rest()), 4), r)
    {
      r := ReadUInt(4);
    }

    method ReadU64() returns (r: Parse<nat>)
      requires Valid()
      modifies this
      ensures Valid() && Follows(UInt(old(Rest()), 8), r)
    {
      r := ReadUInt(8);
    }

    method ReadUInt(width: nat) returns (r: Parse<nat>)
      requires Valid()
      modifies this
      ensures Valid() && Follows(UInt(old(Rest()), width), r)
      ensures r.Parsed? ==> r.value < BigEndian.Pow256(width)
    {
      var raw :- ReadFixed(width);
      return Parsed(BigEndian.Decode(raw));
    }

    method ReadLengthPrefixedBytes() returns (r: Parse<Bytes>)
      requires Valid()
      modifies this
      ensures Valid() && Follows(Prefixed(old(Rest())), r)
    {
      var length :- ReadU32();
      r := ReadFixed(length);
    }

    method ReadLengthPrefixedString() returns (r: Parse<string>)
      requires Valid()
      modifies this
      ensures Valid() && Follows(Text(old(Rest())), r)
    {
      var raw :- ReadLengthPrefixedBytes();
      match Utf8.Decode(raw)
      case None => return UnicodeError;
      case Some(s) => return Parsed(s);
    }

    method ExpectMagic(expected: Bytes) returns (r: Parse<()>)
      requires Valid()
      modifies this
      ensures Valid()
      ensures match Magic(old(Rest()), expected)
              case Parsed(rest) => r == Parsed(()) && Rest() == rest
              case ParseError => r == ParseError
              case UnicodeError => r == UnicodeError
    {
      var actual :- ReadFixed(|expected|);
      if actual != expected {
        return ParseError;
      }
      return Parsed(());
    }

    /** What a read returned, and left unread, is what the function says. */
    ghost predicate Follows<T(!new)>(spec: Parse<(T, Bytes)>, r: Parse<T>)
      reads this
      requires Valid()
    {
      match spec
      case Parsed((x, rest)) => r == Parsed(x) && Rest() == rest
      case ParseError => r == ParseError
      case UnicodeError => r == UnicodeError
    }
  }
}
