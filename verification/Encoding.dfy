/** Fixed-width big-endian integers, as struct's ">I" and ">Q" and UUID bytes use them. */
module BigEndian {
  import opened Prelude

  function Pow256(n: nat): (p: nat)
    ensures p > 0
  {
    if n == 0 then 1 else 256 * Pow256(n - 1)
  }

  function Encode(v: nat, n: nat): (b: Bytes)
    requires v < Pow256(n)
    ensures |b| == n
  {
    if n == 0 then [] else Encode(v / 256, n - 1) + [(v % 256) as byte]
  }

  function Decode(b: Bytes): (v: nat)
    ensures v < Pow256(|b|)
  {
    if b == [] then 0 else Decode(b[..|b| - 1]) * 256 + b[|b| - 1] as nat
  }

  lemma {:induction false} DecodeEncode(v: nat, n: nat)
    requires v < Pow256(n)
    ensures Decode(Encode(v, n)) == v
  {
    if n > 0 {
      DecodeEncode(v / 256, n - 1);
      assert Encode(v, n)[..n - 1] == Encode(v / 256, n - 1);
    }
  }

  lemma {:induction false} EncodeDecode(b: Bytes)
    ensures Encode(Decode(b), |b|) == b
  {
    if b != [] {
      var front := b[..|b| - 1];
      EncodeDecode(front);
      assert Decode(b) / 256 == Decode(front);
    }
  }

  lemma Widths()
    ensures Pow256(1) == 0x100
    ensures Pow256(4) == 0x1_0000_0000
    ensures Pow256(8) == 0x1_0000_0000_0000_0000
    ensures Pow256(16) == 0x1_0000_0000_0000_0000_0000_0000_0000_0000
  {
    assert Pow256(2) == 0x1_0000;
    assert Pow256(4) == 0x1_0000_0000;
    assert Pow256(6) == 0x1_0000_0000_0000;
    assert Pow256(8) == 0x1_0000_0000_0000_0000;
    assert Pow256(10) == 0x1_0000_0000_0000_0000_0000;
    assert Pow256(12) == 0x1_0000_0000_0000_0000_0000_0000;
    assert Pow256(14) == 0x1_0000_0000_0000_0000_0000_0000_0000;
  }
}

/** Strict UTF-8 (section 4 of RFC 3629); a char is one Unicode scalar value. */
module Utf8 {
  import opened Prelude

  function EncodeChar(c: char): (b: Bytes)
    ensures 1 <= |b| <= 4
  {
    var n := c as int;
    if n < 0x80 then [n as byte]
    else if n < 0x800 then [(0xC0 + n / 64) as byte, Tail(n)]
    else if n < 0x1_0000 then [(0xE0 + n / 4096) as byte, Tail(n / 64), Tail(n)]
    else [(0xF0 + n / 262144) as byte, Tail(n / 4096), Tail(n / 64), Tail(n)]
  }

  /** A continuation byte carrying the low six bits. */
  function Tail(n: nat): byte {
    (0x80 + n % 64) as byte
  }

  function Encode(s: string): Bytes {
    if s == [] then [] else EncodeChar(s[0]) + Encode(s[1..])
  }

  predicate IsTail(b: byte) {
    0x80 <= b <= 0xBF
  }

  predicate Starts2(b: Bytes) {
    |b| >= 2 && 0xC2 <= b[0] <= 0xDF && IsTail(b[1])
  }

  predicate Starts3(b: Bytes) {
    && |b| >= 3 && 0xE0 <= b[0] <= 0xEF && IsTail(b[1]) && IsTail(b[2])
    && (b[0] == 0xE0 ==> b[1] >= 0xA0)
    && (b[0] == 0xED ==> b[1] <= 0x9F)
  }

  predicate Starts4(b: Bytes) {
    && |b| >= 4 && 0xF0 <= b[0] <= 0xF4 && IsTail(b[1]) && IsTail(b[2]) && IsTail(b[3])
    && (b[0] == 0xF0 ==> b[1] >= 0x90)
    && (b[0] == 0xF4 ==> b[1] <= 0x8F)
  }

  /** The first character and the number of bytes it takes. */
  function DecodeFirst(b: Bytes): (r: Option<(char, nat)>)
    requires b != []
    ensures r.Some? ==> 1 <= r.value.1 <= |b|
  {
    if b[0] < 0x80 then Some((b[0] as int as char, 1))
    else if Starts2(b) then
      Some((((b[0] as int - 0xC0) * 64 + (b[1] as int - 0x80)) as char, 2))
    else if Starts3(b) then
      Some((((b[0] as int - 0xE0) * 4096 + (b[1] as int - 0x80) * 64 + (b[2] as int - 0x80)) as char, 3))
    else if Starts4(b) then
      Some((((b[0] as int - 0xF0) * 262144 + (b[1] as int - 0x80) * 4096
             + (b[2] as int - 0x80) * 64 + (b[3] as int - 0x80)) as char, 4))
    else None
  }

  /** bytes.decode("utf-8"); None stands for UnicodeDecodeError. */
  function Decode(b: Bytes): Option<string>
    decreases |b|
  {
    if b == [] then Some([]) else
    match DecodeFirst(b)
    case None => None
    case Some((c, n)) =>
      match Decode(b[n..])
      case None => None
      case Some(rest) => Some([c] + rest)
  }

  lemma FirstOfEncoded(c: char, rest: Bytes)
    ensures DecodeFirst(EncodeChar(c) + rest) == Some((c, |EncodeChar(c)|))
  {
    var n := c as int;
    var b := EncodeChar(c) + rest;
    if n < 0x80 {
    } else if n < 0x800 {
      assert Starts2(b);
    } else if n < 0x1_0000 {
      assert n / 64 / 64 == n / 4096;
      assert Starts3(b);
    } else {
      assert n / 4096 / 64 == n / 262144 && n / 64 / 64 == n / 4096;
      assert Starts4(b);
    }
  }

  lemma Encoded2(b: Bytes, n: int)
    requires Starts2(b) && n == (b[0] as int - 0xC0) * 64 + (b[1] as int - 0x80)
    ensures 0x80 <= n < 0x800 && EncodeChar(n as char) == b[..2]
  {
    assert n / 64 == b[0] as int - 0xC0;
  }

  lemma Encoded3(b: Bytes, n: int)
    requires Starts3(b)
    requires n == (b[0] as int - 0xE0) * 4096 + (b[1] as int - 0x80) * 64 + (b[2] as int - 0x80)
    ensures 0x800 <= n < 0x1_0000 && !(0xD800 <= n < 0xE000) && EncodeChar(n as char) == b[..3]
  {
    assert n / 64 == (b[0] as int - 0xE0) * 64 + (b[1] as int - 0x80);
    assert n / 4096 == b[0] as int - 0xE0;
  }

  lemma Encoded4(b: Bytes, n: int)
    requires Starts4(b)
    requires n == (b[0] as int - 0xF0) * 262144 + (b[1] as int - 0x80) * 4096
                  + (b[2] as int - 0x80) * 64 + (b[3] as int - 0x80)
    ensures 0x1_0000 <= n < 0x11_0000 && EncodeChar(n as char) == b[..4]
  {
    assert n / 64 == (b[0] as int - 0xF0) * 4096 + (b[1] as int - 0x80) * 64 + (b[2] as int - 0x80);
    assert n / 4096 == (b[0] as int - 0xF0) * 64 + (b[1] as int - 0x80);
    assert n / 262144 == b[0] as int - 0xF0;
  }

  lemma EncodedFirst(b: Bytes)
    requires b != [] && DecodeFirst(b).Some?
    ensures EncodeChar(DecodeFirst(b).value.0) == b[..DecodeFirst(b).value.1]
  {
    var n := DecodeFirst(b).value.0 as int;
    if b[0] >= 0x80 {
      hide EncodeChar, Tail;
      if Starts2(b) {
        Encoded2(b, n);
      } else if Starts3(b) {
        Encoded3(b, n);
      } else {
        Encoded4(b, n);
      }
    }
  }

  lemma {:induction false} DecodeEncode(s: string)
    ensures Decode(Encode(s)) == Some(s)
  {
    if s != [] {
      var head := EncodeChar(s[0]);
      FirstOfEncoded(s[0], Encode(s[1..]));
      DecodeEncode(s[1..]);
      assert Encode(s)[|head|..] == Encode(s[1..]);
      assert s == [s[0]] + s[1..];
    }
  }

  lemma {:induction false} EncodeDecode(b: Bytes)
    requires Decode(b).Some?
    ensures Encode(Decode(b).value) == b
    decreases |b|
  {
    hide DecodeFirst, EncodeChar;
    if b != [] {
      var (c, n) := DecodeFirst(b).value;
      EncodedFirst(b);
      EncodeDecode(b[n..]);
      var rest := Decode(b[n..]).value;
      assert ([c] + rest)[1..] == rest;
      assert b == b[..n] + b[n..];
    }
  }
}
