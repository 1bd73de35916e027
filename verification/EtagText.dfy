/** The text a note's etag is the hash of, character by character. */
module EtagText {
  import opened Prelude
  import opened CompositeEtag
  import opened Tables
  import BigEndian

  const DIGITS := "0123456789abcdef"

  function Pow16(n: nat): (p: nat)
    ensures p > 0
  {
    if n == 0 then 1 else 16 * Pow16(n - 1)
  }

  // ----- a UUID as text -----

  lemma {:induction false} HexSnoc(b: Bytes, last: byte)
    ensures Hex(b + [last]) == Hex(b) + [HexDigit(last as nat / 16), HexDigit(last as nat % 16)]
  {
    if b == [] {
      assert [last][1..] == [];
      assert Hex([last]) == [HexDigit(last as nat / 16), HexDigit(last as nat % 16)] + Hex([]);
    } else {
      assert (b + [last])[1..] == b[1..] + [last];
      HexSnoc(b[1..], last);
    }
  }

  lemma HexDigitIs(n: nat)
    requires n < 16
    ensures HexDigit(n) == DIGITS[n]
  {
  }

  lemma DivTwice(v: nat, p: nat)
    requires p > 0
    ensures v / 256 / p == v / (256 * p)
  {
    var q := v / 256 / p;
    var r := v / 256 - q * p;
    assert v / 256 == q * p + r && 0 <= r < p;
    assert v == 256 * (q * p + r) + v % 256;
    assert v == q * (256 * p) + (256 * r + v % 256) by {
      assert 256 * (q * p) == q * (256 * p);
    }
    Divides(v, 256 * p, q, 256 * r + v % 256);
  }

  lemma Divides(v: nat, d: nat, q: nat, r: nat)
    requires d > 0 && v == q * d + r && r < d
    ensures v / d == q
  {
    var q1 := v / d;
    assert q1 * d + v % d == v;
    if q1 != q {
      ScaledLess(q1, q, d);
      ScaledLess(q, q1, d);
    }
  }

  lemma ScaledLess(m: nat, n: nat, d: nat)
    ensures m < n ==> m * d + d <= n * d
  {
    if m < n {
      assert (m + 1) * d <= n * d;
    }
  }

  lemma LastDigits(v: nat)
    ensures v % 256 / 16 == v / 16 % 16 && v % 256 % 16 == v % 16
  {
    var high, low := v / 256, v % 256;
    assert v == 16 * (16 * high) + low;
    assert v / 16 == 16 * high + low / 16;
  }

  lemma LastByte(v: nat, n: nat)
    requires n > 0 && v < BigEndian.Pow256(n)
    ensures v / 256 < BigEndian.Pow256(n - 1)
    ensures Hex(BigEndian.Encode(v, n))
         == Hex(BigEndian.Encode(v / 256, n - 1)) + [DIGITS[v / 16 % 16], DIGITS[v % 16]]
  {
    hide Hex, HexDigit;
    HexSnoc(BigEndian.Encode(v / 256, n - 1), (v % 256) as byte);
    LastDigits(v);
    HexDigitIs(v / 16 % 16);
    HexDigitIs(v % 16);
  }

  /** Digit j of the hex form is the j-th of the number's base-16 digits. */
  lemma {:induction false} HexAt(v: nat, n: nat, j: nat)
    requires v < BigEndian.Pow256(n) && j < 2 * n
    ensures Hex(BigEndian.Encode(v, n))[j] == DIGITS[(v / Pow16(2 * n - 1 - j)) % 16]
  {
    hide Hex, HexDigit, Pow16, BigEndian.Encode, BigEndian.Pow256;
    LastByte(v, n);
    if j < 2 * n - 2 {
      HexAt(v / 256, n - 1, j);
      Pow16Step(2 * n - 3 - j);
      DivTwice(v, Pow16(2 * n - 3 - j));
    } else {
      Pow16Step(0);
    }
  }

  lemma Pow16Step(n: nat)
    ensures Pow16(n + 2) == 256 * Pow16(n) && Pow16(0) == 1 && Pow16(1) == 16
  {
  }

  predicate IsHyphen(i: int) {
    i == 8 || i == 13 || i == 18 || i == 23
  }

  /** Which hex digit stands at position i of the text. */
  function DigitIndex(i: nat): nat
    requires i < 36 && !IsHyphen(i)
  {
    if i < 8 then i else if i < 13 then i - 1 else if i < 18 then i - 2 else if i < 23 then i - 3 else i - 4
  }

  lemma TextAt(u: Uuid, i: nat)
    requires i < 36
    ensures BigEndian.Pow256(16) == 0x1_0000_0000_0000_0000_0000_0000_0000_0000
    ensures UuidText(u)[i] == if IsHyphen(i) then '-' else Hex(BigEndian.Encode(u, 16))[DigitIndex(i)]
  {
    hide Hex, BigEndian.Encode;
    BigEndian.Widths();
  }

  /** The text is the 32 lower-case hex digits of the number, with hyphens after the
      8th, 12th, 16th and 20th. */
  lemma UuidTextIs(u: Uuid, i: nat)
    requires i < 36
    ensures UuidText(u)[i] == if IsHyphen(i) then '-' else DIGITS[(u / Pow16(31 - DigitIndex(i))) % 16]
  {
    hide UuidText;
    TextAt(u, i);
    if !IsHyphen(i) {
      HexAt(u, 16, DigitIndex(i));
    }
  }

  // ----- text order is numeric order -----

  /** The first place at which two texts differ decides. */
  lemma {:induction false} FirstDifference(s: string, t: string, i: nat)
    requires i < |s| && i < |t| && s[..i] == t[..i] && s[i] < t[i]
    ensures AtMost(s, t) && s != t
  {
    if i > 0 {
      assert s[0] == s[..i][0] && t[0] == t[..i][0];
      assert s[1..][..i - 1] == s[..i][1..] && t[1..][..i - 1] == t[..i][1..];
      FirstDifference(s[1..], t[1..], i - 1);
    }
  }

  /** A smaller number has the smaller byte at the first place where they differ. */
  lemma {:induction false} EncodeOrdered(u: nat, v: nat, n: nat) returns (i: nat)
    requires u < v < BigEndian.Pow256(n)
    ensures i < n && BigEndian.Encode(u, n)[..i] == BigEndian.Encode(v, n)[..i]
    ensures BigEndian.Encode(u, n)[i] < BigEndian.Encode(v, n)[i]
  {
    if u / 256 < v / 256 {
      i := EncodeOrdered(u / 256, v / 256, n - 1);
      assert BigEndian.Encode(u, n)[..i] == BigEndian.Encode(u / 256, n - 1)[..i];
      assert BigEndian.Encode(v, n)[..i] == BigEndian.Encode(v / 256, n - 1)[..i];
    } else {
      i := n - 1;
    }
  }

  lemma {:induction false} HexOfByte(b: Bytes, i: nat)
    requires i < |b|
    ensures Hex(b)[2 * i] == HexDigit(b[i] as nat / 16) && Hex(b)[2 * i + 1] == HexDigit(b[i] as nat % 16)
  {
    if i > 0 {
      HexOfByte(b[1..], i - 1);
    }
  }

  lemma HexOrdered(a: Bytes, b: Bytes, i: nat) returns (j: nat)
    requires |a| == |b| && i < |a| && a[..i] == b[..i] && a[i] < b[i]
    ensures j < 2 * |a| && Hex(a)[..j] == Hex(b)[..j] && Hex(a)[j] < Hex(b)[j]
  {
    hide Hex;
    HexOfByte(a, i);
    HexOfByte(b, i);
    j := if a[i] as nat / 16 < b[i] as nat / 16 then 2 * i else 2 * i + 1;
    forall k | 0 <= k < j ensures Hex(a)[k] == Hex(b)[k] {
      var m := k / 2;
      HexOfByte(a, m);
      HexOfByte(b, m);
      if m < i {
        assert a[m] == a[..i][m] && b[m] == b[..i][m];
      }
    }
    assert Hex(a)[..j] == Hex(b)[..j];
  }

  lemma UuidTextOrdered(u: Uuid, v: Uuid) returns (i: nat)
    requires u < v
    ensures i < 36 && UuidText(u)[..i] == UuidText(v)[..i] && UuidText(u)[i] < UuidText(v)[i]
  {
    hide UuidText, Hex, BigEndian.Encode;
    BigEndian.Widths();
    var a, b := BigEndian.Encode(u, 16), BigEndian.Encode(v, 16);
    var byteAt := EncodeOrdered(u, v, 16);
    var j := HexOrdered(a, b, byteAt);
    i := if j < 8 then j else if j < 12 then j + 1 else if j < 16 then j + 2 else if j < 20 then j + 3 else j + 4;
    TextAt(u, i);
    TextAt(v, i);
    forall k | 0 <= k < i ensures UuidText(u)[k] == UuidText(v)[k] {
      TextAt(u, k);
      TextAt(v, k);
      if !IsHyphen(k) {
        assert Hex(a)[DigitIndex(k)] == Hex(a)[..j][DigitIndex(k)];
        assert Hex(b)[DigitIndex(k)] == Hex(b)[..j][DigitIndex(k)];
      }
    }
    assert UuidText(u)[..i] == UuidText(v)[..i];
  }

  lemma PartOrdered(p: (Uuid, Digest), q: (Uuid, Digest))
    requires p.0 < q.0
    ensures AtMost(Part(p.0, p.1), Part(q.0, q.1))
  {
    hide UuidText, AtMost;
    var i := UuidTextOrdered(p.0, q.0);
    var s, t := Part(p.0, p.1), Part(q.0, q.1);
    assert s[..i] == UuidText(p.0)[..i] && t[..i] == UuidText(q.0)[..i];
    FirstDifference(s, t, i);
  }

  // ----- the payload of a note -----

  lemma {:induction false} PartAt(pairs: seq<(Uuid, Digest)>, i: nat)
    requires i < |pairs|
    ensures |Parts(pairs)| == |pairs| && Parts(pairs)[i] == Part(pairs[i].0, pairs[i].1)
  {
    PartsLength(pairs);
    if i > 0 {
      PartAt(pairs[1..], i - 1);
    }
  }

  lemma {:induction false} PartsLength(pairs: seq<(Uuid, Digest)>)
    ensures |Parts(pairs)| == |pairs|
  {
    if pairs != [] {
      PartsLength(pairs[1..]);
    }
  }

  /** Pairs listed by ascending id need no sorting. */
  lemma AscendingIsSorted(pairs: seq<(Uuid, Digest)>)
    requires forall i, j :: 0 <= i < j < |pairs| ==> pairs[i].0 < pairs[j].0
    ensures Sort(Parts(pairs)) == Parts(pairs)
  {
    hide Parts, Part, Sort, AtMost;
    var xs := Parts(pairs);
    PartsLength(pairs);
    forall i, j | 0 <= i < j < |xs| ensures AtMost(xs[i], xs[j]) {
      PartAt(pairs, i);
      PartAt(pairs, j);
      PartOrdered(pairs[i], pairs[j]);
    }
    SortSorted(xs);
    SortedUnique(Sort(xs), xs);
  }

  /** Parts of 101 characters joined by commas: part j starts at 102 * j. */
  lemma {:induction false} JoinCommaAt(xs: seq<string>, j: nat)
    requires AllParts(xs) && j < |xs|
    ensures |JoinComma(xs)| == 102 * |xs| - 1
    ensures JoinComma(xs)[102 * j..102 * j + 101] == xs[j]
    ensures j + 1 < |xs| ==> JoinComma(xs)[102 * j + 101] == ','
  {
    var s := JoinComma(xs);
    if |xs| == 1 {
      assert s[..101] == xs[0];
    } else {
      var rest := JoinComma(xs[1..]);
      JoinCommaAt(xs[1..], if j > 0 then j - 1 else 0);
      assert s == (xs[0] + ",") + rest;
      if j > 0 {
        assert s[102 * j..102 * j + 101] == rest[102 * (j - 1)..102 * (j - 1) + 101];
      } else {
        assert s[0..101] == xs[0];
      }
    }
  }

  /** The payload of a note with body etag b: b, a bar, and for each attachment, by
      ascending id and separated by commas, its id in text form, a colon and its etag. */
  lemma PayloadIs(b: Digest, m: map<Uuid, AttRow>, j: nat)
    ensures var text, ids := Payload(b, EtagPairs(m)), Listing(m);
            && |text| == 65 + (if |m| == 0 then 0 else 102 * |m| - 1)
            && text[..64] == b && text[64] == '|'
            && (j < |m| ==>
                  && ids[j] in m
                  && text[65 + 102 * j..166 + 102 * j] == UuidText(ids[j]) + ":" + m[ids[j]].etag
                  && (j + 1 < |m| ==> text[166 + 102 * j] == ','))
  {
    hide Listing, Parts, Sort, JoinComma, UuidText;
    var pairs, ids := EtagPairs(m), Listing(m);
    forall i, l | 0 <= i < l < |pairs| ensures pairs[i].0 < pairs[l].0 {
    }
    AscendingIsSorted(pairs);
    SortedPartsAreParts(pairs);
    PartsLength(pairs);
    var joined := JoinComma(Parts(pairs));
    if |m| == 0 {
      NothingJoined(Parts(pairs));
    } else {
      JoinCommaAt(Parts(pairs), if j < |m| then j else 0);
    }
    var text := Payload(b, pairs);
    assert text == b + "|" + joined;
    if j < |m| {
      PartAt(pairs, j);
      assert ids[j] in ids;
      assert text[65 + 102 * j..166 + 102 * j] == joined[102 * j..102 * j + 101];
    }
  }

  /** The bytes spell the text in ASCII. */
  predicate Spells(b: Bytes, s: string) {
    |b| == |s| && forall i :: 0 <= i < |s| ==> b[i] as int == s[i] as int
  }

  lemma SpellsPart(b: Bytes, s: string, i: nat, j: nat)
    requires Spells(b, s) && i <= j <= |s|
    ensures Spells(b[i..j], s[i..j])
  {
  }

  /** So a note's etag is the hash of exactly those characters. */
  lemma NoteEtagIs(sha: Bytes -> Digest, body: Bytes, m: map<Uuid, AttRow>, j: nat) returns (text: Bytes)
    ensures SyncEtag(sha, body, m) == sha(text)
    ensures |text| == 65 + (if |m| == 0 then 0 else 102 * |m| - 1)
    ensures Spells(text[..64], sha(body)) && text[64] as int == '|' as int
    ensures j < |m| ==>
              && Listing(m)[j] in m
              && Spells(text[65 + 102 * j..166 + 102 * j], UuidText(Listing(m)[j]) + ":" + m[Listing(m)[j]].etag)
              && (j + 1 < |m| ==> text[166 + 102 * j] as int == ',' as int)
  {
    hide Listing, Payload, UuidText;
    PayloadIs(sha(body), m, j);
    text := PayloadBytes(sha(body), EtagPairs(m));
    var payload := Payload(sha(body), EtagPairs(m));
    assert Spells(text, payload);
    SpellsPart(text, payload, 0, 64);
    if j < |m| {
      SpellsPart(text, payload, 65 + 102 * j, 166 + 102 * j);
    }
  }

  lemma NothingJoined(xs: seq<string>)
    requires xs == []
    ensures JoinComma(xs) == ""
  {
  }

  // ----- quotes -----

  function Quotes(n: nat): (s: string)
    ensures |s| == n && forall i :: 0 <= i < n ==> s[i] == '"'
  {
    seq(n, _ => '"')
  }

  lemma {:induction false} StripLeftIs(s: string) returns (n: nat)
    ensures s == Quotes(n) + StripLeft(s) && (StripLeft(s) != [] ==> StripLeft(s)[0] != '"')
  {
    if s != [] && s[0] == '"' {
      var m := StripLeftIs(s[1..]);
      n := m + 1;
      assert s == [s[0]] + s[1..];
      assert Quotes(n) == ['"'] + Quotes(m);
    } else {
      n := 0;
    }
  }

  lemma {:induction false} StripRightIs(s: string) returns (n: nat)
    ensures s == StripRight(s) + Quotes(n) && (StripRight(s) != [] ==> StripRight(s)[|StripRight(s)| - 1] != '"')
    ensures StripRight(s) != [] ==> StripRight(s)[0] == s[0]
  {
    if s != [] && s[|s| - 1] == '"' {
      var m := StripRightIs(s[..|s| - 1]);
      n := m + 1;
      assert s == s[..|s| - 1] + [s[|s| - 1]];
      assert Quotes(n) == Quotes(m) + ['"'];
    } else {
      n := 0;
    }
  }

  /** strip('"') takes away all quotes at both ends and nothing else. */
  lemma StripQuotesIs(s: string) returns (left: nat, right: nat)
    ensures s == Quotes(left) + StripQuotes(s) + Quotes(right)
    ensures StripQuotes(s) != [] ==> StripQuotes(s)[0] != '"' && StripQuotes(s)[|StripQuotes(s)| - 1] != '"'
  {
    left := StripLeftIs(s);
    right := StripRightIs(StripLeft(s));
  }
}
