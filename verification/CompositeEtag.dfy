/** Entity tags: digests, UUID text, and the composite of a body and its attachments. */
module CompositeEtag {
  import opened Prelude
  import BigEndian

  // ----- text forms -----

  predicate IsHexDigit(c: char) {
    '0' <= c <= '9' || 'a' <= c <= 'f'
  }

  predicate IsDigest(s: string) {
    |s| == 64 && forall i :: 0 <= i < |s| ==> IsHexDigit(s[i])
  }

  /** What hexdigest() of a SHA-256 returns. */
  type Digest = s: string | IsDigest(s) witness seq(64, _ => '0')

  function HexDigit(n: nat): (c: char)
    requires n < 16
    ensures IsHexDigit(c)
  {
    if n < 10 then ('0' as int + n) as char else ('a' as int + (n - 10)) as char
  }

  function Hex(b: Bytes): (s: string)
    ensures |s| == 2 * |b|
    ensures forall i :: 0 <= i < |s| ==> IsHexDigit(s[i])
  {
    if b == [] then []
    else [HexDigit(b[0] as nat / 16), HexDigit(b[0] as nat % 16)] + Hex(b[1..])
  }

  lemma {:induction false} HexInjective(a: Bytes, b: Bytes)
    requires Hex(a) == Hex(b)
    ensures a == b
  {
    assert |a| == |b|;
    if a != [] {
      assert Hex(a)[0] == HexDigit(a[0] as nat / 16) && Hex(a)[1] == HexDigit(a[0] as nat % 16);
      assert Hex(b)[0] == HexDigit(b[0] as nat / 16) && Hex(b)[1] == HexDigit(b[0] as nat % 16);
      assert Hex(a)[2..] == Hex(a[1..]) && Hex(b)[2..] == Hex(b[1..]);
      HexInjective(a[1..], b[1..]);
      assert a == [a[0]] + a[1..] && b == [b[0]] + b[1..];
    }
  }

  /** str(uuid): 32 hex digits in groups of 8-4-4-4-12. */
  function UuidText(u: Uuid): (s: string)
    ensures |s| == 36
    ensures forall i :: 0 <= i < |s| ==> IsHexDigit(s[i]) || s[i] == '-'
  {
    BigEndian.Widths();
    var h := Hex(BigEndian.Encode(u, 16));
    h[..8] + "-" + h[8..12] + "-" + h[12..16] + "-" + h[16..20] + "-" + h[20..]
  }

  lemma UuidTextInjective(u: Uuid, v: Uuid)
    requires UuidText(u) == UuidText(v)
    ensures u == v
  {
    BigEndian.Widths();
    var g, h := Hex(BigEndian.Encode(u, 16)), Hex(BigEndian.Encode(v, 16));
    var s, t := UuidText(u), UuidText(v);
    assert g == s[..8] + s[9..13] + s[14..18] + s[19..23] + s[24..];
    assert h == t[..8] + t[9..13] + t[14..18] + t[19..23] + t[24..];
    HexInjective(BigEndian.Encode(u, 16), BigEndian.Encode(v, 16));
    BigEndian.DecodeEncode(u, 16);
    BigEndian.DecodeEncode(v, 16);
  }

  // ----- sorted(): ascending by code points -----

  predicate AtMost(a: string, b: string) {
    a == [] || (b != [] && (a[0] < b[0] || (a[0] == b[0] && AtMost(a[1..], b[1..]))))
  }

  lemma {:induction false} AtMostTotal(a: string, b: string)
    ensures AtMost(a, b) || AtMost(b, a)
  {
    if a != [] && b != [] && a[0] == b[0] {
      AtMostTotal(a[1..], b[1..]);
    }
  }

  lemma {:induction false} AtMostAntisymmetric(a: string, b: string)
    requires AtMost(a, b) && AtMost(b, a)
    ensures a == b
  {
    if a != [] && b != [] {
      AtMostAntisymmetric(a[1..], b[1..]);
      assert a == [a[0]] + a[1..] && b == [b[0]] + b[1..];
    }
  }

  lemma {:induction false} AtMostTransitive(a: string, b: string, c: string)
    requires AtMost(a, b) && AtMost(b, c)
    ensures AtMost(a, c)
  {
    if a != [] && a[0] == b[0] == c[0] {
      AtMostTransitive(a[1..], b[1..], c[1..]);
    }
  }

  ghost predicate Sorted(xs: seq<string>) {
    forall i, j :: 0 <= i < j < |xs| ==> AtMost(xs[i], xs[j])
  }

  function Insert(x: string, xs: seq<string>): (r: seq<string>)
    ensures multiset(r) == multiset(xs) + multiset{x}
  {
    if xs == [] then [x]
    else if AtMost(x, xs[0]) then [x] + xs
    else
      assert xs == [xs[0]] + xs[1..];
      [xs[0]] + Insert(x, xs[1..])
  }

  function Sort(xs: seq<string>): (r: seq<string>)
    ensures multiset(r) == multiset(xs)
  {
    if xs == [] then [] else
    assert xs == [xs[0]] + xs[1..];
    Insert(xs[0], Sort(xs[1..]))
  }

  lemma {:induction false} InsertSorted(x: string, xs: seq<string>)
    requires Sorted(xs)
    ensures Sorted(Insert(x, xs))
  {
    if xs != [] {
      AtMostTotal(x, xs[0]);
      if AtMost(x, xs[0]) {
        forall j | 0 <= j < |xs| ensures AtMost(x, xs[j]) {
          if j > 0 {
            AtMostTransitive(x, xs[0], xs[j]);
          }
        }
      } else {
        InsertSorted(x, xs[1..]);
        var rest := Insert(x, xs[1..]);
        forall j | 0 <= j < |rest| ensures AtMost(xs[0], rest[j]) {
          assert rest[j] in multiset(rest);
          assert rest[j] == x || rest[j] in xs[1..];
        }
      }
    }
  }

  lemma {:induction false} SortSorted(xs: seq<string>)
    ensures Sorted(Sort(xs))
  {
    if xs != [] {
      SortSorted(xs[1..]);
      InsertSorted(xs[0], Sort(xs[1..]));
    }
  }

  lemma HeadIsMinimum(xs: seq<string>, x: string)
    requires Sorted(xs) && x in xs
    ensures AtMost(xs[0], x)
  {
    var j :| 0 <= j < |xs| && xs[j] == x;
    if j == 0 {
      AtMostTotal(x, x);
    }
  }

  lemma TailMultiset(xs: seq<string>)
    requires xs != []
    ensures multiset(xs[1..]) == multiset(xs) - multiset{xs[0]}
  {
    assert xs == [xs[0]] + xs[1..];
  }

  lemma {:induction false} SortedUnique(xs: seq<string>, ys: seq<string>)
    requires Sorted(xs) && Sorted(ys) && multiset(xs) == multiset(ys)
    ensures xs == ys
  {
    assert |xs| == |multiset(xs)| && |ys| == |multiset(ys)|;
    if xs != [] {
      assert xs[0] in multiset(ys) && ys[0] in multiset(xs);
      HeadIsMinimum(ys, xs[0]);
      HeadIsMinimum(xs, ys[0]);
      AtMostAntisymmetric(xs[0], ys[0]);
      TailMultiset(xs);
      TailMultiset(ys);
      SortedUnique(xs[1..], ys[1..]);
      assert xs == [xs[0]] + xs[1..] && ys == [ys[0]] + ys[1..];
    }
  }

  // ----- the payload -----

  /** One attachment's part, "<attachment_id>:<etag>". */
  function Part(id: Uuid, etag: Digest): (s: string)
    ensures |s| == 101
  {
    UuidText(id) + ":" + etag
  }

  function Parts(pairs: seq<(Uuid, Digest)>): seq<string> {
    if pairs == [] then [] else [Part(pairs[0].0, pairs[0].1)] + Parts(pairs[1..])
  }

  function JoinComma(xs: seq<string>): string {
    if xs == [] then "" else if |xs| == 1 then xs[0] else xs[0] + "," + JoinComma(xs[1..])
  }

  function Payload(bodyEtag: Digest, pairs: seq<(Uuid, Digest)>): string {
    bodyEtag + "|" + JoinComma(Sort(Parts(pairs)))
  }

  lemma PartInjective(a: (Uuid, Digest), b: (Uuid, Digest))
    requires Part(a.0, a.1) == Part(b.0, b.1)
    ensures a == b
  {
    var s, t := Part(a.0, a.1), Part(b.0, b.1);
    assert UuidText(a.0) == s[..36] && UuidText(b.0) == t[..36];
    assert a.1 == s[37..] && b.1 == t[37..];
    UuidTextInjective(a.0, b.0);
  }

  /** Parts keeps every multiplicity. */
  lemma {:induction false} PartsCount(pairs: seq<(Uuid, Digest)>, x: (Uuid, Digest))
    ensures multiset(Parts(pairs))[Part(x.0, x.1)] == multiset(pairs)[x]
  {
    if pairs != [] {
      PartsCount(pairs[1..], x);
      assert pairs == [pairs[0]] + pairs[1..];
      if Part(pairs[0].0, pairs[0].1) == Part(x.0, x.1) {
        PartInjective(pairs[0], x);
      }
    }
  }

  lemma {:induction false} PartsAreParts(pairs: seq<(Uuid, Digest)>, s: string)
    requires s in Parts(pairs)
    ensures exists x :: x in pairs && s == Part(x.0, x.1)
  {
    if s == Part(pairs[0].0, pairs[0].1) {
      assert pairs[0] in pairs;
    } else {
      assert s in Parts(pairs[1..]);
      PartsAreParts(pairs[1..], s);
    }
  }

  /** The payload depends on which pairs there are, not on their order. */
  lemma OrderIndependent(bodyEtag: Digest, p: seq<(Uuid, Digest)>, q: seq<(Uuid, Digest)>)
    requires multiset(p) == multiset(q)
    ensures Payload(bodyEtag, p) == Payload(bodyEtag, q)
  {
    forall s: string ensures multiset(Parts(p))[s] == multiset(Parts(q))[s] {
      if s in Parts(p) {
        PartsAreParts(p, s);
        var x :| x in p && s == Part(x.0, x.1);
        PartsCount(p, x);
        PartsCount(q, x);
      } else if s in Parts(q) {
        PartsAreParts(q, s);
        var x :| x in q && s == Part(x.0, x.1);
        PartsCount(p, x);
        PartsCount(q, x);
      }
    }
    assert multiset(Parts(p)) == multiset(Parts(q));
    SortSorted(Parts(p));
    SortSorted(Parts(q));
    SortedUnique(Sort(Parts(p)), Sort(Parts(q)));
  }

  ghost predicate AllParts(xs: seq<string>) {
    forall i :: 0 <= i < |xs| ==> |xs[i]| == 101
  }

  lemma {:induction false} JoinCommaInjective(xs: seq<string>, ys: seq<string>)
    requires AllParts(xs) && AllParts(ys) && JoinComma(xs) == JoinComma(ys)
    ensures xs == ys
  {
    if xs != [] && ys != [] {
      var j := JoinComma(xs);
      assert xs[0] == j[..101] && ys[0] == j[..101];
      if |xs| > 1 && |ys| > 1 {
        assert j[102..] == JoinComma(xs[1..]) && j[102..] == JoinComma(ys[1..]);
        JoinCommaInjective(xs[1..], ys[1..]);
      }
      assert xs == [xs[0]] + xs[1..] && ys == [ys[0]] + ys[1..];
    }
  }

  lemma SortedPartsAreParts(pairs: seq<(Uuid, Digest)>)
    ensures AllParts(Sort(Parts(pairs)))
    ensures forall s :: s in Sort(Parts(pairs)) ==> exists x :: x in pairs && s == Part(x.0, x.1)
  {
    var xs := Sort(Parts(pairs));
    forall s | s in xs
      ensures |s| == 101 && exists x :: x in pairs && s == Part(x.0, x.1)
    {
      assert s in multiset(xs);
      PartsAreParts(pairs, s);
    }
  }

  /** Equal payloads come from equal body tags and equal attachment tags. */
  lemma PayloadInjective(b: Digest, p: seq<(Uuid, Digest)>, c: Digest, q: seq<(Uuid, Digest)>)
    requires Payload(b, p) == Payload(c, q)
    ensures b == c && multiset(p) == multiset(q)
  {
    hide Sort, Parts, JoinComma, IsHexDigit;
    var s := Payload(b, p);
    assert b == s[..64] && c == s[..64];
    assert s[65..] == JoinComma(Sort(Parts(p))) && s[65..] == JoinComma(Sort(Parts(q)));
    SortedPartsAreParts(p);
    SortedPartsAreParts(q);
    JoinCommaInjective(Sort(Parts(p)), Sort(Parts(q)));
    assert multiset(Parts(p)) == multiset(Parts(q));
    forall x ensures multiset(p)[x] == multiset(q)[x] {
      PartsCount(p, x);
      PartsCount(q, x);
    }
  }

  // ----- the tag -----

  predicate IsAscii(s: string) {
    forall i :: 0 <= i < |s| ==> s[i] as int < 128
  }

  function EncodeAscii(s: string): Bytes
    requires IsAscii(s)
  {
    seq(|s|, i requires 0 <= i < |s| => s[i] as int as byte)
  }

  lemma EncodeAsciiInjective(s: string, t: string)
    requires IsAscii(s) && IsAscii(t) && EncodeAscii(s) == EncodeAscii(t)
    ensures s == t
  {
    assert |s| == |EncodeAscii(s)| == |t|;
    forall i | 0 <= i < |s| ensures s[i] == t[i] {
      assert EncodeAscii(s)[i] == EncodeAscii(t)[i];
    }
  }

  lemma {:induction false} JoinCommaAscii(xs: seq<string>)
    requires forall s :: s in xs ==> IsAscii(s)
    ensures IsAscii(JoinComma(xs))
  {
    if xs != [] {
      assert xs[0] in xs;
      JoinCommaAscii(xs[1..]);
    }
  }

  lemma PayloadAscii(bodyEtag: Digest, pairs: seq<(Uuid, Digest)>)
    ensures IsAscii(Payload(bodyEtag, pairs))
  {
    var xs := Sort(Parts(pairs));
    SortedPartsAreParts(pairs);
    forall s | s in xs ensures IsAscii(s) {
      var x :| x in pairs && s == Part(x.0, x.1);
      assert IsAscii(UuidText(x.0)) && IsAscii(x.1);
    }
    JoinCommaAscii(xs);
    assert IsAscii(bodyEtag);
  }

  function PayloadBytes(bodyEtag: Digest, pairs: seq<(Uuid, Digest)>): Bytes {
    PayloadAscii(bodyEtag, pairs);
    EncodeAscii(Payload(bodyEtag, pairs))
  }

  /** compute_composite_etag, for any hash function. */
  function Composite(sha: Bytes -> Digest, bodyEtag: Digest, pairs: seq<(Uuid, Digest)>): Digest {
    sha(PayloadBytes(bodyEtag, pairs))
  }

  ghost predicate Collision(sha: Bytes -> Digest, x: Bytes, y: Bytes) {
    x != y && sha(x) == sha(y)
  }

  /** Equal composite tags mean equal body tags and the same tag for every
      attachment, or the two payloads are a hash collision. */
  lemma CompositeInjective(sha: Bytes -> Digest, b: Digest, p: seq<(Uuid, Digest)>, c: Digest, q: seq<(Uuid, Digest)>)
    ensures Composite(sha, b, p) == Composite(sha, c, q)
       <==> (b == c && multiset(p) == multiset(q)) || Collision(sha, PayloadBytes(b, p), PayloadBytes(c, q))
  {
    if PayloadBytes(b, p) == PayloadBytes(c, q) {
      PayloadAscii(b, p);
      PayloadAscii(c, q);
      EncodeAsciiInjective(Payload(b, p), Payload(c, q));
      PayloadInjective(b, p, c, q);
    } else if b == c && multiset(p) == multiset(q) {
      OrderIndependent(b, p, q);
    }
  }

  // ----- the If-Match header -----

  /** value.strip('"') */
  function StripQuotes(s: string): string {
    StripRight(StripLeft(s))
  }

  function StripLeft(s: string): string {
    if s != [] && s[0] == '"' then StripLeft(s[1..]) else s
  }

  function StripRight(s: string): string {
    if s != [] && s[|s| - 1] == '"' then StripRight(s[..|s| - 1]) else s
  }

  lemma DigestHasNoQuotes(d: Digest)
    ensures StripQuotes(d) == d
    ensures StripQuotes("\"" + d + "\"") == d
  {
    assert IsHexDigit(d[0]) && IsHexDigit(d[63]);
    assert ("\"" + d + "\"")[1..] == d + "\"";
    assert StripLeft("\"" + d + "\"") == StripLeft(d + "\"") == d + "\"";
    assert (d + "\"")[..64] == d;
    assert StripRight(d + "\"") == StripRight(d) == d;
  }
}
