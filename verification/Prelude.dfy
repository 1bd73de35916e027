/** Types and small facts shared by every part of the model. */
module Prelude {

  datatype Option<+T> = None | Some(value: T)

  newtype byte = b: int | 0 <= b < 256

  type Bytes = seq<byte>

  /** A UUID is its 128-bit number; PostgreSQL orders UUIDs by that number. */
  type Uuid = u: nat | u < 0x1_0000_0000_0000_0000_0000_0000_0000_0000

  function Min(a: int, b: int): int {
    if a <= b then a else b
  }

  function Max(a: int, b: int): int {
    if a >= b then a else b
  }

  // ----- concatenation -----

  /** The parts one after the other, as `b"".join(parts)` gives them. */
  function Join(parts: seq<Bytes>): Bytes {
    if parts == [] then [] else Join(parts[..|parts| - 1]) + parts[|parts| - 1]
  }

  function TotalLength(parts: seq<Bytes>): nat {
    if parts == [] then 0 else TotalLength(parts[..|parts| - 1]) + |parts[|parts| - 1]|
  }

  lemma JoinEmpty()
    ensures Join([]) == [] && TotalLength([]) == 0
  {
  }

  lemma JoinSnoc(parts: seq<Bytes>, last: Bytes)
    ensures Join(parts + [last]) == Join(parts) + last
    ensures TotalLength(parts + [last]) == TotalLength(parts) + |last|
  {
    assert (parts + [last])[..|parts|] == parts;
  }

  lemma {:induction false} JoinLength(parts: seq<Bytes>)
    ensures |Join(parts)| == TotalLength(parts)
  {
    if parts != [] {
      JoinLength(parts[..|parts| - 1]);
    }
  }

  // ----- ascending enumeration, the model of ORDER BY -----

  ghost predicate Ascending(xs: seq<int>) {
    forall i, j :: 0 <= i < j < |xs| ==> xs[i] < xs[j]
  }

  lemma Member<T>(s: set<T>) returns (x: T)
    requires s != {}
    ensures x in s
  {
    x :| x in s;
  }

  ghost predicate IsLeast(m: int, s: set<int>) {
    m in s && forall x :: x in s ==> m <= x
  }

  lemma {:induction false} LeastExists(s: set<int>)
    requires s != {}
    ensures exists m :: IsLeast(m, s)
  {
    var m := Member(s);
    if s - {m} == {} {
      assert forall x :: x in s ==> x == m || x in s - {m};
      assert IsLeast(m, s);
    } else {
      LeastExists(s - {m});
      var n :| IsLeast(n, s - {m});
      assert forall x :: x in s ==> x == m || x in s - {m};
      assert IsLeast(Min(m, n), s);
    }
  }

  function Least(s: set<int>): (m: int)
    requires s != {}
    ensures IsLeast(m, s)
  {
    LeastExists(s);
    var m :| m in s && forall x :: x in s ==> m <= x;
    m
  }

  /** The elements of s, smallest first. */
  function InOrder(s: set<int>): (xs: seq<int>)
    ensures Ascending(xs)
    ensures forall x :: x in xs <==> x in s
    ensures |xs| == |s|
  {
    if s == {} then [] else
    var m := Least(s);
    [m] + InOrder(s - {m})
  }

  /** There is only one ascending enumeration of a set. */
  lemma {:induction false} AscendingUnique(xs: seq<int>, ys: seq<int>)
    requires Ascending(xs) && Ascending(ys)
    requires forall x :: x in xs <==> x in ys
    ensures xs == ys
  {
    assert xs != [] ==> xs[0] in xs;
    assert ys != [] ==> ys[0] in ys;
    if xs != [] && ys != [] {
      assert xs[0] == ys[0];
      forall x ensures x in xs[1..] <==> x in ys[1..] {
        assert x in xs[1..] <==> x in xs && x != xs[0];
        assert x in ys[1..] <==> x in ys && x != ys[0];
      }
      AscendingUnique(xs[1..], ys[1..]);
    }
  }

  function Range(n: nat): (xs: seq<int>)
    ensures |xs| == n && forall i :: 0 <= i < n ==> xs[i] == i
  {
    seq(n, i => i)
  }

  lemma InRange(n: nat)
    ensures forall x :: x in Range(n) <==> 0 <= x < n
  {
    forall x | 0 <= x < n ensures x in Range(n) {
      assert Range(n)[x] == x;
    }
  }

  ghost function Below(n: nat): set<int> {
    set i | i in Range(n)
  }

  lemma {:induction false} BelowSize(n: nat)
    ensures |Below(n)| == n
  {
    InRange(n);
    if n > 0 {
      BelowSize(n - 1);
      InRange(n - 1);
      assert Below(n) == Below(n - 1) + {n - 1};
    } else {
      assert Below(0) == {};
    }
  }

  /** n different indices below n are all the indices below n. */
  lemma Pigeonhole(s: set<int>, n: nat)
    requires forall i :: i in s ==> 0 <= i < n
    requires |s| == n
    ensures s == Below(n)
    ensures InOrder(s) == Range(n)
  {
    BelowSize(n);
    InRange(n);
    forall i | i in s ensures i in Below(n) {
      assert i in Range(n);
    }
    SubsetSize(s, Below(n));
    assert forall x :: x in Range(n) <==> x in Below(n);
    AscendingUnique(InOrder(s), Range(n));
  }

  lemma {:induction false} SubsetSize<T>(a: set<T>, b: set<T>)
    requires a <= b
    ensures |a| <= |b|
    ensures |a| == |b| ==> a == b
  {
    if a != {} {
      var x :| x in a;
      SubsetSize(a - {x}, b - {x});
      assert a == (a - {x}) + {x} && b == (b - {x}) + {x};
    }
  }
}
