/** Chunk counts and chunk lengths, with Python's float division written out. */
module ChunkMath {
  import opened Prelude

  const CHUNK_SIZE := 5_242_880
  const INT4_MAX := 0x7fff_ffff
  const SIZE_LIMIT := INT4_MAX * CHUNK_SIZE

  // ----- correctly rounded division of integers into a binary64 value -----

  const MIN_MANTISSA := 0x10_0000_0000_0000  // 2^52

  function Pow2(n: nat): (p: nat)
    ensures p >= 1
  {
    if n == 0 then 1 else 2 * Pow2(n - 1)
  }

  /** The value mantissa / 2^scale. */
  datatype Double = Double(mantissa: nat, scale: int)

  /** num / den rounded down, by repeated subtraction. */
  function Quotient(num: nat, den: nat): (q: nat)
    requires den > 0
    ensures q * den <= num < q * den + den
  {
    if num < den then 0 else
    var q := Quotient(num - den, den);
    assert (q + 1) * den == q * den + den;
    q + 1
  }

  /** The integer nearest to num/den, the even one of two equally near. */
  function RoundHalfEven(num: nat, den: nat): (n: nat)
    requires den > 0
    ensures 2 * (n * den - num) <= den && 2 * (num - n * den) <= den
  {
    var q := Quotient(num, den);
    var r := num - q * den;
    var n := if 2 * r < den || (2 * r == den && q % 2 == 0) then q else q + 1;
    NearestIsClose(num, den, q, r, n);
    n
  }

  lemma NearestIsClose(num: int, den: int, q: int, r: int, n: int)
    requires num == q * den + r && 0 <= r < den
    requires (n == q && 2 * r <= den) || (n == q + 1 && 2 * r >= den)
    ensures 2 * (n * den - num) <= den && 2 * (num - n * den) <= den
  {
    var product := q * den;
    assert n * den == if n == q then product else product + den;
  }

  /** Exactly between two integers the even one is taken. */
  lemma TieIsEven(num: nat, den: nat)
    requires den > 0
    requires var n := RoundHalfEven(num, den); 2 * (n * den - num) == den || 2 * (num - n * den) == den
    ensures RoundHalfEven(num, den) % 2 == 0
  {
    var q := Quotient(num, den);
    var product := q * den;
    assert (q + 1) * den == product + den;
  }

  /** How often a must be doubled before a/b reaches 2^52. */
  function ScaleUp(a: nat, b: nat): nat
    requires a > 0
    decreases MIN_MANTISSA * b - a
  {
    if a >= MIN_MANTISSA * b then 0 else 1 + ScaleUp(2 * a, b)
  }

  /** How often b must be doubled before a/b falls below 2^53. */
  function ScaleDown(a: nat, b: nat): nat
    requires b > 0
    decreases a - 2 * MIN_MANTISSA * b
  {
    if a < 2 * MIN_MANTISSA * b then 0 else 1 + ScaleDown(a, 2 * b)
  }

  /** Python's a / b for integers: 53 significant bits, half to even. */
  function TrueDivide(a: nat, b: nat): Double
    requires b > 0
  {
    if a == 0 then Double(0, 0)
    else if a < 2 * MIN_MANTISSA * b then
      var up := ScaleUp(a, b);
      Double(RoundHalfEven(a * Pow2(up), b), up)
    else
      var down := ScaleDown(a, b);
      ProductPositive(Pow2(down), b);
      Double(RoundHalfEven(a, Pow2(down) * b), -(down as int))
  }

  /** The least integer k with k * den >= num. */
  function CeilDiv(num: nat, den: nat): (k: nat)
    requires den > 0
    ensures num <= k * den
    ensures k > 0 ==> (k - 1) * den < num
  {
    var q := Quotient(num, den);
    assert (q + 1) * den == q * den + den;
    assert (q - 1) * den == q * den - den;
    if num == q * den then q else q + 1
  }

  function Ceil(d: Double): nat {
    if d.scale >= 0 then CeilDiv(d.mantissa, Pow2(d.scale))
    else d.mantissa * Pow2(-d.scale)
  }

  lemma {:induction false} ScaleUpReaches(a: nat, b: nat)
    requires a > 0
    ensures a * Pow2(ScaleUp(a, b)) >= MIN_MANTISSA * b
    decreases MIN_MANTISSA * b - a
  {
    if a < MIN_MANTISSA * b {
      ScaleUpReaches(2 * a, b);
      var p := Pow2(ScaleUp(2 * a, b));
      assert Pow2(ScaleUp(a, b)) == 2 * p;
      assert a * (2 * p) == 2 * a * p;
    }
  }

  lemma {:induction false} ScaleDownReaches(a: nat, b: nat)
    requires b > 0 && a >= MIN_MANTISSA * b
    ensures a >= MIN_MANTISSA * (Pow2(ScaleDown(a, b)) * b)
    decreases a - 2 * MIN_MANTISSA * b
  {
    if a >= 2 * MIN_MANTISSA * b {
      ScaleDownReaches(a, 2 * b);
      var p := Pow2(ScaleDown(a, 2 * b));
      assert Pow2(ScaleDown(a, b)) == 2 * p;
      assert (2 * p) * b == p * (2 * b);
    }
  }

  lemma {:induction false} Pow2Monotone(m: nat, n: nat)
    requires m <= n
    ensures Pow2(m) <= Pow2(n)
    decreases n - m
  {
    if m < n {
      Pow2Monotone(m, n - 1);
    }
  }

  lemma ProductPositive(a: int, b: int)
    requires a > 0 && b > 0
    ensures a * b > 0
  {
  }

  lemma MulLessEq(a: int, b: int, c: int)
    requires a <= b && c >= 0
    ensures a * c <= b * c
  {
  }

  lemma CeilDivUnique(num: nat, den: nat, k: nat)
    requires den > 0
    requires num <= k * den && (k > 0 ==> (k - 1) * den < num)
    ensures CeilDiv(num, den) == k
  {
    var c := CeilDiv(num, den);
    if c > k {
      MulLessEq(k, c - 1, den);
    } else if c < k {
      MulLessEq(c, k - 1, den);
    }
  }

  // ----- the ceiling of the rounded quotient -----

  lemma SwapFactors(k: int, p: int, b: int)
    ensures (k * p) * b == (k * b) * p
  {
  }

  lemma RoundingKeepsUpperBound(a: int, b: int, p: int, k: int, n: int)
    requires b > 0 && p > 0 && a <= k * b
    requires 2 * (n * b - a * p) <= b
    ensures n <= k * p
  {
    if n > k * p {
      MulLessEq(k * p + 1, n, b);
      MulLessEq(a, k * b, p);
      SwapFactors(k, p, b);
    }
  }

  lemma RoundingKeepsLowerBound(a: int, b: int, p: int, k: int, n: int)
    requires 0 < b < 2 * p && k * b < a
    requires 2 * (a * p - n * b) <= b
    ensures k * p < n
  {
    if n <= k * p {
      MulLessEq(n, k * p, b);
      MulLessEq(k * b + 1, a, p);
      SwapFactors(k, p, b);
    }
  }

  /** Rounding a * p / b moves it by at most 1/2; when b < 2 * p this is less
      than its distance p/b from the multiples of p, so no ceiling changes. */
  lemma CeilSurvivesRounding(a: nat, b: nat, p: nat, n: nat)
    requires 0 < b < 2 * p
    requires 2 * (n * b - a * p) <= b && 2 * (a * p - n * b) <= b
    ensures CeilDiv(n, p) == CeilDiv(a, b)
  {
    var k := CeilDiv(a, b);
    RoundingKeepsUpperBound(a, b, p, k, n);
    if k > 0 {
      RoundingKeepsLowerBound(a, b, p, k - 1, n);
    }
    CeilDivUnique(n, p, k);
  }

  /** Dividing by the chunk size and taking the ceiling, as the code does it. */
  function FloatCeil(size: nat): nat {
    Ceil(TrueDivide(size, CHUNK_SIZE))
  }

  function ChunkCount(size: nat): nat {
    (size + CHUNK_SIZE - 1) / CHUNK_SIZE
  }

  lemma ChunkCountIsCeilDiv(size: nat)
    ensures CeilDiv(size, CHUNK_SIZE) == ChunkCount(size)
  {
    CeilDivUnique(size, CHUNK_SIZE, ChunkCount(size));
  }

  lemma RoundedMantissaIsLarge(num: int, den: int, n: int)
    requires den > 0 && num >= MIN_MANTISSA * den
    requires 2 * (num - n * den) <= den
    ensures n >= MIN_MANTISSA
  {
    if n < MIN_MANTISSA {
      MulLessEq(n, MIN_MANTISSA - 1, den);
    }
  }

  /** Below 2^22 the scale is too coarse for a 32-bit ceiling. */
  lemma CeilOfCoarseQuotient(n: nat, p: nat)
    requires n >= MIN_MANTISSA && 0 < p <= 0x20_0000
    ensures CeilDiv(n, p) > INT4_MAX
  {
    var c := CeilDiv(n, p);
    if c <= INT4_MAX {
      MulLessEq(c, INT4_MAX, p);
    }
  }

  lemma FloatCeilScaledUp(size: nat, up: nat)
    requires 0 < size < 2 * MIN_MANTISSA * CHUNK_SIZE
    requires up == ScaleUp(size, CHUNK_SIZE)
    ensures FloatCeil(size) == CeilDiv(RoundHalfEven(size * Pow2(up), CHUNK_SIZE), Pow2(up))
  {
  }

  lemma FineScale(size: nat, p: nat, n: nat)
    requires p >= 0x40_0000 && n == RoundHalfEven(size * p, CHUNK_SIZE)
    ensures CeilDiv(n, p) == ChunkCount(size)
  {
    CeilSurvivesRounding(size, CHUNK_SIZE, p, n);
    ChunkCountIsCeilDiv(size);
  }

  lemma CoarseScale(size: nat, p: nat, n: nat)
    requires 0 < p <= 0x20_0000 && n == RoundHalfEven(size * p, CHUNK_SIZE)
    requires size * p >= MIN_MANTISSA * CHUNK_SIZE
    ensures size > SIZE_LIMIT && CeilDiv(n, p) > INT4_MAX
  {
    RoundedMantissaIsLarge(size * p, CHUNK_SIZE, n);
    CeilOfCoarseQuotient(n, p);
    MulLessEq(p, 0x20_0000, size);
  }

  lemma ScaleIsFineOrCoarse(up: nat)
    ensures Pow2(up) >= 0x40_0000 || Pow2(up) <= 0x20_0000
  {
    assert Pow2(11) == 0x800;
    assert Pow2(21) == 0x20_0000;
    if up >= 22 {
      Pow2Monotone(22, up);
    } else {
      Pow2Monotone(up, 21);
    }
  }

  lemma ScaledDown(size: nat, down: nat)
    requires size >= 2 * MIN_MANTISSA * CHUNK_SIZE
    requires down == ScaleDown(size, CHUNK_SIZE)
    ensures FloatCeil(size) > INT4_MAX
  {
    var den := Pow2(down) * CHUNK_SIZE;
    ScaleDownReaches(size, CHUNK_SIZE);
    var n := RoundHalfEven(size, den);
    RoundedMantissaIsLarge(size, den, n);
    MulLessEq(1, Pow2(down), n);
    assert down > 0;
  }

  /** The float ceiling is the integer ceiling for every size whose count fits
      a 32-bit column, and it does not fit for any other size. */
  lemma FloatCeilExact(size: nat)
    ensures FloatCeil(size) <= INT4_MAX <==> size <= SIZE_LIMIT
    ensures size <= SIZE_LIMIT ==> FloatCeil(size) == ChunkCount(size)
  {
    if size == 0 {
      CeilDivUnique(0, Pow2(0), 0);
    } else if size < 2 * MIN_MANTISSA * CHUNK_SIZE {
      var up := ScaleUp(size, CHUNK_SIZE);
      var p := Pow2(up);
      var n := RoundHalfEven(size * p, CHUNK_SIZE);
      FloatCeilScaledUp(size, up);
      ScaleUpReaches(size, CHUNK_SIZE);
      ScaleIsFineOrCoarse(up);
      if p >= 0x40_0000 {
        FineScale(size, p, n);
      } else {
        CoarseScale(size, p, n);
      }
    } else {
      ScaledDown(size, ScaleDown(size, CHUNK_SIZE));
    }
  }

  // ----- how far the two ceilings agree -----

  /** The bytes of 2^31 chunks, one chunk more than a 32-bit count allows. */
  const AGREEMENT_LIMIT := 0x8000_0000 * CHUNK_SIZE

  lemma {:induction false} ScaleUpMinimal(a: nat, b: nat)
    requires a > 0 && ScaleUp(a, b) > 0
    ensures a * Pow2(ScaleUp(a, b) - 1) < MIN_MANTISSA * b
    decreases MIN_MANTISSA * b - a
  {
    if ScaleUp(2 * a, b) > 0 {
      ScaleUpMinimal(2 * a, b);
      var p := Pow2(ScaleUp(2 * a, b) - 1);
      assert Pow2(ScaleUp(a, b) - 1) == 2 * p;
      assert a * (2 * p) == 2 * a * p;
    }
  }

  /** A quotient of 2^31, or the least one above it, is rounded to 2^52 steps of 2^-21. */
  lemma RoundsToLimit(size: nat, n: nat)
    requires AGREEMENT_LIMIT <= size <= AGREEMENT_LIMIT + 1
    requires n == RoundHalfEven(size * 0x20_0000, CHUNK_SIZE)
    ensures n == MIN_MANTISSA && CeilDiv(n, 0x20_0000) == 0x8000_0000
  {
    CeilDivUnique(MIN_MANTISSA, 0x20_0000, 0x8000_0000);
  }

  /** At the limit and just above it the scale is 2^21, unless it is fine enough anyway. */
  lemma ScaleAtLimit(size: nat, up: nat)
    requires AGREEMENT_LIMIT <= size <= AGREEMENT_LIMIT + 1 && up == ScaleUp(size, CHUNK_SIZE)
    ensures Pow2(up) == 0x20_0000
  {
    assert Pow2(10) == 0x400;
    assert Pow2(20) == 0x10_0000;
    assert Pow2(21) == 0x20_0000;
    ScaleUpReaches(size, CHUNK_SIZE);
    if up > 21 {
      Pow2Monotone(21, up - 1);
      MulLessEq(0x20_0000, Pow2(up - 1), size);
      ScaleUpMinimal(size, CHUNK_SIZE);
    } else if up < 21 {
      Pow2Monotone(up, 20);
      MulLessEq(Pow2(up), 0x10_0000, size);
    }
  }

  lemma CeilAtLimit(size: nat)
    requires AGREEMENT_LIMIT <= size <= AGREEMENT_LIMIT + 1
    ensures FloatCeil(size) == 0x8000_0000
  {
    hide FloatCeil, RoundHalfEven;
    var up := ScaleUp(size, CHUNK_SIZE);
    ScaleAtLimit(size, up);
    FloatCeilScaledUp(size, up);
    RoundsToLimit(size, RoundHalfEven(size * 0x20_0000, CHUNK_SIZE));
  }

  lemma AgreesBelowLimit(size: nat)
    requires 0 < size < AGREEMENT_LIMIT
    ensures FloatCeil(size) == ChunkCount(size)
  {
    hide FloatCeil;
    var up := ScaleUp(size, CHUNK_SIZE);
    var p := Pow2(up);
    FloatCeilScaledUp(size, up);
    ScaleUpReaches(size, CHUNK_SIZE);
    ScaleIsFineOrCoarse(up);
    if p <= 0x20_0000 {
      MulLessEq(p, 0x20_0000, size);
    }
    FineScale(size, p, RoundHalfEven(size * p, CHUNK_SIZE));
  }

  /** The float ceiling is the integer ceiling for every size up to 2^31 chunks, and
      the very next size is the first for which it is not: there it is one too small. */
  lemma FloatCeilThreshold(limit: nat)
    ensures (forall size: nat :: size <= limit ==> FloatCeil(size) == ChunkCount(size)) <==> limit <= AGREEMENT_LIMIT
    ensures FloatCeil(AGREEMENT_LIMIT + 1) == 0x8000_0000 && ChunkCount(AGREEMENT_LIMIT + 1) == 0x8000_0001
  {
    hide FloatCeil;
    CeilAtLimit(AGREEMENT_LIMIT + 1);
    if limit <= AGREEMENT_LIMIT {
      forall size: nat | size <= limit ensures FloatCeil(size) == ChunkCount(size) {
        if size == AGREEMENT_LIMIT {
          CeilAtLimit(size);
        } else if size == 0 {
          FloatCeilExact(0);
        } else {
          AgreesBelowLimit(size);
        }
      }
    }
  }

  // ----- the three ways the code computes a chunk's length -----

  /** total_chunks_for_size: the integer ceiling on every size whose count fits the column. */
  function TotalChunks(size: nat): (n: nat)
    ensures n <= INT4_MAX <==> size <= SIZE_LIMIT
    ensures size <= SIZE_LIMIT ==> n == ChunkCount(size)
  {
    FloatCeilExact(size);
    FloatCeil(size)
  }

  /** expected_attachment_chunk_size; None stands for the 400 error. */
  function ExpectedAttachmentChunk(size: nat, index: int): Option<nat> {
    var total := TotalChunks(size);
    if index < 0 || index >= total then None
    else if index < total - 1 then Some(CHUNK_SIZE)
    else
      var remainder := size % CHUNK_SIZE;
      Some(if remainder == 0 then CHUNK_SIZE else remainder)
  }

  /** _expected_chunk_size on the fields of an upload session. */
  function ExpectedSessionChunk(totalSize: nat, chunkSize: nat, expectedChunks: nat, index: int): Option<nat>
    requires chunkSize > 0
  {
    if index < 0 || index >= expectedChunks then None
    else if index < expectedChunks - 1 then Some(chunkSize)
    else
      var remainder := totalSize % chunkSize;
      Some(if remainder == 0 then chunkSize else remainder)
  }

  /** Length of data[pos : pos + CHUNK_SIZE] at pos == index * CHUNK_SIZE. */
  function SliceLength(size: nat, index: nat): nat {
    var pos := index * CHUNK_SIZE;
    if pos >= size then 0 else Min(CHUNK_SIZE, size - pos)
  }

  lemma ChunkLengthsAgree(size: nat, index: int)
    requires size <= SIZE_LIMIT
    ensures ExpectedSessionChunk(size, CHUNK_SIZE, ChunkCount(size), index) == ExpectedAttachmentChunk(size, index)
    ensures ExpectedAttachmentChunk(size, index)
         == if index < 0 || SliceLength(size, index) == 0 then None else Some(SliceLength(size, index))
  {
    hide FloatCeil;
    assert size == (size / CHUNK_SIZE) * CHUNK_SIZE + size % CHUNK_SIZE;
  }

  function SumOfSlices(size: nat, n: nat): nat {
    if n == 0 then 0 else SumOfSlices(size, n - 1) + SliceLength(size, n - 1)
  }

  lemma {:induction false} SumOfSlicesPrefix(size: nat, n: nat)
    ensures SumOfSlices(size, n) == Min(size, n * CHUNK_SIZE)
  {
    if n > 0 {
      SumOfSlicesPrefix(size, n - 1);
    }
  }

  /** The expected lengths of all chunks add up to the size. */
  lemma ChunkLengthsSum(size: nat)
    ensures SumOfSlices(size, ChunkCount(size)) == size
  {
    SumOfSlicesPrefix(size, ChunkCount(size));
  }
}
