/** Partition sizes of APA, the fillers that align a partition, and the arithmetic of both. Lengths are in sectors. */
module ApaSizes {
  import opened Common

  const SMALLEST := 0x40000

  /** 128 MB doubled any number of times. */
  predicate IsSize(n: nat) {
    n == SMALLEST || (n > SMALLEST && n % 2 == 0 && IsSize(n / 2))
  }

  predicate Multiple(x: nat, n: nat) {
    n > 0 && x % n == 0
  }

  /** The first multiple of `n` from `x` on. */
  function RoundUp(x: nat, n: nat): (r: nat)
    requires n > 0
  {
    if x % n == 0 then x else x + (n - x % n)
  }

  // ---------------------------------------------------------------- multiples

  lemma Product(n: nat, q: nat)
    requires n > 0
    ensures Multiple(n * q, n)
  {
    var x := n * q;
    var d := q - x / n;
    assert n * d == x % n;
    assert d >= 1 ==> n * d >= n;
    assert d <= -1 ==> n * d + n <= 0;
  }

  lemma NextMultiple(x: nat, y: nat, n: nat)
    requires Multiple(x, n) && Multiple(y, n) && x < y
    ensures x + n <= y
  {
    var d := y / n - x / n;
    assert y - x == n * d;
    assert d <= 0 ==> n * d <= 0;
    assert d >= 1 ==> n * d >= n;
  }

  lemma RoundUpIsMultiple(x: nat, n: nat)
    requires n > 0
    ensures Multiple(RoundUp(x, n), n) && x <= RoundUp(x, n) < x + n
    ensures RoundUp(x, n) == x <==> Multiple(x, n)
  {
    if x % n != 0 {
      assert RoundUp(x, n) == n * (x / n + 1);
      Product(n, x / n + 1);
    }
  }

  lemma MultiplePositive(x: nat, n: nat)
    requires Multiple(x, n)
    ensures n > 0
  {
  }

  lemma OwnMultiple(n: nat)
    requires n > 0
    ensures Multiple(n, n)
  {
  }

  lemma SmallestIsSize()
    ensures IsSize(SMALLEST)
  {
  }

  /** No multiple lies between `x` and the rounded-up place. */
  lemma RoundUpIsFirst(x: nat, y: nat, n: nat)
    requires x <= y && Multiple(y, n)
    ensures RoundUp(x, n) <= y
  {
    hide Multiple, RoundUp;
    MultiplePositive(y, n);
    RoundUpIsMultiple(x, n);
    if y < RoundUp(x, n) {
      NextMultiple(y, RoundUp(x, n), n);
    }
  }

  lemma HalfDivides(x: nat, n: nat)
    requires n > 0 && Multiple(x, 2 * n)
    ensures Multiple(x, n)
  {
    var q := x / (2 * n);
    assert x == (2 * n) * q == n * (2 * q);
    Product(n, 2 * q);
  }

  /** An odd multiple becomes a multiple of twice the unit one unit further on. */
  lemma OddStep(x: nat, n: nat)
    requires Multiple(x, n) && !Multiple(x, 2 * n)
    ensures Multiple(x + n, 2 * n)
  {
    var q := x / n;
    assert x == n * q;
    if q % 2 == 0 {
      assert x == (2 * n) * (q / 2);
      Product(2 * n, q / 2);
    } else {
      assert q == 2 * (q / 2) + 1;
      assert x + n == (2 * n) * (q / 2 + 1);
      Product(2 * n, q / 2 + 1);
    }
  }

  lemma SizeAtLeast(n: nat)
    requires IsSize(n)
    ensures n >= SMALLEST
  {
  }

  lemma DoubleSize(n: nat)
    requires IsSize(n)
    ensures IsSize(2 * n)
  {
  }

  lemma {:induction false} SizeGap(t: nat, n: nat)
    requires IsSize(t) && IsSize(n) && t < n
    ensures 2 * t <= n && IsSize(n / 2) && n == 2 * (n / 2)
  {
    if t > SMALLEST {
      SizeGap(t / 2, n / 2);
    } else {
      SizeAtLeast(n / 2);
    }
  }

  /** A multiple of a size is a multiple of every smaller one. */
  lemma {:induction false} SmallerDivides(x: nat, t: nat, n: nat)
    requires IsSize(t) && IsSize(n) && t <= n && Multiple(x, n)
    ensures Multiple(x, t)
  {
    hide Multiple, IsSize;
    if t < n {
      SizeGap(t, n);
      SizeAtLeast(n / 2);
      HalfDivides(x, n / 2);
      SmallerDivides(x, t, n / 2);
    }
  }

  lemma WordRangeIsSize()
    ensures IsSize(U32_RANGE)
  {
    assert IsSize(0x80000) && IsSize(0x10_0000);
    assert IsSize(0x20_0000) && IsSize(0x40_0000);
    assert IsSize(0x80_0000) && IsSize(0x100_0000);
    assert IsSize(0x200_0000) && IsSize(0x400_0000);
    assert IsSize(0x800_0000) && IsSize(0x1000_0000);
    assert IsSize(0x2000_0000) && IsSize(0x4000_0000);
    assert IsSize(0x8000_0000);
  }

  /** A place within 32-bit sector numbers stays so when it is rounded up, or becomes the end of them. */
  lemma RoundUpInRange(x: nat, n: nat)
    requires IsSize(n) && x <= U32_RANGE && n <= U32_RANGE
    ensures RoundUp(x, n) <= U32_RANGE && Multiple(U32_RANGE, n)
  {
    hide Multiple, IsSize, RoundUp;
    WordRangeIsSize();
    OwnMultiple(U32_RANGE);
    SmallerDivides(U32_RANGE, n, U32_RANGE);
    RoundUpIsFirst(x, U32_RANGE, n);
  }

  // ---------------------------------------------------------------- fillers

  /** The largest size from `t` down that divides `end`. */
  function Largest(end: nat, t: nat): (r: nat)
    requires IsSize(t) && Multiple(end, SMALLEST)
    ensures IsSize(r) && r <= t && Multiple(end, r)
  {
    if Multiple(end, t) then t else Largest(end, t / 2)
  }

  lemma {:induction false} LargestIsLargest(end: nat, t: nat, u: nat)
    requires IsSize(t) && Multiple(end, SMALLEST)
    requires IsSize(u) && u <= t && Multiple(end, u)
    ensures u <= Largest(end, t)
  {
    hide Multiple;
    if !Multiple(end, t) {
      SizeGap(u, t);
      LargestIsLargest(end, t / 2, u);
    }
  }

  /** There is room for a filler, and one to be found, when a place is not aligned. */
  predicate Unaligned(end: nat, size: nat) {
    IsSize(size) && Multiple(end, SMALLEST) && !Multiple(end, size)
  }

  /** The filler put at `end` on the way to a multiple of `size`. */
  function Filler(end: nat, size: nat): (r: nat)
    requires Unaligned(end, size)
    ensures IsSize(r) && 2 * r <= size && Multiple(end, r)
  {
    Largest(end, size / 2)
  }

  /** No smaller size than the partition's that divides the place is larger than the filler. */
  lemma FillerIsLargest(end: nat, size: nat, u: nat)
    requires Unaligned(end, size) && IsSize(u) && u < size && Multiple(end, u)
    ensures u <= Filler(end, size)
  {
    hide Multiple, IsSize;
    SizeGap(u, size);
    LargestIsLargest(end, size / 2, u);
  }

  /** `end` is no multiple of twice the filler: otherwise a larger one would have been taken. */
  lemma FillerIsOdd(end: nat, size: nat)
    requires Unaligned(end, size)
    ensures !Multiple(end, 2 * Filler(end, size))
  {
    hide Multiple, IsSize, Filler;
    var t := Filler(end, size);
    SizeAtLeast(t);
    DoubleSize(t);
    if Multiple(end, 2 * t) && 2 * t < size {
      FillerIsLargest(end, size, 2 * t);
    }
  }

  /** It ends no later than the place aimed at, and on a multiple of twice its length. */
  lemma FillerFits(end: nat, size: nat)
    requires Unaligned(end, size)
    ensures var t := Filler(end, size);
            && t > 0 && size > 0 && end + t <= RoundUp(end, size)
            && Multiple(end + t, 2 * t) && Multiple(end + t, SMALLEST)
            && RoundUp(end + t, size) == RoundUp(end, size)
  {
    hide Multiple, IsSize, Filler, RoundUp;
    var t := Filler(end, size);
    SizeAtLeast(size);
    SizeAtLeast(t);
    DoubleSize(t);
    RoundUpIsMultiple(end, size);
    SmallerDivides(RoundUp(end, size), t, size);
    NextMultiple(end, RoundUp(end, size), t);
    FillerIsOdd(end, size);
    OddStep(end, t);
    SmallestIsSize();
    SmallerDivides(end + t, SMALLEST, 2 * t);
    RoundUpIsMultiple(end + t, size);
    RoundUpIsFirst(end + t, RoundUp(end, size), size);
    RoundUpIsFirst(end, RoundUp(end + t, size), size);
  }

  /** The next filler is larger. */
  lemma FillersGrow(end: nat, size: nat)
    requires Unaligned(end, size) && Unaligned(end + Filler(end, size), size)
    ensures Filler(end, size) < Filler(end + Filler(end, size), size)
  {
    hide Multiple, IsSize, Filler;
    var t := Filler(end, size);
    FillerFits(end, size);
    DoubleSize(t);
    if 2 * t < size {
      FillerIsLargest(end + t, size, 2 * t);
    }
  }

  /** Lengths of the fillers from `end` up to a multiple of `size`. */
  function Fillers(end: nat, size: nat): seq<nat>
    requires IsSize(size) && Multiple(end, SMALLEST)
    decreases RoundUp(end, size) - end
  {
    if Multiple(end, size) then []
    else
      FillerFits(end, size);
      [Filler(end, size)] + Fillers(end + Filler(end, size), size)
  }

  function Sum(lengths: seq<nat>): nat {
    if |lengths| == 0 then 0 else lengths[0] + Sum(lengths[1..])
  }

  /** A filler at `place` is the largest size that divides `place` and is smaller than the partition. */
  ghost predicate BestFiller(place: nat, t: nat, size: nat) {
    && IsSize(t) && t < size && Multiple(place, t)
    && forall u: nat :: IsSize(u) && u < size && Multiple(place, u) ==> u <= t
  }

  /**
   The fillers end exactly where the partition may start. Each is the largest size that divides its own start and
   is smaller than the partition, and each is larger than the one before.
   */
  lemma {:induction false} FillersAlign(end: nat, size: nat)
    requires IsSize(size) && Multiple(end, SMALLEST)
    ensures var fs := Fillers(end, size);
            && size > 0 && end + Sum(fs) == RoundUp(end, size)
            && (forall i :: 0 <= i < |fs| ==> BestFiller(end + Sum(fs[..i]), fs[i], size))
            && (forall i :: 0 <= i < |fs| - 1 ==> fs[i] < fs[i + 1])
    decreases RoundUp(end, size) - end
  {
    hide Multiple, IsSize, Filler, RoundUp, BestFiller;
    SizeAtLeast(size);
    RoundUpIsMultiple(end, size);
    if !Multiple(end, size) {
      FillerFits(end, size);
      FillerIsBest(end, size);
      var t := Filler(end, size);
      var fs, rest := Fillers(end, size), Fillers(end + t, size);
      FillersAlign(end + t, size);
      assert fs[1..] == rest;
      if |rest| > 0 {
        FillersGrow(end, size);
      }
      forall i | 0 <= i < |fs| ensures BestFiller(end + Sum(fs[..i]), fs[i], size) {
        if i > 0 {
          assert fs[..i][1..] == rest[..i - 1];
        }
      }
    }
  }

  lemma FillerIsBest(end: nat, size: nat)
    requires Unaligned(end, size)
    ensures BestFiller(end, Filler(end, size), size)
  {
    hide Multiple, IsSize, Filler;
    SizeAtLeast(size);
    forall u: nat | IsSize(u) && u < size && Multiple(end, u) ensures u <= Filler(end, size) {
      FillerIsLargest(end, size, u);
    }
  }
}
