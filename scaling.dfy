/**
 * The dimension arithmetic of the resize stage.  The settings menu offers
 * 100%, 125%, 150% and 200%; each factor p/100 is exact in binary floating
 * point, so Python's round(dim * p / 100) is the exact rational rounded to
 * the nearest integer with halves going to the even neighbour.
 */
module Scaling {

  datatype Size = Size(width: nat, height: nat)

  /** The integer nearest to n/d; of two equally near integers, the even one (Python's round()). */
  function RoundHalfEven(n: int, d: int): (r: int)
    requires d > 0
    ensures -d <= 2 * (n - r * d) <= d
    ensures 2 * (n - r * d) == d ==> r % 2 == 0
    ensures 2 * (n - r * d) == -d ==> r % 2 == 0
  {
    var q, m := n / d, n % d;
    assert n - q * d == m;
    assert n - (q + 1) * d == m - d;
    if 2 * m < d then q
    else if 2 * m > d then q + 1
    else if q % 2 == 0 then q
    else q + 1
  }

  /** The contract of RoundHalfEven pins its result down: no other integer meets it. */
  lemma RoundHalfEvenUnique(n: int, d: int, r: int)
    requires d > 0
    requires -d <= 2 * (n - r * d) <= d
    requires 2 * (n - r * d) == d ==> r % 2 == 0
    requires 2 * (n - r * d) == -d ==> r % 2 == 0
    ensures r == RoundHalfEven(n, d)
  {
    var k := RoundHalfEven(n, d);
    if r != k {
      var lo, hi := if r < k then r else k, if r < k then k else r;
      var a, b := n - hi * d, n - lo * d;
      DistanceOfMultiples(n, d, lo, hi);
      assert false;
    }
  }

  /** Two distinct multiples lo * d < hi * d lie at least d apart, and hi == lo + 1 when they are exactly d apart. */
  lemma DistanceOfMultiples(n: int, d: int, lo: int, hi: int)
    requires d > 0 && lo < hi
    ensures (n - lo * d) - (n - hi * d) >= d
    ensures (n - lo * d) - (n - hi * d) == d ==> hi == lo + 1
  {
    var t := hi - lo;
    assert (n - lo * d) - (n - hi * d) == t * d;
    if t > 1 {
      assert t * d == d + (t - 1) * d;
      assert (t - 1) * d > 0;
    }
  }

  /** round(dim * percent / 100): one side of the image after scaling by percent. */
  function ScaledDim(dim: nat, percent: nat): (r: nat)
    ensures -50 <= dim * percent - 100 * r <= 50
    ensures dim * percent - 100 * r == 50 ==> r % 2 == 0
    ensures dim * percent - 100 * r == -50 ==> r % 2 == 0
  {
    var r := RoundHalfEven(dim * percent, 100);
    assert r >= 0;
    r
  }

  /** The image size after the resize stage: unchanged at 100%, each side scaled on its own otherwise. */
  function TargetSize(s: Size, percent: nat): (t: Size)
    ensures percent == 100 ==> t == s
    ensures -50 <= s.width * percent - 100 * t.width <= 50
    ensures -50 <= s.height * percent - 100 * t.height <= 50
    ensures s.width * percent - 100 * t.width in {50, -50} ==> t.width % 2 == 0
    ensures s.height * percent - 100 * t.height in {50, -50} ==> t.height % 2 == 0
  {
    if percent == 100 then
      assert s.width * 100 - 100 * s.width == 0 && s.height * 100 - 100 * s.height == 0;
      s
    else
      Size(ScaledDim(s.width, percent), ScaledDim(s.height, percent))
  }

  /** Scaling by 100% is the identity, so skipping the resize at 100% changes no dimension. */
  lemma ScaleByHundred(dim: nat)
    ensures ScaledDim(dim, 100) == dim
  {
    RoundHalfEvenUnique(dim * 100, 100, dim);
  }

  /** Scaling by 200% doubles each side exactly. */
  lemma ScaleByTwoHundred(dim: nat)
    ensures ScaledDim(dim, 200) == 2 * dim
  {
    RoundHalfEvenUnique(dim * 200, 100, 2 * dim);
  }

  /** Scaling by 150% of an even side is exact; of an odd side the half goes to the even neighbour. */
  lemma ScaleByHundredFifty(dim: nat)
    ensures dim % 2 == 0 ==> 2 * ScaledDim(dim, 150) == 3 * dim
    ensures dim % 4 == 1 ==> 2 * ScaledDim(dim, 150) == 3 * dim + 1
    ensures dim % 4 == 3 ==> 2 * ScaledDim(dim, 150) == 3 * dim - 1
  {
    var j := dim / 4;
    var m := dim % 4;
    assert dim == 4 * j + m;
    assert dim * 150 == 600 * j + 150 * m;
    if m == 0 {
      RoundHalfEvenUnique(dim * 150, 100, 6 * j);
    } else if m == 1 {
      RoundHalfEvenUnique(dim * 150, 100, 6 * j + 2);
    } else if m == 2 {
      RoundHalfEvenUnique(dim * 150, 100, 6 * j + 3);
    } else {
      RoundHalfEvenUnique(dim * 150, 100, 6 * j + 4);
    }
  }

  /** 150% on a 100 by 200 image gives 150 by 300, and 200% doubles it. */
  lemma ResizeExamples()
    ensures TargetSize(Size(100, 200), 150) == Size(150, 300)
    ensures TargetSize(Size(100, 200), 200) == Size(200, 400)
    ensures TargetSize(Size(100, 200), 100) == Size(100, 200)
  {
    ScaleByHundredFifty(100);
    ScaleByHundredFifty(200);
    ScaleByTwoHundred(100);
    ScaleByTwoHundred(200);
  }
}
