/** Lengths a capability can describe exactly, and the loop that looks for one it cannot. */
module Representable {
  import opened Words

  function Pow2(n: nat): (p: nat)
    ensures p >= 1
  {
    if n == 0 then 1 else 2 * Pow2(n - 1)
  }

  /** The number of bits needed to write x. */
  function BitLen(x: nat): nat { if x == 0 then 0 else 1 + BitLen(x / 2) }

  /** __builtin_align_up on 64-bit values: the sum wraps. */
  function AlignUp(x: Word64, a: nat): (r: Word64)
    requires 0 < a < TWO64
  {
    RoundDown(Add64(x, a - 1), a)
  }

  function RoundDown(x: nat, a: nat): (r: nat)
    requires a > 0
    ensures r <= x
  {
    RemainderFits(x, a);
    x - x % a
  }

  lemma RemainderFits(x: nat, a: nat)
    requires a > 0
    ensures x % a <= x && x % a < a
  {
    assert x == x / a * a + x % a;
  }

  /** With an m-bit mantissa, a length of b bits is rounded to a multiple of 2^(b-m). */
  function Granule(len: nat, m: nat): (g: nat)
    ensures g >= 1
  {
    if BitLen(len) <= m then 1 else Pow2(BitLen(len) - m)
  }

  // ---- rounding ---------------------------------------------------------------------------------

  ghost predicate MultipleOf(x: nat, a: nat) { exists k: nat :: x == k * a }

  lemma Grows(k: nat, l: nat, a: nat)
    requires k <= l
    ensures k * a <= l * a
  {}

  lemma MultiplesApart(t: nat, r: nat, a: nat)
    requires MultipleOf(t, a) && MultipleOf(r, a) && t < r
    ensures t + a <= r
  {
    var k: nat, l: nat :| t == k * a && r == l * a;
    if l <= k {
      Grows(l, k, a);
    } else {
      Grows(k + 1, l, a);
      assert (k + 1) * a == k * a + a;
    }
  }

  lemma RoundDownIs(x: nat, a: nat)
    requires a > 0
    ensures MultipleOf(RoundDown(x, a), a) && RoundDown(x, a) <= x < RoundDown(x, a) + a
  {
    RemainderFits(x, a);
    assert RoundDown(x, a) == x / a * a;
  }

  lemma RoundDownSmall(x: nat, a: nat)
    requires x < a
    ensures RoundDown(x, a) == 0
  {}

  /** Aligning up gives the least multiple that is not below x, when that is a 64-bit value. */
  lemma AlignUpIs(x: Word64, a: nat)
    requires 0 < a < TWO64 && x + a <= TWO64
    ensures MultipleOf(AlignUp(x, a), a) && x <= AlignUp(x, a)
    ensures forall t: nat | MultipleOf(t, a) && x <= t :: AlignUp(x, a) <= t
  {
    RoundDownIs(x + a - 1, a);
    forall t: nat | MultipleOf(t, a) && x <= t ensures AlignUp(x, a) <= t {
      if t < AlignUp(x, a) {
        MultiplesApart(t, AlignUp(x, a), a);
      }
    }
  }

  /** Otherwise it gives zero, although no 64-bit multiple is at or above x. */
  lemma AlignUpWraps(x: Word64, a: nat)
    requires 0 < a < TWO64 < x + a && MultipleOf(TWO64, a)
    ensures AlignUp(x, a) == 0
    ensures forall t: nat | MultipleOf(t, a) && x <= t :: TWO64 <= t
  {
    RoundDownSmall(Add64(x, a - 1), a);
    forall t: nat | MultipleOf(t, a) && x <= t ensures TWO64 <= t {
      if t < TWO64 {
        MultiplesApart(t, TWO64, a);
      }
    }
  }

  // ---- powers of two ----------------------------------------------------------------------------

  lemma {:induction false} Pow2Sum(a: nat, b: nat)
    ensures Pow2(a + b) == Pow2(a) * Pow2(b)
  {
    if b == 0 {
    } else {
      Pow2Sum(a, b - 1);
      assert Pow2(a) * (2 * Pow2(b - 1)) == 2 * (Pow2(a) * Pow2(b - 1));
    }
  }

  lemma {:induction false} Pow2Grows(a: nat, b: nat)
    requires a < b
    ensures 2 * Pow2(a) <= Pow2(b)
    decreases b
  {
    if a + 1 < b {
      Pow2Grows(a, b - 1);
    }
  }

  lemma Pow2Divides(a: nat, b: nat)
    requires a <= b
    ensures MultipleOf(Pow2(b), Pow2(a))
  {
    Pow2Sum(b - a, a);
  }

  lemma MultipleTrans(x: nat, b: nat, a: nat)
    requires MultipleOf(x, b) && MultipleOf(b, a)
    ensures MultipleOf(x, a)
  {
    var k: nat, l: nat :| x == k * b && b == l * a;
    assert x == (k * l) * a;
  }

  lemma Pow2Twice(n: nat, p: nat)
    requires Pow2(n) == p
    ensures Pow2(n + n) == p * p
  {
    Pow2Sum(n, n);
  }

  lemma Pow2Of64()
    ensures Pow2(64) == TWO64
  {
    Pow2Twice(1, 2);
    Pow2Twice(2, 4);
    Pow2Twice(4, 16);
    Pow2Twice(8, 256);
    Pow2Twice(16, 0x1_0000);
    Pow2Twice(32, TWO32);
  }

  lemma Pow2Small(n: nat)
    requires n <= 64
    ensures Pow2(n) <= TWO64 && MultipleOf(TWO64, Pow2(n)) && (n < 64 ==> Pow2(n) < TWO64)
  {
    Pow2Of64();
    Pow2Divides(n, 64);
    if n < 64 {
      Pow2Grows(n, 64);
    }
  }

  lemma {:induction false} BitLenAtMost(x: nat, b: nat)
    requires x < Pow2(b)
    ensures BitLen(x) <= b
    decreases b
  {
    if x != 0 {
      BitLenAtMost(x / 2, b - 1);
    }
  }

  lemma {:induction false} BitLenIs(x: nat, b: nat)
    requires Pow2(b) <= x < Pow2(b + 1)
    ensures BitLen(x) == b + 1
    decreases b
  {
    if b > 0 {
      BitLenIs(x / 2, b - 1);
    } else {
      assert Pow2(1) == 2;
      assert BitLen(1) == 1;
    }
  }

  // ---- representable lengths --------------------------------------------------------------------

  lemma GranuleIsPow2(len: Word64, m: nat)
    requires m >= 1
    ensures exists n: nat :: n < 64 && Granule(len, m) == Pow2(n)
    ensures Granule(len, m) < TWO64 && MultipleOf(TWO64, Granule(len, m))
  {
    Pow2Of64();
    BitLenAtMost(len, 64);
    var n := if BitLen(len) <= m then 0 else BitLen(len) - m;
    Pow2Small(n);
    assert Granule(len, m) == Pow2(n);
  }

  /** The granule is the least power of two of which 2^m exceed the length. */
  lemma GranuleIsLeast(len: nat, m: nat, n: nat)
    ensures len < Granule(len, m) * Pow2(m)
    ensures len < Pow2(n) * Pow2(m) ==> Granule(len, m) <= Pow2(n)
  {
    GranuleCovers(len, m);
    if len < Pow2(n) * Pow2(m) {
      GranuleAtMost(len, m, n);
    }
  }

  lemma GranuleCovers(len: nat, m: nat)
    ensures len < Granule(len, m) * Pow2(m)
  {
    var b := BitLen(len);
    if len > 0 { BitLenBounds(len); }
    if b < m {
      Pow2Grows(b, m);
    } else if b > m {
      Pow2Sum(b - m, m);
    }
  }

  lemma GranuleAtMost(len: nat, m: nat, n: nat)
    requires len < Pow2(n) * Pow2(m)
    ensures Granule(len, m) <= Pow2(n)
  {
    Pow2Sum(n, m);
    BitLenAtMost(len, n + m);
    var e := BitLen(len) - m;
    if 0 < e < n { Pow2Grows(e, n); }
  }

  /** CRRL: the length rounded up to its granule, as a 64-bit value. */
  function RepresentableLength(len: Word64, m: nat): Word64
    requires m >= 1
  {
    GranuleIsPow2(len, m);
    AlignUp(len, Granule(len, m))
  }

  /** A length is left alone by the rounding exactly when its granule divides it. */
  lemma RepresentableExactly(len: Word64, m: nat)
    requires m >= 1
    ensures RepresentableLength(len, m) == len <==> MultipleOf(len, Granule(len, m))
    ensures len + Granule(len, m) <= TWO64 ==> RepresentableLength(len, m) >= len
  {
    GranuleIsPow2(len, m);
    var g := Granule(len, m);
    if len + g <= TWO64 {
      AlignUpIs(len, g);
    } else {
      AlignUpWraps(len, g);
      assert len > 0;
    }
  }

  /** Rounding up to the next power of two makes the granule larger, and that still divides it. */
  lemma RoundedIsRepresentable(len: Word64, m: nat)
    requires m >= 1 && len + Granule(len, m) <= TWO64
    ensures var l := RepresentableLength(len, m); MultipleOf(l, Granule(l, m))
  {
    GranuleIsPow2(len, m);
    AlignUpIs(len, Granule(len, m));
    var b := BitLen(len);
    if b > m {
      BitLenBounds(len);
      Pow2Divides(b - m, b);
      RoundedWithin(RepresentableLength(len, m), b, m);
    }
  }

  lemma RoundedWithin(l: nat, b: nat, m: nat)
    requires b > m >= 1 && Pow2(b - 1) <= l <= Pow2(b) && MultipleOf(l, Pow2(b - m))
    ensures MultipleOf(l, Granule(l, m))
  {
    if l < Pow2(b) {
      BitLenIs(l, b - 1);
    } else {
      Pow2Grows(b, b + 1);
      BitLenIs(l, b);
      Pow2Divides(b + 1 - m, b);
    }
  }

  lemma {:induction false} BitLenBounds(x: nat)
    requires x > 0
    ensures Pow2(BitLen(x) - 1) <= x < Pow2(BitLen(x))
  {
    if x > 1 {
      BitLenBounds(x / 2);
    } else {
      assert BitLen(1) == 1 && Pow2(1) == 2;
    }
  }

  function RoundPage(len: Word64, p: nat): Word64
    requires p < 64
  {
    Pow2Small(p);
    AlignUp(len, Pow2(p))
  }

  lemma PagesUp(len: Word64, p: nat, b: nat)
    requires p <= b < 63 && len <= Pow2(b)
    ensures MultipleOf(RoundPage(len, p), Pow2(p)) && len <= RoundPage(len, p) <= Pow2(b)
  {
    Pow2Of64();
    Pow2Grows(b, 64);
    if p < b {
      Pow2Grows(p, b);
    }
    Pow2Divides(p, b);
    Pow2Small(p);
    AlignUpIs(len, Pow2(p));
  }

  lemma PagesAreGranules(r: Word64, p: nat, m: nat)
    requires m >= 1 && MultipleOf(r, Pow2(p)) && r <= Pow2(p + m)
    ensures MultipleOf(r, Granule(r, m))
  {
    if r < Pow2(p + m) {
      BitLenAtMost(r, p + m);
      var e := if BitLen(r) <= m then 0 else BitLen(r) - m;
      Pow2Divides(e, p);
      MultipleTrans(r, Pow2(p), Pow2(e));
    } else {
      Pow2Grows(p + m, p + m + 1);
      BitLenIs(r, p + m);
      Pow2Divides(p + 1, p + m);
    }
  }

  /** Every length of at most 2^m pages has a representable page rounding. */
  lemma ShortIsRepresentable(len: Word64, p: nat, m: nat)
    requires m >= 1 && p + m < 63 && len <= Pow2(p + m)
    ensures var r := RoundPage(len, p); RepresentableLength(r, m) == r
  {
    PagesUp(len, p, p + m);
    PagesAreGranules(RoundPage(len, p), p, m);
    RepresentableExactly(RoundPage(len, p), m);
  }

  /** One byte more than 2^m pages makes one page more. */
  lemma OnePageMore(p: nat, m: nat)
    requires m >= 1 && p + m < 62 && Pow2(p + m) + 1 < TWO64
    ensures RoundPage(Pow2(p + m) + 1, p) == Pow2(p + m) + Pow2(p)
  {
    var big, page := Pow2(p + m), Pow2(p);
    Pow2Small(p);
    Pow2Of64();
    Pow2Grows(p + m + 1, 64);
    Pow2Grows(p, p + m);
    Pow2Divides(p, p + m);
    AlignUpIs(big + 1, page);
    MultiplesApart(big, AlignUp(big + 1, page), page);
    NextMultiple(big, page);
  }

  /** A length strictly between neighbouring multiples of g is aligned up to the higher one. */
  lemma AlignsPast(x: Word64, g: nat, low: nat)
    requires 0 < g < TWO64 && x + g <= TWO64 && MultipleOf(low, g) && low < x
    ensures AlignUp(x, g) >= low + g
  {
    AlignUpIs(x, g);
    MultiplesApart(low, AlignUp(x, g), g);
  }

  lemma GranuleBeyond(len: Word64, p: nat, m: nat)
    requires m >= 1 && Pow2(p + m) < len < Pow2(p + m) + Pow2(p + 1)
    ensures Granule(len, m) == Pow2(p + 1) && MultipleOf(Pow2(p + m), Pow2(p + 1))
  {
    Pow2Divides(p + 1, p + m);
    if m > 1 {
      Pow2Grows(p + 1, p + m);
    }
    BitLenIs(len, p + m);
  }

  /** Lengths between 2^m pages and two pages more are rounded past that. */
  lemma RoundedPast(len: Word64, p: nat, m: nat)
    requires m >= 1 && p + m < 61 && Pow2(p + m) < len < Pow2(p + m) + Pow2(p + 1)
    ensures RepresentableLength(len, m) >= Pow2(p + m) + Pow2(p + 1)
  {
    GranuleBeyond(len, p, m);
    SmallEnough(len, p, m);
    AlignsPast(len, Pow2(p + 1), Pow2(p + m));
  }

  lemma SmallEnough(len: Word64, p: nat, m: nat)
    requires m >= 1 && p + m < 61 && len < Pow2(p + m) + Pow2(p + 1)
    ensures Pow2(p + 1) < TWO64 && len + Pow2(p + 1) <= TWO64
  {
    Pow2Of64();
    Pow2Grows(p + m, 64);
    Pow2Grows(p + m, p + m + 1);
    Pow2Grows(p + m + 1, p + m + 2);
    Pow2Grows(p + m + 2, 64);
    if m > 1 {
      Pow2Grows(p + 1, p + m);
    }
  }

  /** One byte more, and neither the length nor its page rounding is representable. */
  lemma FirstUnrepresentable(p: nat, m: nat)
    requires m >= 1 && p + m < 61 && Pow2(p + m) + 1 < TWO64
    ensures var len := Pow2(p + m) + 1; var r := RoundPage(len, p);
      r < RepresentableLength(r, m) && r < RepresentableLength(len, m)
  {
    OnePageMore(p, m);
    RoundedPast(Pow2(p + m) + 1, p, m);
    RoundedPast(RoundPage(Pow2(p + m) + 1, p), p, m);
  }

  lemma NextMultiple(x: nat, a: nat)
    requires MultipleOf(x, a)
    ensures MultipleOf(x + a, a)
  {
    var k: nat :| x == k * a;
    assert x + a == (k + 1) * a;
  }

  predicate PagesRepresentable(len: Word64, p: nat, m: nat)
    requires p < 64 && m >= 1
  {
    RoundPage(len, p) == RepresentableLength(RoundPage(len, p), m)
  }

  lemma LoopGoesOn(p: nat, m: nat, shift: nat)
    requires m >= 1 && p + m <= 30 && shift < m
    ensures PagesRepresentable(Shifted(p + shift), p, m)
  {
    Pow2Grows(p + shift, p + m);
    ShortIsRepresentable(Shifted(p + shift), p, m);
  }

  lemma LoopStops(p: nat, m: nat)
    requires m >= 1 && p + m <= 30
    ensures !PagesRepresentable(Shifted(p + m), p, m)
    ensures RepresentableLength(Shifted(p + m), m) > RoundPage(Shifted(p + m), p)
  {
    assert Shifted(p + m) == Pow2(p + m) + 1;
    FirstUnrepresentable(p, m);
  }

  lemma LoopStopsAtMantissa(p: nat, m: nat, shift: nat)
    requires m >= 1 && p + m <= 30 && shift <= m
    ensures PagesRepresentable(Shifted(p + shift), p, m) <==> shift < m
  {
    if shift < m {
      LoopGoesOn(p, m, shift);
    } else {
      LoopStops(p, m);
    }
  }

  lemma ShorterGoOn(p: nat, m: nat, l: Word64)
    requires m >= 1 && p + m <= 30 && l < Shifted(p + m)
    ensures PagesRepresentable(l, p, m)
  {
    ShortIsRepresentable(l, p, m);
  }

  /** (1 << n) + 1, whose shift is done in a 32-bit int. */
  function Shifted(n: nat): (len: Word64)
    requires n <= 30
    ensures len == Pow2(n) + 1
  {
    Pow2Grows(n, 64);
    Pow2Of64();
    Pow2(n) + 1
  }

  /** The test at the end of the loop, as a function of the length. */
  function PageTest(p: nat, m: nat): Word64 -> bool
    requires p < 64 && m >= 1
  {
    (len: Word64) => PagesRepresentable(len, p, m)
  }

  predicate GoesOn(test: Word64 -> bool, p: nat, shift: nat)
    requires p + shift <= 30
  {
    test(Shifted(p + shift))
  }

  /** A test that ends the loop at shift m. */
  ghost predicate StopsAt(test: Word64 -> bool, p: nat, m: nat)
    requires p + m <= 30
  {
    forall shift: nat | shift <= m :: GoesOn(test, p, shift) <==> shift < m
  }

  lemma PageTestStops(p: nat, m: nat)
    requires m >= 1 && p + m <= 30
    ensures StopsAt(PageTest(p, m), p, m)
  {
    forall shift: nat | shift <= m ensures GoesOn(PageTest(p, m), p, shift) <==> shift < m {
      LoopStopsAtMantissa(p, m, shift);
    }
  }

  /** The loop, for any such test. */
  method SearchLength(p: nat, ghost m: nat, test: Word64 -> bool) returns (len: Word64)
    requires p + m <= 30 && StopsAt(test, p, m)
    ensures len == Shifted(p + m)
  {
    var shift := 1;
    len := Shifted(p);
    assert GoesOn(test, p, 0) <==> 0 < m;
    while test(len)
      invariant 1 <= shift <= m + 1 && len == Shifted(p + shift - 1)
      invariant test(len) <==> shift <= m
      decreases m + 1 - shift
    {
      len := Shifted(p + shift);
      assert GoesOn(test, p, shift) <==> shift < m;
      shift := shift + 1;
    }
  }

  lemma ShortestUnrepresentable(p: nat, m: nat, len: Word64)
    requires m >= 1 && p + m <= 30 && len == Shifted(p + m)
    ensures !PagesRepresentable(len, p, m) && RepresentableLength(len, m) > RoundPage(len, p)
    ensures forall l: Word64 | l < len :: PagesRepresentable(l, p, m)
  {
    LoopStops(p, m);
    forall l: Word64 | l < len ensures PagesRepresentable(l, p, m) {
      ShorterGoOn(p, m, l);
    }
  }

  /** The search with p bits of page offset; the shifted one is an int, so p + m may not pass 30. It ends
      with the shortest of all lengths whose page rounding is unrepresentable, and mapping that length needs
      more padding than the page rounding gives. */
  method GetUnrepresentableLength(p: nat, m: nat) returns (len: Word64)
    requires m >= 1 && p + m <= 30
    ensures len == Pow2(p + m) + 1
    ensures !PagesRepresentable(len, p, m) && RepresentableLength(len, m) > RoundPage(len, p)
    ensures forall l: Word64 | l < len :: PagesRepresentable(l, p, m)
  {
    PageTestStops(p, m);
    len := SearchLength(p, m, PageTest(p, m));
    ShortestUnrepresentable(p, m, len);
  }
}
