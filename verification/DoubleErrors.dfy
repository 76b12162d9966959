/**
  Two flipped bits. The residue of a message is a polynomial over the field of two elements
  modulo the generator, and each bit clocked in multiplies it by x. Two flips cancel exactly
  when x to the power of their distance is 1, and the order of x is 32767 = 7 * 31 * 151.
 */
module DoubleErrors {
  import opened Bytes
  import opened Crc
  import opened CrcAlgebra

  const ORDER: nat := 32767

  // ---------------------------------------------------------------- residues

  /** A polynomial of degree below 16, by its coefficients. */
  datatype Poly = P(c15: bool, c14: bool, c13: bool, c12: bool, c11: bool, c10: bool, c9: bool, c8: bool,
                    c7: bool, c6: bool, c5: bool, c4: bool, c3: bool, c2: bool, c1: bool, c0: bool)

  const ONE := P(false, false, false, false, false, false, false, false,
                 false, false, false, false, false, false, false, true)

  /** Multiplication by x. */
  function Times(p: Poly): Poly {
    P(p.c14, p.c13, p.c12, p.c11 != p.c15, p.c10, p.c9, p.c8, p.c7,
      p.c6, p.c5, p.c4 != p.c15, p.c3, p.c2, p.c1, p.c0, p.c15)
  }

  /** `n` multiplications by x. */
  function Iterate(p: Poly, n: nat): Poly {
    if n == 0 then p else Times(Iterate(p, n - 1))
  }

  /** The residue of x to the power `n`. */
  function X(n: nat): Poly {
    Iterate(ONE, n)
  }

  /** The square: each coefficient moves to twice its degree, and degrees over 15 are reduced. */
  function Square(p: Poly): Poly {
    P(p.c13,
      ((p.c7 != p.c9) != p.c11) != p.c13,
      p.c12,
      ((p.c6 != p.c8) != p.c10) != p.c12,
      (p.c11 != p.c13) != p.c15,
      (p.c5 != p.c13) != p.c15,
      (p.c10 != p.c12) != p.c14,
      ((p.c4 != p.c12) != p.c14) != p.c15,
      ((p.c9 != p.c11) != p.c13) != p.c15,
      (((p.c3 != p.c11) != p.c13) != p.c14) != p.c15,
      ((p.c8 != p.c10) != p.c12) != p.c14,
      ((p.c2 != p.c10) != p.c12) != p.c14,
      p.c15,
      (((p.c1 != p.c9) != p.c11) != p.c13) != p.c15,
      p.c14,
      (((p.c0 != p.c8) != p.c10) != p.c12) != p.c14)
  }

  lemma {:induction false} SquareTimesTop(p: Poly)
    ensures var a, b := Square(Times(p)), Times(Times(Square(p)));
            a.c15 == b.c15 && a.c14 == b.c14 && a.c13 == b.c13 && a.c12 == b.c12
  {
  }

  lemma {:induction false} SquareTimesUpper(p: Poly)
    ensures var a, b := Square(Times(p)), Times(Times(Square(p)));
            a.c11 == b.c11 && a.c10 == b.c10 && a.c9 == b.c9 && a.c8 == b.c8
  {
  }

  lemma {:induction false} SquareTimesLower(p: Poly)
    ensures var a, b := Square(Times(p)), Times(Times(Square(p)));
            a.c7 == b.c7 && a.c6 == b.c6 && a.c5 == b.c5 && a.c4 == b.c4
  {
  }

  lemma {:induction false} SquareTimesBottom(p: Poly)
    ensures var a, b := Square(Times(p)), Times(Times(Square(p)));
            a.c3 == b.c3 && a.c2 == b.c2 && a.c1 == b.c1 && a.c0 == b.c0
  {
  }

  lemma {:induction false} SquareTimes(p: Poly)
    ensures Square(Times(p)) == Times(Times(Square(p)))
  {
    SquareTimesTop(p);
    SquareTimesUpper(p);
    SquareTimesLower(p);
    SquareTimesBottom(p);
    hide Square, Times;
  }

  lemma {:induction false} NextPower(n: nat)
    ensures X(n + 1) == Times(X(n))
  {
  }

  lemma {:induction false} SquareOne()
    ensures Square(ONE) == ONE
  {
  }

  lemma {:induction false} SquareX(n: nat)
    ensures X(2 * n) == Square(X(n))
  {
    hide Square, Times;
    if n == 0 {
      SquareOne();
    } else {
      SquareX(n - 1);
      SquareTimes(X(n - 1));
      hide X;
      NextPower(n - 1);
      NextPower(2 * n - 2);
      NextPower(2 * n - 1);
    }
  }

  /** How powers are computed below. */
  lemma {:induction false} Doubled(n: nat)
    ensures X(2 * n) == Square(X(n)) && X(2 * n + 1) == Times(Square(X(n)))
  {
    hide Square, Times, X;
    SquareX(n);
    NextPower(2 * n);
  }

  const T := true
  const F := false

  lemma {:induction false} FirstPower()
    ensures X(1) == P(F, F, F, F, F, F, F, F, F, F, F, F, F, F, T, F)
  {
  }

  lemma {:induction false} Power217()
    ensures X(217) == P(F, T, F, F, T, F, F, F, T, T, T, F, F, F, T, T)
  {
    FirstPower();
    hide X;
    Doubled(1);
    assert X(3) == P(F, F, F, F, F, F, F, F, F, F, F, F, T, F, F, F);
    Doubled(3);
    assert X(6) == P(F, F, F, F, F, F, F, F, F, T, F, F, F, F, F, F);
    Doubled(6);
    assert X(13) == P(F, F, T, F, F, F, F, F, F, F, F, F, F, F, F, F);
    Doubled(13);
    assert X(27) == P(T, F, F, F, T, F, F, T, T, F, T, F, T, F, F, T);
    Doubled(27);
    assert X(54) == P(F, F, F, T, F, F, F, T, F, T, T, F, T, F, F, F);
    Doubled(54);
    assert X(108) == P(F, F, T, T, F, T, T, T, F, T, F, T, F, F, F, F);
    Doubled(108);
  }

  lemma {:induction false} Power1057()
    ensures X(1057) == P(T, T, T, T, F, F, T, F, T, F, T, F, T, T, T, T)
  {
    FirstPower();
    hide X;
    Doubled(1);
    assert X(2) == P(F, F, F, F, F, F, F, F, F, F, F, F, F, T, F, F);
    Doubled(2);
    assert X(4) == P(F, F, F, F, F, F, F, F, F, F, F, T, F, F, F, F);
    Doubled(4);
    assert X(8) == P(F, F, F, F, F, F, F, T, F, F, F, F, F, F, F, F);
    Doubled(8);
    assert X(16) == P(F, F, F, T, F, F, F, F, F, F, T, F, F, F, F, T);
    Doubled(16);
    assert X(33) == P(F, T, T, F, T, T, T, F, F, T, T, F, F, F, F, F);
    Doubled(33);
    assert X(66) == P(T, T, F, F, F, F, F, T, T, T, F, F, F, T, T, F);
    Doubled(66);
    assert X(132) == P(F, T, F, F, T, T, T, F, T, F, F, F, T, F, T, F);
    Doubled(132);
    assert X(264) == P(F, T, F, T, T, F, F, T, F, T, F, F, F, T, T, F);
    Doubled(264);
    assert X(528) == P(F, T, T, T, T, F, F, F, T, F, T, T, F, F, T, T);
    Doubled(528);
  }

  lemma {:induction false} Power4681()
    ensures X(4681) == P(F, F, T, F, T, T, F, F, F, T, F, F, F, F, T, F)
  {
    FirstPower();
    hide X;
    Doubled(1);
    assert X(2) == P(F, F, F, F, F, F, F, F, F, F, F, F, F, T, F, F);
    Doubled(2);
    assert X(4) == P(F, F, F, F, F, F, F, F, F, F, F, T, F, F, F, F);
    Doubled(4);
    assert X(9) == P(F, F, F, F, F, F, T, F, F, F, F, F, F, F, F, F);
    Doubled(9);
    assert X(18) == P(F, T, F, F, F, F, F, F, T, F, F, F, F, T, F, F);
    Doubled(18);
    assert X(36) == P(F, T, F, F, F, F, T, T, F, T, T, F, F, F, T, T);
    Doubled(36);
    assert X(73) == P(T, F, F, F, T, T, T, T, T, F, T, F, F, T, T, F);
    Doubled(73);
    assert X(146) == P(F, T, F, F, F, F, T, T, T, F, F, F, T, F, F, F);
    Doubled(146);
    assert X(292) == P(F, F, F, T, F, F, T, T, T, F, F, T, F, T, T, F);
    Doubled(292);
    assert X(585) == P(F, T, F, F, F, T, F, T, F, F, F, F, F, F, F, F);
    Doubled(585);
    assert X(1170) == P(F, F, F, F, F, F, F, T, F, T, T, F, F, F, T, T);
    Doubled(1170);
    assert X(2340) == P(F, F, F, F, F, T, F, F, F, F, T, F, F, T, F, F);
    Doubled(2340);
  }

  lemma {:induction false} Power32767()
    ensures X(32767) == P(F, F, F, F, F, F, F, F, F, F, F, F, F, F, F, T)
  {
    FirstPower();
    hide X;
    Doubled(1);
    assert X(3) == P(F, F, F, F, F, F, F, F, F, F, F, F, T, F, F, F);
    Doubled(3);
    assert X(7) == P(F, F, F, F, F, F, F, F, T, F, F, F, F, F, F, F);
    Doubled(7);
    assert X(15) == P(T, F, F, F, F, F, F, F, F, F, F, F, F, F, F, F);
    Doubled(15);
    assert X(31) == P(F, F, F, T, T, F, T, T, T, F, F, T, T, F, F, F);
    Doubled(31);
    assert X(63) == P(T, T, F, T, F, T, F, F, F, F, T, F, F, F, F, F);
    Doubled(63);
    assert X(127) == P(F, T, F, T, F, T, T, T, F, T, T, T, T, T, T, F);
    Doubled(127);
    assert X(255) == P(T, T, F, F, T, T, T, T, F, F, F, F, F, T, F, F);
    Doubled(255);
    assert X(511) == P(F, F, F, F, T, F, F, T, T, T, T, T, T, T, T, F);
    Doubled(511);
    assert X(1023) == P(F, F, F, T, T, F, T, T, F, T, T, F, F, F, T, F);
    Doubled(1023);
    assert X(2047) == P(F, T, T, T, T, T, T, F, T, F, T, F, T, F, F, F);
    Doubled(2047);
    assert X(4095) == P(F, T, F, T, F, T, F, T, F, T, F, F, T, T, T, T);
    Doubled(4095);
    assert X(8191) == P(F, T, F, F, F, T, F, F, F, F, F, F, T, T, T, F);
    Doubled(8191);
    assert X(16383) == P(F, F, T, F, F, F, T, F, F, F, T, F, T, T, F, F);
    Doubled(16383);
  }

  // ---------------------------------------------------------------- the order of x

  lemma {:induction false} PowersAdd(a: nat, b: nat)
    ensures X(a + b) == Iterate(X(a), b)
  {
    hide Times;
    if b > 0 {
      PowersAdd(a, b - 1);
    }
  }

  lemma {:induction false} TimesInjective(p: Poly, q: Poly)
    requires Times(p) == Times(q)
    ensures p == q
  {
  }

  lemma {:induction false} Cancel(a: nat, b: nat)
    requires X(a + b) == X(a)
    ensures X(b) == ONE
  {
    hide Times;
    if a > 0 {
      TimesInjective(X(a - 1 + b), X(a - 1));
      Cancel(a - 1, b);
    }
  }

  lemma {:induction false} Cycle(a: nat, b: nat)
    requires X(a) == ONE
    ensures X(a + b) == X(b)
  {
    hide Times;
    PowersAdd(a, b);
    PowersAdd(0, b);
  }

  lemma {:induction false} Multiple(n: nat, k: nat)
    requires X(n) == ONE
    ensures X(n * k) == ONE
  {
    hide X;
    if k == 0 {
      ZerothPower();
    } else {
      Multiple(n, k - 1);
      Cycle(n, n * (k - 1));
      assert n * k == n + n * (k - 1);
    }
  }

  lemma {:induction false} ZerothPower()
    ensures X(0) == ONE
  {
  }

  /** The remainder, by repeated subtraction. */
  function Rest(a: nat, b: nat): (r: nat)
    requires b > 0
    ensures r < b
  {
    if a < b then a else Rest(a - b, b)
  }

  lemma {:induction false} Quotient(a: nat, b: nat) returns (q: nat)
    requires b > 0
    ensures a == q * b + Rest(a, b)
  {
    if a < b {
      q := 0;
    } else {
      q := Quotient(a - b, b);
      q := q + 1;
    }
  }

  /** Exponents that give 1 are closed under remainders. */
  lemma {:induction false} Remainder(c: nat, a: nat, b: nat)
    requires b > 0 && X(c * a) == ONE && X(c * b) == ONE
    ensures X(c * Rest(a, b)) == ONE
    decreases a
  {
    hide X;
    if a >= b {
      Distribute(c, a, b);
      Cycle(c * b, c * (a - b));
      Remainder(c, a - b, b);
    }
  }

  lemma {:induction false} Distribute(c: nat, a: nat, b: nat)
    requires b <= a
    ensures c * a == c * b + c * (a - b)
  {
  }

  ghost predicate Prime(p: nat) {
    forall r :: 1 < r < p ==> Rest(p, r) != 0
  }

  /** Euclid's algorithm on `r` and the prime ends at 1. */
  lemma {:induction false} Descend(c: nat, p: nat, r: nat)
    requires Prime(p) && 0 < r < p && X(c * p) == ONE && X(c * r) == ONE
    ensures X(c) == ONE
    decreases r
  {
    hide X;
    if r > 1 {
      Remainder(c, p, r);
      Descend(c, p, Rest(p, r));
    }
  }

  lemma {:induction false} NotMultiple(c: nat, p: nat, n: nat)
    requires Prime(p) && p > 1 && X(c * p) == ONE && X(n) == ONE && Rest(n, p) != 0
    ensures X(c) == ONE
  {
    hide X;
    Multiple(n, c);
    assert n * c == c * n;
    Remainder(c, n, p);
    Descend(c, p, Rest(n, p));
  }

  lemma {:induction false} SmallFactor(p: nat, r: nat, q: nat)
    requires (p == 151 || p == 31 || p == 7) && r <= 12 && r < p && q < p
    ensures r * q != p
  {
    if r == 0 { assert r * q == 0; }
    if r == 1 { assert r * q == q; }
    if r == 2 { assert r * q == 2 * q; }
    if r == 3 { assert r * q == 3 * q; }
    if r == 4 { assert r * q == 4 * q; }
    if r == 5 { assert r * q == 5 * q; }
    if r == 6 { assert r * q == 6 * q; }
    if r == 7 { assert r * q == 7 * q; }
    if r == 8 { assert r * q == 8 * q; }
    if r == 9 { assert r * q == 9 * q; }
    if r == 10 { assert r * q == 10 * q; }
    if r == 11 { assert r * q == 11 * q; }
    if r == 12 { assert r * q == 12 * q; }
  }

  lemma {:induction false} LargeFactors(r: nat, q: nat)
    requires r > 12 && q > 12
    ensures r * q > 151
  {
    assert r * q >= 13 * q;
  }

  /** One of two factors of 151, 31 or 7 would be at most 12. */
  lemma {:induction false} ArePrime(p: nat)
    requires p == 151 || p == 31 || p == 7
    ensures Prime(p)
  {
    forall r | 1 < r < p ensures Rest(p, r) != 0 {
      var q := Quotient(p, r);
      if r > 12 && q > 12 {
        LargeFactors(r, q);
      } else if r <= 12 && q < p {
        SmallFactor(p, r, q);
      } else if q < p {
        SmallFactor(p, q, r);
      } else {
        AtLeastDouble(q, r);
      }
    }
  }

  lemma {:induction false} AtLeastDouble(q: nat, r: nat)
    requires r > 1
    ensures q * r >= 2 * q
  {
  }

  lemma {:induction false} Factored(n: nat, a: nat, b: nat, c: nat)
    requires n == 7 * a && n == 31 * b && n == 151 * c
    ensures n % ORDER == 0
  {
    var m := 9 * b - 2 * a;
    assert a == 31 * m && n == 217 * m;
    var k := 135 * c - 194 * m;
    assert m == 151 * k && n == ORDER * k;
    MultipleOfOrder(n, k);
  }

  lemma {:induction false} MultipleOfOrder(n: nat, k: int)
    requires n == ORDER * k
    ensures n % ORDER == 0
  {
  }

  /** x to the power `n` is 1 exactly when `n` is a multiple of 32767. */
  lemma {:induction false} OrderOfX(n: nat)
    ensures X(n) == ONE <==> n % ORDER == 0
  {
    Power32767();
    Power4681();
    Power1057();
    Power217();
    hide X;
    ArePrime(151);
    ArePrime(31);
    ArePrime(7);
    hide Rest, Prime;
    if n % ORDER == 0 {
      Multiple(ORDER, n / ORDER);
      assert ORDER * (n / ORDER) == n;
    }
    if X(n) == ONE {
      if Rest(n, 151) != 0 {
        NotMultiple(217, 151, n);
      } else if Rest(n, 31) != 0 {
        NotMultiple(1057, 31, n);
      } else if Rest(n, 7) != 0 {
        NotMultiple(4681, 7, n);
      } else {
        var c := Quotient(n, 151);
        var b := Quotient(n, 31);
        var a := Quotient(n, 7);
        Factored(n, a, b, c);
      }
    }
  }

  // ---------------------------------------------------------------- the register

  /** Bits `i` and `j` are flipped and no others. */
  ghost predicate TwoFlips(d: Bits, i: nat, j: nat) {
    i < j < |d| && forall k :: 0 <= k < |d| ==> (d[k] <==> k == i || k == j)
  }

  /** The register as a polynomial, its top bit the coefficient of degree 15. */
  function Residue(r: Reg): Poly {
    P(r[0], r[1], r[2], r[3], r[4], r[5], r[6], r[7], r[8], r[9], r[10], r[11], r[12], r[13], r[14], r[15])
  }

  lemma {:induction false} ClockIsTimes(r: Reg)
    ensures Residue(Clock(r, false)) == Times(Residue(r))
  {
  }

  lemma {:induction false} ResidueInjective(r: Reg, s: Reg)
    requires Residue(r) == Residue(s)
    ensures r == s
  {
  }

  lemma {:induction false} ClockOne(r: Reg)
    ensures AllZero(Clock(r, true)) <==> Clock(r, false) == POLY
  {
    var a, b := Clock(r, true), Clock(r, false);
    forall k | 0 <= k < 16 ensures a[k] == (b[k] != POLY[k]) {
    }
  }

  lemma {:induction false} ZerosAreTimes(r: Reg, zeros: Bits)
    requires AllZero(zeros)
    ensures Residue(Lfsr(r, zeros)) == Iterate(Residue(r), |zeros|)
  {
    hide Clock, Times, Residue;
    if zeros != [] {
      ZerosAreTimes(r, zeros[..|zeros| - 1]);
      ClockIsTimes(Lfsr(r, zeros[..|zeros| - 1]));
    }
  }

  /** A single one leaves the generator without its leading term, x to the power 16. */
  lemma {:induction false} FirstFlip()
    ensures Lfsr(Zeros(16), [true]) == POLY
  {
    assert [true][..0] == [];
    assert Lfsr(Zeros(16), [true]) == Clock(Zeros(16), true);
  }

  lemma {:induction false} FourSquares()
    ensures Square(Square(Square(Square(P(F, F, F, F, F, F, F, F, F, F, F, F, F, F, T, F)))))
         == P(F, F, F, T, F, F, F, F, F, F, T, F, F, F, F, T)
  {
    assert Square(Square(P(F, F, F, F, F, F, F, F, F, F, F, F, F, F, T, F)))
        == P(F, F, F, F, F, F, F, F, F, F, F, T, F, F, F, F);
  }

  lemma {:induction false} PolyResidue()
    ensures Residue(POLY) == P(F, F, F, T, F, F, F, F, F, F, T, F, F, F, F, T)
  {
  }

  /** Two ones with `gap` noughts between. */
  lemma {:induction false} PairClears(gap: Bits)
    requires AllZero(gap)
    ensures AllZero(Lfsr(Zeros(16), [true] + gap + [true])) <==> (|gap| + 1) % ORDER == 0
  {
    hide X, Residue, Clock, Times, Square;
    var n := |gap| + 1;
    var pair := [true] + gap + [true];
    assert pair[..n] == [true] + gap;
    LfsrConcat(Zeros(16), [true], gap);
    FirstFlip();
    FirstPower();
    FourSquares();
    PolyResidue();
    Doubled(1);
    Doubled(2);
    Doubled(4);
    Doubled(8);
    ZerosAreTimes(POLY, gap);
    PowersAdd(16, |gap|);
    NextPower(16 + |gap|);
    var r := Lfsr(Zeros(16), [true] + gap);
    ClockOne(r);
    ClockIsTimes(r);
    OrderOfX(n);
    if X(16 + n) == X(16) {
      ResidueInjective(Clock(r, false), POLY);
      Cancel(16, n);
    }
    if X(n) == ONE {
      Cycle(n, 16);
    }
  }

  /** Two flipped bits cancel exactly when they are a multiple of 32767 bits apart. */
  lemma {:induction false} TwoFlipsLeaveResidue(d: Bits, i: nat, j: nat)
    requires TwoFlips(d, i, j)
    ensures !AllZero(Lfsr(Zeros(16), d)) <==> (j - i) % ORDER != 0
  {
    hide Lfsr;
    var before, gap, after := d[..i], d[i + 1..j], d[j + 1..];
    var pair := [true] + gap + [true];
    assert d == before + (pair + after);
    ZerosKeepResidue(Zeros(16), before);
    LfsrThree(before, pair, after);
    ZerosKeepResidue(Lfsr(Zeros(16), pair), after);
    PairClears(gap);
  }

  // ---------------------------------------------------------------- up to three flips

  function Weight(bits: Bits): nat {
    if bits == [] then 0 else Weight(bits[..|bits| - 1]) + if bits[|bits| - 1] then 1 else 0
  }

  lemma {:induction false} WeightParity(bits: Bits)
    ensures Odd(bits) <==> Weight(bits) % 2 == 1
  {
    if bits != [] {
      WeightParity(bits[..|bits| - 1]);
    }
  }

  lemma {:induction false} WeightZero(bits: Bits)
    ensures Weight(bits) == 0 <==> AllZero(bits)
  {
    if bits != [] {
      var front := bits[..|bits| - 1];
      WeightZero(front);
      if AllZero(front) && !bits[|bits| - 1] {
        assert forall i :: 0 <= i < |bits| - 1 ==> front[i] == bits[i];
      }
    }
  }

  lemma {:induction false} OneFlip(bits: Bits) returns (i: nat)
    requires Weight(bits) == 1
    ensures i < |bits| && forall k :: 0 <= k < |bits| ==> (bits[k] <==> k == i)
  {
    var n := |bits| - 1;
    if bits[n] {
      WeightZero(bits[..n]);
      assert forall k :: 0 <= k < n ==> bits[..n][k] == bits[k];
      i := n;
    } else {
      i := OneFlip(bits[..n]);
    }
  }

  lemma {:induction false} WeightTwo(bits: Bits) returns (i: nat, j: nat)
    requires Weight(bits) == 2
    ensures TwoFlips(bits, i, j)
  {
    var n := |bits| - 1;
    if bits[n] {
      i := OneFlip(bits[..n]);
      j := n;
    } else {
      i, j := WeightTwo(bits[..n]);
    }
  }

  // ---------------------------------------------------------------- the check value

  /** One message bit into the residue. */
  function TimesBit(p: Poly, bit: bool): Poly {
    var f := p.c15 != bit;
    P(p.c14, p.c13, p.c12, p.c11 != f, p.c10, p.c9, p.c8, p.c7, p.c6, p.c5, p.c4 != f, p.c3, p.c2, p.c1, p.c0, f)
  }

  lemma {:induction false} ClockIsTimesBit(r: Reg, bit: bool)
    ensures Residue(Clock(r, bit)) == TimesBit(Residue(r), bit)
  {
  }

  function FourBits(p: Poly, a: bool, b: bool, c: bool, d: bool): Poly {
    TimesBit(TimesBit(TimesBit(TimesBit(p, a), b), c), d)
  }

  lemma {:induction false} LfsrFourBits(r: Reg, a: bool, b: bool, c: bool, d: bool)
    ensures Residue(Lfsr(r, [a, b, c, d])) == FourBits(Residue(r), a, b, c, d)
  {
    hide Clock, TimesBit, Residue;
    var w := [a, b, c, d];
    assert w[..3][..2][..1][..0] == [];
    ClockIsTimesBit(r, a);
    ClockIsTimesBit(Clock(r, a), b);
    ClockIsTimesBit(Clock(Clock(r, a), b), c);
    ClockIsTimesBit(Clock(Clock(Clock(r, a), b), c), d);
    assert Lfsr(r, w[..1]) == Clock(r, a) by { assert w[..1][..0] == []; }
    assert Lfsr(r, w[..2]) == Clock(Clock(r, a), b) by { assert w[..2][..1] == w[..1]; }
    assert Lfsr(r, w[..3]) == Clock(Clock(Clock(r, a), b), c) by { assert w[..3][..2] == w[..2]; }
  }

  /** The bits of a digit character, 0011 and four more. */
  lemma {:induction false} LfsrDigit(crc: Reg, a: bool, b: bool, c: bool, d: bool)
    ensures Residue(Lfsr(crc, [F, F, T, T] + [a, b, c, d]))
            == FourBits(FourBits(Residue(crc), F, F, T, T), a, b, c, d)
  {
    hide Residue, Lfsr, FourBits;
    LfsrConcat(crc, [F, F, T, T], [a, b, c, d]);
    LfsrFourBits(crc, F, F, T, T);
    LfsrFourBits(Lfsr(crc, [F, F, T, T]), a, b, c, d);
  }

  function Bit(b: bool): nat {
    if b then 1 else 0
  }

  lemma {:induction false} LastBit(v: nat, n: nat, b: bool)
    ensures ToBits(2 * v + Bit(b), n + 1) == ToBits(v, n) + [b]
  {
    assert (2 * v + Bit(b)) / 2 == v && ((2 * v + Bit(b)) % 2 == 1 <==> b);
  }

  lemma {:induction false} NoBits(v: nat)
    ensures ToBits(v, 0) == []
  {
  }

  lemma {:induction false} TopBits()
    ensures ToBits(3, 4) == [F, F, T, T]
  {
    hide ToBits;
    NoBits(0);
    LastBit(0, 0, F);
    LastBit(0, 1, F);
    LastBit(0, 2, T);
    LastBit(1, 3, T);
    assert [] + [F] + [F] + [T] + [T] == [F, F, T, T];
  }

  lemma {:induction false} FourMoreBits(v: nat, n: nat, a: bool, b: bool, c: bool, d: bool)
    ensures ToBits(16 * v + 8 * Bit(a) + 4 * Bit(b) + 2 * Bit(c) + Bit(d), n + 4) == ToBits(v, n) + [a, b, c, d]
  {
    hide ToBits, Bit;
    var v1 := 2 * v + Bit(a);
    var v2 := 2 * v1 + Bit(b);
    var v3 := 2 * v2 + Bit(c);
    LastBit(v, n, a);
    LastBit(v1, n + 1, b);
    LastBit(v2, n + 2, c);
    LastBit(v3, n + 3, d);
    assert ToBits(v, n) + [a] + [b] + [c] + [d] == ToBits(v, n) + [a, b, c, d];
  }

  lemma {:induction false} DigitBits(n: Byte, a: bool, b: bool, c: bool, d: bool)
    requires n == 48 + 8 * Bit(a) + 4 * Bit(b) + 2 * Bit(c) + Bit(d)
    ensures ByteBits(n) == [F, F, T, T] + [a, b, c, d]
  {
    hide ToBits, Bit;
    TopBits();
    FourMoreBits(3, 4, a, b, c, d);
  }

  lemma {:induction false} After1()
    ensures FourBits(FourBits(P(T, T, T, T, T, T, T, T, T, T, T, T, T, T, T, T), F, F, T, T), F, F, F, T)
            == P(T, T, F, F, F, T, T, T, T, F, F, F, F, F, T, F)
  {
  }

  lemma {:induction false} After2()
    ensures FourBits(FourBits(P(T, T, F, F, F, T, T, T, T, F, F, F, F, F, T, F), F, F, T, T), F, F, T, F)
            == P(F, F, T, T, T, T, F, T, T, F, T, T, T, F, T, F)
  {
  }

  lemma {:induction false} After3()
    ensures FourBits(FourBits(P(F, F, T, T, T, T, F, T, T, F, T, T, T, F, T, F), F, F, T, T), F, F, T, T)
            == P(F, T, F, T, T, F, T, T, T, T, F, F, T, T, T, F)
  {
  }

  lemma {:induction false} After4()
    ensures FourBits(FourBits(P(F, T, F, T, T, F, T, T, T, T, F, F, T, T, T, F), F, F, T, T), F, T, F, F)
            == P(F, T, F, T, F, F, T, T, F, T, F, F, T, F, F, T)
  {
  }

  lemma {:induction false} After5()
    ensures FourBits(FourBits(P(F, T, F, T, F, F, T, T, F, T, F, F, T, F, F, T), F, F, T, T), F, T, F, T)
            == P(F, T, F, F, F, T, F, T, F, T, T, F, F, F, F, F)
  {
  }

  lemma {:induction false} After6()
    ensures FourBits(FourBits(P(F, T, F, F, F, T, F, T, F, T, T, F, F, F, F, F), F, F, T, T), F, T, T, F)
            == P(F, F, T, F, T, T, T, F, T, T, T, T, F, T, F, F)
  {
  }

  lemma {:induction false} After7()
    ensures FourBits(FourBits(P(F, F, T, F, T, T, T, F, T, T, T, T, F, T, F, F), F, F, T, T), F, T, T, T)
            == P(F, T, T, T, F, T, T, T, F, F, F, T, T, F, F, F)
  {
  }

  lemma {:induction false} After8()
    ensures FourBits(FourBits(P(F, T, T, T, F, T, T, T, F, F, F, T, T, F, F, F), F, F, T, T), T, F, F, F)
            == P(T, F, T, F, F, F, F, T, F, F, T, F, T, F, T, T)
  {
  }

  lemma {:induction false} After9()
    ensures FourBits(FourBits(P(T, F, T, F, F, F, F, T, F, F, T, F, T, F, T, T), F, F, T, T), T, F, F, T)
            == P(F, F, T, F, T, F, F, T, T, F, T, T, F, F, F, T)
  {
  }

  /** The start value, and the value the standard gives for the characters 1 to 9: 0x29B1. */
  lemma {:induction false} CheckValue()
    ensures Residue(Crc16([])) == P(T, T, T, T, T, T, T, T, T, T, T, T, T, T, T, T)
    ensures Residue(Crc16([0x31, 0x32, 0x33, 0x34, 0x35, 0x36, 0x37, 0x38, 0x39]))
            == P(F, F, T, F, T, F, F, T, T, F, T, T, F, F, F, T)
  {
    hide Update, Residue, ByteBits, FourBits, Crc16, Lfsr;
    StartValue();
    var c0 := Crc16([]);
    var c1 := Update(c0, 0x31);
    UpdateIsLfsr(c0, 0x31);
    DigitBits(0x31, F, F, F, T);
    LfsrDigit(c0, F, F, F, T);
    After1();
    var c2 := Update(c1, 0x32);
    UpdateIsLfsr(c1, 0x32);
    DigitBits(0x32, F, F, T, F);
    LfsrDigit(c1, F, F, T, F);
    After2();
    var c3 := Update(c2, 0x33);
    UpdateIsLfsr(c2, 0x33);
    DigitBits(0x33, F, F, T, T);
    LfsrDigit(c2, F, F, T, T);
    After3();
    var c4 := Update(c3, 0x34);
    UpdateIsLfsr(c3, 0x34);
    DigitBits(0x34, F, T, F, F);
    LfsrDigit(c3, F, T, F, F);
    After4();
    var c5 := Update(c4, 0x35);
    UpdateIsLfsr(c4, 0x35);
    DigitBits(0x35, F, T, F, T);
    LfsrDigit(c4, F, T, F, T);
    After5();
    var c6 := Update(c5, 0x36);
    UpdateIsLfsr(c5, 0x36);
    DigitBits(0x36, F, T, T, F);
    LfsrDigit(c5, F, T, T, F);
    After6();
    var c7 := Update(c6, 0x37);
    UpdateIsLfsr(c6, 0x37);
    DigitBits(0x37, F, T, T, T);
    LfsrDigit(c6, F, T, T, T);
    After7();
    var c8 := Update(c7, 0x38);
    UpdateIsLfsr(c7, 0x38);
    DigitBits(0x38, T, F, F, F);
    LfsrDigit(c7, T, F, F, F);
    After8();
    var c9 := Update(c8, 0x39);
    UpdateIsLfsr(c8, 0x39);
    DigitBits(0x39, T, F, F, T);
    LfsrDigit(c8, T, F, F, T);
    After9();
    NineBytes(c0);
  }

  lemma {:induction false} StartValue()
    ensures Residue(Crc16([])) == P(T, T, T, T, T, T, T, T, T, T, T, T, T, T, T, T)
  {
  }

  lemma {:induction false} NineBytes(c0: Reg)
    requires c0 == Crc16([])
    ensures Crc16([0x31, 0x32, 0x33, 0x34, 0x35, 0x36, 0x37, 0x38, 0x39])
            == Update(Update(Update(Update(Update(Update(Update(Update(Update(
                 c0, 0x31), 0x32), 0x33), 0x34), 0x35), 0x36), 0x37), 0x38), 0x39)
  {
    hide Update, Fold;
    var d := [0x31, 0x32, 0x33, 0x34, 0x35, 0x36, 0x37, 0x38, 0x39];
    assert d[..0] == [] && d[..9] == d;
    OneMoreDigit(d, 0);
    OneMoreDigit(d, 1);
    OneMoreDigit(d, 2);
    OneMoreDigit(d, 3);
    OneMoreDigit(d, 4);
    OneMoreDigit(d, 5);
    OneMoreDigit(d, 6);
    OneMoreDigit(d, 7);
    OneMoreDigit(d, 8);
  }

  lemma {:induction false} OneMoreDigit(d: seq<Byte>, n: nat)
    requires n < |d|
    ensures Crc16(d[..n + 1]) == Update(Crc16(d[..n]), d[n])
  {
    hide Update, Fold;
    FoldSnoc(INIT, d[..n], d[n]);
    assert d[..n] + [d[n]] == d[..n + 1];
  }
}
