/** Arithmetic in GF(256), the field behind the QR Reed-Solomon code.

    An element is a polynomial of degree below eight over GF(2), one boolean per coefficient, taken modulo
    x^8 + x^4 + x^3 + x^2 + 1 (0x11D). `Mul` is the reference multiplication, shift and add. The program
    multiplies through exponent and logarithm tables instead: `BuildTables` fills them with the program's loop and
    `Tables.GfMul` is shown to be `Mul`. */
module Gf256 {
  import opened BitString
  import opened Sets

  datatype Byte = Byte(b7: bool, b6: bool, b5: bool, b4: bool, b3: bool, b2: bool, b1: bool, b0: bool)

  function Zero(): Byte { Byte(false, false, false, false, false, false, false, false) }

  function One(): Byte { Byte(false, false, false, false, false, false, false, true) }

  function Xor(a: Byte, b: Byte): Byte {
    Byte(a.b7 != b.b7, a.b6 != b.b6, a.b5 != b.b5, a.b4 != b.b4, a.b3 != b.b3, a.b2 != b.b2, a.b1 != b.b1, a.b0 != b.b0)
  }

  /** Multiplication by x: shift, then subtract the modulus when the degree reached eight. */
  function Double(a: Byte): Byte {
    Byte(a.b6, a.b5, a.b4, a.b3 != a.b7, a.b2 != a.b7, a.b1 != a.b7, a.b0, a.b7)
  }

  /** Division by x with the remainder dropped. */
  function Half(a: Byte): Byte {
    Byte(false, a.b7, a.b6, a.b5, a.b4, a.b3, a.b2, a.b1)
  }

  /** The n-th power of x, which generates the multiplicative group. */
  function Power(n: nat): Byte {
    if n == 0 then One() else Double(Power(n - 1))
  }

  /** Degree plus one; zero for the zero polynomial. */
  function Length(a: Byte): nat {
    if a.b7 then 8 else if a.b6 then 7 else if a.b5 then 6 else if a.b4 then 5 else if a.b3 then 4
    else if a.b2 then 3 else if a.b1 then 2 else if a.b0 then 1 else 0
  }

  /** Shift and add: `sum` plus b * x^k for every coefficient k of a that is set, lowest first. */
  function ShiftAdd(a: Byte, b: Byte, sum: Byte): Byte
    decreases Length(a)
  {
    if a == Zero() then sum else ShiftAdd(Half(a), Double(b), if a.b0 then Xor(sum, b) else sum)
  }

  function Mul(a: Byte, b: Byte): Byte {
    ShiftAdd(a, b, Zero())
  }

  // ---- addition ------------------------------------------------------------------------------

  lemma XorLaws(a: Byte, b: Byte, c: Byte)
    ensures Xor(a, b) == Xor(b, a)
    ensures Xor(Xor(a, b), c) == Xor(a, Xor(b, c))
    ensures Xor(a, a) == Zero() && Xor(a, Zero()) == a
    ensures Xor(a, b) == Zero() ==> a == b
  {
  }

  lemma XorSwap(a: Byte, b: Byte, c: Byte, d: Byte)
    ensures Xor(Xor(a, b), Xor(c, d)) == Xor(Xor(a, c), Xor(b, d))
  {
  }

  lemma DoubleLinear(a: Byte, b: Byte)
    ensures Double(Xor(a, b)) == Xor(Double(a), Double(b))
  {
  }

  // ---- Mul is linear in both arguments -------------------------------------------------------

  /** Sum of b * x^k over the set bits k among the n low bits of a. */
  function MulBits(a: Byte, b: Byte, n: nat): Byte
    decreases n
  {
    if n == 0 then Zero()
    else Xor(if a.b0 then b else Zero(), MulBits(Half(a), Double(b), n - 1))
  }

  lemma MulBitsStep(a: Byte, b: Byte, n: nat)
    ensures MulBits(a, b, 0) == Zero()
    ensures MulBits(a, b, n + 1) == Xor(if a.b0 then b else Zero(), MulBits(Half(a), Double(b), n))
  {
  }

  lemma ShiftAddStep(a: Byte, b: Byte, sum: Byte)
    ensures ShiftAdd(Zero(), b, sum) == sum
    ensures a != Zero() ==> ShiftAdd(a, b, sum) == ShiftAdd(Half(a), Double(b), if a.b0 then Xor(sum, b) else sum)
    ensures a != Zero() ==> Length(Half(a)) < Length(a)
    ensures Length(a) <= 8
  {
  }

  lemma {:induction false} ShiftAddBits(a: Byte, b: Byte, n: nat, sum: Byte)
    requires Length(a) <= n
    ensures ShiftAdd(a, b, sum) == Xor(sum, MulBits(a, b, n))
    decreases n
  {
    hide *;
    XorLaws(sum, Zero(), Zero());
    ShiftAddStep(a, b, sum);
    if a == Zero() {
      MulBitsZero(b, n);
    } else {
      MulBitsStep(a, b, n - 1);
      ShiftAddBits(Half(a), Double(b), n - 1, if a.b0 then Xor(sum, b) else sum);
      XorLaws(sum, if a.b0 then b else Zero(), MulBits(Half(a), Double(b), n - 1));
    }
  }

  lemma MulEight(a: Byte, b: Byte)
    ensures Mul(a, b) == MulBits(a, b, 8)
  {
    hide Length, MulBits, Xor, ShiftAdd;
    ShiftAddStep(a, b, Zero());
    ShiftAddBits(a, b, 8, Zero());
    XorLaws(MulBits(a, b, 8), Zero(), Zero());
  }

  lemma {:induction false} MulBitsRight(a: Byte, b: Byte, c: Byte, n: nat)
    ensures MulBits(a, Xor(b, c), n) == Xor(MulBits(a, b, n), MulBits(a, c, n))
    decreases n
  {
    if n > 0 {
      DoubleLinear(b, c);
      var h := Half(a);
      MulBitsRight(h, Double(b), Double(c), n - 1);
      XorSwap(if a.b0 then b else Zero(), MulBits(h, Double(b), n - 1),
              if a.b0 then c else Zero(), MulBits(h, Double(c), n - 1));
    }
  }

  lemma HalfLinear(a: Byte, b: Byte)
    ensures Half(Xor(a, b)) == Xor(Half(a), Half(b))
  {
  }

  lemma MergeBit(p: bool, q: bool, c: Byte, left: Byte, right: Byte)
    ensures Xor(if p != q then c else Zero(), Xor(left, right))
         == Xor(Xor(if p then c else Zero(), left), Xor(if q then c else Zero(), right))
  {
    XorSwap(if p then c else Zero(), left, if q then c else Zero(), right);
  }

  lemma {:induction false} MulBitsLeft(a: Byte, b: Byte, c: Byte, n: nat)
    ensures MulBits(Xor(a, b), c, n) == Xor(MulBits(a, c, n), MulBits(b, c, n))
    decreases n
  {
    if n > 0 {
      var left, right := MulBits(Half(a), Double(c), n - 1), MulBits(Half(b), Double(c), n - 1);
      HalfLinear(a, b);
      assert MulBits(Half(Xor(a, b)), Double(c), n - 1) == Xor(left, right) by {
        MulBitsLeft(Half(a), Half(b), Double(c), n - 1);
      }
      assert MulBits(Xor(a, b), c, n) == Xor(if a.b0 != b.b0 then c else Zero(), Xor(left, right));
      MergeBit(a.b0, b.b0, c, left, right);
    }
  }

  lemma {:induction false} MulBitsDouble(a: Byte, b: Byte, n: nat)
    ensures MulBits(a, Double(b), n) == Double(MulBits(a, b, n))
    decreases n
  {
    if n > 0 {
      MulBitsDouble(Half(a), Double(b), n - 1);
      DoubleLinear(if a.b0 then b else Zero(), MulBits(Half(a), Double(b), n - 1));
    }
  }

  lemma {:induction false} MulBitsZero(b: Byte, n: nat)
    ensures MulBits(Zero(), b, n) == Zero() == MulBits(b, Zero(), n)
    decreases n
  {
    if n > 0 {
      MulBitsZero(Double(b), n - 1);
      MulBitsZero(Half(b), n - 1);
    }
  }

  /** Multiplication distributes over addition on both sides. */
  lemma Distributes(a: Byte, b: Byte, c: Byte)
    ensures Mul(a, Xor(b, c)) == Xor(Mul(a, b), Mul(a, c))
    ensures Mul(Xor(a, b), c) == Xor(Mul(a, c), Mul(b, c))
  {
    hide *;
    MulBitsRight(a, b, c, 8);
    MulBitsLeft(a, b, c, 8);
    MulEight(a, Xor(b, c)); MulEight(a, b); MulEight(a, c);
    MulEight(Xor(a, b), c); MulEight(b, c);
  }

  lemma MulZero(a: Byte)
    ensures Mul(Zero(), a) == Zero() == Mul(a, Zero())
  {
    hide *;
    MulBitsZero(a, 8);
    MulEight(Zero(), a); MulEight(a, Zero());
  }

  lemma MulOne(b: Byte)
    ensures Mul(One(), b) == b
  {
    MulBitsZero(Double(b), 7);
    assert Half(One()) == Zero() && One().b0;
    XorLaws(b, Zero(), Zero());
    MulBitsStep(One(), b, 7);
    MulEight(One(), b);
  }

  // ---- multiplication by x commutes with Mul -------------------------------------------------

  predicate Below(a: Byte, n: nat)
    decreases n
  {
    if n == 0 then a == Zero() else Below(Half(a), n - 1)
  }

  /** Bits above the degree of a add nothing. */
  lemma {:induction false} MulBitsHigh(a: Byte, b: Byte, n: nat)
    requires Below(a, n)
    ensures MulBits(a, b, n + 1) == MulBits(a, b, n)
    decreases n
  {
    if n > 0 {
      MulBitsHigh(Half(a), Double(b), n - 1);
    } else {
      assert MulBits(Half(a), Double(b), 0) == Zero();
    }
  }

  function Shift(a: Byte): Byte {
    Byte(a.b6, a.b5, a.b4, a.b3, a.b2, a.b1, a.b0, false)
  }

  function Low(a: Byte): Byte {
    Byte(false, a.b6, a.b5, a.b4, a.b3, a.b2, a.b1, a.b0)
  }

  function Top(): Byte { Byte(true, false, false, false, false, false, false, false) }

  function Modulus(): Byte { Byte(false, false, false, true, true, true, false, true) }

  lemma LowBelow(a: Byte)
    ensures Below(Low(a), 7)
  {
    var a1 := Half(Low(a)); var a2 := Half(a1); var a3 := Half(a2); var a4 := Half(a3);
    var a5 := Half(a4); var a6 := Half(a5); var a7 := Half(a6);
    assert a7 == Zero();
    assert Below(a7, 0); assert Below(a6, 1); assert Below(a5, 2); assert Below(a4, 3); assert Below(a3, 4);
    assert Below(a2, 5); assert Below(a1, 6);
  }

  lemma ShiftIs(a: Byte)
    ensures Half(Shift(a)) == Low(a) && !Shift(a).b0
  {
  }

  lemma MulShift(a: Byte, b: Byte)
    ensures Mul(Shift(a), b) == Mul(Low(a), Double(b))
  {
    hide *;
    MulEight(Shift(a), b);
    MulEight(Low(a), Double(b));
    ShiftIs(a);
    MulBitsStep(Shift(a), b, 7);
    LowBelow(a);
    MulBitsHigh(Low(a), Double(b), 7);
    XorLaws(Zero(), MulBits(Low(a), Double(b), 7), Zero());
    XorLaws(MulBits(Low(a), Double(b), 7), Zero(), Zero());
  }

  lemma DoubleTwo(b: Byte)
    ensures Double(Double(b)) == Byte(b.b5, b.b4, b.b3 != b.b7, (b.b2 != b.b7) != b.b6, (b.b1 != b.b7) != b.b6, b.b0 != b.b6, b.b7, b.b6)
  {
  }

  lemma DoubleThree(b: Byte)
    ensures Double(Double(Double(b))) == Byte(b.b4, b.b3 != b.b7, (b.b2 != b.b7) != b.b6, ((b.b1 != b.b7) != b.b6) != b.b5,
                                              (b.b0 != b.b6) != b.b5, b.b7 != b.b5, b.b6, b.b5)
  {
    DoubleTwo(b);
  }

  lemma DoubleFour(b: Byte)
    ensures Double(Double(Double(Double(b))))
         == Byte(b.b3 != b.b7, (b.b2 != b.b7) != b.b6, ((b.b1 != b.b7) != b.b6) != b.b5, ((b.b0 != b.b6) != b.b5) != b.b4,
                 (b.b7 != b.b5) != b.b4, b.b6 != b.b4, b.b5, b.b4)
  {
    DoubleThree(b);
  }

  /** x^8 reduces to the low part of the modulus. */
  lemma DoubleEight(b: Byte)
    ensures var d1 := Double(b); var d2 := Double(d1); var d3 := Double(d2); var d4 := Double(d3);
            Double(Double(Double(Double(d4)))) == Xor(b, Xor(d2, Xor(d3, d4)))
  {
    hide Double;
    DoubleTwo(b);
    DoubleThree(b);
    DoubleFour(b);
    DoubleFour(Double(Double(Double(Double(b)))));
  }

  lemma MulModulus(b: Byte)
    ensures var d2 := Double(Double(b)); var d3 := Double(d2); var d4 := Double(d3);
            Mul(Modulus(), b) == Xor(b, Xor(d2, Xor(d3, d4)))
  {
    hide Xor, Double, Mul;
    MulEight(Modulus(), b);
    var d1 := Double(b); var d2 := Double(d1); var d3 := Double(d2); var d4 := Double(d3);
    var d5 := Double(d4);
    var m1 := Byte(false, false, false, false, true, true, true, false);
    var m2 := Byte(false, false, false, false, false, true, true, true);
    var m3 := Byte(false, false, false, false, false, false, true, true);
    assert Half(Modulus()) == m1 && Half(m1) == m2 && Half(m2) == m3 && Half(m3) == One() && Half(One()) == Zero();
    MulBitsZero(d5, 3);
    XorLaws(d4, Zero(), Zero());
    assert MulBits(One(), d4, 4) == d4;
    assert MulBits(m3, d3, 5) == Xor(d3, d4);
    assert MulBits(m2, d2, 6) == Xor(d2, Xor(d3, d4));
    XorLaws(Zero(), Xor(d2, Xor(d3, d4)), Zero());
    XorLaws(Xor(d2, Xor(d3, d4)), Zero(), Zero());
    assert MulBits(m1, d1, 7) == Xor(d2, Xor(d3, d4));
  }

  function Shifted(b: Byte, n: nat): Byte {
    if n == 0 then b else Double(Shifted(b, n - 1))
  }

  function Monomial(n: nat): Byte
    requires n < 8
  {
    Byte(n == 7, n == 6, n == 5, n == 4, n == 3, n == 2, n == 1, n == 0)
  }

  lemma {:induction false} MulMonomial(k: nat, b: Byte, n: nat)
    requires k < n <= 8
    ensures MulBits(Monomial(k), b, n) == Shifted(b, k)
    decreases n
  {
    hide Xor, Double;
    if k == 0 {
      assert Half(Monomial(0)) == Zero();
      MulBitsZero(Double(b), n - 1);
      XorLaws(b, Zero(), Zero());
    } else {
      assert Half(Monomial(k)) == Monomial(k - 1);
      MulMonomial(k - 1, Double(b), n - 1);
      ShiftedInside(b, k);
      XorLaws(Shifted(b, k), Zero(), Zero());
      XorLaws(Zero(), Shifted(b, k), Zero());
    }
  }

  lemma {:induction false} ShiftedInside(b: Byte, k: nat)
    requires k > 0
    ensures Shifted(Double(b), k - 1) == Shifted(b, k)
  {
    if k > 1 {
      ShiftedInside(b, k - 1);
    }
  }

  lemma ShiftedSeven(b: Byte)
    ensures var d1 := Double(b); var d2 := Double(d1); var d3 := Double(d2); var d4 := Double(d3);
            Shifted(d1, 7) == Double(Double(Double(Double(d4))))
  {
    hide Double;
    var d1 := Double(b);
    assert Shifted(d1, 1) == Double(d1);
    assert Shifted(d1, 3) == Double(Double(Shifted(d1, 1)));
    assert Shifted(d1, 5) == Double(Double(Shifted(d1, 3)));
    assert Shifted(d1, 7) == Double(Double(Shifted(d1, 5)));
  }

  lemma TopIs()
    ensures Top() == Monomial(7)
  {
  }

  lemma SplitTop(a: Byte)
    ensures if a.b7 then Double(a) == Xor(Shift(a), Modulus()) && a == Xor(Low(a), Top())
            else Double(a) == Shift(a) && a == Low(a)
  {
  }

  lemma MulDouble(a: Byte, b: Byte)
    ensures Mul(Double(a), b) == Double(Mul(a, b)) == Mul(a, Double(b))
  {
    hide *;
    MulBitsDouble(a, b, 8);
    MulEight(a, Double(b));
    MulEight(a, b);
    SplitTop(a);
    MulShift(a, b);
    if a.b7 {
      TopIs();
      MulMonomial(7, Double(b), 8);
      MulEight(Monomial(7), Double(b));
      ShiftedSeven(b);
      DoubleEight(b);
      MulModulus(b);
      Distributes(Shift(a), Modulus(), b);
      Distributes(Low(a), Top(), Double(b));
    }
  }

  // ---- the multiplicative group is cyclic of order 255 ---------------------------------------

  /** Powers of the generator multiply by adding exponents. */
  lemma {:induction false} MulPowers(i: nat, j: nat)
    ensures Mul(Power(i), Power(j)) == Power(i + j)
  {
    hide Mul, Double;
    if i == 0 {
      MulOne(Power(j));
    } else {
      MulPowers(i - 1, j);
      MulDouble(Power(i - 1), Power(j));
    }
  }

  /** The Frobenius map on coefficients. */
  function Square(a: Byte): Byte {
    Byte(a.b6, (a.b3 != a.b5) != a.b6, a.b5, (a.b2 != a.b4) != (a.b5 != a.b7), a.b4 != a.b6,
         (a.b1 != a.b4) != (a.b5 != a.b6), a.b7, (a.b0 != a.b4) != (a.b6 != a.b7))
  }

  lemma SquareDouble(a: Byte)
    ensures Square(Double(a)) == Double(Double(Square(a)))
  {
  }

  lemma {:induction false} SquarePower(n: nat)
    ensures Square(Power(n)) == Power(2 * n)
  {
    if n > 0 {
      SquarePower(n - 1);
      SquareDouble(Power(n - 1));
      assert Power(2 * n) == Double(Power(2 * n - 1)) == Double(Double(Power(2 * n - 2)));
    }
  }

  lemma PowerOddStep(n: nat, p: Byte)
    requires Power(n) == p
    ensures Power(2 * n + 1) == Double(Square(p)) && Power(2 * n) == Square(p)
  {
    SquarePower(n);
  }

  /** The exponents that decide the order of the generator: 255 = 3 * 5 * 17. */
  lemma PowerWitnesses(n: nat)
    ensures n == 255 ==> Power(n) == One()
    ensures n in {15, 51, 85} ==> Power(n) != One()
  {
    hide Power;
    var p1 := Double(One()); PowerFirst(1);
    var p3 := Double(Square(p1)); PowerOddStep(1, p1);
    var p7 := Double(Square(p3)); PowerOddStep(3, p3);
    var p15 := Double(Square(p7)); PowerOddStep(7, p7);
    var p31 := Double(Square(p15)); PowerOddStep(15, p15);
    var p63 := Double(Square(p31)); PowerOddStep(31, p31);
    var p127 := Double(Square(p63)); PowerOddStep(63, p63);
    PowerOddStep(127, p127);
    var p6 := Square(p3);
    var p12 := Square(p6); PowerOddStep(6, p6);
    var p25 := Double(Square(p12)); PowerOddStep(12, p12);
    PowerOddStep(25, p25);
    var p2 := Square(p1);
    var p5 := Double(Square(p2)); PowerOddStep(2, p2);
    var p10 := Square(p5); PowerOddStep(5, p5);
    var p21 := Double(Square(p10)); PowerOddStep(10, p10);
    var p42 := Square(p21); PowerOddStep(21, p21);
    PowerOddStep(42, p42);
  }

  lemma PowerFirst(n: nat)
    requires n == 1
    ensures Power(n) == Double(One())
  {
    assert Power(n - 1) == One();
  }

  lemma {:induction false} PowerCancel(i: nat, j: nat)
    requires i <= j && Power(i) == Power(j)
    ensures Power(j - i) == One()
  {
    if i > 0 {
      PowerCancel(i - 1, j - 1);
    }
  }

  lemma {:induction false} PowerMultiple(g: nat, k: nat)
    requires Power(g) == One()
    ensures Power(g * k) == One()
  {
    if k > 0 {
      PowerMultiple(g, k - 1);
      MulPowers(g, g * (k - 1));
      MulOne(One());
    }
  }

  lemma {:induction false} CommonExponent(a: nat, b: nat) returns (g: nat, k: nat, l: nat)
    requires a > 0 && b > 0 && Power(a) == One() && Power(b) == One()
    ensures g > 0 && a == g * k && b == g * l && Power(g) == One()
    decreases a + b
  {
    if a == b {
      g, k, l := a, 1, 1;
    } else if a < b {
      PowerCancel(a, b);
      g, k, l := CommonExponent(a, b - a);
      l := k + l;
    } else {
      PowerCancel(b, a);
      g, k, l := CommonExponent(a - b, b);
      k := k + l;
    }
  }

  /** A proper divisor of 255 divides 15, 51 or 85. */
  lemma DivisorOf255(g: nat, q: nat) returns (k: nat)
    requires g * q == 255 && g < 255
    ensures g * k == 15 || g * k == 51 || g * k == 85
  {
    if q < 16 {
      assert q == 3 || q == 5 || q == 15 by {
        if q == 0 || q == 1 || q == 2 || q == 4 || q == 6 || q == 7 || q == 8 {
        } else if q == 9 || q == 10 || q == 11 || q == 12 || q == 13 || q == 14 {
        }
      }
      k := if q == 15 then 3 else 1;
    } else {
      assert g < 16;
      assert g == 1 || g == 3 || g == 5 || g == 15 by {
        if g == 0 || g == 2 || g == 4 || g == 6 || g == 7 || g == 8 {
        } else if g == 9 || g == 10 || g == 11 || g == 12 || g == 13 || g == 14 {
        }
      }
      k := if g == 1 then 15 else if g == 3 then 5 else if g == 5 then 3 else 1;
    }
  }

  lemma FactorBound(g: nat, k: nat)
    requires g * k > 0
    ensures g <= g * k
  {
    assert k >= 1;
  }

  lemma PowerNotOne(d: nat)
    requires 0 < d < 255
    ensures Power(d) != One()
  {
    hide Power;
    if Power(d) == One() {
      PowerWitnesses(255);
      var g, k, l := CommonExponent(d, 255);
      FactorBound(g, k);
      var m := DivisorOf255(g, l);
      PowerMultiple(g, m);
      PowerWitnesses(g * m);
    }
  }

  /** The first 255 powers are distinct ... */
  lemma {:induction false} PowerInjective(i: nat, j: nat)
    requires i < 255 && j < 255 && Power(i) == Power(j)
    ensures i == j
  {
    hide Power;
    if i < j {
      PowerCancel(i, j);
      PowerNotOne(j - i);
    } else if j < i {
      PowerCancel(j, i);
      PowerNotOne(i - j);
    }
  }

  lemma PowerPeriod(n: nat)
    ensures Power(n + 255) == Power(n)
  {
    hide Power;
    PowerWitnesses(255);
    MulPowers(255, n);
    MulOne(Power(n));
  }

  lemma {:induction false} PowerNonzero(n: nat)
    ensures Power(n) != Zero()
  {
    if n > 0 {
      PowerNonzero(n - 1);
    }
  }

  /** Coefficients, highest degree first. */
  function Bits(a: Byte): (s: seq<bool>)
    ensures |s| == 8
  {
    [a.b7, a.b6, a.b5, a.b4, a.b3, a.b2, a.b1, a.b0]
  }

  function FromBits(s: seq<bool>): Byte
    requires |s| == 8
  {
    Byte(s[0], s[1], s[2], s[3], s[4], s[5], s[6], s[7])
  }

  /** The byte as the number the program holds. */
  function ToNat(a: Byte): nat { Value(Bits(a)) }

  lemma ToNatInjective(a: Byte, b: Byte)
    requires ToNat(a) == ToNat(b)
    ensures a == b
  {
    hide Value;
    ValueInjective(Bits(a), Bits(b));
    assert a == FromBits(Bits(a)) && b == FromBits(Bits(b));
  }

  lemma ToNatBound(a: Byte)
    ensures ToNat(a) < 256
    ensures ToNat(a) == 0 <==> a == Zero()
  {
    hide Value;
    assert Pow2(8) == 256 by {
      assert Pow2(4) == 16;
    }
    ValueBound(Bits(a));
    assert ToNat(Zero()) == 0 by {
      ValueOfBits(0, 8);
      assert BitsOf(0, 8) == Bits(Zero()) by {
        assert BitsOf(0, 2) == [false, false];
        assert BitsOf(0, 4) == [false, false, false, false];
        assert BitsOf(0, 6) == [false, false, false, false, false, false];
      }
    }
    if ToNat(a) == 0 {
      ToNatInjective(a, Zero());
    }
  }

  function NatRange(n: nat): (s: set<nat>)
    ensures forall i: nat :: i in s <==> i < n
    ensures |s| == n
  {
    if n == 0 then {} else NatRange(n - 1) + {n - 1}
  }

  function PowerCodes(n: nat): set<nat> {
    if n == 0 then {} else PowerCodes(n - 1) + {ToNat(Power(n - 1))}
  }

  lemma {:induction false} PowerCodesMember(n: nat, c: nat) returns (i: nat)
    requires c in PowerCodes(n)
    ensures i < n && c == ToNat(Power(i))
  {
    hide ToNat, Power;
    if c == ToNat(Power(n - 1)) {
      i := n - 1;
    } else {
      i := PowerCodesMember(n - 1, c);
    }
  }

  lemma {:induction false} PowerCodesSize(n: nat)
    requires n <= 255
    ensures |PowerCodes(n)| == n
  {
    hide ToNat, Power;
    if n > 0 {
      PowerCodesSize(n - 1);
      var c := ToNat(Power(n - 1));
      if c in PowerCodes(n - 1) {
        var i := PowerCodesMember(n - 1, c);
        ToNatInjective(Power(i), Power(n - 1));
        PowerInjective(i, n - 1);
      }
    }
  }

  lemma PowerCodesNonzero(n: nat)
    ensures PowerCodes(n) <= NatRange(256) - {0}
  {
    hide ToNat, Power, NatRange, PowerCodes;
    forall c | c in PowerCodes(n)
      ensures c in NatRange(256) - {0}
    {
      var i := PowerCodesMember(n, c);
      PowerNonzero(i);
      ToNatBound(Power(i));
    }
  }

  lemma SubsetSameSize<T>(a: set<T>, b: set<T>)
    requires a <= b && |a| == |b|
    ensures a == b
  {
    if x :| x in b && x !in a {
      var c := b - {x};
      assert a <= c;
      SubsetSize(a, c);
    }
  }

  /** ... and exhaust the nonzero bytes. */
  lemma PowerSurjective(a: Byte) returns (i: nat)
    requires a != Zero()
    ensures i < 255 && Power(i) == a
  {
    hide Power, ToNat, PowerCodes, NatRange;
    ToNatBound(a);
    PowerCodesSize(255);
    PowerCodesNonzero(255);
    var nonzero := NatRange(256) - {0};
    SubsetSameSize(PowerCodes(255), nonzero);
    assert ToNat(a) in nonzero;
    i := PowerCodesMember(255, ToNat(a));
    ToNatInjective(a, Power(i));
  }

  // ---- field laws ----------------------------------------------------------------------------

  lemma MulCommutes(a: Byte, b: Byte)
    ensures Mul(a, b) == Mul(b, a)
  {
    hide *;
    MulZero(a);
    MulZero(b);
    if a != Zero() && b != Zero() {
      var i := PowerSurjective(a);
      var j := PowerSurjective(b);
      MulPowers(i, j);
      MulPowers(j, i);
    }
  }

  lemma MulAssociates(a: Byte, b: Byte, c: Byte)
    ensures Mul(Mul(a, b), c) == Mul(a, Mul(b, c))
  {
    hide *;
    MulZero(a);
    MulZero(b);
    MulZero(c);
    MulZero(Mul(a, b));
    MulZero(Mul(b, c));
    if a != Zero() && b != Zero() && c != Zero() {
      var i := PowerSurjective(a);
      var j := PowerSurjective(b);
      var k := PowerSurjective(c);
      MulPowers(i, j);
      MulPowers(i + j, k);
      MulPowers(j, k);
      MulPowers(i, j + k);
    }
  }

  lemma NoZeroDivisors(a: Byte, b: Byte)
    requires Mul(a, b) == Zero()
    ensures a == Zero() || b == Zero()
  {
    hide *;
    if a != Zero() && b != Zero() {
      var i := PowerSurjective(a);
      var j := PowerSurjective(b);
      MulPowers(i, j);
      PowerNonzero(i + j);
    }
  }

  // ---- the program's tables ------------------------------------------------------------------

  datatype Tables = Tables(exp: seq<Byte>, log: seq<nat>) {
    ghost predicate Valid() {
      && |exp| == 512 && |log| == 256
      && (forall i: nat :: i < 512 ==> exp[i] == Power(i))
      && (forall i: nat :: i < 255 ==> LogAt(log, Power(i)) == i)
    }

    /** Table lookup multiplies in the field. */
    function GfMul(a: Byte, b: Byte): (r: Byte)
      requires Valid()
      ensures r == Mul(a, b)
    {
      LookupMul(this, a, b);
      if a == Zero() || b == Zero() then Zero() else exp[log[ToNat(a)] + log[ToNat(b)]]
    }
  }

  function LogAt(log: seq<nat>, a: Byte): nat
    requires |log| == 256
  {
    ToNatBound(a);
    log[ToNat(a)]
  }

  lemma LookupMul(t: Tables, a: Byte, b: Byte)
    requires t.Valid()
    ensures ToNat(a) < 256 && ToNat(b) < 256
    ensures a == Zero() || b == Zero() ==> Mul(a, b) == Zero()
    ensures a != Zero() && b != Zero() ==>
              t.log[ToNat(a)] + t.log[ToNat(b)] < 512 && t.exp[t.log[ToNat(a)] + t.log[ToNat(b)]] == Mul(a, b)
  {
    hide Mul, Power, ToNat, Zero;
    ToNatBound(a);
    ToNatBound(b);
    MulZero(a);
    MulZero(b);
    if a != Zero() && b != Zero() {
      var i := PowerSurjective(a);
      var j := PowerSurjective(b);
      assert LogAt(t.log, Power(i)) == i && LogAt(t.log, Power(j)) == j;
      MulPowers(i, j);
    }
  }

  /** One pass over the powers fills both tables; the second half of `exp` repeats the first. */
  method BuildTables() returns (t: Tables)
    ensures t.Valid()
  {
    hide Power, ToNat;
    var exp: seq<Byte> := seq(512, _ => Zero());
    var log: seq<nat> := seq(256, _ => 0);
    var x := One();
    assert x == Power(0) by {
      PowerZero();
    }
    for i := 0 to 255
      invariant |exp| == 512 && |log| == 256
      invariant x == Power(i)
      invariant forall j: nat :: j < i ==> exp[j] == Power(j)
      invariant forall j: nat :: j < i ==> LogAt(log, Power(j)) == j
    {
      exp := exp[i := x];
      ToNatBound(x);
      ghost var was := log;
      log := log[ToNat(x) := i];
      forall j: nat | j < i
        ensures LogAt(log, Power(j)) == j
      {
        ToNatBound(Power(j));
        assert was[ToNat(Power(j))] == LogAt(was, Power(j)) == j;
        if ToNat(Power(j)) == ToNat(x) {
          ToNatInjective(Power(j), Power(i));
          PowerInjective(j, i);
        }
      }
      x := Double(x);
      assert x == Power(i + 1) by {
        PowerStep(i);
      }
    }
    for i := 255 to 512
      invariant |exp| == 512
      invariant forall j: nat :: j < i ==> exp[j] == Power(j)
    {
      exp := exp[i := exp[i - 255]];
      PowerPeriod(i - 255);
    }
    t := Tables(exp, log);
  }

  lemma PowerZero()
    ensures Power(0) == One()
  {
  }

  lemma PowerStep(n: nat)
    ensures Power(n + 1) == Double(Power(n))
  {
  }
}
