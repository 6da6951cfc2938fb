/** The Reed-Solomon code of the QR symbol: generator, remainder, syndromes.

    A polynomial is the sequence of its coefficients, highest degree first, and a block is a codeword when it
    vanishes at the first `ecLen` powers of the generator of the field. Two results carry the module: appending
    the remainder always makes a codeword, and no two codewords of length at most 255 differ in between 1 and
    `ecLen` places. */
module ReedSolomon {
  import opened Gf256

  /** Value of the polynomial at x, by Horner's rule. */
  function Eval(p: seq<Byte>, x: Byte): Byte {
    if p == [] then Zero() else Xor(Mul(Eval(p[..|p| - 1], x), x), p[|p| - 1])
  }

  ghost predicate Codeword(block: seq<Byte>, ecLen: nat) {
    forall k: nat :: k < ecLen ==> Eval(block, Power(k)) == Zero()
  }

  function PowerOf(x: Byte, n: nat): Byte {
    if n == 0 then One() else Mul(PowerOf(x, n - 1), x)
  }

  lemma {:induction false} PowerOfPower(k: nat, n: nat, m: nat)
    requires m == k * n
    ensures PowerOf(Power(k), n) == Power(m)
  {
    hide Mul, Power;
    if n == 0 {
      PowerZero();
    } else {
      assert m - k == k * (n - 1);
      PowerOfPower(k, n - 1, m - k);
      MulPowers(m - k, k);
    }
  }

  // ---- evaluation ----------------------------------------------------------------------------

  lemma EvalSnoc(p: seq<Byte>, b: Byte, x: Byte)
    ensures Eval(p + [b], x) == Xor(Mul(Eval(p, x), x), b)
  {
    assert (p + [b])[..|p|] == p;
  }

  function XorAll(p: seq<Byte>, q: seq<Byte>): (r: seq<Byte>)
    requires |p| == |q|
    ensures |r| == |p|
  {
    seq(|p|, i requires 0 <= i < |p| => Xor(p[i], q[i]))
  }

  lemma {:induction false} EvalXor(p: seq<Byte>, q: seq<Byte>, x: Byte)
    requires |p| == |q|
    ensures Eval(XorAll(p, q), x) == Xor(Eval(p, x), Eval(q, x))
  {
    hide Mul, Xor;
    if p == [] {
      XorLaws(Zero(), Zero(), Zero());
    } else {
      var n := |p| - 1;
      assert XorAll(p, q)[..n] == XorAll(p[..n], q[..n]);
      EvalXor(p[..n], q[..n], x);
      Distributes(Eval(p[..n], x), Eval(q[..n], x), x);
      XorSwap(Mul(Eval(p[..n], x), x), Mul(Eval(q[..n], x), x), p[n], q[n]);
    }
  }

  // ---- the generator polynomial --------------------------------------------------------------

  function Coef(p: seq<Byte>, i: int): Byte {
    if 0 <= i < |p| then p[i] else Zero()
  }

  /** p * (x + c). */
  function TimesLinear(p: seq<Byte>, c: Byte): (q: seq<Byte>)
    ensures |q| == |p| + 1
  {
    seq(|p| + 1, i => Xor(Coef(p, i), Mul(Coef(p, i - 1), c)))
  }

  /** (x + a^0)(x + a^1) ... (x + a^(degree-1)). */
  function Generator(degree: nat): (g: seq<Byte>)
    ensures |g| == degree + 1
  {
    if degree == 0 then [One()] else TimesLinear(Generator(degree - 1), Power(degree - 1))
  }

  lemma {:induction false} GeneratorMonic(degree: nat)
    ensures Generator(degree)[0] == One()
  {
    hide Mul, Xor, Power;
    if degree > 0 {
      GeneratorMonic(degree - 1);
      MulZero(Power(degree - 1));
      XorLaws(One(), Zero(), Zero());
    }
  }

  lemma EvalSplit(p: seq<Byte>, x: Byte)
    requires p != []
    ensures Eval(p, x) == Xor(Mul(Eval(p[..|p| - 1], x), x), p[|p| - 1])
  {
  }

  lemma EvalEmpty(x: Byte)
    ensures Eval([], x) == Zero()
  {
  }

  lemma TimesLinearAt(p: seq<Byte>, c: Byte, k: nat)
    requires k <= |p|
    ensures TimesLinear(p, c)[k] == Xor(Coef(p, k), Mul(Coef(p, k - 1), c))
  {
    hide Mul, Xor;
  }

  /** Value of the first k coefficients, with zeros after the last. */
  function EvalPrefix(p: seq<Byte>, k: nat, x: Byte): Byte {
    if k == 0 then Zero() else Xor(Mul(EvalPrefix(p, k - 1, x), x), Coef(p, k - 1))
  }

  lemma PrefixStep(p: seq<Byte>, k: nat, x: Byte)
    ensures EvalPrefix(p, 0, x) == Zero()
    ensures EvalPrefix(p, k + 1, x) == Xor(Mul(EvalPrefix(p, k, x), x), Coef(p, k))
  {
  }

  lemma {:induction false} PrefixIsEval(p: seq<Byte>, k: nat, x: Byte)
    requires k <= |p|
    ensures EvalPrefix(p, k, x) == Eval(p[..k], x)
  {
    hide Mul, Xor;
    if k > 0 {
      PrefixIsEval(p, k - 1, x);
      assert p[..k][..k - 1] == p[..k - 1];
    }
  }

  /** Multiplying by (x + c), prefix by prefix. */
  lemma {:induction false} EvalTimesPrefix(p: seq<Byte>, c: Byte, x: Byte, k: nat)
    requires k <= |p|
    ensures EvalPrefix(TimesLinear(p, c), k + 1, x) == Xor(EvalPrefix(p, k + 1, x), Mul(EvalPrefix(p, k, x), c))
  {
    hide *;
    var q := TimesLinear(p, c);
    TimesLinearAt(p, c, k);
    CoefInside(q, k);
    PrefixStep(q, k, x);
    PrefixStep(p, k, x);
    if k == 0 {
      CoefOutside(p, -1);
      MulZero(c);
      XorLaws(Coef(p, 0), Zero(), Zero());
      XorLaws(EvalPrefix(p, 1, x), Zero(), Zero());
    } else {
      EvalTimesPrefix(p, c, x, k - 1);
      PrefixStep(p, k - 1, x);
      var e, f, b, d := EvalPrefix(p, k, x), EvalPrefix(p, k - 1, x), Coef(p, k), Coef(p, k - 1);
      Distributes(e, Mul(f, c), x);
      Distributes(Mul(f, x), d, c);
      MulAssociates(f, c, x);
      MulAssociates(f, x, c);
      MulCommutes(c, x);
      XorSwap(Mul(e, x), Mul(Mul(f, c), x), b, Mul(d, c));
    }
  }

  lemma CoefBeyond(p: seq<Byte>, k: int)
    requires k >= |p|
    ensures Coef(p, k) == Zero()
  {
  }

  /** The generator vanishes at each of the first `degree` powers. */
  lemma {:induction false} GeneratorRoots(degree: nat, k: nat)
    requires k < degree
    ensures Eval(Generator(degree), Power(k)) == Zero()
  {
    hide *;
    var g, c := Generator(degree - 1), Power(degree - 1);
    GeneratorStep(degree);
    var x := Power(k);
    assert Eval(Generator(degree), x) == Mul(Eval(g, x), Xor(x, c)) by {
      EvalTimesPrefix(g, c, x, degree);
      assert g[..degree] == g && Generator(degree)[..degree + 1] == Generator(degree);
      PrefixIsEval(g, degree, x);
      PrefixIsEval(Generator(degree), degree + 1, x);
      PrefixStep(g, degree, x);
      CoefBeyond(g, degree);
      XorLaws(Mul(Eval(g, x), x), Zero(), Zero());
      Distributes(Eval(g, x), x, c);
    }
    if k < degree - 1 {
      GeneratorRoots(degree - 1, k);
      MulZero(Xor(Power(k), c));
    } else {
      XorLaws(c, c, c);
      MulZero(Eval(g, c));
    }
  }

  lemma GeneratorStep(degree: nat)
    requires degree > 0
    ensures Generator(degree) == TimesLinear(Generator(degree - 1), Power(degree - 1))
  {
  }

  // ---- division: the check bytes of a block --------------------------------------------------

  /** One step of the shift register: drop the head, add `byte` + head times the divisor. */
  function Feed(register: seq<Byte>, divisor: seq<Byte>, byte: Byte): (r: seq<Byte>)
    requires |register| == |divisor| > 0
    ensures |r| == |register|
  {
    var factor := Xor(byte, register[0]);
    seq(|divisor|, i requires 0 <= i < |divisor| => Xor(Coef(register, i + 1), Mul(divisor[i], factor)))
  }

  function Remainder(data: seq<Byte>, degree: nat): (r: seq<Byte>)
    requires degree > 0
    ensures |r| == degree
  {
    if data == [] then seq(degree, _ => Zero())
    else Feed(Remainder(data[..|data| - 1], degree), Generator(degree)[1..], data[|data| - 1])
  }

  lemma {:induction false} EvalConcat(p: seq<Byte>, q: seq<Byte>, x: Byte)
    ensures Eval(p + q, x) == Xor(Mul(Eval(p, x), PowerOf(x, |q|)), Eval(q, x))
  {
    hide Mul, Xor;
    if q == [] {
      assert p + q == p;
      MulCommutes(Eval(p, x), One());
      MulOne(Eval(p, x));
      XorLaws(Eval(p, x), Zero(), Zero());
    } else {
      var n := |q| - 1;
      EvalConcat(p, q[..n], x);
      assert p + q == (p + q[..n]) + [q[n]];
      EvalSnoc(p + q[..n], q[n], x);
      var a, b, c := Eval(p, x), PowerOf(x, n), Eval(q[..n], x);
      Distributes(Mul(a, b), c, x);
      MulAssociates(a, b, x);
      XorLaws(Mul(a, Mul(b, x)), Mul(c, x), q[n]);
    }
  }

  lemma {:induction false} EvalScale(p: seq<Byte>, q: seq<Byte>, c: Byte, x: Byte)
    requires |q| == |p| && forall i :: 0 <= i < |p| ==> q[i] == Mul(p[i], c)
    ensures Eval(q, x) == Mul(Eval(p, x), c)
  {
    hide Mul, Xor;
    if p == [] {
      MulZero(c);
    } else {
      var n := |p| - 1;
      EvalScale(p[..n], q[..n], c, x);
      Distributes(Mul(Eval(p[..n], x), x), p[n], c);
      MulAssociates(Eval(p[..n], x), x, c);
      MulAssociates(Eval(p[..n], x), c, x);
      MulCommutes(c, x);
    }
  }

  lemma EvalOne(b: Byte, x: Byte)
    ensures Eval([b], x) == b
  {
    hide Mul, Xor;
    EvalSnoc([], b, x);
    EvalEmpty(x);
    MulZero(x);
    XorLaws(Zero(), b, Zero());
    XorLaws(b, Zero(), Zero());
    assert [] + [b] == [b];
  }

  lemma PowerOfStep(x: Byte, n: nat)
    requires n > 0
    ensures PowerOf(x, n) == Mul(PowerOf(x, n - 1), x)
  {
  }

  /** Dropping the head and shifting in a zero multiplies by x, less the head's x^n. */
  lemma EvalShift(register: seq<Byte>, shifted: seq<Byte>, x: Byte)
    requires |shifted| == |register| > 0
    requires shifted == register[1..] + [Zero()]
    ensures Xor(Eval(shifted, x), Mul(register[0], PowerOf(x, |register|))) == Mul(Eval(register, x), x)
  {
    hide *;
    PowerOfStep(x, |register|);
    var tail := register[1..];
    var h, r, t := register[0], PowerOf(x, |register| - 1), Eval(tail, x);
    assert Eval(shifted, x) == Mul(t, x) by {
      EvalSnoc(tail, Zero(), x);
      XorLaws(Mul(t, x), Zero(), Zero());
    }
    assert Eval(register, x) == Xor(Mul(h, r), t) by {
      assert register == [h] + tail;
      EvalConcat([h], tail, x);
      EvalOne(h, x);
    }
    Distributes(Mul(h, r), t, x);
    MulAssociates(h, r, x);
    XorLaws(Mul(t, x), Mul(h, Mul(r, x)), Zero());
  }

  lemma FeedSplit(register: seq<Byte>, divisor: seq<Byte>, byte: Byte, shifted: seq<Byte>, scaled: seq<Byte>)
    requires |register| == |divisor| == |shifted| == |scaled| > 0
    requires shifted == register[1..] + [Zero()]
    requires forall i :: 0 <= i < |divisor| ==> scaled[i] == Mul(divisor[i], Xor(byte, register[0]))
    ensures Feed(register, divisor, byte) == XorAll(shifted, scaled)
  {
    hide Mul, Xor;
    forall i | 0 <= i < |divisor|
      ensures Feed(register, divisor, byte)[i] == XorAll(shifted, scaled)[i]
    {
      assert shifted[i] == Coef(register, i + 1);
    }
  }

  /** At a root of the generator, feeding a byte adds it times x^n and multiplies the register by x. */
  lemma FeedAtRoot(register: seq<Byte>, divisor: seq<Byte>, byte: Byte, x: Byte)
    requires |register| == |divisor| > 0
    requires Eval([One()] + divisor, x) == Zero()
    ensures Eval(Feed(register, divisor, byte), x)
         == Xor(Mul(Eval(register, x), x), Mul(byte, PowerOf(x, |register|)))
  {
    hide *;
    var n, factor := |register|, Xor(byte, register[0]);
    var shifted := register[1..] + [Zero()];
    var scaled := seq(n, i requires 0 <= i < n => Mul(divisor[i], factor));
    FeedSplit(register, divisor, byte, shifted, scaled);
    EvalXor(shifted, scaled, x);
    EvalScale(divisor, scaled, factor, x);
    EvalShift(register, shifted, x);
    var p := PowerOf(x, n);
    assert Eval(divisor, x) == p by {
      EvalConcat([One()], divisor, x);
      EvalOne(One(), x);
      MulOne(p);
      XorLaws(p, Eval(divisor, x), Zero());
    }
    MulCommutes(p, factor);
    Distributes(byte, register[0], p);
    var head, tail := Mul(register[0], p), Eval(shifted, x);
    XorSwap(tail, head, Mul(byte, p), Zero());
    XorLaws(Mul(byte, p), head, Zero());
    XorLaws(Mul(byte, p), Zero(), Zero());
    XorLaws(tail, head, Mul(byte, p));
  }

  /** Appending the remainder makes a codeword. */
  lemma {:induction false} RemainderAtRoot(data: seq<Byte>, degree: nat, k: nat)
    requires k < degree
    ensures Eval(data + Remainder(data, degree), Power(k)) == Zero()
  {
    hide *;
    var x, r, n := Power(k), Remainder(data, degree), |data| - 1;
    EvalConcat(data, r, x);
    if data == [] {
      EmptyRemainder(degree, x);
      EvalEmpty(x);
      MulZero(PowerOf(x, |r|));
      XorLaws(Zero(), Zero(), Zero());
    } else {
      var was, divisor := Remainder(data[..n], degree), Generator(degree)[1..];
      RemainderAtRoot(data[..n], degree, k);
      EvalConcat(data[..n], was, x);
      RemainderStep(data, degree);
      GeneratorRoots(degree, k);
      GeneratorMonic(degree);
      assert [One()] + divisor == Generator(degree);
      FeedAtRoot(was, divisor, data[n], x);
      EvalSplit(data, x);
      var d, p, e := Eval(data[..n], x), PowerOf(x, degree), Eval(was, x);
      XorLaws(Mul(d, p), e, Zero());
      Distributes(Mul(d, x), data[n], p);
      MulAssociates(d, x, p);
      MulCommutes(x, p);
      MulAssociates(d, p, x);
      var y, z := Mul(e, x), Mul(data[n], p);
      XorLaws(Xor(y, z), Zero(), Zero());
    }
  }

  lemma RemainderStep(data: seq<Byte>, degree: nat)
    requires degree > 0 && data != []
    ensures Remainder(data, degree)
         == Feed(Remainder(data[..|data| - 1], degree), Generator(degree)[1..], data[|data| - 1])
  {
  }

  lemma EmptyRemainder(degree: nat, x: Byte)
    requires degree > 0
    ensures Eval(Remainder([], degree), x) == Zero()
  {
    hide Mul, Xor, Eval;
    var zeros := Remainder([], degree);
    XorLaws(Zero(), Zero(), Zero());
    assert XorAll(zeros, zeros) == zeros;
    EvalXor(zeros, zeros, x);
    XorLaws(Eval(zeros, x), Zero(), Zero());
  }

  /** Every data sequence and its remainder form a codeword. */
  lemma RemainderCodeword(data: seq<Byte>, degree: nat)
    requires degree > 0
    ensures Codeword(data + Remainder(data, degree), degree)
  {
    hide Eval, Power;
    forall k: nat | k < degree
      ensures Eval(data + Remainder(data, degree), Power(k)) == Zero()
    {
      RemainderAtRoot(data, degree, k);
    }
  }

  // ---- the program's loops -------------------------------------------------------------------

  /** Multiplies out the generator in a list of fixed length; the leading one falls off at the end. */
  method RsDivisor(gf: Tables, degree: nat) returns (result: seq<Byte>)
    requires gf.Valid() && degree > 0
    ensures [One()] + result == Generator(degree)
  {
    hide Mul, Xor, Power, Tables.Valid, Generator, TimesLinear, One, Zero;
    result := seq(degree - 1, _ => Zero()) + [One()];
    var root := One();
    GeneratorStart();
    PowerZero();
    for r := 0 to degree
      invariant |result| == degree && root == Power(r)
      invariant forall j :: 0 <= j < degree ==> result[j] == Coef(Generator(r), j + r + 1 - degree)
    {
      ghost var was := result;
      for j := 0 to degree
        invariant |result| == degree
        invariant forall i :: j <= i < degree ==> result[i] == was[i]
        invariant forall i :: 0 <= i < j ==> result[i] == Coef(Generator(r + 1), i + r + 2 - degree)
      {
        GeneratorCoef(r, j + r + 2 - degree);
        result := result[j := gf.GfMul(result[j], root)];
        if j + 1 < degree {
          result := result[j := Xor(result[j], result[j + 1])];
          XorLaws(gf.GfMul(was[j], root), was[j + 1], Zero());
        } else {
          CoefBeyond(Generator(r), r + 1);
          XorLaws(Zero(), gf.GfMul(was[j], root), Zero());
          XorLaws(gf.GfMul(was[j], root), Zero(), Zero());
        }
      }
      root := gf.GfMul(root, Byte(false, false, false, false, false, false, true, false));
      PowerTwo();
      MulPowers(r, 1);
    }
    GeneratorMonic(degree);
    assert forall j :: 0 <= j < degree ==> result[j] == Generator(degree)[j + 1];
  }

  lemma GeneratorStart()
    ensures Generator(0) == [One()]
  {
  }

  lemma GeneratorCoef(r: nat, i: int)
    ensures Coef(Generator(r + 1), i) == Xor(Coef(Generator(r), i), Mul(Coef(Generator(r), i - 1), Power(r)))
  {
    hide *;
    GeneratorStep(r + 1);
    var g := Generator(r);
    MulZero(Power(r));
    XorLaws(Zero(), Zero(), Zero());
    CoefOutside(g, i - 1);
    CoefOutside(g, i);
    CoefOutside(Generator(r + 1), i);
    if 0 <= i <= |g| {
      TimesLinearAt(g, Power(r), i);
      CoefInside(Generator(r + 1), i);
    }
  }

  lemma CoefOutside(p: seq<Byte>, i: int)
    ensures i < 0 || i >= |p| ==> Coef(p, i) == Zero()
  {
  }

  lemma CoefInside(p: seq<Byte>, i: int)
    requires 0 <= i < |p|
    ensures Coef(p, i) == p[i]
  {
  }

  lemma PowerTwo()
    ensures Power(1) == Byte(false, false, false, false, false, false, true, false)
  {
    assert Power(0) == One();
  }

  lemma RemainderStart(degree: nat)
    requires degree > 0
    ensures Remainder([], degree) == seq(degree, _ => Zero())
  {
  }

  lemma FeedFromLoop(register: seq<Byte>, divisor: seq<Byte>, byte: Byte, result: seq<Byte>)
    requires |register| == |divisor| == |result| > 0
    requires forall k :: 0 <= k < |result| ==>
               result[k] == Xor(Coef(register, k + 1), Mul(divisor[k], Xor(byte, register[0])))
    ensures result == Feed(register, divisor, byte)
  {
    hide Mul, Xor;
  }

  method RsRemainder(gf: Tables, data: seq<Byte>, degree: nat) returns (result: seq<Byte>)
    requires gf.Valid() && degree > 0
    ensures result == Remainder(data, degree)
  {
    hide Mul, Xor, Power, Tables.Valid, Generator, Zero, Feed, Remainder;
    var divisor := RsDivisor(gf, degree);
    assert divisor == Generator(degree)[1..];
    result := seq(degree, _ => Zero());
    RemainderStart(degree);
    assert data[..0] == [];
    for n := 0 to |data|
      invariant |result| == degree && result == Remainder(data[..n], degree)
    {
      ghost var register := result;
      var byte := data[n];
      var factor := Xor(byte, result[0]);
      result := result[1..];
      result := result + [Zero()];
      ghost var shifted := result;
      assert forall i :: 0 <= i < degree ==> shifted[i] == Coef(register, i + 1);
      for i := 0 to |divisor|
        invariant |result| == degree
        invariant forall k :: 0 <= k < i ==> result[k] == Xor(shifted[k], Mul(divisor[k], factor))
        invariant forall k :: i <= k < degree ==> result[k] == shifted[k]
      {
        result := result[i := Xor(result[i], gf.GfMul(divisor[i], factor))];
      }
      FeedFromLoop(register, divisor, byte, result);
      assert data[..n + 1][..n] == data[..n];
      RemainderStep(data[..n + 1], degree);
    }
    assert data[..|data|] == data;
  }

  method RsSyndromes(gf: Tables, codeword: seq<Byte>, ecLen: nat) returns (out: seq<Byte>)
    requires gf.Valid() && ecLen <= 512
    ensures |out| == ecLen && forall k :: 0 <= k < ecLen ==> out[k] == Eval(codeword, Power(k))
  {
    hide Mul, Xor, Power, Zero;
    out := [];
    for root := 0 to ecLen
      invariant |out| == root && forall k :: 0 <= k < root ==> out[k] == Eval(codeword, Power(k))
    {
      var value := Zero();
      EvalEmpty(Power(root));
      assert codeword[..0] == [];
      for n := 0 to |codeword|
        invariant value == Eval(codeword[..n], Power(root))
      {
        assert gf.exp[root] == Power(root);
        assert codeword[..n + 1] == codeword[..n] + [codeword[n]];
        EvalSnoc(codeword[..n], codeword[n], Power(root));
        value := Xor(gf.GfMul(value, gf.exp[root]), codeword[n]);
      }
      assert codeword[..|codeword|] == codeword;
      out := out + [value];
    }
  }
}
