/** How much damage the syndrome check of a block is certain to see.

    A nonzero error of weight at most `ecLen` in a block of at most 255 bytes would be a nonzero solution of a
    square Vandermonde system at distinct points; eliminating one point at a time shows there is none. */
module ErrorDetection {
  import opened Gf256
  import opened ReedSolomon

  /** Sum of ys[i] * xs[i]^k. */
  function Moment(xs: seq<Byte>, ys: seq<Byte>, k: nat): Byte
    requires |xs| == |ys|
  {
    if xs == [] then Zero()
    else
      var n := |xs| - 1;
      Xor(Moment(xs[..n], ys[..n], k), Mul(ys[n], PowerOf(xs[n], k)))
  }

  ghost predicate Distinct(xs: seq<Byte>) {
    forall i, j :: 0 <= i < j < |xs| ==> xs[i] != xs[j]
  }

  /** ys[i] * (xs[i] + x): removes the point x from the system. */
  function Eliminate(xs: seq<Byte>, ys: seq<Byte>, x: Byte): (zs: seq<Byte>)
    requires |xs| == |ys|
    ensures |zs| == |xs|
  {
    seq(|xs|, i requires 0 <= i < |xs| => Mul(ys[i], Xor(xs[i], x)))
  }

  lemma {:induction false} MomentEliminate(xs: seq<Byte>, ys: seq<Byte>, x: Byte, k: nat)
    requires |xs| == |ys|
    ensures Moment(xs, Eliminate(xs, ys, x), k) == Xor(Moment(xs, ys, k + 1), Mul(x, Moment(xs, ys, k)))
  {
    hide Mul, Xor;
    if xs == [] {
      MulZero(x);
      XorLaws(Zero(), Zero(), Zero());
    } else {
      var n := |xs| - 1;
      MomentEliminate(xs[..n], ys[..n], x, k);
      assert Eliminate(xs, ys, x)[..n] == Eliminate(xs[..n], ys[..n], x);
      var m1, m0, y, a, p := Moment(xs[..n], ys[..n], k + 1), Moment(xs[..n], ys[..n], k), ys[n], xs[n], PowerOf(xs[n], k);
      Distributes(y, a, x);
      Distributes(Mul(y, a), Mul(y, x), p);
      MulAssociates(y, a, p);
      MulCommutes(a, p);
      Distributes(x, m0, Mul(y, p));
      MulCommutes(y, x);
      MulAssociates(x, y, p);
      XorSwap(m1, Mul(x, m0), Mul(y, Mul(p, a)), Mul(x, Mul(y, p)));
    }
  }

  /** A Vandermonde system at distinct points has only the zero solution. */
  lemma {:induction false} OnlyZero(xs: seq<Byte>, ys: seq<Byte>)
    requires |xs| == |ys| && Distinct(xs)
    requires forall k: nat :: k < |xs| ==> Moment(xs, ys, k) == Zero()
    ensures forall i :: 0 <= i < |ys| ==> ys[i] == Zero()
    decreases |xs|
  {
    hide Mul, Xor, PowerOf;
    if xs != [] {
      var n := |xs| - 1;
      var x := xs[n];
      var zs := Eliminate(xs, ys, x);
      forall k: nat | k < n
        ensures Moment(xs[..n], zs[..n], k) == Zero()
      {
        MomentEliminate(xs, ys, x, k);
        assert Moment(xs, ys, k + 1) == Zero() && Moment(xs, ys, k) == Zero();
        MulZero(x);
        XorLaws(Zero(), Zero(), Zero());
        LastVanishes(xs, ys, k);
      }
      OnlyZero(xs[..n], zs[..n]);
      forall i | 0 <= i < n
        ensures ys[i] == Zero()
      {
        assert zs[..n][i] == Mul(ys[i], Xor(xs[i], x));
        NoZeroDivisors(ys[i], Xor(xs[i], x));
        XorLaws(xs[i], x, Zero());
      }
      assert Moment(xs, ys, 0) == Zero();
      LastAlone(xs, ys);
    }
  }

  lemma LastVanishes(xs: seq<Byte>, ys: seq<Byte>, k: nat)
    requires |xs| == |ys| > 0
    ensures var n := |xs| - 1; var zs := Eliminate(xs, ys, xs[n]);
            Moment(xs, zs, k) == Moment(xs[..n], zs[..n], k)
  {
    hide Mul, Xor, PowerOf;
    var n := |xs| - 1;
    XorLaws(xs[n], xs[n], Zero());
    MulZero(ys[n]);
    MulZero(PowerOf(xs[n], k));
    XorLaws(Moment(xs[..n], Eliminate(xs, ys, xs[n])[..n], k), Zero(), Zero());
  }

  lemma {:induction false} ZerosMoment(xs: seq<Byte>, ys: seq<Byte>, k: nat)
    requires |xs| == |ys| && forall i :: 0 <= i < |ys| ==> ys[i] == Zero()
    ensures Moment(xs, ys, k) == Zero()
  {
    hide Mul, Xor, PowerOf;
    if xs != [] {
      var n := |xs| - 1;
      ZerosMoment(xs[..n], ys[..n], k);
      MulZero(PowerOf(xs[n], k));
      XorLaws(Zero(), Zero(), Zero());
    }
  }

  lemma LastAlone(xs: seq<Byte>, ys: seq<Byte>)
    requires |xs| == |ys| > 0 && Moment(xs, ys, 0) == Zero()
    requires forall i :: 0 <= i < |ys| - 1 ==> ys[i] == Zero()
    ensures ys[|ys| - 1] == Zero()
  {
    hide Mul, Xor;
    var n := |xs| - 1;
    ZerosMoment(xs[..n], ys[..n], 0);
    MulCommutes(ys[n], One());
    MulOne(ys[n]);
    assert PowerOf(xs[n], 0) == One();
    XorLaws(Zero(), ys[n], Zero());
    XorLaws(ys[n], Zero(), Zero());
  }

  // ---- from an error pattern to its points ---------------------------------------------------

  function Weight(e: seq<Byte>): nat {
    if e == [] then 0 else Weight(e[..|e| - 1]) + (if e[|e| - 1] == Zero() then 0 else 1)
  }

  /** The points a^(s + degree) of the nonzero coefficients, the last coefficient having degree zero. */
  function Points(e: seq<Byte>, s: nat): (xs: seq<Byte>)
    ensures |xs| == Weight(e)
  {
    if e == [] then []
    else Points(e[..|e| - 1], s + 1) + (if e[|e| - 1] == Zero() then [] else [Power(s)])
  }

  function Values(e: seq<Byte>): (ys: seq<Byte>)
    ensures |ys| == Weight(e)
  {
    if e == [] then []
    else Values(e[..|e| - 1]) + (if e[|e| - 1] == Zero() then [] else [e[|e| - 1]])
  }

  lemma {:induction false} ValuesNonzero(e: seq<Byte>)
    ensures forall i :: 0 <= i < Weight(e) ==> Values(e)[i] != Zero()
  {
    hide Zero;
    if e != [] {
      ValuesNonzero(e[..|e| - 1]);
    }
  }

  lemma {:induction false} PointExponent(e: seq<Byte>, s: nat, i: nat) returns (d: nat)
    requires i < Weight(e)
    ensures s <= d < s + |e| && Points(e, s)[i] == Power(d)
  {
    hide Zero, Power;
    var n := |e| - 1;
    if i < Weight(e[..n]) {
      d := PointExponent(e[..n], s + 1, i);
    } else {
      d := s;
    }
  }

  lemma {:induction false} PointsDistinct(e: seq<Byte>, s: nat)
    requires s + |e| <= 255
    ensures Distinct(Points(e, s))
  {
    hide Zero, Power;
    if e != [] {
      var n := |e| - 1;
      PointsDistinct(e[..n], s + 1);
      var was := Points(e[..n], s + 1);
      forall i | 0 <= i < |was|
        ensures was[i] != Power(s)
      {
        var d := PointExponent(e[..n], s + 1, i);
        if Power(d) == Power(s) {
          PowerInjective(d, s);
        }
      }
    }
  }

  /** The syndrome of the error, times a^(k s), is a moment of its points. */
  lemma {:induction false} SyndromeIsMoment(e: seq<Byte>, s: nat, k: nat, ks: nat)
    requires ks == k * s
    ensures Mul(Eval(e, Power(k)), Power(ks)) == Moment(Points(e, s), Values(e), k)
  {
    hide Mul, Xor, Power, Zero, PowerOf, Moment, Points, Values;
    if e == [] {
      MulZero(Power(ks));
      EvalEmpty(Power(k));
      NoPoints(s, k);
    } else {
      EvalSplit(e, Power(k));
      var n := |e| - 1;
      assert ks + k == k * (s + 1);
      SyndromeIsMoment(e[..n], s + 1, k, ks + k);
      var xs, ys := Points(e[..n], s + 1), Values(e[..n]);
      SyndromeAlgebra(Eval(e[..n], Power(k)), e[n], k, ks);
      if e[n] == Zero() {
        MulZero(Power(ks));
        XorLaws(Moment(xs, ys, k), Zero(), Zero());
        PointsSkip(e, s);
      } else {
        PowerOfPower(s, k, ks);
        MomentSnoc(xs, ys, Power(s), e[n], k);
        PointsAdd(e, s);
      }
    }
  }

  lemma NoPoints(s: nat, k: nat)
    ensures Points([], s) == [] == Values([]) && Moment([], [], k) == Zero()
  {
  }

  lemma PointsSkip(e: seq<Byte>, s: nat)
    requires e != [] && e[|e| - 1] == Zero()
    ensures Points(e, s) == Points(e[..|e| - 1], s + 1) && Values(e) == Values(e[..|e| - 1])
  {
    hide Zero, Power;
  }

  lemma PointsAdd(e: seq<Byte>, s: nat)
    requires e != [] && e[|e| - 1] != Zero()
    ensures Points(e, s) == Points(e[..|e| - 1], s + 1) + [Power(s)]
    ensures Values(e) == Values(e[..|e| - 1]) + [e[|e| - 1]]
  {
    hide Zero, Power;
  }

  lemma SyndromeAlgebra(v: Byte, b: Byte, k: nat, ks: nat)
    ensures Mul(Xor(Mul(v, Power(k)), b), Power(ks)) == Xor(Mul(v, Power(ks + k)), Mul(b, Power(ks)))
  {
    hide *;
    Distributes(Mul(v, Power(k)), b, Power(ks));
    MulAssociates(v, Power(k), Power(ks));
    MulPowers(k, ks);
    assert k + ks == ks + k;
  }

  lemma MomentSnoc(xs: seq<Byte>, ys: seq<Byte>, x: Byte, y: Byte, k: nat)
    requires |xs| == |ys|
    ensures Moment(xs + [x], ys + [y], k) == Xor(Moment(xs, ys, k), Mul(y, PowerOf(x, k)))
  {
    hide Mul, Xor, PowerOf;
    assert (xs + [x])[..|xs|] == xs && (ys + [y])[..|ys|] == ys;
  }

  /** A codeword that is not all zero has more than ecLen nonzero bytes. */
  lemma MinimumWeight(e: seq<Byte>, ecLen: nat)
    requires |e| <= 255 && Codeword(e, ecLen) && Weight(e) <= ecLen
    ensures Weight(e) == 0
  {
    hide Mul, Xor, Power, Moment, Points, Values, Weight, Zero;
    var xs, ys := Points(e, 0), Values(e);
    PointsDistinct(e, 0);
    forall k: nat | k < |xs|
      ensures Moment(xs, ys, k) == Zero()
    {
      assert Eval(e, Power(k)) == Zero();
      MulZero(Power(0));
      SyndromeIsMoment(e, 0, k, 0);
    }
    if Weight(e) > 0 {
      var first := ys[0];
      ValuesNonzero(e);
      OnlyZero(xs, ys);
    }
  }

  /** Number of places in which two blocks differ. */
  function Distance(a: seq<Byte>, b: seq<Byte>): nat
    requires |a| == |b|
  {
    if a == [] then 0
    else Distance(a[..|a| - 1], b[..|a| - 1]) + (if a[|a| - 1] == b[|a| - 1] then 0 else 1)
  }

  lemma {:induction false} DistanceIsWeight(a: seq<Byte>, b: seq<Byte>)
    requires |a| == |b|
    ensures Distance(a, b) == Weight(XorAll(a, b))
  {
    hide Xor, Zero;
    if a != [] {
      var n := |a| - 1;
      DistanceIsWeight(a[..n], b[..n]);
      assert XorAll(a, b)[..n] == XorAll(a[..n], b[..n]);
      XorLaws(a[n], b[n], Zero());
    }
  }

  lemma {:induction false} DistanceZero(a: seq<Byte>, b: seq<Byte>)
    requires |a| == |b|
    ensures Distance(a, b) == 0 <==> a == b
  {
    if a != [] {
      var n := |a| - 1;
      DistanceZero(a[..n], b[..n]);
      assert a == a[..n] + [a[n]] && b == b[..n] + [b[n]];
    }
  }

  /** Between one and ecLen wrong bytes in a valid block of at most 255 always leave a nonzero syndrome. */
  lemma CorruptionDetected(valid: seq<Byte>, damaged: seq<Byte>, ecLen: nat)
    requires |valid| == |damaged| <= 255
    requires Codeword(valid, ecLen)
    requires 1 <= Distance(valid, damaged) <= ecLen
    ensures !Codeword(damaged, ecLen)
  {
    hide Xor, Eval, Power, Zero, Weight, Distance, XorAll;
    if Codeword(damaged, ecLen) {
      var e := XorAll(valid, damaged);
      forall k: nat | k < ecLen
        ensures Eval(e, Power(k)) == Zero()
      {
        EvalXor(valid, damaged, Power(k));
        assert Eval(valid, Power(k)) == Zero() && Eval(damaged, Power(k)) == Zero();
        XorLaws(Zero(), Zero(), Zero());
      }
      DistanceIsWeight(valid, damaged);
      MinimumWeight(e, ecLen);
    }
  }

  /** The check bytes of a block are determined: the remainder is the only tail that passes. */
  lemma RemainderUnique(data: seq<Byte>, tail: seq<Byte>, degree: nat)
    requires 0 < degree && |tail| == degree && |data| + degree <= 255
    ensures Codeword(data + tail, degree) <==> tail == Remainder(data, degree)
  {
    hide Remainder, Distance;
    var r := Remainder(data, degree);
    RemainderCodeword(data, degree);
    DistanceOfTails(data, tail, r);
    if Codeword(data + tail, degree) && tail != r {
      DistanceZero(data + r, data + tail);
      assert (data + tail)[|data|..] == tail && (data + r)[|data|..] == r;
      CorruptionDetected(data + r, data + tail, degree);
    }
  }

  lemma {:induction false} DistanceOfTails(data: seq<Byte>, a: seq<Byte>, b: seq<Byte>)
    requires |a| == |b|
    ensures Distance(data + a, data + b) <= |a|
    ensures Distance(data + b, data + a) <= |a|
  {
    if a == [] {
      assert data + a == data + b == data;
      DistanceZero(data, data);
    } else {
      var n := |a| - 1;
      DistanceOfTails(data, a[..n], b[..n]);
      assert (data + a)[..|data| + n] == data + a[..n] && (data + b)[..|data| + n] == data + b[..n];
    }
  }
}
