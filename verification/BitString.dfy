/** Bit strings, most significant bit first, and the numbers they spell. */
module BitString {

  function Pow2(n: nat): (p: nat)
    ensures p > 0
  {
    if n == 0 then 1 else 2 * Pow2(n - 1)
  }

  function Bit(b: bool): nat { if b then 1 else 0 }

  function Value(bits: seq<bool>): nat {
    if bits == [] then 0 else 2 * Value(bits[..|bits| - 1]) + Bit(bits[|bits| - 1])
  }

  /** The low `width` bits of `value`. */
  function BitsOf(value: nat, width: nat): (bits: seq<bool>)
    ensures |bits| == width
  {
    if width == 0 then [] else BitsOf(value / 2, width - 1) + [value % 2 == 1]
  }

  lemma {:induction false} ValueBound(bits: seq<bool>)
    ensures Value(bits) < Pow2(|bits|)
  {
    if bits != [] {
      ValueBound(bits[..|bits| - 1]);
    }
  }

  lemma {:induction false} ValueInjective(a: seq<bool>, b: seq<bool>)
    requires |a| == |b| && Value(a) == Value(b)
    ensures a == b
  {
    if a != [] {
      var n := |a| - 1;
      ValueInjective(a[..n], b[..n]);
      assert a == a[..n] + [a[n]] && b == b[..n] + [b[n]];
    }
  }

  /** Writing a number that fits and reading it back returns it. */
  lemma {:induction false} ValueOfBits(value: nat, width: nat)
    requires value < Pow2(width)
    ensures Value(BitsOf(value, width)) == value
  {
    if width > 0 {
      var front, bits := BitsOf(value / 2, width - 1), BitsOf(value, width);
      ValueOfBits(value / 2, width - 1);
      assert bits == front + [value % 2 == 1];
      assert bits[..width - 1] == front;
      hide BitsOf, Pow2;
      assert value == 2 * (value / 2) + value % 2;
    }
  }
}
