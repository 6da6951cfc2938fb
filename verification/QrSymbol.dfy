/** The module matrix of a QR symbol: which modules carry the fixed patterns, the zigzag walk over the rest,
    the eight masks and the format word. */
module QrSymbol {

  type Matrix = seq<seq<bool>>

  function Size(version: nat): nat { 17 + 4 * version }

  predicate IsSquare(m: Matrix, n: nat) {
    |m| == n && forall y :: 0 <= y < n ==> |m[y]| == n
  }

  predicate In(n: nat, x: int, y: int) { 0 <= x < n && 0 <= y < n }

  function At(m: Matrix, n: nat, x: int, y: int): bool
    requires IsSquare(m, n) && In(n, x, y)
  {
    m[y][x]
  }

  function Put(m: Matrix, n: nat, x: int, y: int, dark: bool): (r: Matrix)
    requires IsSquare(m, n) && In(n, x, y)
    ensures IsSquare(r, n)
    ensures forall u, v :: In(n, u, v) ==> At(r, n, u, v) == if u == x && v == y then dark else At(m, n, u, v)
  {
    m[y := m[y][x := dark]]
  }

  // ---- the fixed patterns --------------------------------------------------------------------

  function Abs(i: int): nat { if i < 0 then -i else i }

  /** Chebyshev distance. */
  function Dist(cx: int, cy: int, x: int, y: int): nat {
    if Abs(x - cx) < Abs(y - cy) then Abs(y - cy) else Abs(x - cx)
  }

  function Alignment(version: nat): seq<nat>
    requires 1 <= version <= 10
  {
    match version
    case 1 => []
    case 2 => [6, 18]
    case 3 => [6, 22]
    case 4 => [6, 26]
    case 5 => [6, 30]
    case 6 => [6, 34]
    case 7 => [6, 22, 38]
    case 8 => [6, 24, 42]
    case 9 => [6, 26, 46]
    case _ => [6, 28, 50]
  }

  predicate OnFinder(n: nat, cx: int, cy: int) {
    (cx == 6 && cy == 6) || (cx == 6 && cy == n - 7) || (cx == n - 7 && cy == 6)
  }

  predicate IsTiming(x: int, y: int) { x == 6 || y == 6 }

  predicate IsFinder(n: nat, x: int, y: int) {
    Dist(3, 3, x, y) <= 4 || Dist(n - 4, 3, x, y) <= 4 || Dist(3, n - 4, x, y) <= 4
  }

  predicate IsAlignment(version: nat, x: int, y: int)
    requires 1 <= version <= 10
  {
    exists i, j :: 0 <= i < |Alignment(version)| && 0 <= j < |Alignment(version)| && AlignmentHit(version, i, j, x, y)
  }

  /** (x, y) lies in the pattern centred at column i and row j of the table. */
  predicate AlignmentHit(version: nat, i: int, j: int, x: int, y: int)
    requires 1 <= version <= 10 && 0 <= i < |Alignment(version)| && 0 <= j < |Alignment(version)|
  {
    var cx, cy := Alignment(version)[i], Alignment(version)[j];
    !OnFinder(Size(version), cx, cy) && Dist(cx, cy, x, y) <= 2
  }

  predicate IsFormat(n: nat, x: int, y: int) {
    || (x == 8 && ((0 <= y <= 8 && y != 6) || n - 8 <= y < n))
    || (y == 8 && ((0 <= x <= 8 && x != 6) || n - 8 <= x < n))
  }

  /** Modules no codeword bit may use. */
  predicate IsFunction(version: nat, x: int, y: int)
    requires 1 <= version <= 10
  {
    IsTiming(x, y) || IsFinder(Size(version), x, y) || IsAlignment(version, x, y) || IsFormat(Size(version), x, y)
  }

  // ---- the zigzag walk -----------------------------------------------------------------------

  datatype Pos = Pos(x: int, y: int)

  predicate Upward(right: int) { ((right + 1) / 2) % 2 == 0 }

  /** Position `step` of the two-module-wide column whose right edge is `right`. */
  function ColumnAt(n: nat, right: int, step: nat): Pos {
    Pos(right - step % 2, if Upward(right) then n - 1 - step / 2 else step / 2)
  }

  function Column(n: nat, right: int, steps: nat): (w: seq<Pos>)
    ensures |w| == steps
  {
    if steps == 0 then [] else Column(n, right, steps - 1) + [ColumnAt(n, right, steps - 1)]
  }

  /** The timing column is stepped over. */
  function Skip(right: int): int { if right == 6 then 5 else right }

  function Walk(n: nat, right: int): seq<Pos>
    decreases if right < 0 then 0 else right
  {
    if right < 1 then [] else Column(n, Skip(right), 2 * n) + Walk(n, Skip(right) - 2)
  }

  predicate Free(version: nat, p: Pos)
    requires 1 <= version <= 10
  {
    !IsFunction(version, p.x, p.y)
  }

  function FreeOf(version: nat, w: seq<Pos>): seq<Pos>
    requires 1 <= version <= 10
  {
    if w == [] then []
    else FreeOf(version, w[..|w| - 1]) + (if Free(version, w[|w| - 1]) then [w[|w| - 1]] else [])
  }

  /** Where the bits of the codewords go, in order. */
  function DataPath(version: nat): seq<Pos>
    requires 1 <= version <= 10
  {
    FreeOf(version, Walk(Size(version), Size(version) - 1))
  }

  ghost predicate NoRepeat(w: seq<Pos>) {
    forall i, j :: 0 <= i < j < |w| ==> w[i] != w[j]
  }

  lemma {:induction false} ColumnElement(n: nat, right: int, steps: nat, i: nat)
    requires i < steps
    ensures Column(n, right, steps)[i] == ColumnAt(n, right, i)
  {
    if i < steps - 1 {
      ColumnElement(n, right, steps - 1, i);
    }
  }

  lemma ColumnNoRepeat(n: nat, right: int, steps: nat)
    ensures NoRepeat(Column(n, right, steps))
    ensures forall i :: 0 <= i < steps ==> right - 1 <= Column(n, right, steps)[i].x <= right
  {
    hide Column;
    var w := Column(n, right, steps);
    forall i, j | 0 <= i < j < steps
      ensures w[i] != w[j]
    {
      ColumnElement(n, right, steps, i);
      ColumnElement(n, right, steps, j);
    }
    forall i | 0 <= i < steps
      ensures right - 1 <= w[i].x <= right
    {
      ColumnElement(n, right, steps, i);
    }
  }

  /** The walk never visits a module twice and stays inside the symbol. */
  lemma {:induction false} WalkNoRepeat(n: nat, right: int)
    requires right < n
    ensures NoRepeat(Walk(n, right))
    ensures forall i :: 0 <= i < |Walk(n, right)| ==>
              Walk(n, right)[i].x <= Skip(right) && In(n, Walk(n, right)[i].x, Walk(n, right)[i].y)
    decreases if right < 0 then 0 else right
  {
    hide Column;
    if right >= 1 {
      var r := Skip(right);
      WalkNoRepeat(n, r - 2);
      ColumnNoRepeat(n, r, 2 * n);
      var c := Column(n, r, 2 * n);
      forall i | 0 <= i < 2 * n
        ensures In(n, c[i].x, c[i].y)
      {
        ColumnElement(n, r, 2 * n, i);
      }
    }
  }

  lemma {:induction false} FreeOfIndex(version: nat, w: seq<Pos>, i: nat) returns (k: nat)
    requires 1 <= version <= 10 && i < |FreeOf(version, w)|
    ensures k < |w| && w[k] == FreeOf(version, w)[i] && Free(version, w[k])
    ensures |FreeOf(version, w[..k])| == i
  {
    hide Free;
    var n := |w| - 1;
    if i < |FreeOf(version, w[..n])| {
      k := FreeOfIndex(version, w[..n], i);
      assert w[..n][..k] == w[..k];
    } else {
      k := n;
    }
  }

  lemma {:induction false} FreeOfGrows(version: nat, w: seq<Pos>, k: nat)
    requires 1 <= version <= 10 && k <= |w|
    ensures |FreeOf(version, w[..k])| <= |FreeOf(version, w)|
    ensures FreeOf(version, w)[..|FreeOf(version, w[..k])|] == FreeOf(version, w[..k])
  {
    hide Free;
    if k == |w| {
      assert w[..k] == w;
    } else {
      FreeOfGrows(version, w[..|w| - 1], k);
      assert w[..|w| - 1][..k] == w[..k];
    }
  }

  lemma FreeOfNoRepeat(version: nat, w: seq<Pos>)
    requires 1 <= version <= 10 && NoRepeat(w)
    ensures NoRepeat(FreeOf(version, w))
  {
    hide FreeOf, Free;
    var f := FreeOf(version, w);
    forall i, j | 0 <= i < j < |f|
      ensures f[i] != f[j]
    {
      var k := FreeOfIndex(version, w, i);
      var l := FreeOfIndex(version, w, j);
      if k >= l {
        assert w[..k][..l] == w[..l];
        FreeOfGrows(version, w[..k], l);
      }
    }
  }

  /** Codeword bits land on distinct modules inside the symbol, none of them a function module. */
  lemma DataPathFacts(version: nat)
    requires 1 <= version <= 10
    ensures NoRepeat(DataPath(version))
    ensures forall i :: 0 <= i < |DataPath(version)| ==>
              var p := DataPath(version)[i]; In(Size(version), p.x, p.y) && Free(version, p)
  {
    hide Walk, FreeOf, Free;
    var n := Size(version);
    var w := Walk(n, n - 1);
    WalkNoRepeat(n, n - 1);
    FreeOfNoRepeat(version, w);
    forall i | 0 <= i < |DataPath(version)|
      ensures var p := DataPath(version)[i]; In(n, p.x, p.y) && Free(version, p)
    {
      var k := FreeOfIndex(version, w, i);
    }
  }

  // ---- masks ---------------------------------------------------------------------------------

  predicate Inverts(mask: nat, x: nat, y: nat) {
    if mask == 0 then (x + y) % 2 == 0
    else if mask == 1 then y % 2 == 0
    else if mask == 2 then x % 3 == 0
    else if mask == 3 then (x + y) % 3 == 0
    else if mask == 4 then (x / 3 + y / 2) % 2 == 0
    else if mask == 5 then (x * y) % 2 + (x * y) % 3 == 0
    else if mask == 6 then ((x * y) % 2 + (x * y) % 3) % 2 == 0
    else ((x + y) % 2 + (x * y) % 3) % 2 == 0
  }

  // ---- format word ---------------------------------------------------------------------------

  /** Coefficient i of the BCH generator 0x537. */
  predicate FormatGenerator(i: int) {
    i == 10 || i == 8 || i == 5 || i == 4 || i == 2 || i == 1 || i == 0
  }

  /** v + (0x537 << shift), bit i of a word at index i. */
  function AddGenerator(v: seq<bool>, shift: int): (r: seq<bool>)
    ensures |r| == |v|
  {
    seq(|v|, i requires 0 <= i < |v| => v[i] != FormatGenerator(i - shift))
  }

  /** Remainder of a word modulo the generator, clearing bits from the top one down to bit 10. */
  function FormatRemainder(v: seq<bool>, top: nat): (r: seq<bool>)
    requires |v| == 15 && top < 15
    ensures |r| == 15
    decreases top
  {
    if top < 10 then v
    else
      var w := if v[top] then AddGenerator(v, top - 10) else v;
      FormatRemainder(w, top - 1)
  }

  predicate FormatAccepted(word: seq<bool>)
    requires |word| == 15
  {
    var r := FormatRemainder(word, 14);
    forall i :: 0 <= i < 10 ==> !r[i]
  }

  /** The fixed pattern 0x5412 added to every format word. */
  predicate FormatMask(i: int) { i == 14 || i == 12 || i == 10 || i == 4 || i == 1 }

  function Unmask(word: seq<bool>): (r: seq<bool>)
    requires |word| == 15
    ensures |r| == 15
  {
    seq(15, i requires 0 <= i < 15 => word[i] != FormatMask(i))
  }

  /** Multiply a ten-bit remainder by x and reduce. */
  function FormatStep(rem: seq<bool>): (r: seq<bool>)
    requires |rem| == 10
    ensures |r| == 10
  {
    seq(10, i requires 0 <= i < 10 => (i > 0 && rem[i - 1]) != (rem[9] && FormatGenerator(i)))
  }

  function FormatSteps(rem: seq<bool>, n: nat): (r: seq<bool>)
    requires |rem| == 10
    ensures |r| == 10
  {
    if n == 0 then rem else FormatStep(FormatSteps(rem, n - 1))
  }

  /** Five data bits over their ten check bits, before masking. */
  function FormatWord(data: seq<bool>): (w: seq<bool>)
    requires |data| == 5
    ensures |w| == 15
  {
    FormatSteps(data + [false, false, false, false, false], 10) + data
  }

  /** Bit i of the product of the generator and the polynomial with coefficients q. */
  predicate Multiple(q: seq<bool>, i: int)
    requires |q| == 5
  {
    ((q[0] && FormatGenerator(i)) != (q[1] && FormatGenerator(i - 1)))
    != (((q[2] && FormatGenerator(i - 2)) != (q[3] && FormatGenerator(i - 3))) != (q[4] && FormatGenerator(i - 4)))
  }

  /** Bit i of a word, zero outside it. */
  predicate Coef(v: seq<bool>, i: int) { 0 <= i < |v| && v[i] }

  /** x^k * data == generator * q + remainder. */
  ghost predicate Divides(data: seq<bool>, k: nat, q: seq<bool>, rem: seq<bool>)
    requires |data| == 5 && |q| == 5 && |rem| == 10
  {
    forall i: int :: Coef(data, i - k) == (Multiple(q, i) != Coef(rem, i))
  }

  /** Multiplying the quotient by x and adding a constant term. */
  function NextQuotient(q: seq<bool>, low: bool): (r: seq<bool>)
    requires |q| == 5
    ensures |r| == 5
  {
    [low, q[0], q[1], q[2], q[3]]
  }

  lemma DivisionStep(data: seq<bool>, k: nat, q: seq<bool>, rem: seq<bool>)
    requires |data| == 5 && |q| == 5 && |rem| == 10 && !q[4]
    requires Divides(data, k, q, rem)
    ensures Divides(data, k + 1, NextQuotient(q, rem[9]), FormatStep(rem))
  {
    var r, s := NextQuotient(q, rem[9]), FormatStep(rem);
    forall i: int
      ensures Coef(data, i - (k + 1)) == (Multiple(r, i) != Coef(s, i))
    {
      assert Coef(data, (i - 1) - k) == (Multiple(q, i - 1) != Coef(rem, i - 1));
      assert Multiple(r, i) == (Multiple(q, i - 1) != (rem[9] && FormatGenerator(i)));
      assert Coef(s, i) == (Coef(rem, i - 1) != (rem[9] && FormatGenerator(i)));
    }
  }

  /** The check bits are the remainder of the shifted data. */
  lemma {:induction false} Division(data: seq<bool>, k: nat) returns (q: seq<bool>)
    requires |data| == 5 && k <= 10
    ensures |q| == 5 && Divides(data, k, q, FormatSteps(data + [false, false, false, false, false], k))
    ensures forall j :: 0 <= j < 5 && j >= k - 5 ==> !q[j]
  {
    hide Multiple, FormatStep;
    var start := data + [false, false, false, false, false];
    if k == 0 {
      q := [false, false, false, false, false];
      forall i: int
        ensures Coef(data, i - 0) == (Multiple(q, i) != Coef(start, i))
      {
        NoMultiple(i);
      }
    } else {
      var p := Division(data, k - 1);
      var rem := FormatSteps(start, k - 1);
      DivisionStep(data, k - 1, p, rem);
      q := NextQuotient(p, rem[9]);
      if k <= 5 {
        SmallRemainder(data, k - 1);
      }
    }
  }

  lemma NoMultiple(i: int)
    ensures !Multiple([false, false, false, false, false], i)
  {
  }

  lemma {:induction false} SmallRemainder(data: seq<bool>, k: nat)
    requires |data| == 5 && k <= 4
    ensures forall j :: 5 + k <= j < 10 ==> !FormatSteps(data + [false, false, false, false, false], k)[j]
  {
    if k > 0 {
      SmallRemainder(data, k - 1);
    }
  }

  /** Clearing the top bit of a multiple leaves a multiple with a smaller quotient. */
  lemma {:induction false} ReduceMultiple(v: seq<bool>, top: nat, q: seq<bool>)
    requires |v| == 15 && 9 <= top < 15 && |q| == 5
    requires forall j :: 0 <= j < 5 && j > top - 10 ==> !q[j]
    requires forall i :: 0 <= i < 15 ==> v[i] == Multiple(q, i)
    ensures forall i :: 0 <= i < 15 ==> !FormatRemainder(v, top)[i]
    decreases top
  {
    if top == 9 {
    } else {
      var j := top - 10;
      var w := if v[top] then AddGenerator(v, j) else v;
      var r := q[j := false];
      forall i | 0 <= i < 15
        ensures w[i] == Multiple(r, i)
      {
        assert v[top] == q[j] by {
          assert v[top] == Multiple(q, top);
        }
        assert v[i] == Multiple(q, i);
      }
      ReduceMultiple(w, top - 1, r);
    }
  }

  /** The reader accepts every word the writer forms. */
  lemma FormatWordAccepted(data: seq<bool>)
    requires |data| == 5
    ensures FormatAccepted(FormatWord(data))
  {
    hide Multiple, FormatSteps, FormatRemainder;
    var q := Division(data, 10);
    var word := FormatWord(data);
    var rem := FormatSteps(data + [false, false, false, false, false], 10);
    forall i | 0 <= i < 15
      ensures word[i] == Multiple(q, i)
    {
      assert Coef(data, i - 10) == (Multiple(q, i) != Coef(rem, i));
    }
    ReduceMultiple(word, 14, q);
  }

  lemma {:induction false} HighCleared(v: seq<bool>, top: nat)
    requires |v| == 15 && top < 15
    ensures forall i :: 10 <= i <= top ==> !FormatRemainder(v, top)[i]
    ensures forall i :: top < i < 15 && i >= 10 ==> FormatRemainder(v, top)[i] == v[i]
    decreases top
  {
    if top >= 10 {
      var w := if v[top] then AddGenerator(v, top - 10) else v;
      assert FormatRemainder(v, top) == FormatRemainder(w, top - 1);
      HighCleared(w, top - 1);
      var r := FormatRemainder(w, top - 1);
      forall i | top <= i < 15
        ensures w[i] == (v[i] && i != top)
      {
        assert FormatGenerator(i - (top - 10)) <==> i == top;
      }
      assert forall i :: top <= i < 15 ==> r[i] == w[i];
    } else {
      assert FormatRemainder(v, top) == v;
    }
  }

  lemma RemainderDown(v: seq<bool>, top: nat)
    requires |v| == 15 && 9 <= top < 15
    ensures FormatRemainder(v, top)
         == if top == 9 then v else FormatRemainder(if v[top] then AddGenerator(v, top - 10) else v, top - 1)
  {
  }

  lemma SetQuotient(p: seq<bool>, j: nat, b: bool, i: int)
    requires |p| == 5 && j < 5 && !p[j]
    ensures Multiple(p[j := b], i) == (Multiple(p, i) != (b && FormatGenerator(i - j)))
  {
    hide FormatGenerator;
  }

  lemma ZeroQuotient(i: int)
    ensures !Multiple([false, false, false, false, false], i)
  {
  }

  lemma {:induction false} ZeroRemainder(v: seq<bool>, top: nat) returns (q: seq<bool>)
    requires |v| == 15 && 9 <= top < 15
    requires forall i :: 0 <= i < 15 ==> !FormatRemainder(v, top)[i]
    ensures |q| == 5 && forall j :: 0 <= j < 5 && j > top - 10 ==> !q[j]
    ensures forall i :: 0 <= i < 15 ==> v[i] == Multiple(q, i)
    decreases top
  {
    hide Multiple, FormatGenerator, FormatRemainder;
    RemainderDown(v, top);
    if top == 9 {
      q := [false, false, false, false, false];
      forall i | 0 <= i < 15 ensures v[i] == Multiple(q, i) { ZeroQuotient(i); }
    } else {
      var j := top - 10;
      var w := if v[top] then AddGenerator(v, j) else v;
      var p := ZeroRemainder(w, top - 1);
      q := p[j := v[top]];
      forall i | 0 <= i < 15
        ensures v[i] == Multiple(q, i)
      {
        assert w[i] == Multiple(p, i);
        SetQuotient(p, j, v[top], i);
      }
    }
  }

  lemma HighBitsDecide(p: seq<bool>, q: seq<bool>)
    requires |p| == 5 && |q| == 5
    requires forall i :: 10 <= i < 15 ==> Multiple(p, i) == Multiple(q, i)
    ensures p == q
  {
    assert Multiple(p, 14) == Multiple(q, 14) && Multiple(p, 13) == Multiple(q, 13);
    assert Multiple(p, 12) == Multiple(q, 12) && Multiple(p, 11) == Multiple(q, 11);
    assert Multiple(p, 10) == Multiple(q, 10);
    assert p[4] == q[4] && p[3] == q[3] && p[2] == q[2] && p[1] == q[1] && p[0] == q[0];
  }

  /** The reader accepts exactly the words the writer forms. */
  lemma FormatAcceptedIff(v: seq<bool>)
    requires |v| == 15
    ensures FormatAccepted(v) <==> v == FormatWord(v[10..])
  {
    hide Multiple, FormatRemainder, FormatWord;
    var w := FormatWord(v[10..]);
    assert w[10..] == v[10..] by {
      FormatWordTop(v[10..]);
    }
    FormatWordAccepted(v[10..]);
    if FormatAccepted(v) {
      HighCleared(v, 14);
      HighCleared(w, 14);
      var p := ZeroRemainder(v, 14);
      var q := ZeroRemainder(w, 14);
      forall i | 10 <= i < 15
        ensures Multiple(p, i) == Multiple(q, i)
      {
        assert v[10..][i - 10] == w[10..][i - 10];
      }
      HighBitsDecide(p, q);
    }
  }

  lemma FormatWordTop(d: seq<bool>)
    requires |d| == 5
    ensures FormatWord(d)[10..] == d
  {
  }
}
