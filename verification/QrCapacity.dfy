/** The data path misses no free module, and in every version it is long enough for the codewords.

    The count bounds the function modules from above by the areas of the rectangles they lie in. */
module QrCapacity {
  import opened QrStream
  import opened QrSymbol
  import opened Sets

  // ---- the walk misses nothing ---------------------------------------------------------------

  lemma ColumnCovers(n: nat, right: int, p: Pos)
    requires In(n, p.x, p.y) && right - 1 <= p.x <= right
    ensures p in Column(n, right, 2 * n)
  {
    hide Column;
    var row := if Upward(right) then n - 1 - p.y else p.y;
    var step := 2 * row + (right - p.x);
    ColumnElement(n, right, 2 * n, step);
    assert ColumnAt(n, right, step) == p;
    assert Column(n, right, 2 * n)[step] == p;
  }

  /** From an even right edge beyond the timing column, or an odd one before it, every module to the left outside the
      timing column is visited. */
  lemma {:induction false} WalkCovers(n: nat, right: int, p: Pos)
    requires if right >= 6 then right % 2 == 0 else right % 2 == 1
    requires In(n, p.x, p.y) && p.x <= right && p.x != 6
    ensures p in Walk(n, right)
    decreases if right < 0 then 0 else right
  {
    hide Column;
    if right >= 1 {
      var r := Skip(right);
      if p.x >= r - 1 { ColumnCovers(n, r, p); } else { WalkCovers(n, r - 2, p); }
    }
  }

  lemma {:induction false} FreeOfKeeps(version: nat, w: seq<Pos>, p: Pos)
    requires 1 <= version <= 10 && p in w && Free(version, p)
    ensures p in FreeOf(version, w)
  {
    hide Free;
    var n := |w| - 1;
    if p != w[n] {
      assert p in w[..n];
      FreeOfKeeps(version, w[..n], p);
    }
  }

  /** The data path is exactly the modules inside the symbol that are no function modules. */
  lemma DataPathCovers(version: nat, p: Pos)
    requires 1 <= version <= 10
    ensures p in DataPath(version) <==> In(Size(version), p.x, p.y) && Free(version, p)
  {
    hide Walk, FreeOf, IsFinder, IsAlignment, IsFormat;
    var n := Size(version);
    DataPathFacts(version);
    if In(n, p.x, p.y) && Free(version, p) {
      assert p.x != 6;
      WalkCovers(n, n - 1, p);
      FreeOfKeeps(version, Walk(n, n - 1), p);
    }
  }

  // ---- counting ------------------------------------------------------------------------------

  /** Columns x0 to x1 and rows y0 to y1, the upper bounds excluded. */
  datatype Rect = Rect(x0: nat, x1: nat, y0: nat, y1: nat)

  function Area(r: Rect): nat { if r.x0 <= r.x1 && r.y0 <= r.y1 then (r.x1 - r.x0) * (r.y1 - r.y0) else 0 }

  predicate Inside(r: Rect, p: Pos) { r.x0 <= p.x < r.x1 && r.y0 <= p.y < r.y1 }

  ghost function Modules(r: Rect): set<Pos> {
    set x, y | r.x0 <= x < r.x1 && r.y0 <= y < r.y1 :: Pos(x, y)
  }

  lemma InModules(r: Rect, p: Pos)
    ensures p in Modules(r) <==> Inside(r, p)
  {
  }

  ghost function Line(x: nat, y0: nat, y1: nat): set<Pos> { set y | y0 <= y < y1 :: Pos(x, y) }

  lemma {:induction false} LineSize(x: nat, y0: nat, y1: nat)
    requires y0 <= y1
    ensures |Line(x, y0, y1)| == y1 - y0
    decreases y1
  {
    if y0 < y1 {
      LineSize(x, y0, y1 - 1);
      assert Line(x, y0, y1) == Line(x, y0, y1 - 1) + {Pos(x, y1 - 1)};
    } else {
      assert Line(x, y0, y1) == {};
    }
  }

  lemma {:induction false} ModulesSize(r: Rect)
    requires r.x0 <= r.x1 && r.y0 <= r.y1
    ensures |Modules(r)| == Area(r)
    decreases r.x1
  {
    if r.x0 < r.x1 {
      var less := r.(x1 := r.x1 - 1);
      ModulesSize(less);
      LineSize(r.x1 - 1, r.y0, r.y1);
      forall p ensures p in Modules(r) <==> p in Modules(less) + Line(r.x1 - 1, r.y0, r.y1) {
        InModules(r, p);
        InModules(less, p);
      }
      assert Modules(r) == Modules(less) + Line(r.x1 - 1, r.y0, r.y1);
      AreaStep(r);
    } else {
      assert Modules(r) == {};
    }
  }

  lemma AreaStep(r: Rect)
    requires r.x0 < r.x1 && r.y0 <= r.y1
    ensures Area(r) == Area(r.(x1 := r.x1 - 1)) + (r.y1 - r.y0)
  {
  }

  predicate Proper(rects: seq<Rect>) { forall i :: 0 <= i < |rects| ==> rects[i].x0 <= rects[i].x1 && rects[i].y0 <= rects[i].y1 }

  ghost function Union(rects: seq<Rect>): set<Pos> {
    if rects == [] then {} else Modules(rects[0]) + Union(rects[1..])
  }

  function Areas(rects: seq<Rect>): nat {
    if rects == [] then 0 else Area(rects[0]) + Areas(rects[1..])
  }

  lemma {:induction false} UnionSize(rects: seq<Rect>)
    requires Proper(rects)
    ensures |Union(rects)| <= Areas(rects)
  {
    hide Modules, Area;
    if rects != [] {
      UnionSize(rects[1..]);
      ModulesSize(rects[0]);
      UnionBound(Modules(rects[0]), Union(rects[1..]));
    }
  }

  lemma UnionBound(a: set<Pos>, b: set<Pos>)
    ensures |a + b| <= |a| + |b|
  {
    assert |a + b| == |a| + |b - a| by { assert a + b == a + (b - a); }
    assert b - a <= b;
    SubsetSize(b - a, b);
  }

  lemma {:induction false} InUnion(rects: seq<Rect>, i: nat, p: Pos)
    requires i < |rects| && Inside(rects[i], p)
    ensures p in Union(rects)
  {
    hide Modules, Inside;
    InModules(rects[0], p);
    if i > 0 { InUnion(rects[1..], i - 1, p); }
  }

  lemma {:induction false} AreasConcat(a: seq<Rect>, b: seq<Rect>)
    ensures Areas(a + b) == Areas(a) + Areas(b)
  {
    hide Area;
    if a == [] {
      assert a + b == b;
    } else {
      AreasConcat(a[1..], b);
      assert (a + b)[1..] == a[1..] + b;
    }
  }

  // ---- where the function modules lie --------------------------------------------------------

  /** Finder patterns with their margins, the timing lines between them, and the format words. */
  function FixedRects(n: nat): seq<Rect>
    requires n >= 21
  {
    [Rect(0, 8, 0, 8), Rect(n - 8, n, 0, 8), Rect(0, 8, n - 8, n), Rect(6, 7, 8, n - 8), Rect(8, n - 8, 6, 7),
     Rect(8, 9, 0, 6), Rect(8, 9, 7, 9), Rect(8, 9, n - 8, n), Rect(0, 6, 8, 9), Rect(7, 8, 8, 9), Rect(n - 8, n, 8, 9)]
  }

  function Around(cx: nat, cy: nat): Rect
    requires cx >= 2 && cy >= 2
  {
    Rect(cx - 2, cx + 3, cy - 2, cy + 3)
  }

  /** The squares of the alignment patterns that are drawn. */
  function AlignmentRects(version: nat): seq<Rect>
    requires 1 <= version <= 10
  {
    var a := Alignment(version);
    if version == 1 then []
    else if version <= 6 then [Around(a[1], a[1])]
    else [Around(a[0], a[1]), Around(a[1], a[0]), Around(a[1], a[1]), Around(a[1], a[2]), Around(a[2], a[1]), Around(a[2], a[2])]
  }

  lemma FixedInside(n: nat, p: Pos)
    requires n >= 21 && In(n, p.x, p.y) && (IsFinder(n, p.x, p.y) || IsTiming(p.x, p.y) || IsFormat(n, p.x, p.y))
    ensures exists i :: 0 <= i < |FixedRects(n)| && Inside(FixedRects(n)[i], p)
  {
    var r := FixedRects(n);
    assert || Inside(r[0], p) || Inside(r[1], p) || Inside(r[2], p) || Inside(r[3], p) || Inside(r[4], p) || Inside(r[5], p)
           || Inside(r[6], p) || Inside(r[7], p) || Inside(r[8], p) || Inside(r[9], p) || Inside(r[10], p);
  }

  lemma AlignmentInside(version: nat, p: Pos)
    requires 1 <= version <= 10 && IsAlignment(version, p.x, p.y) && In(Size(version), p.x, p.y)
    ensures exists i :: 0 <= i < |AlignmentRects(version)| && Inside(AlignmentRects(version)[i], p)
  {
    var a := Alignment(version);
    var i, j :| 0 <= i < |a| && 0 <= j < |a| && AlignmentHit(version, i, j, p.x, p.y);
    AlignmentShape(version);
    HitInside(version, i, j, p);
    hide Alignment, AlignmentHit, Around, Inside, IsAlignment;
    var r := AlignmentRects(version);
    if version <= 6 {
      assert i == j == 1;
      assert Inside(r[0], p);
    } else {
      var k := if i == 0 then 0 else if i == 1 then j + 1 else j + 3;
      assert r[k] == Around(a[i], a[j]);
    }
  }

  lemma HitInside(version: nat, i: nat, j: nat, p: Pos)
    requires 1 <= version <= 10 && i < |Alignment(version)| && j < |Alignment(version)|
    requires Alignment(version)[i] >= 6 && Alignment(version)[j] >= 6 && AlignmentHit(version, i, j, p.x, p.y)
    ensures Inside(Around(Alignment(version)[i], Alignment(version)[j]), p)
    ensures !OnFinder(Size(version), Alignment(version)[i], Alignment(version)[j])
  {
    hide Alignment;
  }

  lemma AlignmentShape(version: nat)
    requires 1 <= version <= 10
    ensures var a := Alignment(version);
      && |a| == (if version == 1 then 0 else if version <= 6 then 2 else 3)
      && (|a| > 0 ==> a[0] == 6 && a[|a| - 1] == Size(version) - 7)
      && forall i :: 0 <= i < |a| ==> a[i] >= 6
  {
  }

  lemma FixedAreas(n: nat)
    requires n >= 21
    ensures var r := FixedRects(n);
      && |r| == 11 && Proper(r) && Area(r[0]) == Area(r[1]) == Area(r[2]) == 64 && Area(r[3]) == Area(r[4]) == n - 16
      && Area(r[5]) == Area(r[8]) == 6 && Area(r[6]) == 2 && Area(r[7]) == Area(r[10]) == 8 && Area(r[9]) == 1
  {
  }

  lemma FixedArea(n: nat)
    requires n >= 21
    ensures Proper(FixedRects(n)) && Areas(FixedRects(n)) == 191 + 2 * n
  {
    hide *;
    FixedAreas(n);
    var r := FixedRects(n);
    AreasFrom(r, 0); AreasFrom(r, 1); AreasFrom(r, 2); AreasFrom(r, 3); AreasFrom(r, 4); AreasFrom(r, 5);
    AreasFrom(r, 6); AreasFrom(r, 7); AreasFrom(r, 8); AreasFrom(r, 9); AreasFrom(r, 10);
    assert r[0..] == r && r[11..] == [];
  }

  lemma AreasFrom(rects: seq<Rect>, k: nat)
    requires k < |rects|
    ensures Areas(rects[k..]) == Area(rects[k]) + Areas(rects[k + 1..]) && Areas([]) == 0
  {
    assert rects[k..][1..] == rects[k + 1..];
  }

  lemma AlignmentArea(version: nat)
    requires 1 <= version <= 10
    ensures Proper(AlignmentRects(version))
    ensures Areas(AlignmentRects(version)) == 25 * (if version == 1 then 0 else if version <= 6 then 1 else 6)
  {
    AlignmentShape(version);
    hide Alignment;
    var r := AlignmentRects(version);
    hide Areas, AlignmentRects;
    assert r[0..] == r && r[|r|..] == [];
    if version > 1 { AreasFrom(r, 0); }
    if version > 6 { AreasFrom(r, 1); AreasFrom(r, 2); AreasFrom(r, 3); AreasFrom(r, 4); AreasFrom(r, 5); }
  }

  lemma {:induction false} DistinctSize(w: seq<Pos>)
    ensures |set p | p in w| <= |w|
  {
    if w != [] {
      var n := |w| - 1;
      DistinctSize(w[..n]);
      assert (set p | p in w) == (set p | p in w[..n]) + {w[n]};
    }
  }

  /** Main result of the count: in each of the ten versions all codewords of the block table have their places. */
  lemma DataPathSuffices(version: nat)
    requires 1 <= version <= 10
    ensures 8 * BlocksM(version).total <= |DataPath(version)|
  {
    hide DataPath, Union, Modules, FixedRects, AlignmentRects, Areas, IsFinder, IsTiming, IsFormat, IsAlignment, Inside;
    var n := Size(version);
    var rects := FixedRects(n) + AlignmentRects(version);
    var path := set p | p in DataPath(version);
    var whole := Rect(0, n, 0, n);
    forall p | p in Modules(whole) ensures p in path + Union(rects) {
      InWhole(n, p);
      DataPathCovers(version, p);
      if !Free(version, p) { FunctionInside(version, p); }
    }
    FixedArea(n);
    AlignmentArea(version);
    AreasConcat(FixedRects(n), AlignmentRects(version));
    UnionSize(rects);
    ModulesSize(whole);
    SubsetSize(Modules(whole), path + Union(rects));
    UnionBound(path, Union(rects));
    DistinctSize(DataPath(version));
    assert Area(whole) == n * n;
  }

  lemma InWhole(n: nat, p: Pos)
    requires p in Modules(Rect(0, n, 0, n))
    ensures In(n, p.x, p.y)
  {
  }

  lemma FunctionInside(version: nat, p: Pos)
    requires 1 <= version <= 10 && In(Size(version), p.x, p.y) && !Free(version, p)
    ensures p in Union(FixedRects(Size(version)) + AlignmentRects(version))
  {
    hide Union, FixedRects, AlignmentRects, Inside, IsFinder, IsTiming, IsFormat, IsAlignment;
    var n := Size(version);
    var fixed, aligned := FixedRects(n), AlignmentRects(version);
    if IsAlignment(version, p.x, p.y) {
      AlignmentInside(version, p);
      var i :| 0 <= i < |aligned| && Inside(aligned[i], p);
      assert (fixed + aligned)[|fixed| + i] == aligned[i];
      InUnion(fixed + aligned, |fixed| + i, p);
    } else {
      FixedInside(n, p);
      var i :| 0 <= i < |fixed| && Inside(fixed[i], p);
      InUnion(fixed + aligned, i, p);
    }
  }
}
