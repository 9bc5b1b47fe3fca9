/**
 The tiling window manager's layout: the output is halved again and again, in turn side by side
 and one above the other, with a fixed gap between the halves.
 */
module Tiling {
  import opened Geometry
  import opened Numbers

  const GAP: int := 4

  /** Signed integer division as the source's language does it: towards zero. */
  function TruncDiv(a: int, b: int): int
    requires b > 0
  {
    if a >= 0 then a / b else -((-a) / b)
  }

  /** Less than one divisor is left over, and it has the dividend's sign. */
  lemma TowardsZero(a: int, b: int)
    requires b > 0
    ensures var left := a - TruncDiv(a, b) * b;
            -b < left < b && (a >= 0 ==> left >= 0) && (a <= 0 ==> left <= 0)
  {
    if a < 0 {
      assert -((-a) / b) * b == -((-a) / b * b);
    }
  }

  /** The length the first `first` of `count` windows get out of `length`. */
  function FirstLength(length: int, first: nat, count: nat): int
    requires count > 0
  {
    TruncDiv(length * first, count) - GAP / 2
  }

  /** The two parts of an area, side by side or one above the other. */
  function Halves(r: Rect, count: nat, horizontal: bool): (Rect, Rect)
    requires count > 1
  {
    if horizontal then
      var w := FirstLength(r.width, count / 2, count);
      (Rect(r.x, r.y, w, r.height), Rect(r.x + w + GAP, r.y, r.width - w - GAP, r.height))
    else
      var h := FirstLength(r.height, count / 2, count);
      (Rect(r.x, r.y, r.width, h), Rect(r.x, r.y + h + GAP, r.width, r.height - h - GAP))
  }

  function Bsp(r: Rect, count: nat, horizontal: bool): seq<Rect>
    requires count > 0
    decreases count
  {
    if count == 1 then [r]
    else
      var (a, b) := Halves(r, count, horizontal);
      Bsp(a, count / 2, !horizontal) + Bsp(b, count - count / 2, !horizontal)
  }

  /** The output without its margin. */
  function Inset(width: int, height: int): Rect {
    Rect(GAP, GAP, width - 2 * GAP, height - 2 * GAP)
  }

  function Layout(width: int, height: int, n: nat): seq<Rect> {
    if n == 0 then [] else Bsp(Inset(width, height), n, true)
  }

  // ----- the layout code

  class Layouts {
    var rects: seq<Rect>

    constructor ()
      ensures rects == []
    {
      rects := [];
    }

    method Push(r: Rect)
      modifies this
      ensures rects == old(rects) + [r]
    {
      rects := rects + [r];
    }
  }

  method BspLayout(x: int, y: int, w: int, h: int, count: nat, horizontal: bool, layouts: Layouts)
    requires count > 0
    modifies layouts
    ensures layouts.rects == old(layouts.rects) + Bsp(Rect(x, y, w, h), count, horizontal)
    decreases count
  {
    if count == 1 {
      layouts.Push(Rect(x, y, w, h));
      return;
    }
    var firstHalf := count / 2;
    var secondHalf := count - firstHalf;
    ghost var before := layouts.rects;
    ghost var (a, b) := Halves(Rect(x, y, w, h), count, horizontal);
    if horizontal {
      var firstW := FirstLength(w, firstHalf, count);
      var secondW := w - firstW - GAP;
      BspLayout(x, y, firstW, h, firstHalf, !horizontal, layouts);
      BspLayout(x + firstW + GAP, y, secondW, h, secondHalf, !horizontal, layouts);
    } else {
      var firstH := FirstLength(h, firstHalf, count);
      var secondH := h - firstH - GAP;
      BspLayout(x, y, w, firstH, firstHalf, !horizontal, layouts);
      BspLayout(x, y + firstH + GAP, w, secondH, secondHalf, !horizontal, layouts);
    }
    Appended(before, Bsp(a, firstHalf, !horizontal), Bsp(b, secondHalf, !horizontal));
  }

  lemma Appended(before: seq<Rect>, a: seq<Rect>, b: seq<Rect>)
    ensures before + a + b == before + (a + b)
  {
  }

  class TilingWm {
    var windows: seq<nat>
    var outputWidth: int
    var outputHeight: int

    constructor ()
      ensures windows == [] && outputWidth == 1280 && outputHeight == 720
    {
      windows, outputWidth, outputHeight := [], 1280, 720;
    }

    method CalculateLayout() returns (layouts: seq<Rect>)
      ensures layouts == Layout(outputWidth, outputHeight, |windows|)
    {
      var n := |windows|;
      if n == 0 {
        return [];
      }
      var out := new Layouts();
      if n == 1 {
        out.Push(Rect(GAP, GAP, outputWidth - 2 * GAP, outputHeight - 2 * GAP));
        return out.rects;
      }
      BspLayout(GAP, GAP, outputWidth - 2 * GAP, outputHeight - 2 * GAP, n, true, out);
      return out.rects;
    }
  }

  // ----- one rectangle for each window

  lemma {:induction false} BspCount(r: Rect, count: nat, horizontal: bool)
    requires count > 0
    ensures |Bsp(r, count, horizontal)| == count
    decreases count
  {
    if count > 1 {
      var (a, b) := Halves(r, count, horizontal);
      BspCount(a, count / 2, !horizontal);
      BspCount(b, count - count / 2, !horizontal);
    }
  }

  lemma OneForEachWindow(width: int, height: int, n: nat)
    ensures |Layout(width, height, n)| == n
  {
    if n > 0 {
      BspCount(Inset(width, height), n, true);
    }
  }

  // ----- nothing is lost: the area is conserved, whatever the size

  /** The area of the cells: each rectangle with the gap to its right and below it. */
  function CellArea(rects: seq<Rect>): int {
    if rects == [] then 0
    else CellArea(rects[..|rects| - 1]) + (rects[|rects| - 1].width + GAP) * (rects[|rects| - 1].height + GAP)
  }

  lemma {:induction false} CellAreaConcat(a: seq<Rect>, b: seq<Rect>)
    ensures CellArea(a + b) == CellArea(a) + CellArea(b)
  {
    if b == [] {
      assert a + b == a;
    } else {
      CellAreaConcat(a, b[..|b| - 1]);
      assert (a + b)[..|a + b| - 1] == a + b[..|b| - 1];
    }
  }

  lemma Distribute(a: int, b: int, c: int)
    ensures a * c + b * c == (a + b) * c
    ensures c * a + c * b == c * (a + b)
  {
  }

  lemma CellAreaOne(r: Rect)
    ensures CellArea([r]) == (r.width + GAP) * (r.height + GAP)
  {
    assert [r][..0] == [];
  }

  lemma HalvesArea(r: Rect, count: nat, horizontal: bool)
    requires count > 1
    ensures var (a, b) := Halves(r, count, horizontal);
            (a.width + GAP) * (a.height + GAP) + (b.width + GAP) * (b.height + GAP) == (r.width + GAP) * (r.height + GAP)
  {
    var (a, b) := Halves(r, count, horizontal);
    if horizontal {
      Distribute(a.width + GAP, b.width + GAP, r.height + GAP);
    } else {
      Distribute(a.height + GAP, b.height + GAP, r.width + GAP);
    }
  }

  /** The cells of the windows have together exactly the area of the cell they are laid out in,
      also where sizes come out negative. */
  lemma {:induction false} BspArea(r: Rect, count: nat, horizontal: bool)
    requires count > 0
    ensures CellArea(Bsp(r, count, horizontal)) == (r.width + GAP) * (r.height + GAP)
    decreases count
  {
    if count == 1 {
      CellAreaOne(r);
    } else {
      var (a, b) := Halves(r, count, horizontal);
      BspArea(a, count / 2, !horizontal);
      BspArea(b, count - count / 2, !horizontal);
      CellAreaConcat(Bsp(a, count / 2, !horizontal), Bsp(b, count - count / 2, !horizontal));
      HalvesArea(r, count, horizontal);
    }
  }

  // ----- big enough outputs

  /** Room for `count` cells of side `cell` in a row, the last gap left out. */
  predicate Fits(length: int, count: nat, cell: nat) {
    length >= cell * count - GAP
  }

  /** Splitting a length in which `count` cells fit leaves room for each half's cells. */
  lemma SplitFits(length: int, first: nat, count: nat, cell: nat)
    requires count > 1 && first == count / 2 && cell >= 4 && Fits(length, count, cell)
    ensures Fits(FirstLength(length, first, count), first, cell)
    ensures Fits(length - FirstLength(length, first, count) - GAP, count - first, cell)
  {
    var q := FirstQuotient(length, first, count, cell);
    LowerHalf(length, first, count, cell, q);
    UpperHalf(length, first, count, cell, q);
    Distribute(first, count - first, cell);
  }

  lemma FirstQuotient(length: int, first: nat, count: nat, cell: nat) returns (q: int)
    requires count > 1 && first == count / 2 && cell >= 4 && Fits(length, count, cell)
    ensures FirstLength(length, first, count) == q - 2
    ensures q * count <= length * first < q * count + count
  {
    assert cell * count >= 4 * count;
    assert length >= 0;
    assert length * first >= 0;
    q := (length * first) / count;
  }

  lemma Scale(a: int, b: int, c: nat)
    requires a <= b
    ensures a * c <= b * c
  {
  }

  lemma CancelLess(a: int, b: int, c: nat)
    requires a * c < b * c
    ensures a < b
  {
    if b <= a { Scale(b, a, c); }
  }

  lemma ScaledCells(cell: nat, s: nat, count: nat, length: int)
    requires length >= cell * count - 4
    ensures length * s >= (cell * s) * count - 4 * s
  {
    Scale(cell * count - 4, length, s);
    assert (cell * count - 4) * s == (cell * s) * count - 4 * s;
  }

  lemma LowerHalf(length: int, first: nat, count: nat, cell: nat, q: int)
    requires count > 1 && first == count / 2 && length >= cell * count - 4
    requires length * first < q * count + count
    ensures q >= cell * first - 2
  {
    var a := cell * first;
    ScaledCells(cell, first, count, length);
    assert (a - 2) * count == a * count - 2 * count;
    assert (q + 1) * count == q * count + count;
    CancelLess(a - 2, q + 1, count);
  }

  lemma UpperHalf(length: int, first: nat, count: nat, cell: nat, q: int)
    requires count > 1 && first == count / 2 && length >= cell * count - 4
    requires q * count <= length * first
    ensures q <= length - cell * (count - first) + 2
  {
    var s := count - first;
    var a := cell * s;
    ScaledCells(cell, s, count, length);
    assert (length - a + 3) * count == length * count - a * count + 3 * count;
    Distribute(first, s, length);
    CancelLess(q, length - a + 3, count);
  }

  predicate Inside(inner: Rect, outer: Rect) {
    && outer.x <= inner.x && inner.x + inner.width <= outer.x + outer.width
    && outer.y <= inner.y && inner.y + inner.height <= outer.y + outer.height
  }

  /** `a` ends at least a gap to the left of `b`, or at least a gap above it. */
  predicate Before(a: Rect, b: Rect) {
    a.x + a.width + GAP <= b.x || a.y + a.height + GAP <= b.y
  }

  ghost predicate Placed(rects: seq<Rect>, outer: Rect, side: nat) {
    && (forall i :: 0 <= i < |rects| ==> Inside(rects[i], outer) && rects[i].width >= side && rects[i].height >= side)
    && (forall i, j :: 0 <= i < j < |rects| ==> Before(rects[i], rects[j]))
  }

  /** Two placed lists, one to the left of or above the other, are placed together. */
  lemma PlacedTogether(a: seq<Rect>, b: seq<Rect>, p: Rect, q: Rect, outer: Rect, side: nat)
    requires Placed(a, p, side) && Placed(b, q, side) && Before(p, q) && Inside(p, outer) && Inside(q, outer)
    ensures Placed(a + b, outer, side)
  {
    var ab := a + b;
    forall i, j | 0 <= i < j < |ab| ensures Before(ab[i], ab[j]) {
      if i < |a| <= j {
        assert Inside(a[i], p) && Inside(b[j - |a|], q);
      }
    }
  }

  // ----- the exact bound

  /** The least length of the side that is split which leaves `a` for the first part and `b` for the
      second. */
  function LeastSplit(count: nat, a: nat, b: nat): nat
    requires count > 1
  {
    Max(((a + 2) * count + count / 2 - 1) / (count / 2), ((b + 1) * count) / (count - count / 2) + 1)
  }

  /** The least length of one side of an area that gives `count` windows a length of at least `side`
      each; `split` says whether this side is the one divided first. */
  function Need(count: nat, split: bool, side: nat): nat
    requires count > 0
    decreases count
  {
    if count == 1 then side
    else
      var a, b := Need(count / 2, !split, side), Need(count - count / 2, !split, side);
      if split then LeastSplit(count, a, b) else Max(a, b)
  }

  lemma DivAtMost(x: int, d: nat, q: int)
    requires d > 0
    ensures x / d >= q <==> x >= q * d
  {
    var r := x / d;
    assert x == r * d + x % d;
    if r >= q { Scale(q, r, d); }
    if r < q { Scale(r + 1, q, d); }
  }

  lemma CeilAtMost(x: nat, d: nat, l: int)
    requires d > 0
    ensures l >= (x + d - 1) / d <==> l * d >= x
  {
    DivAtMost(x + d - 1, d, l + 1);
  }

  lemma FloorBelow(x: nat, d: nat, l: int)
    requires d > 0
    ensures l >= x / d + 1 <==> l * d > x
  {
    DivAtMost(x, d, l);
  }

  /** What a split of a length that is not negative leaves for the two parts. */
  lemma SplitLeaves(length: nat, count: nat, a: nat, b: nat)
    requires count > 1
    ensures FirstLength(length, count / 2, count) >= a <==> length * (count / 2) >= (a + 2) * count
    ensures length - FirstLength(length, count / 2, count) - GAP >= b
       <==> length * (count - count / 2) > (b + 1) * count
  {
    var f := count / 2;
    var q := (length * f) / count;
    assert length * f >= 0;
    assert FirstLength(length, f, count) == q - 2;
    DivAtMost(length * f, count, a + 2);
    DivAtMost(length * f, count, length - b - 1);
    Distribute(f, count - f, length);
    assert (length - b - 1) * count == length * count - (b + 1) * count;
  }

  lemma SplitExact(length: int, count: nat, a: nat, b: nat)
    requires count > 1
    ensures FirstLength(length, count / 2, count) >= a && length - FirstLength(length, count / 2, count) - GAP >= b
       <==> length >= LeastSplit(count, a, b)
  {
    if length >= 0 {
      SplitLeaves(length, count, a, b);
      CeilAtMost((a + 2) * count, count / 2, length);
      FloorBelow((b + 1) * count, count - count / 2, length);
    } else {
      assert length * (count / 2) <= 0;
    }
  }

  ghost predicate AtLeast(rects: seq<Rect>, side: nat) {
    forall i :: 0 <= i < |rects| ==> rects[i].width >= side && rects[i].height >= side
  }

  predicate Suffices(r: Rect, count: nat, horizontal: bool, side: nat)
    requires count > 0
  {
    r.width >= Need(count, horizontal, side) && r.height >= Need(count, !horizontal, side)
  }

  lemma HalvesExact(r: Rect, count: nat, horizontal: bool, side: nat)
    requires count > 1
    ensures var (a, b) := Halves(r, count, horizontal);
            && (Suffices(a, count / 2, !horizontal, side) && Suffices(b, count - count / 2, !horizontal, side)
                <==> Suffices(r, count, horizontal, side))
            && (a.width >= 0 && a.height >= 0 && b.width >= 0 && b.height >= 0 ==> Before(a, b) && Inside(a, r) && Inside(b, r))
  {
    SplitExact(if horizontal then r.width else r.height, count, Need(count / 2, false, side), Need(count - count / 2, false, side));
  }

  /** No window is smaller than `side` exactly if the area has the length needed both ways. */
  lemma {:induction false} BspSizesIff(r: Rect, count: nat, horizontal: bool, side: nat)
    requires count > 0
    ensures AtLeast(Bsp(r, count, horizontal), side) <==> Suffices(r, count, horizontal, side)
    decreases count
  {
    if count == 1 {
      assert Bsp(r, count, horizontal)[0] == r;
    } else {
      var (a, b) := Halves(r, count, horizontal);
      BspSizesIff(a, count / 2, !horizontal, side);
      BspSizesIff(b, count - count / 2, !horizontal, side);
      AtLeastTogether(Bsp(a, count / 2, !horizontal), Bsp(b, count - count / 2, !horizontal), side);
      HalvesExact(r, count, horizontal, side);
    }
  }

  lemma AtLeastTogether(a: seq<Rect>, b: seq<Rect>, side: nat)
    ensures AtLeast(a + b, side) <==> AtLeast(a, side) && AtLeast(b, side)
  {
    if AtLeast(a + b, side) {
      forall i | 0 <= i < |a| ensures a[i].width >= side && a[i].height >= side { assert (a + b)[i] == a[i]; }
      forall i | 0 <= i < |b| ensures b[i].width >= side && b[i].height >= side { assert (a + b)[|a| + i] == b[i]; }
    }
  }

  lemma {:induction false} BspPlaced(r: Rect, count: nat, horizontal: bool, side: nat)
    requires count > 0 && Suffices(r, count, horizontal, side)
    ensures Placed(Bsp(r, count, horizontal), r, side)
    decreases count
  {
    if count > 1 {
      var (a, b) := Halves(r, count, horizontal);
      HalvesExact(r, count, horizontal, side);
      BspPlaced(a, count / 2, !horizontal, side);
      BspPlaced(b, count - count / 2, !horizontal, side);
      PlacedTogether(Bsp(a, count / 2, !horizontal), Bsp(b, count - count / 2, !horizontal), a, b, r, side);
    }
  }

  /** All windows lie inside the inset output, pairwise a gap apart and none narrower or lower than
      `side`, exactly if each side of the output has room for what its splits need. */
  lemma LayoutPlacedIff(width: int, height: int, n: nat, side: nat)
    requires n > 0
    ensures Placed(Layout(width, height, n), Inset(width, height), side)
       <==> width >= Need(n, true, side) + 2 * GAP && height >= Need(n, false, side) + 2 * GAP
  {
    if Placed(Layout(width, height, n), Inset(width, height), side) {
      BspSizesIff(Inset(width, height), n, true, side);
    } else if Suffices(Inset(width, height), n, true, side) {
      BspPlaced(Inset(width, height), n, true, side);
    }
  }

  // ----- a simpler bound

  lemma FewerFit(length: int, fewer: nat, count: nat, cell: nat)
    requires 0 < fewer <= count && cell >= 4 && Fits(length, count, cell)
    ensures Fits(length, fewer, cell) && length >= 0
  {
    Scale(fewer, count, cell);
    Scale(4, cell, fewer);
  }

  lemma SplitFitsBoth(length: int, count: nat, a: nat, b: nat, cell: nat)
    requires count > 1 && cell >= 4 && length == cell * count - 4
    requires a <= cell * (count / 2) - 4 && b <= cell * (count - count / 2) - 4
    ensures LeastSplit(count, a, b) <= length && a <= length && b <= length
  {
    SplitFits(length, count / 2, count, cell);
    SplitExact(length, count, a, b);
    FewerFit(length, count / 2, count, cell);
    FewerFit(length, count - count / 2, count, cell);
  }

  /** The exact bound never exceeds one that is linear in the number of windows. */
  lemma {:induction false} NeedAtMost(count: nat, split: bool, side: nat)
    requires count > 0
    ensures Need(count, split, side) <= (side + 4) * count - 4
    decreases count
  {
    if count > 1 {
      NeedAtMost(count / 2, !split, side);
      NeedAtMost(count - count / 2, !split, side);
      SplitFitsBoth((side + 4) * count - 4, count, Need(count / 2, !split, side), Need(count - count / 2, !split, side), side + 4);
    }
  }

  /** On an output of at least `(side + 4) * n + 4` pixels each way, all `n` windows lie inside the
      inset output, every two of them are a gap apart, and none is narrower or lower than `side`. */
  lemma LayoutPlaced(width: int, height: int, n: nat, side: nat)
    requires width >= (side + 4) * n + 4 && height >= (side + 4) * n + 4
    ensures Placed(Layout(width, height, n), Inset(width, height), side)
  {
    if n > 0 {
      LayoutPlacedIff(width, height, n, side);
      NeedAtMost(n, true, side);
      NeedAtMost(n, false, side);
    }
  }

  /** The point belongs to the rectangle or to the gap right of or below it. */
  predicate InCell(r: Rect, px: int, py: int) {
    r.x <= px < r.x + r.width + GAP && r.y <= py < r.y + r.height + GAP
  }

  lemma {:induction false} BspCovers(r: Rect, count: nat, horizontal: bool, px: int, py: int) returns (i: nat)
    requires count > 0 && InCell(r, px, py)
    ensures i < |Bsp(r, count, horizontal)| && InCell(Bsp(r, count, horizontal)[i], px, py)
    decreases count
  {
    if count == 1 {
      return 0;
    }
    var (a, b) := Halves(r, count, horizontal);
    if InCell(a, px, py) {
      i := BspCovers(a, count / 2, !horizontal, px, py);
    } else {
      i := BspCovers(b, count - count / 2, !horizontal, px, py);
      i := i + |Bsp(a, count / 2, !horizontal)|;
    }
  }

  /** The windows and their gaps cover every point of the output right of and below its margin; on
      an output that gives no window a negative size each point belongs to exactly one. */
  lemma LayoutCoversExactly(width: int, height: int, n: nat, px: int, py: int) returns (i: nat)
    requires n > 0 && GAP <= px < width && GAP <= py < height
    ensures i < |Layout(width, height, n)| && InCell(Layout(width, height, n)[i], px, py)
    ensures width >= Need(n, true, 0) + 2 * GAP && height >= Need(n, false, 0) + 2 * GAP ==>
              forall j :: 0 <= j < |Layout(width, height, n)| && InCell(Layout(width, height, n)[j], px, py) ==> j == i
  {
    i := BspCovers(Inset(width, height), n, true, px, py);
    if width >= Need(n, true, 0) + 2 * GAP && height >= Need(n, false, 0) + 2 * GAP {
      LayoutPlacedIff(width, height, n, 0);
    }
  }

  /** On an output too small for its windows the rectangles leave the inset output. */
  lemma TooSmallLeavesOutput()
    ensures !Inside(Layout(0, 0, 2)[1], Inset(0, 0))
  {
    assert Bsp(Rect(GAP, GAP, -6, -8), 1, false) == [Rect(GAP, GAP, -6, -8)];
  }
}
