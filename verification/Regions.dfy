/**
 From the damage rectangles the renderer reports to the list of regions a frame carries,
 and what applying such a list does to the receiving framebuffer.
 */
module Regions {
  import opened Bytes
  import opened Encoding
  import opened Geometry
  import opened Numbers

  // damage rectangles may start left of or above the output

  /** The box that is encoded for a rectangle on a `width` x `height` output. */
  function Clamp(r: Rect, width: nat, height: nat): Box {
    Box(Max(r.x, 0), Max(r.y, 0),
        Max(Min(r.width, width - Max(r.x, 0)), 0), Max(Min(r.height, height - Max(r.y, 0)), 0))
  }

  predicate Contains(r: Rect, row: int, px: int) {
    r.y <= row < r.y + r.height && r.x <= px < r.x + r.width
  }

  /** Cutting the clamped box out of a buffer of `height` rows stays in the buffer, unless the
      rectangle starts right of the output, some of its rows are on it, and fewer than `r.x`
      pixels are left in the buffer from the start of the last of them. */
  lemma ClampInBoundsIff(r: Rect, width: nat, height: nat, stride: nat)
    requires width * 4 <= stride
    ensures var b := Clamp(r, width, height);
            InBounds(RowStart(stride, height), stride, b)
            <==> r.x <= width || b.height == 0 || r.x * 4 <= RowStart(stride, height - (b.y + b.height - 1))
  {
    var b := Clamp(r, width, height);
    if b.height > 0 {
      var last := b.y + b.height - 1;
      RowStartAdd(stride, last, height - last);
      RowStartMonotone(stride, 1, height - last);
    }
  }

  /** A rectangle that starts right of the output and reaches its bottom row is one that
      cannot be encoded when rows have no padding. */
  lemma ClampOutOfBoundsExample()
    ensures !InBounds(RowStart(40, 10), 40, Clamp(Rect(11, 0, 5, 10), 10, 10))
  {
    ClampInBoundsIff(Rect(11, 0, 5, 10), 10, 10, 40);
  }

  /** What is encoded covers all of the rectangle that lies on the output. */
  lemma ClampCovers(r: Rect, width: nat, height: nat, row: nat, px: nat, c: nat)
    requires row < height && px < width && c < 4 && Contains(r, row, px)
    ensures Hits(Clamp(r, width, height), row, px * 4 + c)
  {
  }

  /** A rectangle that starts left of or above the output is moved onto it, with its size. */
  function PushedIn(r: Rect): Rect {
    Rect(Max(r.x, 0), Max(r.y, 0), r.width, r.height)
  }

  /** What is encoded is, on the output, exactly the rectangle pushed in. */
  lemma ClampExact(r: Rect, width: nat, height: nat, row: nat, px: nat, c: nat)
    requires row < height && px < width && c < 4
    ensures Hits(Clamp(r, width, height), row, px * 4 + c) <==> Contains(PushedIn(r), row, px)
  {
  }

  /** So more than the rectangle is sent when it starts off the output and ends on it. */
  lemma PushedInCarriesMore()
    ensures var r := Rect(-5, 0, 10, 1);
            !Contains(r, 0, 7) && Hits(Clamp(r, 20, 1), 0, 7 * 4)
  {
  }

  /** Of a rectangle no pixel is added exactly if it is empty, or starts on the output, or reaches its
      far edge, in both directions; or if it has no pixel row or column to be moved onto. */
  lemma NothingAddedIff(r: Rect, width: nat, height: nat)
    requires 0 < width && 0 < height
    ensures (forall row: nat, px: nat :: row < height && px < width && Contains(PushedIn(r), row, px) ==> Contains(r, row, px))
       <==> || r.width <= 0 || r.height <= 0 || r.x >= width || r.y >= height
            || ((r.x >= 0 || r.x + r.width >= width) && (r.y >= 0 || r.y + r.height >= height))
  {
    if r.width > 0 && r.height > 0 && r.x < width && r.y < height {
      var row0, px0 := Max(r.y, 0), Max(r.x, 0);
      var row1, px1 := Min(row0 + r.height, height) - 1, Min(px0 + r.width, width) - 1;
      assert Contains(PushedIn(r), row0, px1) && Contains(PushedIn(r), row1, px0);
    }
  }

  /** Boxes that may be encoded and applied on buffers of `height` rows, at least `width` wide. */
  predicate OnOutput(b: Box, width: nat, height: nat) {
    b.x + b.width <= width && b.y + b.height <= height
  }

  lemma OnOutputFits(b: Box, width: nat, height: nat, stride: nat)
    requires OnOutput(b, width, height) && width * 4 <= stride
    ensures InBounds(RowStart(stride, height), stride, b) && WithinRow(stride, b)
  {
    if b.height > 0 {
      RowStartMonotone(stride, b.y + b.height - 1, height);
    }
  }

  /** The boxes of a delta frame: clamped, empty ones dropped. */
  function DamageBoxes(rects: seq<Rect>, width: nat, height: nat): seq<Box> {
    if rects == [] then [] else
      var b := Clamp(rects[|rects| - 1], width, height);
      DamageBoxes(rects[..|rects| - 1], width, height) + (if b.width > 0 && b.height > 0 then [b] else [])
  }

  ghost predicate AllOnOutput(boxes: seq<Box>, width: nat, height: nat) {
    forall i :: 0 <= i < |boxes| ==> OnOutput(boxes[i], width, height)
  }

  ghost predicate Covered(boxes: seq<Box>, row: nat, col: nat) {
    exists i :: 0 <= i < |boxes| && Hits(boxes[i], row, col)
  }

  lemma {:induction false} DamageBoxesOnOutput(rects: seq<Rect>, width: nat, height: nat)
    ensures AllOnOutput(DamageBoxes(rects, width, height), width, height)
  {
    if rects != [] {
      DamageBoxesOnOutput(rects[..|rects| - 1], width, height);
    }
  }

  lemma {:induction false} DamageBoxesCover(rects: seq<Rect>, width: nat, height: nat, k: nat, row: nat, px: nat, c: nat)
    requires k < |rects| && row < height && px < width && c < 4 && Contains(rects[k], row, px)
    ensures Covered(DamageBoxes(rects, width, height), row, px * 4 + c)
  {
    var n := |rects| - 1;
    var before := DamageBoxes(rects[..n], width, height);
    var all := DamageBoxes(rects, width, height);
    if k == n {
      ClampCovers(rects[k], width, height, row, px, c);
      assert all[|before|] == Clamp(rects[k], width, height);
    } else {
      DamageBoxesCover(rects[..n], width, height, k, row, px, c);
      var i :| 0 <= i < |before| && Hits(before[i], row, px * 4 + c);
      assert all[i] == before[i];
    }
  }

  /** A clamped rectangle that is not empty is among the boxes. */
  lemma {:induction false} BoxOf(rects: seq<Rect>, width: nat, height: nat, k: nat)
    requires k < |rects|
    ensures var b := Clamp(rects[k], width, height);
            0 < b.width && 0 < b.height ==> exists i :: 0 <= i < |DamageBoxes(rects, width, height)| && DamageBoxes(rects, width, height)[i] == b
  {
    var n := |rects| - 1;
    var b := Clamp(rects[k], width, height);
    if 0 < b.width && 0 < b.height {
      var before := DamageBoxes(rects[..n], width, height);
      if k == n {
        assert DamageBoxes(rects, width, height)[|before|] == b;
      } else {
        BoxOf(rects[..n], width, height, k);
        var i :| 0 <= i < |before| && before[i] == b;
        assert DamageBoxes(rects, width, height)[i] == b;
      }
    }
  }

  /** A delta frame carries the clamped rectangles and nothing else, and no empty box. */
  lemma {:induction false} DamageBoxesTight(rects: seq<Rect>, width: nat, height: nat, i: nat)
    requires i < |DamageBoxes(rects, width, height)|
    ensures var b := DamageBoxes(rects, width, height)[i];
            && 0 < b.width && 0 < b.height
            && exists k :: 0 <= k < |rects| && b == Clamp(rects[k], width, height)
  {
    var n := |rects| - 1;
    var before := DamageBoxes(rects[..n], width, height);
    if i < |before| {
      DamageBoxesTight(rects[..n], width, height, i);
      var k :| 0 <= k < n && before[i] == Clamp(rects[..n][k], width, height);
      assert rects[..n][k] == rects[k];
    }
  }

  // ----- a list of regions

  /** A buffer of `len` bytes holds `height` rows of at least `width` pixels. */
  ghost predicate IsFrame(len: nat, width: nat, height: nat, stride: nat) {
    len == RowStart(stride, height) && width * 4 <= stride
  }

  ghost function EncodedAll(pixels: seq<byte>, width: nat, height: nat, stride: nat, boxes: seq<Box>): (rs: seq<DamageRegion>)
    requires IsFrame(|pixels|, width, height, stride) && AllOnOutput(boxes, width, height)
    ensures Deliverable(rs, width, height)
  {
    if boxes == [] then [] else
      var last := boxes[|boxes| - 1];
      OnOutputFits(last, width, height, stride);
      EncodedAll(pixels, width, height, stride, boxes[..|boxes| - 1]) + [EncodedRegion(pixels, stride, last)]
  }

  ghost predicate Deliverable(rs: seq<DamageRegion>, width: nat, height: nat) {
    forall i :: 0 <= i < |rs| ==> DataFits(rs[i]) && OnOutput(rs[i].box, width, height)
  }

  lemma {:induction false} EncodedLength(pixels: seq<byte>, width: nat, height: nat, stride: nat, boxes: seq<Box>)
    requires IsFrame(|pixels|, width, height, stride) && AllOnOutput(boxes, width, height)
    ensures |EncodedAll(pixels, width, height, stride, boxes)| == |boxes|
  {
    if boxes != [] {
      EncodedLength(pixels, width, height, stride, boxes[..|boxes| - 1]);
    }
  }

  /** The buffer after a list of regions has been applied in order. */
  ghost function AppliedAll(fb: seq<byte>, width: nat, height: nat, stride: nat, rs: seq<DamageRegion>): (s: seq<byte>)
    requires IsFrame(|fb|, width, height, stride) && Deliverable(rs, width, height)
    ensures |s| == |fb|
  {
    if rs == [] then fb else
      var last := rs[|rs| - 1];
      OnOutputFits(last.box, width, height, stride);
      Applied(AppliedAll(fb, width, height, stride, rs[..|rs| - 1]), stride, last)
  }

  /** Applying the regions encoded from one picture makes every pixel in their union equal to
      the picture's and leaves every other pixel alone. */
  lemma {:induction false} AppliedAllAt(src: seq<byte>, srcStride: nat, fb: seq<byte>, stride: nat,
                                        width: nat, height: nat, boxes: seq<Box>, row: nat, col: nat)
    requires IsFrame(|src|, width, height, srcStride)
    requires IsFrame(|fb|, width, height, stride)
    requires AllOnOutput(boxes, width, height) && row < height && col < stride
    ensures RowStart(stride, row) + col < |fb|
    ensures Covered(boxes, row, col) ==> RowStart(srcStride, row) + col < |src|
    ensures AppliedAll(fb, width, height, stride, EncodedAll(src, width, height, srcStride, boxes))[RowStart(stride, row) + col]
         == if Covered(boxes, row, col) then src[RowStart(srcStride, row) + col] else fb[RowStart(stride, row) + col]
  {
    RowStartMonotone(stride, row, height);
    if boxes != [] {
      var n := |boxes| - 1;
      var rs := EncodedAll(src, width, height, srcStride, boxes);
      assert |rs| == |boxes| by { EncodedLength(src, width, height, srcStride, boxes); }
      assert rs[..n] == EncodedAll(src, width, height, srcStride, boxes[..n]);
      AppliedAllAt(src, srcStride, fb, stride, width, height, boxes[..n], row, col);
      OnOutputFits(boxes[n], width, height, srcStride);
      OnOutputFits(boxes[n], width, height, stride);
      EncodedThenApplied(src, srcStride, AppliedAll(fb, width, height, stride, rs[..n]), stride, boxes[n], row, col);
      CoveredSnoc(boxes, row, col);
    }
  }

  lemma CoveredSnoc(boxes: seq<Box>, row: nat, col: nat)
    requires boxes != []
    ensures Covered(boxes, row, col)
       <==> Covered(boxes[..|boxes| - 1], row, col) || Hits(boxes[|boxes| - 1], row, col)
  {
    var n := |boxes| - 1;
    if Covered(boxes[..n], row, col) {
      var i :| 0 <= i < n && Hits(boxes[..n][i], row, col);
      assert Hits(boxes[i], row, col);
    }
    if Covered(boxes, row, col) {
      var i :| 0 <= i < |boxes| && Hits(boxes[i], row, col);
      assert i == n || boxes[..n][i] == boxes[i];
    }
  }

  ghost predicate SameCoverage(a: seq<Box>, b: seq<Box>) {
    forall row: nat, col: nat :: Covered(a, row, col) <==> Covered(b, row, col)
  }

  lemma {:induction false} SameCoverageSameByte(src: seq<byte>, srcStride: nat, fb: seq<byte>, stride: nat,
                                                width: nat, height: nat, a: seq<Box>, b: seq<Box>, i: nat)
    requires IsFrame(|src|, width, height, srcStride) && IsFrame(|fb|, width, height, stride)
    requires AllOnOutput(a, width, height) && AllOnOutput(b, width, height)
    requires SameCoverage(a, b) && i < |fb|
    ensures AppliedAll(fb, width, height, stride, EncodedAll(src, width, height, srcStride, a))[i]
         == AppliedAll(fb, width, height, stride, EncodedAll(src, width, height, srcStride, b))[i]
  {
    var row, col := RowAndColumn(stride, height, i);
    AppliedAllAt(src, srcStride, fb, stride, width, height, a, row, col);
    AppliedAllAt(src, srcStride, fb, stride, width, height, b, row, col);
  }

  /** Only the union of the boxes matters: neither their order, nor overlaps, nor repetitions
      change the result. */
  lemma SameCoverageSameResult(src: seq<byte>, srcStride: nat, fb: seq<byte>, stride: nat,
                                width: nat, height: nat, a: seq<Box>, b: seq<Box>)
    requires IsFrame(|src|, width, height, srcStride) && IsFrame(|fb|, width, height, stride)
    requires AllOnOutput(a, width, height) && AllOnOutput(b, width, height)
    requires SameCoverage(a, b)
    ensures AppliedAll(fb, width, height, stride, EncodedAll(src, width, height, srcStride, a))
         == AppliedAll(fb, width, height, stride, EncodedAll(src, width, height, srcStride, b))
  {
    var x := AppliedAll(fb, width, height, stride, EncodedAll(src, width, height, srcStride, a));
    var y := AppliedAll(fb, width, height, stride, EncodedAll(src, width, height, srcStride, b));
    forall i | 0 <= i < |fb| ensures x[i] == y[i] {
      SameCoverageSameByte(src, srcStride, fb, stride, width, height, a, b, i);
    }
  }

  /** Applying a frame a second time changes nothing. */
  lemma {:induction false} ApplyingTwice(src: seq<byte>, srcStride: nat, fb: seq<byte>, stride: nat,
                                         width: nat, height: nat, boxes: seq<Box>)
    requires IsFrame(|src|, width, height, srcStride) && IsFrame(|fb|, width, height, stride)
    requires AllOnOutput(boxes, width, height)
    ensures var rs := EncodedAll(src, width, height, srcStride, boxes);
            var once := AppliedAll(fb, width, height, stride, rs);
            AppliedAll(once, width, height, stride, rs) == once
  {
    var rs := EncodedAll(src, width, height, srcStride, boxes);
    var once := AppliedAll(fb, width, height, stride, rs);
    var twice := AppliedAll(once, width, height, stride, rs);
    forall i | 0 <= i < |fb| ensures twice[i] == once[i] {
      var row, col := RowAndColumn(stride, height, i);
      AppliedAllAt(src, srcStride, fb, stride, width, height, boxes, row, col);
      AppliedAllAt(src, srcStride, once, stride, width, height, boxes, row, col);
    }
  }
}
