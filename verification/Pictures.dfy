/**
 What one frame update does to a client's framebuffer, as a whole picture.
 */
module Pictures {
  import opened Bytes
  import opened Encoding
  import opened Geometry
  import opened Regions
  import C = Checksum
  import opened Display

  /** The bytes of two pictures at a visible position. */
  ghost function At(o: Output, pixels: seq<byte>, row: nat, col: nat): byte
    requires o.Valid() && o.IsPicture(pixels) && row < o.height && col < o.width * 4
  {
    RowStartMonotone(o.stride, row, o.height);
    pixels[RowStart(o.stride, row) + col]
  }

  /** Every visible byte in which two rendered frames differ lies in one of the boxes. */
  ghost predicate CoversChange(o: Output, a: seq<byte>, b: seq<byte>, boxes: seq<Box>)
    requires o.Valid() && o.IsPicture(a) && o.IsPicture(b)
  {
    forall row: nat, col: nat :: row < o.height && col < o.width * 4 && At(o, a, row, col) != At(o, b, row, col) ==>
      Covered(boxes, row, col)
  }

  lemma PictureAt(o: Output, pixels: seq<byte>, row: nat, col: nat)
    requires o.Valid() && o.IsPicture(pixels) && row < o.height && col < o.width * 4
    ensures RowStart(o.width * 4, row) + col < |Picture(o, pixels)|
    ensures Picture(o, pixels)[RowStart(o.width * 4, row) + col] == At(o, pixels, row, col)
  {
    PictureShows(o, pixels);
    PackedAt(pixels, o.stride, o.Full(), o.height, row, col);
  }

  lemma UpdateApplies(o: Output, fb: seq<byte>, pixels: seq<byte>, boxes: seq<Box>, n: nat)
    requires o.Valid() && o.IsPicture(pixels) && o.IsClientBuffer(fb) && AllOnOutput(boxes, o.width, o.height)
    ensures CanApply(o, fb, UpdateOf(o, pixels, boxes, n))
  {
  }

  lemma AppliedUpdateAt(o: Output, fb: seq<byte>, pixels: seq<byte>, boxes: seq<Box>, n: nat, row: nat, col: nat)
    requires o.Valid() && o.IsPicture(pixels) && o.IsClientBuffer(fb) && AllOnOutput(boxes, o.width, o.height)
    requires CanApply(o, fb, UpdateOf(o, pixels, boxes, n))
    requires row < o.height && col < o.width * 4
    ensures var i := RowStart(o.width * 4, row) + col;
            i < |fb| &&
            BufferAfter(o, fb, UpdateOf(o, pixels, boxes, n))[i]
            == if Covered(boxes, row, col) then At(o, pixels, row, col) else fb[i]
  {
    assert BufferAfter(o, fb, UpdateOf(o, pixels, boxes, n))
           == AppliedAll(fb, o.width, o.height, o.width * 4, EncodedAll(pixels, o.width, o.height, o.stride, boxes));
    AppliedAllAt(pixels, o.stride, fb, o.width * 4, o.width, o.height, boxes, row, col);
  }

  /** The four bytes of a pixel, if the buffer has them. */
  ghost function PixelOf(o: Output, fb: seq<byte>, row: nat, px: nat): seq<byte> {
    var i := RowStart(o.width * 4, row) + px * 4;
    if i + 4 <= |fb| then fb[i..i + 4] else []
  }

  /** The boxes are made of whole pixels. */
  lemma PixelCovered(boxes: seq<Box>, row: nat, px: nat, c: nat)
    requires c < 4
    ensures Covered(boxes, row, px * 4 + c) <==> Covered(boxes, row, px * 4)
  {
    if i :| 0 <= i < |boxes| && Hits(boxes[i], row, px * 4) {
      assert Hits(boxes[i], row, px * 4 + c);
    }
    if i :| 0 <= i < |boxes| && Hits(boxes[i], row, px * 4 + c) {
      assert Hits(boxes[i], row, px * 4);
    }
  }

  lemma UpdatedByte(o: Output, fb: seq<byte>, pixels: seq<byte>, boxes: seq<Box>, n: nat, row: nat, px: nat, c: nat)
    requires o.Valid() && o.IsPicture(pixels) && o.IsClientBuffer(fb) && AllOnOutput(boxes, o.width, o.height)
    requires CanApply(o, fb, UpdateOf(o, pixels, boxes, n)) && row < o.height && px < o.width && c < 4
    ensures var i := RowStart(o.width * 4, row) + px * 4 + c;
            i < |fb| && BufferAfter(o, fb, UpdateOf(o, pixels, boxes, n))[i]
                     == (if Covered(boxes, row, px * 4) then Picture(o, pixels) else fb)[i]
  {
    PixelCovered(boxes, row, px, c);
    AppliedUpdateAt(o, fb, pixels, boxes, n, row, px * 4 + c);
    PictureAt(o, pixels, row, px * 4 + c);
  }

  lemma SamePixel(o: Output, a: seq<byte>, b: seq<byte>, row: nat, px: nat)
    requires |a| == |b|
    requires var i := RowStart(o.width * 4, row) + px * 4;
             i + 4 <= |a| && a[i] == b[i] && a[i + 1] == b[i + 1] && a[i + 2] == b[i + 2] && a[i + 3] == b[i + 3]
    ensures PixelOf(o, a, row, px) == PixelOf(o, b, row, px)
  {
  }

  /** Every pixel of the buffer is left alone or, exactly where a box covers it, replaced as a whole
      by the frame's. */
  lemma UpdatedPixel(o: Output, fb: seq<byte>, pixels: seq<byte>, boxes: seq<Box>, n: nat, row: nat, px: nat)
    requires o.Valid() && o.IsPicture(pixels) && o.IsClientBuffer(fb) && AllOnOutput(boxes, o.width, o.height)
    requires row < o.height && px < o.width
    ensures CanApply(o, fb, UpdateOf(o, pixels, boxes, n))
    ensures PixelOf(o, BufferAfter(o, fb, UpdateOf(o, pixels, boxes, n)), row, px)
         == PixelOf(o, if Covered(boxes, row, px * 4) then Picture(o, pixels) else fb, row, px)
  {
    UpdateApplies(o, fb, pixels, boxes, n);
    UpdatedByte(o, fb, pixels, boxes, n, row, px, 0);
    UpdatedByte(o, fb, pixels, boxes, n, row, px, 1);
    UpdatedByte(o, fb, pixels, boxes, n, row, px, 2);
    UpdatedByte(o, fb, pixels, boxes, n, row, px, 3);
    var from := if Covered(boxes, row, px * 4) then Picture(o, pixels) else fb;
    SamePixel(o, BufferAfter(o, fb, UpdateOf(o, pixels, boxes, n)), from, row, px);
  }

  /** A delta applied to the picture it was computed against yields the new picture. */
  lemma DeltaKeepsSync(o: Output, a: seq<byte>, b: seq<byte>, boxes: seq<Box>, n: nat)
    requires o.Valid() && o.IsPicture(a) && o.IsPicture(b) && AllOnOutput(boxes, o.width, o.height)
    requires CoversChange(o, a, b, boxes)
    ensures CanApply(o, Picture(o, a), UpdateOf(o, b, boxes, n))
    ensures BufferAfter(o, Picture(o, a), UpdateOf(o, b, boxes, n)) == Picture(o, b)
  {
    var fb := Picture(o, a);
    UpdateApplies(o, fb, b, boxes, n);
    var after := BufferAfter(o, fb, UpdateOf(o, b, boxes, n));
    forall i | 0 <= i < |fb| ensures after[i] == Picture(o, b)[i] {
      var row, col := RowAndColumn(o.width * 4, o.height, i);
      AppliedUpdateAt(o, fb, b, boxes, n, row, col);
      PictureAt(o, a, row, col);
      PictureAt(o, b, row, col);
    }
  }

  /** A keyframe yields its picture whatever the client held before. */
  lemma KeyframeRestores(o: Output, fb: seq<byte>, b: seq<byte>, n: nat)
    requires o.Valid() && o.IsPicture(b) && o.IsClientBuffer(fb)
    ensures AllOnOutput([o.Full()], o.width, o.height) && CanApply(o, fb, UpdateOf(o, b, [o.Full()], n))
    ensures BufferAfter(o, fb, UpdateOf(o, b, [o.Full()], n)) == Picture(o, b)
  {
    var boxes := [o.Full()];
    UpdateApplies(o, fb, b, boxes, n);
    var after := BufferAfter(o, fb, UpdateOf(o, b, boxes, n));
    forall i | 0 <= i < |fb| ensures after[i] == Picture(o, b)[i] {
      var row, col := RowAndColumn(o.width * 4, o.height, i);
      assert Hits(boxes[0], row, col);
      AppliedUpdateAt(o, fb, b, boxes, n, row, col);
      PictureAt(o, b, row, col);
    }
  }

  // ----- checksums

  lemma {:induction false} PackedWhole(fb: seq<byte>, width: nat, b: Box, rows: nat)
    requires b.x == b.y == 0 && b.width == width && InBounds(|fb|, width * 4, b) && rows <= b.height
    ensures RowStart(width * 4, rows) <= |fb| && PackedRows(fb, width * 4, b, rows) == fb[..RowStart(width * 4, rows)]
  {
    if rows > 0 {
      RowInBounds(|fb|, width * 4, b, rows - 1);
      PackedWhole(fb, width, b, rows - 1);
    }
  }

  /** A client showing the picture of a frame computes the checksum the server sent with it. */
  lemma InSyncMatches(o: Output, pixels: seq<byte>, boxes: seq<Box>, n: nat)
    requires o.Valid() && o.IsPicture(pixels) && AllOnOutput(boxes, o.width, o.height)
    ensures Matches(o, Picture(o, pixels), UpdateOf(o, pixels, boxes, n))
  {
    var fb := Picture(o, pixels);
    PictureShows(o, pixels);
    ClientBufferShows(o, fb);
    PackedWhole(fb, o.width, o.Full(), o.height);
    assert fb[..RowStart(o.width * 4, o.height)] == fb;
    C.SamePictureSameChecksum(fb, o.width * 4, pixels, o.stride, o.width, o.height);
  }

  /** Two buffers agree in one pixel. */
  ghost predicate SamePixelAt(o: Output, a: seq<byte>, b: seq<byte>, row: nat, px: nat) {
    PixelOf(o, a, row, px) == PixelOf(o, b, row, px)
  }

  /** Two screens differ in pixel `px` of row `row` and nowhere else. */
  ghost predicate OnePixelApart(o: Output, a: seq<byte>, b: seq<byte>, row: nat, px: nat) {
    && o.Valid() && o.IsClientBuffer(a) && o.IsClientBuffer(b) && row < o.height && px < o.width
    && !SamePixelAt(o, a, b, row, px)
    && forall r: nat, p: nat :: r < o.height && p < o.width && (r != row || p != px) ==> SamePixelAt(o, a, b, r, p)
  }

  lemma PixelByte(o: Output, fb: seq<byte>, row: nat, px: nat, c: nat)
    requires o.Valid() && o.IsClientBuffer(fb) && row < o.height && px < o.width && c < 4
    ensures RowStart(o.width * 4, row) + px * 4 + 4 <= |fb| && |PixelOf(o, fb, row, px)| == 4
    ensures PixelOf(o, fb, row, px)[c] == fb[RowStart(o.width * 4, row) + px * 4 + c]
  {
    RowStartMonotone(o.width * 4, row, o.height);
  }

  ghost function ScreenLines(o: Output, fb: seq<byte>): (lines: seq<seq<byte>>)
    requires o.Valid() && o.IsClientBuffer(fb)
    ensures |lines| == o.height
  {
    ClientBufferShows(o, fb);
    C.LinesOf(fb, o.width * 4, o.width, o.height)
  }

  lemma ScreenByte(o: Output, fb: seq<byte>, row: nat, px: nat, c: nat)
    requires o.Valid() && o.IsClientBuffer(fb) && row < o.height && px < o.width && c < 4
    ensures |ScreenLines(o, fb)[row]| == o.width * 4 && |PixelOf(o, fb, row, px)| == 4
    ensures ScreenLines(o, fb)[row][px * 4 + c] == PixelOf(o, fb, row, px)[c]
  {
    ClientBufferShows(o, fb);
    C.LineOf(fb, o.width * 4, o.width, o.height, row);
    PixelByte(o, fb, row, px, c);
  }

  lemma SameScreenByte(o: Output, a: seq<byte>, b: seq<byte>, row: nat, col: nat)
    requires o.Valid() && o.IsClientBuffer(a) && o.IsClientBuffer(b) && row < o.height && col < o.width * 4
    requires SamePixelAt(o, a, b, row, col / 4)
    ensures |ScreenLines(o, a)[row]| == |ScreenLines(o, b)[row]| == o.width * 4
    ensures ScreenLines(o, a)[row][col] == ScreenLines(o, b)[row][col]
  {
    ScreenByte(o, a, row, col / 4, col % 4);
    ScreenByte(o, b, row, col / 4, col % 4);
  }

  lemma OtherLinesSame(o: Output, a: seq<byte>, b: seq<byte>, row: nat, px: nat, r: nat)
    requires OnePixelApart(o, a, b, row, px) && r < o.height && r != row
    ensures ScreenLines(o, a)[r] == ScreenLines(o, b)[r]
  {
    ScreenByte(o, a, r, 0, 0);
    ScreenByte(o, b, r, 0, 0);
    forall col: nat | col < o.width * 4 ensures ScreenLines(o, a)[r][col] == ScreenLines(o, b)[r][col] {
      assert SamePixelAt(o, a, b, r, col / 4);
      SameScreenByte(o, a, b, r, col);
    }
  }

  lemma LineApart(o: Output, a: seq<byte>, b: seq<byte>, row: nat, px: nat)
    requires OnePixelApart(o, a, b, row, px)
    ensures C.OneWordApart(ScreenLines(o, a)[row], ScreenLines(o, b)[row], px / 2 * 8)
  {
    var x, y := ScreenLines(o, a)[row], ScreenLines(o, b)[row];
    ScreenByte(o, a, row, px, 0);
    ScreenByte(o, b, row, px, 0);
    forall col: nat | col < o.width * 4 && x[col] != y[col] ensures col / 4 == px {
      if col / 4 != px {
        assert SamePixelAt(o, a, b, row, col / 4);
        SameScreenByte(o, a, b, row, col);
      }
    }
    if x == y {
      forall c: nat | c < 4 ensures PixelOf(o, a, row, px)[c] == PixelOf(o, b, row, px)[c] {
        ScreenByte(o, a, row, px, c);
        ScreenByte(o, b, row, px, c);
      }
    }
  }

  ghost function ScreenHash(o: Output, fb: seq<byte>): bv64
    requires o.Valid() && o.IsClientBuffer(fb)
  {
    ClientBufferShows(o, fb);
    C.HashRows(fb, o.width * 4, o.width, o.height)
  }

  /** One wrong pixel changes the hash of a screen. */
  lemma OnePixelChangesHash(o: Output, a: seq<byte>, b: seq<byte>, row: nat, px: nat)
    requires OnePixelApart(o, a, b, row, px)
    ensures ScreenHash(o, a) != ScreenHash(o, b)
  {
    ClientBufferShows(o, a);
    ClientBufferShows(o, b);
    LineApart(o, a, b, row, px);
    forall r | 0 <= r < o.height && r != row ensures ScreenLines(o, a)[r] == ScreenLines(o, b)[r] {
      OtherLinesSame(o, a, b, row, px, r);
    }
    C.OneWordChangesHash(a, o.width * 4, b, o.width * 4, o.width, o.height, row, px / 2 * 8);
  }

  /** A client finds a frame's checksum right exactly if the hashes of its screen and of the frame's
      picture fold alike (see `Checksum.FoldCollidesIff`). */
  lemma MatchesIff(o: Output, fb: seq<byte>, pixels: seq<byte>, boxes: seq<Box>, n: nat)
    requires o.Valid() && o.IsPicture(pixels) && o.IsClientBuffer(fb) && AllOnOutput(boxes, o.width, o.height)
    ensures Matches(o, fb, UpdateOf(o, pixels, boxes, n))
       <==> C.Fold32(ScreenHash(o, fb)) == C.Fold32(ScreenHash(o, Picture(o, pixels)))
  {
    InSyncMatches(o, pixels, boxes, n);
    ClientBufferShows(o, fb);
    ClientBufferShows(o, Picture(o, pixels));
  }

  /** A client that shows a frame but for one pixel finds its checksum right only if the two hashes,
      which differ, differ in the lower half as they do in the upper. */
  lemma OnePixelNoticed(o: Output, fb: seq<byte>, pixels: seq<byte>, boxes: seq<Box>, n: nat, row: nat, px: nat, g: bv64, h: bv64)
    requires o.Valid() && o.IsPicture(pixels) && o.IsClientBuffer(fb) && AllOnOutput(boxes, o.width, o.height)
    requires OnePixelApart(o, fb, Picture(o, pixels), row, px)
    requires g == ScreenHash(o, fb) && h == ScreenHash(o, Picture(o, pixels))
    ensures g != h && (Matches(o, fb, UpdateOf(o, pixels, boxes, n)) <==> C.Confusable(g, h))
  {
    OnePixelChangesHash(o, fb, Picture(o, pixels), row, px);
    MatchesIff(o, fb, pixels, boxes, n);
    C.FoldCollidesIff(g, h);
  }

  // ----- damage

  /** The renderer's promise: unless it reports nothing, its rectangles contain every visible
      pixel that changed since the frame rendered before. */
  ghost predicate DamageCovers(o: Output, a: seq<byte>, b: seq<byte>, damage: Damage)
    requires o.Valid() && o.IsPicture(a) && o.IsPicture(b)
  {
    damage.Known? && damage.rects != [] ==>
      forall row: nat, col: nat ::
        row < o.height && col < o.width * 4 && At(o, a, row, col) != At(o, b, row, col) ==>
        Touched(damage.rects, row, col / 4)
  }

  ghost predicate Touched(rects: seq<Rect>, row: nat, px: nat) {
    exists k :: 0 <= k < |rects| && Contains(rects[k], row, px)
  }

  /** Whichever way the frame is encoded, its boxes cover what changed. */
  lemma BoxesCoverChange(o: Output, a: seq<byte>, b: seq<byte>, keyframe: bool, damage: Damage)
    requires o.Valid() && o.IsPicture(a) && o.IsPicture(b) && DamageCovers(o, a, b, damage)
    ensures CoversChange(o, a, b, FrameBoxes(o, keyframe, damage))
  {
    var boxes := FrameBoxes(o, keyframe, damage);
    forall row: nat, col: nat | row < o.height && col < o.width * 4 && At(o, a, row, col) != At(o, b, row, col)
      ensures Covered(boxes, row, col)
    {
      if damage.Known? && damage.rects != [] && !keyframe {
        var px, c := col / 4, col % 4;
        assert col == px * 4 + c;
        assert Touched(damage.rects, row, px);
        var k :| 0 <= k < |damage.rects| && Contains(damage.rects[k], row, px);
        DamageBoxesCover(damage.rects, o.width, o.height, k, row, px, c);
      } else {
        assert Hits(boxes[0], row, col);
      }
    }
  }

  /** What a frame carries: everything, if it is a keyframe or nothing is known of the damage; otherwise
      exactly the pixels of the damage rectangles, those that start off the output pushed in. */
  lemma FrameCarriesExactly(o: Output, keyframe: bool, damage: Damage, row: nat, px: nat)
    requires row < o.height && px < o.width
    ensures Covered(FrameBoxes(o, keyframe, damage), row, px * 4)
       <==> keyframe || damage.Unknown? || damage.rects == [] ||
            exists k :: 0 <= k < |damage.rects| && Contains(PushedIn(damage.rects[k]), row, px)
  {
    var boxes := FrameBoxes(o, keyframe, damage);
    if damage.Known? && damage.rects != [] && !keyframe {
      if k :| 0 <= k < |damage.rects| && Contains(PushedIn(damage.rects[k]), row, px) {
        ClampExact(damage.rects[k], o.width, o.height, row, px, 0);
        BoxOf(damage.rects, o.width, o.height, k);
      }
      if i :| 0 <= i < |boxes| && Hits(boxes[i], row, px * 4) {
        DamageBoxesTight(damage.rects, o.width, o.height, i);
        var k :| 0 <= k < |damage.rects| && boxes[i] == Clamp(damage.rects[k], o.width, o.height);
        ClampExact(damage.rects[k], o.width, o.height, row, px, 0);
      }
    } else {
      assert Hits(boxes[0], row, px * 4);
    }
  }
}
