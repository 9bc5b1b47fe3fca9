/**
 The frame codec: rectangles of absolute pixels are cut out of one framebuffer and
 copied into another whose rows may be padded differently. A pixel is 4 bytes (BGRA8888). The loops work on byte
 offsets; the lemmas say what they do to the pixel in a given row and column.
 */
module Encoding {

  import opened Bytes

  /** A rectangle of the framebuffer, in pixels. */
  datatype Box = Box(x: nat, y: nat, width: nat, height: nat)

  /** A rectangle together with its pixels, rows packed without padding. */
  datatype DamageRegion = DamageRegion(box: Box, data: seq<byte>)

  /** `row * stride`, by repeated addition (see `RowStartIsProduct`). */
  ghost function RowStart(stride: nat, row: nat): nat {
    if row == 0 then 0 else RowStart(stride, row - 1) + stride
  }

  lemma {:induction false} RowStartIsProduct(stride: nat, row: nat)
    ensures RowStart(stride, row) == row * stride
  {
    if row > 0 {
      RowStartIsProduct(stride, row - 1);
      assert row * stride == (row - 1) * stride + stride;
    }
  }

  lemma {:induction false} RowStartMonotone(stride: nat, a: nat, b: nat)
    requires a <= b
    ensures RowStart(stride, a) <= RowStart(stride, b)
    ensures a < b ==> RowStart(stride, a) + stride <= RowStart(stride, b)
  {
    if a < b {
      RowStartMonotone(stride, a, b - 1);
    }
  }

  lemma {:induction false} RowStartAdd(stride: nat, a: nat, b: nat)
    ensures RowStart(stride, a + b) == RowStart(stride, a) + RowStart(stride, b)
  {
    if b > 0 {
      RowStartAdd(stride, a, b - 1);
    }
  }

  /** Every position of a buffer of `height` rows lies in one row, at one column. */
  lemma {:induction false} RowAndColumn(stride: nat, height: nat, i: nat) returns (row: nat, col: nat)
    requires i < RowStart(stride, height)
    ensures row < height && col < stride && i == RowStart(stride, row) + col
  {
    if i >= RowStart(stride, height - 1) {
      row, col := height - 1, i - RowStart(stride, height - 1);
    } else {
      row, col := RowAndColumn(stride, height - 1, i);
    }
  }

  /** First byte of row `row` of a box. */
  ghost function Offset(stride: nat, b: Box, row: nat): nat {
    RowStart(stride, b.y + row) + b.x * 4
  }

  /** Every row of the box can be sliced out of a buffer of `len` bytes: the last one can. */
  ghost predicate InBounds(len: nat, stride: nat, b: Box) {
    b.height == 0 || Offset(stride, b, b.height - 1) + b.width * 4 <= len
  }

  lemma RowInBounds(len: nat, stride: nat, b: Box, row: nat)
    requires InBounds(len, stride, b) && row < b.height
    ensures Offset(stride, b, row) + b.width * 4 <= len
  {
    RowStartMonotone(stride, b.y + row, b.y + b.height - 1);
  }

  /** The packed data of a region is at least what its box announces. */
  ghost predicate DataFits(r: DamageRegion) {
    RowStart(r.box.width * 4, r.box.height) <= |r.data|
  }

  ghost predicate Applicable(len: nat, stride: nat, r: DamageRegion) {
    InBounds(len, stride, r.box) && DataFits(r)
  }

  // ----- specification of the loops

  /** The first `rows` rows of a box, packed. */
  ghost function PackedRows(pixels: seq<byte>, stride: nat, b: Box, rows: nat): (s: seq<byte>)
    requires InBounds(|pixels|, stride, b) && rows <= b.height
    ensures |s| == RowStart(b.width * 4, rows)
  {
    if rows == 0 then [] else
      RowInBounds(|pixels|, stride, b, rows - 1);
      var start := Offset(stride, b, rows - 1);
      PackedRows(pixels, stride, b, rows - 1) + pixels[start..start + b.width * 4]
  }

  ghost function EncodedRegion(pixels: seq<byte>, stride: nat, b: Box): (r: DamageRegion)
    requires InBounds(|pixels|, stride, b)
    ensures DataFits(r) && r.box == b
  {
    DamageRegion(b, PackedRows(pixels, stride, b, b.height))
  }

  /** `s` with `t` written over it from position `at` on. */
  ghost function Splice(s: seq<byte>, at: nat, t: seq<byte>): (r: seq<byte>)
    requires at + |t| <= |s|
    ensures |r| == |s|
  {
    seq(|s|, i requires 0 <= i < |s| => if at <= i < at + |t| then t[i - at] else s[i])
  }

  lemma SpliceAt(s: seq<byte>, at: nat, t: seq<byte>, i: nat)
    requires at + |t| <= |s| && i < |s|
    ensures Splice(s, at, t)[i] == if at <= i < at + |t| then t[i - at] else s[i]
  {
  }

  ghost function DataRow(r: DamageRegion, row: nat): (s: seq<byte>)
    requires DataFits(r) && row < r.box.height
    ensures |s| == r.box.width * 4
  {
    var n := r.box.width * 4;
    RowStartMonotone(n, row, r.box.height);
    r.data[RowStart(n, row)..RowStart(n, row) + n]
  }

  /** The buffer after the first `rows` rows of a region have been copied into it. */
  ghost function AppliedRows(fb: seq<byte>, stride: nat, r: DamageRegion, rows: nat): (s: seq<byte>)
    requires Applicable(|fb|, stride, r) && rows <= r.box.height
    ensures |s| == |fb|
  {
    if rows == 0 then fb else
      RowInBounds(|fb|, stride, r.box, rows - 1);
      Splice(AppliedRows(fb, stride, r, rows - 1), Offset(stride, r.box, rows - 1), DataRow(r, rows - 1))
  }

  ghost function Applied(fb: seq<byte>, stride: nat, r: DamageRegion): (s: seq<byte>)
    requires Applicable(|fb|, stride, r)
    ensures |s| == |fb|
  {
    AppliedRows(fb, stride, r, r.box.height)
  }

  // ----- the loops

  method EncodeRegion(pixels: seq<byte>, stride: nat, b: Box) returns (r: DamageRegion)
    requires InBounds(|pixels|, stride, b)
    ensures r == EncodedRegion(pixels, stride, b)
  {
    var data := [];
    var row := 0;
    while row < b.height
      invariant 0 <= row <= b.height
      invariant data == PackedRows(pixels, stride, b, row)
    {
      var start := (b.y + row) * stride + b.x * 4;
      RowStartIsProduct(stride, b.y + row);
      RowInBounds(|pixels|, stride, b, row);
      data := data + pixels[start..start + b.width * 4];
      row := row + 1;
    }
    r := DamageRegion(b, data);
  }

  /** Copy `t` into the buffer at `at`. */
  method CopyFromSlice(fb: array<byte>, at: nat, t: seq<byte>)
    requires at + |t| <= fb.Length
    modifies fb
    ensures fb[..] == Splice(old(fb[..]), at, t)
  {
    forall j | 0 <= j < |t| {
      fb[at + j] := t[j];
    }
  }

  /** The two indices of a row are where the specification has it, and in bounds. */
  lemma RowIndices(len: nat, stride: nat, r: DamageRegion, row: nat)
    requires Applicable(len, stride, r) && row < r.box.height
    ensures (r.box.y + row) * stride + r.box.x * 4 == Offset(stride, r.box, row)
    ensures Offset(stride, r.box, row) + r.box.width * 4 <= len
    ensures row * (r.box.width * 4) == RowStart(r.box.width * 4, row)
    ensures RowStart(r.box.width * 4, row) + r.box.width * 4 <= |r.data|
  {
    RowStartIsProduct(stride, r.box.y + row);
    RowStartIsProduct(r.box.width * 4, row);
    RowStartMonotone(r.box.width * 4, row, r.box.height);
    RowInBounds(len, stride, r.box, row);
  }

  /** The body of the loop over the rows of a region. */
  method ApplyRow(fb: array<byte>, stride: nat, r: DamageRegion, row: nat)
    requires Applicable(fb.Length, stride, r) && row < r.box.height
    requires Offset(stride, r.box, row) + r.box.width * 4 <= fb.Length
    modifies fb
    ensures fb[..] == Splice(old(fb[..]), Offset(stride, r.box, row), DataRow(r, row))
  {
    RowIndices(fb.Length, stride, r, row);
    var n := r.box.width * 4;
    var dst := (r.box.y + row) * stride + r.box.x * 4;
    var src := row * n;
    CopyFromSlice(fb, dst, r.data[src..src + n]);
  }

  method ApplyRegion(fb: array<byte>, stride: nat, r: DamageRegion)
    requires Applicable(fb.Length, stride, r)
    modifies fb
    ensures fb[..] == Applied(old(fb[..]), stride, r)
  {
    ghost var start := fb[..];
    var row := 0;
    while row < r.box.height
      invariant 0 <= row <= r.box.height
      invariant fb[..] == AppliedRows(start, stride, r, row)
    {
      RowInBounds(fb.Length, stride, r.box, row);
      ApplyRow(fb, stride, r, row);
      row := row + 1;
    }
  }

  // ----- what the loops do to a pixel

  /** Byte `col` of row `row` lies in the first `rows` rows of the box. */
  predicate HitsRows(b: Box, rows: nat, row: nat, col: nat) {
    b.y <= row < b.y + rows && b.x * 4 <= col < b.x * 4 + b.width * 4
  }

  predicate Hits(b: Box, row: nat, col: nat) {
    HitsRows(b, b.height, row, col)
  }

  /** The box ends within a row, so that its rows do not run into one another. */
  predicate WithinRow(stride: nat, b: Box) {
    b.x * 4 + b.width * 4 <= stride
  }

  lemma {:induction false} PackedAt(pixels: seq<byte>, stride: nat, b: Box, rows: nat, row: nat, c: nat)
    requires InBounds(|pixels|, stride, b) && row < rows <= b.height && c < b.width * 4
    ensures RowStart(b.width * 4, row) + c < RowStart(b.width * 4, rows)
    ensures Offset(stride, b, row) + c < |pixels|
    ensures PackedRows(pixels, stride, b, rows)[RowStart(b.width * 4, row) + c]
         == pixels[Offset(stride, b, row) + c]
  {
    RowInBounds(|pixels|, stride, b, row);
    RowStartMonotone(b.width * 4, row, rows - 1);
    if row < rows - 1 {
      PackedAt(pixels, stride, b, rows - 1, row, c);
    }
  }

  /** Column `col` of row `row` is among the `n` bytes from column `lo` of row `other` just when
      it is in that row and in those columns. */
  lemma RowsApart(stride: nat, row: nat, col: nat, other: nat, lo: nat, n: nat)
    requires col < stride && lo + n <= stride
    ensures RowStart(stride, other) + lo <= RowStart(stride, row) + col < RowStart(stride, other) + lo + n
       <==> row == other && lo <= col < lo + n
  {
    if row < other { RowStartMonotone(stride, row, other); }
    if other < row { RowStartMonotone(stride, other, row); }
  }

  /** Which positions row `k` of the box is copied to. */
  lemma RowHit(stride: nat, b: Box, k: nat, row: nat, col: nat)
    requires WithinRow(stride, b) && col < stride
    ensures Offset(stride, b, k) <= RowStart(stride, row) + col < Offset(stride, b, k) + b.width * 4
       <==> row == b.y + k && b.x * 4 <= col < b.x * 4 + b.width * 4
    ensures row == b.y + k ==> RowStart(stride, row) + col - Offset(stride, b, k) == col - b.x * 4
  {
    RowsApart(stride, row, col, b.y + k, b.x * 4, b.width * 4);
  }

  lemma AppliedRowsSnoc(fb: seq<byte>, stride: nat, r: DamageRegion, rows: nat, i: nat)
    requires Applicable(|fb|, stride, r) && 0 < rows <= r.box.height && i < |fb|
    ensures var at := Offset(stride, r.box, rows - 1);
            AppliedRows(fb, stride, r, rows)[i]
            == if at <= i < at + r.box.width * 4 then DataRow(r, rows - 1)[i - at] else AppliedRows(fb, stride, r, rows - 1)[i]
  {
    RowInBounds(|fb|, stride, r.box, rows - 1);
    SpliceAt(AppliedRows(fb, stride, r, rows - 1), Offset(stride, r.box, rows - 1), DataRow(r, rows - 1), i);
  }

  /** What the first `rows` rows of a region make of a byte. */
  ghost function RowsByte(fb: seq<byte>, stride: nat, r: DamageRegion, rows: nat, row: nat, col: nat): byte
    requires DataFits(r) && rows <= r.box.height && RowStart(stride, row) + col < |fb|
  {
    if HitsRows(r.box, rows, row, col) then DataRow(r, row - r.box.y)[col - r.box.x * 4] else fb[RowStart(stride, row) + col]
  }

  lemma RowsByteSnoc(fb: seq<byte>, stride: nat, r: DamageRegion, rows: nat, row: nat, col: nat)
    requires DataFits(r) && 0 < rows <= r.box.height && WithinRow(stride, r.box)
    requires col < stride && RowStart(stride, row) + col < |fb|
    ensures var i := RowStart(stride, row) + col; var at := Offset(stride, r.box, rows - 1);
            RowsByte(fb, stride, r, rows, row, col)
            == if at <= i < at + r.box.width * 4 then DataRow(r, rows - 1)[i - at] else RowsByte(fb, stride, r, rows - 1, row, col)
  {
    RowHit(stride, r.box, rows - 1, row, col);
  }

  lemma {:induction false} AppliedRowsAt(fb: seq<byte>, stride: nat, r: DamageRegion, rows: nat, row: nat, col: nat)
    requires Applicable(|fb|, stride, r) && rows <= r.box.height && WithinRow(stride, r.box)
    requires col < stride && RowStart(stride, row) + col < |fb|
    ensures AppliedRows(fb, stride, r, rows)[RowStart(stride, row) + col] == RowsByte(fb, stride, r, rows, row, col)
  {
    if rows > 0 {
      var i := RowStart(stride, row) + col;
      AppliedRowsAt(fb, stride, r, rows - 1, row, col);
      AppliedRowsSnoc(fb, stride, r, rows, i);
      RowsByteSnoc(fb, stride, r, rows, row, col);
    }
  }

  /** The last of the first `rows` rows of the box that is copied over position `i`, or -1. */
  ghost function LastRowOver(stride: nat, b: Box, rows: nat, i: nat): (k: int)
    ensures -1 <= k < rows
  {
    if rows == 0 then -1
    else if Offset(stride, b, rows - 1) <= i < Offset(stride, b, rows - 1) + b.width * 4 then rows - 1
    else LastRowOver(stride, b, rows - 1, i)
  }

  /** Also for a box that runs past the end of its rows: a byte comes from the last row that is
      copied over it, and from the old buffer if none is. */
  lemma {:induction false} AppliedRowsOver(fb: seq<byte>, stride: nat, r: DamageRegion, rows: nat, i: nat)
    requires Applicable(|fb|, stride, r) && rows <= r.box.height && i < |fb|
    ensures var k := LastRowOver(stride, r.box, rows, i);
            && (k >= 0 ==> 0 <= i - Offset(stride, r.box, k) < r.box.width * 4)
            && AppliedRows(fb, stride, r, rows)[i]
               == if k >= 0 then DataRow(r, k)[i - Offset(stride, r.box, k)] else fb[i]
  {
    if rows > 0 {
      AppliedRowsOver(fb, stride, r, rows - 1, i);
      AppliedRowsSnoc(fb, stride, r, rows, i);
    }
  }

  lemma DataRowOfEncoded(src: seq<byte>, stride: nat, b: Box, row: nat, c: nat)
    requires InBounds(|src|, stride, b) && row < b.height && c < b.width * 4
    ensures Offset(stride, b, row) + c < |src|
    ensures DataRow(EncodedRegion(src, stride, b), row)[c] == src[Offset(stride, b, row) + c]
  {
    PackedAt(src, stride, b, b.height, row, c);
    RowStartMonotone(b.width * 4, row, b.height);
  }

  lemma AppliedAt(fb: seq<byte>, stride: nat, r: DamageRegion, row: nat, col: nat)
    requires Applicable(|fb|, stride, r) && WithinRow(stride, r.box)
    requires col < stride && RowStart(stride, row) + col < |fb|
    ensures Applied(fb, stride, r)[RowStart(stride, row) + col]
         == if Hits(r.box, row, col) then DataRow(r, row - r.box.y)[col - r.box.x * 4]
            else fb[RowStart(stride, row) + col]
  {
    AppliedRowsAt(fb, stride, r, r.box.height, row, col);
  }

  lemma EncodedByte(src: seq<byte>, stride: nat, b: Box, row: nat, col: nat)
    requires InBounds(|src|, stride, b) && Hits(b, row, col)
    ensures RowStart(stride, row) + col < |src|
    ensures DataRow(EncodedRegion(src, stride, b), row - b.y)[col - b.x * 4] == src[RowStart(stride, row) + col]
  {
    var k, c := row - b.y, col - b.x * 4;
    assert b.y + k == row && b.x * 4 + c == col;
    DataRowOfEncoded(src, stride, b, k, c);
  }

  /** A region cut out of one buffer and applied to another copies exactly its own pixels,
      whatever the two strides. */
  lemma EncodedThenApplied(src: seq<byte>, srcStride: nat, fb: seq<byte>, stride: nat, b: Box, row: nat, col: nat)
    requires InBounds(|src|, srcStride, b) && InBounds(|fb|, stride, b) && WithinRow(stride, b)
    requires col < stride && RowStart(stride, row) + col < |fb|
    ensures Hits(b, row, col) ==> RowStart(srcStride, row) + col < |src|
    ensures Applied(fb, stride, EncodedRegion(src, srcStride, b))[RowStart(stride, row) + col]
         == if Hits(b, row, col) then src[RowStart(srcStride, row) + col] else fb[RowStart(stride, row) + col]
  {
    AppliedAt(fb, stride, EncodedRegion(src, srcStride, b), row, col);
    if Hits(b, row, col) {
      EncodedByte(src, srcStride, b, row, col);
    }
  }
}
