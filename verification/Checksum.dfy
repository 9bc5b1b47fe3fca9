/**
 The framebuffer checksum: FNV-1a over little-endian words of up to 8 bytes, taken over the
 visible part of every row. Two buffers showing the same picture have the same checksum,
 whatever their strides and padding bytes are.
 */
module Checksum {
  import opened Bytes
  import opened Encoding

  const FNV_OFFSET: bv64 := 0xcbf2_9ce4_8422_2325

  /** A word moved up by `i` bytes: shifted left by `8 * i` bits. */
  function Place(x: bv64, i: nat): bv64 {
    if i == 0 then x else Place(x, i - 1) << 8
  }

  /** The product with the FNV prime, modulo 2^64. */
  function Times(x: bv64): bv64 {
    x * 0x0000_0100_0000_01b3
  }

  function Mix(h: bv64, v: bv64): bv64 {
    Times(h ^ v)
  }

  function Fold32(h: bv64): bv32 {
    ((h ^ (h >> 32)) & 0xFFFF_FFFF) as bv32
  }

  /** Up to eight bytes as a little-endian number. */
  ghost function Word(chunk: seq<byte>): bv64 {
    if chunk == [] then 0 else (Word(chunk[1..]) << 8) | Wide(chunk[0])
  }

  ghost function HashLine(h: bv64, line: seq<byte>): bv64
    decreases |line|
  {
    if line == [] then h
    else if |line| <= 8 then Mix(h, Word(line))
    else HashLine(Mix(h, Word(line[..8])), line[8..])
  }

  /** The visible part of a framebuffer: `width` pixels of each of `height` rows. */
  ghost predicate Shows(len: nat, stride: nat, width: nat, height: nat) {
    InBounds(len, stride, Box(0, 0, width, height))
  }

  /** The visible bytes, rows packed. */
  ghost function Visible(data: seq<byte>, stride: nat, width: nat, height: nat): (s: seq<byte>)
    requires Shows(|data|, stride, width, height)
    ensures |s| == RowStart(width * 4, height)
  {
    PackedRows(data, stride, Box(0, 0, width, height), height)
  }

  lemma ShowsFewer(len: nat, stride: nat, width: nat, height: nat, rows: nat)
    requires Shows(len, stride, width, height) && rows <= height
    ensures Shows(len, stride, width, rows)
  {
    if rows > 0 {
      RowStartMonotone(stride, rows - 1, height - 1);
    }
  }

  ghost function Line(data: seq<byte>, stride: nat, width: nat, row: nat): (s: seq<byte>)
    requires Shows(|data|, stride, width, row + 1)
    ensures |s| == width * 4
  {
    data[RowStart(stride, row)..RowStart(stride, row) + width * 4]
  }

  ghost function HashRows(data: seq<byte>, stride: nat, width: nat, height: nat): bv64
    requires Shows(|data|, stride, width, height)
  {
    if height == 0 then FNV_OFFSET else
      ShowsFewer(|data|, stride, width, height, height - 1);
      HashLine(HashRows(data, stride, width, height - 1), Line(data, stride, width, height - 1))
  }

  ghost function Checksum(data: seq<byte>, stride: nat, width: nat, height: nat): bv32
    requires Shows(|data|, stride, width, height)
  {
    Fold32(HashRows(data, stride, width, height))
  }

  // ----- the loops

  lemma ShiftedOr(v: bv64, x: bv64, b: bv64)
    ensures ((v | x) << 8) | b == ((v << 8) | b) | (x << 8)
  {
  }

  /** One more byte is put above those already there. */
  lemma {:induction false} WordSnoc(chunk: seq<byte>, b: byte)
    ensures Word(chunk + [b]) == Word(chunk) | Place(Wide(b), |chunk|)
  {
    if chunk == [] {
      assert [b][1..] == [];
    } else {
      assert (chunk + [b])[1..] == chunk[1..] + [b];
      WordSnoc(chunk[1..], b);
      ShiftedOr(Word(chunk[1..]), Place(Wide(b), |chunk| - 1), Wide(chunk[0]));
    }
  }

  method ComputeWord(chunk: seq<byte>) returns (v: bv64)
    requires |chunk| <= 8
    ensures v == Word(chunk)
  {
    v := 0;
    var i := 0;
    while i < |chunk|
      invariant 0 <= i <= |chunk|
      invariant v == Word(chunk[..i])
    {
      WordSnoc(chunk[..i], chunk[i]);
      assert chunk[..i + 1] == chunk[..i] + [chunk[i]];
      v := v | Place(Wide(chunk[i]), i);
      i := i + 1;
    }
    assert chunk[..i] == chunk;
  }

  method ComputeLine(h0: bv64, line: seq<byte>) returns (h: bv64)
    ensures h == HashLine(h0, line)
  {
    h := h0;
    var rest := line;
    while rest != []
      invariant HashLine(h0, line) == HashLine(h, rest)
      decreases |rest|
    {
      var n := if |rest| < 8 then |rest| else 8;
      var v := ComputeWord(rest[..n]);
      assert |rest| <= 8 ==> rest[..n] == rest;
      h := Mix(h, v);
      rest := rest[n..];
    }
  }

  method ReadLine(data: seq<byte>, stride: nat, width: nat, row: nat) returns (line: seq<byte>)
    requires Shows(|data|, stride, width, row + 1)
    ensures line == Line(data, stride, width, row)
  {
    RowStartIsProduct(stride, row);
    var start := row * stride;
    line := data[start..start + width * 4];
  }

  method ComputeChecksum(data: seq<byte>, stride: nat, width: nat, height: nat) returns (sum: bv32)
    requires Shows(|data|, stride, width, height)
    ensures sum == Checksum(data, stride, width, height)
  {
    var h := FNV_OFFSET;
    var row := 0;
    while row < height
      invariant 0 <= row <= height
      invariant Shows(|data|, stride, width, row)
      invariant h == HashRows(data, stride, width, row)
    {
      ShowsFewer(|data|, stride, width, height, row + 1);
      var line := ReadLine(data, stride, width, row);
      h := ComputeLine(h, line);
      row := row + 1;
    }
    sum := Fold32(h);
  }

  // ----- independence of the stride

  lemma {:induction false} SamePictureSameHash(a: seq<byte>, strideA: nat, b: seq<byte>, strideB: nat, width: nat, height: nat)
    requires Shows(|a|, strideA, width, height) && Shows(|b|, strideB, width, height)
    requires Visible(a, strideA, width, height) == Visible(b, strideB, width, height)
    ensures HashRows(a, strideA, width, height) == HashRows(b, strideB, width, height)
  {
    if height > 0 {
      ShowsFewer(|a|, strideA, width, height, height - 1);
      ShowsFewer(|b|, strideB, width, height, height - 1);
      VisibleLast(a, strideA, width, height);
      VisibleLast(b, strideB, width, height);
      SplitSame(Visible(a, strideA, width, height - 1), Line(a, strideA, width, height - 1),
                Visible(b, strideB, width, height - 1), Line(b, strideB, width, height - 1));
      SamePictureSameHash(a, strideA, b, strideB, width, height - 1);
    }
  }

  lemma {:induction false} PackedPrefix(data: seq<byte>, stride: nat, b: Box, c: Box, rows: nat)
    requires InBounds(|data|, stride, b) && InBounds(|data|, stride, c) && rows <= b.height && rows <= c.height
    requires b.(height := 0) == c.(height := 0)
    ensures PackedRows(data, stride, b, rows) == PackedRows(data, stride, c, rows)
  {
    if rows > 0 {
      PackedPrefix(data, stride, b, c, rows - 1);
    }
  }

  lemma VisibleLast(data: seq<byte>, stride: nat, width: nat, height: nat)
    requires Shows(|data|, stride, width, height) && height > 0
    ensures Shows(|data|, stride, width, height - 1)
    ensures Visible(data, stride, width, height)
         == Visible(data, stride, width, height - 1) + Line(data, stride, width, height - 1)
  {
    ShowsFewer(|data|, stride, width, height, height - 1);
    PackedPrefix(data, stride, Box(0, 0, width, height), Box(0, 0, width, height - 1), height - 1);
  }

  lemma SplitSame(a: seq<byte>, x: seq<byte>, b: seq<byte>, y: seq<byte>)
    requires |a| == |b| && a + x == b + y
    ensures a == b && x == y
  {
    assert (a + x)[..|a|] == a && (a + x)[|a|..] == x;
    assert (b + y)[..|b|] == b && (b + y)[|b|..] == y;
  }

  lemma SamePictureSameChecksum(a: seq<byte>, strideA: nat, b: seq<byte>, strideB: nat, width: nat, height: nat)
    requires Shows(|a|, strideA, width, height) && Shows(|b|, strideB, width, height)
    requires Visible(a, strideA, width, height) == Visible(b, strideB, width, height)
    ensures Checksum(a, strideA, width, height) == Checksum(b, strideB, width, height)
  {
    SamePictureSameHash(a, strideA, b, strideB, width, height);
  }

  // ----- what the hash tells apart

  /** The product with the inverse of the FNV prime. */
  function Divided(x: bv64): bv64 {
    x * 0xce96_5057_aff6_957b
  }

  lemma DividedProduct(x: bv64)
    ensures Divided(x * 0x0000_0100_0000_01b3) == x
  {
  }

  lemma TimesUndone(x: bv64)
    ensures Divided(Times(x)) == x
  {
    DividedProduct(x);
  }

  lemma XorApart(g: bv64, h: bv64, v: bv64)
    ensures g ^ v == h ^ v <==> g == h
    ensures v ^ g == v ^ h <==> g == h
  {
  }

  /** Mixing a word in loses nothing: neither of the hash nor of the word. */
  lemma MixInjective(g: bv64, h: bv64, v: bv64, w: bv64)
    ensures Mix(g, v) == Mix(h, v) <==> g == h
    ensures Mix(h, v) == Mix(h, w) <==> v == w
  {
    TimesUndone(g ^ v);
    TimesUndone(h ^ v);
    TimesUndone(h ^ w);
    XorApart(g, h, v);
    XorApart(v, w, h);
  }

  lemma {:induction false} WordSmall(chunk: seq<byte>)
    requires |chunk| < 8
    ensures Word(chunk) <= match |chunk|
                           case 0 => 0
                           case 1 => 0xFF
                           case 2 => 0xFFFF
                           case 3 => 0xFF_FFFF
                           case 4 => 0xFFFF_FFFF
                           case 5 => 0xFF_FFFF_FFFF
                           case 6 => 0xFFFF_FFFF_FFFF
                           case _ => 0xFF_FFFF_FFFF_FFFF
  {
    if chunk != [] {
      WordSmall(chunk[1..]);
    }
  }

  lemma WordFits(chunk: seq<byte>)
    requires |chunk| < 8
    ensures Word(chunk) <= 0xFF_FFFF_FFFF_FFFF
  {
    WordSmall(chunk);
  }

  lemma ShiftedApart(v: bv64, w: bv64, x: bv64, y: bv64)
    requires v <= 0xFF_FFFF_FFFF_FFFF && w <= 0xFF_FFFF_FFFF_FFFF && x < 0x100 && y < 0x100
    ensures (v << 8) | x == (w << 8) | y <==> v == w && x == y
  {
  }

  lemma LowByte(v: bv64, x: bv64)
    requires x < 0x100
    ensures ((v << 8) | x) & 0xFF == x
  {
  }

  /** The first byte is the lowest of the word. */
  lemma FirstByteLowest(chunk: seq<byte>)
    requires chunk != []
    ensures Word(chunk) & 0xFF == Wide(chunk[0])
  {
    LowByte(Word(chunk[1..]), Wide(chunk[0]));
  }

  lemma {:induction false} WordInjective(a: seq<byte>, b: seq<byte>)
    requires |a| == |b| <= 8
    ensures Word(a) == Word(b) <==> a == b
  {
    if a != [] {
      WordFits(a[1..]);
      WordFits(b[1..]);
      ShiftedApart(Word(a[1..]), Word(b[1..]), Wide(a[0]), Wide(b[0]));
      WideInjective(a[0], b[0]);
      WordInjective(a[1..], b[1..]);
      assert a == [a[0]] + a[1..] && b == [b[0]] + b[1..];
    }
  }

  /** A row's first word, and the rest of the row. */
  function First(line: seq<byte>): seq<byte> { if |line| <= 8 then line else line[..8] }

  function Rest(line: seq<byte>): seq<byte> { if |line| <= 8 then [] else line[8..] }

  lemma HashFirst(h: bv64, line: seq<byte>)
    requires line != []
    ensures HashLine(h, line) == HashLine(Mix(h, Word(First(line))), Rest(line))
    ensures line == First(line) + Rest(line)
  {
  }

  /** A row keeps two hashes apart. */
  lemma {:induction false} LineInjective(g: bv64, h: bv64, line: seq<byte>)
    ensures HashLine(g, line) == HashLine(h, line) <==> g == h
    decreases |line|
  {
    if line != [] {
      var w := Word(First(line));
      HashFirst(g, line);
      HashFirst(h, line);
      MixInjective(g, h, w, w);
      LineInjective(Mix(g, w), Mix(h, w), Rest(line));
    }
  }

  /** The rows differ, and only within the eight bytes from the multiple `c` of eight on. */
  ghost predicate OneWordApart(a: seq<byte>, b: seq<byte>, c: nat) {
    |a| == |b| && a != b && c % 8 == 0 && forall i :: 0 <= i < |a| && a[i] != b[i] ==> c <= i < c + 8
  }

  lemma FirstApart(a: seq<byte>, b: seq<byte>, c: nat)
    requires OneWordApart(a, b, c)
    ensures if c == 0 then First(a) != First(b) && Rest(a) == Rest(b)
            else First(a) == First(b) && OneWordApart(Rest(a), Rest(b), c - 8)
  {
    assert a == First(a) + Rest(a) && b == First(b) + Rest(b);
  }

  /** Two rows that differ in one word only are told apart, from any hash on. */
  lemma {:induction false} OneWordTold(h: bv64, a: seq<byte>, b: seq<byte>, c: nat)
    requires OneWordApart(a, b, c)
    ensures HashLine(h, a) != HashLine(h, b)
    decreases |a|
  {
    HashFirst(h, a);
    HashFirst(h, b);
    FirstApart(a, b, c);
    if c == 0 {
      WordInjective(First(a), First(b));
      MixInjective(h, h, Word(First(a)), Word(First(b)));
      LineInjective(Mix(h, Word(First(a))), Mix(h, Word(First(b))), Rest(a));
    } else {
      OneWordTold(Mix(h, Word(First(a))), Rest(a), Rest(b), c - 8);
    }
  }

  // ----- all rows

  ghost function HashLines(lines: seq<seq<byte>>): bv64 {
    if lines == [] then FNV_OFFSET else HashLine(HashLines(lines[..|lines| - 1]), lines[|lines| - 1])
  }

  ghost function LinesOf(data: seq<byte>, stride: nat, width: nat, height: nat): (lines: seq<seq<byte>>)
    requires Shows(|data|, stride, width, height)
    ensures |lines| == height
  {
    if height == 0 then [] else
      ShowsFewer(|data|, stride, width, height, height - 1);
      LinesOf(data, stride, width, height - 1) + [Line(data, stride, width, height - 1)]
  }

  lemma {:induction false} HashOfLines(data: seq<byte>, stride: nat, width: nat, height: nat)
    requires Shows(|data|, stride, width, height)
    ensures HashRows(data, stride, width, height) == HashLines(LinesOf(data, stride, width, height))
  {
    if height > 0 {
      ShowsFewer(|data|, stride, width, height, height - 1);
      HashOfLines(data, stride, width, height - 1);
      var lines := LinesOf(data, stride, width, height);
      assert lines[..height - 1] == LinesOf(data, stride, width, height - 1);
    }
  }

  lemma {:induction false} LineOf(data: seq<byte>, stride: nat, width: nat, height: nat, row: nat)
    requires Shows(|data|, stride, width, height) && row < height
    ensures Shows(|data|, stride, width, row + 1)
    ensures LinesOf(data, stride, width, height)[row] == Line(data, stride, width, row)
  {
    ShowsFewer(|data|, stride, width, height, row + 1);
    ShowsFewer(|data|, stride, width, height, height - 1);
    if row < height - 1 { LineOf(data, stride, width, height - 1, row); }
  }

  /** The pictures differ, and only in one word of row `row`. */
  ghost predicate OneRowApart(a: seq<seq<byte>>, b: seq<seq<byte>>, row: nat, c: nat) {
    && |a| == |b| && row < |a| && OneWordApart(a[row], b[row], c)
    && forall r :: 0 <= r < |a| && r != row ==> a[r] == b[r]
  }

  lemma OneRowSnoc(a: seq<seq<byte>>, b: seq<seq<byte>>, row: nat, c: nat)
    requires OneRowApart(a, b, row, c)
    ensures var n := |a| - 1; if row == n then a[..n] == b[..n] else OneRowApart(a[..n], b[..n], row, c) && a[n] == b[n]
  {
  }

  lemma {:induction false} OneRowTold(a: seq<seq<byte>>, b: seq<seq<byte>>, row: nat, c: nat)
    requires OneRowApart(a, b, row, c)
    ensures HashLines(a) != HashLines(b)
    decreases |a|
  {
    var n := |a| - 1;
    OneRowSnoc(a, b, row, c);
    if row == n {
      OneWordTold(HashLines(a[..n]), a[n], b[n], c);
    } else {
      OneRowTold(a[..n], b[..n], row, c);
      LineInjective(HashLines(a[..n]), HashLines(b[..n]), a[n]);
    }
  }

  /** Two pictures that differ in one word of one row only have different hashes, whatever the two
      strides are. */
  lemma OneWordChangesHash(a: seq<byte>, strideA: nat, b: seq<byte>, strideB: nat, width: nat, height: nat, row: nat, c: nat)
    requires Shows(|a|, strideA, width, height) && Shows(|b|, strideB, width, height)
    requires OneRowApart(LinesOf(a, strideA, width, height), LinesOf(b, strideB, width, height), row, c)
    ensures HashRows(a, strideA, width, height) != HashRows(b, strideB, width, height)
  {
    HashOfLines(a, strideA, width, height);
    HashOfLines(b, strideB, width, height);
    OneRowTold(LinesOf(a, strideA, width, height), LinesOf(b, strideB, width, height), row, c);
  }

  lemma HalvesCollide(g: bv64, h: bv64)
    ensures ((g ^ (g >> 32)) & 0xFFFF_FFFF) as bv32 == ((h ^ (h >> 32)) & 0xFFFF_FFFF) as bv32
       <==> (g ^ h) >> 32 == (g ^ h) & 0xFFFF_FFFF
  {
  }

  /** The hashes differ in the lower half as they do in the upper, or not at all. */
  predicate Confusable(g: bv64, h: bv64) {
    (g ^ h) >> 32 == (g ^ h) & 0xFFFF_FFFF
  }

  /** All that folding loses. */
  lemma FoldCollidesIff(g: bv64, h: bv64)
    ensures Fold32(g) == Fold32(h) <==> Confusable(g, h)
  {
    HalvesCollide(g, h);
  }
}
