/** `generateBmp` of `scripts/generate-icons.js`: a 24-bit bitmap written field by field and pixel
    by pixel into one buffer. What is drawn at a pixel is left open. */
module Bmp {
  import opened Common
  import opened Bytes

  datatype Pixel = Pixel(r: byte, g: byte, b: byte)

  /** The colour at a column and a row, counted from the top left. */
  type Drawing = (nat, nat) -> Pixel

  function RowSize(width: nat): (size: nat)
    ensures size % 4 == 0 && 3 * width <= size < 3 * width + 4
  {
    (3 * width + 3) / 4 * 4
  }

  function DataSize(width: nat, height: nat): nat {
    Times(RowSize(width), height)
  }

  /** All fields hold their values; otherwise the buffer writes throw. */
  predicate Representable(width: nat, height: nat) {
    54 + DataSize(width, height) < 0x1_0000_0000 && width < 0x8000_0000 && height < 0x8000_0000
  }

  // ---------------------------------------------------------------------------------------------
  // The file, part by part
  // ---------------------------------------------------------------------------------------------

  function FileHeader(size: nat): (s: seq<byte>)
    ensures |s| == 14
  {
    [66, 77] + LE(size, 4) + LE(0, 4) + LE(54, 4)
  }

  function DibHeader(width: nat, height: nat, dataSize: nat): (s: seq<byte>)
    ensures |s| == 40
  {
    DibSize(width, height) + DibFormat(dataSize) + DibPalette()
  }

  function DibSize(width: nat, height: nat): (s: seq<byte>)
    ensures |s| == 12
  {
    LE(40, 4) + LE(width, 4) + LE(height, 4)
  }

  function DibFormat(dataSize: nat): (s: seq<byte>)
    ensures |s| == 12
  {
    LE(1, 2) + LE(24, 2) + LE(0, 4) + LE(dataSize, 4)
  }

  function DibPalette(): (s: seq<byte>)
    ensures |s| == 16
  {
    LE(2835, 4) + LE(2835, 4) + LE(0, 4) + LE(0, 4)
  }

  function Colours(p: Pixel): seq<byte> {
    [p.b, p.g, p.r]
  }

  /** The first `n` pixels of row `y`. */
  function Line(n: nat, y: nat, draw: Drawing): (s: seq<byte>)
    ensures |s| == 3 * n
  {
    if n == 0 then [] else Line(n - 1, y, draw) + Colours(draw(n - 1, y))
  }

  function Row(width: nat, y: nat, draw: Drawing): (s: seq<byte>)
    ensures |s| == RowSize(width)
  {
    Line(width, y, draw) + Zeros(RowSize(width) - 3 * width)
  }

  /** The rows from row `y` up to the top row, the lowest first. */
  function RowsUpFrom(width: nat, y: nat, draw: Drawing): (s: seq<byte>)
    ensures |s| == Times(RowSize(width), y)
    decreases y
  {
    if y == 0 then [] else Row(width, y - 1, draw) + RowsUpFrom(width, y - 1, draw)
  }

  function PixelData(width: nat, height: nat, draw: Drawing): seq<byte> {
    RowsUpFrom(width, height, draw)
  }

  function BmpFile(width: nat, height: nat, draw: Drawing): seq<byte> {
    FileHeader(54 + DataSize(width, height)) + DibHeader(width, height, DataSize(width, height)) +
      PixelData(width, height, draw)
  }

  // ---------------------------------------------------------------------------------------------
  // The buffer writes
  // ---------------------------------------------------------------------------------------------

  method WriteFileHeader(buf: array<byte>, size: nat, ghost left: seq<byte>)
    requires buf[..] == left && |left| >= 14
    modifies buf
    ensures buf[..] == FileHeader(size) + left[14..]
  {
    buf[0] := 66;
    buf[1] := 77;
    ghost var done := [66, 77];
    assert buf[..] == [] + done + left[2..];
    WriteLE(buf, size, 2, 4, [], done, left, 2);
    done := done + LE(size, 4);
    WriteLE(buf, 0, 6, 4, [], done, left, 6);
    done := done + LE(0, 4);
    WriteLE(buf, 54, 10, 4, [], done, left, 10);
    assert [] + (done + LE(54, 4)) == FileHeader(size);
  }

  method WriteDibHeader(buf: array<byte>, width: nat, height: nat, dataSize: nat, ghost start: seq<byte>,
                        ghost left: seq<byte>)
    requires buf[..] == start + left && |start| == 14 && |left| >= 40
    modifies buf
    ensures buf[..] == start + DibHeader(width, height, dataSize) + left[40..]
  {
    WriteDibSize(buf, width, height, start, left);
    WriteDibFormat(buf, dataSize, start + DibSize(width, height), left[12..]);
    WriteDibPalette(buf, start + DibSize(width, height) + DibFormat(dataSize), left[12..][12..]);
    Regroup(start, DibSize(width, height), DibFormat(dataSize), DibPalette(), left);
  }

  lemma Regroup(start: seq<byte>, a: seq<byte>, b: seq<byte>, c: seq<byte>, left: seq<byte>)
    requires |left| >= 40
    ensures start + a + b + c == start + (a + b + c)
    ensures left[12..][12..][16..] == left[40..]
  {
  }

  method WriteDibSize(buf: array<byte>, width: nat, height: nat, ghost start: seq<byte>, ghost left: seq<byte>)
    requires buf[..] == start + left && |start| == 14 && |left| >= 12
    modifies buf
    ensures buf[..] == start + DibSize(width, height) + left[12..]
  {
    ghost var done: seq<byte> := [];
    assert start + done + left[0..] == start + left;
    WriteLE(buf, 40, 14, 4, start, done, left, 0);
    done := done + LE(40, 4);
    WriteLE(buf, width, 18, 4, start, done, left, 4);
    done := done + LE(width, 4);
    WriteLE(buf, height, 22, 4, start, done, left, 8);
    assert done + LE(height, 4) == DibSize(width, height);
  }

  method WriteDibFormat(buf: array<byte>, dataSize: nat, ghost start: seq<byte>, ghost left: seq<byte>)
    requires buf[..] == start + left && |start| == 26 && |left| >= 12
    modifies buf
    ensures buf[..] == start + DibFormat(dataSize) + left[12..]
  {
    ghost var done: seq<byte> := [];
    assert start + done + left[0..] == start + left;
    WriteLE(buf, 1, 26, 2, start, done, left, 0);
    done := done + LE(1, 2);
    WriteLE(buf, 24, 28, 2, start, done, left, 2);
    done := done + LE(24, 2);
    WriteLE(buf, 0, 30, 4, start, done, left, 4);
    done := done + LE(0, 4);
    WriteLE(buf, dataSize, 34, 4, start, done, left, 8);
    assert done + LE(dataSize, 4) == DibFormat(dataSize);
  }

  method WriteDibPalette(buf: array<byte>, ghost start: seq<byte>, ghost left: seq<byte>)
    requires buf[..] == start + left && |start| == 38 && |left| >= 16
    modifies buf
    ensures buf[..] == start + DibPalette() + left[16..]
  {
    ghost var done: seq<byte> := [];
    assert start + done + left[0..] == start + left;
    WriteLE(buf, 2835, 38, 4, start, done, left, 0);
    done := done + LE(2835, 4);
    WriteLE(buf, 2835, 42, 4, start, done, left, 4);
    done := done + LE(2835, 4);
    WriteLE(buf, 0, 46, 4, start, done, left, 8);
    done := done + LE(0, 4);
    WriteLE(buf, 0, 50, 4, start, done, left, 12);
    assert done + LE(0, 4) == DibPalette();
  }

  lemma WriteColours(before: seq<byte>, head: seq<byte>, n: nat, tail: seq<byte>, p: Pixel, after: seq<byte>)
    requires before == head + Zeros(n) + tail && n >= 3
    requires after == before[|head| := p.b][|head| + 1 := p.g][|head| + 2 := p.r]
    ensures after == head + Colours(p) + Zeros(n - 3) + tail
  {
  }

  method DrawPixel(buf: array<byte>, offset: nat, p: Pixel, ghost head: seq<byte>, ghost n: nat, ghost tail: seq<byte>)
    requires buf[..] == head + Zeros(n) + tail && |head| == offset && n >= 3
    modifies buf
    ensures buf[..] == head + Colours(p) + Zeros(n - 3) + tail
  {
    ghost var before := buf[..];
    buf[offset] := p.b;
    buf[offset + 1] := p.g;
    buf[offset + 2] := p.r;
    assert buf[..] == before[offset := p.b][offset + 1 := p.g][offset + 2 := p.r];
    WriteColours(before, head, n, tail, p, buf[..]);
  }

  /** A row between `head` and `tail` of which the first `x` pixels are drawn. */
  ghost function Strip(head: seq<byte>, width: nat, x: nat, y: nat, draw: Drawing, tail: seq<byte>): seq<byte>
    requires x <= width
  {
    head + Line(x, y, draw) + Zeros(RowSize(width) - 3 * x) + tail
  }

  lemma NoPixels(head: seq<byte>, width: nat, y: nat, draw: Drawing, tail: seq<byte>)
    ensures Strip(head, width, 0, y, draw, tail) == head + Zeros(RowSize(width)) + tail
  {
    assert head + Line(0, y, draw) == head;
  }

  lemma WholeLine(head: seq<byte>, width: nat, y: nat, draw: Drawing, tail: seq<byte>)
    ensures Strip(head, width, width, y, draw, tail) == head + Row(width, y, draw) + tail
  {
    assert head + Line(width, y, draw) + Zeros(RowSize(width) - 3 * width) == head + Row(width, y, draw);
  }

  lemma LinePush(head: seq<byte>, x: nat, y: nat, draw: Drawing)
    ensures head + Line(x, y, draw) + Colours(draw(x, y)) == head + Line(x + 1, y, draw)
  {
  }

  /** One turn of the inner loop. */
  method DrawPixelAt(buf: array<byte>, width: nat, x: nat, y: nat, draw: Drawing, base: nat, ghost head: seq<byte>,
                     ghost tail: seq<byte>)
    requires x < width && |head| == base && buf[..] == Strip(head, width, x, y, draw, tail)
    modifies buf
    ensures buf[..] == Strip(head, width, x + 1, y, draw, tail)
  {
    var offset := base + x * 3;
    DrawPixel(buf, offset, draw(x, y), head + Line(x, y, draw), RowSize(width) - 3 * x, tail);
    LinePush(head, x, y, draw);
  }

  /** The inner loop: one row behind `head`, over a stretch of zeros. */
  method DrawRow(buf: array<byte>, width: nat, y: nat, draw: Drawing, base: nat, ghost head: seq<byte>,
                 ghost tail: seq<byte>)
    requires buf[..] == head + Zeros(RowSize(width)) + tail && |head| == base
    modifies buf
    ensures buf[..] == head + Row(width, y, draw) + tail
  {
    NoPixels(head, width, y, draw, tail);
    for x := 0 to width
      invariant buf[..] == Strip(head, width, x, y, draw, tail)
    {
      DrawPixelAt(buf, width, x, y, draw, base, head, tail);
    }
    WholeLine(head, width, y, draw, tail);
  }

  lemma ZerosSplit(head: seq<byte>, m: nat, n: nat, tail: seq<byte>)
    ensures head + Zeros(m + n) + tail == head + Zeros(m) + Zeros(n) + tail
  {
  }

  lemma RowsPush(head: seq<byte>, width: nat, y: nat, draw: Drawing)
    ensures head + Row(width, y, draw) + RowsUpFrom(width, y, draw) == head + RowsUpFrom(width, y + 1, draw)
  {
  }

  /** The buffer behind the headers when the first `y` rows of the picture are drawn: they fill its end,
      and what lies before them is still empty. */
  ghost function Canvas(head: seq<byte>, width: nat, height: nat, y: nat, draw: Drawing): seq<byte>
    requires y <= height
  {
    head + Zeros(Times(RowSize(width), height - y)) + RowsUpFrom(width, y, draw)
  }

  lemma NothingDrawn(head: seq<byte>, width: nat, height: nat, draw: Drawing)
    ensures Canvas(head, width, height, 0, draw) == head + Zeros(DataSize(width, height))
  {
  }

  lemma AllDrawn(head: seq<byte>, width: nat, height: nat, draw: Drawing)
    ensures Canvas(head, width, height, height, draw) == head + PixelData(width, height, draw)
  {
  }

  /** One turn of the outer loop: the row goes between what is still empty and what is drawn. */
  method DrawRowAt(buf: array<byte>, width: nat, height: nat, y: nat, draw: Drawing, ghost head: seq<byte>)
    requires y < height && |head| == 54 && buf[..] == Canvas(head, width, height, y, draw)
    modifies buf
    ensures buf[..] == Canvas(head, width, height, y + 1, draw)
  {
    var rowSize, bmpY := RowSize(width), height - 1 - y;
    ghost var gap := Times(rowSize, bmpY);
    TimesIsProduct(rowSize, bmpY);
    ZerosSplit(head, gap, rowSize, RowsUpFrom(width, y, draw));
    DrawRow(buf, width, y, draw, 54 + bmpY * rowSize, head + Zeros(gap), RowsUpFrom(width, y, draw));
    RowsPush(head + Zeros(gap), width, y, draw);
  }

  /** The outer loop: rows from the top, each at its place from the bottom. */
  method DrawRows(buf: array<byte>, width: nat, height: nat, draw: Drawing, ghost head: seq<byte>)
    requires buf[..] == head + Zeros(DataSize(width, height)) && |head| == 54
    modifies buf
    ensures buf[..] == head + PixelData(width, height, draw)
  {
    NothingDrawn(head, width, height, draw);
    for y := 0 to height
      invariant buf[..] == Canvas(head, width, height, y, draw)
    {
      DrawRowAt(buf, width, height, y, draw, head);
    }
    AllDrawn(head, width, height, draw);
  }

  method WriteHeaders(buf: array<byte>, width: nat, height: nat, fileSize: nat, pixelDataSize: nat,
                      ghost left: seq<byte>)
    requires buf[..] == left && |left| >= 54
    modifies buf
    ensures buf[..] == FileHeader(fileSize) + DibHeader(width, height, pixelDataSize) + left[54..]
  {
    WriteFileHeader(buf, fileSize, left);
    WriteDibHeader(buf, width, height, pixelDataSize, FileHeader(fileSize), left[14..]);
    assert left[14..][40..] == left[54..];
  }

  method GenerateBmp(width: nat, height: nat, draw: Drawing) returns (r: Option<array<byte>>)
    ensures r.Some? <==> Representable(width, height)
    ensures r.Some? ==> fresh(r.value) && r.value[..] == BmpFile(width, height, draw)
  {
    var rowSize := RowSize(width);
    var pixelDataSize := rowSize * height;
    TimesIsProduct(rowSize, height);
    var fileSize := 54 + pixelDataSize;
    if fileSize >= 0x1_0000_0000 || width >= 0x8000_0000 || height >= 0x8000_0000 {
      return None;
    }
    var buf := new byte[fileSize](_ => 0);
    ghost var left := Zeros(fileSize);
    assert buf[..] == left;
    assert left[54..] == Zeros(pixelDataSize);
    WriteHeaders(buf, width, height, fileSize, pixelDataSize, left);
    DrawRows(buf, width, height, draw, FileHeader(fileSize) + DibHeader(width, height, pixelDataSize));
    r := Some(buf);
  }
}
