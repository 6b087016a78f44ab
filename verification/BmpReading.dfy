/** Reading back what `generateBmp` of `scripts/generate-icons.js` writes. */
module BmpReading {
  import opened Common
  import opened Bytes
  import opened Bmp

  /** A picture as rows of pixels from the top. */
  datatype Picture = Picture(width: nat, height: nat, rows: seq<seq<Pixel>>)

  function Drawn(width: nat, height: nat, draw: Drawing): Picture {
    Picture(width, height,
            seq(height, y requires 0 <= y < height => seq(width, x requires 0 <= x < width => draw(x, y))))
  }

  /** Where the first of the three bytes of a pixel is in the pixel data: lower rows come first. */
  function Place(width: nat, height: nat, x: nat, y: nat): nat
    requires y < height
  {
    Times(RowSize(width), height - 1 - y) + 3 * x
  }

  lemma PlaceInside(width: nat, height: nat, x: nat, y: nat)
    requires x < width && y < height
    ensures Place(width, height, x, y) + 3 <= DataSize(width, height)
  {
    TimesGrows(RowSize(width), height - 1 - y, height);
  }

  function PixelAt(data: seq<byte>, width: nat, height: nat, x: nat, y: nat): Pixel
    requires |data| == DataSize(width, height) && x < width && y < height
  {
    PlaceInside(width, height, x, y);
    var at := Place(width, height, x, y);
    Pixel(data[at + 2], data[at + 1], data[at])
  }

  function ReadPixels(data: seq<byte>, width: nat, height: nat): Picture
    requires |data| == DataSize(width, height)
  {
    Picture(width, height,
            seq(height, y requires 0 <= y < height =>
              seq(width, x requires 0 <= x < width => PixelAt(data, width, height, x, y))))
  }

  /** The header at `at` is of the plain form: one colour plane, 24 bits a pixel, no compression, `dataSize`
      bytes of pixels, 2835 pixels a metre both ways, and no palette. */
  predicate PlainDib(s: seq<byte>, at: nat, dataSize: nat)
    requires at + 40 <= |s|
  {
    && Field(s, at, 4) == 40 && Field(s, at + 12, 2) == 1 && Field(s, at + 14, 2) == 24 && Field(s, at + 16, 4) == 0
    && Field(s, at + 20, 4) == dataSize && Field(s, at + 24, 4) == 2835 && Field(s, at + 28, 4) == 2835
    && Field(s, at + 32, 4) == 0 && Field(s, at + 36, 4) == 0
  }

  /** A reader for plain bitmaps, going by the fields of the file only. It refuses a file with any field
      that is not as it should be. */
  function ReadBmp(s: seq<byte>): Option<Picture> {
    if |s| < 54 || s[..2] != [66, 77] || Field(s, 2, 4) != |s| || Field(s, 6, 4) != 0 then None
    else
      var start, width, height := Field(s, 10, 4), Field(s, 18, 4), Field(s, 22, 4);
      var n := DataSize(width, height);
      if start + n != |s| || !PlainDib(s, 14, n) then None
      else Some(ReadPixels(s[start..start + n], width, height))
  }

  // ---------------------------------------------------------------------------------------------
  // The pixels
  // ---------------------------------------------------------------------------------------------

  /** Row `y` is the `height - 1 - y`-th from the start of the data. */
  lemma {:induction false} RowAt(width: nat, height: nat, draw: Drawing, y: nat)
    requires y < height
    ensures Holds(RowsUpFrom(width, height, draw), Times(RowSize(width), height - 1 - y), Row(width, y, draw))
  {
    if y == height - 1 {
      HoldsFront(Row(width, y, draw), RowsUpFrom(width, y, draw));
    } else {
      RowAt(width, height - 1, draw, y);
      HoldsBehind(Row(width, height - 1, draw), RowsUpFrom(width, height - 1, draw),
        Times(RowSize(width), height - 2 - y), Row(width, y, draw));
    }
  }

  lemma {:induction false} LineAt(n: nat, y: nat, draw: Drawing, x: nat)
    requires x < n
    ensures Holds(Line(n, y, draw), 3 * x, Colours(draw(x, y)))
  {
    var c := Colours(draw(n - 1, y));
    if x < n - 1 {
      LineAt(n - 1, y, draw, x);
      HoldsInside([], Line(n - 1, y, draw), c, 3 * x, Colours(draw(x, y)));
      assert [] + Line(n - 1, y, draw) + c == Line(n, y, draw);
    } else {
      HoldsBetween(Line(n - 1, y, draw), c, []);
      assert Line(n - 1, y, draw) + c + [] == Line(n, y, draw);
    }
  }

  lemma PixelHeld(width: nat, height: nat, draw: Drawing, x: nat, y: nat)
    requires x < width && y < height
    ensures Holds(PixelData(width, height, draw), Place(width, height, x, y), Colours(draw(x, y)))
  {
    RowAt(width, height, draw, y);
    LineAt(width, y, draw, x);
    var line, padding := Line(width, y, draw), Zeros(RowSize(width) - 3 * width);
    HoldsInside([], line, padding, 3 * x, Colours(draw(x, y)));
    assert [] + line + padding == Row(width, y, draw);
    HoldsWithin(PixelData(width, height, draw), Times(RowSize(width), height - 1 - y), Row(width, y, draw), 3 * x,
      Colours(draw(x, y)));
  }

  lemma ThreeHeld(s: seq<byte>, at: nat, a: byte, b: byte, c: byte)
    requires Holds(s, at, [a, b, c])
    ensures s[at] == a && s[at + 1] == b && s[at + 2] == c
  {
  }

  lemma PixelReads(width: nat, height: nat, draw: Drawing, x: nat, y: nat)
    requires x < width && y < height
    ensures PixelAt(PixelData(width, height, draw), width, height, x, y) == draw(x, y)
  {
    PixelHeld(width, height, draw, x, y);
    var p := draw(x, y);
    ThreeHeld(PixelData(width, height, draw), Place(width, height, x, y), p.b, p.g, p.r);
  }

  lemma PixelsReadBack(width: nat, height: nat, draw: Drawing)
    ensures ReadPixels(PixelData(width, height, draw), width, height) == Drawn(width, height, draw)
  {
    var data := PixelData(width, height, draw);
    forall y: nat | y < height
      ensures ReadPixels(data, width, height).rows[y] == Drawn(width, height, draw).rows[y]
    {
      forall x: nat | x < width
        ensures ReadPixels(data, width, height).rows[y][x] == draw(x, y)
      {
        PixelReads(width, height, draw, x, y);
      }
    }
  }

  // ---------------------------------------------------------------------------------------------
  // The fields
  // ---------------------------------------------------------------------------------------------

  lemma FileFields(s: seq<byte>, size: nat)
    requires Holds(s, 0, FileHeader(size)) && size < 0x1_0000_0000
    ensures |s| >= 14 && s[..2] == [66, 77] && Field(s, 2, 4) == size && Field(s, 6, 4) == 0 && Field(s, 10, 4) == 54
  {
    Ranges();
    HoldsFour([66, 77], LE(size, 4), LE(0, 4), LE(54, 4));
    HoldsWithin(s, 0, FileHeader(size), 2, LE(size, 4));
    HoldsWithin(s, 0, FileHeader(size), 6, LE(0, 4));
    HoldsWithin(s, 0, FileHeader(size), 10, LE(54, 4));
    HeldField(s, 2, size, 4);
    HeldField(s, 6, 0, 4);
    HeldField(s, 10, 54, 4);
    assert s[..2] == FileHeader(size)[..2];
  }

  lemma SizeFields(s: seq<byte>, at: nat, width: nat, height: nat)
    requires Holds(s, at, DibSize(width, height)) && width < 0x1_0000_0000 && height < 0x1_0000_0000
    ensures at + 12 <= |s| && Field(s, at, 4) == 40 && Field(s, at + 4, 4) == width && Field(s, at + 8, 4) == height
  {
    Ranges();
    HoldsThree(LE(40, 4), LE(width, 4), LE(height, 4));
    HoldsWithin(s, at, DibSize(width, height), 0, LE(40, 4));
    HoldsWithin(s, at, DibSize(width, height), 4, LE(width, 4));
    HoldsWithin(s, at, DibSize(width, height), 8, LE(height, 4));
    HeldField(s, at, 40, 4);
    HeldField(s, at + 4, width, 4);
    HeldField(s, at + 8, height, 4);
  }

  lemma FormatFields(s: seq<byte>, at: nat, n: nat)
    requires Holds(s, at, DibFormat(n)) && n < 0x1_0000_0000
    ensures at + 12 <= |s| && Field(s, at, 2) == 1 && Field(s, at + 2, 2) == 24 && Field(s, at + 4, 4) == 0
    ensures Field(s, at + 8, 4) == n
  {
    Ranges();
    HoldsFour(LE(1, 2), LE(24, 2), LE(0, 4), LE(n, 4));
    HoldsWithin(s, at, DibFormat(n), 0, LE(1, 2));
    HoldsWithin(s, at, DibFormat(n), 2, LE(24, 2));
    HoldsWithin(s, at, DibFormat(n), 4, LE(0, 4));
    HoldsWithin(s, at, DibFormat(n), 8, LE(n, 4));
    HeldField(s, at, 1, 2);
    HeldField(s, at + 2, 24, 2);
    HeldField(s, at + 4, 0, 4);
    HeldField(s, at + 8, n, 4);
  }

  lemma PaletteFields(s: seq<byte>, at: nat)
    requires Holds(s, at, DibPalette())
    ensures at + 16 <= |s| && Field(s, at, 4) == 2835 && Field(s, at + 4, 4) == 2835
    ensures Field(s, at + 8, 4) == 0 && Field(s, at + 12, 4) == 0
  {
    Ranges();
    HoldsFour(LE(2835, 4), LE(2835, 4), LE(0, 4), LE(0, 4));
    HoldsWithin(s, at, DibPalette(), 0, LE(2835, 4));
    HoldsWithin(s, at, DibPalette(), 4, LE(2835, 4));
    HoldsWithin(s, at, DibPalette(), 8, LE(0, 4));
    HoldsWithin(s, at, DibPalette(), 12, LE(0, 4));
    HeldField(s, at, 2835, 4);
    HeldField(s, at + 4, 2835, 4);
    HeldField(s, at + 8, 0, 4);
    HeldField(s, at + 12, 0, 4);
  }

  lemma DibFields(s: seq<byte>, at: nat, width: nat, height: nat, n: nat)
    requires Holds(s, at, DibHeader(width, height, n))
    requires width < 0x1_0000_0000 && height < 0x1_0000_0000 && n < 0x1_0000_0000
    ensures at + 40 <= |s| && PlainDib(s, at, n) && Field(s, at + 4, 4) == width && Field(s, at + 8, 4) == height
  {
    HoldsThree(DibSize(width, height), DibFormat(n), DibPalette());
    HoldsWithin(s, at, DibHeader(width, height, n), 0, DibSize(width, height));
    HoldsWithin(s, at, DibHeader(width, height, n), 12, DibFormat(n));
    HoldsWithin(s, at, DibHeader(width, height, n), 24, DibPalette());
    SizeFields(s, at, width, height);
    FormatFields(s, at + 12, n);
    PaletteFields(s, at + 24);
  }

  lemma BmpFields(width: nat, height: nat, draw: Drawing)
    requires Representable(width, height)
    ensures var s, n := BmpFile(width, height, draw), DataSize(width, height);
            && |s| == 54 + n && s[..2] == [66, 77] && Field(s, 2, 4) == |s| && Field(s, 6, 4) == 0
            && Field(s, 10, 4) == 54 && PlainDib(s, 14, n) && Field(s, 18, 4) == width && Field(s, 22, 4) == height
            && Holds(s, 54, PixelData(width, height, draw))
  {
    var s, n := BmpFile(width, height, draw), DataSize(width, height);
    HoldsThree(FileHeader(54 + n), DibHeader(width, height, n), PixelData(width, height, draw));
    FileFields(s, 54 + n);
    DibFields(s, 14, width, height, n);
  }

  lemma ReadByFields(s: seq<byte>, width: nat, height: nat, data: seq<byte>)
    requires |s| >= 54 && s[..2] == [66, 77] && Field(s, 2, 4) == |s| && Field(s, 6, 4) == 0
    requires Field(s, 10, 4) == 54 && Field(s, 18, 4) == width && Field(s, 22, 4) == height
    requires |data| == DataSize(width, height) && |s| == 54 + |data| && PlainDib(s, 14, |data|)
    requires s[54..54 + |data|] == data
    ensures ReadBmp(s) == Some(ReadPixels(data, width, height))
  {
  }

  /** Reading the file gives the picture that was drawn, for all sizes that fit the fields. */
  lemma BmpReadsBack(width: nat, height: nat, draw: Drawing)
    requires Representable(width, height)
    ensures ReadBmp(BmpFile(width, height, draw)) == Some(Drawn(width, height, draw))
  {
    BmpFields(width, height, draw);
    ReadByFields(BmpFile(width, height, draw), width, height, PixelData(width, height, draw));
    PixelsReadBack(width, height, draw);
  }

  // ---------------------------------------------------------------------------------------------
  // Where the bytes go
  // ---------------------------------------------------------------------------------------------

  /** No two colour bytes of the picture share a place, and none lies in the padding of a row. */
  lemma PlacesApart(width: nat, height: nat, x: nat, y: nat, k: nat, x': nat, y': nat, k': nat)
    requires x < width && y < height && k < 3 && x' < width && y' < height && k' < 3
    requires Place(width, height, x, y) + k == Place(width, height, x', y') + k'
    ensures x == x' && y == y' && k == k'
  {
    SameBlock(RowSize(width), height - 1 - y, height - 1 - y', 3 * x + k, 3 * x' + k');
  }

  lemma PaddingApart(width: nat, height: nat, x: nat, y: nat, k: nat, row: nat, pad: nat)
    requires x < width && y < height && k < 3 && row < height && 3 * width <= pad < RowSize(width)
    ensures Place(width, height, x, y) + k != Times(RowSize(width), row) + pad
  {
    if Place(width, height, x, y) + k == Times(RowSize(width), row) + pad {
      SameBlock(RowSize(width), height - 1 - y, row, 3 * x + k, pad);
    }
  }

  /** The padding bytes are zero. */
  lemma PaddingIsZero(width: nat, height: nat, draw: Drawing, y: nat)
    requires y < height
    ensures Holds(PixelData(width, height, draw), Times(RowSize(width), height - 1 - y) + 3 * width,
      Zeros(RowSize(width) - 3 * width))
  {
    RowAt(width, height, draw, y);
    var line, padding := Line(width, y, draw), Zeros(RowSize(width) - 3 * width);
    HoldsBetween(line, padding, []);
    assert line + padding + [] == Row(width, y, draw);
    HoldsWithin(PixelData(width, height, draw), Times(RowSize(width), height - 1 - y), Row(width, y, draw), 3 * width,
      padding);
  }
}
