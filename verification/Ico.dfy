/** `generateIco` of `scripts/generate-icons.js`: a directory of 16-byte entries, then the images,
    each a bitmap without its file header. */
module Ico {
  import opened Common
  import opened Bytes
  import opened Bmp

  /** What is drawn depends on the size of the image. */
  type Drawings = nat -> Drawing

  datatype Entry = Entry(size: nat, offset: nat, data: seq<byte>)

  function ImageSize(size: nat): nat {
    40 + DataSize(size, size)
  }

  /** The bitmap of one size without its file header; the header's height is doubled. */
  function Image(size: nat, draw: Drawings): (s: seq<byte>)
    ensures |s| == ImageSize(size)
  {
    DibHeader(size, 2 * size, DataSize(size, size)) + PixelData(size, size, draw(size))
  }

  function TotalSize(sizes: seq<nat>): nat {
    if sizes == [] then 0 else TotalSize(sizes[..|sizes| - 1]) + ImageSize(sizes[|sizes| - 1])
  }

  /** Where image `i` starts. */
  function OffsetOf(sizes: seq<nat>, i: nat): nat
    requires i <= |sizes|
  {
    6 + 16 * |sizes| + TotalSize(sizes[..i])
  }

  function EntryOf(sizes: seq<nat>, draw: Drawings, i: nat): Entry
    requires i < |sizes|
  {
    Entry(sizes[i], OffsetOf(sizes, i), Image(sizes[i], draw))
  }

  function EntriesOf(sizes: seq<nat>, draw: Drawings): seq<Entry> {
    seq(|sizes|, i requires 0 <= i < |sizes| => EntryOf(sizes, draw, i))
  }

  /** All fields hold their values; otherwise the buffer writes throw. */
  predicate Encodable(sizes: seq<nat>) {
    && |sizes| < 0x1_0000
    && (forall i | 0 <= i < |sizes| :: Representable(sizes[i], sizes[i]))
    && (forall i | 0 <= i < |sizes| :: OffsetOf(sizes, i) < 0x1_0000_0000)
  }

  // ---------------------------------------------------------------------------------------------
  // The file
  // ---------------------------------------------------------------------------------------------

  /** A side of 256 pixels or more is written as zero. */
  function Side(size: nat): byte {
    if size >= 256 then 0 else size as byte
  }

  function DirectoryEntry(e: Entry): (s: seq<byte>)
    ensures |s| == 16
  {
    [Side(e.size), Side(e.size), 0, 0] + (LE(1, 2) + LE(24, 2) + LE(|e.data|, 4) + LE(e.offset, 4))
  }

  function Directory(entries: seq<Entry>): (s: seq<byte>)
    ensures |s| == 16 * |entries|
  {
    if entries == [] then [] else Directory(entries[..|entries| - 1]) + DirectoryEntry(entries[|entries| - 1])
  }

  function Data(entries: seq<Entry>): seq<byte> {
    if entries == [] then [] else Data(entries[..|entries| - 1]) + entries[|entries| - 1].data
  }

  function IcoHeader(n: nat): (s: seq<byte>)
    ensures |s| == 6
  {
    LE(0, 2) + LE(1, 2) + LE(n, 2)
  }

  function IcoFile(sizes: seq<nat>, draw: Drawings): seq<byte> {
    var entries := EntriesOf(sizes, draw);
    IcoHeader(|sizes|) + Directory(entries) + Data(entries)
  }

  // ---------------------------------------------------------------------------------------------
  // Collecting the entries
  // ---------------------------------------------------------------------------------------------

  lemma LargeProduct(a: nat, b: nat, k: nat)
    requires k <= a && k <= b
    ensures k * k <= a * b
  {
  }

  /** The doubled height always fits its field. */
  lemma DoubleFits(size: nat)
    requires Representable(size, size)
    ensures 2 * size < 0x8000_0000
  {
    TimesIsProduct(RowSize(size), size);
    if size >= 0x4000_0000 {
      LargeProduct(RowSize(size), size, 0x4000_0000);
    }
  }

  lemma HeightDoubled(f: seq<byte>, size: nat, p: seq<byte>, data: seq<byte>)
    requires |f| == 14
    requires var bmp := f + DibHeader(size, size, DataSize(size, size)) + p;
             |data| == |bmp| - 14 && data[..8] == bmp[14..][..8] && data[8..12] == LE(2 * size, 4) &&
             data[12..] == bmp[14..][12..]
    ensures data == DibHeader(size, 2 * size, DataSize(size, size)) + p
  {
    var old8, rest := LE(40, 4) + LE(size, 4), DibFormat(DataSize(size, size)) + DibPalette() + p;
    assert (f + DibHeader(size, size, DataSize(size, size)) + p)[14..] == old8 + LE(size, 4) + rest;
    assert DibHeader(size, 2 * size, DataSize(size, size)) + p == old8 + LE(2 * size, 4) + rest;
    assert data == data[..8] + data[8..12] + data[12..];
  }

  /** Copies the bitmap without its file header and doubles the height field. */
  method ImageData(bmp: array<byte>, size: nat, ghost draw: Drawings) returns (data: seq<byte>)
    requires Representable(size, size) && bmp[..] == BmpFile(size, size, draw(size))
    ensures data == Image(size, draw)
  {
    var dibData := new byte[bmp.Length - 14](i requires 0 <= i < bmp.Length - 14 reads bmp => bmp[i + 14]);
    ghost var sliced := bmp[14..];
    assert dibData[..] == sliced;
    DoubleFits(size);
    assert size * 2 < 0x8000_0000;
    WriteDigits(dibData, size * 2, 8, 4);
    data := dibData[..];
    assert size * 2 == 2 * size;
    assert data[..8] == sliced[..8] && data[8..12] == LE(2 * size, 4) && data[12..] == sliced[12..];
    HeightDoubled(FileHeader(54 + DataSize(size, size)), size, PixelData(size, size, draw(size)), data);
  }

  lemma EntriesPush(sizes: seq<nat>, draw: Drawings, i: nat)
    requires i < |sizes|
    ensures EntriesOf(sizes, draw)[..i] + [EntryOf(sizes, draw, i)] == EntriesOf(sizes, draw)[..i + 1]
    ensures OffsetOf(sizes, i + 1) == OffsetOf(sizes, i) + ImageSize(sizes[i])
  {
    assert sizes[..i + 1][..i] == sizes[..i];
  }

  /** All bitmaps first, then their offsets one after the other. */
  method CollectEntries(sizes: seq<nat>, draw: Drawings) returns (r: Option<seq<Entry>>, dataOffset: nat)
    ensures r.Some? <==> forall i | 0 <= i < |sizes| :: Representable(sizes[i], sizes[i])
    ensures r.Some? ==> r.value == EntriesOf(sizes, draw) && dataOffset == OffsetOf(sizes, |sizes|)
  {
    var entries: seq<Entry> := [];
    dataOffset := 6 + |sizes| * 16;
    for i := 0 to |sizes|
      invariant forall k | 0 <= k < i :: Representable(sizes[k], sizes[k])
      invariant entries == EntriesOf(sizes, draw)[..i]
      invariant dataOffset == OffsetOf(sizes, i)
    {
      var bmp := GenerateBmp(sizes[i], sizes[i], draw(sizes[i]));
      if bmp.None? {
        return None, dataOffset;
      }
      var data := ImageData(bmp.value, sizes[i], draw);
      entries := entries + [Entry(sizes[i], dataOffset, data)];
      EntriesPush(sizes, draw, i);
      dataOffset := dataOffset + |data|;
    }
    assert entries == EntriesOf(sizes, draw);
    r := Some(entries);
  }

  // ---------------------------------------------------------------------------------------------
  // Writing
  // ---------------------------------------------------------------------------------------------

  method WriteHeader(ico: array<byte>, n: nat, ghost left: seq<byte>)
    requires ico[..] == left && |left| >= 6
    modifies ico
    ensures ico[..] == IcoHeader(n) + left[6..]
  {
    ghost var done: seq<byte> := [];
    assert [] + done + left[0..] == left;
    WriteLE(ico, 0, 0, 2, [], done, left, 0);
    done := done + LE(0, 2);
    WriteLE(ico, 1, 2, 2, [], done, left, 2);
    done := done + LE(1, 2);
    WriteLE(ico, n, 4, 2, [], done, left, 4);
    assert [] + (done + LE(n, 2)) == IcoHeader(n);
  }

  method WriteEntry(ico: array<byte>, e: Entry, off: nat, ghost start: seq<byte>, ghost left: seq<byte>)
    requires ico[..] == start + left && |start| == off && |left| >= 16
    modifies ico
    ensures ico[..] == start + DirectoryEntry(e) + left[16..]
  {
    ghost var sides := [Side(e.size), Side(e.size), 0, 0];
    ico[off] := if e.size >= 256 then 0 else e.size as byte;
    ico[off + 1] := if e.size >= 256 then 0 else e.size as byte;
    ico[off + 2] := 0;
    ico[off + 3] := 0;
    assert ico[..] == start + sides + left[4..];
    WriteEntryFields(ico, |e.data|, e.offset, off, start + sides, left[4..]);
    Regroup(start, sides, LE(1, 2) + LE(24, 2) + LE(|e.data|, 4) + LE(e.offset, 4), left);
  }

  lemma Regroup(start: seq<byte>, a: seq<byte>, b: seq<byte>, left: seq<byte>)
    requires |left| >= 16
    ensures start + a + b + left[4..][12..] == start + (a + b) + left[16..]
  {
  }

  method WriteEntryFields(ico: array<byte>, dataSize: nat, offset: nat, off: nat, ghost start: seq<byte>,
                          ghost left: seq<byte>)
    requires ico[..] == start + left && |start| == off + 4 && |left| >= 12
    modifies ico
    ensures ico[..] == start + (LE(1, 2) + LE(24, 2) + LE(dataSize, 4) + LE(offset, 4)) + left[12..]
  {
    ghost var done: seq<byte> := [];
    assert start + done + left[0..] == start + left;
    WriteLE(ico, 1, off + 4, 2, start, done, left, 0);
    done := done + LE(1, 2);
    WriteLE(ico, 24, off + 6, 2, start, done, left, 2);
    done := done + LE(24, 2);
    WriteLE(ico, dataSize, off + 8, 4, start, done, left, 4);
    done := done + LE(dataSize, 4);
    WriteLE(ico, offset, off + 12, 4, start, done, left, 8);
    assert done + LE(offset, 4) == LE(1, 2) + LE(24, 2) + LE(dataSize, 4) + LE(offset, 4);
  }

  lemma DirectoryPush(head: seq<byte>, entries: seq<Entry>, i: nat)
    requires i < |entries|
    ensures head + Directory(entries[..i]) + DirectoryEntry(entries[i]) == head + Directory(entries[..i + 1])
  {
    assert entries[..i + 1][..i] == entries[..i];
  }

  /** One directory entry after the other; an offset that does not fit throws. */
  method WriteDirectory(ico: array<byte>, entries: seq<Entry>, ghost head: seq<byte>, ghost left: seq<byte>)
    returns (ok: bool)
    requires ico[..] == head + left && |head| == 6 && |left| >= 16 * |entries|
    modifies ico
    ensures ok <==> forall i | 0 <= i < |entries| :: entries[i].offset < 0x1_0000_0000
    ensures ok ==> ico[..] == head + Directory(entries) + left[16 * |entries|..]
  {
    assert head + Directory(entries[..0]) + left[0..] == head + left;
    for i := 0 to |entries|
      invariant forall k | 0 <= k < i :: entries[k].offset < 0x1_0000_0000
      invariant ico[..] == head + Directory(entries[..i]) + left[16 * i..]
    {
      if entries[i].offset >= 0x1_0000_0000 {
        return false;
      }
      WriteEntry(ico, entries[i], 6 + i * 16, head + Directory(entries[..i]), left[16 * i..]);
      DirectoryPush(head, entries, i);
      assert left[16 * i..][16..] == left[16 * (i + 1)..];
    }
    assert entries[..|entries|] == entries;
    ok := true;
  }

  method CopyData(ico: array<byte>, data: seq<byte>, offset: nat, ghost start: seq<byte>, ghost left: seq<byte>)
    requires ico[..] == start + left && |start| == offset && |left| >= |data|
    modifies ico
    ensures ico[..] == start + data + left[|data|..]
  {
    for k := 0 to |data|
      invariant ico[..] == start + data[..k] + left[k..]
    {
      ghost var before := ico[..];
      ico[offset + k] := data[k];
      assert ico[..] == before[offset + k := data[k]];
      assert left[k..] == [left[k]] + left[k + 1..] && data[..k + 1] == data[..k] + [data[k]];
    }
    assert data[..|data|] == data;
  }

  lemma DataPush(head: seq<byte>, entries: seq<Entry>, i: nat)
    requires i < |entries|
    ensures head + Data(entries[..i]) + entries[i].data == head + Data(entries[..i + 1])
  {
    assert entries[..i + 1][..i] == entries[..i];
  }

  /** The data of the first `i` images is as long as their sizes say. */
  lemma {:induction false} DataLength(sizes: seq<nat>, draw: Drawings, i: nat)
    requires i <= |sizes|
    ensures |Data(EntriesOf(sizes, draw)[..i])| == TotalSize(sizes[..i])
  {
    if i > 0 {
      DataLength(sizes, draw, i - 1);
      var entries := EntriesOf(sizes, draw);
      assert entries[..i][..i - 1] == entries[..i - 1] && sizes[..i][..i - 1] == sizes[..i - 1];
    }
  }

  lemma {:induction false} TotalGrows(sizes: seq<nat>, i: nat, j: nat)
    requires i <= j <= |sizes|
    ensures TotalSize(sizes[..i]) <= TotalSize(sizes[..j])
  {
    if i < j {
      TotalGrows(sizes, i, j - 1);
      assert sizes[..j][..j - 1] == sizes[..j - 1];
    }
  }

  lemma ImageFits(sizes: seq<nat>, draw: Drawings, i: nat)
    requires i < |sizes|
    ensures var entries := EntriesOf(sizes, draw);
            |Data(entries[..i])| + |entries[i].data| == |Data(entries[..i + 1])| <= TotalSize(sizes)
            && entries[i].offset == 6 + 16 * |sizes| + |Data(entries[..i])|
  {
    DataLength(sizes, draw, i);
    DataLength(sizes, draw, i + 1);
    TotalGrows(sizes, i + 1, |sizes|);
    assert sizes[..|sizes|] == sizes && sizes[..i + 1][..i] == sizes[..i];
  }

  /** One image, at its entry's offset. */
  method CopyImage(ico: array<byte>, ghost sizes: seq<nat>, ghost draw: Drawings, entries: seq<Entry>, i: nat,
                   ghost head: seq<byte>, ghost left: seq<byte>)
    requires entries == EntriesOf(sizes, draw) && i < |entries| && |head| == 6 + 16 * |sizes| &&
      |left| == TotalSize(sizes)
    requires |Data(entries[..i])| <= |left| && ico[..] == head + Data(entries[..i]) + left[|Data(entries[..i])|..]
    modifies ico
    ensures |Data(entries[..i + 1])| <= |left|
    ensures ico[..] == head + Data(entries[..i + 1]) + left[|Data(entries[..i + 1])|..]
  {
    ghost var t := |Data(entries[..i])|;
    ImageFits(sizes, draw, i);
    CopyData(ico, entries[i].data, entries[i].offset, head + Data(entries[..i]), left[t..]);
    DataPush(head, entries, i);
    assert left[t..][|entries[i].data|..] == left[t + |entries[i].data|..];
  }

  lemma AllData(sizes: seq<nat>, draw: Drawings, head: seq<byte>, left: seq<byte>)
    requires |left| == TotalSize(sizes)
    ensures var entries := EntriesOf(sizes, draw);
            entries[..|entries|] == entries && |Data(entries)| == |left| &&
              head + Data(entries) + left[|Data(entries)|..] == head + Data(entries)
  {
    var entries := EntriesOf(sizes, draw);
    DataLength(sizes, draw, |sizes|);
    assert entries[..|entries|] == entries && sizes[..|sizes|] == sizes;
  }

  lemma NoData(entries: seq<Entry>, head: seq<byte>, left: seq<byte>)
    ensures Data(entries[..0]) == [] && head + Data(entries[..0]) + left[0..] == head + left
  {
  }

  /** One image after the other. */
  method CopyImages(ico: array<byte>, ghost sizes: seq<nat>, ghost draw: Drawings, entries: seq<Entry>,
                    ghost head: seq<byte>, ghost left: seq<byte>)
    requires entries == EntriesOf(sizes, draw)
    requires ico[..] == head + left && |head| == 6 + 16 * |sizes| && |left| == TotalSize(sizes)
    modifies ico
    ensures ico[..] == head + Data(entries)
  {
    NoData(entries, head, left);
    for i := 0 to |entries|
      invariant |Data(entries[..i])| <= |left|
      invariant ico[..] == head + Data(entries[..i]) + left[|Data(entries[..i])|..]
    {
      CopyImage(ico, sizes, draw, entries, i, head, left);
    }
    AllData(sizes, draw, head, left);
  }

  method GenerateIco(sizes: seq<nat>, draw: Drawings) returns (r: Option<array<byte>>)
    ensures r.Some? <==> Encodable(sizes)
    ensures r.Some? ==> fresh(r.value) && r.value[..] == IcoFile(sizes, draw)
  {
    var collected, totalSize := CollectEntries(sizes, draw);
    if collected.None? {
      return None;
    }
    var entries := collected.value;
    var ico := new byte[totalSize](_ => 0);
    if |entries| >= 0x1_0000 {
      return None;
    }
    assert sizes[..|sizes|] == sizes;
    ghost var left := Zeros(totalSize);
    assert ico[..] == left;
    WriteHeader(ico, |entries|, left);
    var ok := WriteDirectory(ico, entries, IcoHeader(|entries|), left[6..]);
    assert forall i | 0 <= i < |sizes| :: entries[i].offset == OffsetOf(sizes, i);
    if !ok {
      return None;
    }
    CopyImages(ico, sizes, draw, entries, IcoHeader(|entries|) + Directory(entries), left[6..][16 * |entries|..]);
    r := Some(ico);
  }
}
