/** Reading back what `generateIco` of `scripts/generate-icons.js` writes: the directory's ranges
    tile the file, and each holds its own image. */
module IcoReading {
  import opened Common
  import opened Bytes
  import opened Bmp
  import opened BmpReading
  import opened Ico

  /** The first image starts behind the directory, each next one where the one before ends, and the
      last one ends with the file. */
  lemma OffsetsTile(sizes: seq<nat>, draw: Drawings)
    ensures OffsetOf(sizes, 0) == 6 + 16 * |sizes|
    ensures forall i | 0 <= i < |sizes| :: OffsetOf(sizes, i + 1) == OffsetOf(sizes, i) + ImageSize(sizes[i])
    ensures OffsetOf(sizes, |sizes|) == |IcoFile(sizes, draw)|
  {
    forall i | 0 <= i < |sizes|
      ensures OffsetOf(sizes, i + 1) == OffsetOf(sizes, i) + ImageSize(sizes[i])
    {
      EntriesPush(sizes, draw, i);
    }
    DataLength(sizes, draw, |sizes|);
    assert EntriesOf(sizes, draw)[..|sizes|] == EntriesOf(sizes, draw) && sizes[..|sizes|] == sizes;
  }

  lemma {:induction false} DataHolds(entries: seq<Entry>, i: nat)
    requires i < |entries|
    ensures Holds(Data(entries), |Data(entries[..i])|, entries[i].data)
  {
    var init := entries[..|entries| - 1];
    var before, last := Data(init), entries[|entries| - 1].data;
    if i == |entries| - 1 {
      HoldsBetween(before, last, []);
      assert before + last + [] == Data(entries);
    } else {
      DataHolds(init, i);
      assert init[..i] == entries[..i];
      HoldsInside([], before, last, |Data(entries[..i])|, entries[i].data);
      assert [] + before + last == Data(entries);
    }
  }

  lemma DataInside(head: seq<byte>, entries: seq<Entry>, i: nat)
    requires i < |entries|
    ensures Holds(head + Data(entries), |head| + |Data(entries[..i])|, entries[i].data)
  {
    DataHolds(entries, i);
    HoldsBehind(head, Data(entries), |Data(entries[..i])|, entries[i].data);
  }

  /** Each range holds its own image. */
  lemma RangeHoldsImage(sizes: seq<nat>, draw: Drawings, i: nat)
    requires i < |sizes|
    ensures Holds(IcoFile(sizes, draw), OffsetOf(sizes, i), Image(sizes[i], draw))
  {
    var entries := EntriesOf(sizes, draw);
    assert entries[i].data == Image(sizes[i], draw);
    DataLength(sizes, draw, i);
    DataInside(IcoHeader(|sizes|) + Directory(entries), entries, i);
  }

  lemma {:induction false} DirectoryHolds(entries: seq<Entry>, i: nat)
    requires i < |entries|
    ensures Holds(Directory(entries), 16 * i, DirectoryEntry(entries[i]))
  {
    var before, last := Directory(entries[..|entries| - 1]), DirectoryEntry(entries[|entries| - 1]);
    if i == |entries| - 1 {
      HoldsBetween(before, last, []);
      assert before + last + [] == Directory(entries);
    } else {
      DirectoryHolds(entries[..|entries| - 1], i);
      HoldsInside([], before, last, 16 * i, DirectoryEntry(entries[i]));
      assert [] + before + last == Directory(entries);
    }
  }

  lemma EntryHolds(sizes: seq<nat>, draw: Drawings, i: nat)
    requires i < |sizes|
    ensures Holds(IcoFile(sizes, draw), 6 + 16 * i, DirectoryEntry(EntryOf(sizes, draw, i)))
  {
    var entries := EntriesOf(sizes, draw);
    assert entries[i] == EntryOf(sizes, draw, i);
    DirectoryInside(IcoHeader(|sizes|), entries, Data(entries), i);
  }

  lemma DirectoryInside(head: seq<byte>, entries: seq<Entry>, data: seq<byte>, i: nat)
    requires i < |entries| && |head| == 6
    ensures Holds(head + Directory(entries) + data, 6 + 16 * i, DirectoryEntry(entries[i]))
  {
    DirectoryHolds(entries, i);
    HoldsInside(head, Directory(entries), data, 16 * i, DirectoryEntry(entries[i]));
  }

  // ---------------------------------------------------------------------------------------------
  // A reader
  // ---------------------------------------------------------------------------------------------

  /** Reads the image that directory entry `i` points to, and refuses an entry or image with any field
      that is not as it should be. The image's header counts each row twice, for a mask that this writer
      leaves out. */
  function ReadIcon(s: seq<byte>, i: nat): Option<Picture> {
    var at := 6 + 16 * i;
    if at + 16 > |s| || s[at + 2..at + 4] != [0, 0] || Field(s, at + 4, 2) != 1 || Field(s, at + 6, 2) != 24 then None
    else
      var size, offset := Field(s, at + 8, 4), Field(s, at + 12, 4);
      if size < 40 || offset + size > |s| then None else ReadDib(s[offset..offset + size])
  }

  function ReadDib(s: seq<byte>): Option<Picture>
    requires |s| >= 40
  {
    var width, height := Field(s, 4, 4), Field(s, 8, 4) / 2;
    var n := DataSize(width, height);
    if 40 + n != |s| || !PlainDib(s, 0, n) then None
    else Some(ReadPixels(s[40..40 + n], width, height))
  }

  lemma ReadsPixels(s: seq<byte>, size: nat, data: seq<byte>)
    requires |data| == DataSize(size, size) && |s| == 40 + |data| && Holds(s, 40, data)
    requires PlainDib(s, 0, |data|) && Field(s, 4, 4) == size && Field(s, 8, 4) == 2 * size
    ensures ReadDib(s) == Some(ReadPixels(data, size, size))
  {
  }

  lemma ImageParts(head: seq<byte>, data: seq<byte>)
    requires |head| == 40
    ensures Holds(head + data, 0, head) && Holds(head + data, 40, data)
  {
  }

  lemma DibReads(size: nat, draw: Drawings)
    requires Representable(size, size)
    ensures ReadDib(Image(size, draw)) == Some(Drawn(size, size, draw(size)))
  {
    var n, data := DataSize(size, size), PixelData(size, size, draw(size));
    DoubleFits(size);
    ReadsImage(DibHeader(size, 2 * size, n), size, data);
    PixelsReadBack(size, size, draw(size));
  }

  lemma ReadsImage(head: seq<byte>, size: nat, data: seq<byte>)
    requires head == DibHeader(size, 2 * size, |data|) && |data| == DataSize(size, size)
    requires 2 * size < 0x1_0000_0000 && |data| < 0x1_0000_0000
    ensures ReadDib(head + data) == Some(ReadPixels(data, size, size))
  {
    ImageParts(head, data);
    DibFields(head + data, 0, size, 2 * size, |data|);
    ReadsPixels(head + data, size, data);
  }

  lemma EntryParts(s: seq<byte>, at: nat, e: Entry)
    requires Holds(s, at, DirectoryEntry(e))
    ensures Holds(s, at, [Side(e.size), Side(e.size)]) && Holds(s, at + 2, [0, 0])
    ensures Holds(s, at + 4, LE(1, 2)) && Holds(s, at + 6, LE(24, 2))
    ensures Holds(s, at + 8, LE(|e.data|, 4)) && Holds(s, at + 12, LE(e.offset, 4))
  {
    var sides, d := [Side(e.size), Side(e.size), 0, 0], DirectoryEntry(e);
    var fields := LE(1, 2) + LE(24, 2) + LE(|e.data|, 4) + LE(e.offset, 4);
    HoldsFour(LE(1, 2), LE(24, 2), LE(|e.data|, 4), LE(e.offset, 4));
    HoldsBehind(sides, fields, 0, LE(1, 2));
    HoldsBehind(sides, fields, 2, LE(24, 2));
    HoldsBehind(sides, fields, 4, LE(|e.data|, 4));
    HoldsBehind(sides, fields, 8, LE(e.offset, 4));
    HoldsWithin(s, at, d, 4, LE(1, 2));
    HoldsWithin(s, at, d, 6, LE(24, 2));
    HoldsWithin(s, at, d, 8, LE(|e.data|, 4));
    HoldsWithin(s, at, d, 12, LE(e.offset, 4));
    HoldsWithin(s, at, d, 0, [Side(e.size), Side(e.size)]);
    HoldsWithin(s, at, d, 2, [0, 0]);
  }

  lemma EntryFields(s: seq<byte>, at: nat, e: Entry)
    requires Holds(s, at, DirectoryEntry(e)) && |e.data| < 0x1_0000_0000 && e.offset < 0x1_0000_0000
    ensures at + 16 <= |s| && s[at + 2..at + 4] == [0, 0] && Field(s, at + 4, 2) == 1 && Field(s, at + 6, 2) == 24
    ensures Field(s, at + 8, 4) == |e.data| && Field(s, at + 12, 4) == e.offset
    ensures Holds(s, at, [Side(e.size), Side(e.size)])
  {
    Ranges();
    EntryParts(s, at, e);
    HeldField(s, at + 4, 1, 2);
    HeldField(s, at + 6, 24, 2);
    HeldField(s, at + 8, |e.data|, 4);
    HeldField(s, at + 12, e.offset, 4);
  }

  lemma ReadsThrough(s: seq<byte>, i: nat, offset: nat, image: seq<byte>)
    requires 22 + 16 * i <= |s| && s[8 + 16 * i..10 + 16 * i] == [0, 0]
    requires Field(s, 10 + 16 * i, 2) == 1 && Field(s, 12 + 16 * i, 2) == 24
    requires Field(s, 14 + 16 * i, 4) == |image| && Field(s, 18 + 16 * i, 4) == offset
    requires |image| >= 40 && Holds(s, offset, image)
    ensures ReadIcon(s, i) == ReadDib(image)
  {
  }

  lemma EntryReads(s: seq<byte>, i: nat, e: Entry)
    requires Holds(s, 6 + 16 * i, DirectoryEntry(e)) && |e.data| < 0x1_0000_0000 && e.offset < 0x1_0000_0000
    requires |e.data| >= 40 && Holds(s, e.offset, e.data)
    ensures ReadIcon(s, i) == ReadDib(e.data) && Holds(s, 6 + 16 * i, [Side(e.size), Side(e.size)])
  {
    EntryFields(s, 6 + 16 * i, e);
    ReadsThrough(s, i, e.offset, e.data);
  }

  /** Reading the file gives, for every entry of the directory, the picture drawn for its size. */
  lemma IcoReadsBack(sizes: seq<nat>, draw: Drawings, i: nat)
    requires Encodable(sizes) && i < |sizes|
    ensures ReadIcon(IcoFile(sizes, draw), i) == Some(Drawn(sizes[i], sizes[i], draw(sizes[i])))
    ensures Holds(IcoFile(sizes, draw), 6 + 16 * i, [Side(sizes[i]), Side(sizes[i])])
  {
    EntryHolds(sizes, draw, i);
    RangeHoldsImage(sizes, draw, i);
    EntryReads(IcoFile(sizes, draw), i, EntryOf(sizes, draw, i));
    DibReads(sizes[i], draw);
  }

  lemma HeaderFields(s: seq<byte>, n: nat)
    requires Holds(s, 0, IcoHeader(n)) && n < 0x1_0000
    ensures |s| >= 6 && Field(s, 0, 2) == 0 && Field(s, 2, 2) == 1 && Field(s, 4, 2) == n
  {
    Ranges();
    HoldsThree(LE(0, 2), LE(1, 2), LE(n, 2));
    HoldsWithin(s, 0, IcoHeader(n), 0, LE(0, 2));
    HoldsWithin(s, 0, IcoHeader(n), 2, LE(1, 2));
    HoldsWithin(s, 0, IcoHeader(n), 4, LE(n, 2));
    HeldField(s, 0, 0, 2);
    HeldField(s, 2, 1, 2);
    HeldField(s, 4, n, 2);
  }

  /** The header marks an icon file and counts the entries. */
  lemma IcoCount(sizes: seq<nat>, draw: Drawings)
    requires Encodable(sizes)
    ensures var s := IcoFile(sizes, draw);
            |s| >= 6 && Field(s, 0, 2) == 0 && Field(s, 2, 2) == 1 && Field(s, 4, 2) == |sizes|
  {
    HoldsThree(IcoHeader(|sizes|), Directory(EntriesOf(sizes, draw)), Data(EntriesOf(sizes, draw)));
    HeaderFields(IcoFile(sizes, draw), |sizes|);
  }
}
