/** Objects of the protocol and their MessagePack encoding: every encoding is self-delimiting, so the
    codec cuts a stream of objects exactly where the sender put the boundaries. */
module MsgPackValues {
  import opened Common
  import opened MsgPack

  datatype Value =
    | Nil
    | Bool(b: bool)
    | Int(n: int)
    | Float(bits: seq<byte>)
    | Str(text: seq<byte>)
    | Bin(data: seq<byte>)
    | Arr(items: seq<Value>)
    | Map(entries: seq<Entry>)

  datatype Entry = Entry(key: Value, value: Value)

  const TWO8 := 0x100
  const TWO16 := 0x1_0000
  const TWO32 := 0x1_0000_0000
  const TWO63 := 0x8000_0000_0000_0000

  /** What the format can represent. */
  predicate Encodable(v: Value) {
    match v
    case Nil => true
    case Bool(_) => true
    case Int(n) => -TWO63 <= n < 2 * TWO63
    case Float(bits) => |bits| == 8
    case Str(text) => |text| < TWO32
    case Bin(data) => |data| < TWO32
    case Arr(items) => |items| < TWO32 && forall x <- items :: Encodable(x)
    case Map(entries) => |entries| < TWO32 && forall e <- entries :: Encodable(e.key) && Encodable(e.value)
  }

  /** `n` in `width` big-endian bytes (its residue, if it does not fit). */
  function ToBytes(n: nat, width: nat): (s: seq<byte>)
    ensures |s| == width
  {
    if width == 0 then [] else ToBytes(n / 256, width - 1) + [(n % 256) as byte]
  }

  function Power(width: nat): nat {
    if width == 0 then 1 else 256 * Power(width - 1)
  }

  lemma {:induction false} ToBytesBack(n: nat, width: nat)
    requires n < Power(width)
    ensures BigEndian(ToBytes(n, width)) == n
  {
    if width > 0 {
      ToBytesBack(n / 256, width - 1);
      assert ToBytes(n, width)[..width-1] == ToBytes(n / 256, width - 1);
    }
  }

  function Tagged(marker: byte, contents: seq<byte>): seq<byte> {
    [marker] + contents
  }

  function EncodeInt(n: int): seq<byte>
    requires -TWO63 <= n < 2 * TWO63
  {
    if 0 <= n < 128 then Tagged(n as byte, [])
    else if -32 <= n < 0 then Tagged((n + 256) as byte, [])
    else if 0 <= n then
      if n < TWO8 then Tagged(0xcc, ToBytes(n, 1)) else if n < TWO16 then Tagged(0xcd, ToBytes(n, 2))
      else if n < TWO32 then Tagged(0xce, ToBytes(n, 4)) else Tagged(0xcf, ToBytes(n, 8))
    else
      if -128 <= n then Tagged(0xd0, ToBytes(n + TWO8, 1)) else if -0x8000 <= n then Tagged(0xd1, ToBytes(n + TWO16, 2))
      else if -0x8000_0000 <= n then Tagged(0xd2, ToBytes(n + TWO32, 4)) else Tagged(0xd3, ToBytes(n + 2 * TWO63, 8))
  }

  function StrHeader(len: nat): seq<byte>
    requires len < TWO32
  {
    if len < 32 then Tagged((0xa0 + len) as byte, []) else if len < TWO8 then Tagged(0xd9, ToBytes(len, 1))
    else if len < TWO16 then Tagged(0xda, ToBytes(len, 2)) else Tagged(0xdb, ToBytes(len, 4))
  }

  function BinHeader(len: nat): seq<byte>
    requires len < TWO32
  {
    if len < TWO8 then Tagged(0xc4, ToBytes(len, 1)) else if len < TWO16 then Tagged(0xc5, ToBytes(len, 2))
    else Tagged(0xc6, ToBytes(len, 4))
  }

  function ArrHeader(len: nat): seq<byte>
    requires len < TWO32
  {
    if len < 16 then Tagged((0x90 + len) as byte, []) else if len < TWO16 then Tagged(0xdc, ToBytes(len, 2))
    else Tagged(0xdd, ToBytes(len, 4))
  }

  function MapHeader(len: nat): seq<byte>
    requires len < TWO32
  {
    if len < 16 then Tagged((0x80 + len) as byte, []) else if len < TWO16 then Tagged(0xde, ToBytes(len, 2))
    else Tagged(0xdf, ToBytes(len, 4))
  }

  function Encode(v: Value): seq<byte>
    requires Encodable(v)
    decreases v, 0
  {
    match v
    case Nil => Tagged(0xc0, [])
    case Bool(b) => Tagged(if b then 0xc3 else 0xc2, [])
    case Int(n) => EncodeInt(n)
    case Float(bits) => Tagged(0xcb, bits)
    case Str(text) => StrHeader(|text|) + text
    case Bin(data) => BinHeader(|data|) + data
    case Arr(items) => ArrHeader(|items|) + EncodeAll(items)
    case Map(entries) => MapHeader(|entries|) + EncodeEntries(entries)
  }

  function EncodeAll(items: seq<Value>): seq<byte>
    requires forall x <- items :: Encodable(x)
    decreases items
  {
    if items == [] then [] else Encode(items[0]) + EncodeAll(items[1..])
  }

  function EncodeEntries(entries: seq<Entry>): seq<byte>
    requires forall e <- entries :: Encodable(e.key) && Encodable(e.value)
    decreases entries
  {
    if entries == [] then []
    else EncodeEntry(entries[0]) + EncodeEntries(entries[1..])
  }

  function EncodeEntry(e: Entry): seq<byte>
    requires Encodable(e.key) && Encodable(e.value)
    decreases e
  {
    Encode(e.key) + Encode(e.value)
  }

  // ---------------------------------------------------------------------------------------------
  // Every encoding delimits itself
  // ---------------------------------------------------------------------------------------------

  lemma Counts(marker: byte, len: nat, t: seq<byte>)
    requires MarkerOf(marker).Counted? && len < Power(MarkerOf(marker).width)
    requires MarkerOf(marker).perEntry > 0 || |t| >= len + MarkerOf(marker).extra
    ensures var m := MarkerOf(marker);
            ReadHeader(MarkerOf, Tagged(marker, ToBytes(len, m.width)) + t)
            == if m.perEntry > 0 then Header(1 + m.width, len * m.perEntry) else Header(1 + m.width + len + m.extra, 0)
  {
    var m := MarkerOf(marker);
    var s := Tagged(marker, ToBytes(len, m.width)) + t;
    ToBytesBack(len, m.width);
    assert s[1..1+m.width] == ToBytes(len, m.width);
  }

  lemma Powers()
    ensures Power(1) == TWO8 && Power(2) == TWO16 && Power(4) == TWO32
  {
  }

  lemma StrReads(len: nat, t: seq<byte>)
    requires len < TWO32 && |t| >= len
    ensures ReadHeader(MarkerOf, StrHeader(len) + t) == Header(|StrHeader(len)| + len, 0)
  {
    Powers();
    if len >= 32 { Counts(if len < TWO8 then 0xd9 else if len < TWO16 then 0xda else 0xdb, len, t); }
  }

  lemma BinReads(len: nat, t: seq<byte>)
    requires len < TWO32 && |t| >= len
    ensures ReadHeader(MarkerOf, BinHeader(len) + t) == Header(|BinHeader(len)| + len, 0)
  {
    Powers();
    Counts(if len < TWO8 then 0xc4 else if len < TWO16 then 0xc5 else 0xc6, len, t);
  }

  lemma ArrReads(len: nat, t: seq<byte>)
    requires len < TWO32
    ensures ReadHeader(MarkerOf, ArrHeader(len) + t) == Header(|ArrHeader(len)|, len)
  {
    Powers();
    if len >= 16 { Counts(if len < TWO16 then 0xdc else 0xdd, len, t); }
  }

  lemma MapReads(len: nat, t: seq<byte>)
    requires len < TWO32
    ensures ReadHeader(MarkerOf, MapHeader(len) + t) == Header(|MapHeader(len)|, 2 * len)
  {
    Powers();
    if len >= 16 { Counts(if len < TWO16 then 0xde else 0xdf, len, t); }
  }

  lemma IntReads(n: int, t: seq<byte>)
    requires -TWO63 <= n < 2 * TWO63
    ensures ReadHeader(MarkerOf, EncodeInt(n) + t) == Header(|EncodeInt(n)|, 0)
  {}

  /** The meaning of the marker bytes that the encoder uses, as far as scanning needs it. */
  ghost predicate Understands(ms: Markers) {
    && (forall n: int, t: seq<byte> {:trigger EncodeInt(n) + t} | -TWO63 <= n < 2 * TWO63 ::
          ReadHeader(ms, EncodeInt(n) + t) == Header(|EncodeInt(n)|, 0))
    && (forall len: nat, t: seq<byte> {:trigger StrHeader(len) + t} | len < TWO32 && |t| >= len ::
          ReadHeader(ms, StrHeader(len) + t) == Header(|StrHeader(len)| + len, 0))
    && (forall len: nat, t: seq<byte> {:trigger BinHeader(len) + t} | len < TWO32 && |t| >= len ::
          ReadHeader(ms, BinHeader(len) + t) == Header(|BinHeader(len)| + len, 0))
    && (forall len: nat, t: seq<byte> {:trigger ArrHeader(len) + t} | len < TWO32 ::
          ReadHeader(ms, ArrHeader(len) + t) == Header(|ArrHeader(len)|, len))
    && (forall len: nat, t: seq<byte> {:trigger MapHeader(len) + t} | len < TWO32 ::
          ReadHeader(ms, MapHeader(len) + t) == Header(|MapHeader(len)|, 2 * len))
    && ms(0xc0) == ms(0xc2) == ms(0xc3) == Fixed(0, 0) && ms(0xcb) == Fixed(8, 0)
  }

  lemma FormatsUnderstood()
    ensures Understands(MarkerOf)
  {
    forall n: int, t: seq<byte> | -TWO63 <= n < 2 * TWO63
      ensures ReadHeader(MarkerOf, EncodeInt(n) + t) == Header(|EncodeInt(n)|, 0) { IntReads(n, t); }
    forall len: nat, t: seq<byte> | len < TWO32 && |t| >= len
      ensures ReadHeader(MarkerOf, StrHeader(len) + t) == Header(|StrHeader(len)| + len, 0) { StrReads(len, t); }
    forall len: nat, t: seq<byte> | len < TWO32 && |t| >= len
      ensures ReadHeader(MarkerOf, BinHeader(len) + t) == Header(|BinHeader(len)| + len, 0) { BinReads(len, t); }
    forall len: nat, t: seq<byte> | len < TWO32
      ensures ReadHeader(MarkerOf, ArrHeader(len) + t) == Header(|ArrHeader(len)|, len) { ArrReads(len, t); }
    forall len: nat, t: seq<byte> | len < TWO32
      ensures ReadHeader(MarkerOf, MapHeader(len) + t) == Header(|MapHeader(len)|, 2 * len) { MapReads(len, t); }
  }

  lemma FixedExtensions(m: byte, contents: seq<byte>, t: seq<byte>)
    requires 0xd4 <= m <= 0xd8
    requires |contents| == 1 + (if m == 0xd4 then 1 else if m == 0xd5 then 2 else if m == 0xd6 then 4
                                else if m == 0xd7 then 8 else 16)
    ensures ReadHeader(MarkerOf, Tagged(m, contents) + t) == Header(1 + |contents|, 0)
  {
  }

  lemma CountedExtensions(len: nat, t: seq<byte>)
    requires |t| > len
    ensures len < TWO8 ==> ReadHeader(MarkerOf, Tagged(0xc7, ToBytes(len, 1)) + t) == Header(3 + len, 0)
    ensures len < TWO16 ==> ReadHeader(MarkerOf, Tagged(0xc8, ToBytes(len, 2)) + t) == Header(4 + len, 0)
    ensures len < TWO32 ==> ReadHeader(MarkerOf, Tagged(0xc9, ToBytes(len, 4)) + t) == Header(6 + len, 0)
  {
    Powers();
    if len < TWO8 { Counts(0xc7, len, t); }
    if len < TWO16 { Counts(0xc8, len, t); }
    if len < TWO32 { Counts(0xc9, len, t); }
  }

  lemma ShortFloats(contents: seq<byte>, t: seq<byte>)
    requires |contents| == 4
    ensures ReadHeader(MarkerOf, Tagged(0xca, contents) + t) == Header(5, 0)
  {
  }

  /** The formats of the specification that the encoder does not write: 32-bit floats, and extensions of
      fixed and of counted length (a type byte and the data); 0xc1 is never used. */
  lemma OtherFormats(m: byte, contents: seq<byte>, len: nat, t: seq<byte>)
    ensures ReadHeader(MarkerOf, [0xc1] + t) == Bad
    ensures |contents| == 4 ==> ReadHeader(MarkerOf, Tagged(0xca, contents) + t) == Header(5, 0)
    ensures 0xd4 <= m <= 0xd8
            && |contents| == 1 + (if m == 0xd4 then 1 else if m == 0xd5 then 2 else if m == 0xd6 then 4
                                  else if m == 0xd7 then 8 else 16) ==>
              ReadHeader(MarkerOf, Tagged(m, contents) + t) == Header(1 + |contents|, 0)
    ensures len < TWO8 && len < |t| ==>
              ReadHeader(MarkerOf, Tagged(0xc7, ToBytes(len, 1)) + t) == Header(3 + len, 0)
    ensures len < TWO16 && len < |t| ==>
              ReadHeader(MarkerOf, Tagged(0xc8, ToBytes(len, 2)) + t) == Header(4 + len, 0)
    ensures len < TWO32 && len < |t| ==>
              ReadHeader(MarkerOf, Tagged(0xc9, ToBytes(len, 4)) + t) == Header(6 + len, 0)
  {
    if |contents| == 4 { ShortFloats(contents, t); }
    if 0xd4 <= m <= 0xd8
       && |contents| == 1 + (if m == 0xd4 then 1 else if m == 0xd5 then 2 else if m == 0xd6 then 4
                             else if m == 0xd7 then 8 else 16) {
      FixedExtensions(m, contents, t);
    }
    if |t| > len { CountedExtensions(len, t); }
  }

  /** Whatever follows, `a` is scanned as exactly `k` objects of its own length. */
  ghost predicate Objects(ms: Markers, a: seq<byte>, k: nat) {
    forall t: seq<byte>, n: nat :: Scan(ms, a + t, n + k) == Advance(|a|, Scan(ms, t, n))
  }

  lemma NoObjects(ms: Markers)
    ensures Objects(ms, [], 0)
  {
    forall t: seq<byte>, n: nat ensures Scan(ms, [] + t, n + 0) == Advance(0, Scan(ms, t, n)) {
      assert [] + t == t;
    }
  }

  lemma ObjectsConcat(ms: Markers, a: seq<byte>, j: nat, b: seq<byte>, k: nat)
    requires Objects(ms, a, j) && Objects(ms, b, k)
    ensures Objects(ms, a + b, j + k)
  {
    forall t: seq<byte>, n: nat ensures Scan(ms, (a + b) + t, n + (j + k)) == Advance(|a + b|, Scan(ms, t, n)) {
      assert (a + b) + t == a + (b + t);
      assert Scan(ms, a + (b + t), (n + k) + j) == Advance(|a|, Scan(ms, b + t, n + k));
      assert Scan(ms, b + t, n + k) == Advance(|b|, Scan(ms, t, n));
    }
  }

  /** A header with the `k` objects `inner` behind it. */
  lemma ObjectOf(ms: Markers, header: seq<byte>, inner: seq<byte>, k: nat)
    requires header != [] && Objects(ms, inner, k)
    requires forall t: seq<byte> :: ReadHeader(ms, header + t) == Header(|header|, k)
    ensures Objects(ms, header + inner, 1)
  {
    forall t: seq<byte>, n: nat
      ensures Scan(ms, (header + inner) + t, n + 1) == Advance(|header + inner|, Scan(ms, t, n))
    {
      assert (header + inner) + t == header + (inner + t);
      assert ReadHeader(ms, header + (inner + t)) == Header(|header|, k);
      assert (header + (inner + t))[|header|..] == inner + t;
      assert Scan(ms, inner + t, n + k) == Advance(|inner|, Scan(ms, t, n));
    }
  }

  lemma ArrHeaders(ms: Markers, len: nat)
    requires Understands(ms) && len < TWO32
    ensures forall t: seq<byte> :: ReadHeader(ms, ArrHeader(len) + t) == Header(|ArrHeader(len)|, len)
  {}

  lemma MapHeaders(ms: Markers, len: nat)
    requires Understands(ms) && len < TWO32
    ensures forall t: seq<byte> :: ReadHeader(ms, MapHeader(len) + t) == Header(|MapHeader(len)|, 2 * len)
  {}

  lemma LeafHeader(ms: Markers, v: Value, t: seq<byte>)
    requires Understands(ms) && Encodable(v) && !v.Arr? && !v.Map?
    ensures ReadHeader(ms, Encode(v) + t) == Header(|Encode(v)|, 0)
  {
    match v
    case Str(text) => StrLeaf(ms, text, t);
    case Bin(data) => BinLeaf(ms, data, t);
    case Int(_) =>
    case _ => FixedLeaf(ms, v, t);
  }

  lemma StrLeaf(ms: Markers, text: seq<byte>, t: seq<byte>)
    requires Understands(ms) && |text| < TWO32
    ensures ReadHeader(ms, (StrHeader(|text|) + text) + t) == Header(|StrHeader(|text|) + text|, 0)
  {
    assert StrHeader(|text|) + (text + t) == (StrHeader(|text|) + text) + t;
  }

  lemma BinLeaf(ms: Markers, data: seq<byte>, t: seq<byte>)
    requires Understands(ms) && |data| < TWO32
    ensures ReadHeader(ms, (BinHeader(|data|) + data) + t) == Header(|BinHeader(|data|) + data|, 0)
  {
    assert BinHeader(|data|) + (data + t) == (BinHeader(|data|) + data) + t;
  }

  lemma FixedLeaf(ms: Markers, v: Value, t: seq<byte>)
    requires Understands(ms) && Encodable(v) && (v.Nil? || v.Bool? || v.Float?)
    ensures ReadHeader(ms, Encode(v) + t) == Header(|Encode(v)|, 0)
  {
  }

  lemma LeafIsObject(ms: Markers, v: Value)
    requires Understands(ms) && Encodable(v) && !v.Arr? && !v.Map?
    ensures Objects(ms, Encode(v), 1)
  {
    forall t: seq<byte> ensures ReadHeader(ms, Encode(v) + t) == Header(|Encode(v)|, 0) { LeafHeader(ms, v, t); }
    NoObjects(ms);
    ObjectOf(ms, Encode(v), [], 0);
    assert Encode(v) + [] == Encode(v);
  }

  /** Every encoding is one self-delimiting object. */
  lemma {:induction false} EncodeIsObject(ms: Markers, v: Value)
    requires Understands(ms) && Encodable(v)
    ensures Objects(ms, Encode(v), 1)
    decreases v, 0
  {
    if v.Arr? {
      EncodeAllObjects(ms, v.items);
      ArrHeaders(ms, |v.items|);
      ObjectOf(ms, ArrHeader(|v.items|), EncodeAll(v.items), |v.items|);
    } else if v.Map? {
      EncodeEntriesObjects(ms, v.entries);
      MapHeaders(ms, |v.entries|);
      ObjectOf(ms, MapHeader(|v.entries|), EncodeEntries(v.entries), 2 * |v.entries|);
    } else {
      LeafIsObject(ms, v);
    }
  }

  lemma {:induction false} EncodeAllObjects(ms: Markers, items: seq<Value>)
    requires Understands(ms) && forall x <- items :: Encodable(x)
    ensures Objects(ms, EncodeAll(items), |items|)
    decreases items
  {
    if items == [] {
      NoObjects(ms);
    } else {
      EncodeIsObject(ms, items[0]);
      EncodeAllObjects(ms, items[1..]);
      ObjectsConcat(ms, Encode(items[0]), 1, EncodeAll(items[1..]), |items| - 1);
    }
  }

  lemma {:induction false} EncodeEntriesObjects(ms: Markers, entries: seq<Entry>)
    requires Understands(ms) && forall e <- entries :: Encodable(e.key) && Encodable(e.value)
    ensures Objects(ms, EncodeEntries(entries), 2 * |entries|)
    decreases entries
  {
    if entries == [] {
      NoObjects(ms);
    } else {
      EncodeEntryObjects(ms, entries[0]);
      EncodeEntriesObjects(ms, entries[1..]);
      ObjectsConcat(ms, EncodeEntry(entries[0]), 2, EncodeEntries(entries[1..]), 2 * |entries| - 2);
    }
  }

  lemma {:induction false} EncodeEntryObjects(ms: Markers, e: Entry)
    requires Understands(ms) && Encodable(e.key) && Encodable(e.value)
    ensures Objects(ms, EncodeEntry(e), 2)
    decreases e
  {
    EncodeIsObject(ms, e.key);
    EncodeIsObject(ms, e.value);
    ObjectsConcat(ms, Encode(e.key), 1, Encode(e.value), 1);
  }

  // ---------------------------------------------------------------------------------------------
  // A stream of objects is cut at the sender's boundaries
  // ---------------------------------------------------------------------------------------------

  function EncodeEach(vs: seq<Value>): seq<seq<byte>>
    requires forall v <- vs :: Encodable(v)
  {
    if vs == [] then [] else [Encode(vs[0])] + EncodeEach(vs[1..])
  }

  /** Objects `vs` followed by a proper prefix of one more object: the frames are the encodings of
      `vs` and the prefix stays in the buffer. */
  lemma {:induction false} FramesOfObjects(ms: Markers, vs: seq<Value>, last: Value, cut: nat)
    requires Understands(ms) && (forall v <- vs :: Encodable(v)) && Encodable(last) && cut < |Encode(last)|
    ensures Frames(ms, Flatten(EncodeEach(vs)) + Encode(last)[..cut]) ==
      Parsed(EncodeEach(vs), Encode(last)[..cut], false)
    decreases |vs|
  {
    var tail := Encode(last)[..cut];
    if vs == [] {
      EncodeIsObject(ms, last);
      CutObject(ms, Encode(last), cut);
      assert Flatten(EncodeEach(vs)) + tail == tail;
    } else {
      EncodeIsObject(ms, vs[0]);
      FramesOfObjects(ms, vs[1..], last, cut);
      FirstFrame(ms, Encode(vs[0]), EncodeEach(vs[1..]), tail);
    }
  }

  lemma CutObject(ms: Markers, e: seq<byte>, cut: nat)
    requires Objects(ms, e, 1) && cut < |e|
    ensures Frames(ms, e[..cut]) == Parsed([], e[..cut], false)
  {
    assert e + [] == e && Scan(ms, [], 0) == Complete(0);
    assert Scan(ms, e + [], 0 + 1) == Advance(|e|, Scan(ms, [], 0));
    ScanPrefix(ms, e, 1, cut);
  }

  lemma FirstFrame(ms: Markers, e: seq<byte>, rest: seq<seq<byte>>, tail: seq<byte>)
    requires Objects(ms, e, 1)
    ensures Frames(ms, Flatten([e] + rest) + tail) == Prepend(e, Frames(ms, Flatten(rest) + tail))
  {
    FlattenCons(e, rest, tail);
    assert Scan(ms, e + (Flatten(rest) + tail), 0 + 1) == Advance(|e|, Scan(ms, Flatten(rest) + tail, 0));
    FramesStep(ms, e, Flatten(rest) + tail);
  }

  /** However the sender's bytes are split into reads, the dispatcher sees exactly its objects. */
  method ReadObjects(codec: MsgPackCodec, chunks: seq<seq<byte>>, ghost vs: seq<Value>, ghost last: Value,
                     ghost cut: nat)
    returns (frames: seq<seq<byte>>, ok: bool)
    requires codec.buf == []
    requires (forall v <- vs :: Encodable(v)) && Encodable(last) && cut < |Encode(last)|
    requires Flatten(chunks) == Flatten(EncodeEach(vs)) + Encode(last)[..cut]
    modifies codec
    ensures ok && frames == EncodeEach(vs) && codec.buf == Encode(last)[..cut]
  {
    FormatsUnderstood();
    FramesOfObjects(MarkerOf, vs, last, cut);
    frames, ok := codec.ReadAll(chunks);
  }
}
