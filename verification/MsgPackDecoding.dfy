/** Reading MessagePack encodings back (MessagePack specification, section "Formats"): what a receiver
    makes of the bytes is the value that the sender encoded. */
module MsgPackDecoding {
  import opened Common
  import opened MsgPack
  import opened MsgPackValues

  // ---------------------------------------------------------------------------------------------
  // A reader
  // ---------------------------------------------------------------------------------------------

  /** What was read, and the bytes behind it. */
  datatype Read<T> = Read(value: T, rest: seq<byte>)

  function TakeBytes(s: seq<byte>, n: nat): (r: Option<Read<seq<byte>>>)
    ensures r.Some? ==> |r.value.rest| + n == |s|
  {
    if |s| < n then None else Some(Read(s[..n], s[n..]))
  }

  function TakeNumber(s: seq<byte>, width: nat): (r: Option<Read<nat>>)
    ensures r.Some? ==> |r.value.rest| + width == |s|
  {
    var r := TakeBytes(s, width);
    if r.None? then None else Some(Read(BigEndian(r.value.value), r.value.rest))
  }

  /** Two's complement. */
  function Signed(n: nat, width: nat): int {
    if 2 * n >= Power(width) then n - Power(width) else n
  }

  function ReadValue(s: seq<byte>): (r: Option<Read<Value>>)
    ensures r.Some? ==> |r.value.rest| < |s|
    decreases |s|, 0
  {
    if s == [] then None
    else
      var m, t := s[0] as int, s[1..];
      if m < 0x80 then Some(Read(Int(m), t))
      else if m < 0x90 then ReadMap(t, Some(Read(m - 0x80, t)))
      else if m < 0xa0 then ReadArr(t, Some(Read(m - 0x90, t)))
      else if m < 0xc0 then ReadStr(t, Some(Read(m - 0xa0, t)))
      else if m >= 0xe0 then Some(Read(Int(m - 0x100), t))
      else ReadMarked(m, t)
  }

  /** The formats whose marker byte holds no data. */
  function ReadMarked(m: int, t: seq<byte>): (r: Option<Read<Value>>)
    ensures r.Some? ==> |r.value.rest| <= |t|
    decreases |t|, 4
  {
    if m == 0xc0 then Some(Read(Nil, t))
    else if m == 0xc2 then Some(Read(Bool(false), t))
    else if m == 0xc3 then Some(Read(Bool(true), t))
    else if m == 0xc4 then ReadBin(t, TakeNumber(t, 1))
    else if m == 0xc5 then ReadBin(t, TakeNumber(t, 2))
    else if m == 0xc6 then ReadBin(t, TakeNumber(t, 4))
    else if m == 0xcb then ReadFloat(t)
    else if m == 0xcc then ReadUnsigned(t, 1)
    else if m == 0xcd then ReadUnsigned(t, 2)
    else if m == 0xce then ReadUnsigned(t, 4)
    else if m == 0xcf then ReadUnsigned(t, 8)
    else if m == 0xd0 then ReadSigned(t, 1)
    else if m == 0xd1 then ReadSigned(t, 2)
    else if m == 0xd2 then ReadSigned(t, 4)
    else if m == 0xd3 then ReadSigned(t, 8)
    else if m == 0xd9 then ReadStr(t, TakeNumber(t, 1))
    else if m == 0xda then ReadStr(t, TakeNumber(t, 2))
    else if m == 0xdb then ReadStr(t, TakeNumber(t, 4))
    else if m == 0xdc then ReadArr(t, TakeNumber(t, 2))
    else if m == 0xdd then ReadArr(t, TakeNumber(t, 4))
    else if m == 0xde then ReadMap(t, TakeNumber(t, 2))
    else if m == 0xdf then ReadMap(t, TakeNumber(t, 4))
    else None
  }

  function ReadUnsigned(t: seq<byte>, width: nat): (r: Option<Read<Value>>)
    ensures r.Some? ==> |r.value.rest| <= |t|
  {
    var n := TakeNumber(t, width);
    if n.None? then None else Some(Read(Int(n.value.value), n.value.rest))
  }

  function ReadSigned(t: seq<byte>, width: nat): (r: Option<Read<Value>>)
    ensures r.Some? ==> |r.value.rest| <= |t|
  {
    var n := TakeNumber(t, width);
    if n.None? then None else Some(Read(Int(Signed(n.value.value, width)), n.value.rest))
  }

  function ReadFloat(t: seq<byte>): (r: Option<Read<Value>>)
    ensures r.Some? ==> |r.value.rest| <= |t|
  {
    var bits := TakeBytes(t, 8);
    if bits.None? then None else Some(Read(Float(bits.value.value), bits.value.rest))
  }

  /** `len` is the length that was read off the front of `t`. */
  function ReadStr(t: seq<byte>, len: Option<Read<nat>>): (r: Option<Read<Value>>)
    requires len.Some? ==> |len.value.rest| <= |t|
    ensures r.Some? ==> |r.value.rest| <= |t|
  {
    var text := if len.None? then None else TakeBytes(len.value.rest, len.value.value);
    if text.None? then None else Some(Read(Str(text.value.value), text.value.rest))
  }

  function ReadBin(t: seq<byte>, len: Option<Read<nat>>): (r: Option<Read<Value>>)
    requires len.Some? ==> |len.value.rest| <= |t|
    ensures r.Some? ==> |r.value.rest| <= |t|
  {
    var data := if len.None? then None else TakeBytes(len.value.rest, len.value.value);
    if data.None? then None else Some(Read(Bin(data.value.value), data.value.rest))
  }

  function ReadArr(t: seq<byte>, len: Option<Read<nat>>): (r: Option<Read<Value>>)
    requires len.Some? ==> |len.value.rest| <= |t|
    ensures r.Some? ==> |r.value.rest| <= |t|
    decreases |t|, 3
  {
    var items := if len.None? then None else ReadItems(len.value.rest, len.value.value);
    if items.None? then None else Some(Read(Arr(items.value.value), items.value.rest))
  }

  function ReadMap(t: seq<byte>, len: Option<Read<nat>>): (r: Option<Read<Value>>)
    requires len.Some? ==> |len.value.rest| <= |t|
    ensures r.Some? ==> |r.value.rest| <= |t|
    decreases |t|, 3
  {
    var entries := if len.None? then None else ReadEntries(len.value.rest, len.value.value);
    if entries.None? then None else Some(Read(Map(entries.value.value), entries.value.rest))
  }

  function ReadItems(s: seq<byte>, n: nat): (r: Option<Read<seq<Value>>>)
    ensures r.Some? ==> |r.value.rest| <= |s|
    decreases |s|, 1
  {
    if n == 0 then Some(Read([], s))
    else
      var first := ReadValue(s);
      if first.None? then None
      else
        var others := ReadItems(first.value.rest, n - 1);
        if others.None? then None else Some(Read([first.value.value] + others.value.value, others.value.rest))
  }

  function ReadEntries(s: seq<byte>, n: nat): (r: Option<Read<seq<Entry>>>)
    ensures r.Some? ==> |r.value.rest| <= |s|
    decreases |s|, 1
  {
    if n == 0 then Some(Read([], s))
    else
      var key := ReadValue(s);
      var value := if key.None? then None else ReadValue(key.value.rest);
      if value.None? then None
      else
        var others := ReadEntries(value.value.rest, n - 1);
        if others.None? then None
        else Some(Read([Entry(key.value.value, value.value.value)] + others.value.value, others.value.rest))
  }

  // ---------------------------------------------------------------------------------------------
  // Numbers and lengths
  // ---------------------------------------------------------------------------------------------

  lemma BytesBack(a: seq<byte>, t: seq<byte>)
    ensures TakeBytes(a + t, |a|) == Some(Read(a, t))
  {
  }

  lemma NumberBack(n: nat, width: nat, t: seq<byte>)
    requires n < Power(width)
    ensures TakeNumber(ToBytes(n, width) + t, width) == Some(Read(n, t))
  {
    ToBytesBack(n, width);
    BytesBack(ToBytes(n, width), t);
  }

  lemma EightBytes()
    ensures Power(8) == 2 * TWO63
  {
    assert Power(8) == 256 * Power(7) && Power(7) == 256 * Power(6) && Power(6) == 256 * Power(5);
    assert Power(5) == 256 * Power(4);
    Powers();
  }

  /** Behind its marker a format is read by its marker. */
  lemma MarkerOff(m: byte, contents: seq<byte>, t: seq<byte>)
    requires 0xc0 <= m < 0xe0
    ensures ReadValue(Tagged(m, contents) + t) == ReadMarked(m as int, contents + t)
  {
    assert (Tagged(m, contents) + t)[1..] == contents + t;
  }

  lemma UnsignedBack(n: nat, t: seq<byte>)
    requires 128 <= n < 2 * TWO63
    ensures ReadValue(EncodeInt(n) + t) == Some(Read(Int(n), t))
  {
    Powers();
    EightBytes();
    var width := if n < TWO8 then 1 else if n < TWO16 then 2 else if n < TWO32 then 4 else 8;
    var m: byte := if n < TWO8 then 0xcc else if n < TWO16 then 0xcd else if n < TWO32 then 0xce else 0xcf;
    NumberBack(n, width, t);
    MarkerOff(m, ToBytes(n, width), t);
  }

  lemma SignedMarked(m: byte, width: nat, s: seq<byte>)
    requires (m == 0xd0 && width == 1) || (m == 0xd1 && width == 2) ||
             (m == 0xd2 && width == 4) || (m == 0xd3 && width == 8)
    ensures ReadMarked(m as int, s) == ReadSigned(s, width)
  {
  }

  lemma SignedRead(n: int, width: nat, p: nat, t: seq<byte>)
    requires p == Power(width) && 2 * n + p >= 0 && n < 0
    ensures ReadSigned(ToBytes(n + p, width) + t, width) == Some(Read(Int(n), t))
  {
    NumberBack(n + p, width, t);
  }

  lemma SignedAs(n: int, m: byte, width: nat, p: nat, t: seq<byte>)
    requires (m == 0xd0 && width == 1) || (m == 0xd1 && width == 2) ||
             (m == 0xd2 && width == 4) || (m == 0xd3 && width == 8)
    requires p == Power(width) && 2 * n + p >= 0 && n < 0
    ensures ReadValue(Tagged(m, ToBytes(n + p, width)) + t) == Some(Read(Int(n), t))
  {
    SignedRead(n, width, p, t);
    SignedMarked(m, width, ToBytes(n + p, width) + t);
    MarkerOff(m, ToBytes(n + p, width), t);
  }

  lemma EncodedSigned(n: int)
    requires -TWO63 <= n < -32
    ensures EncodeInt(n) ==
            if -128 <= n then Tagged(0xd0, ToBytes(n + TWO8, 1))
            else if -0x8000 <= n then Tagged(0xd1, ToBytes(n + TWO16, 2))
            else if -0x8000_0000 <= n then Tagged(0xd2, ToBytes(n + TWO32, 4))
            else Tagged(0xd3, ToBytes(n + 2 * TWO63, 8))
  {
  }

  lemma SignedBack(n: int, t: seq<byte>)
    requires -TWO63 <= n < -32
    ensures ReadValue(EncodeInt(n) + t) == Some(Read(Int(n), t))
  {
    Powers();
    EightBytes();
    EncodedSigned(n);
    if -128 <= n {
      SignedAs(n, 0xd0, 1, TWO8, t);
    } else if -0x8000 <= n {
      SignedAs(n, 0xd1, 2, TWO16, t);
    } else if -0x8000_0000 <= n {
      SignedAs(n, 0xd2, 4, TWO32, t);
    } else {
      SignedAs(n, 0xd3, 8, 2 * TWO63, t);
    }
  }

  lemma SmallBack(n: int, t: seq<byte>)
    requires -32 <= n < 128
    ensures ReadValue(EncodeInt(n) + t) == Some(Read(Int(n), t))
  {
    assert (EncodeInt(n) + t)[1..] == t;
  }

  lemma IntBack(n: int, t: seq<byte>)
    requires -TWO63 <= n < 2 * TWO63
    ensures ReadValue(EncodeInt(n) + t) == Some(Read(Int(n), t))
  {
    if n >= 128 {
      UnsignedBack(n, t);
    } else if n < -32 {
      SignedBack(n, t);
    } else {
      SmallBack(n, t);
    }
  }

  /** A length of `width` bytes behind its marker. */
  lemma LengthBack(m: byte, len: nat, width: nat, t: seq<byte>)
    requires 0xc0 <= m < 0xe0 && len < Power(width)
    ensures ReadValue(Tagged(m, ToBytes(len, width)) + t) == ReadMarked(m as int, ToBytes(len, width) + t)
    ensures TakeNumber(ToBytes(len, width) + t, width) == Some(Read(len, t))
  {
    MarkerOff(m, ToBytes(len, width), t);
    NumberBack(len, width, t);
  }

  lemma StrBack(text: seq<byte>, t: seq<byte>)
    requires |text| < TWO32
    ensures ReadValue(StrHeader(|text|) + (text + t)) == Some(Read(Str(text), t))
  {
    var len := |text|;
    BytesBack(text, t);
    Powers();
    if len < 32 {
      assert (StrHeader(len) + (text + t))[1..] == text + t;
    } else {
      LengthBack(if len < TWO8 then 0xd9 else if len < TWO16 then 0xda else 0xdb, len,
                 if len < TWO8 then 1 else if len < TWO16 then 2 else 4, text + t);
    }
  }

  lemma BinBack(data: seq<byte>, t: seq<byte>)
    requires |data| < TWO32
    ensures ReadValue(BinHeader(|data|) + (data + t)) == Some(Read(Bin(data), t))
  {
    var len := |data|;
    BytesBack(data, t);
    Powers();
    LengthBack(if len < TWO8 then 0xc4 else if len < TWO16 then 0xc5 else 0xc6, len,
               if len < TWO8 then 1 else if len < TWO16 then 2 else 4, data + t);
  }

  lemma ArrBack(items: seq<Value>, inner: seq<byte>, t: seq<byte>)
    requires |items| < TWO32 && ReadItems(inner + t, |items|) == Some(Read(items, t))
    ensures ReadValue(ArrHeader(|items|) + (inner + t)) == Some(Read(Arr(items), t))
  {
    var len := |items|;
    Powers();
    if len < 16 {
      assert (ArrHeader(len) + (inner + t))[1..] == inner + t;
    } else {
      LengthBack(if len < TWO16 then 0xdc else 0xdd, len, if len < TWO16 then 2 else 4, inner + t);
    }
  }

  lemma MapBack(entries: seq<Entry>, inner: seq<byte>, t: seq<byte>)
    requires |entries| < TWO32 && ReadEntries(inner + t, |entries|) == Some(Read(entries, t))
    ensures ReadValue(MapHeader(|entries|) + (inner + t)) == Some(Read(Map(entries), t))
  {
    var len := |entries|;
    Powers();
    if len < 16 {
      assert (MapHeader(len) + (inner + t))[1..] == inner + t;
    } else {
      LengthBack(if len < TWO16 then 0xde else 0xdf, len, if len < TWO16 then 2 else 4, inner + t);
    }
  }

  // ---------------------------------------------------------------------------------------------
  // Round trip
  // ---------------------------------------------------------------------------------------------

  lemma FixedBack(v: Value, t: seq<byte>)
    requires Encodable(v) && (v.Nil? || v.Bool? || v.Float?)
    ensures ReadValue(Encode(v) + t) == Some(Read(v, t))
  {
    match v
    case Nil => MarkerOff(0xc0, [], t); assert [] + t == t;
    case Bool(b) => MarkerOff(if b then 0xc3 else 0xc2, [], t); assert [] + t == t;
    case Float(bits) => MarkerOff(0xcb, bits, t); BytesBack(bits, t);
  }

  lemma InFront(a: seq<byte>, b: seq<byte>, t: seq<byte>)
    ensures (a + b) + t == a + (b + t)
  {
  }

  /** Every value, of any nesting, with any bytes behind its encoding, is read back, and these bytes are
      left. */
  lemma {:induction false} ReadEncoded(v: Value, t: seq<byte>)
    requires Encodable(v)
    ensures ReadValue(Encode(v) + t) == Some(Read(v, t))
    decreases v, 0
  {
    match v
    case Int(n) => IntBack(n, t);
    case Str(text) =>
      InFront(StrHeader(|text|), text, t);
      StrBack(text, t);
    case Bin(data) =>
      InFront(BinHeader(|data|), data, t);
      BinBack(data, t);
    case Arr(items) =>
      InFront(ArrHeader(|items|), EncodeAll(items), t);
      ReadEncodedItems(items, t);
      ArrBack(items, EncodeAll(items), t);
    case Map(entries) =>
      InFront(MapHeader(|entries|), EncodeEntries(entries), t);
      ReadEncodedEntries(entries, t);
      MapBack(entries, EncodeEntries(entries), t);
    case _ => FixedBack(v, t);
  }

  lemma {:induction false} ReadEncodedItems(items: seq<Value>, t: seq<byte>)
    requires forall x <- items :: Encodable(x)
    ensures ReadItems(EncodeAll(items) + t, |items|) == Some(Read(items, t))
    decreases items
  {
    if items == [] {
      assert EncodeAll(items) + t == t;
    } else {
      InFront(Encode(items[0]), EncodeAll(items[1..]), t);
      ReadEncoded(items[0], EncodeAll(items[1..]) + t);
      ReadEncodedItems(items[1..], t);
      assert [items[0]] + items[1..] == items;
    }
  }

  lemma {:induction false} ReadEncodedEntries(entries: seq<Entry>, t: seq<byte>)
    requires forall e <- entries :: Encodable(e.key) && Encodable(e.value)
    ensures ReadEntries(EncodeEntries(entries) + t, |entries|) == Some(Read(entries, t))
    decreases entries
  {
    if entries == [] {
      assert EncodeEntries(entries) + t == t;
    } else {
      var rest := EncodeEntries(entries[1..]) + t;
      InFront(EncodeEntry(entries[0]), EncodeEntries(entries[1..]), t);
      ReadEncodedEntry(entries[0], rest);
      ReadEncodedEntries(entries[1..], t);
      assert [entries[0]] + entries[1..] == entries;
    }
  }

  lemma {:induction false} ReadEncodedEntry(e: Entry, t: seq<byte>)
    requires Encodable(e.key) && Encodable(e.value)
    ensures ReadValue(EncodeEntry(e) + t) == Some(Read(e.key, Encode(e.value) + t))
    ensures ReadValue(Encode(e.value) + t) == Some(Read(e.value, t))
    decreases e
  {
    InFront(Encode(e.key), Encode(e.value), t);
    ReadEncoded(e.key, Encode(e.value) + t);
    ReadEncoded(e.value, t);
  }

  /** Different values have different encodings, and none is the beginning of another's. */
  lemma EncodingsApart(v: Value, w: Value)
    requires Encodable(v) && Encodable(w) && Encode(v) <= Encode(w)
    ensures v == w
  {
    var t := Encode(w)[|Encode(v)|..];
    ReadEncoded(v, t);
    ReadEncoded(w, []);
    assert Encode(v) + t == Encode(w) + [];
  }
}
