/** `MsgPackCodec` of `cli/src/msgpack_rpc.rs`: objects are cut out of a growing read buffer. The
    object headers follow the section "Formats" of the MessagePack specification. */
module MsgPack {
  import opened Common

  // ---------------------------------------------------------------------------------------------
  // Object headers and the extent of an object
  // ---------------------------------------------------------------------------------------------

  /** The big-endian value of some bytes. */
  function BigEndian(s: seq<byte>): nat {
    if s == [] then 0 else BigEndian(s[..|s|-1]) * 256 + s[|s|-1] as nat
  }

  /** What a marker byte says: contents of a fixed extent, or a big-endian length of `width` bytes
      that counts bytes (plus `extra`) or, when `perEntry > 0`, entries of that many objects. */
  datatype Marker = Reserved | Fixed(payload: nat, children: nat) | Counted(width: nat, extra: nat, perEntry: nat)

  function MarkerOf(b: byte): Marker {
    var m := b as int;
    if m < 0x80 || m >= 0xe0 then Fixed(0, 0)          // fixint
    else if m < 0x90 then Fixed(0, 2 * (m - 0x80))     // fixmap
    else if m < 0xa0 then Fixed(0, m - 0x90)           // fixarray
    else if m < 0xc0 then Fixed(m - 0xa0, 0)           // fixstr
    else if m == 0xc1 then Reserved
    else if m < 0xc4 then Fixed(0, 0)                       // nil, false, true
    else if m < 0xc7 then Counted(Width(m - 0xc4), 0, 0)    // bin
    else if m < 0xca then Counted(Width(m - 0xc7), 1, 0)    // ext
    else if m < 0xcc then Fixed(Width(m - 0xc8), 0)         // float
    else if m < 0xd0 then Fixed(Width(m - 0xcc), 0)         // uint
    else if m < 0xd4 then Fixed(Width(m - 0xd0), 0)         // int
    else if m < 0xd9 then Fixed(1 + Width(m - 0xd4), 0)     // fixext
    else if m < 0xdc then Counted(Width(m - 0xd9), 0, 0)    // str
    else if m < 0xde then Counted(Width(m - 0xdb), 0, 1)    // array
    else Counted(Width(m - 0xdd), 0, 2)                     // map
  }

  /** 1, 2, 4, 8, 16 */
  function Width(k: nat): nat {
    if k == 0 then 1 else if k == 1 then 2 else if k == 2 then 4 else if k == 3 then 8 else 16
  }

  /** The bytes from the marker to the end of the object's own contents, and the objects inside it. */
  datatype Header = Short | Bad | Header(size: nat, children: nat)

  function Contents(m: Marker, s: seq<byte>): Header {
    match m
    case Reserved => Bad
    case Fixed(payload, children) => if |s| < 1 + payload then Short else Header(1 + payload, children)
    case Counted(width, extra, perEntry) =>
      if |s| < 1 + width then Short
      else
        var len := BigEndian(s[1..1+width]);
        if perEntry > 0 then Header(1 + width, len * perEntry)
        else if |s| < 1 + width + len + extra then Short
        else Header(1 + width + len + extra, 0)
  }

  /** The results on extents hold for every assignment of meanings to marker bytes; the codec uses
      `MarkerOf`. */
  type Markers = byte -> Marker

  function ReadHeader(ms: Markers, s: seq<byte>): Header
    requires s != []
  {
    Contents(ms(s[0]), s)
  }

  datatype Extent = Complete(len: nat) | Incomplete | Invalid

  function Advance(k: nat, e: Extent): Extent {
    if e.Complete? then Complete(k + e.len) else e
  }

  /** How many bytes the first `n` objects of `s` take. */
  function Scan(ms: Markers, s: seq<byte>, n: nat): Extent
    decreases |s|
  {
    if n == 0 then Complete(0)
    else if s == [] then Incomplete
    else
      var h := ReadHeader(ms, s);
      HeaderWithin(ms(s[0]), s);
      match h
      case Short => Incomplete
      case Bad => Invalid
      case Header(size, children) => Advance(size, Scan(ms, s[size..], n - 1 + children))
  }

  lemma HeaderWithin(m: Marker, s: seq<byte>)
    ensures Contents(m, s).Header? ==> 1 <= Contents(m, s).size <= |s|
  {}

  /** A readable header depends on no byte behind its contents. */
  lemma HeaderExtends(m: Marker, s: seq<byte>, t: seq<byte>)
    requires Contents(m, s) != Short
    ensures Contents(m, s + t) == Contents(m, s)
  {
    if m.Counted? { assert (s + t)[1..1+m.width] == s[1..1+m.width]; }
  }

  lemma HeaderShrinks(m: Marker, s: seq<byte>, t: seq<byte>)
    requires Contents(m, s + t).Header? && Contents(m, s + t).size <= |s|
    ensures Contents(m, s) == Contents(m, s + t)
  {
    if m.Counted? { assert (s + t)[1..1+m.width] == s[1..1+m.width]; }
  }

  lemma HeaderStays(ms: Markers, s: seq<byte>, t: seq<byte>)
    requires s != [] && ReadHeader(ms, s) != Short
    ensures ReadHeader(ms, s + t) == ReadHeader(ms, s)
    ensures ReadHeader(ms, s).Header? ==> 1 <= ReadHeader(ms, s).size <= |s|
    ensures ReadHeader(ms, s).Header? ==> (s + t)[ReadHeader(ms, s).size..] == s[ReadHeader(ms, s).size..] + t
  {
    HeaderExtends(ms(s[0]), s, t);
    HeaderWithin(ms(s[0]), s);
  }

  /** A decided extent stays decided the same way when more bytes arrive. */
  lemma {:induction false} ScanExtends(ms: Markers, s: seq<byte>, n: nat, t: seq<byte>)
    requires Scan(ms, s, n) != Incomplete
    ensures Scan(ms, s + t, n) == Scan(ms, s, n)
    ensures Scan(ms, s, n).Complete? ==> Scan(ms, s, n).len <= |s|
    decreases |s|
  {
    if n > 0 {
      HeaderStays(ms, s, t);
      var h := ReadHeader(ms, s);
      if h.Header? {
        var m := n - 1 + h.children;
        assert Scan(ms, s, n) == Advance(h.size, Scan(ms, s[h.size..], m));
        assert Scan(ms, s + t, n) == Advance(h.size, Scan(ms, s[h.size..] + t, m));
        ScanExtends(ms, s[h.size..], m, t);
      }
    }
  }

  /** No proper prefix of an object is an object, nor is it rejected. */
  lemma {:induction false} ScanPrefix(ms: Markers, s: seq<byte>, n: nat, j: nat)
    requires Scan(ms, s, n).Complete? && j < Scan(ms, s, n).len
    ensures j <= |s| && Scan(ms, s[..j], n) == Incomplete
  {
    ScanExtends(ms, s, n, []);
    assert s[..j] + s[j..] == s;
    if Scan(ms, s[..j], n) != Incomplete { ScanExtends(ms, s[..j], n, s[j..]); }
  }

  lemma ScanPositive(ms: Markers, s: seq<byte>)
    ensures Scan(ms, s, 1).Complete? ==> 1 <= Scan(ms, s, 1).len <= |s|
  {
    if Scan(ms, s, 1).Complete? {
      ScanExtends(ms, s, 1, []);
      HeaderWithin(ms(s[0]), s);
    }
  }

  // ---------------------------------------------------------------------------------------------
  // The frames of a byte stream, however it is split into reads
  // ---------------------------------------------------------------------------------------------

  /** Frames handed to the dispatcher, bytes left in the buffer, and whether decoding failed. */
  datatype Parsed = Parsed(frames: seq<seq<byte>>, rest: seq<byte>, failed: bool)

  function Frames(ms: Markers, s: seq<byte>): Parsed
    decreases |s|
  {
    ScanPositive(ms, s);
    match Scan(ms, s, 1)
    case Complete(k) => var p := Frames(ms, s[k..]); p.(frames := [s[..k]] + p.frames)
    case Incomplete => Parsed([], s, false)
    case Invalid => Parsed([], s, true)
  }

  function Prepend(frame: seq<byte>, p: Parsed): Parsed {
    p.(frames := [frame] + p.frames)
  }

  /** A buffer that starts with the object `a`. */
  lemma FramesStep(ms: Markers, a: seq<byte>, b: seq<byte>)
    requires Scan(ms, a + b, 1) == Complete(|a|)
    ensures |a| > 0 && Frames(ms, a + b) == Prepend(a, Frames(ms, b))
  {
  }

  /** A parse that got stuck, continued by the parse `q` of its leftover and the bytes `b`. */
  function Continued(p: Parsed, q: Parsed, b: seq<byte>): Parsed {
    if p.failed then Parsed(p.frames, p.rest + b, true) else Parsed(p.frames + q.frames, q.rest, q.failed)
  }

  lemma PrependContinued(x: seq<byte>, p: Parsed, q: Parsed, b: seq<byte>)
    ensures Prepend(x, Continued(p, q, b)) == Continued(Prepend(x, p), q, b)
  {
  }

  /** Parsing a stream in two parts: the second part continues where the first one got stuck. */
  lemma {:induction false} FramesSplit(ms: Markers, a: seq<byte>, b: seq<byte>)
    ensures Frames(ms, a + b) == Continued(Frames(ms, a), Frames(ms, Frames(ms, a).rest + b), b)
    decreases |a|
  {
    var e := Scan(ms, a, 1);
    if e.Complete? {
      ScanPositive(ms, a);
      ScanExtends(ms, a, 1, b);
      var x, y := a[..e.len], a[e.len..];
      assert a == x + y && a + b == x + (y + b);
      FramesSplit(ms, y, b);
      FramesSplitStep(ms, x, y, b);
    } else {
      if e == Invalid { ScanExtends(ms, a, 1, b); }
      StuckFrames(ms, a, b);
    }
  }

  lemma StuckFrames(ms: Markers, a: seq<byte>, b: seq<byte>)
    requires Scan(ms, a, 1) == Incomplete || (Scan(ms, a, 1) == Invalid && Scan(ms, a + b, 1) == Invalid)
    ensures Frames(ms, a + b) == Continued(Frames(ms, a), Frames(ms, Frames(ms, a).rest + b), b)
  {
  }

  lemma FramesSplitStep(ms: Markers, x: seq<byte>, y: seq<byte>, b: seq<byte>)
    requires Scan(ms, x + y, 1) == Complete(|x|) && Scan(ms, x + (y + b), 1) == Complete(|x|)
    requires Frames(ms, y + b) == Continued(Frames(ms, y), Frames(ms, Frames(ms, y).rest + b), b)
    ensures Frames(ms, x + (y + b)) == Continued(Frames(ms, x + y), Frames(ms, Frames(ms, x + y).rest + b), b)
  {
    FramesStep(ms, x, y);
    FramesStep(ms, x, y + b);
    PrependContinued(x, Frames(ms, y), Frames(ms, Frames(ms, y).rest + b), b);
  }

  /** The frames and the leftover are exactly the bytes received; every frame is one object; and the
      leftover holds no complete object. */
  lemma {:induction false} FramesPartition(ms: Markers, s: seq<byte>)
    ensures Flatten(Frames(ms, s).frames) + Frames(ms, s).rest == s
    ensures forall f <- Frames(ms, s).frames :: Scan(ms, f, 1) == Complete(|f|)
    ensures Scan(ms, Frames(ms, s).rest, 1) == if Frames(ms, s).failed then Invalid else Incomplete
    decreases |s|
  {
    if Scan(ms, s, 1).Complete? {
      ScanPositive(ms, s);
      var k := Scan(ms, s, 1).len;
      var x, y := s[..k], s[k..];
      assert s == x + y;
      FramesPartition(ms, y);
      FramesStep(ms, x, y);
      FirstObject(ms, x, y, 1);
      FlattenCons(x, Frames(ms, y).frames, Frames(ms, y).rest);
    }
  }

  lemma FlattenCons(x: seq<byte>, items: seq<seq<byte>>, rest: seq<byte>)
    ensures Flatten([x] + items) + rest == x + (Flatten(items) + rest)
  {
  }

  lemma FirstHeader(ms: Markers, a: seq<byte>, b: seq<byte>, n: nat)
    requires n > 0 && Scan(ms, a + b, n) == Complete(|a|)
    ensures a != [] && ReadHeader(ms, a).Header? && 1 <= ReadHeader(ms, a).size <= |a|
    ensures var h := ReadHeader(ms, a); Scan(ms, a[h.size..] + b, n - 1 + h.children) == Complete(|a[h.size..]|)
  {
    var s := a + b;
    HeaderWithin(ms(s[0]), s);
    var h := ReadHeader(ms, s);
    assert s[h.size..] == a[h.size..] + b;
    HeaderShrinks(ms(s[0]), a, b);
  }

  /** An object on its own has the extent it has at the front of a longer buffer. */
  lemma {:induction false} FirstObject(ms: Markers, a: seq<byte>, b: seq<byte>, n: nat)
    requires Scan(ms, a + b, n) == Complete(|a|)
    ensures Scan(ms, a, n) == Complete(|a|)
    decreases |a|
  {
    if n > 0 {
      FirstHeader(ms, a, b, n);
      var h := ReadHeader(ms, a);
      FirstObject(ms, a[h.size..], b, n - 1 + h.children);
    }
  }

  lemma OneMore(frames: seq<seq<byte>>, frame: seq<byte>, rest: seq<seq<byte>>)
    ensures frames + ([frame] + rest) == (frames + [frame]) + rest
  {
  }

  /** The codec and its read buffer. */
  class MsgPackCodec {
    var buf: seq<byte>

    constructor ()
      ensures buf == []
    {
      buf := [];
    }

    /** `decode`: the next frame, nothing when more bytes are needed, or an error. */
    method Decode() returns (r: Result<Option<seq<byte>>, ()>)
      modifies this
      ensures Scan(MarkerOf, old(buf), 1).Complete? ==>
                r.Ok? && r.value.Some? && Scan(MarkerOf, r.value.value, 1) == Complete(|r.value.value|) &&
                  r.value.value + buf == old(buf)
      ensures Scan(MarkerOf, old(buf), 1) == Incomplete ==> r == Ok(None) && buf == old(buf)
      ensures Scan(MarkerOf, old(buf), 1) == Invalid ==> r == Err(()) && buf == old(buf)
    {
      ScanPositive(MarkerOf, buf);
      match Scan(MarkerOf, buf, 1)
      case Incomplete => r := Ok(None);
      case Invalid => r := Err(());
      case Complete(len) =>
        assert buf[..len] + buf[len..] == buf;
        FirstObject(MarkerOf, buf[..len], buf[len..], 1);
        r := Ok(Some(buf[..len]));
        buf := buf[len..];
    }

    /** The loop after one read: all complete objects are taken off the buffer. */
    method DecodeAll() returns (frames: seq<seq<byte>>, ok: bool)
      modifies this
      ensures frames == Frames(MarkerOf, old(buf)).frames && ok == !Frames(MarkerOf, old(buf)).failed
      ensures buf == Frames(MarkerOf, old(buf)).rest
    {
      frames := [];
      assert [] + Frames(MarkerOf, buf).frames == Frames(MarkerOf, buf).frames;
      while true
        invariant Frames(MarkerOf, old(buf)).frames == frames + Frames(MarkerOf, buf).frames
        invariant Frames(MarkerOf, old(buf)).rest == Frames(MarkerOf, buf).rest
        invariant Frames(MarkerOf, old(buf)).failed == Frames(MarkerOf, buf).failed
        decreases |buf|
      {
        ScanPositive(MarkerOf, buf);
        ghost var all := buf;
        var r := Decode();
        if r == Err(()) {
          return frames, false;
        }
        if r == Ok(None) {
          return frames, true;
        }
        DecodedFrame(MarkerOf, all, r.value.value, buf);
        OneMore(frames, r.value.value, Frames(MarkerOf, buf).frames);
        frames := frames + [r.value.value];
      }
    }

    /** The read arm of `start_msgpack_rpc` over successive reads: however the bytes were split, the
        dispatched frames are those of the whole stream, and a decoding error ends the loop. */
    method ReadAll(chunks: seq<seq<byte>>) returns (frames: seq<seq<byte>>, ok: bool)
      requires buf == []
      modifies this
      ensures frames == Frames(MarkerOf, Flatten(chunks)).frames
      ensures ok <==> !Frames(MarkerOf, Flatten(chunks)).failed
      ensures ok ==> buf == Frames(MarkerOf, Flatten(chunks)).rest
    {
      frames := [];
      assert Frames(MarkerOf, []) == Parsed([], [], false);
      for i := 0 to |chunks|
        invariant Frames(MarkerOf, Flatten(chunks[..i])) == Parsed(frames, buf, false)
      {
        ghost var before := Flatten(chunks[..i]);
        assert chunks[..i+1] == chunks[..i] + [chunks[i]] && chunks == chunks[..i+1] + chunks[i+1..];
        FlattenPush(chunks[..i], chunks[i]);
        FlattenAppend(chunks[..i+1], chunks[i+1..]);
        FramesSplit(MarkerOf, before, chunks[i]);
        buf := buf + chunks[i];
        var more;
        more, ok := DecodeAll();
        frames := frames + more;
        if !ok {
          FramesSplit(MarkerOf, before + chunks[i], Flatten(chunks[i+1..]));
          return;
        }
      }
      assert chunks[..|chunks|] == chunks;
      ok := true;
    }
  }

  lemma DecodedFrame(ms: Markers, all: seq<byte>, frame: seq<byte>, rest: seq<byte>)
    requires Scan(ms, frame, 1) == Complete(|frame|) && frame + rest == all
    ensures Frames(ms, all) == Frames(ms, rest).(frames := [frame] + Frames(ms, rest).frames)
    ensures |rest| < |all|
  {
    ScanExtends(ms, frame, 1, rest);
    ScanPositive(ms, frame);
    assert all[..|frame|] == frame && all[|frame|..] == rest;
  }
}
