/** The other two incremental decoders: the header/body reader of pipe.lua, and the relay's `FrameTracer`. */
module Readers {
  import opened Wrappers
  import opened Bytes
  import opened Framing

  // ------------------------------------------------------------ Lua numbers

  /** `Frame.encode_uint32_be`. */
  function LuaEncode(n: nat): seq<byte> {
    [n / 16777216 % 256, n / 65536 % 256, n / 256 % 256, n % 256]
  }

  /** `Frame.decode_uint32_be`. */
  function LuaDecode(s: seq<byte>): nat
    requires |s| == 4
  {
    s[0] as int * 16777216 + s[1] as int * 65536 + s[2] as int * 256 + s[3]
  }

  lemma LuaDecodes(s: seq<byte>)
    requires |s| == 4
    ensures LuaDecode(s) == FromBE(s)
  {
    assert s[..3][..2] == s[..2] && s[..2][..1] == s[..1] && s[..1][..0] == [];
    assert FromBE(s[..1]) == s[0];
    assert FromBE(s[..2]) == s[0] as int * 256 + s[1];
    assert FromBE(s[..3]) == (s[0] as int * 256 + s[1]) * 256 + s[2];
  }

  lemma Quotients(n: nat)
    ensures n / 65536 == n / 256 / 256 && n / 16777216 == n / 256 / 256 / 256
  {
  }

  lemma LuaEncodes(n: nat)
    ensures LuaEncode(n) == ToBE(n, 4)
  {
    Quotients(n);
    var a, b, c := n / 256, n / 256 / 256, n / 256 / 256 / 256;
    assert ToBE(c, 1) == [c % 256];
    assert ToBE(b, 2) == [c % 256, b % 256];
    assert ToBE(a, 3) == [c % 256, b % 256, a % 256];
  }

  /** Both sides write the same header, and each reads the other's. */
  lemma LuaHeader(n: nat)
    requires n < 0x1_0000_0000
    ensures LuaEncode(n) == ToBE(n, 4) && LuaDecode(LuaEncode(n)) == n
  {
    hide LuaEncode, LuaDecode, ToBE, FromBE;
    Pow256Values();
    FromToBE(n, 4);
    LuaEncodes(n);
    LuaDecodes(ToBE(n, 4));
  }

  // ------------------------------------------------------------- Lua reader

  /** A non-blocking socket: what has arrived and was not read. */
  class Socket {
    var incoming: seq<byte>

    constructor ()
      ensures incoming == []
    {
      incoming := [];
    }

    /** `receive(n)`: all `n` bytes, or what there is of them. */
    method Receive(n: nat) returns (whole: bool, data: seq<byte>)
      modifies this
      ensures whole == (n <= |old(incoming)|)
      ensures data == (if whole then old(incoming)[..n] else old(incoming))
      ensures data + incoming == old(incoming) && (!whole ==> incoming == [])
    {
      whole := n <= |incoming|;
      data := if whole then incoming[..n] else incoming;
      incoming := incoming[|data|..];
    }
  }

  datatype Ticked<T> = Nothing | Got(x: T) | Error

  /** One pump of the script: a null ends it as an unfinished frame does, but is taken off the stream. */
  function LuaPump<T>(k: Codec<T>, buf: seq<byte>): Decoded<T>
    decreases |buf|
  {
    match Decode(k, buf)
    case Incomplete => Decoded([], buf, false)
    case Null(total) => Decoded([], buf[total..], false)
    case Oversized(_) => Decoded([], buf, true)
    case Malformed(_) => Decoded([], buf, true)
    case Whole(x, total) => var d := LuaPump(k, buf[total..]); d.(objs := [x] + d.objs)
  }

  lemma LuaStep<T>(k: Codec<T>, buf: seq<byte>)
    ensures var f := Decode(k, buf);
      && (!f.Whole? ==> LuaPump(k, buf) == Decoded([], if f.Null? then buf[f.total..] else buf, !Stuck(f)))
      && (f.Whole? ==>
            var d := LuaPump(k, buf[f.total..]);
            LuaPump(k, buf) == Decoded([f.x] + d.objs, d.rest, d.failed))
  {
  }

  /** The script and the bridge take the same objects, and keep the same bytes exactly if no null stops them. */
  lemma {:induction false} PumpsAgreeIff<T>(k: Codec<T>, buf: seq<byte>)
    ensures var d, l := DecodeAll(k, buf), LuaPump(k, buf);
      && l.objs == d.objs && l.failed == d.failed
      && (l.rest == d.rest <==> !Decode(k, d.rest).Null?)
    decreases |buf|
  {
    hide Decode, DecodeAll, LuaPump;
    DecodeStep(k, buf);
    LuaStep(k, buf);
    match Decode(k, buf)
    case Whole(_, total) => PumpsAgreeIff(k, buf[total..]);
    case _ =>
  }

  /** A null that stops the decoder stops it for good. */
  lemma StaysStuck<T>(k: Codec<T>, buf: seq<byte>, more: seq<byte>)
    requires !DecodeAll(k, buf).failed && Decode(k, DecodeAll(k, buf).rest).Null?
    ensures !DecodeAll(k, buf + more).failed && Decode(k, DecodeAll(k, buf + more).rest).Null?
  {
    hide Decode, DecodeAll;
    var d := DecodeAll(k, buf);
    DecodeSplit(k, buf, more);
    DecodeMore(k, d.rest, more);
    DecodeStep(k, d.rest + more);
  }

  class Reader<T> {
    const sock: Socket
    const codec: Codec<T>
    var inBody: bool
    var buf: seq<byte>
    var bodyLen: nat

    ghost predicate Valid()
      reads this
    {
      if inBody then bodyLen <= MAX_PAYLOAD && |buf| < bodyLen else |buf| < 4
    }

    /** What was read and not yet returned. */
    ghost function Pending(): seq<byte>
      reads this
    {
      if inBody then ToBE(bodyLen, 4) + buf else buf
    }

    ghost function Stream(): seq<byte>
      reads this, sock
    {
      Pending() + sock.incoming
    }

    constructor (sock: Socket, codec: Codec<T>)
      ensures this.sock == sock && this.codec == codec && Valid() && Pending() == []
    {
      this.sock, this.codec := sock, codec;
      inBody, buf, bodyLen := false, [], 0;
    }

    /** The header part of `tick`. */
    method TickHeader() returns (more: bool, failed: bool)
      requires Valid() && !inBody
      modifies this, sock
      ensures Stream() == old(Stream())
      ensures !more && !failed ==> Valid() && sock.incoming == [] && |Stream()| < 4
      ensures failed ==> !more && |Stream()| >= 4 && FromBE(Stream()[..4]) > MAX_PAYLOAD
      ensures more ==> inBody && buf == [] && bodyLen <= MAX_PAYLOAD && |Stream()| >= 4 && FromBE(Stream()[..4]) == bodyLen
    {
      var whole, data := sock.Receive(4 - |buf|);
      assert buf + data + sock.incoming == buf + (data + sock.incoming);
      buf := buf + data;
      if !whole {
        return false, false;
      }
      LuaDecodes(buf);
      ToFromBE(buf);
      assert Stream()[..4] == buf;
      bodyLen := LuaDecode(buf);
      if bodyLen > MAX_PAYLOAD {
        return false, true;
      }
      ghost var header := buf;
      buf := [];
      inBody := true;
      assert Pending() == header + [];
      return true, false;
    }

    /** The body part of `tick`. */
    method TickBody() returns (done: bool, payload: seq<byte>)
      requires inBody && bodyLen <= MAX_PAYLOAD && (|buf| < bodyLen || buf == [])
      modifies this, sock
      ensures !done ==> Valid() && inBody && Stream() == old(Stream()) && sock.incoming == [] && |Stream()| < 4 + bodyLen
      ensures bodyLen == old(bodyLen)
      ensures done ==> !inBody && buf == [] && |payload| == bodyLen && ToBE(bodyLen, 4) + payload + sock.incoming == old(Stream())
    {
      var need := bodyLen - |buf|;
      if need > 0 {
        var whole, data := sock.Receive(need);
        assert ToBE(bodyLen, 4) + (buf + data) + sock.incoming == ToBE(bodyLen, 4) + buf + (data + sock.incoming);
        buf := buf + data;
        if !whole {
          return false, [];
        }
      }
      payload := buf;
      buf := [];
      inBody := false;
      done := true;
    }

    /** `tick`: at most one object, taken from the front of the stream as the buffer decoder takes it. */
    method Tick() returns (r: Ticked<T>)
      requires Valid()
      modifies this, sock
      ensures var f := Decode(codec, old(Stream()));
        match f
        case Incomplete => r == Nothing && Valid() && Stream() == old(Stream()) && sock.incoming == []
        case Oversized(_) => r == Error
        case Malformed(_) => r == Error
        case Null(total) => r == Nothing && Valid() && Pending() == [] && sock.incoming == old(Stream())[total..]
        case Whole(x, total) => r == Got(x) && Valid() && Pending() == [] && sock.incoming == old(Stream())[total..]
    {
      ghost var all := Stream();
      if !inBody {
        var more, failed := TickHeader();
        if failed {
          return Error;
        }
        if !more {
          return Nothing;
        }
      } else {
        Pow256Values();
        FromToBE(bodyLen, 4);
        assert all[..4] == ToBE(bodyLen, 4);
      }
      ghost var size := bodyLen;
      assert FromBE(all[..4]) == size;
      var done, payload := TickBody();
      if !done {
        return Nothing;
      }
      assert all[4..4 + size] == payload && all[4 + size..] == sock.incoming;
      match codec.dec(payload)
      case Bad => return Error;
      case Absent => return Nothing;
      case Object(x) => return Got(x);
    }

    /** `_pumpFrames`, for a handler that never fails: it decodes the stream, up to a null, which it drops. */
    method PumpFrames() returns (objs: seq<T>, failed: bool)
      requires Valid()
      modifies this, sock
      ensures var d := LuaPump(codec, old(Stream()));
        objs == d.objs && failed == d.failed && (!failed ==> Valid() && Stream() == d.rest)
    {
      hide Decode, LuaPump, Then, Reader.Pending;
      objs := [];
      ThenNone(LuaPump(codec, Stream()));
      while true
        invariant Valid() && LuaPump(codec, old(Stream())) == Then(Decoded(objs, [], false), LuaPump(codec, Stream()))
        decreases |Stream()|
      {
        ghost var before := Stream();
        LuaStep(codec, before);
        var r := Tick();
        match r
        case Nothing =>
          assert [] + sock.incoming == sock.incoming;
          ThenEnd(objs, Stream(), false);
          return objs, false;
        case Error =>
          ThenEnd(objs, before, true);
          return objs, true;
        case Got(x) =>
          assert [] + sock.incoming == sock.incoming;
          ThenSnoc(objs, x, LuaPump(codec, Stream()));
          objs := objs + [x];
      }
    }

    /** Call after call of `_pumpFrames`, each on what has arrived since, until one fails: where the stream is cut is all one. */
    method PumpArrivals(arrivals: seq<seq<byte>>) returns (objs: seq<T>, failed: bool)
      requires Valid() && Decode(codec, Stream()).Incomplete?
      modifies this, sock
      ensures var d := DecodeAll(codec, old(Stream()) + Concat(arrivals));
        !Decode(codec, d.rest).Null? ==>
          objs == d.objs && failed == d.failed && (!failed ==> Valid() && Stream() == d.rest)
    {
      hide Decode, DecodeAll, Reader.Pending;
      objs, failed := [], false;
      ghost var all := DecodeAll(codec, Stream() + Concat(arrivals));
      ThenNone(all);
      for i := 0 to |arrivals|
        invariant !failed && Valid()
        invariant !Decode(codec, all.rest).Null? ==> Decode(codec, Stream()).Incomplete?
        invariant !Decode(codec, all.rest).Null? ==>
          all == Then(Decoded(objs, [], false), DecodeAll(codec, Stream() + Concat(arrivals[i..])))
      {
        ghost var later := Concat(arrivals[i + 1..]);
        assert Stream() + Concat(arrivals[i..]) == Pending() + (sock.incoming + arrivals[i]) + later;
        sock.incoming := sock.incoming + arrivals[i];
        ghost var d := DecodeAll(codec, Stream());
        DecodeSplit(codec, Stream(), later);
        DecodeRest(codec, Stream());
        PumpsAgreeIff(codec, Stream());
        if !d.failed && Decode(codec, d.rest).Null? {
          StaysStuck(codec, Stream(), later);
          assert Decode(codec, all.rest).Null?;
        }
        var more, bad := PumpFrames();
        if bad {
          return objs + more, true;
        }
        assert !Decode(codec, all.rest).Null? ==> Stream() == d.rest;
        ThenThen(objs, d, DecodeAll(codec, d.rest + later));
        objs := objs + more;
      }
      DecodeStep(codec, Stream());
      assert Stream() + Concat(arrivals[|arrivals|..]) == Stream();
      ThenEnd(objs, Stream(), false);
    }
  }

  // ----------------------------------------------------------------- tracer

  /** A line of the relay's wire trace. */
  datatype Line<T> = Logged(x: T) | NoObject | BadJson | TooLarge

  /** What the tracer logs of a buffer, and what it keeps: nothing, after a frame that is too large. */
  function TraceAll<T>(k: Codec<T>, buf: seq<byte>): (seq<Line<T>>, seq<byte>)
    decreases |buf|
  {
    match Decode(k, buf)
    case Incomplete => ([], buf)
    case Oversized(_) => ([TooLarge], [])
    case Malformed(total) => var t := TraceAll(k, buf[total..]); ([BadJson] + t.0, t.1)
    case Null(total) => var t := TraceAll(k, buf[total..]); ([NoObject] + t.0, t.1)
    case Whole(x, total) => var t := TraceAll(k, buf[total..]); ([Logged(x)] + t.0, t.1)
  }

  class FrameTracer<T> {
    const codec: Codec<T>
    var buffer: seq<byte>
    var frameCount: nat

    constructor (codec: Codec<T>)
      ensures this.codec == codec && buffer == [] && frameCount == 0
    {
      this.codec, buffer, frameCount := codec, [], 0;
    }

    method Feed(data: seq<byte>) returns (lines: seq<Line<T>>)
      modifies this
      ensures (lines, buffer) == TraceAll(codec, old(buffer) + data)
      ensures frameCount == old(frameCount) + |lines| - if TooLarge in lines then 1 else 0
    {
      hide Decode, TraceAll;
      buffer := buffer + data;
      lines := [];
      ghost var all := TraceAll(codec, buffer);
      assert [] + all.0 == all.0;
      while true
        invariant all == (lines + TraceAll(codec, buffer).0, TraceAll(codec, buffer).1)
        invariant frameCount == old(frameCount) + |lines| && TooLarge !in lines
        decreases |buffer|
      {
        ghost var tail := TraceAll(codec, buffer).0;
        TraceStep(codec, buffer);
        match Decode(codec, buffer)
        case Incomplete =>
          assert lines + [] == lines;
          return;
        case Oversized(_) =>
          lines := lines + [TooLarge];
          buffer := [];
          return;
        case Malformed(total) =>
          assert lines + tail == lines + [BadJson] + tail[1..];
          buffer := buffer[total..];
          frameCount := frameCount + 1;
          lines := lines + [BadJson];
        case Null(total) =>
          assert lines + tail == lines + [NoObject] + tail[1..];
          buffer := buffer[total..];
          frameCount := frameCount + 1;
          lines := lines + [NoObject];
        case Whole(x, total) =>
          assert lines + tail == lines + [Logged(x)] + tail[1..];
          buffer := buffer[total..];
          frameCount := frameCount + 1;
          lines := lines + [Logged(x)];
      }
    }
  }

  function Lines<T>(objs: seq<T>): seq<Line<T>> { seq(|objs|, i requires 0 <= i < |objs| => Logged(objs[i])) }

  /** Where the Python decoder neither fails nor gets stuck at a null, the tracer logs the same objects and keeps the same bytes. */
  lemma {:induction false} TraceAgrees<T>(k: Codec<T>, buf: seq<byte>)
    requires !DecodeAll(k, buf).failed && !Decode(k, DecodeAll(k, buf).rest).Null?
    ensures TraceAll(k, buf) == (Lines(DecodeAll(k, buf).objs), DecodeAll(k, buf).rest)
    decreases |buf|
  {
    hide Decode;
    match Decode(k, buf)
    case Incomplete => assert Lines<T>([]) == [];
    case Whole(x, total) =>
      TraceAgrees(k, buf[total..]);
      var objs := DecodeAll(k, buf[total..]).objs;
      assert Lines([x] + objs) == [Logged(x)] + Lines(objs);
  }

  lemma TraceStep<T>(k: Codec<T>, buf: seq<byte>)
    ensures var f := Decode(k, buf);
      && (f.Incomplete? ==> TraceAll(k, buf) == ([], buf))
      && (f.Oversized? ==> TraceAll(k, buf) == ([TooLarge], []))
      && (f.Null? ==> TraceAll(k, buf) == ([NoObject] + TraceAll(k, buf[f.total..]).0, TraceAll(k, buf[f.total..]).1))
      && (f.Malformed? ==> TraceAll(k, buf) == ([BadJson] + TraceAll(k, buf[f.total..]).0, TraceAll(k, buf[f.total..]).1))
      && (f.Whole? ==> TraceAll(k, buf) == ([Logged(f.x)] + TraceAll(k, buf[f.total..]).0, TraceAll(k, buf[f.total..]).1))
  {
  }

  /** Bytes that have all been logged away leave nothing; others leave a line or are kept. */
  lemma TraceLeaves<T>(k: Codec<T>, buf: seq<byte>)
    ensures TraceAll(k, buf) == ([], []) <==> buf == []
  {
    hide Decode;
    EmptyIncomplete(k);
  }

  /**
   * The tracer, fed in two pieces, does what it does on both together exactly if the first piece has no oversized
   * frame, or the second piece is empty. It goes on after malformed JSON, where the clients fail.
   */
  lemma {:induction false} TraceSplitIff<T>(k: Codec<T>, buf: seq<byte>, more: seq<byte>)
    ensures var (first, rest) := TraceAll(k, buf);
      var (next, left) := TraceAll(k, rest + more);
      TraceAll(k, buf + more) == (first + next, left) <==> TooLarge !in first || more == []
    decreases |buf|
  {
    hide Decode, TraceAll;
    TraceStep(k, buf);
    match Decode(k, buf)
    case Incomplete => assert [] + TraceAll(k, buf + more).0 == TraceAll(k, buf + more).0;
    case Oversized(_) =>
      DecodeMore(k, buf, more);
      TraceStep(k, buf + more);
      TraceLeaves(k, more);
      assert [] + more == more;
      var next: seq<Line<T>> := TraceAll(k, more).0;
      assert |[TooLarge] + next| == 1 + |next|;
      assert next == [] ==> [TooLarge] + next == [TooLarge];
    case Malformed(total) => TraceSplitTail(k, buf, more, BadJson, total);
    case Null(total) => TraceSplitTail(k, buf, more, NoObject, total);
    case Whole(x, total) => TraceSplitTail(k, buf, more, Logged(x), total);
  }

  lemma {:induction false} TraceSplitTail<T>(k: Codec<T>, buf: seq<byte>, more: seq<byte>, line: Line<T>, total: nat)
    requires line != TooLarge && 4 <= total <= |buf|
    requires Decode(k, buf) ==
             (if line.BadJson? then Malformed(total) else if line.NoObject? then Null(total) else Whole(line.x, total))
    ensures var (first, rest) := TraceAll(k, buf);
      var (next, left) := TraceAll(k, rest + more);
      TraceAll(k, buf + more) == (first + next, left) <==> TooLarge !in first || more == []
    decreases |buf|, 0
  {
    hide Decode, TraceAll;
    TraceStep(k, buf);
    DecodeMore(k, buf, more);
    TraceStep(k, buf + more);
    var tail := buf[total..];
    assert (buf + more)[total..] == tail + more;
    TraceSplitIff(k, tail, more);
    var (first, rest) := TraceAll(k, tail);
    var (next, left) := TraceAll(k, rest + more);
    assert [line] + first + next == [line] + (first + next);
    var both := TraceAll(k, tail + more).0;
    if [line] + both == [line] + (first + next) {
      assert both == ([line] + both)[1..] == ([line] + (first + next))[1..] == first + next;
    }
  }

  function TraceFeeds<T>(k: Codec<T>, buf: seq<byte>, chunks: seq<seq<byte>>): (seq<Line<T>>, seq<byte>)
    decreases |chunks|
  {
    if chunks == [] then ([], buf)
    else
      var (lines, rest) := TraceAll(k, buf + chunks[0]);
      var (more, left) := TraceFeeds(k, rest, chunks[1..]);
      (lines + more, left)
  }

  /** The tracer is segmentation independent, and agrees with both clients, on every stream without a bad frame or a null. */
  lemma {:induction false} TracerFollows<T>(k: Codec<T>, buf: seq<byte>, chunks: seq<seq<byte>>)
    requires Decode(k, buf).Incomplete? && !DecodeAll(k, buf + Concat(chunks)).failed
    requires !Decode(k, DecodeAll(k, buf + Concat(chunks)).rest).Null?
    ensures TraceFeeds(k, buf, chunks) ==
            (Lines(DecodeAll(k, buf + Concat(chunks)).objs), DecodeAll(k, buf + Concat(chunks)).rest)
    decreases |chunks|
  {
    hide Decode, DecodeAll, TraceAll;
    if chunks == [] {
      assert buf + [] == buf;
      DecodeStep(k, buf);
    } else {
      var here := buf + chunks[0];
      assert here + Concat(chunks[1..]) == buf + Concat(chunks);
      DecodeSplit(k, here, Concat(chunks[1..]));
      var d := DecodeAll(k, here);
      if Decode(k, d.rest).Null? {
        StaysStuck(k, here, Concat(chunks[1..]));
      }
      TraceAgrees(k, here);
      DecodeRest(k, here);
      TracerFollows(k, d.rest, chunks[1..]);
      var e := DecodeAll(k, d.rest + Concat(chunks[1..]));
      assert Lines(d.objs + e.objs) == Lines(d.objs) + Lines(e.objs);
    }
  }
}
