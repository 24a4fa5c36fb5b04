/**
 * Length-prefixed frames: the encoder and buffer decoder of bridge/bridge_core/pipe_client.py, the header/body reader of
 * pipe.lua and the relay's `FrameTracer`. JSON is an abstract codec.
 */
module Framing {
  import opened Wrappers
  import opened Bytes

  const MAX_PAYLOAD := 4096

  /** A payload is no JSON, or the JSON null, which every reader takes for "no frame", or an object. */
  datatype Parsed<T> = Bad | Absent | Object(x: T)

  /** `enc` renders an object, `dec` parses a payload. */
  datatype Codec<!T> = Codec(enc: T -> seq<byte>, dec: seq<byte> -> Parsed<T>)

  ghost predicate Invertible<T(!new)>(k: Codec<T>) { forall x: T :: k.dec(k.enc(x)) == Object(x) }

  /** `encode_frame`: the frame, or the size that is too large. */
  function EncodeFrame<T>(k: Codec<T>, x: T): Result<seq<byte>, nat> {
    var payload := k.enc(x);
    if |payload| > MAX_PAYLOAD then Err(|payload|) else Ok(ToBE(|payload|, 4) + payload)
  }

  /** What the front of a buffer holds. */
  datatype Front<T> =
    | Incomplete | Oversized(size: nat) | Malformed(total: nat) | Null(total: nat) | Whole(x: T, total: nat)

  function Decode<T>(k: Codec<T>, buf: seq<byte>): (r: Front<T>)
    ensures r.Malformed? || r.Null? || r.Whole? ==> 4 <= r.total <= |buf|
  {
    if |buf| < 4 then Incomplete
    else
      var size := FromBE(buf[..4]);
      if size > MAX_PAYLOAD then Oversized(size)
      else if |buf| < 4 + size then Incomplete
      else match k.dec(buf[4..4 + size])
        case Object(x) => Whole(x, 4 + size)
        case Absent => Null(4 + size)
        case Bad => Malformed(4 + size)
  }

  /** Nothing more can be taken from the buffer by the Python decoder, which stops in front of a null and keeps it. */
  predicate Stuck<T>(f: Front<T>) { f.Incomplete? || f.Null? }

  /** The objects taken from the front of a buffer, what is left, and whether a bad frame stopped it. */
  datatype Decoded<T> = Decoded(objs: seq<T>, rest: seq<byte>, failed: bool)

  function DecodeAll<T>(k: Codec<T>, buf: seq<byte>): Decoded<T>
    decreases |buf|
  {
    match Decode(k, buf)
    case Incomplete => Decoded([], buf, false)
    case Null(_) => Decoded([], buf, false)
    case Oversized(_) => Decoded([], buf, true)
    case Malformed(_) => Decoded([], buf, true)
    case Whole(x, total) => var d := DecodeAll(k, buf[total..]); d.(objs := [x] + d.objs)
  }

  // ----------------------------------------------------------------- headers

  /** What a header decides: a size above 4096 fails at once, before any of its payload; any other waits for it. */
  lemma HeaderDecides<T>(k: Codec<T>, size: nat, rest: seq<byte>)
    requires size < 0x1_0000_0000
    ensures var f := Decode(k, ToBE(size, 4) + rest);
      && (size > 4096 <==> f.Oversized?) && (f.Oversized? ==> f.size == size && DecodeAll(k, ToBE(size, 4) + rest).failed)
      && (f.Incomplete? <==> size <= 4096 && |rest| < size)
  {
    hide ToBE, FromBE;
    Pow256Values();
    FromToBE(size, 4);
    assert (ToBE(size, 4) + rest)[..4] == ToBE(size, 4);
  }

  /** A payload of up to 4096 bytes is framed, and no other; the frame is taken back whole. */
  lemma FramedIff<T(!new)>(k: Codec<T>, x: T)
    requires Invertible(k)
    ensures EncodeFrame(k, x).Ok? <==> |k.enc(x)| <= 4096
    ensures EncodeFrame(k, x).Ok? ==> Decode(k, EncodeFrame(k, x).value) == Whole(x, 4 + |k.enc(x)|)
  {
    hide Decode;
    if EncodeFrame(k, x).Ok? {
      var frame := EncodeFrame(k, x).value;
      assert frame + [] == frame;
      DecodeEncoded(k, x, []);
    }
  }

  /** A JSON null stops the decoder for good: nothing behind it is ever taken, and it is no failure either. */
  lemma NullStalls<T>(k: Codec<T>, payload: seq<byte>, rest: seq<byte>)
    requires |payload| <= 4096 && k.dec(payload).Absent?
    ensures var buf := ToBE(|payload|, 4) + payload + rest; DecodeAll(k, buf) == Decoded([], buf, false)
  {
    hide ToBE, FromBE;
    Pow256Values();
    FromToBE(|payload|, 4);
    var buf := ToBE(|payload|, 4) + payload + rest;
    assert buf[..4] == ToBE(|payload|, 4) && buf[4..4 + |payload|] == payload;
  }

  // ----------------------------------------------------------- segmentation

  /** More bytes behind it do not change what the front of a buffer holds, once that is decided. */
  lemma DecodeMore<T>(k: Codec<T>, buf: seq<byte>, more: seq<byte>)
    requires !Decode(k, buf).Incomplete?
    ensures Decode(k, buf + more) == Decode(k, buf)
  {
    assert (buf + more)[..4] == buf[..4];
    var size := FromBE(buf[..4]);
    if size <= MAX_PAYLOAD {
      assert (buf + more)[4..4 + size] == buf[4..4 + size];
    }
  }

  lemma DecodeStep<T>(k: Codec<T>, buf: seq<byte>)
    ensures var f := Decode(k, buf);
      && (!f.Whole? ==> DecodeAll(k, buf) == Decoded([], buf, !Stuck(f)))
      && (f.Whole? ==>
            var d := DecodeAll(k, buf[f.total..]);
            DecodeAll(k, buf) == Decoded([f.x] + d.objs, d.rest, d.failed))
  {
  }

  /** `e` after `d`, as one decoding. */
  function Then<T>(d: Decoded<T>, e: Decoded<T>): Decoded<T> { e.(objs := d.objs + e.objs) }

  lemma ThenAfter<T>(x: T, d: Decoded<T>, e: Decoded<T>)
    ensures Then(Decoded([x] + d.objs, d.rest, d.failed), e) == Decoded([x] + Then(d, e).objs, e.rest, e.failed)
  {
    assert [x] + (d.objs + e.objs) == ([x] + d.objs) + e.objs;
  }

  lemma ThenRest<T>(d: Decoded<T>, e: Decoded<T>)
    ensures Then(d, e).rest == e.rest && Then(d, e).failed == e.failed
  {
  }

  /** Decoding a buffer and then more bytes is decoding them together. */
  lemma {:induction false} DecodeSplit<T>(k: Codec<T>, buf: seq<byte>, more: seq<byte>)
    ensures var d := DecodeAll(k, buf);
      DecodeAll(k, buf + more) == if d.failed then d.(rest := d.rest + more) else Then(d, DecodeAll(k, d.rest + more))
    decreases |buf|
  {
    hide DecodeAll, Decode, Then;
    DecodeStep(k, buf);
    match Decode(k, buf)
    case Incomplete => ThenFirst(k, buf, more);
    case Null(_) => ThenFirst(k, buf, more);
    case Oversized(_) =>
      DecodeMore(k, buf, more);
      DecodeStep(k, buf + more);
    case Malformed(_) =>
      DecodeMore(k, buf, more);
      DecodeStep(k, buf + more);
    case Whole(x, total) =>
      DecodeMore(k, buf, more);
      DecodeStep(k, buf + more);
      var tail := buf[total..];
      assert (buf + more)[total..] == tail + more;
      DecodeSplit(k, tail, more);
      var d := DecodeAll(k, tail);
      ThenAfter(x, d, DecodeAll(k, d.rest + more));
      ThenRest(d, DecodeAll(k, d.rest + more));
  }

  lemma ThenFirst<T>(k: Codec<T>, buf: seq<byte>, more: seq<byte>)
    ensures Then(Decoded([], buf, false), DecodeAll(k, buf + more)) == DecodeAll(k, buf + more)
  {
    assert [] + DecodeAll(k, buf + more).objs == DecodeAll(k, buf + more).objs;
  }

  lemma ThenNone<T>(d: Decoded<T>)
    ensures Then(Decoded([], [], false), d) == d
  {
    assert [] + d.objs == d.objs;
  }

  lemma ThenEnd<T>(objs: seq<T>, rest: seq<byte>, failed: bool)
    ensures Then(Decoded(objs, [], false), Decoded([], rest, failed)) == Decoded(objs, rest, failed)
  {
    assert objs + [] == objs;
  }

  lemma ThenSnoc<T>(objs: seq<T>, x: T, d: Decoded<T>)
    ensures Then(Decoded(objs, [], false), Decoded([x] + d.objs, d.rest, d.failed)) == Then(Decoded(objs + [x], [], false), d)
  {
    assert objs + ([x] + d.objs) == objs + [x] + d.objs;
  }

  lemma ThenThen<T>(objs: seq<T>, d: Decoded<T>, e: Decoded<T>)
    ensures Then(Decoded(objs, [], false), Then(d, e)) == Then(Decoded(objs + d.objs, [], false), e)
  {
    assert objs + (d.objs + e.objs) == objs + d.objs + e.objs;
  }

  /** Nothing is left undecided by decoding: what is retained is an unfinished front, a null, or the frame that failed. */
  lemma {:induction false} DecodeRest<T>(k: Codec<T>, buf: seq<byte>)
    ensures var d := DecodeAll(k, buf);
      if d.failed then Decode(k, d.rest).Oversized? || Decode(k, d.rest).Malformed? else Stuck(Decode(k, d.rest))
    decreases |buf|
  {
    hide Decode;
    match Decode(k, buf)
    case Whole(_, total) => DecodeRest(k, buf[total..]);
    case _ =>
  }

  /** A decoder that is fed chunk by chunk and stops at the first bad frame. */
  function FeedAll<T>(k: Codec<T>, d: Decoded<T>, chunks: seq<seq<byte>>): Decoded<T>
    decreases |chunks|
  {
    if chunks == [] then d
    else if d.failed then FeedAll(k, d.(rest := d.rest + chunks[0]), chunks[1..])
    else FeedAll(k, Then(d, DecodeAll(k, d.rest + chunks[0])), chunks[1..])
  }

  lemma {:induction false} FeedsAreOne<T>(k: Codec<T>, buf: seq<byte>, chunks: seq<seq<byte>>)
    ensures FeedAll(k, DecodeAll(k, buf), chunks) == DecodeAll(k, buf + Concat(chunks))
    decreases |chunks|
  {
    hide DecodeAll;
    if chunks == [] {
      assert buf + [] == buf;
    } else {
      DecodeSplit(k, buf, chunks[0]);
      FeedsAreOne(k, buf + chunks[0], chunks[1..]);
      assert buf + chunks[0] + Concat(chunks[1..]) == buf + (chunks[0] + Concat(chunks[1..]));
    }
  }

  /** Segmentation does not matter: any chunks of a byte stream give what the whole stream gives, good frames or bad. */
  lemma AnySegmentation<T>(k: Codec<T>, chunks: seq<seq<byte>>)
    ensures FeedAll(k, Decoded([], [], false), chunks) == DecodeAll(k, Concat(chunks))
  {
    hide Decode;
    assert Decode(k, []).Incomplete? by { EmptyIncomplete(k); }
    FeedsAreOne(k, [], chunks);
    assert [] + Concat(chunks) == Concat(chunks);
  }

  lemma EmptyIncomplete<T>(k: Codec<T>)
    ensures Decode(k, []).Incomplete?
  {
  }

  // ------------------------------------------------------------- round trip

  function EncodeAll<T>(k: Codec<T>, xs: seq<T>): seq<byte>
    requires forall x :: x in xs ==> EncodeFrame(k, x).Ok?
  {
    if xs == [] then [] else EncodeFrame(k, xs[0]).value + EncodeAll(k, xs[1..])
  }

  lemma DecodeEncoded<T(!new)>(k: Codec<T>, x: T, more: seq<byte>)
    requires Invertible(k) && EncodeFrame(k, x).Ok?
    ensures Decode(k, EncodeFrame(k, x).value + more) == Whole(x, |EncodeFrame(k, x).value|)
  {
    var payload := k.enc(x);
    var buf := EncodeFrame(k, x).value + more;
    Pow256Values();
    FromToBE(|payload|, 4);
    assert buf[..4] == ToBE(|payload|, 4);
    assert buf[4..4 + |payload|] == payload;
  }

  /** Encoded frames, followed by an unfinished one, decode to exactly the objects, and the unfinished bytes are kept. */
  lemma {:induction false} RoundTrip<T(!new)>(k: Codec<T>, xs: seq<T>, more: seq<byte>)
    requires Invertible(k) && (forall x :: x in xs ==> EncodeFrame(k, x).Ok?) && Decode(k, more).Incomplete?
    ensures DecodeAll(k, EncodeAll(k, xs) + more) == Decoded(xs, more, false)
    decreases |xs|
  {
    hide Decode, EncodeFrame;
    if xs == [] {
      assert [] + more == more;
    } else {
      var frame, tail := EncodeFrame(k, xs[0]).value, EncodeAll(k, xs[1..]) + more;
      assert xs[0] in xs;
      DecodeEncoded(k, xs[0], tail);
      assert EncodeAll(k, xs) + more == frame + tail;
      assert (frame + tail)[|frame|..] == tail;
      RoundTrip(k, xs[1..], more);
    }
  }

  /** Any segmentation of encoded frames, cut anywhere, gives back exactly the frames that are complete. */
  lemma SegmentedRoundTrip<T(!new)>(k: Codec<T>, xs: seq<T>, more: seq<byte>, chunks: seq<seq<byte>>)
    requires Invertible(k) && (forall x :: x in xs ==> EncodeFrame(k, x).Ok?) && Decode(k, more).Incomplete?
    requires Concat(chunks) == EncodeAll(k, xs) + more
    ensures FeedAll(k, Decoded([], [], false), chunks) == Decoded(xs, more, false)
  {
    AnySegmentation(k, chunks);
    RoundTrip(k, xs, more);
  }

  // ----------------------------------------------------- the Python decoder

  /** The frame loop of `PipeClient.tick`, for a handler that never fails. */
  method PumpBuffer<T>(k: Codec<T>, rxBuf: seq<byte>, chunk: seq<byte>) returns (objs: seq<T>, rest: seq<byte>, failed: bool)
    ensures Decoded(objs, rest, failed) == DecodeAll(k, rxBuf + chunk)
  {
    hide Decode, DecodeAll, Then;
    objs, rest, failed := [], rxBuf + chunk, false;
    ThenNone(DecodeAll(k, rest));
    while true
      invariant DecodeAll(k, rxBuf + chunk) == Then(Decoded(objs, [], false), DecodeAll(k, rest))
      decreases |rest|
    {
      DecodeStep(k, rest);
      match Decode(k, rest)
      case Incomplete =>
        ThenEnd(objs, rest, false);
        return;
      case Null(_) =>
        ThenEnd(objs, rest, false);
        return;
      case Oversized(_) =>
        ThenEnd(objs, rest, true);
        return objs, rest, true;
      case Malformed(_) =>
        ThenEnd(objs, rest, true);
        return objs, rest, true;
      case Whole(x, total) =>
        ThenSnoc(objs, x, DecodeAll(k, rest[total..]));
        rest := rest[total..];
        objs := objs + [x];
    }
  }
}
