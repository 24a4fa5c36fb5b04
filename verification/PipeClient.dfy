/** The protocol state of bridge/bridge_core/pipe_client.py: what each frame does to it, and the class that reads bytes. */
module PipeClients {
  import opened Wrappers
  import opened Bytes
  import opened Framing

  type Body = int

  datatype Frame =
    | Join(code: string, peerId: string) | Joined | Hello(v: int) | Data(body: Body)
    | Ping | Pong | Abort(reason: string) | PartnerReconnected(peerId: string)

  datatype State = Init | JoinSent | JoinedState | HelloSent | Established | Failed | Reconnecting | Closed

  datatype Client = Client(
    version: int, reconnect: bool, state: State, helloSent: bool, helloReceived: bool, joined: bool, attempts: nat)

  function NewClient(version: int, reconnect: bool): Client { Client(version, reconnect, Init, false, false, false, 0) }

  /** What a frame brings about: the new state, the frames sent, the data handed up, how many resyncs are asked for. */
  datatype Effect = Effect(c: Client, out: seq<Frame>, data: seq<Body>, resyncs: nat)

  function Quiet(c: Client): Effect { Effect(c, [], [], 0) }

  /** `_fail`. */
  function Failing(c: Client): Client {
    if c.state in {Failed, Closed, Reconnecting} then c
    else if c.reconnect then c.(state := Reconnecting, attempts := c.attempts + 1)
    else c.(state := Failed)
  }

  /** `_send_frame`, on a socket that takes the bytes or does not. */
  function Sending(c: Client, f: Frame, canSend: bool): Effect {
    if canSend then Effect(c, [f], [], 0) else Quiet(Failing(c))
  }

  function Greeting(c: Client, canSend: bool): Effect {
    if c.helloSent then Quiet(c) else Sending(c.(helloSent := true, state := HelloSent), Hello(c.version), canSend)
  }

  function Offering(c: Client, body: Body, canSend: bool): Effect {
    if c.state != Established then Quiet(c) else Sending(c, Data(body), canSend)
  }

  /** `_handle_frame`. */
  function Handling(c: Client, f: Frame, canSend: bool): Effect {
    match f
    case Joined => if c.joined then Quiet(c) else Greeting(c.(joined := true, state := JoinedState), canSend)
    case Hello(v) =>
      if c.helloReceived then Quiet(Failing(c))
      else if v != c.version then
        var sent := Sending(c, Abort("version mismatch"), canSend);
        sent.(c := Failing(sent.c))
      else if c.helloSent && c.state != Established then
        Quiet(c.(helloReceived := true, state := Established, attempts := 0))
      else Quiet(c.(helloReceived := true))
    case Data(body) => if c.state == Established then Quiet(c).(data := [body]) else Quiet(c)
    case Ping => Sending(c, Pong, canSend)
    case Abort(_) => Quiet(Failing(c))
    case PartnerReconnected(_) =>
      Greeting(c.(helloSent := false, helloReceived := false, state := JoinedState), canSend).(resyncs := 1)
    case Pong => Quiet(c)
    case Join(_, _) => Quiet(c)
  }

  function Follow(e: Effect, next: Effect): Effect {
    Effect(next.c, e.out + next.out, e.data + next.data, e.resyncs + next.resyncs)
  }

  /** The frames of one tick, until the client has failed. */
  function HandlingAll(c: Client, frames: seq<Frame>, canSend: bool): Effect
    decreases |frames|
  {
    if frames == [] then Quiet(c)
    else
      var e := Handling(c, frames[0], canSend);
      if e.c.state in {Failed, Closed} then e else Follow(e, HandlingAll(e.c, frames[1..], canSend))
  }

  /** The frame loop of `tick` on the bytes it has. */
  function Pump(k: Codec<Frame>, c: Client, buf: seq<byte>, canSend: bool): (Effect, seq<byte>)
    decreases |buf|
  {
    match Decode(k, buf)
    case Incomplete => (Quiet(c), buf)
    case Null(_) => (Quiet(c), buf)
    case Oversized(_) => (Quiet(Failing(c)), buf)
    case Malformed(_) => (Quiet(Failing(c)), buf)
    case Whole(f, total) =>
      var e := Handling(c, f, canSend);
      if e.c.state in {Failed, Closed} then (e, buf[total..])
      else var (next, rest) := Pump(k, e.c, buf[total..], canSend); (Follow(e, next), rest)
  }

  /** Bytes that decode without a fault have the effect of their frames, in order, until one of them ends the client. */
  lemma {:induction false} PumpIsHandling(k: Codec<Frame>, c: Client, buf: seq<byte>, canSend: bool)
    requires !DecodeAll(k, buf).failed
    ensures Pump(k, c, buf, canSend).0 == HandlingAll(c, DecodeAll(k, buf).objs, canSend)
    ensures !(HandlingAll(c, DecodeAll(k, buf).objs, canSend).c.state in {Failed, Closed}) ==>
      Pump(k, c, buf, canSend).1 == DecodeAll(k, buf).rest
    decreases |buf|
  {
    hide Decode, Handling, DecodeAll;
    DecodeStep(k, buf);
    match Decode(k, buf)
    case Incomplete =>
    case Null(_) =>
    case Whole(f, total) =>
      var e := Handling(c, f, canSend);
      var objs := DecodeAll(k, buf[total..]).objs;
      assert ([f] + objs)[1..] == objs;
      PumpIsHandling(k, e.c, buf[total..], canSend);
  }

  /** Frames handled in two ticks have the effect they have in one, unless the first tick ends the client. */
  lemma {:induction false} HandleAppend(c: Client, frames: seq<Frame>, more: seq<Frame>, canSend: bool)
    ensures var e := HandlingAll(c, frames, canSend);
      e.c.state !in {Failed, Closed} ==> HandlingAll(c, frames + more, canSend) == Follow(e, HandlingAll(e.c, more, canSend))
    decreases |frames|
  {
    hide Handling;
    if frames == [] {
      assert frames + more == more;
      var n := HandlingAll(c, more, canSend);
      assert [] + n.out == n.out && [] + n.data == n.data;
    } else {
      var e := Handling(c, frames[0], canSend);
      assert (frames + more)[1..] == frames[1..] + more;
      if e.c.state !in {Failed, Closed} {
        HandleAppend(e.c, frames[1..], more, canSend);
        var m := HandlingAll(e.c, frames[1..], canSend);
        var n := HandlingAll(m.c, more, canSend);
        assert e.out + (m.out + n.out) == e.out + m.out + n.out;
        assert e.data + (m.data + n.data) == e.data + m.data + n.data;
      }
    }
  }

  /** What `recv` brings: bytes, none if the peer has closed; no bytes yet (`BlockingIOError`); another `OSError`. */
  datatype Receipt = Bytes(chunk: seq<byte>) | NotYet | Broken

  /** The receipt ends the connection: an end of the stream is overlooked before the relay has answered. */
  predicate Lost(c: Client, r: Receipt) {
    r.Broken? || (r == Bytes([]) && c.state in {Established, HelloSent, JoinedState})
  }

  /** A whole tick. */
  function Ticking(k: Codec<Frame>, c: Client, buf: seq<byte>, r: Receipt, canSend: bool): (Effect, seq<byte>) {
    if c.state in {Failed, Closed} then (Quiet(c), buf)
    else if Lost(c, r) then (Quiet(Failing(c)), buf)
    else Pump(k, c, if r.Bytes? then buf + r.chunk else buf, canSend)
  }

  // ------------------------------------------------------ over many frames

  function Bodies(frames: seq<Frame>): seq<Body> {
    if frames == [] then []
    else (if frames[0].Data? then [frames[0].body] else []) + Bodies(frames[1..])
  }

  /** One pong for each ping. */
  function Pongs(frames: seq<Frame>): seq<Frame> {
    if frames == [] then [] else (if frames[0].Ping? then [Pong] else []) + Pongs(frames[1..])
  }

  /** A frame that neither ends a handshake nor starts one over. */
  predicate Ordinary(f: Frame) { !f.Hello? && !f.Abort? && !f.PartnerReconnected? }

  /**
   * An established client stays what it is over any frames but hellos, aborts and news of its partner, another `joined`
   * among them: it hands up exactly the data, in order, and answers each ping with one pong.
   */
  lemma {:induction false} EstablishedServes(c: Client, frames: seq<Frame>)
    requires c.state == Established && c.joined && forall f :: f in frames ==> Ordinary(f)
    ensures HandlingAll(c, frames, true) == Effect(c, Pongs(frames), Bodies(frames), 0)
    decreases |frames|
  {
    if frames != [] {
      assert frames[0] in frames;
      EstablishedServes(c, frames[1..]);
    }
  }

  /** One that is not established hands up nothing, as long as no hello comes. */
  lemma {:induction false} OthersHandUpNothing(c: Client, frames: seq<Frame>, canSend: bool)
    requires c.state != Established && forall f :: f in frames ==> !f.Hello?
    ensures HandlingAll(c, frames, canSend).data == [] && HandlingAll(c, frames, canSend).c.state != Established
    decreases |frames|
  {
    if frames != [] {
      assert frames[0] in frames;
      var e := Handling(c, frames[0], canSend);
      assert e.data == [] && e.c.state != Established;
      OthersHandUpNothing(e.c, frames[1..], canSend);
    }
  }

  /** Whatever comes, a client is established only when it has both said hello and got one. */
  lemma {:induction false} BothHellos(c: Client, frames: seq<Frame>, canSend: bool)
    requires c.state == Established ==> c.helloSent && c.helloReceived
    ensures var c' := HandlingAll(c, frames, canSend).c; c'.state == Established ==> c'.helloSent && c'.helloReceived
    decreases |frames|
  {
    if frames != [] {
      var e := Handling(c, frames[0], canSend);
      assert e.c.state == Established ==> e.c.helloSent && e.c.helloReceived;
      hide Handling;
      BothHellos(e.c, frames[1..], canSend);
    }
  }

  function Hellos(frames: seq<Frame>): nat {
    if frames == [] then 0 else (if frames[0].Hello? then 1 else 0) + Hellos(frames[1..])
  }

  function News(frames: seq<Frame>): nat {
    if frames == [] then 0 else (if frames[0].PartnerReconnected? then 1 else 0) + News(frames[1..])
  }

  lemma {:induction false} HellosAppend(frames: seq<Frame>, more: seq<Frame>)
    ensures Hellos(frames + more) == Hellos(frames) + Hellos(more)
  {
    if frames == [] {
      assert frames + more == more;
    } else {
      assert (frames + more)[0] == frames[0] && (frames + more)[1..] == frames[1..] + more;
      HellosAppend(frames[1..], more);
    }
  }

  /** It says hello once at most for itself, and once for each news of its partner. */
  lemma {:induction false} HellosSaid(c: Client, frames: seq<Frame>, canSend: bool)
    ensures Hellos(HandlingAll(c, frames, canSend).out) <= News(frames) + if c.helloSent then 0 else 1
    decreases |frames|
  {
    if frames != [] {
      var e := Handling(c, frames[0], canSend);
      SaidOnce(c, frames[0], canSend);
      hide Handling;
      if e.c.state !in {Failed, Closed} {
        HellosSaid(e.c, frames[1..], canSend);
        HellosAppend(e.out, HandlingAll(e.c, frames[1..], canSend).out);
      }
    }
  }

  lemma SaidOnce(c: Client, f: Frame, canSend: bool)
    ensures var e := Handling(c, f, canSend);
      Hellos(e.out) + (if e.c.helloSent then 0 else 1) <= (if f.PartnerReconnected? then 1 else 0) + if c.helloSent then 0 else 1
  {
    var e := Handling(c, f, canSend);
    assert |e.out| <= 1;
    if e.out != [] {
      assert e.out == [e.out[0]] && e.out[1..] == [];
    }
  }

  predicate Ended(c: Client) { c.state in {Failed, Reconnecting, Closed} }

  /** What ends a client: an abort, a second hello, or a hello of another version, which it answers with an abort. */
  lemma EndsOn(c: Client, f: Frame)
    requires !Ended(c)
    ensures var e := Handling(c, f, true);
      && (Ended(e.c) <==> f.Abort? || (f.Hello? && (c.helloReceived || f.v != c.version)))
      && (f.Hello? && !c.helloReceived && f.v != c.version ==> e.out == [Abort("version mismatch")])
      && (Ended(e.c) && !f.Hello? ==> e.out == [])
      && (Ended(e.c) ==> e.data == [] && e.resyncs == 0)
  {
  }

  /** Failing twice is failing once. */
  lemma FailingTwice(c: Client)
    ensures Failing(Failing(c)) == Failing(c) && Ended(Failing(c))
  {
  }

  /** `reset_for_reconnect`. */
  function Reset(c: Client): Client { c.(state := Init, joined := false, helloSent := false, helloReceived := false) }

  /** So many lost connections in a row, each followed by a new one. */
  function Retried(c: Client, losses: nat): Client
    decreases losses
  {
    if losses == 0 then c else Retried(Reset(Failing(c)), losses - 1)
  }

  /** They are counted one by one, which is what the back-off goes by. */
  lemma {:induction false} RetriesCounted(c: Client, losses: nat)
    requires c.reconnect && !Ended(c)
    ensures Retried(c, losses).attempts == c.attempts + losses && !Ended(Retried(c, losses))
    decreases losses
  {
    if losses > 0 {
      RetriesCounted(Reset(Failing(c)), losses - 1);
    }
  }

  /** Frame after frame, whatever a client without reconnect fails on, it is final: it reads and says nothing more. */
  lemma {:induction false} FailedStays(k: Codec<Frame>, c: Client, buf: seq<byte>, receipts: seq<Receipt>)
    requires c.state in {Failed, Closed}
    ensures Ticks(k, c, buf, receipts) == Quiet(c)
    decreases |receipts|
  {
    if receipts != [] {
      FailedStays(k, c, buf, receipts[1..]);
    }
  }

  /** Tick after tick. */
  function Ticks(k: Codec<Frame>, c: Client, buf: seq<byte>, receipts: seq<Receipt>): Effect
    decreases |receipts|
  {
    if receipts == [] then Quiet(c)
    else
      var (e, rest) := Ticking(k, c, buf, receipts[0], true);
      Follow(e, Ticks(k, e.c, rest, receipts[1..]))
  }

  /**
   * A tick on a closed connection ends a client that the relay has answered, and is overlooked by any other; one on a
   * broken connection ends any client, and one on which nothing arrives none.
   */
  lemma ClosedIff(k: Codec<Frame>, c: Client, buf: seq<byte>)
    requires !Ended(c) && Stuck(Decode(k, buf))
    ensures var c' := Ticking(k, c, buf, Bytes([]), true).0.c;
      if c.state in {JoinedState, HelloSent, Established} then c' == Failing(c) else c' == c
    ensures Ticking(k, c, buf, Broken, true).0.c == Failing(c) && Ticking(k, c, buf, NotYet, true).0.c == c
  {
    hide Decode, Handling;
    PumpStep(k, c, buf, true);
    assert buf + [] == buf;
  }

  /** What a client keeps, sends, hands up and asks for. */
  datatype Log = Log(c: Client, sent: seq<Frame>, received: seq<Body>, resyncs: nat)

  function After(l: Log, e: Effect): Log {
    Log(e.c, l.sent + e.out, l.received + e.data, l.resyncs + e.resyncs)
  }

  lemma PumpStep(k: Codec<Frame>, c: Client, buf: seq<byte>, canSend: bool)
    ensures var f := Decode(k, buf);
      if Stuck(f) then Pump(k, c, buf, canSend) == (Quiet(c), buf)
      else if !f.Whole? then Pump(k, c, buf, canSend) == (Quiet(Failing(c)), buf)
      else
        var e := Handling(c, f.x, canSend);
        var next := Pump(k, e.c, buf[f.total..], canSend);
        Pump(k, c, buf, canSend) ==
        if e.c.state in {Failed, Closed} then (e, buf[f.total..]) else (Follow(e, next.0), next.1)
  {
    hide Decode, Handling;
  }

  lemma FollowFollow(d: Effect, e: Effect, next: Effect)
    ensures Follow(d, Follow(e, next)) == Follow(Follow(d, e), next)
  {
    assert d.out + (e.out + next.out) == d.out + e.out + next.out;
    assert d.data + (e.data + next.data) == d.data + e.data + next.data;
  }

  lemma FollowNothing(c: Client, e: Effect)
    ensures Follow(Quiet(c), e) == e
  {
    assert [] + e.out == e.out && [] + e.data == e.data;
  }

  lemma AfterFollow(l: Log, e: Effect, next: Effect)
    ensures After(After(l, e), next) == After(l, Follow(e, next))
  {
    assert l.sent + (e.out + next.out) == l.sent + e.out + next.out;
    assert l.received + (e.data + next.data) == l.received + e.data + next.data;
  }

  lemma AfterQuiet(l: Log, c: Client)
    ensures After(l, Quiet(c)) == l.(c := c)
  {
    assert l.sent + [] == l.sent && l.received + [] == l.received;
  }

  lemma AfterState(l: Log, e: Effect)
    ensures After(l, e).c == e.c
  {
  }

  lemma FollowState(d: Effect, e: Effect)
    ensures Follow(d, e).c == e.c
  {
  }

  class PipeClient {
    const codec: Codec<Frame>
    const code: string
    const peerId: string
    const version: int
    const reconnect: bool
    var state: State
    var rxBuf: seq<byte>
    var helloSent: bool
    var helloReceived: bool
    var joined: bool
    var attempts: nat
    var sent: seq<Frame>
    var received: seq<Body>
    var resyncs: nat

    function View(): Log
      reads this
    {
      Log(Client(version, reconnect, state, helloSent, helloReceived, joined, attempts), sent, received, resyncs)
    }

    constructor (codec: Codec<Frame>, code: string, peerId: string, version: int, reconnect: bool)
      ensures this.codec == codec && this.code == code && this.peerId == peerId
      ensures View() == Log(NewClient(version, reconnect), [], [], 0) && rxBuf == []
    {
      this.codec, this.code, this.peerId, this.version, this.reconnect := codec, code, peerId, version, reconnect;
      state, helloSent, helloReceived, joined, attempts := Init, false, false, false, 0;
      rxBuf, sent, received, resyncs := [], [], [], 0;
    }

    method Fail()
      modifies this`state, this`attempts
      ensures View() == old(View()).(c := Failing(old(View()).c))
    {
      if state in {Failed, Closed, Reconnecting} {
        return;
      }
      if reconnect {
        state := Reconnecting;
        attempts := attempts + 1;
      } else {
        state := Failed;
      }
    }

    method SendFrame(f: Frame, canSend: bool)
      modifies this`state, this`attempts, this`sent
      ensures View() == After(old(View()), Sending(old(View()).c, f, canSend))
    {
      if canSend {
        sent := sent + [f];
      } else {
        Fail();
      }
    }

    method SendJoin(canSend: bool)
      modifies this`state, this`attempts, this`sent
      ensures View() == After(old(View()), Sending(old(View()).c.(state := JoinSent), Join(code, peerId), canSend))
    {
      state := JoinSent;
      SendFrame(Join(code, peerId), canSend);
    }

    method SendHello(canSend: bool)
      modifies this`state, this`attempts, this`sent, this`helloSent
      ensures View() == After(old(View()), Greeting(old(View()).c, canSend))
    {
      if helloSent {
        return;
      }
      helloSent := true;
      state := HelloSent;
      SendFrame(Hello(version), canSend);
    }

    method SendData(body: Body, canSend: bool)
      modifies this`state, this`attempts, this`sent
      ensures View() == After(old(View()), Offering(old(View()).c, body, canSend))
    {
      if state != Established {
        return;
      }
      SendFrame(Data(body), canSend);
    }

    method HandleFrame(f: Frame, canSend: bool)
      modifies this`state, this`attempts, this`sent, this`helloSent, this`helloReceived, this`joined, this`received,
               this`resyncs
      ensures View() == After(old(View()), Handling(old(View()).c, f, canSend))
    {
      match f
      case Joined =>
        if !joined {
          joined := true;
          state := JoinedState;
          SendHello(canSend);
        }
      case Hello(v) =>
        if helloReceived {
          Fail();
          return;
        }
        if v != version {
          SendFrame(Abort("version mismatch"), canSend);
          Fail();
          return;
        }
        helloReceived := true;
        if helloSent && state != Established {
          state := Established;
          attempts := 0;
        }
      case Data(body) =>
        if state == Established {
          received := received + [body];
        }
      case Ping => SendFrame(Pong, canSend);
      case Abort(_) => Fail();
      case PartnerReconnected(_) =>
        helloSent := false;
        helloReceived := false;
        state := JoinedState;
        SendHello(canSend);
        resyncs := resyncs + 1;
      case Pong =>
      case Join(_, _) =>
    }

    method Tick(r: Receipt, canSend: bool)
      modifies this
      ensures var (e, rest) := Ticking(codec, old(View()).c, old(rxBuf), r, canSend);
        View() == After(old(View()), e) && rxBuf == rest
    {
      hide Decode, Handling, Pump, Follow, After;
      AfterQuiet(View(), View().c);
      AfterQuiet(View(), Failing(View().c));
      if state in {Failed, Closed} {
        return;
      }
      match r {
        case Bytes(chunk) =>
          if chunk != [] {
            rxBuf := rxBuf + chunk;
          } else if state in {Established, HelloSent, JoinedState} {
            Fail();
            return;
          }
        case NotYet =>
        case Broken =>
          Fail();
          return;
      }
      assert rxBuf == if r.Bytes? then old(rxBuf) + r.chunk else old(rxBuf);
      ReadFrames(canSend);
    }

    /** The frame loop of `tick`. */
    method ReadFrames(canSend: bool)
      requires state !in {Failed, Closed}
      modifies this
      ensures var (e, rest) := Pump(codec, old(View()).c, old(rxBuf), canSend);
        View() == After(old(View()), e) && rxBuf == rest
    {
      hide Decode, Handling, Pump, Follow, After;
      ghost var was := old(View());
      ghost var all := Pump(codec, was.c, rxBuf, canSend);
      ghost var done := Quiet(was.c);
      FollowNothing(was.c, all.0);
      AfterQuiet(was, was.c);
      while true
        invariant state !in {Failed, Closed} && View() == After(was, done) && View().c == done.c
        invariant var (e, rest) := Pump(codec, View().c, rxBuf, canSend); all == (Follow(done, e), rest)
        decreases |rxBuf|
      {
        ghost var now := View();
        PumpStep(codec, now.c, rxBuf, canSend);
        match Decode(codec, rxBuf)
        case Incomplete =>
          AfterFollow(was, done, Quiet(now.c));
          AfterQuiet(now, now.c);
          return;
        case Null(_) =>
          AfterFollow(was, done, Quiet(now.c));
          AfterQuiet(now, now.c);
          return;
        case Oversized(_) =>
          AfterFollow(was, done, Quiet(Failing(now.c)));
          AfterQuiet(now, Failing(now.c));
          Fail();
          return;
        case Malformed(_) =>
          AfterFollow(was, done, Quiet(Failing(now.c)));
          AfterQuiet(now, Failing(now.c));
          Fail();
          return;
        case Whole(f, total) =>
          ghost var e := Handling(now.c, f, canSend);
          rxBuf := rxBuf[total..];
          HandleFrame(f, canSend);
          AfterFollow(was, done, e);
          AfterState(now, e);
          if state in {Failed, Closed} {
            return;
          }
          FollowFollow(done, e, Pump(codec, e.c, rxBuf, canSend).0);
          FollowState(done, e);
          done := Follow(done, e);
      }
    }

    method ResetForReconnect()
      modifies this
      ensures rxBuf == [] && View() == old(View()).(c := Reset(old(View()).c))
    {
      state := Init;
      joined := false;
      helloSent := false;
      helloReceived := false;
      rxBuf := [];
    }
  }
}
