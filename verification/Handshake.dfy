/**
 * Two clients joined by the relay over FIFO links without drops: every interleaving of joins, pairing, forwarding,
 * deliveries, data and heartbeats.
 */
module Handshakes {
  import opened PipeClients

  /**
   * A client with its links to and from the relay, and whether its join was taken. `offered` is the data it was given to
   * send while established, `got` the data it handed up.
   */
  datatype End = End(c: Client, up: seq<Frame>, down: seq<Frame>, arrived: bool, offered: seq<Body>, got: seq<Body>)

  datatype Net = Net(a: End, b: End)
  {
    /** The relay pairs the two when the second one arrives, and writes `joined` to both before it forwards. */
    predicate Paired() { a.arrived && b.arrived }
  }

  function Swap(n: Net): Net { Net(n.b, n.a) }

  datatype Action = Start | Arrive | Forward | Deliver | Offer(body: Body) | Heartbeat

  datatype Step = Step(left: bool, act: Action)

  /** The end after an effect of its client. */
  function Sent(x: End, e: Effect): End { x.(c := e.c, up := x.up + e.out, got := x.got + e.data) }

  /** A step at end `a`. */
  function Act(n: Net, act: Action): Net {
    match act
    case Start =>
      if n.a.c.state != Init then n
      else n.(a := Sent(n.a, Sending(n.a.c.(state := JoinSent), Join("", ""), true)))
    case Arrive =>
      if n.a.arrived || n.a.up == [] || !n.a.up[0].Join? then n
      else
        var a := n.a.(arrived := true, up := n.a.up[1..]);
        if n.b.arrived then Net(a.(down := a.down + [Joined]), n.b.(down := n.b.down + [Joined])) else n.(a := a)
    case Forward =>
      if n.a.up == [] || !n.a.arrived then n
      else if n.Paired() then Net(n.a.(up := n.a.up[1..]), n.b.(down := n.b.down + [n.a.up[0]]))
      else n.(a := n.a.(up := n.a.up[1..]))
    case Deliver =>
      if n.a.down == [] || n.a.c.state in {Failed, Closed} then n
      else n.(a := Sent(n.a.(down := n.a.down[1..]), Handling(n.a.c, n.a.down[0], true)))
    case Offer(body) =>
      n.(a := Sent(n.a, Offering(n.a.c, body, true)).(
        offered := if n.a.c.state == Established then n.a.offered + [body] else n.a.offered))
    case Heartbeat =>
      if n.a.c.state in {Established, HelloSent} then n.(a := Sent(n.a, Sending(n.a.c, Ping, true))) else n
  }

  function Take(n: Net, step: Step): Net { if step.left then Act(n, step.act) else Swap(Act(Swap(n), step.act)) }

  function Run(n: Net, steps: seq<Step>): Net
    decreases |steps|
  {
    if steps == [] then n else Run(Take(n, steps[0]), steps[1..])
  }

  function Begin(va: int, vb: int): Net {
    Net(End(NewClient(va, false), [], [], false, [], []), End(NewClient(vb, false), [], [], false, [], []))
  }

  // -------------------------------------------------------------- invariant

  lemma {:induction false} BodiesAppend(frames: seq<Frame>, more: seq<Frame>)
    ensures Bodies(frames + more) == Bodies(frames) + Bodies(more)
  {
    if frames == [] {
      assert frames + more == more;
    } else {
      var one := if frames[0].Data? then [frames[0].body] else [];
      assert (frames + more)[0] == frames[0] && (frames + more)[1..] == frames[1..] + more;
      BodiesAppend(frames[1..], more);
      assert one + (Bodies(frames[1..]) + Bodies(more)) == (one + Bodies(frames[1..])) + Bodies(more);
    }
  }

  /** Frames an established partner may have sent after its hello. */
  predicate Later(frames: seq<Frame>) { forall f :: f in frames ==> f.Data? || f.Ping? || f.Pong? }

  predicate NoData(frames: seq<Frame>) { forall f :: f in frames ==> !f.Data? }

  /** What travels from `y` to `x`: the rest of the link to `x`, behind its `joined`, then the link from `y`. */
  function Flow(x: End, y: End): seq<Frame> {
    (if !x.c.joined && x.down != [] then x.down[1..] else x.down) + y.up
  }

  /** A client whose pair is not complete: it has sent its join at most. */
  predicate Alone(x: End) {
    && x.down == [] && !x.c.joined && !x.c.helloSent && !x.c.helloReceived && x.offered == [] && x.got == []
    && (x.arrived ==> x.c.state == JoinSent && x.up == [])
    && (!x.arrived ==> (x.c.state == Init && x.up == []) || (x.c.state == JoinSent && x.up == [Join("", "")]))
  }

  /** The state of a paired client is told by its flags, and `joined` comes first on its link. */
  predicate Told(x: End) {
    && x.c.helloSent == x.c.joined
    && (x.c.helloReceived ==> x.c.joined)
    && (if !x.c.joined then x.c.state == JoinSent && x.down != [] && x.down[0] == Joined && x.up == []
        else x.c.state == if x.c.helloReceived then Established else HelloSent)
  }

  /**
   * The stream from `y` to `x`: nothing before `y`'s hello, then that hello and later frames, and data only once `y` is
   * established. What `y` was given to send is what `x` handed up and what is on its way.
   */
  predicate Streams(x: End, y: End) {
    var flow := Flow(x, y);
    && (!y.c.helloSent ==> flow == [] && !x.c.helloReceived)
    && (y.c.helloSent && !x.c.helloReceived ==> flow != [] && flow[0] == Hello(y.c.version) && Later(flow[1..]))
    && (x.c.helloReceived ==> Later(flow))
    && (!y.c.helloReceived ==> NoData(flow) && y.offered == [])
    && (!x.c.helloReceived ==> x.got == [])
    && y.offered == x.got + Bodies(flow)
  }

  predicate Inv(n: Net) {
    && n.a.c.version == n.b.c.version
    && if n.Paired() then Told(n.a) && Told(n.b) && Streams(n.a, n.b) && Streams(n.b, n.a) else Alone(n.a) && Alone(n.b)
  }

  lemma StartKeeps(n: Net)
    requires Inv(n)
    ensures Inv(Act(n, Start))
  {
    if !n.Paired() && n.a.c.state == Init {
      assert [] + [Join("", "")] == [Join("", "")];
    }
  }

  lemma ArriveKeeps(n: Net)
    requires Inv(n)
    ensures Inv(Act(n, Arrive))
  {
    if !n.a.arrived && n.a.up != [] {
      assert n.a.up[1..] == [];
      if n.b.arrived {
        var n' := Act(n, Arrive);
        assert n'.a.down == [Joined] && n'.b.down == [Joined];
        assert [Joined][1..] == [];
      }
    }
  }

  /** The stream stays what it is if its flow does, and what its ends are told by. */
  lemma SameStream(x: End, y: End, x': End, y': End)
    requires Streams(x, y) && Flow(x', y') == Flow(x, y) && x'.got == x.got && y'.offered == y.offered
    requires x'.c.helloReceived == x.c.helloReceived && y'.c.helloSent == y.c.helloSent && y'.c.version == y.c.version
    requires y.c.helloReceived ==> y'.c.helloReceived
    ensures Streams(x', y')
  {
    hide Flow, Later, NoData, Bodies;
  }

  lemma ForwardKeeps(n: Net)
    requires Inv(n)
    ensures Inv(Act(n, Forward))
  {
    hide Streams;
    if n.Paired() && n.a.up != [] {
      var n' := Act(n, Forward);
      var f := n.a.up[0];
      assert n.a.up == [f] + n.a.up[1..];
      if !n.b.c.joined {
        assert (n.b.down + [f])[1..] == n.b.down[1..] + [f];
      }
      assert Flow(n'.b, n'.a) == Flow(n.b, n.a);
      assert Flow(n'.a, n'.b) == Flow(n.a, n.b);
      SameStream(n.a, n.b, n'.a, n'.b);
      SameStream(n.b, n.a, n'.b, n'.a);
    }
  }

  lemma LaterSnoc(frames: seq<Frame>, f: Frame)
    requires Later(frames) && (f.Data? || f.Ping? || f.Pong?)
    ensures Later(frames + [f])
  {
  }

  lemma NoDataSnoc(frames: seq<Frame>, f: Frame)
    requires NoData(frames) && !f.Data?
    ensures NoData(frames + [f])
  {
  }

  function Grown(y: End, f: Frame): End {
    y.(up := y.up + [f], offered := if f.Data? then y.offered + [f.body] else y.offered)
  }

  lemma StreamGrows(x: End, y: End, f: Frame)
    requires Streams(x, y) && y.c.helloSent && (f.Ping? || f.Pong? || (f.Data? && y.c.helloReceived))
    ensures Streams(x, Grown(y, f))
  {
    hide Bodies, Later, NoData;
    var flow := Flow(x, y);
    assert Flow(x, Grown(y, f)) == flow + [f];
    hide Flow;
    BodiesAppend(flow, [f]);
    BodiesOfOne(f);
    if !y.c.helloReceived {
      NoDataSnoc(flow, f);
    }
    if x.c.helloReceived {
      LaterSnoc(flow, f);
    } else {
      LaterSnoc(flow[1..], f);
      assert (flow + [f])[1..] == flow[1..] + [f];
    }
    assert x.got + (Bodies(flow) + Bodies([f])) == x.got + Bodies(flow) + Bodies([f]);
  }

  lemma BodiesOfOne(f: Frame)
    ensures Bodies([f]) == if f.Data? then [f.body] else []
  {
    assert [f][1..] == [];
  }

  /** A later frame that `a` sends. */
  lemma SendKeeps(n: Net, f: Frame)
    requires Inv(n) && n.Paired() && n.a.c.helloSent && (f.Ping? || f.Pong? || (f.Data? && n.a.c.helloReceived))
    ensures Inv(Net(Grown(n.a, f), n.b))
  {
    hide Bodies, Later, NoData;
    StreamGrows(n.b, n.a, f);
    assert Flow(Grown(n.a, f), n.b) == Flow(n.a, n.b);
  }

  lemma OfferKeeps(n: Net, body: Body)
    requires Inv(n)
    ensures Inv(Act(n, Offer(body)))
  {
    assert n.a.up + [] == n.a.up && n.a.got + [] == n.a.got;
    if n.a.c.state == Established {
      SendKeeps(n, Data(body));
    }
  }

  lemma HeartbeatKeeps(n: Net)
    requires Inv(n)
    ensures Inv(Act(n, Heartbeat))
  {
    assert n.a.got + [] == n.a.got;
    if n.a.c.state in {Established, HelloSent} {
      SendKeeps(n, Ping);
    }
  }

  /** `joined` is the first frame a client gets; it answers with its hello. */
  lemma JoinedKeeps(n: Net)
    requires Inv(n) && n.Paired() && !n.a.c.joined
    ensures Inv(Act(n, Deliver))
  {
    var n' := Act(n, Deliver);
    assert n.a.up + [Hello(n.a.c.version)] == [Hello(n.a.c.version)];
    assert n.a.got + [] == n.a.got;
    assert Flow(n'.a, n'.b) == Flow(n.a, n.b);
    assert Flow(n'.b, n'.a) == Flow(n.b, n.a) + [Hello(n.a.c.version)];
    assert Flow(n.b, n.a) == [];
    assert [Hello(n.a.c.version)][1..] == [];
  }

  /** What can be at the front of a stream: the partner's hello, or a later frame behind it. */
  lemma FrontFrame(x: End, y: End)
    requires Streams(x, y) && x.c.joined && x.down != []
    ensures if x.c.helloReceived then x.down[0].Data? || x.down[0].Ping? || x.down[0].Pong? else x.down[0] == Hello(y.c.version)
    ensures x.down[0].Data? ==> y.c.helloReceived
  {
    var flow := Flow(x, y);
    assert flow[0] == x.down[0];
    assert flow[0] in flow;
  }

  lemma LaterRest(frames: seq<Frame>)
    requires frames != []
    ensures Later(frames) ==> Later(frames[1..])
    ensures NoData(frames) ==> NoData(frames[1..])
    ensures Bodies(frames) == Bodies([frames[0]]) + Bodies(frames[1..])
  {
    BodiesOfOne(frames[0]);
  }

  /** The client takes it off. */
  lemma StreamTaken(x: End, y: End, x': End)
    requires Streams(x, y) && x.c.joined && x.down != [] && x'.c.joined && x'.down == x.down[1..]
    requires x'.c.helloReceived && x'.got == x.got + Bodies([x.down[0]])
    ensures Streams(x', y)
  {
    var flow := Flow(x, y);
    FrontFrame(x, y);
    assert flow[0] == x.down[0] && flow[1..] == Flow(x', y);
    LaterRest(flow);
    hide Bodies, Later, NoData, Flow;
    var one, more := Bodies([flow[0]]), Bodies(flow[1..]);
    assert x.got + (one + more) == x.got + one + more;
  }

  /** Any other frame comes from the partner, and is never a second hello, nor data before the client is established. */
  lemma FrameKeeps(n: Net)
    requires Inv(n) && n.Paired() && n.a.c.joined && n.a.down != []
    ensures Inv(Act(n, Deliver))
  {
    var n', f := Act(n, Deliver), n.a.down[0];
    FrontFrame(n.a, n.b);
    BodiesOfOne(f);
    assert n.a.up + [] == n.a.up && n.a.got + [] == n.a.got;
    hide Streams, Bodies;
    StreamTaken(n.a, n.b, n'.a);
    if f.Ping? {
      StreamGrows(n.b, n.a, Pong);
      assert Flow(n'.b, n'.a) == Flow(n.b, Grown(n.a, Pong));
      SameStream(n.b, Grown(n.a, Pong), n'.b, n'.a);
    } else {
      assert Flow(n'.b, n'.a) == Flow(n.b, n.a);
      SameStream(n.b, n.a, n'.b, n'.a);
    }
  }

  lemma ActKeeps(n: Net, act: Action)
    requires Inv(n)
    ensures Inv(Act(n, act))
  {
    match act
    case Start => StartKeeps(n);
    case Arrive => ArriveKeeps(n);
    case Forward => ForwardKeeps(n);
    case Deliver =>
      if n.Paired() && n.a.down != [] && n.a.c.state !in {Failed, Closed} {
        if n.a.c.joined {
          FrameKeeps(n);
        } else {
          JoinedKeeps(n);
        }
      }
    case Offer(body) => OfferKeeps(n, body);
    case Heartbeat => HeartbeatKeeps(n);
  }

  lemma {:induction false} RunKeeps(n: Net, steps: seq<Step>)
    requires Inv(n)
    ensures Inv(Run(n, steps))
    decreases |steps|
  {
    hide Act, Inv;
    if steps != [] {
      var step := steps[0];
      SwapInv(n);
      ActKeeps(if step.left then n else Swap(n), step.act);
      SwapInv(Act(Swap(n), step.act));
      RunKeeps(Take(n, step), steps[1..]);
    }
  }

  lemma SwapInv(n: Net)
    ensures Inv(Swap(n)) <==> Inv(n)
  {
    hide Told, Streams, Alone;
  }

  // ---------------------------------------------------------------- theorems

  /** A frame at the front of a client's link is a second hello. */
  predicate SecondHello(x: End) { x.down != [] && x.down[0].Hello? && x.c.helloReceived }

  /** A frame at the front of a client's link is data that its state guard would throw away. */
  predicate LostData(x: End) { x.down != [] && x.down[0].Data? && x.c.state != Established }

  /**
   * In every interleaving without a drop the handshake is safe: no client fails, a second hello never arrives, data
   * finds its receiver established, and what one side handed up is a prefix of what the other was given to send, the
   * rest being on its way in order.
   */
  lemma HandshakeSafe(version: int, steps: seq<Step>)
    ensures var n := Run(Begin(version, version), steps);
      && n.a.c.state != Failed && n.b.c.state != Failed
      && !SecondHello(n.a) && !SecondHello(n.b) && !LostData(n.a) && !LostData(n.b)
      && n.a.got <= n.b.offered && n.b.got <= n.a.offered
  {
    hide Run;
    var n := Run(Begin(version, version), steps);
    RunKeeps(Begin(version, version), steps);
    InvSafe(n);
    SwapInv(n);
    InvSafe(Swap(n));
  }

  lemma InvSafe(n: Net)
    requires Inv(n)
    ensures n.a.c.state != Failed && !SecondHello(n.a) && !LostData(n.a) && n.a.got <= n.b.offered
  {
    if n.Paired() && n.a.down != [] {
      var flow := Flow(n.a, n.b);
      if n.a.c.joined {
        assert flow[0] == n.a.down[0];
      }
    }
  }

  /** Once the links are empty, everything that was given to one side has been handed up by the other, exactly once. */
  lemma AllDelivered(version: int, steps: seq<Step>)
    requires var n := Run(Begin(version, version), steps);
      n.Paired() && n.a.c.joined && n.b.c.joined && n.a.up == n.a.down == n.b.up == n.b.down == []
    ensures var n := Run(Begin(version, version), steps);
      n.a.got == n.b.offered && n.b.got == n.a.offered && n.a.c.state == n.b.c.state == Established
  {
    hide Run;
    RunKeeps(Begin(version, version), steps);
  }

  // ------------------------------------------------------ different versions

  predicate HellosOf(frames: seq<Frame>, version: int) { forall f :: f in frames && f.Hello? ==> f.v == version }

  /** No hello of the right version is on its way to `x`, and none has arrived. */
  predicate Strangers(x: End, y: End) {
    && x.c.version != y.c.version && !x.c.helloReceived && x.c.state != Established
    && HellosOf(x.down, y.c.version) && HellosOf(y.up, y.c.version)
  }

  lemma StrangersStay(n: Net, act: Action)
    requires Strangers(n.a, n.b) && Strangers(n.b, n.a)
    ensures Strangers(Act(n, act).a, Act(n, act).b) && Strangers(Act(n, act).b, Act(n, act).a)
  {
    hide HellosOf;
    match act
    case Start => HellosSnoc(n.a.up, Join("", ""), n.a.c.version);
    case Arrive =>
      HellosTail(n.a.up, n.a.c.version);
      HellosSnoc(n.a.down, Joined, n.b.c.version);
      HellosSnoc(n.b.down, Joined, n.a.c.version);
    case Forward =>
      HellosTail(n.a.up, n.a.c.version);
      if n.a.up != [] {
        HellosSnoc(n.b.down, n.a.up[0], n.a.c.version);
      }
    case Deliver =>
      HellosTail(n.a.down, n.b.c.version);
      if n.a.down != [] {
        StrangerAnswers(n.a, n.b);
      }
    case Offer(body) => assert n.a.up + [] == n.a.up;
    case Heartbeat => HellosSnoc(n.a.up, Ping, n.a.c.version);
  }

  lemma HellosSnoc(frames: seq<Frame>, f: Frame, version: int)
    requires HellosOf(frames, version) && (f.Hello? ==> f.v == version)
    ensures HellosOf(frames + [f], version)
  {
  }

  lemma HellosTail(frames: seq<Frame>, version: int)
    requires HellosOf(frames, version)
    ensures frames != [] ==> HellosOf(frames[1..], version) && (frames[0].Hello? ==> frames[0].v == version)
  {
  }

  /** What a stranger answers to a frame is no hello but its own. */
  lemma StrangerAnswers(x: End, y: End)
    requires Strangers(x, y) && x.down != [] && HellosOf(x.up, x.c.version)
    ensures var e := Handling(x.c, x.down[0], true);
      && e.c.version == x.c.version && !e.c.helloReceived && e.c.state != Established
      && HellosOf(x.up + e.out, x.c.version)
  {
    var out := Handling(x.c, x.down[0], true).out;
    assert |out| <= 1;
    if out == [] {
      assert x.up + out == x.up;
    } else {
      HellosSnoc(x.up, out[0], x.c.version);
      assert out == [out[0]];
    }
  }

  /** Clients of different protocol versions are never established, in any interleaving. */
  lemma {:induction false} NeverEstablished(n: Net, steps: seq<Step>)
    requires Strangers(n.a, n.b) && Strangers(n.b, n.a)
    ensures Run(n, steps).a.c.state != Established && Run(n, steps).b.c.state != Established
    decreases |steps|
  {
    hide Act;
    if steps != [] {
      StrangersStay(if steps[0].left then n else Swap(n), steps[0].act);
      NeverEstablished(Take(n, steps[0]), steps[1..]);
    }
  }

  lemma MismatchNeverEstablished(va: int, vb: int, steps: seq<Step>)
    requires va != vb
    ensures var n := Run(Begin(va, vb), steps); n.a.c.state != Established && n.b.c.state != Established
  {
    NeverEstablished(Begin(va, vb), steps);
  }

  /** A run that joins, pairs, and lets each client's hello through. */
  const HANDSHAKE: seq<Step> := [
    Step(true, Start), Step(true, Arrive), Step(false, Start), Step(false, Arrive), Step(true, Deliver), Step(false, Deliver),
    Step(true, Forward), Step(false, Forward), Step(true, Deliver), Step(false, Deliver)
  ]

  lemma RunAt(n: Net, steps: seq<Step>, i: nat)
    requires i < |steps|
    ensures Run(n, steps[i..]) == Run(Take(n, steps[i]), steps[i + 1..])
  {
    assert steps[i..][1..] == steps[i + 1..];
  }

  /** A client that has sent its join, and the relay has taken it. */
  function Joining(v: int): End { End(NewClient(v, false).(state := JoinSent), [], [], true, [], []) }

  /** A client that was told of its partner and has sent its hello. */
  function Greeted(v: int): End {
    Joining(v).(c := NewClient(v, false).(state := HelloSent, joined := true, helloSent := true), up := [Hello(v)])
  }

  lemma JoinsArrive(v: int)
    ensures Take(Take(Begin(v, v), HANDSHAKE[0]), HANDSHAKE[1]) == Net(Joining(v), Begin(v, v).b)
    ensures Take(Take(Net(Joining(v), Begin(v, v).b), HANDSHAKE[2]), HANDSHAKE[3]) ==
            Net(Joining(v).(down := [Joined]), Joining(v).(down := [Joined]))
  {
    var none: seq<Frame> := [];
    var x := Sent(Begin(v, v).a, Sending(NewClient(v, false).(state := JoinSent), Join("", ""), true));
    assert x.up == none + [Join("", "")] == [Join("", "")] && x.got == [];
    assert [Join("", "")][1..] == none;
    assert none + [Joined] == [Joined];
  }

  lemma HellosGo(v: int)
    ensures var n := Net(Joining(v).(down := [Joined]), Joining(v).(down := [Joined]));
      Take(Take(n, HANDSHAKE[4]), HANDSHAKE[5]) == Net(Greeted(v), Greeted(v))
    ensures Take(Take(Net(Greeted(v), Greeted(v)), HANDSHAKE[6]), HANDSHAKE[7]) ==
            Net(Greeted(v).(up := [], down := [Hello(v)]), Greeted(v).(up := [], down := [Hello(v)]))
  {
    var none: seq<Frame> := [];
    var data: seq<Body> := [];
    assert [Joined][1..] == none && none + [Hello(v)] == [Hello(v)] && data + data == data && [Hello(v)][1..] == none;
    var e := Handling(Joining(v).c, Joined, true);
    assert Sent(Joining(v), e) == Greeted(v);
  }

  lemma HellosArrive(v: int)
    ensures var n := Net(Greeted(v).(up := [], down := [Hello(v)]), Greeted(v).(up := [], down := [Hello(v)]));
      var end := Take(Take(n, HANDSHAKE[8]), HANDSHAKE[9]);
      end.a.c.state == end.b.c.state == Established
  {
  }

  /** With equal versions the handshake can be completed: this run leaves both clients established. */
  lemma EqualVersionsEstablish(v: int)
    ensures Run(Begin(v, v), HANDSHAKE).a.c.state == Run(Begin(v, v), HANDSHAKE).b.c.state == Established
  {
    hide Take, Run, Begin, Joining, Greeted;
    JoinsArrive(v);
    HellosGo(v);
    HellosArrive(v);
    var n0 := Begin(v, v);
    var n2 := Net(Joining(v), Begin(v, v).b);
    var n4 := Net(Joining(v).(down := [Joined]), Joining(v).(down := [Joined]));
    var n6 := Net(Greeted(v), Greeted(v));
    var n8 := Net(Greeted(v).(up := [], down := [Hello(v)]), Greeted(v).(up := [], down := [Hello(v)]));
    assert HANDSHAKE[0..] == HANDSHAKE;
    TwoSteps(n0, n2, 0);
    TwoSteps(n2, n4, 2);
    TwoSteps(n4, n6, 4);
    TwoSteps(n6, n8, 6);
    TwoSteps(n8, Take(Take(n8, HANDSHAKE[8]), HANDSHAKE[9]), 8);
    NoSteps(Take(Take(n8, HANDSHAKE[8]), HANDSHAKE[9]));
  }

  lemma TwoSteps(n: Net, n': Net, i: nat)
    requires i + 1 < |HANDSHAKE| && n' == Take(Take(n, HANDSHAKE[i]), HANDSHAKE[i + 1])
    ensures Run(n, HANDSHAKE[i..]) == Run(n', HANDSHAKE[i + 2..])
  {
    hide Take, Run;
    RunAt(n, HANDSHAKE, i);
    RunAt(Take(n, HANDSHAKE[i]), HANDSHAKE, i + 1);
  }

  lemma NoSteps(n: Net)
    ensures Run(n, HANDSHAKE[10..]) == n
  {
    assert HANDSHAKE[10..] == [];
  }
}
