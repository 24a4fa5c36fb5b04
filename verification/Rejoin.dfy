/**
 * A pair that outlives its connections: one client drops and joins again on a new socket, and its partner is told. Frames
 * for a client that is away are thrown away; whatever else can happen happens as in `Handshakes`, in any order.
 */
module Rejoins {
  import opened Wrappers
  import opened PipeClients
  import Handshakes

  type End = Handshakes.End

  /** The two ends, and whether the relay has ever paired them. */
  datatype Line = Line(a: End, b: End, met: bool)

  function Mirrored(l: Line): Line { Line(l.b, l.a, l.met) }

  datatype Action = Does(act: Handshakes.Action) | Drop

  datatype Step = Step(left: bool, act: Action)

  /** `a` comes back to a pair: it is told that it has joined, and its partner that it is back. */
  function Return(l: Line): Line
    requires l.a.up != [] && l.a.up[0].Join?
  {
    Line(l.a.(arrived := true, up := l.a.up[1..], down := l.a.down + [Joined]),
         if l.b.arrived then l.b.(down := l.b.down + [PartnerReconnected(l.a.up[0].peerId)]) else l.b, true)
  }

  /** The step is the return of end `a`. */
  predicate Returns(l: Line, act: Action) {
    l.met && act == Does(Handshakes.Arrive) && !l.a.arrived && l.a.up != [] && l.a.up[0].Join?
  }

  /** A step at end `a`. A client that has ended reads nothing more. */
  function Act(l: Line, act: Action): Line {
    match act
    case Drop => l.(a := l.a.(c := Reset(l.a.c), up := [], down := [], arrived := false))
    case Does(h) =>
      if Returns(l, act) then Return(l)
      else if (l.met && h.Arrive?) || (h.Deliver? && Ended(l.a.c)) then l
      else
        var n := Handshakes.Act(Handshakes.Net(l.a, l.b), h);
        Line(n.a, n.b, l.met || n.Paired())
  }

  function Take(l: Line, step: Step): Line {
    if step.left then Act(l, step.act) else Mirrored(Act(Mirrored(l), step.act))
  }

  function Run(l: Line, steps: seq<Step>): Line
    decreases |steps|
  {
    if steps == [] then l else Run(Take(l, steps[0]), steps[1..])
  }

  function Begin(version: int, ra: bool, rb: bool): Line {
    Line(Handshakes.End(NewClient(version, ra), [], [], false, [], []),
         Handshakes.End(NewClient(version, rb), [], [], false, [], []), false)
  }

  // ------------------------------------------------------------ one client

  /**
   * A client whose partner is back: whatever it was in, it says hello once more, asks for one resync, hands up nothing,
   * and is established when the partner's hello comes.
   */
  lemma PartnerBack(c: Client, id: string)
    ensures var e := HandlingAll(c, [PartnerReconnected(id), Hello(c.version)], true);
      && e.c.state == Established && e.c.helloSent && e.c.helloReceived && e.c.attempts == 0
      && e.out == [Hello(c.version)] && e.data == [] && e.resyncs == 1
  {
    TwoFrames(c, PartnerReconnected(id), Hello(c.version));
    NewsHandled(c, id);
    var told := c.(helloSent := true, helloReceived := false, state := HelloSent);
    HelloHandled(told);
    hide Handling, HandlingAll;
  }

  lemma NewsHandled(c: Client, id: string)
    ensures Handling(c, PartnerReconnected(id), true) ==
            Effect(c.(helloSent := true, helloReceived := false, state := HelloSent), [Hello(c.version)], [], 1)
  {
  }

  lemma HelloHandled(c: Client)
    requires c.helloSent && !c.helloReceived && c.state == HelloSent
    ensures Handling(c, Hello(c.version), true) == Quiet(c.(helloReceived := true, state := Established, attempts := 0))
  {
  }

  lemma TwoFrames(c: Client, f: Frame, g: Frame)
    ensures var e := Handling(c, f, true);
      var e' := Handling(e.c, g, true);
      e.c.state !in {Failed, Closed} ==>
        HandlingAll(c, [f, g], true) == Effect(e'.c, e.out + e'.out, e.data + e'.data, e.resyncs + e'.resyncs)
  {
    hide Handling;
    var e := Handling(c, f, true);
    var e' := Handling(e.c, g, true);
    assert [f, g][1..] == [g] && [g][1..] == [];
    assert HandlingAll(e'.c, [], true) == Quiet(e'.c);
    assert e'.out + [] == e'.out && e'.data + [] == e'.data;
    assert HandlingAll(e.c, [g], true) == e';
  }

  // --------------------------------------------------------------- streams

  /** A frame that makes its receiver say hello. */
  predicate Calls(f: Frame) { f.Joined? || f.PartnerReconnected? }

  function Replies(v: int, frames: seq<Frame>): seq<Frame> {
    if frames == [] then [] else (if Calls(frames[0]) then [Hello(v)] else []) + Replies(v, frames[1..])
  }

  /** What is on its way from `y` to `x`, the hellos that `y` is going to say last. */
  function Coming(x: End, y: End): seq<Frame> { x.down + y.up + Replies(y.c.version, y.down) }

  /** What a client knows of its partner's hello after these frames; nothing if one of them is a second hello. */
  function Hears(got: bool, frames: seq<Frame>): Option<bool>
    decreases |frames|
  {
    if frames == [] then Some(got)
    else match frames[0]
      case Hello(_) => if got then None else Hears(true, frames[1..])
      case PartnerReconnected(_) => Hears(false, frames[1..])
      case _ => Hears(got, frames[1..])
  }

  lemma {:induction false} HearsAppend(got: bool, s: seq<Frame>, t: seq<Frame>)
    ensures Hears(got, s + t) == if Hears(got, s).Some? then Hears(Hears(got, s).value, t) else None
    decreases |s|
  {
    if s == [] {
      assert s + t == t;
    } else {
      assert (s + t)[0] == s[0] && (s + t)[1..] == s[1..] + t;
      match s[0]
      case Hello(_) => HearsAppend(true, s[1..], t);
      case PartnerReconnected(_) => HearsAppend(false, s[1..], t);
      case _ => HearsAppend(got, s[1..], t);
    }
  }

  lemma HearsOne(got: bool, f: Frame)
    ensures Hears(got, [f]) ==
            if f.Hello? then (if got then None else Some(true)) else if f.PartnerReconnected? then Some(false) else Some(got)
  {
    assert [f][1..] == [];
  }

  /** A frame that tells nothing of the partner's hello. */
  predicate Idle(f: Frame) { f.Data? || f.Ping? || f.Pong? }

  lemma HearsPast(got: bool, s: seq<Frame>, f: Frame, t: seq<Frame>)
    requires Idle(f)
    ensures Hears(got, s + [f] + t) == Hears(got, s + t)
  {
    hide Hears;
    HearsAppend(got, s + [f], t);
    HearsAppend(got, s, [f]);
    HearsAppend(got, s, t);
    if Hears(got, s).Some? {
      HearsOne(Hears(got, s).value, f);
    }
  }

  lemma {:induction false} RepliesAppend(v: int, s: seq<Frame>, t: seq<Frame>)
    ensures Replies(v, s + t) == Replies(v, s) + Replies(v, t)
    decreases |s|
  {
    if s == [] {
      assert s + t == t;
    } else {
      assert (s + t)[0] == s[0] && (s + t)[1..] == s[1..] + t;
      RepliesAppend(v, s[1..], t);
      var one, more := if Calls(s[0]) then [Hello(v)] else [], Replies(v, s[1..]);
      hide Replies;
      assert one + (more + Replies(v, t)) == one + more + Replies(v, t);
    }
  }

  lemma RepliesOne(v: int, f: Frame)
    ensures Replies(v, [f]) == if Calls(f) then [Hello(v)] else []
  {
    assert [f][1..] == [];
  }

  // -------------------------------------------------------------- invariant

  predicate Sendable(v: int, frames: seq<Frame>) { forall f :: f in frames ==> f == Hello(v) || Idle(f) }

  predicate Receivable(v: int, frames: seq<Frame>) {
    forall f :: f in frames ==> f == Hello(v) || Idle(f) || f.PartnerReconnected?
  }

  /** A client that is not at the relay: it has sent its join at most. */
  predicate Away(x: End) {
    && !x.arrived && x.down == [] && !x.c.joined && !x.c.helloSent && !x.c.helloReceived
    && ((x.c.state == Init && x.up == []) || (x.c.state == JoinSent && x.up == [Join("", "")]))
  }

  /** A client that waits for its first partner. */
  predicate Waits(x: End) {
    x.arrived && x.c.state == JoinSent && x.up == x.down == [] && !x.c.joined && !x.c.helloSent && !x.c.helloReceived
  }

  /** A client of a pair: its flags tell its state, and `joined` comes first on its link. */
  predicate Told(x: End) {
    && x.arrived && x.c.helloSent == x.c.joined && Sendable(x.c.version, x.up)
    && if x.c.joined then
         x.c.state == (if x.c.helloReceived then Established else HelloSent) && Receivable(x.c.version, x.down)
       else
         && x.c.state == JoinSent && !x.c.helloReceived && x.up == []
         && x.down != [] && x.down[0] == Joined && Receivable(x.c.version, x.down[1..])
  }

  predicate EndOk(x: End, met: bool) { if !x.arrived then Away(x) else if met then Told(x) else Waits(x) }

  function Heard(x: End, y: End): Option<bool> { Hears(x.c.helloReceived, Coming(x, y)) }

  /** What is on its way is taken, and ends with the partner's hello. */
  predicate Fine(x: End, y: End) { Heard(x, y) == Some(true) }

  predicate Good(l: Line) {
    && l.a.c.version == l.b.c.version && EndOk(l.a, l.met) && EndOk(l.b, l.met)
    && (l.a.arrived && l.b.arrived ==> l.met && Fine(l.a, l.b) && Fine(l.b, l.a))
    && (l.met && l.a.arrived ==> Hears(l.a.c.helloReceived, l.a.down).Some?)
    && (l.met && l.b.arrived ==> Hears(l.b.c.helloReceived, l.b.down).Some?)
  }

  /** The hello that `y` has said last is off its link, and it is not going to say another one. */
  predicate Clear(y: End) { (forall f :: f in y.up ==> !f.Hello?) && forall f :: f in y.down ==> !Calls(f) }

  // ------------------------------------------------------------------ steps

  /** The end after it has handled the first frame on its link. */
  function Handled(x: End): End
    requires x.down != []
  {
    Handshakes.Sent(x.(down := x.down[1..]), Handling(x.c, x.down[0], true))
  }

  /** Handling fails on a second hello only, and is answered by a hello exactly where one is called for. */
  lemma HandledSo(x: End)
    requires Told(x) && x.down != []
    ensures var f, x' := x.down[0], Handled(x);
      var h := Hears(x.c.helloReceived, [f]);
      var out := x'.up[|x.up|..];
      && x'.down == x.down[1..] && x'.c.version == x.c.version && x'.arrived && x.up <= x'.up
      && (h.None? ==> Ended(x'.c) && x'.up == x.up)
      && (h.Some? ==> Told(x') && x'.c.helloReceived == h.value)
      && (out == Replies(x.c.version, [f]) || (Replies(x.c.version, [f]) == [] && |out| == 1 && Idle(out[0])))
  {
    var f := x.down[0];
    FrontFrame(x);
    Answers(x.c, f);
    hide Hears, Replies, Handling, Told, Receivable, Sendable;
    HearsOne(x.c.helloReceived, f);
    RepliesOne(x.c.version, f);
    var out := Handling(x.c, f, true).out;
    assert (x.up + out)[|x.up|..] == out && x.up <= x.up + out;
    assert x.up + [] == x.up;
    if Hears(x.c.helloReceived, [f]).Some? {
      HandledTold(x);
    }
  }

  /** What can be at the front of a client's link. */
  lemma FrontFrame(x: End)
    requires Told(x) && x.down != []
    ensures x.arrived && x.c.helloSent == x.c.joined && Sendable(x.c.version, x.up) && Receivable(x.c.version, x.down[1..])
    ensures var f, c := x.down[0], x.c;
      if c.joined then
        c.state == (if c.helloReceived then Established else HelloSent)
        && (f == Hello(c.version) || Idle(f) || f.PartnerReconnected?)
      else c.state == JoinSent && !c.helloReceived && f == Joined
  {
    assert x.c.joined ==> x.down[0] in x.down;
    assert forall g :: g in x.down[1..] ==> g in x.down;
  }

  lemma HandledTold(x: End)
    requires Told(x) && x.down != [] && !(x.down[0].Hello? && x.c.helloReceived)
    ensures Told(Handled(x))
  {
    FrontFrame(x);
    Answers(x.c, x.down[0]);
    hide Handling, Receivable;
    var out := Handling(x.c, x.down[0], true).out;
    assert forall g :: g in x.up + out <==> g in x.up || g in out;
    assert forall g :: g in out ==> g == Hello(x.c.version) || g == Pong;
  }

  /** The same of the client alone. */
  lemma Answers(c: Client, f: Frame)
    requires c.helloSent == c.joined
    requires if c.joined then
               c.state == (if c.helloReceived then Established else HelloSent)
               && (f == Hello(c.version) || Idle(f) || f.PartnerReconnected?)
             else c.state == JoinSent && !c.helloReceived && f == Joined
    ensures var e := Handling(c, f, true);
      && e.c.version == c.version
      && (f.Hello? && c.helloReceived ==> Ended(e.c))
      && (!(f.Hello? && c.helloReceived) ==>
            && e.c.joined && e.c.helloSent && e.c.helloReceived == (!f.PartnerReconnected? && (c.helloReceived || f.Hello?))
            && e.c.state == if e.c.helloReceived then Established else HelloSent)
      && e.out == if Calls(f) then [Hello(c.version)] else if f.Ping? then [Pong] else []
  {
  }

  /** What comes to a client that has handled a frame, and what comes from it. */
  lemma HandledStreams(x: End, y: End)
    requires Told(x) && x.down != []
    ensures var x' := Handled(x);
      && (!Ended(x'.c) ==> Heard(x', y) == Heard(x, y))
      && (Ended(x'.c) ==> Heard(x, y) == None)
      && Heard(y, x') == Heard(y, x)
      && (!Ended(x'.c) ==> Told(x') && Hears(x'.c.helloReceived, x'.down) == Hears(x.c.helloReceived, x.down))
      && (Ended(x'.c) ==> Hears(x.c.helloReceived, x.down) == None)
  {
    hide Hears, Replies, Handled, Told;
    HandledSo(x);
    var f, x', v := x.down[0], Handled(x), x.c.version;
    TakenHeard(x, y, f);
    var rest := x.down[1..];
    assert x.down == [f] + rest;
    RepliesAppend(v, [f], rest);
    var out := x'.up[|x.up|..];
    assert x'.up == x.up + out;
    var s, t := y.down + x.up, Replies(v, rest);
    assert Coming(y, x) == s + (Replies(v, [f]) + t);
    assert Coming(y, x') == s + out + t;
    if out == Replies(v, [f]) {
      assert s + (out + t) == s + out + t;
    } else {
      assert out == [out[0]] && [] + t == t;
      HearsPast(y.c.helloReceived, s, out[0], t);
    }
    ToldLives(x');
  }

  lemma ToldLives(x: End)
    ensures Told(x) ==> !Ended(x.c)
  {
  }

  lemma TakenHeard(x: End, y: End, f: Frame)
    requires x.down != [] && f == x.down[0]
    ensures var h := Hears(x.c.helloReceived, [f]);
      && Heard(x, y) == (if h.Some? then Hears(h.value, x.down[1..] + y.up + Replies(y.c.version, y.down)) else None)
      && Hears(x.c.helloReceived, x.down) == if h.Some? then Hears(h.value, x.down[1..]) else None
  {
    hide Hears, Replies;
    var rest := x.down[1..] + y.up + Replies(y.c.version, y.down);
    assert x.down == [f] + x.down[1..];
    assert Coming(x, y) == [f] + rest;
    HearsAppend(x.c.helloReceived, [f], rest);
    HearsAppend(x.c.helloReceived, [f], x.down[1..]);
  }

  lemma DeliverKeeps(l: Line)
    requires Good(l)
    ensures Good(Act(l, Does(Handshakes.Deliver)))
  {
    hide Told, Heard, Hears, Handled;
    var l' := Act(l, Does(Handshakes.Deliver));
    if l.a.down != [] && !Ended(l.a.c) {
      assert l.a.arrived && l.met;
      assert l' == l.(a := Handled(l.a)) by { DeliverSo(l); }
      HandledSo(l.a);
      HandledStreams(l.a, l.b);
    } else {
      assert l' == l;
    }
  }

  lemma DeliverSo(l: Line)
    requires l.a.down != [] && !Ended(l.a.c)
    ensures Act(l, Does(Handshakes.Deliver)).a == Handled(l.a) && Act(l, Does(Handshakes.Deliver)).b == l.b
    ensures Act(l, Does(Handshakes.Deliver)).met == (l.met || (l.a.arrived && l.b.arrived))
  {
    hide Handling;
  }

  /** An idle frame goes into a link. */
  lemma SendKeeps(l: Line, f: Frame, x: End)
    requires Good(l) && l.met && l.a.arrived && l.a.c.joined && Idle(f) && x.c == l.a.c && x.arrived
    requires x.down == l.a.down && x.up == l.a.up + [f]
    ensures Good(l.(a := x))
  {
    assert Told(x);
    hide Hears, Told;
    SentHeard(l.a, l.b, f, x);
  }

  lemma SentHeard(x: End, y: End, f: Frame, x': End)
    requires Idle(f) && x'.c == x.c && x'.down == x.down && x'.up == x.up + [f]
    ensures Heard(y, x') == Heard(y, x) && Heard(x', y) == Heard(x, y)
  {
    hide Hears, Replies;
    var s, t := y.down + x.up, Replies(x.c.version, x.down);
    assert Coming(y, x) == s + t && Coming(y, x') == s + [f] + t;
    HearsPast(y.c.helloReceived, s, f, t);
    assert Coming(x', y) == Coming(x, y);
  }

  lemma OfferKeeps(l: Line, body: Body)
    requires Good(l)
    ensures Good(Act(l, Does(Handshakes.Offer(body))))
  {
    var l' := Act(l, Does(Handshakes.Offer(body)));
    if l.a.c.state == Established {
      SendKeeps(l, Data(body), l'.a);
    } else {
      assert l.a.up + [] == l.a.up && l.a.got + [] == l.a.got;
      SameLinks(l, l');
    }
  }

  lemma HeartbeatKeeps(l: Line)
    requires Good(l)
    ensures Good(Act(l, Does(Handshakes.Heartbeat)))
  {
    var l' := Act(l, Does(Handshakes.Heartbeat));
    if l.a.c.state in {Established, HelloSent} {
      SendKeeps(l, Ping, l'.a);
    } else {
      assert l' == l;
    }
  }

  /** Nothing but the bookkeeping of data has changed. */
  lemma SameLinks(l: Line, l': Line)
    requires Good(l) && l'.b == l.b && l'.met == l.met && l'.a.c == l.a.c && l'.a.arrived == l.a.arrived
    requires l'.a.up == l.a.up && l'.a.down == l.a.down
    ensures Good(l')
  {
    hide Hears, Replies;
    assert Coming(l'.a, l'.b) == Coming(l.a, l.b) && Coming(l'.b, l'.a) == Coming(l.b, l.a);
  }

  /** The relay passes a frame on, or throws it away while nobody is there. */
  lemma ForwardKeeps(l: Line)
    requires Good(l)
    ensures Good(Act(l, Does(Handshakes.Forward)))
  {
    var l' := Act(l, Does(Handshakes.Forward));
    if l.a.up != [] && l.a.arrived {
      var f, rest := l.a.up[0], l.a.up[1..];
      assert l.a.up == [f] + rest && f in l.a.up;
      assert forall g :: g in rest ==> g in l.a.up;
      if l.b.arrived {
        Passed(l.b, f);
        assert Told(l'.a);
        hide Hears, Told;
        PassedHeard(l.a, l.b);
        FrontHeard(l'.b, l'.a);
      }
    }
  }

  lemma PassedHeard(x: End, y: End)
    requires x.up != [] && !Calls(x.up[0])
    ensures var x', y' := x.(up := x.up[1..]), y.(down := y.down + [x.up[0]]);
      Heard(x', y') == Heard(x, y) && Heard(y', x') == Heard(y, x)
  {
    hide Hears, Replies;
    var f := x.up[0];
    var x', y' := x.(up := x.up[1..]), y.(down := y.down + [f]);
    RepliesAppend(y.c.version, y.down, [f]);
    RepliesOne(y.c.version, f);
    assert x.up == [f] + x'.up;
    assert Coming(y', x') == Coming(y, x) && Coming(x', y') == Coming(x, y);
  }

  lemma FrontHeard(x: End, y: End)
    ensures Heard(x, y).Some? ==> Hears(x.c.helloReceived, x.down).Some?
  {
    hide Hears;
    var more := y.up + Replies(y.c.version, y.down);
    assert Coming(x, y) == x.down + more;
    HearsAppend(x.c.helloReceived, x.down, more);
  }

  lemma Passed(x: End, f: Frame)
    requires Told(x) && (f == Hello(x.c.version) || Idle(f))
    ensures Told(x.(down := x.down + [f]))
  {
    if !x.c.joined {
      assert (x.down + [f])[1..] == x.down[1..] + [f];
    }
  }

  lemma DropKeeps(l: Line)
    requires Good(l)
    ensures Good(Act(l, Drop))
  {
  }

  lemma StartKeeps(l: Line)
    requires Good(l)
    ensures Good(Act(l, Does(Handshakes.Start)))
  {
    if l.a.c.state == Init {
      assert [] + [Join("", "")] == [Join("", "")];
    }
  }

  /** The first time, both are told that they have joined, and nothing else is on their links. */
  lemma PairKeeps(l: Line)
    requires Good(l) && !l.met
    ensures Good(Act(l, Does(Handshakes.Arrive)))
  {
    var l' := Act(l, Does(Handshakes.Arrive));
    if !l.a.arrived && l.a.up != [] {
      assert l.a.up[1..] == [];
      if l.b.arrived {
        NewlyTold(l'.a);
        NewlyTold(l'.b);
        FirstHello(l'.a, l'.b);
        FirstHello(l'.b, l'.a);
      }
    }
  }

  lemma NewlyTold(x: End)
    requires x.arrived && x.down == [Joined] && x.up == [] && x.c.state == JoinSent
    requires !x.c.joined && !x.c.helloSent && !x.c.helloReceived
    ensures Told(x) && Hears(false, x.down) == Some(false)
  {
    assert [Joined][1..] == [];
  }

  lemma FirstHello(x: End, y: End)
    requires x.down == y.down == [Joined] && y.up == [] && !x.c.helloReceived
    ensures Fine(x, y)
  {
    hide Hears, Replies;
    var hello := Hello(y.c.version);
    RepliesOne(y.c.version, Joined);
    assert Coming(x, y) == [Joined] + [hello];
    HearsAppend(false, [Joined], [hello]);
    HearsOne(false, Joined);
    HearsOne(false, hello);
  }

  // --------------------------------------------------------------- returning

  /** A stream of sent frames leaves a client without its partner's hello exactly if none is in it. */
  lemma {:induction false} HearsSent(v: int, frames: seq<Frame>)
    requires Sendable(v, frames)
    ensures Hears(false, frames) == Some(false) <==> forall f :: f in frames ==> !f.Hello?
    ensures (Hears(true, frames) == if forall f :: f in frames ==> !f.Hello? then Some(true) else None)
    ensures Hears(false, frames) != Some(false) ==> Hears(false, frames) in {None, Some(true)}
    decreases |frames|
  {
    if frames != [] {
      assert frames[0] in frames;
      assert forall f :: f in frames <==> f == frames[0] || f in frames[1..];
      HearsSent(v, frames[1..]);
    }
  }

  lemma {:induction false} RepliesCalled(v: int, frames: seq<Frame>)
    ensures Sendable(v, Replies(v, frames))
    ensures (forall f :: f in Replies(v, frames) ==> !f.Hello?) <==> forall f :: f in frames ==> !Calls(f)
    decreases |frames|
  {
    if frames != [] {
      RepliesCalled(v, frames[1..]);
      assert forall f :: f in frames <==> f == frames[0] || f in frames[1..];
      var first := if Calls(frames[0]) then [Hello(v)] else [];
      assert forall f :: f in Replies(v, frames) <==> f in first || f in Replies(v, frames[1..]);
      assert Calls(frames[0]) ==> Hello(v) in first;
    }
  }

  /** What the client that returns is going to hear from its partner. */
  lemma ReturnHears(l: Line)
    requires Good(l) && Returns(l, Does(Handshakes.Arrive)) && l.b.arrived
    ensures Heard(Return(l).a, Return(l).b) == if Clear(l.b) then Some(true) else None
  {
    hide Hears, Replies;
    var l', v := Return(l), l.b.c.version;
    var s := l.b.up + Replies(v, l.b.down);
    assert [] + [Joined] == [Joined];
    var news := PartnerReconnected(l.a.up[0].peerId);
    RepliesAppend(v, l.b.down, [news]);
    RepliesOne(v, news);
    assert Coming(l'.a, l'.b) == [Joined] + (s + [Hello(v)]);
    HearsAppend(false, [Joined], s + [Hello(v)]);
    HearsOne(false, Joined);
    HearsAppend(false, s, [Hello(v)]);
    RepliesCalled(v, l.b.down);
    HearsSent(v, s);
    if Hears(false, s).Some? {
      HearsOne(Hears(false, s).value, Hello(v));
    }
    assert (forall f :: f in s ==> !f.Hello?) <==> Clear(l.b) by {
      assert forall f :: f in s <==> f in l.b.up || f in Replies(v, l.b.down);
    }
  }

  /** What its partner is going to hear. */
  lemma PartnerHears(l: Line)
    requires Good(l) && Returns(l, Does(Handshakes.Arrive)) && l.b.arrived
    ensures var l' := Return(l); Fine(l'.b, l'.a) && Hears(l'.b.c.helloReceived, l'.b.down).Some?
  {
    hide Hears, Replies;
    var l', v, got := Return(l), l.a.c.version, l.b.c.helloReceived;
    var news := PartnerReconnected(l.a.up[0].peerId);
    assert [] + [Joined] == [Joined] && l.a.up[1..] == [];
    RepliesOne(v, Joined);
    assert Coming(l'.b, l'.a) == l.b.down + ([news] + [Hello(v)]);
    HearsAppend(got, l.b.down, [news] + [Hello(v)]);
    HearsAppend(got, l.b.down, [news]);
    HearsAppend(Hears(got, l.b.down).value, [news], [Hello(v)]);
    HearsOne(Hears(got, l.b.down).value, news);
    HearsOne(false, Hello(v));
  }

  /**
   * A return goes well if and only if the partner's last hello is off its link to the relay and it has handled every
   * frame that makes it say another: otherwise the client that returns is going to get two.
   */
  lemma ReturnIff(l: Line)
    requires Good(l) && Returns(l, Does(Handshakes.Arrive)) && l.b.arrived
    ensures Good(Return(l)) <==> Clear(l.b)
  {
    hide Heard, Hears, Told;
    ReturnHears(l);
    PartnerHears(l);
    ReturnTold(l);
  }

  lemma ReturnTold(l: Line)
    requires Good(l) && Returns(l, Does(Handshakes.Arrive))
    ensures var l' := Return(l); Told(l'.a) && Hears(false, l'.a.down) == Some(false) && (l.b.arrived ==> Told(l'.b))
  {
    assert [] + [Joined] == [Joined] && l.a.up[1..] == [];
    NewlyTold(Return(l).a);
    if l.b.arrived && !l.b.c.joined {
      var news := [PartnerReconnected(l.a.up[0].peerId)];
      assert (l.b.down + news)[1..] == l.b.down[1..] + news;
    }
  }

  lemma ArriveKeeps(l: Line)
    requires Good(l) && (Returns(l, Does(Handshakes.Arrive)) && l.b.arrived ==> Clear(l.b))
    ensures Good(Act(l, Does(Handshakes.Arrive)))
  {
    if Returns(l, Does(Handshakes.Arrive)) {
      if l.b.arrived {
        ReturnIff(l);
      } else {
        ReturnTold(l);
      }
    } else if !l.met {
      PairKeeps(l);
    }
  }

  lemma ActKeeps(l: Line, act: Action)
    requires Good(l) && (Returns(l, act) && l.b.arrived ==> Clear(l.b))
    ensures Good(Act(l, act))
  {
    hide Good, Returns, Clear;
    match act
    case Drop => DropKeeps(l);
    case Does(h) =>
      match h
      case Start => StartKeeps(l);
      case Arrive => ArriveKeeps(l);
      case Forward => ForwardKeeps(l);
      case Deliver => DeliverKeeps(l);
      case Offer(body) => OfferKeeps(l, body);
      case Heartbeat => HeartbeatKeeps(l);
  }

  // ------------------------------------------------------------------- runs

  lemma MirroredGood(l: Line)
    ensures Good(Mirrored(l)) <==> Good(l)
  {
    hide Told, Heard, Hears;
  }

  function Seen(l: Line, step: Step): Line { if step.left then l else Mirrored(l) }

  /** The step brings a client back to a partner that is there but not ready for it. */
  predicate TooEarly(l: Line, step: Step) {
    var m := Seen(l, step);
    Returns(m, step.act) && m.b.arrived && !Clear(m.b)
  }

  ghost predicate Timely(l: Line, steps: seq<Step>)
    decreases |steps|
  {
    steps == [] || (!TooEarly(l, steps[0]) && Timely(Take(l, steps[0]), steps[1..]))
  }

  lemma TakeKeeps(l: Line, step: Step)
    requires Good(l) && !TooEarly(l, step)
    ensures Good(Take(l, step))
  {
    hide Good, Act, Clear, Returns;
    MirroredGood(l);
    ActKeeps(Seen(l, step), step.act);
    MirroredGood(Act(Mirrored(l), step.act));
  }

  lemma {:induction false} RunKeeps(l: Line, steps: seq<Step>)
    requires Good(l) && Timely(l, steps)
    ensures Good(Run(l, steps))
    decreases |steps|
  {
    hide Good, Take, TooEarly;
    if steps != [] {
      TakeKeeps(l, steps[0]);
      RunKeeps(Take(l, steps[0]), steps[1..]);
    }
  }

  /** Both clients are at the relay, and nothing is on any link. */
  predicate Drained(l: Line) {
    l.a.arrived && l.b.arrived && l.a.up == l.a.down == l.b.up == l.b.down == []
  }

  /**
   * Over every run in which clients drop and return as often as they like, but to a partner that is ready: no client
   * fails, and whenever both are there and the links are empty, both are established.
   */
  lemma RejoinSafe(version: int, ra: bool, rb: bool, steps: seq<Step>)
    requires Timely(Begin(version, ra, rb), steps)
    ensures var l := Run(Begin(version, ra, rb), steps);
      && !Ended(l.a.c) && !Ended(l.b.c)
      && (Drained(l) ==> l.a.c.state == l.b.c.state == Established)
  {
    hide Run, Timely;
    RunKeeps(Begin(version, ra, rb), steps);
  }

  /** The client has its partner's hello, and no news of a new one waits for it. */
  predicate Acquainted(x: End) { x.c.helloReceived && forall f :: f in x.down ==> !f.PartnerReconnected? }

  /** A client that drops leaves its partner there, and has been acquainted with it, if it has ever been paired. */
  predicate Leaves(l: Line, step: Step) {
    var m := Seen(l, step);
    step.act == Drop && m.met ==> m.b.arrived && m.a.arrived && Acquainted(m.a)
  }

  ghost predicate AcquaintedDrops(l: Line, steps: seq<Step>)
    decreases |steps|
  {
    steps == [] || (Leaves(l, steps[0]) && AcquaintedDrops(Take(l, steps[0]), steps[1..]))
  }

  /** A partner that is alone is ready for the other's return. */
  predicate Ready(l: Line) {
    && Good(l)
    && (l.met ==> l.a.arrived || l.b.arrived)
    && (l.met && l.a.arrived && !l.b.arrived ==> Clear(l.a))
    && (l.met && l.b.arrived && !l.a.arrived ==> Clear(l.b))
  }

  /** A client that has its partner's hello gets no other: the partner has none on its link, and says none. */
  lemma {:induction false} NoSecond(frames: seq<Frame>)
    requires Hears(true, frames).Some? && forall f :: f in frames ==> !f.PartnerReconnected?
    ensures forall f :: f in frames ==> !f.Hello?
    decreases |frames|
  {
    if frames != [] {
      assert frames[0] in frames;
      assert forall f :: f in frames <==> f == frames[0] || f in frames[1..];
      NoSecond(frames[1..]);
    }
  }

  lemma AcquaintedClear(l: Line)
    requires Good(l) && l.a.arrived && l.b.arrived && Acquainted(l.a)
    ensures Clear(l.b)
  {
    hide Hears, Replies;
    var v := l.b.c.version;
    var all := Coming(l.a, l.b);
    RepliesCalled(v, l.b.down);
    assert forall f :: f in all <==> f in l.a.down || f in l.b.up || f in Replies(v, l.b.down);
    NoSecond(all);
  }

  /** A lone partner stays ready: it is not told anything, and says no hello. */
  lemma LoneStays(l: Line, act: Action)
    requires Good(l) && l.met && l.a.arrived && !l.b.arrived && Clear(l.a) && act != Drop
    ensures Act(l, act).met && Act(l, act).a.arrived && !Act(l, act).b.arrived && Clear(Act(l, act).a)
  {
    hide Good, Hears;
    assert Told(l.a) by { GoodTold(l); }
    var x := Act(l, act).a;
    if act == Does(Handshakes.Deliver) && l.a.down != [] {
      assert l.a.down[0] in l.a.down;
      assert forall f :: f in l.a.down[1..] ==> f in l.a.down;
      assert x.up == l.a.up + Handling(l.a.c, l.a.down[0], true).out;
    } else if act == Does(Handshakes.Forward) && l.a.up != [] {
      assert forall f :: f in l.a.up[1..] ==> f in l.a.up;
    }
  }

  lemma GoodTold(l: Line)
    requires Good(l) && l.met && l.a.arrived
    ensures Told(l.a)
  {
  }

  /** The one that is away does not touch its partner until it returns. */
  lemma AbsentStays(l: Line, act: Action)
    requires Good(l) && l.met && !l.a.arrived && l.b.arrived && act != Drop
    ensures var l' := Act(l, act);
      l'.met && l'.b.arrived && (l'.a.arrived <==> Returns(l, act)) && (!l'.a.arrived ==> l'.b == l.b)
  {
    hide Hears;
  }

  lemma PairStays(l: Line, act: Action)
    requires Good(l) && l.a.arrived && l.b.arrived && act != Drop
    ensures Act(l, act).a.arrived && Act(l, act).b.arrived
  {
    hide Hears, Handling;
  }

  lemma UnmetStays(l: Line, act: Action)
    requires Good(l) && !l.met
    ensures var l' := Act(l, act); l'.met ==> l'.a.arrived && l'.b.arrived
  {
    hide Hears, Handling;
  }

  lemma ActReady(l: Line, act: Action)
    requires Ready(l) && Leaves(l, Step(true, act))
    ensures !TooEarly(l, Step(true, act)) && Ready(Act(l, act))
  {
    hide Good, Act, Clear, Acquainted, Returns;
    ReturnsAway(l, act);
    ActKeeps(l, act);
    if !l.met {
      UnmetStays(l, act);
    } else if act == Drop {
      AcquaintedClear(l);
      DropLeaves(l);
    } else if l.a.arrived && l.b.arrived {
      PairStays(l, act);
    } else if l.a.arrived {
      LoneStays(l, act);
    } else {
      AbsentStays(l, act);
    }
  }

  lemma ReturnsAway(l: Line, act: Action)
    ensures Returns(l, act) ==> l.met && !l.a.arrived
  {
  }

  lemma DropLeaves(l: Line)
    ensures Act(l, Drop).b == l.b && !Act(l, Drop).a.arrived && Act(l, Drop).met == l.met
  {
  }

  lemma MirroredReady(l: Line)
    ensures Ready(Mirrored(l)) <==> Ready(l)
  {
    hide Good, Clear;
    MirroredGood(l);
  }

  lemma {:induction false} AcquaintedRun(l: Line, steps: seq<Step>)
    requires Ready(l) && AcquaintedDrops(l, steps)
    ensures Timely(l, steps)
    decreases |steps|
  {
    hide Ready, Act, Leaves, TooEarly;
    if steps != [] {
      var m := Seen(l, steps[0]);
      MirroredReady(l);
      SeenOnce(l, steps[0]);
      ActReady(m, steps[0].act);
      MirroredReady(Act(m, steps[0].act));
      AcquaintedRun(Take(l, steps[0]), steps[1..]);
    }
  }

  lemma SeenOnce(l: Line, step: Step)
    ensures Leaves(Seen(l, step), Step(true, step.act)) == Leaves(l, step)
    ensures TooEarly(Seen(l, step), Step(true, step.act)) == TooEarly(l, step)
  {
  }

  /**
   * So it is enough that no client drops before it has its partner's hello, or while its partner is away: then every
   * return is in time, nobody fails, and both are established again when the links are empty.
   */
  lemma AcquaintedSafe(version: int, ra: bool, rb: bool, steps: seq<Step>)
    requires AcquaintedDrops(Begin(version, ra, rb), steps)
    ensures var l := Run(Begin(version, ra, rb), steps);
      && !Ended(l.a.c) && !Ended(l.b.c)
      && (Drained(l) ==> l.a.c.state == l.b.c.state == Established)
  {
    hide Run, Timely, AcquaintedDrops;
    AcquaintedRun(Begin(version, ra, rb), steps);
    RejoinSafe(version, ra, rb, steps);
  }

  // -------------------------------------------------------------- too early

  /** `a` is going to get a second hello, or has got it; `b` takes all it gets. */
  predicate Doomed(l: Line) {
    && l.met && l.a.arrived && l.b.arrived && l.a.c.version == l.b.c.version
    && Told(l.b) && Heard(l.b, l.a).Some? && Sendable(l.a.c.version, l.a.up)
    && (Ended(l.a.c) || (Told(l.a) && Heard(l.a, l.b) == None))
  }

  lemma DoomedSends(l: Line, act: Action)
    requires Doomed(l) && act != Drop
    ensures Doomed(Act(l, act))
  {
    var l' := Act(l, act);
    assert l.a.up + [] == l.a.up && l.a.got + [] == l.a.got;
    if act.act.Deliver? && l.a.down != [] && !Ended(l.a.c) {
      hide Told, Heard, Hears, Handled;
      DeliverSo(l);
      HandledSo(l.a);
      HandledStreams(l.a, l.b);
      ToldSends(l'.a);
    } else if act.act.Forward? && l.a.up != [] {
      assert l.a.up[0] in l.a.up && forall f :: f in l.a.up[1..] ==> f in l.a.up;
      Passed(l.b, l.a.up[0]);
      assert Told(l.a) ==> Told(l'.a);
      hide Told, Heard;
      PassedHeard(l.a, l.b);
    } else if l'.a.up != l.a.up {
      assert l.a.c.state in {Established, HelloSent};
      var f := if act.act.Offer? then Data(act.act.body) else Ping;
      assert Told(l'.a);
      hide Told, Heard;
      SentHeard(l.a, l.b, f, l'.a);
    } else {
      assert l'.b == l.b && l'.a.c == l.a.c && l'.a.down == l.a.down && l'.met == l.met;
      hide Hears, Replies;
      assert Coming(l'.a, l'.b) == Coming(l.a, l.b) && Coming(l'.b, l'.a) == Coming(l.b, l.a);
    }
  }

  lemma ToldSends(x: End)
    ensures Told(x) ==> Sendable(x.c.version, x.up)
  {
  }

  /** The same for a step of the partner. */
  lemma DoomedPartner(l: Line, act: Action)
    requires Doomed(Mirrored(l)) && act != Drop
    ensures Doomed(Mirrored(Act(l, act)))
  {
    hide Hears, Replies;
    var l' := Act(l, act);
    assert l.a.up + [] == l.a.up && l.a.got + [] == l.a.got;
    if act.act.Deliver? && l.a.down != [] {
      hide Told, Heard, Handled;
      ToldLives(l.a);
      DeliverSo(l);
      HandledSo(l.a);
      HandledStreams(l.a, l.b);
    } else if act.act.Forward? && l.a.up != [] {
      assert l.a.up[0] in l.a.up && forall f :: f in l.a.up[1..] ==> f in l.a.up;
      assert Told(l'.a);
      if Told(l.b) {
        Passed(l.b, l.a.up[0]);
      }
      hide Told, Heard;
      PassedHeard(l.a, l.b);
    } else if l'.a.up != l.a.up {
      var f := if act.act.Offer? then Data(act.act.body) else Ping;
      assert Told(l'.a);
      hide Told, Heard;
      SentHeard(l.a, l.b, f, l'.a);
    } else {
      assert l'.b == l.b && l'.a.c == l.a.c && l'.a.down == l.a.down && l'.met == l.met;
      assert Coming(l'.a, l'.b) == Coming(l.a, l.b) && Coming(l'.b, l'.a) == Coming(l.b, l.a);
    }
  }

  ghost predicate NoDrops(steps: seq<Step>) { forall s :: s in steps ==> s.act != Drop }

  lemma {:induction false} DoomedRun(l: Line, steps: seq<Step>)
    requires Doomed(l) && NoDrops(steps)
    ensures Doomed(Run(l, steps))
    decreases |steps|
  {
    hide Doomed, Act;
    if steps != [] {
      assert steps[0] in steps && forall s :: s in steps[1..] ==> s in steps;
      if steps[0].left {
        DoomedSends(l, steps[0].act);
      } else {
        assert Mirrored(Mirrored(l)) == l;
        DoomedPartner(Mirrored(l), steps[0].act);
      }
      DoomedRun(Take(l, steps[0]), steps[1..]);
    }
  }

  /**
   * And if a client returns to a partner that is not ready, its handshake is lost: whatever happens then, short of another
   * drop, it fails before the links are empty.
   */
  lemma EarlyFails(l: Line, steps: seq<Step>)
    requires Good(l) && Returns(l, Does(Handshakes.Arrive)) && l.b.arrived && !Clear(l.b) && NoDrops(steps)
    ensures var l' := Run(Return(l), steps); Drained(l') ==> Ended(l'.a.c)
  {
    var l1 := Return(l);
    ReturnHears(l);
    PartnerHears(l);
    ReturnTold(l);
    assert Doomed(l1) by { hide Heard, Told; ToldSends(l1.a); }
    hide Run, Returns, Clear, Good, Told;
    DoomedRun(l1, steps);
  }
}
