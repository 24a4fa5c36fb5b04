/** One tick of bridge/bridge_core/sync_session.py, and the resynchronisation it sends over a run of ticks. */
module SyncSessions {
  import opened Wrappers
  import opened Bytes
  import opened Records
  import opened MapWriteGates
  import opened SyncEngines

  datatype Config = Config(mode: Mode, limit: Option<int>, threshold: nat, defer: bool, isRunning: Memory -> bool)

  /** What the pipe hands to the session during a tick. */
  datatype Incoming = Data(addr: Option<int>, value: Option<int>) | PartnerHello | Reconnected

  /** The outside of one tick: frames, pipe state, the running probe (`None` when it fails), and the snapshot read. */
  datatype Tick = Tick(incoming: seq<Incoming>, established: bool, probe: Option<bool>, env: Env, snapshot: Option<Memory>)

  datatype Session = Session(e: Engine, helloSent: bool)

  /** The data frames of a tick, in the order they are sent. */
  datatype Sent = Sent(hello: bool, resync: seq<Msg>, changes: seq<Msg>)

  const SILENT := Sent(false, [], [])

  function OnIncoming(mode: Mode, s: Session, i: Incoming, env: Env): Session {
    match i
    case Data(addr, value) =>
      if addr.None? || value.None? then s else s.(e := Handle(mode, s.e, Msg(addr.value, value.value), true, false, env).0)
    case PartnerHello => s
    case Reconnected => Session(Resync(s.e), false)
  }

  function OnAll(mode: Mode, s: Session, incoming: seq<Incoming>, env: Env): Session
    decreases |incoming|
  {
    if incoming == [] then s else OnAll(mode, OnIncoming(mode, s, incoming[0], env), incoming[1..], env)
  }

  /** The end of a tick, on a snapshot: first poll, sleepers, changes, in this order. */
  function Poll(c: Config, e: Engine, env: Env, snapshot: Memory): (Engine, seq<Msg>, seq<Msg>)
    requires c.mode.Valid()
  {
    if ImplausibleSnapshot(c.mode, snapshot) then (e, [], [])
    else if !c.isRunning(snapshot) then (NotRunning(e, c.threshold).0, [], [])
    else
      var (e1, first) := CheckFirstRunning(c.mode, e.(idleTicks := 0), c.limit, snapshot);
      var (e2, out) := Diff(c.mode, DrainSleep(c.mode, e1, env), snapshot);
      (e2, first, out)
  }

  function GateBacklog(e: Engine): nat { if e.gate.Some? then |e.gate.value.pending| else 0 }

  function Synced(c: Config, e: Engine, t: Tick): (Engine, seq<Msg>, seq<Msg>)
    requires c.mode.Valid()
  {
    if t.probe.None? then (e, [], [])
    else if !t.probe.value then (NotRunning(e, c.threshold).0, [], [])
    else
      var e1 := DrainGate(c.mode, e, t.env);
      if (c.defer && GateBacklog(e1) > 0) || e1.resync != [] then
        var (e2, chunk) := DrainResync(e1, c.limit);
        (e2, chunk, [])
      else if t.snapshot.None? then (e1, [], [])
      else Poll(c, e1, t.env, t.snapshot.value)
  }

  /** `tick_once`. */
  function AfterTick(c: Config, s: Session, t: Tick): (Session, Sent)
    requires c.mode.Valid()
  {
    var s1 := OnAll(c.mode, s, t.incoming, t.env);
    if !t.established then (s1, SILENT)
    else
      var (e, resync, changes) := Synced(c, s1.e, t);
      (Session(e, true), Sent(!s1.helloSent, resync, changes))
  }

  // ------------------------------------------------------------------ class

  class SyncSession {
    const engine: SyncEngine
    const defer: bool
    const isRunning: Memory -> bool
    var appHelloSent: bool

    function Settings(): Config { Config(engine.mode, engine.resyncLimit, engine.pauseThreshold, defer, isRunning) }

    function View(): Session
      reads this, engine, engine.endpoint, engine.mapWriteGate
    {
      Session(engine.View(), appHelloSent)
    }

    constructor (engine: SyncEngine, defer: bool, isRunning: Memory -> bool)
      ensures this.engine == engine && this.defer == defer && this.isRunning == isRunning
      ensures View() == Session(engine.View(), false)
    {
      this.engine, this.defer, this.isRunning := engine, defer, isRunning;
      appHelloSent := false;
    }

    /** `on_data` and `_on_partner_reconnected`. */
    method Take(i: Incoming, env: Env)
      requires engine.Valid()
      modifies this, engine, engine.endpoint, engine.mapWriteGate
      ensures engine.Valid() && View() == OnIncoming(engine.mode, old(View()), i, env)
    {
      match i
      case Data(addr, value) => var _ := engine.HandleTable(addr, value, true, false, env);
      case PartnerHello =>
      case Reconnected =>
        appHelloSent := false;
        engine.StartResync();
    }

    method PollSnapshot(env: Env, snapshot: Memory) returns (resync: seq<Msg>, changes: seq<Msg>)
      requires engine.Valid()
      modifies engine, engine.endpoint, engine.mapWriteGate
      ensures engine.Valid() && (engine.View(), resync, changes) == Poll(Settings(), old(engine.View()), env, snapshot)
    {
      resync, changes := [], [];
      if ImplausibleSnapshot(engine.mode, snapshot) {
        return;
      }
      if isRunning(snapshot) {
        engine.ObserveRunning();
        if !engine.didCache {
          resync := engine.FirstRunning(snapshot);
        }
        engine.DrainSleepQueue(env);
        changes := engine.DiffSnapshot(snapshot);
      } else {
        var _ := engine.ObserveNotRunning();
      }
    }

    method TickOnce(t: Tick) returns (sent: Sent)
      requires engine.Valid()
      modifies this, engine, engine.endpoint, engine.mapWriteGate
      ensures engine.Valid() && (View(), sent) == AfterTick(Settings(), old(View()), t)
    {
      var i := 0;
      assert t.incoming[0..] == t.incoming;
      while i < |t.incoming|
        invariant 0 <= i <= |t.incoming| && engine.Valid()
        invariant OnAll(engine.mode, View(), t.incoming[i..], t.env) == OnAll(engine.mode, old(View()), t.incoming, t.env)
      {
        assert t.incoming[i..][1..] == t.incoming[i + 1..];
        Take(t.incoming[i], t.env);
        i := i + 1;
      }
      sent := SILENT;
      if !t.established {
        return;
      }
      if !appHelloSent {
        sent := sent.(hello := true);
        appHelloSent := true;
      }
      if t.probe.None? {
        return;
      }
      if !t.probe.value {
        var _ := engine.ObserveNotRunning();
        return;
      }
      engine.DrainMapWriteGate(t.env);
      if defer && engine.mapWriteGate != null && engine.mapWriteGate.pending != [] {
        var chunk := engine.DrainResyncSendQueue();
        return sent.(resync := chunk);
      }
      if engine.resync != [] {
        var chunk := engine.DrainResyncSendQueue();
        return sent.(resync := chunk);
      }
      if t.snapshot.None? {
        return;
      }
      var resync, changes := PollSnapshot(t.env, t.snapshot.value);
      return Sent(sent.hello, resync, changes);
    }
  }

  // -------------------------------------------------- the resync of a run

  /** Updates and polls leave the resynchronisation alone. */
  predicate SameResync(e: Engine, e': Engine) {
    e'.resync == e.resync && e'.forceSend == e.forceSend && e'.didCache == e.didCache
  }

  lemma HandleSameResync(mode: Mode, e: Engine, m: Msg, queueAsleep: bool, bypassGate: bool, env: Env)
    ensures SameResync(e, Handle(mode, e, m, queueAsleep, bypassGate, env).0)
  {
    hide RecordChanged, Implausible, AfterEnqueue;
  }

  lemma {:induction false} HandleAllSameResync(mode: Mode, e: Engine, items: seq<Msg>, env: Env)
    ensures SameResync(e, HandleAll(mode, e, items, env))
    decreases |items|
  {
    hide Handle;
    if items != [] {
      HandleSameResync(mode, e, items[0], false, false, env);
      HandleAllSameResync(mode, Handle(mode, e, items[0], false, false, env).0, items[1..], env);
    }
  }

  lemma DrainGateSameResync(mode: Mode, e: Engine, env: Env)
    ensures SameResync(e, DrainGate(mode, e, env))
  {
    hide Handle;
    if e.gate.Some? && Due(e.gate.value, env.now) && env.running {
      var (g, item) := AfterPop(e.gate.value, env.now);
      HandleSameResync(mode, e.(gate := Some(g)), Msg(item.value.addr, item.value.value), false, true, env);
    }
  }

  predicate NoReconnect(t: Tick) { forall i :: i in t.incoming ==> !i.Reconnected? }

  lemma {:induction false} IncomingSameResync(mode: Mode, s: Session, incoming: seq<Incoming>, env: Env)
    requires forall i :: i in incoming ==> !i.Reconnected?
    ensures SameResync(s.e, OnAll(mode, s, incoming, env).e)
    decreases |incoming|
  {
    hide Handle;
    if incoming != [] {
      var i := incoming[0];
      assert i in incoming;
      if i.Data? && i.addr.Some? && i.value.Some? {
        HandleSameResync(mode, s.e, Msg(i.addr.value, i.value.value), true, false, env);
      }
      IncomingSameResync(mode, OnIncoming(mode, s, i, env), incoming[1..], env);
    }
  }

  /** A resynchronisation has been asked for, and the first running snapshot has not been seen. */
  predicate Armed(e: Engine) { e.forceSend && !e.didCache && e.resync == [] }

  /** Of the broadcast `all`, `sent` has gone out and the queue holds the rest; `force_send` says whether there is one. */
  predicate Resyncing(e: Engine, sent: seq<Msg>, all: seq<Msg>) {
    sent + e.resync == all && (e.forceSend <==> e.resync != [])
  }

  predicate WithinLimit(c: Config, chunk: seq<Msg>) {
    c.limit.Some? && c.limit.value > 0 ==> |chunk| <= c.limit.value
  }

  lemma ChunkKeeps(c: Config, e: Engine, sent: seq<Msg>, all: seq<Msg>)
    requires Resyncing(e, sent, all)
    ensures var (e', chunk) := DrainResync(e, c.limit);
      Resyncing(e', sent + chunk, all) && WithinLimit(c, chunk)
  {
    var (e', chunk) := DrainResync(e, c.limit);
    assert e.resync == chunk + e'.resync;
    assert sent + chunk + e'.resync == sent + (chunk + e'.resync);
  }

  lemma PollSameResync(c: Config, e: Engine, env: Env, snapshot: Memory)
    requires c.mode.Valid() && !ImplausibleSnapshot(c.mode, snapshot) && c.isRunning(snapshot)
    ensures var (e', first, _) := Poll(c, e, env, snapshot);
      var (e1, out) := CheckFirstRunning(c.mode, e.(idleTicks := 0), c.limit, snapshot);
      first == out && SameResync(e1, e')
  {
    hide CheckFirstRunning, ImplausibleSnapshot, HandleAll, PollAll;
    var e1 := CheckFirstRunning(c.mode, e.(idleTicks := 0), c.limit, snapshot).0;
    HandleAllSameResync(c.mode, e1.(sleep := []), e1.sleep, env);
  }

  /** The snapshot a tick polled, if it got as far as that. */
  predicate Polls(c: Config, t: Tick, snapshot: Memory)
    requires c.mode.Valid()
  {
    t.established && t.probe == Some(true) && t.snapshot == Some(snapshot)
    && !ImplausibleSnapshot(c.mode, snapshot) && c.isRunning(snapshot)
  }

  lemma SyncedKeeps(c: Config, e: Engine, t: Tick, sent: seq<Msg>, all: seq<Msg>)
    requires c.mode.Valid() && Resyncing(e, sent, all)
    ensures var (e', chunk, _) := Synced(c, e, t);
      Resyncing(e', sent + chunk, all) && WithinLimit(c, chunk)
  {
    hide DrainGate, ImplausibleSnapshot, Poll, GateBacklog;
    assert sent + [] == sent;
    var e1 := DrainGate(c.mode, e, t.env);
    DrainGateSameResync(c.mode, e, t.env);
    ChunkKeeps(c, e1, sent, all);
    if t.probe == Some(true) && t.snapshot.Some? && e1.resync == [] && !(c.defer && GateBacklog(e1) > 0) {
      PollKeeps(c, e1, t.env, t.snapshot.value);
    }
  }

  lemma PollKeeps(c: Config, e: Engine, env: Env, snapshot: Memory)
    requires c.mode.Valid() && e.resync == [] && !e.forceSend
    ensures var (e', chunk, _) := Poll(c, e, env, snapshot);
      e'.resync == [] && !e'.forceSend && chunk == []
  {
    hide ImplausibleSnapshot, DrainSleep, Diff;
    if !ImplausibleSnapshot(c.mode, snapshot) && c.isRunning(snapshot) {
      PollSameResync(c, e, env, snapshot);
    }
  }

  /** Once it is under way, every tick sends the next chunk of the broadcast or none of it. */
  lemma TickKeeps(c: Config, s: Session, t: Tick, sent: seq<Msg>, all: seq<Msg>)
    requires c.mode.Valid() && NoReconnect(t) && Resyncing(s.e, sent, all)
    ensures var (s', out) := AfterTick(c, s, t);
      Resyncing(s'.e, sent + out.resync, all) && WithinLimit(c, out.resync)
  {
    hide Synced, OnAll;
    IncomingSameResync(c.mode, s, t.incoming, t.env);
    assert sent + [] == sent;
    SyncedKeeps(c, OnAll(c.mode, s, t.incoming, t.env).e, t, sent, all);
  }

  /** A tick of the running game that deferral cuts short: the gate is left with something. */
  predicate Backlogged(c: Config, s: Session, t: Tick) {
    c.defer && t.established && t.probe == Some(true)
    && GateBacklog(DrainGate(c.mode, OnAll(c.mode, s, t.incoming, t.env).e, t.env)) > 0
  }

  /** An armed engine stays armed, or polls a running snapshot and starts sending exactly its broadcast. */
  lemma TickStarts(c: Config, s: Session, t: Tick)
    requires c.mode.Valid() && NoReconnect(t) && !Backlogged(c, s, t) && Armed(s.e)
    ensures var (s', out) := AfterTick(c, s, t);
      if t.snapshot.Some? && Polls(c, t, t.snapshot.value) then
        Resyncing(s'.e, out.resync, Broadcast(c.mode, t.snapshot.value, c.mode.order)) && WithinLimit(c, out.resync)
      else Armed(s'.e) && out.resync == []
  {
    hide DrainGate, OnAll, ImplausibleSnapshot, Broadcast, DrainSleep, Diff, FillCache, GateBacklog;
    IncomingSameResync(c.mode, s, t.incoming, t.env);
    var e := OnAll(c.mode, s, t.incoming, t.env).e;
    DrainGateSameResync(c.mode, e, t.env);
    var e1 := DrainGate(c.mode, e, t.env);
    if t.snapshot.Some? && Polls(c, t, t.snapshot.value) {
      PollSameResync(c, e1, t.env, t.snapshot.value);
      FirstStarts(c, e1.(idleTicks := 0), t.snapshot.value);
    }
  }

  /** Cut short, it disarms the engine. */
  lemma TickDisarms(c: Config, s: Session, t: Tick)
    requires c.mode.Valid() && NoReconnect(t) && Backlogged(c, s, t) && Armed(s.e)
    ensures var (s', out) := AfterTick(c, s, t);
      out.resync == [] && s'.e.resync == [] && !s'.e.forceSend
  {
    hide DrainGate, OnAll, GateBacklog, Poll;
    IncomingSameResync(c.mode, s, t.incoming, t.env);
    DrainGateSameResync(c.mode, OnAll(c.mode, s, t.incoming, t.env).e, t.env);
  }

  lemma FirstStarts(c: Config, e: Engine, snapshot: Memory)
    requires c.mode.Valid() && Armed(e) && !ImplausibleSnapshot(c.mode, snapshot)
    ensures var (e', out) := CheckFirstRunning(c.mode, e, c.limit, snapshot);
      Resyncing(e', out, Broadcast(c.mode, snapshot, c.mode.order)) && WithinLimit(c, out)
  {
    hide Broadcast, FillCache, ImplausibleSnapshot;
    var all := Broadcast(c.mode, snapshot, c.mode.order);
    assert all + [] == all && [] + all == all;
    var e1 := e.(cache := FillCache(e.cache, snapshot, c.mode.order), didCache := true, resync := all);
    assert e.resync + all == all;
    if c.limit.Some? {
      if all == [] {
        assert DrainResync(e1, c.limit) == (e1.(forceSend := false), []);
      } else {
        ChunkKeeps(c, e1, [], all);
      }
    }
  }

  // -------------------------------------------------------------- all runs

  function RunTicks(c: Config, s: Session, ticks: seq<Tick>): (Session, seq<Sent>)
    requires c.mode.Valid()
    decreases |ticks|
  {
    if ticks == [] then (s, [])
    else
      var (s1, sent) := AfterTick(c, s, ticks[0]);
      var (s2, more) := RunTicks(c, s1, ticks[1..]);
      (s2, [sent] + more)
  }

  function ResyncSent(sent: seq<Sent>): seq<Msg> {
    if sent == [] then [] else sent[0].resync + ResyncSent(sent[1..])
  }

  lemma {:induction false} RunResyncs(c: Config, s: Session, ticks: seq<Tick>, before: seq<Msg>, all: seq<Msg>)
    requires c.mode.Valid() && (forall t :: t in ticks ==> NoReconnect(t)) && Resyncing(s.e, before, all)
    ensures var (s', sent) := RunTicks(c, s, ticks);
      Resyncing(s'.e, before + ResyncSent(sent), all) && forall x :: x in sent ==> WithinLimit(c, x.resync)
    decreases |ticks|
  {
    hide AfterTick, NoReconnect, Resyncing, WithinLimit;
    if ticks == [] {
      assert before + [] == before;
    } else {
      assert ticks[0] in ticks;
      var (s1, out) := AfterTick(c, s, ticks[0]);
      TickKeeps(c, s, ticks[0], before, all);
      RunResyncs(c, s1, ticks[1..], before + out.resync, all);
      var more := RunTicks(c, s1, ticks[1..]).1;
      assert ([out] + more)[1..] == more;
      assert before + out.resync + ResyncSent(more) == before + (out.resync + ResyncSent(more));
    }
  }

  /** A tick on which a waiting resynchronisation goes on. */
  predicate Pulls(t: Tick) { NoReconnect(t) && t.established && t.probe == Some(true) }

  /** The tick sends a whole chunk, or all that is left. */
  lemma ChunkIsFull(c: Config, s: Session, t: Tick, n: nat)
    requires c.mode.Valid() && Pulls(t) && (s.e.forceSend <==> s.e.resync != [])
    requires if c.limit.Some? && c.limit.value > 0 then n == c.limit.value else n >= |s.e.resync|
    ensures var e := AfterTick(c, s, t).0.e;
      |e.resync| == (if |s.e.resync| <= n then 0 else |s.e.resync| - n) && (e.forceSend <==> e.resync != [])
  {
    hide OnAll, DrainGate, ImplausibleSnapshot, GateBacklog, Poll;
    IncomingSameResync(c.mode, s, t.incoming, t.env);
    var e := OnAll(c.mode, s, t.incoming, t.env).e;
    DrainGateSameResync(c.mode, e, t.env);
    var e1 := DrainGate(c.mode, e, t.env);
    if e1.resync == [] && t.snapshot.Some? {
      PollKeeps(c, e1, t.env, t.snapshot.value);
    }
  }

  /** So in `k` such ticks `k` chunks go out, and a resynchronisation ends after as many ticks as it has chunks. */
  lemma {:induction false} ResyncEnds(c: Config, s: Session, ticks: seq<Tick>, n: nat)
    requires c.mode.Valid() && (forall t :: t in ticks ==> Pulls(t)) && (s.e.forceSend <==> s.e.resync != [])
    requires if c.limit.Some? && c.limit.value > 0 then n == c.limit.value else n >= |s.e.resync|
    ensures var left, all := |RunTicks(c, s, ticks).0.e.resync|, |s.e.resync|;
      left == if all <= |ticks| * n then 0 else all - |ticks| * n
    decreases |ticks|
  {
    hide AfterTick, Pulls;
    if ticks != [] {
      assert ticks[0] in ticks;
      ChunkIsFull(c, s, ticks[0], n);
      ResyncEnds(c, AfterTick(c, s, ticks[0]).0, ticks[1..], n);
      OneMore(|ticks[1..]|, n);
    }
  }

  lemma OneMore(k: nat, n: nat)
    ensures (k + 1) * n == k * n + n && k * n >= 0
  {
  }

  /** The snapshot the resynchronisation of a run is taken from: the first one polled. */
  function FirstPolled(c: Config, ticks: seq<Tick>): Option<Memory>
    requires c.mode.Valid()
  {
    if ticks == [] then None
    else if ticks[0].snapshot.Some? && Polls(c, ticks[0], ticks[0].snapshot.value) then ticks[0].snapshot
    else FirstPolled(c, ticks[1..])
  }

  /** Every tick of the running game before the first poll leaves the gate empty; always so without deferral. */
  predicate EmptyUntilPoll(c: Config, s: Session, ticks: seq<Tick>)
    requires c.mode.Valid()
    decreases |ticks|
  {
    ticks == [] ||
    (!Backlogged(c, s, ticks[0]) &&
     ((ticks[0].snapshot.Some? && Polls(c, ticks[0], ticks[0].snapshot.value)) ||
      EmptyUntilPoll(c, AfterTick(c, s, ticks[0]).0, ticks[1..])))
  }

  /** The frames sent and those still queued are together the broadcast of the first polled snapshot. */
  ghost predicate Broadcasts(c: Config, ticks: seq<Tick>, end: Engine, sent: seq<Sent>)
    requires c.mode.Valid()
  {
    match FirstPolled(c, ticks)
    case None => Armed(end) && ResyncSent(sent) == []
    case Some(snapshot) =>
      && Resyncing(end, ResyncSent(sent), Broadcast(c.mode, snapshot, c.mode.order))
      && forall x :: x in sent ==> WithinLimit(c, x.resync)
  }

  /** From an armed engine on. */
  lemma {:induction false} ArmedResyncs(c: Config, s: Session, ticks: seq<Tick>)
    requires c.mode.Valid() && Armed(s.e) && forall t :: t in ticks ==> NoReconnect(t)
    ensures var (s', sent) := RunTicks(c, s, ticks);
      if EmptyUntilPoll(c, s, ticks) then Broadcasts(c, ticks, s'.e, sent)
      else ResyncSent(sent) == [] && s'.e.resync == [] && !s'.e.forceSend
    decreases |ticks|
  {
    hide AfterTick, NoReconnect, Resyncing, WithinLimit, Polls, Broadcast, Armed, Backlogged;
    if ticks != [] {
      var t := ticks[0];
      assert t in ticks;
      var (s1, out) := AfterTick(c, s, t);
      var more := RunTicks(c, s1, ticks[1..]).1;
      assert ([out] + more)[1..] == more && [] + ResyncSent(more) == ResyncSent(more);
      if Backlogged(c, s, t) {
        TickDisarms(c, s, t);
        DisarmedSendsNothing(c, s1, ticks[1..]);
      } else {
        TickStarts(c, s, t);
        if t.snapshot.Some? && Polls(c, t, t.snapshot.value) {
          RunResyncs(c, s1, ticks[1..], out.resync, Broadcast(c.mode, t.snapshot.value, c.mode.order));
        } else {
          ArmedResyncs(c, s1, ticks[1..]);
          assert WithinLimit(c, out.resync) by { EmptyWithin(c, out.resync); }
        }
      }
    }
  }

  /** A reconnect arms the engine. */
  lemma ReconnectArms(mode: Mode, s: Session, env: Env)
    ensures Armed(OnIncoming(mode, s, Reconnected, env).e)
  {
  }

  /**
   * Resync exactly once, with or without deferral: after a reconnect, the resynchronisation frames sent and those still
   * queued are together the broadcast of the first snapshot polled, in table order and in chunks within the limit, if
   * every tick of the running game before that poll leaves the gate empty. If one does not, no frame is ever sent.
   */
  lemma ResyncByGate(c: Config, before: Session, env: Env, ticks: seq<Tick>)
    requires c.mode.Valid() && forall t :: t in ticks ==> NoReconnect(t)
    ensures var s := OnIncoming(c.mode, before, Reconnected, env);
      var (s', sent) := RunTicks(c, s, ticks);
      if EmptyUntilPoll(c, s, ticks) then Broadcasts(c, ticks, s'.e, sent)
      else ResyncSent(sent) == [] && s'.e.resync == [] && !s'.e.forceSend
  {
    hide RunTicks, Broadcasts, EmptyUntilPoll, NoReconnect, Armed;
    ReconnectArms(c.mode, before, env);
    ArmedResyncs(c, OnIncoming(c.mode, before, Reconnected, env), ticks);
  }

  lemma {:induction false} NeverBacklogged(c: Config, s: Session, ticks: seq<Tick>)
    requires c.mode.Valid() && !c.defer
    ensures EmptyUntilPoll(c, s, ticks)
    decreases |ticks|
  {
    hide AfterTick, Polls;
    if ticks != [] {
      NeverBacklogged(c, AfterTick(c, s, ticks[0]).0, ticks[1..]);
    }
  }

  /** Without deferral nothing is in the way. */
  lemma ResyncOnce(c: Config, before: Session, env: Env, ticks: seq<Tick>)
    requires c.mode.Valid() && !c.defer && forall t :: t in ticks ==> NoReconnect(t)
    ensures var s := OnIncoming(c.mode, before, Reconnected, env);
      Broadcasts(c, ticks, RunTicks(c, s, ticks).0.e, RunTicks(c, s, ticks).1)
  {
    hide RunTicks, Broadcasts, EmptyUntilPoll, NoReconnect;
    ResyncByGate(c, before, env, ticks);
    NeverBacklogged(c, OnIncoming(c.mode, before, Reconnected, env), ticks);
  }

  lemma EmptyWithin(c: Config, chunk: seq<Msg>)
    requires chunk == []
    ensures WithinLimit(c, chunk)
  {
  }

  /** Without deferral, no tick with a resync backlog reaches the first poll. */
  lemma BacklogFirst(c: Config, e: Engine, t: Tick)
    requires c.mode.Valid() && !c.defer && e.resync != []
    ensures var (e', _, changes) := Synced(c, e, t);
      changes == [] && e'.cache == (if t.probe == Some(true) then DrainGate(c.mode, e, t.env) else e).cache
  {
    hide DrainGate;
    DrainGateSameResync(c.mode, e, t.env);
  }

  /**
   * Deferral makes a difference to an armed engine exactly when the gate is left with something: then the empty queue
   * is drained, which disarms the engine before its first poll. Otherwise the tick is the one without deferral.
   */
  lemma DeferralDisarms(c: Config, e: Engine, t: Tick)
    requires c.mode.Valid() && c.defer && Armed(e) && t.probe == Some(true)
    ensures var e1 := DrainGate(c.mode, e, t.env);
      Synced(c, e, t) == if GateBacklog(e1) > 0 then (e1.(forceSend := false), [], []) else Synced(c.(defer := false), e, t)
  {
    hide DrainGate, GateBacklog, ImplausibleSnapshot, CheckFirstRunning, DrainSleep, Diff;
    DrainGateSameResync(c.mode, e, t.env);
  }

  /** And once disarmed, no later tick sends anything for the resynchronisation. */
  lemma DisarmedSendsNothing(c: Config, s: Session, ticks: seq<Tick>)
    requires c.mode.Valid() && s.e.resync == [] && !s.e.forceSend && forall t :: t in ticks ==> NoReconnect(t)
    ensures ResyncSent(RunTicks(c, s, ticks).1) == []
    ensures RunTicks(c, s, ticks).0.e.resync == [] && !RunTicks(c, s, ticks).0.e.forceSend
  {
    hide AfterTick, RunTicks;
    assert [] + s.e.resync == [];
    RunResyncs(c, s, ticks, [], []);
  }
}
