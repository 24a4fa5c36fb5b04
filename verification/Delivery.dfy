/**
 * What an engine makes of the updates it is given, whichever way they reach memory: straight in, through the sleep
 * queue, or through the coalescing map-write gate.
 */
module Delivery {
  import opened Wrappers
  import opened Bytes
  import opened Bits
  import opened Records
  import opened MapWriteGates
  import opened SyncEngines

  // ----------------------------------------------------------------- lenses

  /** One observed aspect of memory that only grows: a `high` byte as a number, or one bit of a `bitOr` byte. */
  datatype Lens = Value(addr: int) | BitAt(addr: int, i: nat)

  function W(l: Lens, v: int): nat {
    match l
    case Value(_) => if v < 0 then 0 else v
    case BitAt(_, i) => if Bit(v, i) then 1 else 0
  }

  /** The record at the lens is of the right kind, and the bit is inside its mask. */
  ghost predicate Fits(mode: Mode, l: Lens) {
    && l.addr in mode.recs
    && (l.Value? ==> HighRec(mode.recs[l.addr]))
    && (l.BitAt? ==> BitOrRec(mode.recs[l.addr]) && l.i < 8 && Bit(mode.recs[l.addr].Mask(), l.i))
  }

  /** A value a partner can have sent for the lens: a byte the record finds plausible. */
  ghost predicate Sendable(mode: Mode, l: Lens, v: int)
    requires l.addr in mode.recs
  {
    0 <= v < 0x100 && !Implausible(mode.recs[l.addr], v)
  }

  function Max(a: nat, b: nat): nat { if a < b then b else a }

  /** Receiving merges by maximum, on every lens. */
  lemma MergeIsMax(mode: Mode, l: Lens, v: int, prev: byte)
    requires Fits(mode, l) && 0 <= v < 0x100
    ensures var (allow, written) := RecordChanged(mode.recs[l.addr], v, prev, true);
      && W(l, if allow then written % 0x100 else prev) == Max(W(l, prev), W(l, v))
      && (l.Value? && allow ==> W(l, written % 0x100) == W(l, v))
  {
    hide RecordChanged, Bit;
    match l
    case Value(_) => HighReceive(mode.recs[l.addr], v, prev);
    case BitAt(_, i) => BitOrReceive(mode.recs[l.addr], v, prev, i);
  }

  /** The largest value of the lens among updates to its address. */
  function MaxW(l: Lens, msgs: seq<Msg>): nat {
    if msgs == [] then 0
    else Max(if msgs[0].addr == l.addr then W(l, msgs[0].value) else 0, MaxW(l, msgs[1..]))
  }

  function One(l: Lens, m: Msg): nat { if m.addr == l.addr then W(l, m.value) else 0 }

  lemma {:induction false} MaxAppend(l: Lens, msgs: seq<Msg>, more: seq<Msg>)
    ensures MaxW(l, msgs + more) == Max(MaxW(l, msgs), MaxW(l, more))
  {
    if msgs == [] {
      assert msgs + more == more;
    } else {
      MaxAppend(l, msgs[1..], more);
      assert (msgs + more)[1..] == msgs[1..] + more;
    }
  }

  lemma MaxSnoc(l: Lens, msgs: seq<Msg>, m: Msg)
    ensures MaxW(l, msgs + [m]) == Max(MaxW(l, msgs), One(l, m))
  {
    MaxAppend(l, msgs, [m]);
    assert MaxW(l, [m]) == One(l, m);
  }

  // ---------------------------------------------------------- pending work

  /** What waits in the gate, as updates. */
  function GateMsgs(pending: seq<Entry>): (r: seq<Msg>)
    ensures |r| == |pending| && forall i :: 0 <= i < |r| ==> r[i] == Msg(pending[i].addr, pending[i].value)
  {
    seq(|pending|, i requires 0 <= i < |pending| => Msg(pending[i].addr, pending[i].value))
  }

  function InGate(e: Engine): seq<Msg> { if e.gate.Some? then GateMsgs(e.gate.value.pending) else [] }

  function GateW(l: Lens, e: Engine): nat { MaxW(l, InGate(e)) }

  /** Everything the engine knows at the lens: memory, and what waits to be written there. */
  function Known(l: Lens, e: Engine): nat { Max(W(l, At(e.ram, l.addr)), Max(MaxW(l, e.sleep), GateW(l, e))) }

  function CacheW(l: Lens, e: Engine): nat { if l.addr in e.cache then W(l, e.cache[l.addr]) else 0 }

  lemma {:induction false} MaxOfOthers(l: Lens, msgs: seq<Msg>)
    requires forall i :: 0 <= i < |msgs| ==> msgs[i].addr != l.addr
    ensures MaxW(l, msgs) == 0
  {
    if msgs != [] {
      MaxOfOthers(l, msgs[1..]);
    }
  }

  /** Writing a key of the gate replaces what the gate held for it, and nothing else. */
  lemma {:induction false} MaxAfterPut(l: Lens, pending: seq<Entry>, addr: int, value: byte)
    requires Distinct(pending)
    ensures MaxW(l, GateMsgs(Put(pending, addr, value))) ==
            if addr == l.addr then W(l, value) else MaxW(l, GateMsgs(pending))
  {
    var msgs, after := GateMsgs(pending), GateMsgs(Put(pending, addr, value));
    if pending == [] {
      assert after == [Msg(addr, value)];
      assert after[1..] == [];
    } else if pending[0].addr == addr {
      assert after == [Msg(addr, value)] + msgs[1..];
      if addr == l.addr {
        MaxOfOthers(l, msgs[1..]);
      }
    } else {
      assert msgs[1..] == GateMsgs(pending[1..]);
      assert after[1..] == GateMsgs(Put(pending[1..], addr, value));
      MaxAfterPut(l, pending[1..], addr, value);
      if addr == l.addr {
        assert pending[0].addr != l.addr;
      }
    }
  }

  /** The update goes into memory in this call: it is known, plausible, and neither gated nor put to sleep. */
  predicate ReachesMemory(mode: Mode, e: Engine, m: Msg, queueAsleep: bool, bypassGate: bool, env: Env) {
    && m.addr in mode.recs && !Implausible(mode.recs[m.addr], m.value)
    && !(!bypassGate && TakesGate(mode, e, m.addr))
    && !(queueAsleep && !env.running)
  }

  /** An update to the lens that reaches memory meets a working endpoint. */
  predicate EndpointWorks(mode: Mode, l: Lens, e: Engine, m: Msg, queueAsleep: bool, bypassGate: bool, env: Env) {
    m.addr == l.addr && ReachesMemory(mode, e, m, queueAsleep, bypassGate, env) ==> env.canRead && env.canWrite
  }

  /** An update to the lens that goes into the gate is not below what the gate holds for it. */
  ghost predicate RisesInGate(mode: Mode, l: Lens, e: Engine, m: Msg, bypassGate: bool)
    requires l.addr in mode.recs
  {
    m.addr == l.addr && !bypassGate && TakesGate(mode, e, m.addr) ==> GateW(l, e) <= W(l, m.value)
  }

  /** Into the gate: the entry there is replaced by one that is not smaller. */
  lemma GateKeepsKnown(l: Lens, e: Engine, m: Msg, now: real)
    requires e.Valid() && e.gate.Some? && (m.addr == l.addr ==> 0 <= m.value < 0x100 && GateW(l, e) <= W(l, m.value))
    ensures var e' := e.(gate := Some(AfterEnqueue(e.gate.value, m.addr, m.value, now)));
      e'.Valid() && Known(l, e') == Max(Known(l, e), One(l, m))
  {
    hide W, MaxW, GateMsgs, Put, Distinct;
    MaxAfterPut(l, e.gate.value.pending, m.addr, m.value % 0x100);
    PutDistinct(e.gate.value.pending, m.addr, m.value % 0x100);
  }

  lemma SleepKeepsKnown(l: Lens, e: Engine, m: Msg)
    ensures var e' := e.(sleep := e.sleep + [m]);
      (e.Valid() ==> e'.Valid()) && Known(l, e') == Max(Known(l, e), One(l, m))
  {
    hide W, MaxW, GateMsgs, One;
    MaxSnoc(l, e.sleep, m);
  }

  /** Into memory: the byte there is merged. */
  lemma ApplyKeepsKnown(mode: Mode, l: Lens, e: Engine, m: Msg, env: Env)
    requires Fits(mode, l) && m.addr in mode.recs && !Implausible(mode.recs[m.addr], m.value)
    requires m.addr == l.addr ==> 0 <= m.value < 0x100 && env.canRead && env.canWrite
    ensures var e' := Apply(mode, e, m, env).0;
      && (e.Valid() ==> e'.Valid())
      && Known(l, e') == Max(Known(l, e), One(l, m))
      && W(l, At(e'.ram, l.addr)) == Max(W(l, At(e.ram, l.addr)), One(l, m))
  {
    assert l.addr in mode.recs;
    hide RecordChanged, W, MaxW, GateMsgs, Implausible, Fits;
    if m.addr == l.addr {
      MergeIsMax(mode, l, m.value, At(e.ram, l.addr));
    }
    var e' := Apply(mode, e, m, env).0;
    assert e'.sleep == e.sleep && e'.gate == e.gate;
  }

  /** Handling an update adds it to what is known, wherever it ends up; and what is cached is what is in memory. */
  lemma HandleKeepsKnown(mode: Mode, l: Lens, e: Engine, m: Msg, queueAsleep: bool, bypassGate: bool, env: Env)
    requires Fits(mode, l) && e.Valid() && (m.addr == l.addr ==> Sendable(mode, l, m.value))
    requires EndpointWorks(mode, l, e, m, queueAsleep, bypassGate, env)
    requires RisesInGate(mode, l, e, m, bypassGate)
    ensures var e' := Handle(mode, e, m, queueAsleep, bypassGate, env).0;
      && e'.Valid()
      && Known(l, e') == Max(Known(l, e), One(l, m))
      && W(l, At(e'.ram, l.addr)) >= W(l, At(e.ram, l.addr))
  {
    assert l.addr in mode.recs;
    hide W, Implausible, Known, One, Fits, Apply, AfterEnqueue;
    if m.addr in mode.recs && !Implausible(mode.recs[m.addr], m.value) {
      if !bypassGate && TakesGate(mode, e, m.addr) {
        GateKeepsKnown(l, e, m, env.now);
      } else if queueAsleep && !env.running {
        SleepKeepsKnown(l, e, m);
      } else {
        ApplyKeepsKnown(mode, l, e, m, env);
      }
    }
  }

  /** No incoming update of any value changes a bit outside the mask of a `bitOr` record. */
  lemma UnmaskedBitKept(mode: Mode, a: int, i: nat, e: Engine, m: Msg, queueAsleep: bool, bypassGate: bool, env: Env)
    requires a in mode.recs && BitOrRec(mode.recs[a]) && i < 8 && !Bit(mode.recs[a].Mask(), i)
    ensures Bit(At(Handle(mode, e, m, queueAsleep, bypassGate, env).0.ram, a), i) == Bit(At(e.ram, a), i)
  {
    hide RecordChanged, Bit;
    if m.addr == a {
      BitOrReceive(mode.recs[a], m.value, At(e.ram, a), i);
    }
  }

  // ------------------------------------------------------ delivery of a stream

  /** What happens to a receiving engine: an update arrives, the oldest sleeping one is handled, or the gate is drained. */
  datatype Event = Arrive(m: Msg, env: Env) | Wake(env: Env) | Drain(env: Env)

  function WakeOne(mode: Mode, e: Engine, env: Env): Engine {
    if e.sleep == [] then e else Handle(mode, e.(sleep := e.sleep[1..]), e.sleep[0], false, false, env).0
  }

  function Deliver(mode: Mode, e: Engine, ev: Event): Engine {
    match ev
    case Arrive(m, env) => Handle(mode, e, m, true, false, env).0
    case Wake(env) => WakeOne(mode, e, env)
    case Drain(env) => DrainGate(mode, e, env)
  }

  function DeliverAll(mode: Mode, e: Engine, events: seq<Event>): Engine
    decreases |events|
  {
    if events == [] then e else DeliverAll(mode, Deliver(mode, e, events[0]), events[1..])
  }

  function Arrivals(events: seq<Event>): seq<Msg> {
    if events == [] then []
    else (if events[0].Arrive? then [events[0].m] else []) + Arrivals(events[1..])
  }

  function WakeAll(mode: Mode, e: Engine, n: nat, env: Env): Engine
    decreases n
  {
    if n == 0 then e else WakeAll(mode, WakeOne(mode, e, env), n - 1, env)
  }

  lemma ApplyAwake(mode: Mode, e: Engine, m: Msg, rest: seq<Msg>, env: Env)
    requires m.addr in mode.recs
    ensures var e' := Apply(mode, e.(sleep := []), m, env).0;
      && e'.(sleep := []) == e'
      && Apply(mode, e.(sleep := rest), m, env).0 == e'.(sleep := rest)
  {
    hide RecordChanged;
  }

  /** Handling an update that may not sleep does not care for the sleep queue. */
  lemma HandleAwake(mode: Mode, e: Engine, m: Msg, rest: seq<Msg>, env: Env)
    ensures var e' := Handle(mode, e.(sleep := []), m, false, false, env).0;
      && e'.(sleep := []) == e'
      && Handle(mode, e.(sleep := rest), m, false, false, env).0 == e'.(sleep := rest)
  {
    hide Implausible, AfterEnqueue, Apply, Gated;
    var awake, other := e.(sleep := []), e.(sleep := rest);
    assert other.gate == awake.gate;
    if m.addr in mode.recs && !Implausible(mode.recs[m.addr], m.value) {
      if TakesGate(mode, awake, m.addr) {
        var gate := Some(AfterEnqueue(e.gate.value, m.addr, m.value, env.now));
        assert other.(gate := gate) == awake.(gate := gate).(sleep := rest);
      } else {
        ApplyAwake(mode, e, m, rest, env);
      }
    }
  }

  /** Draining the sleep queue as the engine does it is waking its items one by one. */
  lemma {:induction false} DrainIsWakes(mode: Mode, e: Engine, items: seq<Msg>, env: Env)
    ensures HandleAll(mode, e.(sleep := []), items, env) == WakeAll(mode, e.(sleep := items), |items|, env)
    decreases |items|
  {
    hide Handle;
    if items != [] {
      var e' := Handle(mode, e.(sleep := []), items[0], false, false, env).0;
      HandleAwake(mode, e, items[0], items[1..], env);
      assert e.(sleep := items).(sleep := items[1..]) == e.(sleep := items[1..]);
      DrainIsWakes(mode, e', items[1..], env);
    }
  }

  /** The values for the lens never fall along the stream, and start at `floor` or above. */
  ghost predicate Rising(l: Lens, floor: nat, msgs: seq<Msg>)
    decreases |msgs|
  {
    msgs == [] ||
    (if msgs[0].addr == l.addr then floor <= W(l, msgs[0].value) && Rising(l, W(l, msgs[0].value), msgs[1..])
     else Rising(l, floor, msgs[1..]))
  }

  ghost predicate AllSendable(mode: Mode, l: Lens, msgs: seq<Msg>)
    requires l.addr in mode.recs
  {
    forall m :: m in msgs && m.addr == l.addr ==> Sendable(mode, l, m.value)
  }

  /** Updates to the lens that are gated never sleep, and what sleeps or waits in the gate was sendable. */
  ghost predicate PendingOk(mode: Mode, l: Lens, e: Engine)
    requires l.addr in mode.recs
  {
    && e.Valid() && AllSendable(mode, l, e.sleep) && AllSendable(mode, l, InGate(e))
    && (TakesGate(mode, e, l.addr) ==> forall m :: m in e.sleep ==> m.addr != l.addr)
  }

  lemma GateStaysSendable(mode: Mode, l: Lens, pending: seq<Entry>, m: Msg)
    requires l.addr in mode.recs && Distinct(pending) && AllSendable(mode, l, GateMsgs(pending))
    requires m.addr == l.addr ==> Sendable(mode, l, m.value)
    ensures AllSendable(mode, l, GateMsgs(Put(pending, m.addr, m.value % 0x100)))
  {
    hide Implausible, Put;
    PutKeepsOrder(pending, m.addr, m.value % 0x100);
    PutDistinct(pending, m.addr, m.value % 0x100);
    var before, after := GateMsgs(pending), GateMsgs(Put(pending, m.addr, m.value % 0x100));
    forall x | x in after && x.addr == l.addr ensures Sendable(mode, l, x.value) {
      var i :| 0 <= i < |after| && after[i] == x;
      assert x == Msg(m.addr, m.value % 0x100) || (i < |before| && before[i] == x);
    }
  }

  lemma HandleKeepsPending(mode: Mode, l: Lens, e: Engine, m: Msg, queueAsleep: bool, bypassGate: bool, env: Env)
    requires l.addr in mode.recs && PendingOk(mode, l, e) && (m.addr == l.addr ==> Sendable(mode, l, m.value))
    requires bypassGate ==> !queueAsleep
    ensures PendingOk(mode, l, Handle(mode, e, m, queueAsleep, bypassGate, env).0)
  {
    hide RecordChanged, Implausible, Put;
    if e.gate.Some? {
      GateStaysSendable(mode, l, e.gate.value.pending, m);
      PutDistinct(e.gate.value.pending, m.addr, m.value % 0x100);
    }
  }

  /** Draining the gate moves its oldest entry on. */
  lemma DrainKeepsKnown(mode: Mode, l: Lens, e: Engine, env: Env)
    requires Fits(mode, l) && PendingOk(mode, l, e) && env.canRead && env.canWrite
    ensures var e' := DrainGate(mode, e, env);
      PendingOk(mode, l, e') && Known(l, e') == Known(l, e) && GateW(l, e') <= GateW(l, e)
  {
    hide RecordChanged, Implausible, W, Handle;
    if e.gate.Some? && Due(e.gate.value, env.now) && env.running {
      var (g, item) := AfterPop(e.gate.value, env.now);
      var e1, m := e.(gate := Some(g)), Msg(item.value.addr, item.value.value);
      assert InGate(e)[0] == m;
      assert InGate(e1) == InGate(e)[1..];
      HandleKeepsKnown(mode, l, e1, m, false, true, env);
      HandleKeepsPending(mode, l, e1, m, false, true, env);
      BypassKeepsGate(mode, e1, m, env);
    }
  }

  lemma BypassKeepsGate(mode: Mode, e: Engine, m: Msg, env: Env)
    ensures Handle(mode, e, m, false, true, env).0.gate == e.gate
    ensures Handle(mode, e, m, false, true, env).0.sleep == e.sleep
  {
    hide RecordChanged, Implausible;
  }

  lemma WakeKeepsKnown(mode: Mode, l: Lens, e: Engine, env: Env)
    requires Fits(mode, l) && PendingOk(mode, l, e) && env.canRead && env.canWrite
    ensures var e' := WakeOne(mode, e, env);
      PendingOk(mode, l, e') && Known(l, e') == Known(l, e) && (TakesGate(mode, e, l.addr) ==> GateW(l, e') == GateW(l, e))
  {
    hide RecordChanged, Implausible, W, Handle;
    if e.sleep != [] {
      var e1, m := e.(sleep := e.sleep[1..]), e.sleep[0];
      assert InGate(e1) == InGate(e);
      HandleKeepsKnown(mode, l, e1, m, false, false, env);
      HandleKeepsPending(mode, l, e1, m, false, false, env);
      OtherKeepsGate(mode, l, e1, m, false, env);
    }
  }

  lemma OtherKeepsGate(mode: Mode, l: Lens, e: Engine, m: Msg, queueAsleep: bool, env: Env)
    requires l.addr in mode.recs && e.Valid()
    ensures var e' := Handle(mode, e, m, queueAsleep, false, env).0;
      && (m.addr != l.addr || !TakesGate(mode, e, l.addr) ==> GateW(l, e') == GateW(l, e))
      && (e'.gate.Some? <==> e.gate.Some?)
  {
    hide RecordChanged, Implausible, W;
    if m.addr in mode.recs && !Implausible(mode.recs[m.addr], m.value) && TakesGate(mode, e, m.addr) {
      MaxAfterPut(l, e.gate.value.pending, m.addr, m.value % 0x100);
    }
  }

  lemma {:induction false} RisingFrom(l: Lens, floor: nat, lower: nat, msgs: seq<Msg>)
    requires Rising(l, floor, msgs) && lower <= floor
    ensures Rising(l, lower, msgs)
    decreases |msgs|
  {
    if msgs != [] && msgs[0].addr != l.addr {
      RisingFrom(l, floor, lower, msgs[1..]);
    }
  }

  ghost predicate EnvsWork(events: seq<Event>) {
    forall i :: 0 <= i < |events| ==> events[i].env.canRead && events[i].env.canWrite
  }

  lemma DeliverKeepsKnown(mode: Mode, l: Lens, e: Engine, ev: Event, later: seq<Msg>)
    requires Fits(mode, l) && PendingOk(mode, l, e) && ev.env.canRead && ev.env.canWrite
    requires ev.Arrive? && ev.m.addr == l.addr ==> Sendable(mode, l, ev.m.value)
    requires TakesGate(mode, e, l.addr) ==> Rising(l, GateW(l, e), (if ev.Arrive? then [ev.m] else []) + later)
    ensures var e' := Deliver(mode, e, ev);
      && PendingOk(mode, l, e')
      && Known(l, e') == Max(Known(l, e), if ev.Arrive? then One(l, ev.m) else 0)
      && (TakesGate(mode, e', l.addr) ==> Rising(l, GateW(l, e'), later))
  {
    hide RecordChanged, Implausible, W, Handle, DrainGate, WakeOne, PendingOk, Known;
    match ev
    case Arrive(m, env) =>
      assert ([m] + later)[0] == m && ([m] + later)[1..] == later;
      ArriveKeepsKnown(mode, l, e, m, env, later);
    case Wake(env) =>
      assert [] + later == later;
      WakeKeepsKnown(mode, l, e, env);
      WakeKeepsGate(mode, l, e, env);
    case Drain(env) =>
      assert [] + later == later;
      DrainKeepsKnown(mode, l, e, env);
      DrainKeepsGate(mode, e, env);
      if TakesGate(mode, e, l.addr) {
        RisingFrom(l, GateW(l, e), GateW(l, Deliver(mode, e, ev)), later);
      }
  }

  lemma ArriveKeepsKnown(mode: Mode, l: Lens, e: Engine, m: Msg, env: Env, later: seq<Msg>)
    requires Fits(mode, l) && PendingOk(mode, l, e) && env.canRead && env.canWrite
    requires m.addr == l.addr ==> Sendable(mode, l, m.value)
    requires TakesGate(mode, e, l.addr) ==> Rising(l, GateW(l, e), [m] + later)
    ensures var e' := Handle(mode, e, m, true, false, env).0;
      && PendingOk(mode, l, e')
      && Known(l, e') == Max(Known(l, e), One(l, m))
      && (TakesGate(mode, e', l.addr) ==> Rising(l, GateW(l, e'), later))
  {
    hide RecordChanged, W, Known, PendingOk;
    assert ([m] + later)[0] == m && ([m] + later)[1..] == later;
    PendingValid(mode, l, e);
    HandleKeepsKnown(mode, l, e, m, true, false, env);
    HandleKeepsPending(mode, l, e, m, true, false, env);
    OtherKeepsGate(mode, l, e, m, true, env);
    if m.addr == l.addr && TakesGate(mode, e, l.addr) {
      MaxAfterPut(l, e.gate.value.pending, m.addr, m.value % 0x100);
    }
  }

  lemma PendingValid(mode: Mode, l: Lens, e: Engine)
    requires l.addr in mode.recs && PendingOk(mode, l, e)
    ensures e.Valid()
  {
  }

  lemma WakeKeepsGate(mode: Mode, l: Lens, e: Engine, env: Env)
    requires l.addr in mode.recs && PendingOk(mode, l, e)
    ensures WakeOne(mode, e, env).gate.Some? <==> e.gate.Some?
  {
    hide RecordChanged, Implausible, W, Handle;
    if e.sleep != [] {
      OtherKeepsGate(mode, l, e.(sleep := e.sleep[1..]), e.sleep[0], false, env);
    }
  }

  lemma DrainKeepsGate(mode: Mode, e: Engine, env: Env)
    ensures DrainGate(mode, e, env).gate.Some? <==> e.gate.Some?
  {
    hide RecordChanged, Implausible, Handle;
    if e.gate.Some? && Due(e.gate.value, env.now) && env.running {
      var (g, item) := AfterPop(e.gate.value, env.now);
      BypassKeepsGate(mode, e.(gate := Some(g)), Msg(item.value.addr, item.value.value), env);
    }
  }

  lemma {:induction false} DeliverAllKeepsKnown(mode: Mode, l: Lens, e: Engine, events: seq<Event>)
    requires Fits(mode, l) && PendingOk(mode, l, e) && EnvsWork(events) && AllSendable(mode, l, Arrivals(events))
    requires TakesGate(mode, e, l.addr) ==> Rising(l, GateW(l, e), Arrivals(events))
    ensures Known(l, DeliverAll(mode, e, events)) == Max(Known(l, e), MaxW(l, Arrivals(events)))
    decreases |events|
  {
    hide RecordChanged, Implausible, W, Handle, PendingOk, Known, Deliver;
    if events != [] {
      var ev, later := events[0], Arrivals(events[1..]);
      var now := if ev.Arrive? then [ev.m] else [];
      assert Arrivals(events) == now + later;
      assert forall m :: m in later ==> m in Arrivals(events);
      assert ev.Arrive? ==> ev.m in Arrivals(events);
      MaxAppend(l, now, later);
      assert ev.Arrive? ==> MaxW(l, now) == One(l, ev.m);
      DeliverKeepsKnown(mode, l, e, ev, later);
      DeliverAllKeepsKnown(mode, l, Deliver(mode, e, ev), events[1..]);
    }
  }

  lemma MemoryGrows(mode: Mode, l: Lens, e: Engine, m: Msg, queueAsleep: bool, bypassGate: bool, env: Env)
    requires Fits(mode, l) && (m.addr == l.addr ==> Sendable(mode, l, m.value))
    ensures W(l, At(e.ram, l.addr)) <= W(l, At(Handle(mode, e, m, queueAsleep, bypassGate, env).0.ram, l.addr))
  {
    hide RecordChanged, W, Implausible, AfterEnqueue;
    if m.addr == l.addr {
      MergeIsMax(mode, l, m.value, At(e.ram, l.addr));
    }
  }

  /** Some update to the address has the bit. */
  ghost predicate AnySets(msgs: seq<Msg>, a: int, i: nat) {
    exists m :: m in msgs && m.addr == a && Bit(m.value, i)
  }
}
