/** Whether it matters on which way updates reach memory: exactly when it does, for every stream and every schedule. */
module PathIndependence {
  import opened Wrappers
  import opened Bytes
  import opened Bits
  import opened Records
  import opened MapWriteGates
  import opened SyncEngines
  import opened Delivery

  /** The reference: every update written the moment it arrives. */
  function ApplyAll(mode: Mode, e: Engine, msgs: seq<Msg>): Engine
    decreases |msgs|
  {
    if msgs == [] then e
    else ApplyAll(mode, Handle(mode, e, msgs[0], false, true, Env(true, true, true, 0.0)).0, msgs[1..])
  }

  lemma {:induction false} ApplyAllW(mode: Mode, l: Lens, e: Engine, msgs: seq<Msg>)
    requires Fits(mode, l) && e.Valid() && e.sleep == [] && InGate(e) == [] && AllSendable(mode, l, msgs)
    ensures W(l, At(ApplyAll(mode, e, msgs).ram, l.addr)) == Max(W(l, At(e.ram, l.addr)), MaxW(l, msgs))
    decreases |msgs|
  {
    hide RecordChanged, Implausible, W, Handle;
    if msgs != [] {
      var env := Env(true, true, true, 0.0);
      HandleKeepsKnown(mode, l, e, msgs[0], false, true, env);
      BypassKeepsGate(mode, e, msgs[0], env);
      ApplyAllW(mode, l, Handle(mode, e, msgs[0], false, true, env).0, msgs[1..]);
    }
  }

  lemma {:induction false} DeliverKeepsUnmasked(mode: Mode, a: int, i: nat, e: Engine, events: seq<Event>)
    requires a in mode.recs && BitOrRec(mode.recs[a]) && i < 8 && !Bit(mode.recs[a].Mask(), i)
    ensures Bit(At(DeliverAll(mode, e, events).ram, a), i) == Bit(At(e.ram, a), i)
    decreases |events|
  {
    hide RecordChanged, Bit, Handle;
    if events != [] {
      match events[0] {
        case Arrive(m, env) => UnmaskedBitKept(mode, a, i, e, m, true, false, env);
        case Wake(env) =>
          if e.sleep != [] {
            UnmaskedBitKept(mode, a, i, e.(sleep := e.sleep[1..]), e.sleep[0], false, false, env);
          }
        case Drain(env) =>
          if e.gate.Some? && Due(e.gate.value, env.now) && env.running {
            var (g, item) := AfterPop(e.gate.value, env.now);
            UnmaskedBitKept(mode, a, i, e.(gate := Some(g)), Msg(item.value.addr, item.value.value), false, true, env);
          }
      }
      DeliverKeepsUnmasked(mode, a, i, Deliver(mode, e, events[0]), events[1..]);
    }
  }

  lemma {:induction false} ApplyAllKeepsUnmasked(mode: Mode, a: int, i: nat, e: Engine, msgs: seq<Msg>)
    requires a in mode.recs && BitOrRec(mode.recs[a]) && i < 8 && !Bit(mode.recs[a].Mask(), i)
    ensures Bit(At(ApplyAll(mode, e, msgs).ram, a), i) == Bit(At(e.ram, a), i)
    decreases |msgs|
  {
    hide RecordChanged, Bit, Handle;
    if msgs != [] {
      var env := Env(true, true, true, 0.0);
      UnmaskedBitKept(mode, a, i, e, msgs[0], false, true, env);
      ApplyAllKeepsUnmasked(mode, a, i, Handle(mode, e, msgs[0], false, true, env).0, msgs[1..]);
    }
  }

  // ----------------------------------------------- addresses behind the gate

  /** The last update to the address, if there is one. */
  function LastTo(a: int, msgs: seq<Msg>): Option<Msg> {
    if msgs == [] then None
    else if LastTo(a, msgs[1..]).Some? then LastTo(a, msgs[1..])
    else if msgs[0].addr == a then Some(msgs[0]) else None
  }

  function LastW(l: Lens, msgs: seq<Msg>): nat {
    if LastTo(l.addr, msgs).Some? then W(l, LastTo(l.addr, msgs).value.value) else 0
  }

  /** Every masked bit that some update to the address sets is in memory already, or in the last update. */
  ghost predicate LastHolds(mode: Mode, a: int, e: Engine, msgs: seq<Msg>)
    requires a in mode.recs
  {
    forall i: nat :: i < 8 && Bit(mode.recs[a].Mask(), i) && AnySets(msgs, a, i) ==>
      Bit(At(e.ram, a), i) || (LastTo(a, msgs).Some? && Bit(LastTo(a, msgs).value.value, i))
  }

  /** The updates to the address are bytes. */
  ghost predicate BytesTo(a: int, msgs: seq<Msg>) { forall m :: m in msgs && m.addr == a ==> 0 <= m.value < 0x100 }

  lemma {:induction false} MaxIsAny(l: Lens, msgs: seq<Msg>)
    requires l.BitAt?
    ensures MaxW(l, msgs) == if AnySets(msgs, l.addr, l.i) then 1 else 0
  {
    hide Bit;
    if msgs != [] {
      MaxIsAny(l, msgs[1..]);
      assert forall x :: x in msgs <==> x == msgs[0] || x in msgs[1..];
      assert AnySets(msgs, l.addr, l.i) <==>
             (msgs[0].addr == l.addr && Bit(msgs[0].value, l.i)) || AnySets(msgs[1..], l.addr, l.i);
    }
  }

  lemma {:induction false} LastIsBelow(l: Lens, msgs: seq<Msg>)
    ensures LastW(l, msgs) <= MaxW(l, msgs)
  {
    hide W;
    if msgs != [] {
      LastIsBelow(l, msgs[1..]);
    }
  }

  lemma BitsSendable(mode: Mode, l: Lens, msgs: seq<Msg>)
    requires Fits(mode, l) && l.BitAt? && BytesTo(l.addr, msgs)
    ensures AllSendable(mode, l, msgs)
  {
  }

  /** What arrives for the lens takes the place of what the gate held for it. */
  lemma GatedArrival(mode: Mode, l: Lens, e: Engine, m: Msg, env: Env)
    requires Fits(mode, l) && PendingOk(mode, l, e) && TakesGate(mode, e, l.addr) && l.BitAt? && env.canRead && env.canWrite
    requires m.addr == l.addr ==> 0 <= m.value < 0x100
    ensures var e' := Handle(mode, e, m, true, false, env).0;
      && PendingOk(mode, l, e') && TakesGate(mode, e', l.addr)
      && (m.addr == l.addr ==> At(e'.ram, l.addr) == At(e.ram, l.addr) && GateW(l, e') == W(l, m.value))
      && (m.addr != l.addr ==> At(e'.ram, l.addr) == At(e.ram, l.addr) && GateW(l, e') == GateW(l, e))
  {
    HandleKeepsPending(mode, l, e, m, true, false, env);
    hide RecordChanged, W, Implausible, Put;
    OtherKeepsGate(mode, l, e, m, true, env);
    if m.addr == l.addr {
      MaxAfterPut(l, e.gate.value.pending, m.addr, m.value % 0x100);
      hide MaxW;
    }
  }

  lemma SleeplessLens(mode: Mode, l: Lens, e: Engine)
    requires l.addr in mode.recs && PendingOk(mode, l, e) && TakesGate(mode, e, l.addr)
    ensures MaxW(l, e.sleep) == 0 && Known(l, e) == Max(W(l, At(e.ram, l.addr)), GateW(l, e))
  {
    hide W;
    MaxOfOthers(l, e.sleep);
  }

  /** Between the last update and the largest: what is known of a gated bit after any events. */
  lemma {:induction false} GatedBounds(mode: Mode, l: Lens, e: Engine, events: seq<Event>)
    requires Fits(mode, l) && l.BitAt? && PendingOk(mode, l, e) && TakesGate(mode, e, l.addr) && EnvsWork(events)
    requires BytesTo(l.addr, Arrivals(events))
    ensures var e' := DeliverAll(mode, e, events);
      var seen := Arrivals(events);
      && W(l, At(e.ram, l.addr)) <= Known(l, e') <= Max(Known(l, e), MaxW(l, seen))
      && (if LastTo(l.addr, seen).Some? then LastW(l, seen) <= Known(l, e') else Known(l, e') == Known(l, e))
    decreases |events|
  {
    hide W, Handle, PendingOk, Known, Deliver, DrainGate, WakeOne, TakesGate, Fits, MaxW;
    KnownHolds(l, e);
    if events != [] {
      var ev, later := events[0], Arrivals(events[1..]);
      var now := if ev.Arrive? then [ev.m] else [];
      var e' := Deliver(mode, e, ev);
      assert Arrivals(events) == now + later;
      assert forall m :: m in later ==> m in Arrivals(events);
      assert ev.Arrive? ==> ev.m in Arrivals(events);
      assert (now + later)[|now|..] == later;
      GatedDeliver(mode, l, e, ev);
      GatedBounds(mode, l, e', events[1..]);
      MaxAppend(l, now, later);
      MaxOfNow(l, now);
      LastOfNow(l, now, later);
    }
  }

  lemma MaxOfNow(l: Lens, now: seq<Msg>)
    requires |now| <= 1
    ensures MaxW(l, now) == if now == [] then 0 else One(l, now[0])
  {
    hide W;
  }

  lemma LastOfNow(l: Lens, now: seq<Msg>, later: seq<Msg>)
    requires |now| <= 1
    ensures LastTo(l.addr, now + later) ==
            if LastTo(l.addr, later).None? && now != [] && now[0].addr == l.addr then Some(now[0]) else LastTo(l.addr, later)
  {
    if now == [] {
      assert now + later == later;
    } else {
      assert (now + later)[1..] == later;
    }
  }

  lemma KnownHolds(l: Lens, e: Engine)
    ensures W(l, At(e.ram, l.addr)) <= Known(l, e)
  {
    hide W, MaxW;
  }

  /** One event at a gated bit. */
  lemma GatedDeliver(mode: Mode, l: Lens, e: Engine, ev: Event)
    requires Fits(mode, l) && l.BitAt? && PendingOk(mode, l, e) && TakesGate(mode, e, l.addr)
    requires ev.env.canRead && ev.env.canWrite && (ev.Arrive? && ev.m.addr == l.addr ==> 0 <= ev.m.value < 0x100)
    ensures var e' := Deliver(mode, e, ev);
      && PendingOk(mode, l, e') && TakesGate(mode, e', l.addr)
      && W(l, At(e.ram, l.addr)) <= W(l, At(e'.ram, l.addr))
      && (if ev.Arrive? && ev.m.addr == l.addr then One(l, ev.m) <= Known(l, e') <= Max(Known(l, e), One(l, ev.m))
          else Known(l, e') == Known(l, e))
  {
    hide W, Handle, PendingOk, Known, DrainGate, WakeOne, MaxW;
    SleeplessLens(mode, l, e);
    match ev
    case Arrive(m, env) =>
      GatedArrival(mode, l, e, m, env);
      SleeplessLens(mode, l, Handle(mode, e, m, true, false, env).0);
    case Wake(env) =>
      WakeKeepsKnown(mode, l, e, env);
      WakeKeepsGate(mode, l, e, env);
      WakeGrows(mode, l, e, env);
    case Drain(env) =>
      DrainKeepsKnown(mode, l, e, env);
      DrainKeepsGate(mode, e, env);
      DrainGrows(mode, l, e, env);
  }

  lemma WakeGrows(mode: Mode, l: Lens, e: Engine, env: Env)
    requires Fits(mode, l) && PendingOk(mode, l, e)
    ensures W(l, At(e.ram, l.addr)) <= W(l, At(WakeOne(mode, e, env).ram, l.addr))
  {
    hide W, Handle;
    if e.sleep != [] {
      MemoryGrows(mode, l, e.(sleep := e.sleep[1..]), e.sleep[0], false, false, env);
    }
  }

  lemma DrainGrows(mode: Mode, l: Lens, e: Engine, env: Env)
    requires Fits(mode, l) && PendingOk(mode, l, e)
    ensures W(l, At(e.ram, l.addr)) <= W(l, At(DrainGate(mode, e, env).ram, l.addr))
  {
    hide W, Handle;
    if e.gate.Some? && Due(e.gate.value, env.now) && env.running {
      var (g, item) := AfterPop(e.gate.value, env.now);
      assert InGate(e)[0] == Msg(item.value.addr, item.value.value);
      MemoryGrows(mode, l, e.(gate := Some(g)), Msg(item.value.addr, item.value.value), false, true, env);
    }
  }

  // ------------------------------------------- the schedule that loses a bit

  /** Everything arrives while the game runs. */
  function ArriveAll(msgs: seq<Msg>): seq<Event> {
    if msgs == [] then [] else [Arrive(msgs[0], Env(true, true, true, 0.0))] + ArriveAll(msgs[1..])
  }

  /** Then the gate is drained, each time as soon as it is due. */
  function DrainOut(g: Gate): seq<Event>
    decreases |g.pending|
  {
    if g.pending == [] then []
    else
      var now := if g.last.None? then 0.0 else g.last.value + g.interval;
      [Drain(Env(true, true, true, now))] + DrainOut(AfterPop(g, now).0)
  }

  lemma {:induction false} ArriveAllArrives(msgs: seq<Msg>)
    ensures Arrivals(ArriveAll(msgs)) == msgs && EnvsWork(ArriveAll(msgs))
  {
    if msgs != [] {
      ArriveAllArrives(msgs[1..]);
      var events := ArriveAll(msgs);
      assert events[1..] == ArriveAll(msgs[1..]);
      forall i | 0 <= i < |events| ensures events[i].env.canRead && events[i].env.canWrite {
        assert i > 0 ==> events[i] == events[1..][i - 1];
      }
    }
  }

  lemma {:induction false} DrainOutDrains(mode: Mode, e: Engine)
    requires e.gate.Some?
    ensures var e' := DeliverAll(mode, e, DrainOut(e.gate.value));
      InGate(e') == [] && e'.sleep == e.sleep && Arrivals(DrainOut(e.gate.value)) == [] && EnvsWork(DrainOut(e.gate.value))
    decreases |e.gate.value.pending|
  {
    hide Handle;
    var g := e.gate.value;
    if g.pending != [] {
      var now := if g.last.None? then 0.0 else g.last.value + g.interval;
      var env := Env(true, true, true, now);
      var events := DrainOut(g);
      assert Due(g, now);
      var (g', item) := AfterPop(g, now);
      var e1 := DrainGate(mode, e, env);
      BypassKeepsGate(mode, e.(gate := Some(g')), Msg(item.value.addr, item.value.value), env);
      assert events[0] == Drain(env) && events[1..] == DrainOut(g');
      DrainOutDrains(mode, e1);
      forall i | 0 <= i < |events| ensures events[i].env.canRead && events[i].env.canWrite {
        assert i > 0 ==> events[i] == events[1..][i - 1];
      }
    }
  }

  lemma {:induction false} DeliverSplit(mode: Mode, e: Engine, first: seq<Event>, rest: seq<Event>)
    ensures DeliverAll(mode, e, first + rest) == DeliverAll(mode, DeliverAll(mode, e, first), rest)
    ensures Arrivals(first + rest) == Arrivals(first) + Arrivals(rest)
    decreases |first|
  {
    hide Deliver;
    if first == [] {
      assert first + rest == rest;
    } else {
      assert (first + rest)[1..] == first[1..] + rest;
      DeliverSplit(mode, Deliver(mode, e, first[0]), first[1..], rest);
    }
  }

  /** When everything has arrived nothing sleeps, memory is as it was at a gated bit, and the gate holds its last update. */
  lemma {:induction false} AllArrived(mode: Mode, l: Lens, e: Engine, msgs: seq<Msg>)
    requires Fits(mode, l) && l.BitAt? && PendingOk(mode, l, e) && TakesGate(mode, e, l.addr) && BytesTo(l.addr, msgs)
    ensures var e' := DeliverAll(mode, e, ArriveAll(msgs));
      && PendingOk(mode, l, e') && TakesGate(mode, e', l.addr) && e'.gate.Some? && e'.sleep == e.sleep
      && At(e'.ram, l.addr) == At(e.ram, l.addr)
      && GateW(l, e') == if LastTo(l.addr, msgs).Some? then LastW(l, msgs) else GateW(l, e)
    decreases |msgs|
  {
    hide W, Handle, PendingOk, MaxW, Fits;
    if msgs != [] {
      var env := Env(true, true, true, 0.0);
      var e1 := Handle(mode, e, msgs[0], true, false, env).0;
      assert msgs[0] in msgs && forall m :: m in msgs[1..] ==> m in msgs;
      GatedArrival(mode, l, e, msgs[0], env);
      AwakeStays(mode, e, msgs[0], env);
      assert ArriveAll(msgs)[0] == Arrive(msgs[0], env) && ArriveAll(msgs)[1..] == ArriveAll(msgs[1..]);
      AllArrived(mode, l, e1, msgs[1..]);
    }
  }

  lemma AwakeStays(mode: Mode, e: Engine, m: Msg, env: Env)
    requires env.running
    ensures Handle(mode, e, m, true, false, env).0.sleep == e.sleep
  {
    hide RecordChanged, Implausible, AfterEnqueue;
  }

  lemma {:induction false} DrainsKeepKnown(mode: Mode, l: Lens, e: Engine, events: seq<Event>)
    requires Fits(mode, l) && PendingOk(mode, l, e) && EnvsWork(events) && Arrivals(events) == []
    ensures Known(l, DeliverAll(mode, e, events)) == Known(l, e)
    decreases |events|
  {
    hide W, Handle, PendingOk, Known, DrainGate, WakeOne, Fits;
    if events != [] {
      assert events[0].env.canRead && events[0].env.canWrite;
      assert !events[0].Arrive?;
      if events[0].Wake? {
        WakeKeepsKnown(mode, l, e, events[0].env);
      } else {
        DrainKeepsKnown(mode, l, e, events[0].env);
      }
      DrainsKeepKnown(mode, l, Deliver(mode, e, events[0]), events[1..]);
    }
  }

  /** Everything arrives, then everything is drained. */
  function Coalesced(mode: Mode, e: Engine, msgs: seq<Msg>): seq<Event> {
    var e' := DeliverAll(mode, e, ArriveAll(msgs));
    ArriveAll(msgs) + if e'.gate.Some? then DrainOut(e'.gate.value) else []
  }

  /** The events deliver the updates, endpoints work, and nothing is pending at the end. */
  ghost predicate Settles(mode: Mode, e: Engine, msgs: seq<Msg>, events: seq<Event>) {
    && EnvsWork(events) && Arrivals(events) == msgs
    && DeliverAll(mode, e, events).sleep == [] && InGate(DeliverAll(mode, e, events)) == []
  }

  lemma EnvsAppend(first: seq<Event>, rest: seq<Event>)
    requires EnvsWork(first) && EnvsWork(rest)
    ensures EnvsWork(first + rest)
  {
    forall i | 0 <= i < |first + rest| ensures (first + rest)[i].env.canRead && (first + rest)[i].env.canWrite {
      assert (first + rest)[i] == if i < |first| then first[i] else rest[i - |first|];
    }
  }

  /** The two halves of the schedule. */
  lemma CoalescedHalves(mode: Mode, l: Lens, e: Engine, msgs: seq<Msg>)
    requires Fits(mode, l) && l.BitAt? && PendingOk(mode, l, e) && TakesGate(mode, e, l.addr) && BytesTo(l.addr, msgs)
    ensures var e1 := DeliverAll(mode, e, ArriveAll(msgs));
      && e1.gate.Some? && Coalesced(mode, e, msgs) == ArriveAll(msgs) + DrainOut(e1.gate.value)
      && DeliverAll(mode, e, Coalesced(mode, e, msgs)) == DeliverAll(mode, e1, DrainOut(e1.gate.value))
      && Arrivals(Coalesced(mode, e, msgs)) == msgs && EnvsWork(Coalesced(mode, e, msgs))
  {
    hide Deliver, DeliverAll, Arrivals, ArriveAll, DrainOut, EnvsWork, PendingOk, Fits, BytesTo, TakesGate, GateW, LastW;
    var e1 := DeliverAll(mode, e, ArriveAll(msgs));
    AllArrived(mode, l, e, msgs);
    ArriveAllArrives(msgs);
    DrainOutDrains(mode, e1);
    DeliverSplit(mode, e, ArriveAll(msgs), DrainOut(e1.gate.value));
    EnvsAppend(ArriveAll(msgs), DrainOut(e1.gate.value));
    assert msgs + [] == msgs;
  }

  /** In that schedule memory gets the last update, and none of the ones before. */
  lemma CoalescedSettles(mode: Mode, l: Lens, e: Engine, msgs: seq<Msg>)
    requires Fits(mode, l) && l.BitAt? && e.Valid() && TakesGate(mode, e, l.addr) && e.sleep == [] && InGate(e) == []
    requires BytesTo(l.addr, msgs)
    ensures Settles(mode, e, msgs, Coalesced(mode, e, msgs))
    ensures W(l, At(DeliverAll(mode, e, Coalesced(mode, e, msgs)).ram, l.addr)) == Max(W(l, At(e.ram, l.addr)), LastW(l, msgs))
  {
    NothingPending(mode, l, e);
    hide *;
    var e1 := DeliverAll(mode, e, ArriveAll(msgs));
    CoalescedHalves(mode, l, e, msgs);
    AllArrived(mode, l, e, msgs);
    DrainOutDrains(mode, e1);
    DrainsKeepKnown(mode, l, e1, DrainOut(e1.gate.value));
    SleeplessLens(mode, l, e1);
    RestKnown(l, DeliverAll(mode, e1, DrainOut(e1.gate.value)));
    SettlesBy(mode, e, msgs, Coalesced(mode, e, msgs));
    LastOrNone(l, msgs);
  }

  lemma SettlesBy(mode: Mode, e: Engine, msgs: seq<Msg>, events: seq<Event>)
    requires EnvsWork(events) && Arrivals(events) == msgs
    requires DeliverAll(mode, e, events).sleep == [] && InGate(DeliverAll(mode, e, events)) == []
    ensures Settles(mode, e, msgs, events)
  {
  }

  lemma LastOrNone(l: Lens, msgs: seq<Msg>)
    ensures LastTo(l.addr, msgs).None? ==> LastW(l, msgs) == 0
    ensures forall x: nat :: Max(x, 0) == x
  {
  }

  lemma NothingPending(mode: Mode, l: Lens, e: Engine)
    requires l.addr in mode.recs && e.Valid() && e.sleep == [] && InGate(e) == []
    ensures PendingOk(mode, l, e) && GateW(l, e) == 0 && Known(l, e) == W(l, At(e.ram, l.addr))
  {
    hide W;
  }

  lemma RestKnown(l: Lens, e: Engine)
    requires e.sleep == [] && InGate(e) == []
    ensures Known(l, e) == W(l, At(e.ram, l.addr)) && GateW(l, e) == 0
  {
    hide W;
  }

  // -------------------------------------------------------------- the theorem

  /** A masked bit after any schedule that settles, if the last update holds every bit. */
  lemma SettledBit(mode: Mode, l: Lens, e: Engine, msgs: seq<Msg>, events: seq<Event>)
    requires Fits(mode, l) && l.BitAt? && e.Valid() && TakesGate(mode, e, l.addr) && e.sleep == [] && InGate(e) == []
    requires BytesTo(l.addr, msgs) && Settles(mode, e, msgs, events) && LastHolds(mode, l.addr, e, msgs)
    ensures W(l, At(DeliverAll(mode, e, events).ram, l.addr)) == W(l, At(ApplyAll(mode, e, msgs).ram, l.addr))
  {
    BitsSendable(mode, l, msgs);
    MaxIsAny(l, msgs);
    LastIsBelow(l, msgs);
    assert MaxW(l, msgs) <= Max(W(l, At(e.ram, l.addr)), LastW(l, msgs));
    NothingPending(mode, l, e);
    hide Handle, Deliver, DeliverAll, PendingOk, Known, MaxW, W, ApplyAll, Fits, LastHolds;
    GatedBounds(mode, l, e, events);
    RestKnown(l, DeliverAll(mode, e, events));
    ApplyAllW(mode, l, e, msgs);
  }

  /** If it does not, the coalescing schedule loses a bit. */
  lemma LostBit(mode: Mode, a: int, e: Engine, msgs: seq<Msg>)
    requires a in mode.recs && BitOrRec(mode.recs[a]) && TakesGate(mode, e, a) && e.Valid() && e.sleep == [] && InGate(e) == []
    requires BytesTo(a, msgs) && !LastHolds(mode, a, e, msgs)
    ensures Settles(mode, e, msgs, Coalesced(mode, e, msgs))
    ensures At(DeliverAll(mode, e, Coalesced(mode, e, msgs)).ram, a) != At(ApplyAll(mode, e, msgs).ram, a)
  {
    var i: nat :| i < 8 && Bit(mode.recs[a].Mask(), i) && AnySets(msgs, a, i) && !Bit(At(e.ram, a), i)
                  && !(LastTo(a, msgs).Some? && Bit(LastTo(a, msgs).value.value, i));
    var l := BitAt(a, i);
    MaxIsAny(l, msgs);
    BitsSendable(mode, l, msgs);
    assert W(l, At(e.ram, a)) == 0 && LastW(l, msgs) == 0;
    hide DeliverAll, ApplyAll, Coalesced, Settles, MaxW, LastW, AnySets;
    CoalescedSettles(mode, l, e, msgs);
    ApplyAllW(mode, l, e, msgs);
  }

  /**
   * Path independence, exactly: behind the gate, every schedule that leaves nothing pending ends with the byte that
   * writing each update at once gives, if and only if each masked bit set by any of the updates is in memory already or
   * in the last of them.
   */
  lemma PathIndependentIff(mode: Mode, a: int, e: Engine, msgs: seq<Msg>)
    requires a in mode.recs && BitOrRec(mode.recs[a]) && TakesGate(mode, e, a) && e.Valid() && e.sleep == [] && InGate(e) == []
    requires BytesTo(a, msgs)
    ensures LastHolds(mode, a, e, msgs) <==>
      forall events :: Settles(mode, e, msgs, events) ==>
        At(DeliverAll(mode, e, events).ram, a) == At(ApplyAll(mode, e, msgs).ram, a)
  {
    hide DeliverAll, ApplyAll, Coalesced, Settles, LastHolds, BitOrRec;
    if LastHolds(mode, a, e, msgs) {
      forall events | Settles(mode, e, msgs, events)
        ensures At(DeliverAll(mode, e, events).ram, a) == At(ApplyAll(mode, e, msgs).ram, a)
      {
        GatedIndependent(mode, a, e, msgs, events);
      }
    } else {
      LostBit(mode, a, e, msgs);
    }
  }

  lemma GatedIndependent(mode: Mode, a: int, e: Engine, msgs: seq<Msg>, events: seq<Event>)
    requires a in mode.recs && BitOrRec(mode.recs[a]) && TakesGate(mode, e, a) && e.Valid() && e.sleep == [] && InGate(e) == []
    requires BytesTo(a, msgs) && Settles(mode, e, msgs, events) && LastHolds(mode, a, e, msgs)
    ensures At(DeliverAll(mode, e, events).ram, a) == At(ApplyAll(mode, e, msgs).ram, a)
  {
    hide DeliverAll, ApplyAll, Bit, LastHolds, TakesGate, RecordChanged, Arrivals, InGate;
    var x, y := At(DeliverAll(mode, e, events).ram, a), At(ApplyAll(mode, e, msgs).ram, a);
    forall i: nat | i < 8 ensures Bit(x, i) == Bit(y, i) {
      if Bit(mode.recs[a].Mask(), i) {
        SettledBit(mode, BitAt(a, i), e, msgs, events);
      } else {
        DeliverKeepsUnmasked(mode, a, i, e, events);
        ApplyAllKeepsUnmasked(mode, a, i, e, msgs);
      }
    }
    SameByte(x, y);
  }

  // ------------------------------------------------------------- consequences

  /** A stream in which no masked bit is cleared again ends with an update that holds them all. */
  lemma {:induction false} RisingLast(l: Lens, floor: nat, msgs: seq<Msg>)
    requires Rising(l, floor, msgs)
    ensures LastTo(l.addr, msgs).Some? ==> floor <= LastW(l, msgs) && MaxW(l, msgs) <= LastW(l, msgs)
    ensures LastTo(l.addr, msgs).None? ==> MaxW(l, msgs) == 0
    decreases |msgs|
  {
    hide W;
    if msgs != [] {
      RisingLast(l, if msgs[0].addr == l.addr then W(l, msgs[0].value) else floor, msgs[1..]);
    }
  }

  lemma RisingHolds(mode: Mode, a: int, e: Engine, msgs: seq<Msg>)
    requires a in mode.recs && forall i: nat :: i < 8 && Bit(mode.recs[a].Mask(), i) ==> Rising(BitAt(a, i), 0, msgs)
    ensures LastHolds(mode, a, e, msgs)
  {
    hide Bit, AnySets;
    forall i: nat | i < 8 && Bit(mode.recs[a].Mask(), i) && AnySets(msgs, a, i)
      ensures LastTo(a, msgs).Some? && Bit(LastTo(a, msgs).value.value, i)
    {
      RisingLast(BitAt(a, i), 0, msgs);
      MaxIsAny(BitAt(a, i), msgs);
    }
  }

  /** The stream for address `a`: plausible bytes, and behind the gate, a last update that holds every bit. */
  ghost predicate GoodStream(mode: Mode, e: Engine, a: int, msgs: seq<Msg>)
    requires a in mode.recs
  {
    && (forall m :: m in msgs && m.addr == a ==> 0 <= m.value < 0x100 && !Implausible(mode.recs[a], m.value))
    && (TakesGate(mode, e, a) ==> LastHolds(mode, a, e, msgs))
  }

  /** Off the gate every schedule delivers every update. */
  lemma UngatedW(mode: Mode, l: Lens, e: Engine, events: seq<Event>)
    requires Fits(mode, l) && e.Valid() && !TakesGate(mode, e, l.addr) && e.sleep == [] && InGate(e) == []
    requires AllSendable(mode, l, Arrivals(events)) && Settles(mode, e, Arrivals(events), events)
    ensures W(l, At(DeliverAll(mode, e, events).ram, l.addr)) == W(l, At(ApplyAll(mode, e, Arrivals(events)).ram, l.addr))
  {
    NothingPending(mode, l, e);
    hide RecordChanged, Implausible, W, Handle, DeliverAll, Arrivals, ApplyAll, Known, PendingOk;
    DeliverAllKeepsKnown(mode, l, e, events);
    RestKnown(l, DeliverAll(mode, e, events));
    ApplyAllW(mode, l, e, Arrivals(events));
  }

  lemma UngatedIndependent(mode: Mode, a: int, e: Engine, events: seq<Event>)
    requires a in mode.recs && (HighRec(mode.recs[a]) || BitOrRec(mode.recs[a])) && !TakesGate(mode, e, a)
    requires e.Valid() && e.sleep == [] && InGate(e) == [] && Settles(mode, e, Arrivals(events), events)
    requires GoodStream(mode, e, a, Arrivals(events))
    ensures At(DeliverAll(mode, e, events).ram, a) == At(ApplyAll(mode, e, Arrivals(events)).ram, a)
  {
    hide RecordChanged, Implausible, DeliverAll, Arrivals, ApplyAll, Bit, TakesGate, InGate, Settles;
    var x, y := At(DeliverAll(mode, e, events).ram, a), At(ApplyAll(mode, e, Arrivals(events)).ram, a);
    if HighRec(mode.recs[a]) {
      UngatedW(mode, Value(a), e, events);
    } else {
      forall i: nat | i < 8 ensures Bit(x, i) == Bit(y, i) {
        if Bit(mode.recs[a].Mask(), i) {
          UngatedW(mode, BitAt(a, i), e, events);
        } else {
          DeliverKeepsUnmasked(mode, a, i, e, events);
          ApplyAllKeepsUnmasked(mode, a, i, e, Arrivals(events));
        }
      }
      SameByte(x, y);
    }
  }

  /**
   * However the updates to a `high` or `bitOr` address interleave with waking and draining, once nothing is pending the
   * byte is what writing each update at once would have made it.
   */
  lemma PathIndependent(mode: Mode, a: int, e: Engine, events: seq<Event>)
    requires a in mode.recs && (HighRec(mode.recs[a]) || BitOrRec(mode.recs[a]))
    requires e.Valid() && e.sleep == [] && InGate(e) == [] && EnvsWork(events)
    requires GoodStream(mode, e, a, Arrivals(events))
    requires DeliverAll(mode, e, events).sleep == [] && InGate(DeliverAll(mode, e, events)) == []
    ensures At(DeliverAll(mode, e, events).ram, a) == At(ApplyAll(mode, e, Arrivals(events)).ram, a)
  {
    hide DeliverAll, Arrivals, ApplyAll, LastHolds;
    if TakesGate(mode, e, a) {
      PathIndependentIff(mode, a, e, Arrivals(events));
    } else {
      UngatedIndependent(mode, a, e, events);
    }
  }

  /** In particular for streams in which masked bits are never cleared again, as partners send them. */
  lemma RisingIndependent(mode: Mode, a: int, e: Engine, events: seq<Event>)
    requires a in mode.recs && BitOrRec(mode.recs[a]) && e.Valid() && e.sleep == [] && InGate(e) == [] && EnvsWork(events)
    requires BytesTo(a, Arrivals(events))
    requires forall i: nat :: i < 8 && Bit(mode.recs[a].Mask(), i) ==> Rising(BitAt(a, i), 0, Arrivals(events))
    requires DeliverAll(mode, e, events).sleep == [] && InGate(DeliverAll(mode, e, events)) == []
    ensures At(DeliverAll(mode, e, events).ram, a) == At(ApplyAll(mode, e, Arrivals(events)).ram, a)
  {
    hide DeliverAll, Arrivals, ApplyAll, LastHolds, Bit;
    RisingHolds(mode, a, e, Arrivals(events));
    PathIndependent(mode, a, e, events);
  }

  /** What one update makes of a bit that is written at once. */
  lemma WrittenBit(mode: Mode, a: int, i: nat, e: Engine, v: byte, env: Env)
    requires a in mode.recs && BitOrRec(mode.recs[a]) && i < 8 && Bit(mode.recs[a].Mask(), i) && env.canRead && env.canWrite
    ensures var e' := Handle(mode, e, Msg(a, v), false, true, env).0;
      && (Bit(At(e'.ram, a), i) <==> Bit(At(e.ram, a), i) || Bit(v, i))
      && e'.gate == e.gate && e'.sleep == e.sleep
  {
    hide RecordChanged, Bit;
    BitOrReceive(mode.recs[a], v, At(e.ram, a), i);
  }

  lemma ArrivalsCoalesce(mode: Mode, a: int, e: Engine, v: byte, w: byte, env: Env)
    requires a in mode.recs && BitOrRec(mode.recs[a]) && TakesGate(mode, e, a) && e.gate.value.pending == []
    ensures var e' := Deliver(mode, Deliver(mode, e, Arrive(Msg(a, v), env)), Arrive(Msg(a, w), env));
      e'.gate.Some? && e'.gate.value.pending == [Entry(a, w)] && e'.gate.value.last == e.gate.value.last
      && e'.gate.value.interval == e.gate.value.interval && e'.ram == e.ram && e'.sleep == e.sleep
  {
    hide DropOld;
    assert [Entry(a, w)] + [Entry(a, v)][1..] == [Entry(a, w)];
  }

  /**
   * A gated stream that clears a bit again is where the paths differ: written at once the bit stays set, coalesced in
   * the gate it is lost.
   */
  lemma GateLosesFallingBit(mode: Mode, a: int, i: nat, e: Engine, v: byte, w: byte, env: Env)
    requires a in mode.recs && BitOrRec(mode.recs[a]) && i < 8 && Bit(mode.recs[a].Mask(), i)
    requires TakesGate(mode, e, a) && e.gate.value.pending == [] && e.sleep == []
    requires Bit(v, i) && !Bit(w, i) && !Bit(At(e.ram, a), i) && env.running && env.canRead && env.canWrite
    requires e.gate.value.last.None? || env.now - e.gate.value.last.value >= e.gate.value.interval
    ensures var events := [Arrive(Msg(a, v), env), Arrive(Msg(a, w), env), Drain(env)];
      var end := DeliverAll(mode, e, events);
      && end.sleep == [] && InGate(end) == [] && !Bit(At(end.ram, a), i)
      && Bit(At(ApplyAll(mode, e, Arrivals(events)).ram, a), i)
  {
    hide Bit, Handle, RecordChanged;
    var events := [Arrive(Msg(a, v), env), Arrive(Msg(a, w), env), Drain(env)];
    var e1 := Deliver(mode, e, events[0]);
    var e2 := Deliver(mode, e1, events[1]);
    ArrivalsCoalesce(mode, a, e, v, w, env);
    var (g, item) := AfterPop(e2.gate.value, env.now);
    var e3 := Deliver(mode, e2, events[2]);
    WrittenBit(mode, a, i, e2.(gate := Some(g)), w, env);
    assert events[1..][1..] == events[2..] && events[2..][1..] == [];
    assert DeliverAll(mode, e2, events[2..]) == DeliverAll(mode, e3, []);
    assert DeliverAll(mode, e, events) == DeliverAll(mode, e1, events[1..]) == DeliverAll(mode, e2, events[2..]) == e3;
    var now := Env(true, true, true, 0.0);
    assert Arrivals(events[2..]) == [];
    assert Arrivals(events[1..]) == [Msg(a, w)];
    assert Arrivals(events) == [Msg(a, v), Msg(a, w)];
    var a1 := Handle(mode, e, Msg(a, v), false, true, now).0;
    WrittenBit(mode, a, i, e, v, now);
    WrittenBit(mode, a, i, a1, w, now);
    assert [Msg(a, v), Msg(a, w)][1..] == [Msg(a, w)] && [Msg(a, w)][1..] == [];
    assert ApplyAll(mode, a1, [Msg(a, w)]) == ApplyAll(mode, Handle(mode, a1, Msg(a, w), false, true, now).0, []);
  }
}
