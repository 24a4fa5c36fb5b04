/** Two bridges joined by FIFO channels, every interleaving of their steps, and the convergence of what they sync. */
module Replicas {
  import opened Wrappers
  import opened Bytes
  import opened Bits
  import opened Records
  import opened MapWriteGates
  import opened SyncEngines
  import opened Delivery

  /** One bridge: its engine with the game's memory, and the last snapshot it read. */
  datatype Side = Side(e: Engine, snap: Memory)

  datatype System = System(a: Side, b: Side, toA: seq<Msg>, toB: seq<Msg>)

  function Swap(s: System): System { System(s.b, s.a, s.toB, s.toA) }

  /**
   * A step of one side: the game writes a byte, a snapshot is read, one address of it is polled, an update is taken
   * from the channel, a sleeping one is handled, the gate is drained.
   */
  datatype Action = Write(addr: int, value: byte) | Look | Poll(addr: int) | Receive(env: Env) | WakeUp(env: Env) | Release(env: Env)

  datatype Step = Step(left: bool, act: Action)

  /** The step taken by side `a`. */
  function Act(mode: Mode, s: System, act: Action): System
    requires mode.Valid()
  {
    var e := s.a.e;
    match act
    case Write(addr, value) => s.(a := s.a.(e := e.(ram := e.ram[addr := value])))
    case Look => s.(a := s.a.(snap := e.ram))
    case Poll(addr) =>
      if addr !in mode.recs || ImplausibleSnapshot(mode, s.a.snap) then s
      else
        var (cache, out) := PollOne(mode, e.cache, s.a.snap, addr);
        s.(a := s.a.(e := e.(cache := cache)), toB := s.toB + out)
    case Receive(env) =>
      if s.toA == [] then s
      else s.(a := s.a.(e := Handle(mode, e, s.toA[0], true, false, env).0), toA := s.toA[1..])
    case WakeUp(env) => s.(a := s.a.(e := WakeOne(mode, e, env)))
    case Release(env) => s.(a := s.a.(e := DrainGate(mode, e, env)))
  }

  function Take(mode: Mode, s: System, step: Step): System
    requires mode.Valid()
  {
    if step.left then Act(mode, s, step.act) else Swap(Act(mode, Swap(s), step.act))
  }

  function Exec(mode: Mode, s: System, steps: seq<Step>): System
    requires mode.Valid()
    decreases |steps|
  {
    if steps == [] then s else Exec(mode, Take(mode, s, steps[0]), steps[1..])
  }

  // --------------------------------------------------- polls step by step

  function Polls(addrs: seq<int>): seq<Step> {
    if addrs == [] then [] else [Step(true, Poll(addrs[0]))] + Polls(addrs[1..])
  }

  /** The engine's `diff` of a snapshot is the run of one-address polls over the table. */
  lemma {:induction false} DiffIsPolls(mode: Mode, s: System, addrs: seq<int>)
    requires mode.Valid() && !ImplausibleSnapshot(mode, s.a.snap) && forall a :: a in addrs ==> a in mode.recs
    ensures var (cache, out) := PollAll(mode, s.a.e.cache, s.a.snap, addrs);
      Exec(mode, s, Polls(addrs)) == s.(a := s.a.(e := s.a.e.(cache := cache)), toB := s.toB + out)
    decreases |addrs|
  {
    hide PollOne, ImplausibleSnapshot;
    if addrs == [] {
      assert s.toB + [] == s.toB;
    } else {
      var (cache, out) := PollOne(mode, s.a.e.cache, s.a.snap, addrs[0]);
      var s' := Take(mode, s, Step(true, Poll(addrs[0])));
      DiffIsPolls(mode, s', addrs[1..]);
      var more := PollAll(mode, cache, s.a.snap, addrs[1..]).1;
      assert s.toB + out + more == s.toB + (out + more);
    }
  }

  // ---------------------------------------------------------- taken updates

  /** The update a step takes from the channel, the sleep queue or the gate, the engine that handles it, and how. */
  datatype Taken = Taken(e: Engine, m: Msg, rest: seq<Msg>, queueAsleep: bool, bypassGate: bool, env: Env)

  function TakenBy(mode: Mode, s: System, act: Action): Option<Taken> {
    var e := s.a.e;
    match act
    case Receive(env) => if s.toA == [] then None else Some(Taken(e, s.toA[0], s.toA[1..], true, false, env))
    case WakeUp(env) =>
      if e.sleep == [] then None else Some(Taken(e.(sleep := e.sleep[1..]), e.sleep[0], s.toA, false, false, env))
    case Release(env) =>
      if e.gate.None? || !Due(e.gate.value, env.now) || !env.running then None
      else
        var (g, item) := AfterPop(e.gate.value, env.now);
        Some(Taken(e.(gate := Some(g)), Msg(item.value.addr, item.value.value), s.toA, false, true, env))
    case _ => None
  }

  function Handled(mode: Mode, t: Taken): Engine { Handle(mode, t.e, t.m, t.queueAsleep, t.bypassGate, t.env).0 }

  lemma TakenActs(mode: Mode, s: System, act: Action)
    requires mode.Valid() && TakenBy(mode, s, act).Some?
    ensures var t := TakenBy(mode, s, act).value;
      Act(mode, s, act) == s.(a := s.a.(e := Handled(mode, t)), toA := t.rest)
  {
    hide Handle;
  }

  /** The step writes an update to the lens's address into memory, whichever way it came. */
  predicate WritesAt(mode: Mode, l: Lens, s: System, act: Action)
    requires l.addr in mode.recs
  {
    TakenBy(mode, s, act).Some? &&
    var t := TakenBy(mode, s, act).value;
    && t.m.addr == l.addr && ReachesMemory(mode, t.e, t.m, t.queueAsleep, t.bypassGate, t.env)
    && t.env.canRead && t.env.canWrite
    && RecordChanged(mode.recs[l.addr], t.m.value, At(t.e.ram, l.addr), true).0
  }

  // -------------------------------------------------------------- hypotheses

  /** What side `a` knows at the lens, with what is on its way there. */
  function Reachable(l: Lens, s: System): nat { Max(Known(l, s.a.e), MaxW(l, s.toA)) }

  /**
   * The step writes an update and carries into the cache, with the byte merged, a local bit that the partner neither has
   * nor will get. (A `high` update is only written over smaller values, so nothing is lost.)
   */
  ghost predicate Absorbs(mode: Mode, l: Lens, s: System, act: Action)
    requires l.addr in mode.recs
  {
    l.BitAt? && WritesAt(mode, l, s, act) && W(l, At(s.a.e.ram, l.addr)) > Reachable(l, Swap(s))
  }

  /** What the environment of a run must respect at the lens: local values only grow, endpoints work, nothing is absorbed. */
  ghost predicate Allowed(mode: Mode, l: Lens, s: System, act: Action)
    requires mode.Valid() && l.addr in mode.recs
  {
    match act
    case Write(addr, value) =>
      addr == l.addr ==> W(l, At(s.a.e.ram, addr)) <= W(l, value) && !Implausible(mode.recs[addr], value)
    case Look => true
    case Poll(_) => true
    case Receive(env) => env.canRead && env.canWrite && !Absorbs(mode, l, s, act)
    case WakeUp(env) => env.canRead && env.canWrite && !Absorbs(mode, l, s, act)
    case Release(env) => env.canRead && env.canWrite && !Absorbs(mode, l, s, act)
  }

  ghost predicate AllowedStep(mode: Mode, l: Lens, s: System, step: Step)
    requires mode.Valid() && l.addr in mode.recs
  {
    Allowed(mode, l, if step.left then s else Swap(s), step.act)
  }

  ghost predicate AllowedRun(mode: Mode, l: Lens, s: System, steps: seq<Step>)
    requires mode.Valid() && l.addr in mode.recs
    decreases |steps|
  {
    steps == [] || (AllowedStep(mode, l, s, steps[0]) && AllowedRun(mode, l, Take(mode, s, steps[0]), steps[1..]))
  }

  // --------------------------------------------------------------- invariant

  /** Half of the invariant: what `b` has cached has reached `a` or will, and `b` sends snapshots of growing values. */
  ghost predicate Half(mode: Mode, l: Lens, s: System)
    requires l.addr in mode.recs
  {
    var rec, sent := mode.recs[l.addr], W(l, At(s.b.snap, l.addr));
    && CacheW(l, s.b.e) <= Reachable(l, s)
    && MaxW(l, s.toA) <= sent && MaxW(l, s.a.e.sleep) <= sent && GateW(l, s.a.e) <= sent
    && sent <= W(l, At(s.b.e.ram, l.addr))
    && PendingOk(mode, l, s.a.e) && AllSendable(mode, l, s.toA)
    && (TakesGate(mode, s.a.e, l.addr) ==> Rising(l, GateW(l, s.a.e), s.toA))
    && !Implausible(rec, At(s.b.e.ram, l.addr)) && !Implausible(rec, At(s.b.snap, l.addr))
  }

  ghost predicate Inv(mode: Mode, l: Lens, s: System)
    requires l.addr in mode.recs
  {
    Half(mode, l, s) && Half(mode, l, Swap(s))
  }

  /**
   * What handling an update does to the cache and the memory at the lens, seen from the partner: the cache stays, or
   * takes the update, or, for a bit that is written, the merged bit.
   */
  lemma HandleBounds(mode: Mode, l: Lens, e: Engine, m: Msg, queueAsleep: bool, bypassGate: bool, env: Env)
    requires Fits(mode, l) && (m.addr == l.addr ==> Sendable(mode, l, m.value)) && env.canRead && env.canWrite
    requires !Implausible(mode.recs[l.addr], At(e.ram, l.addr))
    ensures var e' := Handle(mode, e, m, queueAsleep, bypassGate, env).0;
      && !Implausible(mode.recs[l.addr], At(e'.ram, l.addr))
      && (|| CacheW(l, e') <= Max(CacheW(l, e), One(l, m))
          || (l.BitAt? && m.addr == l.addr && ReachesMemory(mode, e, m, queueAsleep, bypassGate, env)
              && RecordChanged(mode.recs[l.addr], m.value, At(e.ram, l.addr), true).0
              && CacheW(l, e') == Max(W(l, At(e.ram, l.addr)), One(l, m))))
  {
    hide RecordChanged, W, Implausible, AfterEnqueue;
    if m.addr == l.addr && ReachesMemory(mode, e, m, queueAsleep, bypassGate, env) {
      MergeIsMax(mode, l, m.value, At(e.ram, l.addr));
      MergePlausible(mode, l, m.value, At(e.ram, l.addr));
    }
  }

  /** And what it leaves pending there. */
  lemma HandlePends(mode: Mode, l: Lens, e: Engine, m: Msg, queueAsleep: bool, bypassGate: bool, env: Env)
    requires Fits(mode, l) && e.Valid() && (m.addr == l.addr ==> Sendable(mode, l, m.value))
    ensures var e' := Handle(mode, e, m, queueAsleep, bypassGate, env).0;
      && MaxW(l, e'.sleep) <= Max(MaxW(l, e.sleep), One(l, m))
      && GateW(l, e') <= Max(GateW(l, e), One(l, m))
  {
    hide RecordChanged, W, Implausible, MaxW, Put, GateMsgs, Fits, One;
    if e.gate.Some? {
      GatePuts(mode, l, e.gate.value.pending, m);
    }
    MaxSnoc(l, e.sleep, m);
  }

  lemma GatePuts(mode: Mode, l: Lens, pending: seq<Entry>, m: Msg)
    requires Fits(mode, l) && Distinct(pending) && (m.addr == l.addr ==> Sendable(mode, l, m.value))
    ensures MaxW(l, GateMsgs(Put(pending, m.addr, m.value % 0x100))) <= Max(MaxW(l, GateMsgs(pending)), One(l, m))
  {
    hide W, Implausible, MaxW, Put, GateMsgs;
    MaxAfterPut(l, pending, m.addr, m.value % 0x100);
  }

  lemma MergePlausible(mode: Mode, l: Lens, v: int, prev: byte)
    requires Fits(mode, l) && Sendable(mode, l, v) && !Implausible(mode.recs[l.addr], prev)
    ensures !Implausible(mode.recs[l.addr], RecordChanged(mode.recs[l.addr], v, prev, true).1 % 0x100)
  {
    hide RecordChanged;
    if l.Value? {
      HighReceive(mode.recs[l.addr], v, prev);
    }
  }

  /** What a poll sends for the lens has the snapshot's value there. */
  lemma SendW(mode: Mode, l: Lens, cur: byte, prev: byte)
    requires Fits(mode, l) && !Implausible(mode.recs[l.addr], cur)
    ensures var (allow, sent) := RecordChanged(mode.recs[l.addr], cur, prev, false);
      allow ==> W(l, sent) == W(l, cur) && Sendable(mode, l, sent)
  {
    hide RecordChanged, Bit;
    match l
    case Value(_) => HighReceive(mode.recs[l.addr], cur, prev);
    case BitAt(_, i) => BitOrSend(mode.recs[l.addr], cur, prev, i);
  }

  // ------------------------------------------------------------ preservation

  /** A write of the game leaves the cache and everything pending alone. */
  lemma WriteLeaves(mode: Mode, l: Lens, e: Engine, addr: int, value: byte)
    requires l.addr in mode.recs
    ensures var e' := e.(ram := e.ram[addr := value]);
      && GateW(l, e') == GateW(l, e) && CacheW(l, e') == CacheW(l, e) && (PendingOk(mode, l, e') <==> PendingOk(mode, l, e))
      && (TakesGate(mode, e', l.addr) <==> TakesGate(mode, e, l.addr))
  {
    hide W, Implausible, MaxW, GateMsgs;
  }

  lemma WriteKeeps(mode: Mode, l: Lens, s: System, addr: int, value: byte)
    requires mode.Valid() && Fits(mode, l) && Inv(mode, l, s) && Allowed(mode, l, s, Write(addr, value))
    ensures Inv(mode, l, Act(mode, s, Write(addr, value)))
  {
    assert l.addr in mode.recs;
    hide W, Implausible, MaxW, Rising, PendingOk, AllSendable, GateW, CacheW, TakesGate, Fits;
    WriteLeaves(mode, l, s.a.e, addr, value);
    var e := s.a.e;
    assert W(l, At(e.ram, l.addr)) <= W(l, At(e.ram[addr := value], l.addr));
    assert Known(l, e) <= Known(l, e.(ram := e.ram[addr := value]));
    hide Known;
  }

  lemma LookKeeps(mode: Mode, l: Lens, s: System)
    requires mode.Valid() && Fits(mode, l) && Inv(mode, l, s)
    ensures Inv(mode, l, Act(mode, s, Look))
  {
    hide W, Implausible, MaxW, Rising;
  }

  lemma {:induction false} RisingSnoc(l: Lens, floor: nat, msgs: seq<Msg>, m: Msg)
    requires Rising(l, floor, msgs)
    requires m.addr == l.addr ==> floor <= W(l, m.value) && MaxW(l, msgs) <= W(l, m.value)
    ensures Rising(l, floor, msgs + [m])
    decreases |msgs|
  {
    hide W;
    if msgs == [] {
      assert msgs + [m] == [m];
      assert [m][1..] == [];
    } else {
      assert (msgs + [m])[1..] == msgs[1..] + [m];
      RisingSnoc(l, if msgs[0].addr == l.addr then W(l, msgs[0].value) else floor, msgs[1..], m);
    }
  }

  /** One poll sends nothing, or one update with the snapshot's value, which it then caches. */
  lemma PollSends(mode: Mode, l: Lens, cache: Memory, snap: Memory, addr: int)
    requires Fits(mode, l) && addr in mode.recs && !Implausible(mode.recs[l.addr], At(snap, l.addr))
    ensures var (cache', out) := PollOne(mode, cache, snap, addr);
      && |out| <= 1 && (out != [] ==> out[0].addr == addr)
      && (addr != l.addr ==> (l.addr in cache' <==> l.addr in cache) && (l.addr in cache ==> cache'[l.addr] == cache[l.addr]))
      && (addr == l.addr && out == [] ==> cache' == cache)
      && (addr == l.addr && out != [] ==>
            cache' == cache[l.addr := At(snap, l.addr)]
            && One(l, out[0]) == W(l, At(snap, l.addr)) && Sendable(mode, l, out[0].value))
  {
    hide W, Implausible, RecordChanged;
    if addr == l.addr && addr in cache {
      SendW(mode, l, At(snap, addr), cache[addr]);
    }
  }

  lemma SendableSnoc(mode: Mode, l: Lens, msgs: seq<Msg>, m: Msg)
    requires l.addr in mode.recs && AllSendable(mode, l, msgs) && (m.addr == l.addr ==> Sendable(mode, l, m.value))
    ensures AllSendable(mode, l, msgs + [m])
  {
  }

  /** Sending an update with the snapshot's value at the lens, and caching it, keeps the partner's half. */
  lemma SentKeeps(mode: Mode, l: Lens, s: System, e': Engine, m: Msg)
    requires mode.Valid() && Fits(mode, l) && Half(mode, l, Swap(s)) && e' == s.a.e.(cache := e'.cache)
    requires m.addr == l.addr ==> One(l, m) == W(l, At(s.a.snap, l.addr)) && Sendable(mode, l, m.value)
    requires CacheW(l, e') <= Max(CacheW(l, s.a.e), One(l, m))
    ensures Half(mode, l, Swap(s.(a := s.a.(e := e'), toB := s.toB + [m])))
  {
    hide W, Implausible, MaxW, Rising, PendingOk, Known, AllSendable, GateW;
    MaxSnoc(l, s.toB, m);
    SendableSnoc(mode, l, s.toB, m);
    if TakesGate(mode, s.b.e, l.addr) {
      RisingSnoc(l, GateW(l, s.b.e), s.toB, m);
    }
  }

  lemma PollKeepsPartner(mode: Mode, l: Lens, s: System, addr: int)
    requires mode.Valid() && Fits(mode, l) && Half(mode, l, Swap(s)) && addr in mode.recs
    ensures Half(mode, l, Swap(Act(mode, s, Poll(addr))))
  {
    hide W, Implausible, MaxW, Rising, PollOne, PendingOk, Known, AllSendable, GateW, ImplausibleSnapshot;
    var (cache', out) := PollOne(mode, s.a.e.cache, s.a.snap, addr);
    PollSends(mode, l, s.a.e.cache, s.a.snap, addr);
    if out != [] {
      assert out == [out[0]];
      SentKeeps(mode, l, s, s.a.e.(cache := cache'), out[0]);
    } else {
      assert s.toB + out == s.toB;
    }
  }

  lemma PollKeeps(mode: Mode, l: Lens, s: System, addr: int)
    requires mode.Valid() && Fits(mode, l) && Inv(mode, l, s)
    ensures Inv(mode, l, Act(mode, s, Poll(addr)))
  {
    hide W, Implausible, MaxW, Rising, PollOne;
    if addr in mode.recs {
      PollKeepsPartner(mode, l, s, addr);
    }
    var s' := Act(mode, s, Poll(addr));
    assert InGate(s'.a.e) == InGate(s.a.e);
  }

  /**
   * Side `a` makes `e'` of its engine by moving the update `m`, from the channel or from what was pending, and keeps
   * `rest` in the channel.
   */
  lemma MoveKeeps(mode: Mode, l: Lens, s: System, e': Engine, rest: seq<Msg>)
    requires mode.Valid() && Fits(mode, l) && Inv(mode, l, s)
    requires Max(Known(l, e'), MaxW(l, rest)) == Reachable(l, s)
    requires MaxW(l, rest) <= MaxW(l, s.toA) && AllSendable(mode, l, rest) && PendingOk(mode, l, e')
    requires MaxW(l, e'.sleep) <= W(l, At(s.b.snap, l.addr)) && GateW(l, e') <= W(l, At(s.b.snap, l.addr))
    requires TakesGate(mode, e', l.addr) ==> Rising(l, GateW(l, e'), rest)
    requires CacheW(l, e') <= Reachable(l, Swap(s))
    requires W(l, At(s.a.e.ram, l.addr)) <= W(l, At(e'.ram, l.addr)) && !Implausible(mode.recs[l.addr], At(e'.ram, l.addr))
    ensures Inv(mode, l, s.(a := s.a.(e := e'), toA := rest))
  {
    hide W, Half, Implausible, MaxW, Rising, PendingOk, Known, GateW, AllSendable, CacheW, Reachable;
    MoveKeepsOwn(mode, l, s, e', rest);
    MoveKeepsPartner(mode, l, Swap(s), e', rest);
  }

  lemma MoveKeepsOwn(mode: Mode, l: Lens, s: System, e': Engine, rest: seq<Msg>)
    requires l.addr in mode.recs && Half(mode, l, s) && Max(Known(l, e'), MaxW(l, rest)) == Reachable(l, s)
    requires MaxW(l, rest) <= MaxW(l, s.toA) && AllSendable(mode, l, rest) && PendingOk(mode, l, e')
    requires MaxW(l, e'.sleep) <= W(l, At(s.b.snap, l.addr)) && GateW(l, e') <= W(l, At(s.b.snap, l.addr))
    requires TakesGate(mode, e', l.addr) ==> Rising(l, GateW(l, e'), rest)
    ensures Half(mode, l, s.(a := s.a.(e := e'), toA := rest))
  {
    var s' := s.(a := s.a.(e := e'), toA := rest);
    assert Reachable(l, s') == Reachable(l, s);
    hide Reachable, Known, W, Implausible, MaxW, Rising, PendingOk, AllSendable, GateW, CacheW, TakesGate;
  }

  lemma MoveKeepsPartner(mode: Mode, l: Lens, s: System, e': Engine, rest: seq<Msg>)
    requires l.addr in mode.recs && Half(mode, l, s) && CacheW(l, e') <= Reachable(l, s)
    requires W(l, At(s.b.e.ram, l.addr)) <= W(l, At(e'.ram, l.addr)) && !Implausible(mode.recs[l.addr], At(e'.ram, l.addr))
    ensures Half(mode, l, s.(b := s.b.(e := e'), toB := rest))
  {
    var s' := s.(b := s.b.(e := e'), toB := rest);
    assert Reachable(l, s') == Reachable(l, s);
    hide Reachable, Known, W, Implausible, MaxW, Rising, PendingOk, AllSendable, GateW, CacheW, TakesGate;
  }

  lemma SentReaches(mode: Mode, l: Lens, s: System)
    requires l.addr in mode.recs && Inv(mode, l, s)
    ensures Max(CacheW(l, s.a.e), W(l, At(s.b.snap, l.addr))) <= Reachable(l, Swap(s))
  {
    hide W, Implausible, MaxW, Rising, PendingOk;
  }

  /** The received update is known or pending afterwards; it remains to bound what it leaves in cache and memory. */
  lemma ReceiveMoves(mode: Mode, l: Lens, s: System, env: Env)
    requires mode.Valid() && Fits(mode, l) && Inv(mode, l, s) && s.toA != [] && env.canRead && env.canWrite
    requires var e' := Handle(mode, s.a.e, s.toA[0], true, false, env).0;
      CacheW(l, e') <= Reachable(l, Swap(s)) && !Implausible(mode.recs[l.addr], At(e'.ram, l.addr))
    ensures Inv(mode, l, Act(mode, s, Receive(env)))
  {
    hide W, Implausible, Rising, Handle, PendingOk, Known;
    var e, m, rest := s.a.e, s.toA[0], s.toA[1..];
    PendingValid(mode, l, e);
    assert [m] + rest == s.toA;
    assert MaxW(l, s.toA) == Max(One(l, m), MaxW(l, rest));
    ArriveKeepsKnown(mode, l, e, m, env, rest);
    HandlePends(mode, l, e, m, true, false, env);
    MemoryGrows(mode, l, e, m, true, false, env);
    MoveKeeps(mode, l, s, Handle(mode, e, m, true, false, env).0, rest);
  }

  lemma WakeMoves(mode: Mode, l: Lens, s: System, env: Env)
    requires mode.Valid() && Fits(mode, l) && Inv(mode, l, s) && s.a.e.sleep != [] && env.canRead && env.canWrite
    requires var e' := WakeOne(mode, s.a.e, env);
      CacheW(l, e') <= Reachable(l, Swap(s)) && !Implausible(mode.recs[l.addr], At(e'.ram, l.addr))
    ensures Inv(mode, l, Act(mode, s, WakeUp(env)))
  {
    hide W, Implausible, Rising, Handle, Known;
    var e := s.a.e;
    var e1, m := e.(sleep := e.sleep[1..]), e.sleep[0];
    assert InGate(e1) == InGate(e);
    assert MaxW(l, e.sleep) == Max(One(l, m), MaxW(l, e1.sleep));
    WakeKeepsKnown(mode, l, e, env);
    WakeKeepsGate(mode, l, e, env);
    HandlePends(mode, l, e1, m, false, false, env);
    MemoryGrows(mode, l, e1, m, false, false, env);
    MoveKeeps(mode, l, s, WakeOne(mode, e, env), s.toA);
  }

  lemma ReleaseMoves(mode: Mode, l: Lens, s: System, env: Env)
    requires mode.Valid() && Fits(mode, l) && Inv(mode, l, s) && env.canRead && env.canWrite
    requires s.a.e.gate.Some? && Due(s.a.e.gate.value, env.now) && env.running
    requires var e' := DrainGate(mode, s.a.e, env);
      CacheW(l, e') <= Reachable(l, Swap(s)) && !Implausible(mode.recs[l.addr], At(e'.ram, l.addr))
    ensures Inv(mode, l, Act(mode, s, Release(env)))
  {
    hide W, Implausible, Rising, Handle, Known;
    var e := s.a.e;
    var (g, item) := AfterPop(e.gate.value, env.now);
    var e1, m := e.(gate := Some(g)), Msg(item.value.addr, item.value.value);
    assert InGate(e)[0] == m && InGate(e1) == InGate(e)[1..];
    assert GateW(l, e) == Max(One(l, m), GateW(l, e1));
    DrainKeepsKnown(mode, l, e, env);
    DrainKeepsGate(mode, e, env);
    HandlePends(mode, l, e1, m, false, true, env);
    MemoryGrows(mode, l, e1, m, false, true, env);
    if TakesGate(mode, e, l.addr) {
      RisingFrom(l, GateW(l, e), GateW(l, DrainGate(mode, e, env)), s.toA);
    }
    MoveKeeps(mode, l, s, DrainGate(mode, e, env), s.toA);
  }

  /** What a step takes for the lens was sendable, and is not above the partner's snapshot. */
  lemma TakenSendable(mode: Mode, l: Lens, s: System, act: Action)
    requires mode.Valid() && Fits(mode, l) && Inv(mode, l, s) && TakenBy(mode, s, act).Some?
    ensures var t := TakenBy(mode, s, act).value;
      (t.m.addr == l.addr ==> Sendable(mode, l, t.m.value)) && One(l, t.m) <= W(l, At(s.b.snap, l.addr))
  {
    hide W, Implausible, Rising;
    var e := s.a.e;
    if act.Release? {
      var t := TakenBy(mode, s, act).value;
      assert InGate(e)[0] == t.m;
      assert GateW(l, e) == Max(One(l, t.m), MaxW(l, InGate(e)[1..]));
    }
  }

  /** A step that takes an update keeps the invariant if what it leaves in the cache is bounded by the partner. */
  lemma TakenKeeps(mode: Mode, l: Lens, s: System, act: Action)
    requires mode.Valid() && Fits(mode, l) && Inv(mode, l, s) && TakenBy(mode, s, act).Some?
    requires TakenBy(mode, s, act).value.env.canRead && TakenBy(mode, s, act).value.env.canWrite
    requires CacheW(l, Handled(mode, TakenBy(mode, s, act).value)) <= Reachable(l, Swap(s))
    requires !Implausible(mode.recs[l.addr], At(Handled(mode, TakenBy(mode, s, act).value).ram, l.addr))
    ensures Inv(mode, l, Act(mode, s, act))
  {
    hide W, Implausible, Rising, Handle, PendingOk, Known, Reachable, CacheW, Inv, Fits, Act;
    match act
    case Receive(env) => ReceiveMoves(mode, l, s, env);
    case WakeUp(env) => WakeMoves(mode, l, s, env);
    case Release(env) => ReleaseMoves(mode, l, s, env);
    case _ =>
  }

  /** So it does if it absorbs nothing. */
  lemma TakenBounded(mode: Mode, l: Lens, s: System, act: Action)
    requires mode.Valid() && Fits(mode, l) && Inv(mode, l, s) && TakenBy(mode, s, act).Some?
    requires TakenBy(mode, s, act).value.env.canRead && TakenBy(mode, s, act).value.env.canWrite && !Absorbs(mode, l, s, act)
    ensures var e' := Handled(mode, TakenBy(mode, s, act).value);
      CacheW(l, e') <= Reachable(l, Swap(s)) && !Implausible(mode.recs[l.addr], At(e'.ram, l.addr))
  {
    var t := TakenBy(mode, s, act).value;
    assert t.e.ram == s.a.e.ram && t.e.cache == s.a.e.cache;
    TakenSendable(mode, l, s, act);
    SentReaches(mode, l, s);
    assert !Implausible(mode.recs[l.addr], At(t.e.ram, l.addr));
    hide W, Implausible, Handle, Inv, TakenBy, Reachable, RecordChanged, ReachesMemory;
    HandleBounds(mode, l, t.e, t.m, t.queueAsleep, t.bypassGate, t.env);
  }

  lemma NothingTaken(mode: Mode, s: System, act: Action)
    requires mode.Valid() && (act.Receive? || act.WakeUp? || act.Release?) && TakenBy(mode, s, act).None?
    ensures Act(mode, s, act) == s
  {
    hide Handle;
  }

  lemma TakingKeeps(mode: Mode, l: Lens, s: System, act: Action)
    requires mode.Valid() && Fits(mode, l) && Inv(mode, l, s) && Allowed(mode, l, s, act)
    requires act.Receive? || act.WakeUp? || act.Release?
    ensures Inv(mode, l, Act(mode, s, act))
  {
    hide Inv, Act, TakenBy, Absorbs, Handled, Reachable;
    if TakenBy(mode, s, act).Some? {
      TakenEnv(mode, s, act);
      TakenBounded(mode, l, s, act);
      TakenKeeps(mode, l, s, act);
    } else {
      NothingTaken(mode, s, act);
    }
  }

  lemma TakenEnv(mode: Mode, s: System, act: Action)
    requires TakenBy(mode, s, act).Some?
    ensures act.Receive? || act.WakeUp? || act.Release?
    ensures TakenBy(mode, s, act).value.env == act.env
  {
  }

  /** Every step of either side keeps the invariant. */
  lemma StepKeeps(mode: Mode, l: Lens, s: System, act: Action)
    requires mode.Valid() && Fits(mode, l) && Inv(mode, l, s) && Allowed(mode, l, s, act)
    ensures Inv(mode, l, Act(mode, s, act))
  {
    hide Inv, Act, Allowed;
    match act
    case Write(addr, value) => WriteKeeps(mode, l, s, addr, value);
    case Look => LookKeeps(mode, l, s);
    case Poll(addr) => PollKeeps(mode, l, s, addr);
    case _ => TakingKeeps(mode, l, s, act);
  }

  lemma SwapInv(mode: Mode, l: Lens, s: System)
    requires l.addr in mode.recs
    ensures Inv(mode, l, Swap(s)) <==> Inv(mode, l, s)
  {
    hide Half;
    assert Swap(Swap(s)) == s;
  }

  lemma {:induction false} RunKeeps(mode: Mode, l: Lens, s: System, steps: seq<Step>)
    requires mode.Valid() && Fits(mode, l) && Inv(mode, l, s) && AllowedRun(mode, l, s, steps)
    ensures Inv(mode, l, Exec(mode, s, steps))
    decreases |steps|
  {
    hide Inv, Act, Allowed;
    if steps != [] {
      var step := steps[0];
      if step.left {
        StepKeeps(mode, l, s, step.act);
      } else {
        SwapInv(mode, l, s);
        StepKeeps(mode, l, Swap(s), step.act);
        SwapInv(mode, l, Act(mode, Swap(s), step.act));
      }
      RunKeeps(mode, l, Take(mode, s, step), steps[1..]);
    }
  }

  // ------------------------------------------------------------- convergence

  /** Nothing is pending between the sides, and both have cached what they have in memory at the address. */
  ghost predicate Quiet(s: System, a: int) {
    && s.toA == [] && s.toB == [] && s.a.e.sleep == [] && s.b.e.sleep == []
    && InGate(s.a.e) == [] && InGate(s.b.e) == []
    && a in s.a.e.cache && s.a.e.cache[a] == At(s.a.e.ram, a)
    && a in s.b.e.cache && s.b.e.cache[a] == At(s.b.e.ram, a)
  }

  /** A quiet start with the same plausible byte on both sides, and in both last snapshots. */
  ghost predicate Start(mode: Mode, s: System, a: int)
    requires a in mode.recs
  {
    && Quiet(s, a) && s.a.e.Valid() && s.b.e.Valid()
    && At(s.a.e.ram, a) == At(s.b.e.ram, a) == At(s.a.snap, a) == At(s.b.snap, a)
    && !Implausible(mode.recs[a], At(s.a.e.ram, a))
  }

  lemma StartInv(mode: Mode, l: Lens, s: System)
    requires Fits(mode, l) && Start(mode, s, l.addr)
    ensures Inv(mode, l, s)
  {
    hide W, Implausible;
  }

  lemma QuietAgrees(mode: Mode, l: Lens, s: System)
    requires Fits(mode, l) && Inv(mode, l, s) && Quiet(s, l.addr)
    ensures W(l, At(s.a.e.ram, l.addr)) == W(l, At(s.b.e.ram, l.addr))
  {
    hide W, Implausible, PendingOk;
  }

  /** Convergence of a `high` address: in every run, whenever everything is quiet again, both memories hold the same byte. */
  lemma HighConverges(mode: Mode, a: int, s: System, steps: seq<Step>)
    requires mode.Valid() && a in mode.recs && HighRec(mode.recs[a]) && Start(mode, s, a)
    requires AllowedRun(mode, Value(a), s, steps) && Quiet(Exec(mode, s, steps), a)
    ensures At(Exec(mode, s, steps).a.e.ram, a) == At(Exec(mode, s, steps).b.e.ram, a)
  {
    hide Exec, AllowedRun, Start, Inv, Quiet;
    StartInv(mode, Value(a), s);
    RunKeeps(mode, Value(a), s, steps);
    QuietAgrees(mode, Value(a), Exec(mode, s, steps));
  }

  /** Convergence of a bit of a `bitOr` address inside the mask, in every run whose writes absorb no bit that the partner lacks. */
  lemma BitConverges(mode: Mode, a: int, i: nat, s: System, steps: seq<Step>)
    requires mode.Valid() && a in mode.recs && BitOrRec(mode.recs[a]) && i < 8 && Bit(mode.recs[a].Mask(), i)
    requires Start(mode, s, a) && AllowedRun(mode, BitAt(a, i), s, steps) && Quiet(Exec(mode, s, steps), a)
    ensures Bit(At(Exec(mode, s, steps).a.e.ram, a), i) == Bit(At(Exec(mode, s, steps).b.e.ram, a), i)
  {
    hide Exec, AllowedRun, Start, Inv, Quiet, Bit;
    var l := BitAt(a, i);
    StartInv(mode, l, s);
    RunKeeps(mode, l, s, steps);
    QuietAgrees(mode, l, Exec(mode, s, steps));
  }

  // -------------------------------------------------------- absorbed updates

  /** What a written bit leaves in the cache: the merged bit. */
  lemma WriteCaches(mode: Mode, l: Lens, s: System, act: Action)
    requires mode.Valid() && Fits(mode, l) && l.BitAt? && WritesAt(mode, l, s, act)
    requires 0 <= TakenBy(mode, s, act).value.m.value < 0x100
    ensures var t := TakenBy(mode, s, act).value;
      CacheW(l, Handled(mode, t)) == Max(W(l, At(s.a.e.ram, l.addr)), One(l, t.m)) && t.e.ram == s.a.e.ram
  {
    hide W, RecordChanged, Implausible;
    var t := TakenBy(mode, s, act).value;
    MergeIsMax(mode, l, t.m.value, At(t.e.ram, l.addr));
  }

  lemma WritesOnlyA(mode: Mode, l: Lens, s: System, act: Action)
    requires mode.Valid() && l.addr in mode.recs && TakenBy(mode, s, act).Some? && Inv(mode, l, Act(mode, s, act))
    ensures CacheW(l, Handled(mode, TakenBy(mode, s, act).value)) <= Reachable(l, Swap(s))
  {
    hide W, Implausible, Rising, Handle, PendingOk, Known, TakenBy, Handled, MaxW;
    TakenActs(mode, s, act);
  }

  /**
   * Absorption, exactly: whether an update is written as it arrives, when it wakes or when the gate is drained, the step
   * keeps the invariant if and only if the local bit that goes into the cache with it is one the partner has or will get.
   */
  lemma AbsorptionExactly(mode: Mode, l: Lens, s: System, act: Action)
    requires mode.Valid() && Fits(mode, l) && l.BitAt? && Inv(mode, l, s) && WritesAt(mode, l, s, act)
    ensures Inv(mode, l, Act(mode, s, act)) <==> W(l, At(s.a.e.ram, l.addr)) <= Reachable(l, Swap(s))
  {
    TakenSendable(mode, l, s, act);
    WriteCaches(mode, l, s, act);
    SentReaches(mode, l, s);
    hide W, Inv, Reachable, Handled, TakenBy, CacheW, Fits, RecordChanged, ReachesMemory;
    if W(l, At(s.a.e.ram, l.addr)) <= Reachable(l, Swap(s)) {
      BitsPlausible(mode, l, At(Handled(mode, TakenBy(mode, s, act).value).ram, l.addr));
      TakenKeeps(mode, l, s, act);
    }
    if Inv(mode, l, Act(mode, s, act)) {
      WritesOnlyA(mode, l, s, act);
    }
  }

  lemma BitsPlausible(mode: Mode, l: Lens, v: int)
    requires Fits(mode, l) && l.BitAt?
    ensures !Implausible(mode.recs[l.addr], v)
  {
  }

  /** The three ways of an update into memory. */
  datatype Way = Straight | ThroughSleep | ThroughGate

  /** An unpolled write on the left, and a polled one on the right. */
  function Crossing(a: int, x: byte, y: byte): seq<Step> {
    [Step(true, Write(a, x)), Step(false, Write(a, y)), Step(false, Look), Step(false, Poll(a))]
  }

  /** The update reaches the left's memory. */
  function Arriving(way: Way, env: Env): seq<Step> {
    match way
    case Straight => [Step(true, Receive(env))]
    case ThroughSleep => [Step(true, Receive(env.(running := false))), Step(true, WakeUp(env))]
    case ThroughGate => [Step(true, Receive(env)), Step(true, Release(env))]
  }

  lemma {:induction false} ExecSplit(mode: Mode, s: System, first: seq<Step>, rest: seq<Step>)
    requires mode.Valid()
    ensures Exec(mode, s, first + rest) == Exec(mode, Exec(mode, s, first), rest)
    decreases |first|
  {
    hide Take;
    if first == [] {
      assert first + rest == rest;
    } else {
      assert (first + rest)[1..] == first[1..] + rest;
      ExecSplit(mode, Take(mode, s, first[0]), first[1..], rest);
    }
  }

  lemma ExecOne(mode: Mode, s: System, step: Step)
    requires mode.Valid()
    ensures Exec(mode, s, [step]) == Take(mode, s, step)
  {
    hide Take;
    assert [step][1..] == [];
  }

  lemma ExecTwo(mode: Mode, s: System, x: Step, y: Step)
    requires mode.Valid()
    ensures Exec(mode, s, [x, y]) == Take(mode, Take(mode, s, x), y)
  {
    hide Take;
    ExecSplit(mode, s, [x], [y]);
    ExecOne(mode, s, x);
    ExecOne(mode, Take(mode, s, x), y);
    assert [x] + [y] == [x, y];
  }

  /** After the crossing the right is at rest with `y`, the left holds `x` unpolled, and one update is on its way. */
  lemma Crossed(mode: Mode, a: int, j: nat, s: System, x: byte, y: byte)
    requires mode.Valid() && a in mode.recs && BitOrRec(mode.recs[a]) && Start(mode, s, a)
    requires j < 8 && Bit(mode.recs[a].Mask(), j) && Bit(y, j) && !Bit(At(s.a.e.ram, a), j)
    requires !ImplausibleSnapshot(mode, s.b.e.ram[a := y])
    ensures var sent := RecordChanged(mode.recs[a], y, At(s.a.e.ram, a), false).1;
      var s' := Exec(mode, s, Crossing(a, x, y));
      && s'.a.e == s.a.e.(ram := s.a.e.ram[a := x]) && s'.toA == [Msg(a, sent)] && s'.toB == []
      && s'.b.e == s.b.e.(ram := s.b.e.ram[a := y], cache := s.b.e.cache[a := y])
  {
    hide RecordChanged, Bit, Exec, ImplausibleSnapshot, InGate, Start;
    var rec, v := mode.recs[a], At(s.a.e.ram, a);
    StartCaches(mode, s, a);
    var sent := RecordChanged(rec, y, v, false).1;
    MaskedDiffers(rec, y, v, j);
    var b := s.b.e.(ram := s.b.e.ram[a := y]);
    assert PollOne(mode, b.cache, b.ram, a) == (b.cache[a := y], [Msg(a, sent)]);
    var s1 := Take(mode, s, Step(true, Write(a, x)));
    var s2 := Take(mode, s1, Step(false, Write(a, y)));
    var s3 := Take(mode, s2, Step(false, Look));
    assert s3.b.e == b && s3.b.snap == b.ram && s3.toA == [] && s3.toB == [];
    assert [] + [Msg(a, sent)] == [Msg(a, sent)];
    var s4 := Take(mode, s3, Step(false, Poll(a)));
    ExecTwo(mode, s, Step(true, Write(a, x)), Step(false, Write(a, y)));
    ExecTwo(mode, s2, Step(false, Look), Step(false, Poll(a)));
    ExecSplit(mode, s, Crossing(a, x, y)[..2], Crossing(a, x, y)[2..]);
    assert Crossing(a, x, y)[..2] == [Step(true, Write(a, x)), Step(false, Write(a, y))];
    assert Crossing(a, x, y)[2..] == [Step(false, Look), Step(false, Poll(a))];
    assert Crossing(a, x, y)[..2] + Crossing(a, x, y)[2..] == Crossing(a, x, y);
  }

  /** The way is open: the gate, if it is in the way, is empty and due. */
  predicate Open(mode: Mode, e: Engine, a: int, way: Way, env: Env)
    requires a in mode.recs
  {
    && env.running && env.canRead && env.canWrite && (way.ThroughGate? <==> TakesGate(mode, e, a))
    && (way.ThroughGate? ==>
          e.gate.value.pending == [] &&
          (e.gate.value.last.None? || env.now - e.gate.value.last.value >= e.gate.value.interval))
  }

  /** Whichever way, the update is written over the left's memory and cached, and nothing stays behind. */
  lemma Arrived(mode: Mode, a: int, s: System, v: byte, way: Way, env: Env)
    requires mode.Valid() && a in mode.recs && BitOrRec(mode.recs[a]) && Open(mode, s.a.e, a, way, env)
    requires s.toA == [Msg(a, v)] && s.a.e.sleep == [] && InGate(s.a.e) == []
    requires RecordChanged(mode.recs[a], v, At(s.a.e.ram, a), true).0
    ensures var merged := RecordChanged(mode.recs[a], v, At(s.a.e.ram, a), true).1 % 0x100;
      var s' := Exec(mode, s, Arriving(way, env));
      && s'.b == s.b && s'.toA == [] && s'.toB == s.toB && s'.a.e.sleep == [] && InGate(s'.a.e) == []
      && s'.a.e.ram == s.a.e.ram[a := merged] && s'.a.e.cache == s.a.e.cache[a := merged]
  {
    hide RecordChanged, Exec, DropOld;
    var e, m := s.a.e, Msg(a, v);
    assert [m][1..] == [];
    match way
    case Straight =>
      ExecOne(mode, s, Step(true, Receive(env)));
      SameGate(Handle(mode, e, m, true, false, env).0, e);
    case ThroughSleep =>
      ExecTwo(mode, s, Step(true, Receive(env.(running := false))), Step(true, WakeUp(env)));
      assert [] + [m] == [m];
      SameGate(Handle(mode, e.(sleep := []), m, false, false, env).0, e);
    case ThroughGate =>
      ExecTwo(mode, s, Step(true, Receive(env)), Step(true, Release(env)));
      GatePasses(mode, a, e, v, env);
  }

  lemma GatePasses(mode: Mode, a: int, e: Engine, v: byte, env: Env)
    requires a in mode.recs && BitOrRec(mode.recs[a]) && Open(mode, e, a, ThroughGate, env) && e.sleep == []
    requires RecordChanged(mode.recs[a], v, At(e.ram, a), true).0
    ensures var merged := RecordChanged(mode.recs[a], v, At(e.ram, a), true).1 % 0x100;
      var e' := DrainGate(mode, Handle(mode, e, Msg(a, v), true, false, env).0, env);
      && e'.ram == e.ram[a := merged] && e'.cache == e.cache[a := merged] && e'.sleep == [] && InGate(e') == []
  {
    hide RecordChanged, DropOld;
    var e1 := Handle(mode, e, Msg(a, v), true, false, env).0;
    assert e1.gate.value.pending == [Entry(a, v)];
    var (g, item) := AfterPop(e1.gate.value, env.now);
    assert g.pending == [] && item == Some(Entry(a, v));
    assert DrainGate(mode, e1, env) == Handle(mode, e1.(gate := Some(g)), Msg(a, v), false, true, env).0;
  }

  /**
   * Without the hypothesis on absorbed bits convergence fails, from every start and whichever way the update takes: the
   * left's unpolled bit `i` goes into its cache with the right's update, and is never sent.
   */
  lemma AbsorbedBitDiverges(mode: Mode, a: int, i: nat, j: nat, s: System, x: byte, y: byte, way: Way, env: Env)
    requires mode.Valid() && a in mode.recs && BitOrRec(mode.recs[a]) && Start(mode, s, a) && Open(mode, s.a.e, a, way, env)
    requires i < 8 && j < 8 && Bit(mode.recs[a].Mask(), i) && Bit(mode.recs[a].Mask(), j)
    requires Bit(x, i) && !Bit(y, i) && Bit(y, j) && !Bit(x, j) && !Bit(At(s.a.e.ram, a), j)
    requires !ImplausibleSnapshot(mode, s.b.e.ram[a := y])
    ensures var s' := Exec(mode, s, Crossing(a, x, y) + Arriving(way, env));
      Quiet(s', a) && Bit(At(s'.a.e.ram, a), i) && !Bit(At(s'.b.e.ram, a), i)
  {
    var rec, v := mode.recs[a], At(s.a.e.ram, a);
    var sent := RecordChanged(rec, y, v, false).1;
    hide RecordChanged, Bit, Exec, ImplausibleSnapshot, InGate, Start;
    StartCaches(mode, s, a);
    Crossed(mode, a, j, s, x, y);
    BitOrSend(rec, y, v, j);
    BitOrReceive(rec, sent, x, i);
    BitOrReceive(rec, sent, x, j);
    var s4 := Exec(mode, s, Crossing(a, x, y));
    assert At(s4.a.e.ram, a) == x;
    hide Crossing, Arriving;
    SameGate(s4.a.e, s.a.e);
    Arrived(mode, a, s4, sent, way, env);
    ExecSplit(mode, s, Crossing(a, x, y), Arriving(way, env));
    SameGate(s4.b.e, s.b.e);
  }

  lemma SameGate(e: Engine, e': Engine)
    requires e.gate == e'.gate
    ensures InGate(e) == InGate(e')
  {
  }

  lemma StartCaches(mode: Mode, s: System, a: int)
    requires a in mode.recs && Start(mode, s, a)
    ensures Quiet(s, a) && At(s.a.e.ram, a) == At(s.b.e.ram, a)
  {
  }

  /** A byte with another bit inside the mask is a change to send. */
  lemma MaskedDiffers(rec: Rec, cur: byte, prev: byte, j: nat)
    requires BitOrRec(rec) && j < 8 && Bit(rec.Mask(), j) && Bit(cur, j) != Bit(prev, j)
    ensures RecordChanged(rec, cur, prev, false).0
  {
    hide RecordChanged;
    BitOrSend(rec, cur, prev, j);
  }
}
