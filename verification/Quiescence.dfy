/** No echo storms: a measure that every receive, drain and sending poll brings down, whatever the records are. */
module Quiescence {
  import opened Wrappers
  import opened Bytes
  import opened Bits
  import opened Records
  import opened MapWriteGates
  import opened SyncEngines
  import opened Delivery
  import opened Replicas

  /** A poll of the current memory would send the address. */
  predicate WouldSend(mode: Mode, e: Engine, a: int)
    requires a in mode.recs
  {
    a in e.cache && e.cache[a] != At(e.ram, a) && RecordChanged(mode.recs[a], At(e.ram, a), e.cache[a], false).0
  }

  function Sends(mode: Mode, e: Engine, addrs: seq<int>): nat
    requires forall a :: a in addrs ==> a in mode.recs
  {
    if addrs == [] then 0 else (if WouldSend(mode, e, addrs[0]) then 1 else 0) + Sends(mode, e, addrs[1..])
  }

  lemma {:induction false} SendsFewer(mode: Mode, e: Engine, e': Engine, addrs: seq<int>)
    requires forall a :: a in addrs ==> a in mode.recs && (WouldSend(mode, e', a) ==> WouldSend(mode, e, a))
    ensures Sends(mode, e', addrs) <= Sends(mode, e, addrs)
  {
    hide WouldSend;
    if addrs != [] {
      assert addrs[0] in addrs;
      SendsFewer(mode, e, e', addrs[1..]);
    }
  }

  // ------------------------------------------------------------- receiving

  /** Nothing but the update's own address changes, and what is written there is cached. */
  lemma HandleSendsFewer(mode: Mode, e: Engine, m: Msg, queueAsleep: bool, bypassGate: bool, env: Env, a: int)
    requires a in mode.recs && WouldSend(mode, Handle(mode, e, m, queueAsleep, bypassGate, env).0, a)
    ensures WouldSend(mode, e, a)
  {
    hide RecordChanged, Implausible;
  }

  function Pending(e: Engine): nat { 2 * |e.sleep| + |InGate(e)| }

  /** An update that is handled leaves at most itself behind, asleep or in the gate. */
  lemma HandleLeaves(mode: Mode, e: Engine, m: Msg, queueAsleep: bool, bypassGate: bool, env: Env)
    ensures Pending(Handle(mode, e, m, queueAsleep, bypassGate, env).0)
            <= Pending(e) + if queueAsleep then 2 else if bypassGate then 0 else 1
  {
    hide RecordChanged, Implausible, Put;
  }

  // --------------------------------------------------------------- polling

  function Diffed(mode: Mode, e: Engine): (Engine, seq<Msg>)
    requires mode.Valid()
  {
    Diff(mode, e, e.ram)
  }

  /**
   * A poll of the snapshot does at the address what a poll of memory does: it shows what is in memory, or what is in
   * memory is cached and the record does not let the snapshot's value be sent over it.
   */
  predicate NoEchoAt(mode: Mode, e: Engine, snap: Memory, a: int)
    requires a in mode.recs
  {
    At(snap, a) == At(e.ram, a) ||
    (a in e.cache && e.cache[a] == At(e.ram, a) && !RecordChanged(mode.recs[a], At(snap, a), At(e.ram, a), false).0)
  }

  lemma SuppressedBothWays(rec: Rec, x: byte, y: byte)
    requires CachesSuppressed(rec, x, y)
    ensures !RecordChanged(rec, x, y, false).0 && !RecordChanged(rec, y, x, false).0
  {
    hide And;
  }

  lemma PollOneSends(mode: Mode, e: Engine, snap: Memory, a: int)
    requires a in mode.recs && NoEchoAt(mode, e, snap, a)
    ensures var (cache, out) := PollOne(mode, e.cache, snap, a);
      && |out| == (if WouldSend(mode, e, a) then 1 else 0)
      && !WouldSend(mode, e.(cache := cache), a)
      && forall b :: b != a && b in mode.recs ==>
           WouldSend(mode, e.(cache := cache), b) == WouldSend(mode, e, b)
           && NoEchoAt(mode, e.(cache := cache), snap, b) == NoEchoAt(mode, e, snap, b)
  {
    if a in e.cache && CachesSuppressed(mode.recs[a], At(snap, a), e.cache[a]) {
      SuppressedBothWays(mode.recs[a], At(snap, a), e.cache[a]);
    }
    hide RecordChanged, CachesSuppressed;
  }

  lemma {:induction false} SendsSame(mode: Mode, e: Engine, e': Engine, addrs: seq<int>)
    requires forall a :: a in addrs ==> a in mode.recs && WouldSend(mode, e', a) == WouldSend(mode, e, a)
    ensures Sends(mode, e', addrs) == Sends(mode, e, addrs)
  {
    hide WouldSend;
    SendsFewer(mode, e, e', addrs);
    SendsFewer(mode, e', e, addrs);
  }

  lemma {:induction false} PollAllSends(mode: Mode, e: Engine, snap: Memory, addrs: seq<int>)
    requires forall a :: a in addrs ==> a in mode.recs && NoEchoAt(mode, e, snap, a)
    requires forall i, j :: 0 <= i < j < |addrs| ==> addrs[i] != addrs[j]
    ensures var (cache, out) := PollAll(mode, e.cache, snap, addrs);
      && |out| == Sends(mode, e, addrs)
      && (forall a :: a in addrs ==> !WouldSend(mode, e.(cache := cache), a))
      && forall b :: b in mode.recs && b !in addrs ==> WouldSend(mode, e.(cache := cache), b) == WouldSend(mode, e, b)
    decreases |addrs|
  {
    hide WouldSend, PollOne, NoEchoAt;
    if addrs == [] {
      assert e.(cache := e.cache) == e;
    } else {
      var a, rest := addrs[0], addrs[1..];
      assert a in addrs && a !in rest;
      var (cache, out) := PollOne(mode, e.cache, snap, a);
      PollOneSends(mode, e, snap, a);
      var e1 := e.(cache := cache);
      PollAllSends(mode, e1, snap, rest);
      SendsSame(mode, e, e1, rest);
      var cache' := PollAll(mode, cache, snap, rest).0;
      assert e1.(cache := cache') == e.(cache := cache');
    }
  }

  lemma {:induction false} NoneSends(mode: Mode, e: Engine, addrs: seq<int>)
    requires forall a :: a in addrs ==> a in mode.recs && !WouldSend(mode, e, a)
    ensures Sends(mode, e, addrs) == 0
  {
    hide WouldSend;
    if addrs != [] {
      assert addrs[0] in addrs;
      NoneSends(mode, e, addrs[1..]);
    }
  }

  /** A poll of current memory sends exactly the addresses it would send, and the next one nothing. */
  lemma DiffSettles(mode: Mode, e: Engine)
    requires mode.Valid() && !ImplausibleSnapshot(mode, e.ram)
    ensures var (e', out) := Diffed(mode, e);
      |out| == Sends(mode, e, mode.order) && Sends(mode, e', mode.order) == 0 && Diffed(mode, e').1 == []
  {
    hide WouldSend, PollOne, ImplausibleSnapshot, RecordChanged;
    PollAllSends(mode, e, e.ram, mode.order);
    var e' := Diffed(mode, e).0;
    NoneSends(mode, e', mode.order);
    PollAllSends(mode, e', e'.ram, mode.order);
  }

  // -------------------------------------------------------- stale snapshots

  /** What a tick does to an engine that is polled: the snapshot is read, the sleepers are handled, the snapshot is polled. */
  function Ticked(mode: Mode, e: Engine, env: Env): (Engine, seq<Msg>)
    requires mode.Valid()
  {
    Diff(mode, DrainSleep(mode, e, env), e.ram)
  }

  /**
   * The sleeping updates change the byte, and its record lets the value before them be sent over the one they leave.
   */
  predicate Echoes(mode: Mode, e: Engine, env: Env, a: int)
    requires a in mode.recs
  {
    var before, after := At(e.ram, a), At(DrainSleep(mode, e, env).ram, a);
    before != after && RecordChanged(mode.recs[a], before, after, false).0
  }

  ghost predicate EchoFree(mode: Mode, e: Engine, env: Env)
    requires mode.Valid()
  {
    forall a :: a in mode.order ==> !Echoes(mode, e, env, a)
  }

  /** At an address, handling updates changes nothing, or leaves in the cache what it leaves in memory. */
  ghost predicate Tracks(e: Engine, e': Engine, a: int) {
    || (At(e'.ram, a) == At(e.ram, a) && (a in e'.cache <==> a in e.cache) && At(e'.cache, a) == At(e.cache, a))
    || (a in e'.cache && e'.cache[a] == At(e'.ram, a))
  }

  lemma HandleTracks(mode: Mode, e: Engine, m: Msg, queueAsleep: bool, bypassGate: bool, env: Env, a: int)
    ensures Tracks(e, Handle(mode, e, m, queueAsleep, bypassGate, env).0, a)
  {
    hide RecordChanged, Implausible;
  }

  lemma {:induction false} HandleAllTracks(mode: Mode, e: Engine, items: seq<Msg>, env: Env, a: int)
    ensures Tracks(e, HandleAll(mode, e, items, env), a)
    decreases |items|
  {
    hide Handle;
    if items != [] {
      HandleTracks(mode, e, items[0], false, false, env, a);
      HandleAllTracks(mode, Handle(mode, e, items[0], false, false, env).0, items[1..], env, a);
    }
  }

  /** Memory and cache agree on the whole table. */
  ghost predicate Agree(mode: Mode, e: Engine) {
    forall a :: a in mode.order ==> a in e.cache && e.cache[a] == At(e.ram, a)
  }

  lemma WokenPoll(mode: Mode, e: Engine, env: Env, a: int)
    requires mode.Valid() && a in mode.order
    ensures var woken := DrainSleep(mode, e, env);
      && (!Echoes(mode, e, env, a) ==> NoEchoAt(mode, woken, e.ram, a))
      && (Agree(mode, e) ==> a in woken.cache && woken.cache[a] == At(woken.ram, a))
  {
    hide RecordChanged, HandleAll;
    HandleAllTracks(mode, e.(sleep := []), e.sleep, env, a);
  }

  /**
   * When an engine at rest is silent: the poll behind its sleepers sends nothing if and only if they change no byte
   * whose record lets the value before be sent over the value after.
   */
  lemma SilentIff(mode: Mode, e: Engine, env: Env)
    requires mode.Valid() && Agree(mode, e) && !ImplausibleSnapshot(mode, e.ram)
    ensures Ticked(mode, e, env).1 == [] <==> EchoFree(mode, e, env)
  {
    hide RecordChanged, ImplausibleSnapshot, DrainSleep, Echoes, Agree;
    var woken := DrainSleep(mode, e, env);
    forall a | a in mode.order
      ensures a in woken.cache && woken.cache[a] == At(woken.ram, a)
      ensures Echoes(mode, e, env, a) == SendsNow(mode, woken.cache, e.ram, a)
    {
      WokenPoll(mode, e, env, a);
      EchoIsSent(mode, e, env, a);
    }
    SilentPoll(mode, woken.cache, e.ram, mode.order);
  }

  /** A poll of the snapshot sends the address. */
  predicate SendsNow(mode: Mode, cache: Memory, snap: Memory, a: int)
    requires a in mode.recs
  {
    a in cache && cache[a] != At(snap, a) && RecordChanged(mode.recs[a], At(snap, a), cache[a], false).0
  }

  lemma EchoIsSent(mode: Mode, e: Engine, env: Env, a: int)
    requires a in mode.recs
    requires var woken := DrainSleep(mode, e, env); a in woken.cache && woken.cache[a] == At(woken.ram, a)
    ensures Echoes(mode, e, env, a) == SendsNow(mode, DrainSleep(mode, e, env).cache, e.ram, a)
  {
    hide RecordChanged, DrainSleep;
  }

  lemma {:induction false} SilentPoll(mode: Mode, cache: Memory, snap: Memory, addrs: seq<int>)
    requires forall a :: a in addrs ==> a in mode.recs
    requires forall i, j :: 0 <= i < j < |addrs| ==> addrs[i] != addrs[j]
    ensures PollAll(mode, cache, snap, addrs).1 == [] <==> forall a :: a in addrs ==> !SendsNow(mode, cache, snap, a)
    decreases |addrs|
  {
    hide SendsNow, PollOne;
    if addrs != [] {
      var a, rest := addrs[0], addrs[1..];
      var (cache', out) := PollOne(mode, cache, snap, a);
      PollsAlone(mode, cache, snap, a);
      SilentPoll(mode, cache', snap, rest);
      assert a in addrs && a !in rest;
      assert forall b :: b in addrs <==> b == a || b in rest;
    }
  }

  lemma PollsAlone(mode: Mode, cache: Memory, snap: Memory, a: int)
    requires a in mode.recs
    ensures var (cache', out) := PollOne(mode, cache, snap, a);
      && (out == [] <==> !SendsNow(mode, cache, snap, a))
      && forall b :: b != a && b in mode.recs ==> SendsNow(mode, cache', snap, b) == SendsNow(mode, cache, snap, b)
  {
    hide RecordChanged, CachesSuppressed;
  }

  // ---------------------------------------------------- echoes, kind by kind

  /** What one update makes of a `high` byte: the larger one. */
  lemma HighWritten(mode: Mode, a: int, e: Engine, m: Msg, env: Env)
    requires a in mode.recs && HighRec(mode.recs[a])
    ensures At(Handle(mode, e, m, false, false, env).0.ram, a) >= At(e.ram, a)
  {
    if m.addr == a {
      hide And;
      WholeByte(mode.recs[a], m.value);
      WholeByte(mode.recs[a], At(e.ram, a));
    } else {
      hide RecordChanged, Implausible;
    }
  }

  lemma {:induction false} HighWoken(mode: Mode, a: int, e: Engine, items: seq<Msg>, env: Env)
    requires a in mode.recs && HighRec(mode.recs[a])
    ensures At(HandleAll(mode, e, items, env).ram, a) >= At(e.ram, a)
    decreases |items|
  {
    hide Handle;
    if items != [] {
      HighWritten(mode, a, e, items[0], env);
      HighWoken(mode, a, Handle(mode, e, items[0], false, false, env).0, items[1..], env);
    }
  }

  /** A `high` address never echoes, whatever sleeps. */
  lemma HighNeverEchoes(mode: Mode, a: int, e: Engine, env: Env)
    requires a in mode.recs && HighRec(mode.recs[a])
    ensures !Echoes(mode, e, env, a)
  {
    hide RecordChanged, HandleAll;
    HighWoken(mode, a, e.(sleep := []), e.sleep, env);
    HighReceive(mode.recs[a], At(e.ram, a), At(DrainSleep(mode, e, env).ram, a));
  }

  lemma {:induction false} GatedStays(mode: Mode, a: int, e: Engine, items: seq<Msg>, env: Env)
    requires a in mode.recs && TakesGate(mode, e, a)
    ensures At(HandleAll(mode, e, items, env).ram, a) == At(e.ram, a)
    decreases |items|
  {
    if items != [] {
      var e' := Handle(mode, e, items[0], false, false, env).0;
      assert At(e'.ram, a) == At(e.ram, a) && TakesGate(mode, e', a) by {
        hide RecordChanged, Implausible, AfterEnqueue;
      }
      hide Handle;
      GatedStays(mode, a, e', items[1..], env);
    }
  }

  /** Nor does an address behind the gate: its sleepers go there, not to memory. */
  lemma GatedNeverEchoes(mode: Mode, a: int, e: Engine, env: Env)
    requires a in mode.recs && TakesGate(mode, e, a)
    ensures !Echoes(mode, e, env, a)
  {
    hide RecordChanged, HandleAll;
    GatedStays(mode, a, e.(sleep := []), e.sleep, env);
  }

  lemma {:induction false} BitOrWoken(mode: Mode, a: int, i: nat, e: Engine, items: seq<Msg>, env: Env)
    requires a in mode.recs && BitOrRec(mode.recs[a]) && !TakesGate(mode, e, a) && i < 8 && env.canRead && env.canWrite
    ensures Bit(At(HandleAll(mode, e, items, env).ram, a), i) <==>
            Bit(At(e.ram, a), i) || (Bit(mode.recs[a].Mask(), i) && AnySets(items, a, i))
    decreases |items|
  {
    hide Bit;
    if items != [] {
      var m := items[0];
      var e' := Handle(mode, e, m, false, false, env).0;
      BitOrHandled(mode, a, i, e, m, env);
      assert AnySets(items, a, i) <==> (m.addr == a && Bit(m.value, i)) || AnySets(items[1..], a, i) by {
        assert forall x :: x in items <==> x == m || x in items[1..];
      }
      hide Handle;
      BitOrWoken(mode, a, i, e', items[1..], env);
    }
  }

  lemma BitOrHandled(mode: Mode, a: int, i: nat, e: Engine, m: Msg, env: Env)
    requires a in mode.recs && BitOrRec(mode.recs[a]) && !TakesGate(mode, e, a) && i < 8 && env.canRead && env.canWrite
    ensures var e' := Handle(mode, e, m, false, false, env).0;
      && !TakesGate(mode, e', a)
      && (Bit(At(e'.ram, a), i) <==>
            Bit(At(e.ram, a), i) || (m.addr == a && Bit(mode.recs[a].Mask(), i) && Bit(m.value, i)))
  {
    hide RecordChanged, Bit, AfterEnqueue;
    if m.addr == a {
      BitOrReceive(mode.recs[a], m.value, At(e.ram, a), i);
    }
  }

  /**
   * A `bitOr` address off the gate echoes if and only if some sleeping update sets a bit of the mask that is not in
   * memory.
   */
  lemma BitOrEchoesIff(mode: Mode, a: int, e: Engine, env: Env)
    requires a in mode.recs && BitOrRec(mode.recs[a]) && !TakesGate(mode, e, a) && env.canRead && env.canWrite
    ensures Echoes(mode, e, env, a) <==>
            exists i: nat :: i < 8 && Bit(mode.recs[a].Mask(), i) && AnySets(e.sleep, a, i) && !Bit(At(e.ram, a), i)
  {
    hide RecordChanged, HandleAll, Bit, AnySets;
    var rec, before, after := mode.recs[a], At(e.ram, a), At(DrainSleep(mode, e, env).ram, a);
    forall i: nat | i < 8
      ensures Bit(after, i) <==> Bit(before, i) || (Bit(rec.Mask(), i) && AnySets(e.sleep, a, i))
    {
      BitOrWoken(mode, a, i, e.(sleep := []), e.sleep, env);
    }
    if i: nat :| i < 8 && Bit(rec.Mask(), i) && AnySets(e.sleep, a, i) && !Bit(before, i) {
      MaskedDiffers(rec, before, after, i);
    } else {
      SameByte(before, after);
    }
  }

  /** A byte-sized counter without mask or condition, whatever its clamps; the shipped counters are of this kind. */
  predicate DeltaRec(rec: Rec) { rec.kind.Delta? && rec.size == 1 && rec.mask.None? && rec.cond.None? }

  /**
   * A counter echoes if and only if the sleeping deltas change it on the whole, and neither value is zero where the
   * record ignores changes from and to zero.
   */
  lemma DeltaEchoesIff(mode: Mode, a: int, e: Engine, env: Env)
    requires a in mode.recs && DeltaRec(mode.recs[a])
    ensures var before, after := At(e.ram, a), At(DrainSleep(mode, e, env).ram, a);
      Echoes(mode, e, env, a) <==> before != after && !(mode.recs[a].ignoreZero && (before == 0 || after == 0))
  {
    hide And, DrainSleep;
    WholeByte(mode.recs[a], At(e.ram, a));
    WholeByte(mode.recs[a], At(DrainSleep(mode, e, env).ram, a));
  }

  /** The key count after the deltas among some updates: each adds up, not below zero, in one byte. */
  function Counted(count: byte, msgs: seq<Msg>, a: int): byte
    decreases |msgs|
  {
    if msgs == [] then count
    else if msgs[0].addr != a then Counted(count, msgs[1..], a)
    else Counted(if count + msgs[0].value < 0 then 0 else (count + msgs[0].value) % 0x100, msgs[1..], a)
  }

  lemma {:induction false} CounterWoken(mode: Mode, a: int, e: Engine, items: seq<Msg>, env: Env)
    requires a in mode.recs && CounterRec(mode.recs[a]) && env.canRead && env.canWrite
    ensures At(HandleAll(mode, e, items, env).ram, a) == Counted(At(e.ram, a), items, a)
    decreases |items|
  {
    if items != [] {
      var m := items[0];
      var e' := Handle(mode, e, m, false, false, env).0;
      CounterHandled(mode, a, e, m, env);
      hide Handle;
      CounterWoken(mode, a, e', items[1..], env);
    }
  }

  lemma CounterHandled(mode: Mode, a: int, e: Engine, m: Msg, env: Env)
    requires a in mode.recs && CounterRec(mode.recs[a]) && env.canRead && env.canWrite
    ensures var before := At(e.ram, a);
      At(Handle(mode, e, m, false, false, env).0.ram, a) ==
      if m.addr != a then before else if before + m.value < 0 then 0 else (before + m.value) % 0x100
  {
    hide RecordChanged, AfterEnqueue;
    if m.addr == a {
      CounterReceive(mode.recs[a], m.value, At(e.ram, a));
    }
  }

  /** For the key count that is: the sleeping deltas do not add up to nothing. */
  lemma KeysEchoIff(mode: Mode, a: int, e: Engine, env: Env)
    requires a in mode.recs && CounterRec(mode.recs[a]) && env.canRead && env.canWrite
    ensures Echoes(mode, e, env, a) <==> Counted(At(e.ram, a), e.sleep, a) != At(e.ram, a)
  {
    hide HandleAll;
    DeltaEchoesIff(mode, a, e, env);
    CounterWoken(mode, a, e.(sleep := []), e.sleep, env);
  }

  /** A record that is a function echoes if and only if the function lets the value before over the value after. */
  lemma CustomEchoesIff(mode: Mode, a: int, e: Engine, env: Env)
    requires a in mode.recs && mode.recs[a].kind.Custom? && mode.recs[a].cond.None?
    ensures var before, after := At(e.ram, a), At(DrainSleep(mode, e, env).ram, a);
      Echoes(mode, e, env, a) <==> before != after && mode.recs[a].kind.f(before, after, false).0
  {
    hide DrainSleep, MaskedValue;
  }

  /** A witness: a bit that sleeps over a settled `bitOr` byte is answered with the old byte. */
  lemma SleepingBitEchoes(mode: Mode, a: int, i: nat, v: byte, e: Engine, env: Env)
    requires mode.Valid() && a in mode.order && BitOrRec(mode.recs[a]) && !TakesGate(mode, e, a) && Agree(mode, e)
    requires i < 8 && Bit(mode.recs[a].Mask(), i) && Bit(v, i) && !Bit(At(e.ram, a), i) && Msg(a, v) in e.sleep
    requires env.canRead && env.canWrite && !ImplausibleSnapshot(mode, e.ram)
    ensures Ticked(mode, e, env).1 != []
  {
    hide Ticked, Echoes, Agree, Bit, ImplausibleSnapshot, RecordChanged;
    assert AnySets(e.sleep, a, i);
    BitOrEchoesIff(mode, a, e, env);
    SilentIff(mode, e, env);
  }

  // --------------------------------------------------------------- measure

  /**
   * A step without a local write: an update is received, woken or drained, current memory is polled, or a tick handles
   * all sleepers between reading a snapshot and polling it.
   */
  datatype Calm = Receives(env: Env) | Wakes(env: Env) | Drains(env: Env) | PollsNow | Ticks(env: Env)

  datatype CalmStep = CalmStep(left: bool, calm: Calm)

  function ActCalm(mode: Mode, s: System, c: Calm): System
    requires mode.Valid()
  {
    match c
    case Receives(env) => Act(mode, s, Receive(env))
    case Wakes(env) => Act(mode, s, WakeUp(env))
    case Drains(env) => Act(mode, s, Release(env))
    case PollsNow =>
      var (e, out) := Diffed(mode, s.a.e);
      s.(a := Side(e, s.a.e.ram), toB := s.toB + out)
    case Ticks(env) =>
      var (e, out) := Ticked(mode, s.a.e, env);
      s.(a := Side(e, s.a.e.ram), toB := s.toB + out)
  }

  function TakeCalm(mode: Mode, s: System, step: CalmStep): System
    requires mode.Valid()
  {
    if step.left then ActCalm(mode, s, step.calm) else Swap(ActCalm(mode, Swap(s), step.calm))
  }

  function Load(mode: Mode, e: Engine): nat
    requires mode.Valid()
  {
    Pending(e) + 4 * Sends(mode, e, mode.order)
  }

  function Measure(mode: Mode, s: System): nat
    requires mode.Valid()
  {
    3 * (|s.toA| + |s.toB|) + Load(mode, s.a.e) + Load(mode, s.b.e)
  }

  /** The step does something: there is an update to take, or the poll sends. */
  predicate Busy(mode: Mode, s: System, c: Calm)
    requires mode.Valid()
  {
    match c
    case Receives(_) => s.toA != []
    case Wakes(_) => s.a.e.sleep != []
    case Drains(env) => s.a.e.gate.Some? && Due(s.a.e.gate.value, env.now) && env.running
    case PollsNow => Diffed(mode, s.a.e).1 != []
    case Ticks(env) => s.a.e.sleep != [] || Ticked(mode, s.a.e, env).1 != []
  }

  /** The step is no tick that echoes. */
  ghost predicate Fair(mode: Mode, s: System, c: Calm)
    requires mode.Valid()
  {
    c.Ticks? ==> EchoFree(mode, s.a.e, c.env)
  }

  lemma HandleLoad(mode: Mode, e: Engine, m: Msg, queueAsleep: bool, bypassGate: bool, env: Env)
    requires mode.Valid()
    ensures Load(mode, Handle(mode, e, m, queueAsleep, bypassGate, env).0)
            <= Load(mode, e) + if queueAsleep then 2 else if bypassGate then 0 else 1
  {
    hide Handle, WouldSend, Sends, Pending;
    var e' := Handle(mode, e, m, queueAsleep, bypassGate, env).0;
    HandleLeaves(mode, e, m, queueAsleep, bypassGate, env);
    forall a | a in mode.order && WouldSend(mode, e', a) ensures WouldSend(mode, e, a) {
      HandleSendsFewer(mode, e, m, queueAsleep, bypassGate, env, a);
    }
    SendsFewer(mode, e, e', mode.order);
  }

  /** Taking the oldest update out of a queue. */
  lemma TakenOut(mode: Mode, e: Engine, e': Engine)
    requires mode.Valid() && e'.ram == e.ram && e'.cache == e.cache
    ensures Load(mode, e') - Pending(e') == Load(mode, e) - Pending(e)
  {
    hide Pending, RecordChanged;
    SendsSame(mode, e, e', mode.order);
  }

  lemma PollLoad(mode: Mode, e: Engine)
    requires mode.Valid()
    ensures Load(mode, Diffed(mode, e).0) + 4 * |Diffed(mode, e).1| <= Load(mode, e)
  {
    hide Sends, ImplausibleSnapshot, PollAll;
    if !ImplausibleSnapshot(mode, e.ram) {
      DiffSettles(mode, e);
      assert InGate(Diffed(mode, e).0) == InGate(e);
    }
  }

  lemma {:induction false} HandleAllLoad(mode: Mode, e: Engine, items: seq<Msg>, env: Env)
    requires mode.Valid()
    ensures Load(mode, HandleAll(mode, e, items, env)) <= Load(mode, e) + |items|
    decreases |items|
  {
    hide Handle, Load;
    if items != [] {
      HandleLoad(mode, e, items[0], false, false, env);
      HandleAllLoad(mode, Handle(mode, e, items[0], false, false, env).0, items[1..], env);
    }
  }

  lemma SleepersLoad(mode: Mode, e: Engine, env: Env)
    requires mode.Valid()
    ensures Load(mode, DrainSleep(mode, e, env)) <= Load(mode, e) - |e.sleep|
  {
    hide HandleAll, Load;
    var e1 := e.(sleep := []);
    TakenOut(mode, e, e1);
    assert InGate(e1) == InGate(e);
    HandleAllLoad(mode, e1, e.sleep, env);
  }

  lemma TickLoad(mode: Mode, e: Engine, env: Env)
    requires mode.Valid() && EchoFree(mode, e, env)
    ensures Load(mode, Ticked(mode, e, env).0) + 4 * |Ticked(mode, e, env).1| + |e.sleep| <= Load(mode, e)
  {
    hide Sends, ImplausibleSnapshot, PollAll, DrainSleep, Echoes, NoEchoAt, WouldSend;
    SleepersLoad(mode, e, env);
    if !ImplausibleSnapshot(mode, e.ram) {
      var woken := DrainSleep(mode, e, env);
      forall a | a in mode.order ensures NoEchoAt(mode, woken, e.ram, a) {
        WokenPoll(mode, e, env, a);
      }
      PollAllSends(mode, woken, e.ram, mode.order);
      var e' := Ticked(mode, e, env).0;
      NoneSends(mode, e', mode.order);
      assert InGate(e') == InGate(woken);
    }
  }

  /** Every busy step lowers the measure, and an idle one changes nothing in it. */
  lemma StepSettles(mode: Mode, s: System, c: Calm)
    requires mode.Valid() && Fair(mode, s, c)
    ensures Measure(mode, ActCalm(mode, s, c)) <= Measure(mode, s) - if Busy(mode, s, c) then 1 else 0
  {
    hide Handle, Load, Pending, Diffed, Ticked, EchoFree;
    var e := s.a.e;
    match c
    case Receives(env) =>
      if s.toA != [] {
        HandleLoad(mode, e, s.toA[0], true, false, env);
      }
    case Wakes(env) =>
      if e.sleep != [] {
        WakeLoad(mode, e, env);
      }
    case Drains(env) => DrainLoad(mode, e, env);
    case PollsNow => PollLoad(mode, e);
    case Ticks(env) => TickLoad(mode, e, env);
  }

  lemma WakeLoad(mode: Mode, e: Engine, env: Env)
    requires mode.Valid() && e.sleep != []
    ensures Load(mode, WakeOne(mode, e, env)) < Load(mode, e)
  {
    hide Handle, Load;
    var e1 := e.(sleep := e.sleep[1..]);
    TakenOut(mode, e, e1);
    assert InGate(e1) == InGate(e);
    HandleLoad(mode, e1, e.sleep[0], false, false, env);
  }

  lemma DrainLoad(mode: Mode, e: Engine, env: Env)
    requires mode.Valid()
    ensures Load(mode, DrainGate(mode, e, env)) <=
            Load(mode, e) - if e.gate.Some? && Due(e.gate.value, env.now) && env.running then 1 else 0
  {
    hide Handle, Load;
    if e.gate.Some? && Due(e.gate.value, env.now) && env.running {
      var (g, item) := AfterPop(e.gate.value, env.now);
      var e1 := e.(gate := Some(g));
      TakenOut(mode, e, e1);
      HandleLoad(mode, e1, Msg(item.value.addr, item.value.value), false, true, env);
    }
  }

  // -------------------------------------------------------------- all runs

  function ExecCalm(mode: Mode, s: System, steps: seq<CalmStep>): System
    requires mode.Valid()
    decreases |steps|
  {
    if steps == [] then s else ExecCalm(mode, TakeCalm(mode, s, steps[0]), steps[1..])
  }

  function BusySteps(mode: Mode, s: System, steps: seq<CalmStep>): nat
    requires mode.Valid()
    decreases |steps|
  {
    if steps == [] then 0
    else (if Busy(mode, if steps[0].left then s else Swap(s), steps[0].calm) then 1 else 0)
         + BusySteps(mode, TakeCalm(mode, s, steps[0]), steps[1..])
  }

  /** No tick of the run echoes. */
  ghost predicate FairRun(mode: Mode, s: System, steps: seq<CalmStep>)
    requires mode.Valid()
    decreases |steps|
  {
    steps == [] ||
    (Fair(mode, if steps[0].left then s else Swap(s), steps[0].calm) && FairRun(mode, TakeCalm(mode, s, steps[0]), steps[1..]))
  }

  /** However the steps of a run interleave, no more of them do anything than the measure at its start. */
  lemma {:induction false} RunSettles(mode: Mode, s: System, steps: seq<CalmStep>)
    requires mode.Valid() && FairRun(mode, s, steps)
    ensures BusySteps(mode, s, steps) + Measure(mode, ExecCalm(mode, s, steps)) <= Measure(mode, s)
    decreases |steps|
  {
    hide Busy, ActCalm, Measure, Fair;
    if steps != [] {
      var step := steps[0];
      StepSettles(mode, if step.left then s else Swap(s), step.calm);
      SwapMeasure(mode, s);
      SwapMeasure(mode, TakeCalm(mode, s, step));
      SwapTwice(ActCalm(mode, Swap(s), step.calm));
      RunSettles(mode, TakeCalm(mode, s, step), steps[1..]);
    }
  }

  lemma SwapTwice(s: System)
    ensures Swap(Swap(s)) == s
  {
  }

  lemma SwapMeasure(mode: Mode, s: System)
    requires mode.Valid()
    ensures Measure(mode, Swap(s)) == Measure(mode, s)
  {
    hide Load;
  }

  /** Nothing sleeps, so nothing is woken between snapshot and poll. */
  lemma AwakeIsFair(mode: Mode, s: System, c: Calm)
    requires mode.Valid() && s.a.e.sleep == []
    ensures Fair(mode, s, c)
  {
    if c.Ticks? {
      var e := s.a.e;
      assert HandleAll(mode, e.(sleep := []), [], c.env) == e;
    }
  }

  /** Once the measure is spent, everything is empty and neither side has anything to send. */
  lemma SpentIsSilent(mode: Mode, s: System, c: Calm)
    requires mode.Valid() && Measure(mode, s) == 0
    ensures !Busy(mode, s, c) && ActCalm(mode, s, c).toB == []
  {
    assert s.toB == [] && s.a.e.sleep == [];
    hide Handle, Diffed, Load, Ticked, Fair;
    AwakeIsFair(mode, s, c);
    StepSettles(mode, s, c);
    if c.PollsNow? {
      assert s.toB + Diffed(mode, s.a.e).1 == [];
    }
    if c.Ticks? {
      assert s.toB + Ticked(mode, s.a.e, c.env).1 == [];
    }
  }

  // ------------------------------------------------------------ after an echo

  lemma {:induction false} PollLeaves(mode: Mode, cache: Memory, snap: Memory, addrs: seq<int>, a: int)
    requires (forall b :: b in addrs ==> b in mode.recs) && a !in addrs && a in cache
    ensures var cache' := PollAll(mode, cache, snap, addrs).0; a in cache' && cache'[a] == cache[a]
    decreases |addrs|
  {
    hide RecordChanged, CachesSuppressed;
    if addrs != [] {
      PollLeaves(mode, PollOne(mode, cache, snap, addrs[0]).0, snap, addrs[1..], a);
    }
  }

  /** A poll that sends an address sends the value the record makes of the snapshot's, and caches that of the snapshot. */
  lemma {:induction false} PollSends(mode: Mode, cache: Memory, snap: Memory, addrs: seq<int>, a: int)
    requires (forall b :: b in addrs ==> b in mode.recs) && a in addrs && SendsNow(mode, cache, snap, a)
    requires forall i, j :: 0 <= i < j < |addrs| ==> addrs[i] != addrs[j]
    ensures var (cache', out) := PollAll(mode, cache, snap, addrs);
      && a in cache' && cache'[a] == At(snap, a)
      && Msg(a, RecordChanged(mode.recs[a], At(snap, a), cache[a], false).1) in out
    decreases |addrs|
  {
    hide RecordChanged, CachesSuppressed;
    var rest := addrs[1..];
    var (cache', out) := PollOne(mode, cache, snap, addrs[0]);
    if addrs[0] == a {
      assert a !in rest;
      PollLeaves(mode, cache', snap, rest, a);
    } else {
      PollSends(mode, cache', snap, rest, a);
    }
  }

  /** `bitOr` bytes, counters and plain bytes: what may be sent over another value, that value may be sent over. */
  predicate BothWays(rec: Rec) {
    BitOrRec(rec) || DeltaRec(rec) || (rec.kind.Plain? && rec.mask.None? && rec.cond.None?)
  }

  lemma SentBothWays(rec: Rec, x: byte, y: byte)
    requires BothWays(rec) && RecordChanged(rec, x, y, false).0
    ensures RecordChanged(rec, y, x, false).0
  {
    if BitOrRec(rec) {
      BitOrBothWays(rec, x, y);
    } else {
      hide And;
    }
  }

  lemma BitOrBothWays(rec: Rec, x: byte, y: byte)
    requires BitOrRec(rec) && RecordChanged(rec, x, y, false).0
    ensures RecordChanged(rec, y, x, false).0
  {
    BitOrDecides(rec, x, y);
    BitOrDecides(rec, y, x);
    MaskedIsByte(rec, x, y);
    hide RecordChanged, MaskedValue, Bit;
    if !RecordChanged(rec, y, x, false).0 {
      forall i: nat | i < 8 ensures Bit(MaskedValue(rec, x, y), i) == Bit(y, i) {
        BitOrSend(rec, y, x, i);
        BitOfMasked(rec, x, y, i);
      }
      SameByte(MaskedValue(rec, x, y), y);
    }
  }

  /**
   * An echo does not only go out: memory then differs from the cache again. The next poll sends the address once more if
   * and only if the value in memory may be sent over the one before, as for `bitOr` bytes, counters and plain bytes.
   */
  lemma StaleEcho(mode: Mode, e: Engine, a: int, env: Env)
    requires mode.Valid() && Agree(mode, e) && !ImplausibleSnapshot(mode, e.ram) && a in mode.order && Echoes(mode, e, env, a)
    ensures var (e', out) := Ticked(mode, e, env);
      var before, after := At(e.ram, a), At(DrainSleep(mode, e, env).ram, a);
      && Msg(a, RecordChanged(mode.recs[a], before, after, false).1) in out
      && At(e'.ram, a) == after != before && a in e'.cache && e'.cache[a] == before
      && (WouldSend(mode, e', a) <==> RecordChanged(mode.recs[a], after, before, false).0)
      && (BothWays(mode.recs[a]) ==> WouldSend(mode, e', a))
  {
    var before, after := At(e.ram, a), At(DrainSleep(mode, e, env).ram, a);
    if BothWays(mode.recs[a]) {
      SentBothWays(mode.recs[a], before, after);
    }
    hide RecordChanged, DrainSleep, ImplausibleSnapshot;
    WokenPoll(mode, e, env, a);
    EchoIsSent(mode, e, env, a);
    PollSends(mode, DrainSleep(mode, e, env).cache, e.ram, mode.order, a);
  }
}
