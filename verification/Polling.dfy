/**
 * What polls of the running game do: the first one fills the cache, the later ones send exactly the changes against it,
 * across pauses; a resynchronisation starts over.
 */
module Polling {
  import opened Wrappers
  import opened Bytes
  import opened Bits
  import opened Records
  import opened MapWriteGates
  import opened SyncEngines
  import opened SyncSessions
  import Quiescence
  import Replicas

  // --------------------------------------------------------- the first poll

  /** The value a poll compares an address with: the cached one, or the snapshot's own. */
  function Known(cache: Memory, snapshot: Memory, a: int): byte { if a in cache then cache[a] else At(snapshot, a) }

  /** Filling keeps what is cached, takes the rest from the snapshot, and touches nothing but the addresses. */
  lemma {:induction false} FillCacheAt(cache: Memory, snapshot: Memory, addrs: seq<int>, a: int)
    ensures var filled := FillCache(cache, snapshot, addrs);
      && (a in filled <==> a in cache || a in addrs)
      && (a in filled ==> filled[a] == Known(cache, snapshot, a))
    decreases |addrs|
  {
    if addrs != [] {
      var first := if addrs[0] in cache then cache else cache[addrs[0] := At(snapshot, addrs[0])];
      FillCacheAt(first, snapshot, addrs[1..], a);
      assert a in addrs <==> a == addrs[0] || a in addrs[1..];
    }
  }

  /**
   * The first poll of a running game: every address of the table is cached afterwards, at the value it was cached with
   * before or else at the snapshot's; nothing else is cached, and nothing but the cache and its flags changes.
   */
  lemma FirstPollCaches(mode: Mode, e: Engine, limit: Option<int>, snapshot: Memory, a: int)
    requires mode.Valid() && !e.didCache && !ImplausibleSnapshot(mode, snapshot)
    ensures var e' := CheckFirstRunning(mode, e, limit, snapshot).0;
      && e'.didCache
      && (a in e'.cache <==> a in e.cache || a in mode.order)
      && (a in e'.cache ==> e'.cache[a] == Known(e.cache, snapshot, a))
      && e'.ram == e.ram && e'.sleep == e.sleep && e'.gate == e.gate && e'.idleTicks == e.idleTicks
  {
    hide FillCache, Broadcast, ImplausibleSnapshot;
    FillCacheAt(e.cache, snapshot, mode.order, a);
  }

  // ------------------------------------------------------------- later polls

  /** A poll sends the address with this value: it differs from the known one, and its record lets the change out. */
  predicate Changes(mode: Mode, cache: Memory, snapshot: Memory, m: Msg) {
    m.addr in mode.recs && Known(cache, snapshot, m.addr) != At(snapshot, m.addr)
    && RecordChanged(mode.recs[m.addr], At(snapshot, m.addr), Known(cache, snapshot, m.addr), false) == (true, m.value)
  }

  /** The updates follow the table, each address once. */
  ghost predicate InOrder(order: seq<int>, out: seq<Msg>) {
    (forall m :: m in out ==> m.addr in order)
    && (forall p, q, i, j ::
          0 <= p < q < |out| && 0 <= i < |order| && 0 <= j < |order| && order[i] == out[p].addr && order[j] == out[q].addr
          ==> i < j)
  }

  ghost predicate Distinct(order: seq<int>) { forall i, j :: 0 <= i < j < |order| ==> order[i] != order[j] }

  /** Where an address behind the first one stands. */
  lemma Later(order: seq<int>, a: int, i: nat)
    requires Distinct(order) && i < |order| && order[i] == a && a in order[1..]
    ensures i > 0 && order[1..][i - 1] == a
  {
    var k :| 0 <= k < |order| - 1 && order[1..][k] == a;
    assert order[k + 1] == a;
  }

  lemma OrderedPair(order: seq<int>, first: seq<Msg>, more: seq<Msg>, p: nat, q: nat, i: nat, j: nat)
    requires order != [] && Distinct(order) && InOrder(order[1..], more) && |first| <= 1
    requires p < q < |first + more| && i < |order| && j < |order|
    requires order[i] == (first + more)[p].addr && order[j] == (first + more)[q].addr
    requires first == [] || first[0].addr == order[0]
    ensures i < j
  {
    var d := |first|;
    assert (first + more)[q] == more[q - d] && more[q - d] in more;
    Later(order, order[j], j);
    if p >= d {
      assert (first + more)[p] == more[p - d] && more[p - d] in more;
      Later(order, order[i], i);
    }
  }

  lemma InOrderCons(order: seq<int>, first: seq<Msg>, more: seq<Msg>)
    requires order != [] && Distinct(order) && InOrder(order[1..], more)
    requires first == [] || (|first| == 1 && first[0].addr == order[0])
    ensures InOrder(order, first + more)
  {
    var out := first + more;
    forall m | m in out ensures m.addr in order {
      if m in more {
        assert m.addr in order[1..];
      }
    }
    forall p, q, i, j | 0 <= p < q < |out| && 0 <= i < |order| && 0 <= j < |order|
        && order[i] == out[p].addr && order[j] == out[q].addr ensures i < j {
      OrderedPair(order, first, more, p, q, i, j);
    }
  }

  lemma OneSent(mode: Mode, cache: Memory, snapshot: Memory, a: int, m: Msg)
    requires a in mode.recs
    ensures var (cache', out) := PollOne(mode, cache, snapshot, a);
      && (m in out <==> m.addr == a && Changes(mode, cache, snapshot, m))
      && (out == [] || (|out| == 1 && out[0].addr == a))
      && (m.addr != a ==> (m.addr in cache' <==> m.addr in cache) && Known(cache', snapshot, m.addr) == Known(cache, snapshot, m.addr))
  {
    hide RecordChanged, CachesSuppressed;
  }

  lemma {:induction false} PollAllSends(mode: Mode, cache: Memory, snapshot: Memory, addrs: seq<int>, m: Msg)
    requires Distinct(addrs) && forall a :: a in addrs ==> a in mode.recs
    ensures var (cache', out) := PollAll(mode, cache, snapshot, addrs);
      && (m in out <==> m.addr in addrs && Changes(mode, cache, snapshot, m))
      && InOrder(addrs, out)
      && (m.addr !in addrs ==> (m.addr in cache' <==> m.addr in cache) && Known(cache', snapshot, m.addr) == Known(cache, snapshot, m.addr))
    decreases |addrs|
  {
    hide PollOne, InOrder;
    if addrs == [] {
      assert InOrder([], []) by { NothingInOrder(); }
    } else {
      var (cache', first) := PollOne(mode, cache, snapshot, addrs[0]);
      OneSent(mode, cache, snapshot, addrs[0], m);
      assert forall a :: a in addrs <==> a == addrs[0] || a in addrs[1..];
      assert addrs[0] !in addrs[1..];
      PollAllSends(mode, cache', snapshot, addrs[1..], m);
      var more := PollAll(mode, cache', snapshot, addrs[1..]).1;
      assert m in first + more <==> m in first || m in more;
      InOrderCons(addrs, first, more);
    }
  }

  lemma NothingInOrder()
    ensures InOrder([], [])
  {
  }

  /** A poll of a plausible snapshot sends exactly the changes, in table order, each address once. */
  lemma DiffSends(mode: Mode, e: Engine, snapshot: Memory, m: Msg)
    requires mode.Valid() && !ImplausibleSnapshot(mode, snapshot)
    ensures var out := Diff(mode, e, snapshot).1;
      (m in out <==> m.addr in mode.order && Changes(mode, e.cache, snapshot, m)) && InOrder(mode.order, out)
  {
    hide PollAll, ImplausibleSnapshot, Changes, InOrder;
    PollAllSends(mode, e.cache, snapshot, mode.order, m);
  }

  /** What a poll compares the snapshot with: the cache after the first poll's part, and after the sleepers. */
  function Woken(c: Config, e: Engine, env: Env, snapshot: Memory): Engine
    requires c.mode.Valid()
  {
    DrainSleep(c.mode, CheckFirstRunning(c.mode, e.(idleTicks := 0), c.limit, snapshot).0, env)
  }

  /** Whatever sleeps, a poll sends exactly the changes against that, in table order. */
  lemma PollSendsWoken(c: Config, e: Engine, env: Env, snapshot: Memory, m: Msg)
    requires c.mode.Valid() && !ImplausibleSnapshot(c.mode, snapshot) && c.isRunning(snapshot)
    ensures var out := Poll(c, e, env, snapshot).2;
      && (m in out <==> m.addr in c.mode.order && Changes(c.mode, Woken(c, e, env, snapshot).cache, snapshot, m))
      && InOrder(c.mode.order, out)
  {
    hide ImplausibleSnapshot, InOrder, Diff, CheckFirstRunning, DrainSleep, Changes;
    DiffSends(c.mode, Woken(c, e, env, snapshot), snapshot, m);
  }

  /** A tick that polls, without sleepers and with no resynchronisation asked for. */
  predicate PlainPoll(c: Config, e: Engine, snapshot: Memory)
    requires c.mode.Valid()
  {
    e.sleep == [] && !e.forceSend && !ImplausibleSnapshot(c.mode, snapshot) && c.isRunning(snapshot)
  }

  lemma {:induction false} PollAllKeeps(mode: Mode, cache: Memory, snapshot: Memory, addrs: seq<int>, a: int)
    requires forall b :: b in addrs ==> b in mode.recs
    ensures a in cache ==> a in PollAll(mode, cache, snapshot, addrs).0
    decreases |addrs|
  {
    hide RecordChanged, CachesSuppressed;
    if addrs != [] {
      PollAllKeeps(mode, PollOne(mode, cache, snapshot, addrs[0]).0, snapshot, addrs[1..], a);
    }
  }

  /**
   * A poll, first or not: it sends exactly the changes against what is cached, in table order, and every address of the
   * table is cached afterwards if it was, or if this was the first poll.
   */
  lemma PollSends(c: Config, e: Engine, env: Env, snapshot: Memory, m: Msg)
    requires c.mode.Valid() && PlainPoll(c, e, snapshot)
    ensures var (e', first, out) := Poll(c, e, env, snapshot);
      && first == [] && (m in out <==> m.addr in c.mode.order && Changes(c.mode, e.cache, snapshot, m))
      && InOrder(c.mode.order, out)
      && e'.sleep == [] && !e'.forceSend && e'.didCache && e'.ram == e.ram && e'.gate == e.gate && e'.idleTicks == 0
      && (m.addr in c.mode.order && (m.addr in e.cache || !e.didCache) ==> m.addr in e'.cache)
  {
    hide ImplausibleSnapshot, InOrder, PollAll, FillCache, Broadcast, RecordChanged;
    var e1 := CheckFirstRunning(c.mode, e.(idleTicks := 0), c.limit, snapshot).0;
    if !e.didCache {
      FirstPollCaches(c.mode, e.(idleTicks := 0), c.limit, snapshot, m.addr);
      assert e.resync == [] ==> e1.resync == [];
    }
    assert DrainSleep(c.mode, e1, env) == e1;
    DiffSends(c.mode, e1, snapshot, m);
    assert Changes(c.mode, e1.cache, snapshot, m) == Changes(c.mode, e.cache, snapshot, m);
    PollAllKeeps(c.mode, e1.cache, snapshot, c.mode.order, m.addr);
  }

  /** What a poll leaves in the cache: the snapshot's value, unless the record has held the change back. */
  function Followed(mode: Mode, cache: Memory, snapshot: Memory, a: int): byte
    requires a in mode.recs
  {
    var cur, prev := At(snapshot, a), Known(cache, snapshot, a);
    if cur != prev && !RecordChanged(mode.recs[a], cur, prev, false).0 && !CachesSuppressed(mode.recs[a], cur, prev) then prev
    else cur
  }

  lemma {:induction false} PollAllCaches(mode: Mode, cache: Memory, snapshot: Memory, addrs: seq<int>, a: int)
    requires Distinct(addrs) && forall b :: b in addrs ==> b in mode.recs
    ensures Known(PollAll(mode, cache, snapshot, addrs).0, snapshot, a) ==
            if a in addrs then Followed(mode, cache, snapshot, a) else Known(cache, snapshot, a)
    decreases |addrs|
  {
    hide RecordChanged, CachesSuppressed;
    if addrs != [] {
      assert forall b :: b in addrs <==> b == addrs[0] || b in addrs[1..];
      assert addrs[0] !in addrs[1..];
      PollAllCaches(mode, PollOne(mode, cache, snapshot, addrs[0]).0, snapshot, addrs[1..], a);
    }
  }

  lemma PollCaches(c: Config, e: Engine, env: Env, snapshot: Memory, a: int)
    requires c.mode.Valid() && PlainPoll(c, e, snapshot) && a in c.mode.order && (a in e.cache || !e.didCache)
    ensures var e' := Poll(c, e, env, snapshot).0;
      a in e'.cache && e'.cache[a] == Followed(c.mode, e.cache, snapshot, a)
  {
    hide ImplausibleSnapshot, PollAll, FillCache, Broadcast, RecordChanged, CachesSuppressed;
    var e1 := CheckFirstRunning(c.mode, e.(idleTicks := 0), c.limit, snapshot).0;
    if !e.didCache {
      FirstPollCaches(c.mode, e.(idleTicks := 0), c.limit, snapshot, a);
    }
    assert DrainSleep(c.mode, e1, env) == e1;
    PollAllCaches(c.mode, e1.cache, snapshot, c.mode.order, a);
    PollAllKeeps(c.mode, e1.cache, snapshot, c.mode.order, a);
  }

  lemma EmptyOr(out: seq<Msg>)
    ensures out == [] || out[0] in out
  {
  }

  /** An engine as it is built. */
  predicate New(e: Engine) {
    e.cache == map[] && !e.didCache && !e.forceSend && e.sleep == [] && e.resync == [] && e.idleTicks == 0
    && (e.gate.Some? ==> e.gate.value.pending == [])
  }

  /** The change of an address from one snapshot to the next is sent with this value. */
  predicate Goes(mode: Mode, before: Memory, snapshot: Memory, m: Msg) {
    m.addr in mode.order && m.addr in mode.recs && At(before, m.addr) != At(snapshot, m.addr)
    && RecordChanged(mode.recs[m.addr], At(snapshot, m.addr), At(before, m.addr), false) == (true, m.value)
  }

  /**
   * A new bridge: its first poll sends nothing, and its second exactly the addresses that differ between the two
   * snapshots and whose records let the change out.
   */
  lemma NewBridge(c: Config, e: Engine, env: Env, first: Memory, env': Env, second: Memory, m: Msg)
    requires c.mode.Valid() && New(e)
    requires !ImplausibleSnapshot(c.mode, first) && c.isRunning(first)
    requires !ImplausibleSnapshot(c.mode, second) && c.isRunning(second)
    ensures var (e1, r1, out1) := Poll(c, e, env, first);
      var (e2, r2, out2) := Poll(c, e1, env', second);
      && r1 == out1 == r2 == []
      && (m in out2 <==> Goes(c.mode, first, second, m)) && InOrder(c.mode.order, out2)
  {
    hide ImplausibleSnapshot, Poll, InOrder, RecordChanged;
    var (e1, r1, out1) := Poll(c, e, env, first);
    EmptyOr(out1);
    forall x ensures x !in out1 {
      PollSends(c, e, env, first, x);
    }
    PollSends(c, e, env, first, m);
    PollSends(c, e1, env', second, m);
    if m.addr in c.mode.order {
      PollCaches(c, e, env, first, m.addr);
    }
  }

  // ------------------------------------------------------------------ pauses

  /** So many ticks on which the game does not run. */
  function Idle(e: Engine, threshold: nat, ticks: nat): Engine
    decreases ticks
  {
    if ticks == 0 then e else Idle(NotRunning(e, threshold).0, threshold, ticks - 1)
  }

  /** In how many of them the bridge announces a pause. */
  function Pauses(e: Engine, threshold: nat, ticks: nat): nat
    decreases ticks
  {
    if ticks == 0 then 0
    else (if NotRunning(e, threshold).1 then 1 else 0) + Pauses(NotRunning(e, threshold).0, threshold, ticks - 1)
  }

  /**
   * A bridge pauses when the game has not run for as many ticks in a row as the threshold says, not before, and once.
   * Nothing but that flag and the count changes: the cache is kept.
   */
  lemma {:induction false} PausesAtThreshold(e: Engine, threshold: nat, ticks: nat)
    ensures var over := ticks > 0 && e.idleTicks + ticks >= threshold;
      && Idle(e, threshold, ticks) == e.(idleTicks := e.idleTicks + ticks, didCache := e.didCache && !over)
      && Pauses(e, threshold, ticks) == if e.didCache && over then 1 else 0
    decreases ticks
  {
    if ticks > 0 {
      PausesAtThreshold(NotRunning(e, threshold).0, threshold, ticks - 1);
    }
  }

  /** So the changes that happen during a pause, however long, go out with the first poll after it. */
  lemma PauseResumes(c: Config, e: Engine, env: Env, before: Memory, ticks: nat, env': Env, after: Memory, m: Msg)
    requires c.mode.Valid() && PlainPoll(c, e, before) && (m.addr in c.mode.order ==> m.addr in e.cache || !e.didCache)
    requires !ImplausibleSnapshot(c.mode, after) && c.isRunning(after)
    ensures var paused := Idle(Poll(c, e, env, before).0, c.threshold, ticks);
      var (_, first, out) := Poll(c, paused, env', after);
      && first == []
      && (m in out <==>
            && m.addr in c.mode.order && var known := Followed(c.mode, e.cache, before, m.addr);
            && known != At(after, m.addr)
            && RecordChanged(c.mode.recs[m.addr], At(after, m.addr), known, false) == (true, m.value))
  {
    hide ImplausibleSnapshot, Poll, InOrder, RecordChanged, Idle, Pauses, Followed;
    var e1 := Poll(c, e, env, before).0;
    PollSends(c, e, env, before, m);
    PausesAtThreshold(e1, c.threshold, ticks);
    PollSends(c, Idle(e1, c.threshold, ticks), env', after, m);
    if m.addr in c.mode.order {
      PollCaches(c, e, env, before, m.addr);
    }
  }

  // ----------------------------------------------------------------- resyncs

  lemma {:induction false} BroadcastSends(mode: Mode, snapshot: Memory, addrs: seq<int>, m: Msg)
    requires Distinct(addrs) && forall a :: a in addrs ==> a in mode.recs
    ensures var all := Broadcast(mode, snapshot, addrs);
      && (m in all <==> m.addr in addrs && m.value == At(snapshot, m.addr) != 0 && !mode.recs[m.addr].kind.Delta?)
      && InOrder(addrs, all)
    decreases |addrs|
  {
    hide InOrder;
    if addrs == [] {
      assert InOrder([], []) by { NothingInOrder(); }
    } else {
      BroadcastSends(mode, snapshot, addrs[1..], m);
      assert forall a :: a in addrs <==> a == addrs[0] || a in addrs[1..];
      assert addrs[0] !in addrs[1..];
      var first := if Resent(mode, snapshot, addrs[0]) then [Msg(addrs[0], At(snapshot, addrs[0]))] else [];
      var more := Broadcast(mode, snapshot, addrs[1..]);
      assert m in first + more <==> m in first || m in more;
      InOrderCons(addrs, first, more);
    }
  }

  /**
   * After a reconnect the bridge starts over: its next poll takes every address of the table anew from the snapshot,
   * whatever was cached, sends each value that is neither zero nor a counter, once and in table order, and no change
   * beside them; from then on it sends exactly the changes against that snapshot.
   */
  lemma ResyncStartsOver(c: Config, e: Engine, env: Env, snapshot: Memory, env': Env, next: Memory, m: Msg)
    requires c.mode.Valid() && c.limit.None? && e.sleep == []
    requires !ImplausibleSnapshot(c.mode, snapshot) && c.isRunning(snapshot)
    requires !ImplausibleSnapshot(c.mode, next) && c.isRunning(next)
    ensures var (e1, first, out) := Poll(c, Resync(e), env, snapshot);
      var (_, again, out') := Poll(c, e1, env', next);
      && (m in first <==> m.addr in c.mode.order && m.value == At(snapshot, m.addr) != 0 && !c.mode.recs[m.addr].kind.Delta?)
      && InOrder(c.mode.order, first) && out == again == []
      && (m.addr in c.mode.order ==> m.addr in e1.cache && e1.cache[m.addr] == At(snapshot, m.addr))
      && (m in out' <==> Goes(c.mode, snapshot, next, m))
  {
    hide ImplausibleSnapshot, InOrder, RecordChanged, FillCache, Broadcast, PollAll;
    var e0 := Resync(e).(idleTicks := 0);
    var e1 := CheckFirstRunning(c.mode, e0, c.limit, snapshot).0;
    assert DrainSleep(c.mode, e1, env) == e1;
    EmptyOr(Diff(c.mode, e1, snapshot).1);
    forall x ensures x !in Diff(c.mode, e1, snapshot).1 {
      FirstPollCaches(c.mode, e0, c.limit, snapshot, x.addr);
      DiffSends(c.mode, e1, snapshot, x);
    }
    FirstPollCaches(c.mode, e0, c.limit, snapshot, m.addr);
    BroadcastSends(c.mode, snapshot, c.mode.order, m);
    var e2 := Poll(c, Resync(e), env, snapshot).0;
    PollAllKeeps(c.mode, e1.cache, snapshot, c.mode.order, m.addr);
    PollAllCaches(c.mode, e1.cache, snapshot, c.mode.order, m.addr);
    hide Poll;
    PollSends(c, e2, env', next, m);
  }

  // ------------------------------------------------------------- plausibility

  /** A snapshot is polled exactly if every `high` address that is in it shows a value its record has a name for. */
  lemma PlausibleIff(mode: Mode, snapshot: Memory)
    requires mode.Valid()
    ensures ImplausibleSnapshot(mode, snapshot) <==>
      exists a :: a in mode.order && a in snapshot && mode.recs[a].kind.High?
                  && mode.recs[a].maxPlausible.Some? && snapshot[a] > mode.recs[a].maxPlausible.value
  {
  }

  /** Any other snapshot is as if it had not been read. */
  lemma ImplausibleIgnored(c: Config, e: Engine, env: Env, snapshot: Memory, a: int)
    requires c.mode.Valid() && a in c.mode.order && a in snapshot && c.mode.recs[a].kind.High?
    requires c.mode.recs[a].maxPlausible.Some? && snapshot[a] > c.mode.recs[a].maxPlausible.value
    ensures Poll(c, e, env, snapshot) == (e, [], [])
    ensures Diff(c.mode, e, snapshot) == CheckFirstRunning(c.mode, e, c.limit, snapshot) == (e, [])
  {
    hide FillCache, Broadcast, PollAll, DrainSleep;
  }

  /** A `high` value from the partner is written exactly if its record has a name for it and it is larger. */
  lemma HighTakenIff(mode: Mode, e: Engine, m: Msg, queueAsleep: bool, bypassGate: bool, env: Env)
    requires m.addr in mode.recs && HighRec(mode.recs[m.addr]) && env.canRead && env.canWrite && (queueAsleep ==> env.running)
    ensures var rec := mode.recs[m.addr];
      Handle(mode, e, m, queueAsleep, bypassGate, env).1 == Applied <==>
        && (rec.maxPlausible.Some? ==> 0 <= m.value <= rec.maxPlausible.value)
        && m.value % 0x100 > At(e.ram, m.addr)
  {
    hide And;
    WholeByte(mode.recs[m.addr], m.value);
    WholeByte(mode.recs[m.addr], At(e.ram, m.addr));
  }

  // ------------------------------------------------------ counters, map bytes

  /**
   * The cache follows a counter at every poll. What is sent is the difference since the last one, unless either side of
   * it is zero and the record says to ignore that: such a difference is never made up for later.
   */
  lemma CounterFollows(mode: Mode, cache: Memory, snapshot: Memory, a: int, value: int)
    requires a in mode.recs && Quiescence.DeltaRec(mode.recs[a])
    ensures var cur, prev := At(snapshot, a), Known(cache, snapshot, a);
      && Followed(mode, cache, snapshot, a) == cur
      && (Changes(mode, cache, snapshot, Msg(a, value)) <==>
            cur != prev && !(mode.recs[a].ignoreZero && (cur == 0 || prev == 0)) && value == cur - prev)
  {
    hide And;
    WholeByte(mode.recs[a], At(snapshot, a));
    WholeByte(mode.recs[a], Known(cache, snapshot, a));
  }

  /** Which updates wait for the gate: those to `bitOr` records of the map bytes, on their first way in. */
  lemma DeferredIff(mode: Mode, e: Engine, m: Msg, queueAsleep: bool, bypassGate: bool, env: Env)
    ensures Handle(mode, e, m, queueAsleep, bypassGate, env).1 == Deferred <==>
      m.addr in mode.recs && mode.recs[m.addr].kind.BitwiseOr? && 0x067F <= m.addr < 0x07FF && e.gate.Some? && !bypassGate
  {
    hide RecordChanged, AfterEnqueue;
  }

  /**
   * An update is lost exactly when the endpoint fails: a write that fails is reported where it would have been applied,
   * a read that fails where the update had got as far as memory, and neither changes anything.
   */
  lemma LostIff(mode: Mode, e: Engine, m: Msg, queueAsleep: bool, bypassGate: bool, env: Env)
    ensures var (e', status) := Handle(mode, e, m, queueAsleep, bypassGate, env);
      var working := Handle(mode, e, m, queueAsleep, bypassGate, env.(canRead := true, canWrite := true)).1;
      && (status == ReadError <==> !env.canRead && working in {Applied, NoChange})
      && (status == WriteError <==> env.canRead && !env.canWrite && working == Applied)
      && (status in {ReadError, WriteError, NoChange, ImplausibleValue, UnknownAddr} ==> e' == e)
  {
    hide RecordChanged, Implausible, AfterEnqueue;
  }

  /** What the status tells of an update: unknown, asleep, or which of memory and gate it went into. */
  lemma StatusTells(mode: Mode, e: Engine, m: Msg, queueAsleep: bool, bypassGate: bool, env: Env)
    ensures var (e', status) := Handle(mode, e, m, queueAsleep, bypassGate, env);
      && (status == UnknownAddr <==> m.addr !in mode.recs)
      && (status == QueuedAsleep <==> e'.sleep == e.sleep + [m])
      && (e'.ram != e.ram || e'.cache != e.cache ==> status == Applied)
      && (e'.gate != e.gate ==> status == Deferred)
      && (status == Applied ==> m.addr in e'.ram && m.addr in e'.cache && e'.cache[m.addr] == e'.ram[m.addr])
      && (status == ImplausibleValue ==> mode.recs[m.addr].kind.High?)
  {
    hide RecordChanged, AfterEnqueue;
    assert e.sleep != e.sleep + [m] by { assert |e.sleep + [m]| == |e.sleep| + 1; }
  }

  // ----------------------------------------------------------- fresh bridges

  /** The first poll of its own memory leaves an engine that agrees with it, as the quiescence results assume. */
  lemma FirstPollAgrees(mode: Mode, e: Engine, limit: Option<int>)
    requires mode.Valid() && New(e) && !ImplausibleSnapshot(mode, e.ram)
    ensures Quiescence.Agree(mode, CheckFirstRunning(mode, e, limit, e.ram).0)
  {
    hide CheckFirstRunning, ImplausibleSnapshot;
    forall a | a in mode.order ensures var e' := CheckFirstRunning(mode, e, limit, e.ram).0;
      a in e'.cache && e'.cache[a] == At(e'.ram, a)
    {
      FirstPollCaches(mode, e, limit, e.ram, a);
    }
  }

  /** Two new bridges over games that hold the same byte start as the convergence results assume. */
  lemma NewBridgesStart(mode: Mode, x: Engine, y: Engine, limit: Option<int>, a: int)
    requires mode.Valid() && a in mode.order && New(x) && New(y) && x.Valid() && y.Valid()
    requires !ImplausibleSnapshot(mode, x.ram) && !ImplausibleSnapshot(mode, y.ram)
    requires At(x.ram, a) == At(y.ram, a)
    ensures Replicas.Start(mode, Replicas.System(
      Replicas.Side(CheckFirstRunning(mode, x, limit, x.ram).0, x.ram),
      Replicas.Side(CheckFirstRunning(mode, y, limit, y.ram).0, y.ram), [], []), a)
  {
    hide CheckFirstRunning;
    FirstPollCaches(mode, x, limit, x.ram, a);
    FirstPollCaches(mode, y, limit, y.ram, a);
  }

  /** The tick that the quiescence results are about is this poll. */
  lemma TickedIsPoll(c: Config, e: Engine, env: Env)
    requires c.mode.Valid() && e.didCache && c.isRunning(e.ram) && !ImplausibleSnapshot(c.mode, e.ram)
    ensures var (e', sent) := Quiescence.Ticked(c.mode, e.(idleTicks := 0), env); Poll(c, e, env, e.ram) == (e', [], sent)
  {
    hide ImplausibleSnapshot, PollAll, HandleAll;
  }

  // ------------------------------------------------------------------- ticks

  /** Updates from the partner do not count as ticks, and do not say hello. */
  lemma HandleSameTicks(mode: Mode, e: Engine, m: Msg, queueAsleep: bool, bypassGate: bool, env: Env)
    ensures Handle(mode, e, m, queueAsleep, bypassGate, env).0.idleTicks == e.idleTicks
  {
    hide RecordChanged, Implausible, AfterEnqueue;
  }

  lemma {:induction false} IncomingSameTicks(mode: Mode, s: Session, incoming: seq<Incoming>, env: Env)
    requires forall i :: i in incoming ==> !i.Reconnected?
    ensures var s' := OnAll(mode, s, incoming, env); s'.e.idleTicks == s.e.idleTicks && s'.helloSent == s.helloSent
    decreases |incoming|
  {
    hide Handle;
    if incoming != [] {
      var i := incoming[0];
      assert i in incoming;
      if i.Data? && i.addr.Some? && i.value.Some? {
        HandleSameTicks(mode, s.e, Msg(i.addr.value, i.value.value), true, false, env);
      }
      IncomingSameTicks(mode, OnIncoming(mode, s, i, env), incoming[1..], env);
    }
  }

  lemma {:induction false} HelloIn(c: Config, s: Session, ticks: seq<Tick>, i: nat)
    requires c.mode.Valid() && i < |ticks| && forall t :: t in ticks ==> NoReconnect(t)
    ensures var sent := RunTicks(c, s, ticks).1;
      |sent| == |ticks| &&
      (sent[i].hello <==> !s.helloSent && ticks[i].established && forall j :: 0 <= j < i ==> !ticks[j].established)
    decreases |ticks|
  {
    var t, rest := ticks[0], ticks[1..];
    assert t in ticks;
    IncomingSameTicks(c.mode, s, t.incoming, t.env);
    hide OnAll, Synced;
    var s1 := AfterTick(c, s, t).0;
    assert forall j :: 0 < j < |ticks| ==> ticks[j] == rest[j - 1];
    if i > 0 {
      HelloIn(c, s1, rest, i - 1);
    } else {
      SentLength(c, s1, rest);
    }
  }

  lemma {:induction false} SentLength(c: Config, s: Session, ticks: seq<Tick>)
    requires c.mode.Valid()
    ensures |RunTicks(c, s, ticks).1| == |ticks|
    decreases |ticks|
  {
    hide AfterTick;
    if ticks != [] {
      SentLength(c, AfterTick(c, s, ticks[0]).0, ticks[1..]);
    }
  }

  /** After a reconnect the session says hello once: in the first tick on which the pipe is established. */
  lemma HelloOnce(c: Config, before: Session, env: Env, ticks: seq<Tick>, i: nat)
    requires c.mode.Valid() && i < |ticks| && forall t :: t in ticks ==> NoReconnect(t)
    ensures var sent := RunTicks(c, OnIncoming(c.mode, before, Reconnected, env), ticks).1;
      |sent| == |ticks| && (sent[i].hello <==> ticks[i].established && forall j :: 0 <= j < i ==> !ticks[j].established)
  {
    hide RunTicks, NoReconnect;
    HelloIn(c, OnIncoming(c.mode, before, Reconnected, env), ticks, i);
  }

  /** Whether a tick gets as far as its snapshot: no resynchronisation waits, and deferral does not cut it short. */
  predicate Reads(c: Config, s: Session, t: Tick) {
    t.established && t.probe == Some(true) && s.e.resync == [] && !Backlogged(c, s, t) && t.snapshot.Some?
  }

  /** The game does not run: the probe says so, or the snapshot. */
  predicate Stopped(c: Config, s: Session, t: Tick)
    requires c.mode.Valid()
  {
    || (t.established && t.probe == Some(false))
    || (Reads(c, s, t) && !ImplausibleSnapshot(c.mode, t.snapshot.value) && !c.isRunning(t.snapshot.value))
  }

  /** What a session sends as changes: a tick that polls, exactly those against the cache it has then; any other, none. */
  lemma TickSends(c: Config, s: Session, t: Tick, m: Msg)
    requires c.mode.Valid() && NoReconnect(t)
    ensures var out := AfterTick(c, s, t).1.changes;
      var e := DrainGate(c.mode, OnAll(c.mode, s, t.incoming, t.env).e, t.env);
      if Reads(c, s, t) && Polls(c, t, t.snapshot.value) then
        var cache := Woken(c, e, t.env, t.snapshot.value).cache;
        (m in out <==> m.addr in c.mode.order && Changes(c.mode, cache, t.snapshot.value, m)) && InOrder(c.mode.order, out)
      else out == []
  {
    hide OnAll, DrainGate, ImplausibleSnapshot, GateBacklog, Poll, InOrder, Changes, Woken;
    var e0 := OnAll(c.mode, s, t.incoming, t.env).e;
    IncomingSameResync(c.mode, s, t.incoming, t.env);
    DrainGateSameResync(c.mode, e0, t.env);
    var e := DrainGate(c.mode, e0, t.env);
    if t.snapshot.Some? {
      if !ImplausibleSnapshot(c.mode, t.snapshot.value) && c.isRunning(t.snapshot.value) {
        PollSendsWoken(c, e, t.env, t.snapshot.value, m);
      }
      NoPollNoChange(c, e, t.env, t.snapshot.value);
    }
  }

  /** And what it leaves, if it does not poll: what the deliveries have made of it, and the gate while the game runs. */
  lemma TickLeaves(c: Config, s: Session, t: Tick)
    requires c.mode.Valid() && NoReconnect(t) && !(Reads(c, s, t) && Polls(c, t, t.snapshot.value))
    ensures var delivered := OnAll(c.mode, s, t.incoming, t.env).e;
      var e := if t.established && t.probe == Some(true) then DrainGate(c.mode, delivered, t.env) else delivered;
      var e' := AfterTick(c, s, t).0.e;
      e'.ram == e.ram && e'.cache == e.cache && e'.gate == e.gate && e'.sleep == e.sleep
  {
    hide OnAll, DrainGate, ImplausibleSnapshot, GateBacklog, CheckFirstRunning, DrainSleep, Diff;
    var e0 := OnAll(c.mode, s, t.incoming, t.env).e;
    IncomingSameResync(c.mode, s, t.incoming, t.env);
    DrainGateSameResync(c.mode, e0, t.env);
  }

  lemma NoPollNoChange(c: Config, e: Engine, env: Env, snapshot: Memory)
    requires c.mode.Valid()
    ensures ImplausibleSnapshot(c.mode, snapshot) || !c.isRunning(snapshot) ==> Poll(c, e, env, snapshot).2 == []
  {
    hide ImplausibleSnapshot, DrainSleep, Diff, CheckFirstRunning;
  }

  /**
   * Which ticks count towards a pause: those on which the game is seen not to run; one that polls starts the count
   * again, and any other tick, as when the probe fails, leaves count and flag alone.
   */
  lemma TickCounts(c: Config, s: Session, t: Tick)
    requires c.mode.Valid() && NoReconnect(t)
    ensures var e := AfterTick(c, s, t).0.e;
      if Stopped(c, s, t) then
        e.idleTicks == NotRunning(s.e, c.threshold).0.idleTicks && e.didCache == NotRunning(s.e, c.threshold).0.didCache
      else if Reads(c, s, t) && Polls(c, t, t.snapshot.value) then e.idleTicks == 0 && e.didCache
      else e.idleTicks == s.e.idleTicks && e.didCache == s.e.didCache
  {
    hide OnAll, DrainGate, ImplausibleSnapshot, GateBacklog, Handle, HandleAll, PollAll, FillCache, Broadcast;
    var e0 := OnAll(c.mode, s, t.incoming, t.env).e;
    IncomingSameTicks(c.mode, s, t.incoming, t.env);
    IncomingSameResync(c.mode, s, t.incoming, t.env);
    DrainGateSameResync(c.mode, e0, t.env);
    DrainGateSameTicks(c.mode, e0, t.env);
    if t.snapshot.Some? && !ImplausibleSnapshot(c.mode, t.snapshot.value) && c.isRunning(t.snapshot.value) {
      var e1 := DrainGate(c.mode, e0, t.env);
      var e2 := CheckFirstRunning(c.mode, e1.(idleTicks := 0), c.limit, t.snapshot.value).0;
      HandleAllSameResync(c.mode, e2.(sleep := []), e2.sleep, t.env);
      HandleAllSameTicks(c.mode, e2.(sleep := []), e2.sleep, t.env);
    }
  }

  lemma DrainGateSameTicks(mode: Mode, e: Engine, env: Env)
    ensures DrainGate(mode, e, env).idleTicks == e.idleTicks
  {
    hide Handle;
    if e.gate.Some? && Due(e.gate.value, env.now) && env.running {
      var (g, item) := AfterPop(e.gate.value, env.now);
      HandleSameTicks(mode, e.(gate := Some(g)), Msg(item.value.addr, item.value.value), false, true, env);
    }
  }

  lemma {:induction false} HandleAllSameTicks(mode: Mode, e: Engine, items: seq<Msg>, env: Env)
    ensures HandleAll(mode, e, items, env).idleTicks == e.idleTicks
    decreases |items|
  {
    hide Handle;
    if items != [] {
      HandleSameTicks(mode, e, items[0], false, false, env);
      HandleAllSameTicks(mode, Handle(mode, e, items[0], false, false, env).0, items[1..], env);
    }
  }

  /** On each tick of the run the game is seen not to run. */
  ghost predicate AllStopped(c: Config, s: Session, ticks: seq<Tick>)
    requires c.mode.Valid()
    decreases |ticks|
  {
    ticks == [] ||
    (NoReconnect(ticks[0]) && Stopped(c, s, ticks[0]) && AllStopped(c, AfterTick(c, s, ticks[0]).0, ticks[1..]))
  }

  /** A session pauses when that has been so for as many ticks in a row as its threshold says, and not before. */
  lemma {:induction false} StoppedRunPauses(c: Config, s: Session, ticks: seq<Tick>)
    requires c.mode.Valid() && AllStopped(c, s, ticks)
    ensures var e := RunTicks(c, s, ticks).0.e;
      && e.idleTicks == s.e.idleTicks + |ticks|
      && e.didCache == (s.e.didCache && !(|ticks| > 0 && s.e.idleTicks + |ticks| >= c.threshold))
    decreases |ticks|
  {
    hide AfterTick, Stopped, NoReconnect;
    if ticks != [] {
      TickCounts(c, s, ticks[0]);
      StoppedRunPauses(c, AfterTick(c, s, ticks[0]).0, ticks[1..]);
    }
  }
}
