/** The sync engine of bridge/bridge_core/sync_engine.py: its operations as functions of a state, and the class. */
module SyncEngines {
  import opened Wrappers
  import opened Bytes
  import opened Records
  import opened MapWriteGates

  /** A mode's `SYNC` table: the records, and the order in which the dictionary is walked. */
  datatype Mode = Mode(order: seq<int>, recs: map<int, Rec>) {
    ghost predicate Valid() {
      && (forall a :: a in recs <==> a in order)
      && (forall i, j :: 0 <= i < j < |order| ==> order[i] != order[j])
    }
  }

  type Memory = map<int, byte>

  function At(m: Memory, a: int): byte { if a in m then m[a] else 0 }

  /** A per-address update, as it travels between the partners. */
  datatype Msg = Msg(addr: int, value: int)

  datatype Engine = Engine(
    ram: Memory, cache: Memory, didCache: bool, forceSend: bool,
    sleep: seq<Msg>, resync: seq<Msg>, idleTicks: nat, gate: Option<Gate>)
  {
    ghost predicate Valid() { gate.Some? ==> gate.value.Valid() }
  }

  /** What the endpoint does during a call: the running probe, whether reads and writes succeed, and the clock. */
  datatype Env = Env(running: bool, canRead: bool, canWrite: bool, now: real)

  datatype Status =
    MissingAddr | MissingValue | UnknownAddr | ImplausibleValue | Deferred | QueuedAsleep | ReadError | WriteError
    | Applied | NoChange

  // -------------------------------------------------------------- receiving

  /** Read, merge, write back, remember. */
  function Apply(mode: Mode, e: Engine, m: Msg, env: Env): (Engine, Status)
    requires m.addr in mode.recs
  {
    if !env.canRead then (e, ReadError)
    else
      var (allow, value) := RecordChanged(mode.recs[m.addr], m.value, At(e.ram, m.addr), true);
      if !allow then (e, NoChange)
      else if !env.canWrite then (e, WriteError)
      else (e.(ram := e.ram[m.addr := value % 0x100], cache := e.cache[m.addr := value % 0x100]), Applied)
  }

  predicate TakesGate(mode: Mode, e: Engine, a: int)
    requires a in mode.recs
  {
    e.gate.Some? && Gated(a, mode.recs[a])
  }

  /** `handle_table_result`, once address and value are there. */
  function Handle(mode: Mode, e: Engine, m: Msg, queueAsleep: bool, bypassGate: bool, env: Env): (Engine, Status) {
    if m.addr !in mode.recs then (e, UnknownAddr)
    else if Implausible(mode.recs[m.addr], m.value) then (e, ImplausibleValue)
    else if !bypassGate && TakesGate(mode, e, m.addr) then
      (e.(gate := Some(AfterEnqueue(e.gate.value, m.addr, m.value, env.now))), Deferred)
    else if queueAsleep && !env.running then (e.(sleep := e.sleep + [m]), QueuedAsleep)
    else Apply(mode, e, m, env)
  }

  /** The items of the sleep queue, handled in order after the queue has been emptied. */
  function HandleAll(mode: Mode, e: Engine, items: seq<Msg>, env: Env): Engine
    decreases |items|
  {
    if items == [] then e else HandleAll(mode, Handle(mode, e, items[0], false, false, env).0, items[1..], env)
  }

  function DrainSleep(mode: Mode, e: Engine, env: Env): Engine { HandleAll(mode, e.(sleep := []), e.sleep, env) }

  function DrainGate(mode: Mode, e: Engine, env: Env): Engine {
    if e.gate.None? || !Due(e.gate.value, env.now) || !env.running then e
    else
      var (g, item) := AfterPop(e.gate.value, env.now);
      Handle(mode, e.(gate := Some(g)), Msg(item.value.addr, item.value.value), false, true, env).0
  }

  // ---------------------------------------------------------------- sending

  predicate ImplausibleSnapshot(mode: Mode, snapshot: Memory)
    requires forall a :: a in mode.order ==> a in mode.recs
  {
    exists a :: a in mode.order && a in snapshot && Implausible(mode.recs[a], snapshot[a])
  }

  /** The poll of one address against the cache. */
  function PollOne(mode: Mode, cache: Memory, snapshot: Memory, a: int): (Memory, seq<Msg>)
    requires a in mode.recs
  {
    var cur := At(snapshot, a);
    var prev := if a in cache then cache[a] else cur;
    if cur == prev then (cache, [])
    else
      var (allow, value) := RecordChanged(mode.recs[a], cur, prev, false);
      if allow then (cache[a := cur], [Msg(a, value)])
      else if CachesSuppressed(mode.recs[a], cur, prev) then (cache[a := cur], [])
      else (cache, [])
  }

  function PollAll(mode: Mode, cache: Memory, snapshot: Memory, addrs: seq<int>): (Memory, seq<Msg>)
    requires forall a :: a in addrs ==> a in mode.recs
  {
    if addrs == [] then (cache, [])
    else
      var (cache', out) := PollOne(mode, cache, snapshot, addrs[0]);
      var (cache'', more) := PollAll(mode, cache', snapshot, addrs[1..]);
      (cache'', out + more)
  }

  /** A poll that has sent `out` and has `addrs` ahead of it. */
  function PollRest(mode: Mode, cache: Memory, snapshot: Memory, out: seq<Msg>, addrs: seq<int>): (Memory, seq<Msg>)
    requires forall a :: a in addrs ==> a in mode.recs
  {
    var (cache', more) := PollAll(mode, cache, snapshot, addrs);
    (cache', out + more)
  }

  lemma PollRestStep(mode: Mode, cache: Memory, snapshot: Memory, out: seq<Msg>, addrs: seq<int>, i: nat)
    requires forall a :: a in addrs ==> a in mode.recs
    requires i < |addrs|
    ensures var (cache', sent) := PollOne(mode, cache, snapshot, addrs[i]);
      PollRest(mode, cache, snapshot, out, addrs[i..]) == PollRest(mode, cache', snapshot, out + sent, addrs[i + 1..])
  {
    var (cache', sent) := PollOne(mode, cache, snapshot, addrs[i]);
    assert addrs[i..][1..] == addrs[i + 1..];
    var more := PollAll(mode, cache', snapshot, addrs[i + 1..]).1;
    assert out + (sent + more) == out + sent + more;
  }

  function Diff(mode: Mode, e: Engine, snapshot: Memory): (Engine, seq<Msg>)
    requires forall a :: a in mode.order ==> a in mode.recs
  {
    if ImplausibleSnapshot(mode, snapshot) then (e, [])
    else
      var (cache, out) := PollAll(mode, e.cache, snapshot, mode.order);
      (e.(cache := cache), out)
  }

  // ------------------------------------------------------------ first poll

  function FillCache(cache: Memory, snapshot: Memory, addrs: seq<int>): Memory
    decreases |addrs|
  {
    if addrs == [] then cache
    else FillCache(if addrs[0] in cache then cache else cache[addrs[0] := At(snapshot, addrs[0])], snapshot, addrs[1..])
  }

  predicate Resent(mode: Mode, snapshot: Memory, a: int)
    requires a in mode.recs
  {
    At(snapshot, a) != 0 && !mode.recs[a].kind.Delta?
  }

  /** The state a resync broadcasts: every non-zero value that is not a counter, in table order. */
  function Broadcast(mode: Mode, snapshot: Memory, addrs: seq<int>): seq<Msg>
    requires forall a :: a in addrs ==> a in mode.recs
  {
    if addrs == [] then []
    else (if Resent(mode, snapshot, addrs[0]) then [Msg(addrs[0], At(snapshot, addrs[0]))] else [])
         + Broadcast(mode, snapshot, addrs[1..])
  }

  lemma BroadcastStep(mode: Mode, snapshot: Memory, out: seq<Msg>, addrs: seq<int>, i: nat)
    requires forall a :: a in addrs ==> a in mode.recs
    requires i < |addrs|
    ensures out + Broadcast(mode, snapshot, addrs[i..]) ==
            (if Resent(mode, snapshot, addrs[i]) then out + [Msg(addrs[i], At(snapshot, addrs[i]))] else out)
            + Broadcast(mode, snapshot, addrs[i + 1..])
  {
    assert addrs[i..][1..] == addrs[i + 1..];
  }

  function DrainResync(e: Engine, limit: Option<int>): (Engine, seq<Msg>) {
    if e.resync == [] then (e.(forceSend := false), [])
    else
      var n := if limit.None? || limit.value <= 0 || limit.value > |e.resync| then |e.resync| else limit.value;
      (e.(resync := e.resync[n..], forceSend := e.forceSend && e.resync[n..] != []), e.resync[..n])
  }

  function CheckFirstRunning(mode: Mode, e: Engine, limit: Option<int>, snapshot: Memory): (Engine, seq<Msg>)
    requires forall a :: a in mode.order ==> a in mode.recs
  {
    if ImplausibleSnapshot(mode, snapshot) || e.didCache then (e, [])
    else
      var toSend := if e.forceSend then Broadcast(mode, snapshot, mode.order) else [];
      var e' := e.(cache := FillCache(e.cache, snapshot, mode.order), didCache := true);
      if e.forceSend && limit.Some? then DrainResync(e'.(resync := e.resync + toSend), limit)
      else (e'.(forceSend := false), toSend)
  }

  function Resync(e: Engine): Engine {
    e.(cache := map[], resync := [], didCache := false, forceSend := true, idleTicks := 0)
  }

  function NotRunning(e: Engine, threshold: nat): (Engine, bool) {
    var e' := e.(idleTicks := e.idleTicks + 1);
    if e'.idleTicks >= threshold && e.didCache then (e'.(didCache := false), true) else (e', false)
  }

  // ------------------------------------------------------------------ class

  /** The game's memory behind an endpoint. */
  class Endpoint {
    var ram: Memory

    constructor (ram: Memory)
      ensures this.ram == ram
    {
      this.ram := ram;
    }
  }

  class SyncEngine {
    const endpoint: Endpoint
    const mode: Mode
    const mapWriteGate: MapWriteGate?
    const pauseThreshold: nat
    const resyncLimit: Option<int>
    var idleTicks: nat
    var resync: seq<Msg>
    var cache: Memory
    var didCache: bool
    var forceSend: bool
    var sleepQueue: seq<Msg>

    function View(): Engine
      reads this, endpoint, mapWriteGate
    {
      Engine(endpoint.ram, cache, didCache, forceSend, sleepQueue, resync, idleTicks,
             if mapWriteGate == null then None else Some(mapWriteGate.View()))
    }

    ghost predicate Valid()
      reads this, endpoint, mapWriteGate
    {
      mode.Valid() && View().Valid()
    }

    constructor (endpoint: Endpoint, mode: Mode, mapWriteGate: MapWriteGate?, pauseThreshold: nat := 30,
                 resyncLimit: Option<int> := None)
      requires mode.Valid() && (mapWriteGate != null ==> mapWriteGate.View().Valid())
      ensures this.endpoint == endpoint && this.mode == mode && this.mapWriteGate == mapWriteGate
      ensures this.resyncLimit == resyncLimit && this.pauseThreshold == pauseThreshold
      ensures Valid() && View() == Engine(endpoint.ram, map[], false, false, [], [], 0,
                                          if mapWriteGate == null then None else Some(mapWriteGate.View()))
    {
      this.endpoint, this.mode, this.mapWriteGate := endpoint, mode, mapWriteGate;
      this.pauseThreshold, this.resyncLimit := pauseThreshold, resyncLimit;
      idleTicks, resync, cache, didCache, forceSend, sleepQueue := 0, [], map[], false, false, [];
    }

    /** `handle_table_result` on a table that may lack its address or its value. */
    method HandleTable(addr: Option<int>, value: Option<int>, queueAsleep: bool, bypassGate: bool, env: Env)
      returns (status: Status)
      requires Valid()
      modifies this, endpoint, mapWriteGate
      ensures Valid()
      ensures addr.None? ==> status == MissingAddr && View() == old(View())
      ensures addr.Some? && value.None? ==> status == MissingValue && View() == old(View())
      ensures addr.Some? && value.Some? ==>
        (View(), status) == Handle(mode, old(View()), Msg(addr.value, value.value), queueAsleep, bypassGate, env)
    {
      if addr.None? {
        return MissingAddr;
      }
      if value.None? {
        return MissingValue;
      }
      var a, v := addr.value, value.value;
      if a !in mode.recs {
        return UnknownAddr;
      }
      var record := mode.recs[a];
      if Implausible(record, v) {
        return ImplausibleValue;
      }
      if !bypassGate && mapWriteGate != null && Gated(a, record) {
        mapWriteGate.Enqueue(a, v, env.now);
        return Deferred;
      }
      if queueAsleep {
        if !env.running {
          sleepQueue := sleepQueue + [Msg(a, v)];
          return QueuedAsleep;
        }
      }
      if !env.canRead {
        return ReadError;
      }
      var previous := At(endpoint.ram, a);
      var (allow, merged) := RecordChanged(record, v, previous, true);
      if !allow {
        return NoChange;
      }
      if !env.canWrite {
        return WriteError;
      }
      endpoint.ram := endpoint.ram[a := merged % 0x100];
      cache := cache[a := merged % 0x100];
      return Applied;
    }

    /** `drain_sleep_queue_results`: the queue is emptied first, then its items are handled in order. */
    method DrainSleepQueue(env: Env)
      requires Valid()
      modifies this, endpoint, mapWriteGate
      ensures Valid() && View() == DrainSleep(mode, old(View()), env)
    {
      var queued := sleepQueue;
      sleepQueue := [];
      var i := 0;
      assert queued[0..] == queued;
      while i < |queued|
        invariant 0 <= i <= |queued| && Valid()
        invariant HandleAll(mode, View(), queued[i..], env) == DrainSleep(mode, old(View()), env)
      {
        assert queued[i..][1..] == queued[i + 1..];
        var _ := HandleTable(Some(queued[i].addr), Some(queued[i].value), false, false, env);
        i := i + 1;
      }
    }

    /** `drain_map_write_gate`. */
    method DrainMapWriteGate(env: Env)
      requires Valid()
      modifies this, endpoint, mapWriteGate
      ensures Valid() && View() == DrainGate(mode, old(View()), env)
    {
      if mapWriteGate == null {
        return;
      }
      var due := mapWriteGate.IsDue(env.now);
      if !due || !env.running {
        return;
      }
      var item := mapWriteGate.PopDue(env.now);
      var _ := HandleTable(Some(item.value.addr), Some(item.value.value), false, true, env);
    }

    /** `diff`: one walk over the table, sending changes and moving the cache. */
    method DiffSnapshot(snapshot: Memory) returns (out: seq<Msg>)
      requires Valid()
      modifies this`cache
      ensures Valid() && (View(), out) == Diff(mode, old(View()), snapshot)
    {
      out := [];
      if ImplausibleSnapshot(mode, snapshot) {
        return;
      }
      var i := 0;
      assert mode.order[0..] == mode.order;
      ghost var all := PollAll(mode, cache, snapshot, mode.order);
      assert [] + all.1 == all.1;
      while i < |mode.order|
        invariant 0 <= i <= |mode.order|
        invariant PollRest(mode, cache, snapshot, out, mode.order[i..]) == all
      {
        PollRestStep(mode, cache, snapshot, out, mode.order, i);
        var a := mode.order[i];
        var record := mode.recs[a];
        var cur := At(snapshot, a);
        var prev := if a in cache then cache[a] else cur;
        assert out + [] == out;
        if cur != prev {
          var (allow, value) := RecordChanged(record, cur, prev, false);
          if allow {
            cache := cache[a := cur];
            out := out + [Msg(a, value)];
          } else if CachesSuppressed(record, cur, prev) {
            cache := cache[a := cur];
          }
        }
        i := i + 1;
      }
      assert out + [] == out;
    }

    /** `drain_resync_send_queue`. */
    method DrainResyncSendQueue() returns (chunk: seq<Msg>)
      requires Valid()
      modifies this`resync, this`forceSend
      ensures Valid() && (View(), chunk) == DrainResync(old(View()), resyncLimit)
    {
      if resync == [] {
        forceSend := false;
        return [];
      }
      var limit := |resync|;
      if resyncLimit.Some? && 0 < resyncLimit.value < |resync| {
        limit := resyncLimit.value;
      }
      chunk := resync[..limit];
      resync := resync[limit..];
      if resync == [] {
        forceSend := false;
      }
    }

    /** `check_first_running`. */
    method FirstRunning(snapshot: Memory) returns (out: seq<Msg>)
      requires Valid()
      modifies this
      ensures Valid() && (View(), out) == CheckFirstRunning(mode, old(View()), resyncLimit, snapshot)
    {
      if ImplausibleSnapshot(mode, snapshot) || didCache {
        return [];
      }
      var toSend: seq<Msg> := [];
      var i := 0;
      assert mode.order[0..] == mode.order;
      while i < |mode.order|
        invariant 0 <= i <= |mode.order|
        invariant FillCache(cache, snapshot, mode.order[i..]) == FillCache(old(cache), snapshot, mode.order)
        invariant forceSend ==> toSend + Broadcast(mode, snapshot, mode.order[i..]) == Broadcast(mode, snapshot, mode.order)
        invariant !forceSend ==> toSend == []
        invariant forceSend == old(forceSend) && resync == old(resync) && sleepQueue == old(sleepQueue)
        invariant idleTicks == old(idleTicks)
      {
        var a := mode.order[i];
        var value := At(snapshot, a);
        BroadcastStep(mode, snapshot, toSend, mode.order, i);
        assert mode.order[i..][1..] == mode.order[i + 1..];
        if a !in cache {
          cache := cache[a := value];
        }
        if forceSend && value != 0 && !mode.recs[a].kind.Delta? {
          toSend := toSend + [Msg(a, value)];
        }
        i := i + 1;
      }
      assert toSend + [] == toSend;
      didCache := true;
      if forceSend && resyncLimit.Some? {
        resync := resync + toSend;
        out := DrainResyncSendQueue();
        return;
      }
      forceSend := false;
      return toSend;
    }

    method ObserveRunning()
      requires Valid()
      modifies this`idleTicks
      ensures Valid() && View() == old(View()).(idleTicks := 0)
    {
      idleTicks := 0;
    }

    method ObserveNotRunning() returns (paused: bool)
      requires Valid()
      modifies this`idleTicks, this`didCache
      ensures Valid() && (View(), paused) == NotRunning(old(View()), pauseThreshold)
    {
      idleTicks := idleTicks + 1;
      if idleTicks < pauseThreshold {
        return false;
      }
      if didCache {
        didCache := false;
        return true;
      }
      return false;
    }

    method StartResync()
      requires Valid()
      modifies this
      ensures Valid() && View() == Resync(old(View()))
    {
      cache := map[];
      resync := [];
      didCache := false;
      forceSend := true;
      idleTicks := 0;
    }
  }
}
