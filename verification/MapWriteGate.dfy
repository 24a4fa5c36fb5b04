/** The rate limiter of bridge/bridge_core/map_write_gate.py: a state, its class, and what holds over every run. */
module MapWriteGates {
  import opened Wrappers
  import opened Bytes

  datatype Entry = Entry(addr: int, value: byte)

  /** The fields of a gate. `pending` is the ordered dictionary, oldest key first. */
  datatype Gate = Gate(
    interval: real, window: real, threshold: nat,
    pending: seq<Entry>, recent: seq<real>, last: Option<real>, bursts: nat)
  {
    ghost predicate Valid() { Distinct(pending) }
  }

  ghost predicate Distinct(pending: seq<Entry>) {
    forall i, j :: 0 <= i < j < |pending| ==> pending[i].addr != pending[j].addr
  }

  /** `_pending[addr] = value`: a known key keeps its place, a new one goes last. */
  function Put(pending: seq<Entry>, addr: int, value: byte): (r: seq<Entry>)
    ensures |pending| <= |r| <= |pending| + 1
  {
    if pending == [] then [Entry(addr, value)]
    else if pending[0].addr == addr then [Entry(addr, value)] + pending[1..]
    else [pending[0]] + Put(pending[1..], addr, value)
  }

  /** The enqueue times left when those older than the window are dropped from the front. */
  function DropOld(recent: seq<real>, now: real, window: real): seq<real> {
    if recent != [] && now - recent[0] > window then DropOld(recent[1..], now, window) else recent
  }

  function AfterEnqueue(g: Gate, addr: int, value: int, now: real): Gate {
    var recent := DropOld(g.recent + [now], now, g.window);
    g.(pending := Put(g.pending, addr, value % 0x100), recent := recent,
       bursts := if |recent| == g.threshold then g.bursts + 1 else g.bursts)
  }

  predicate Due(g: Gate, now: real) {
    g.pending != [] && (g.last.None? || now - g.last.value >= g.interval)
  }

  function AfterPop(g: Gate, now: real): (Gate, Option<Entry>) {
    if Due(g, now) then (g.(pending := g.pending[1..], last := Some(now)), Some(g.pending[0])) else (g, None)
  }

  ghost predicate HasKey(pending: seq<Entry>, addr: int) {
    exists i :: 0 <= i < |pending| && pending[i].addr == addr
  }

  lemma HasKeyTail(pending: seq<Entry>, addr: int)
    requires pending != [] && pending[0].addr != addr
    ensures HasKey(pending, addr) <==> HasKey(pending[1..], addr)
  {
    if HasKey(pending, addr) {
      var i :| 0 <= i < |pending| && pending[i].addr == addr;
      assert pending[1..][i - 1].addr == addr;
    }
  }

  /** A new key goes last; a known one gets the value in its old place. Every other entry stays where it is. */
  lemma {:induction false} PutKeepsOrder(pending: seq<Entry>, addr: int, value: byte)
    requires Distinct(pending)
    ensures !HasKey(pending, addr) ==> Put(pending, addr, value) == pending + [Entry(addr, value)]
    ensures HasKey(pending, addr) ==> |Put(pending, addr, value)| == |pending|
    ensures HasKey(pending, addr) ==> forall i :: 0 <= i < |pending| ==>
      Put(pending, addr, value)[i] == if pending[i].addr == addr then Entry(addr, value) else pending[i]
  {
    if pending != [] && pending[0].addr == addr {
      assert pending[0].addr == addr;
    } else if pending != [] {
      var rest := pending[1..];
      HasKeyTail(pending, addr);
      PutKeepsOrder(rest, addr, value);
      if !HasKey(rest, addr) {
        assert [pending[0]] + (rest + [Entry(addr, value)]) == pending + [Entry(addr, value)];
      }
    }
  }

  lemma PutDistinct(pending: seq<Entry>, addr: int, value: byte)
    requires Distinct(pending)
    ensures Distinct(Put(pending, addr, value))
    ensures |pending| <= |Put(pending, addr, value)|
    ensures forall i :: 0 <= i < |pending| ==> Put(pending, addr, value)[i].addr == pending[i].addr
  {
    PutKeepsOrder(pending, addr, value);
    if !HasKey(pending, addr) {
      assert forall i :: 0 <= i < |pending| ==> pending[i].addr != addr;
    }
  }

  class MapWriteGate {
    const interval: real
    const window: real
    const threshold: nat
    var pending: seq<Entry>
    var recent: seq<real>
    var last: Option<real>
    var bursts: nat

    function View(): Gate
      reads this
    {
      Gate(interval, window, threshold, pending, recent, last, bursts)
    }

    constructor (interval: real := 0.075, window: real := 0.25, threshold: nat := 16)
      ensures View() == Gate(interval, window, threshold, [], [], None, 0)
      ensures View().Valid()
    {
      this.interval, this.window, this.threshold := interval, window, threshold;
      pending, recent, last, bursts := [], [], None, 0;
    }

    method Enqueue(addr: int, value: int, now: real)
      requires View().Valid()
      modifies this
      ensures View() == AfterEnqueue(old(View()), addr, value, now)
      ensures View().Valid()
    {
      PutDistinct(pending, addr, value % 0x100);
      pending := Put(pending, addr, value % 0x100);
      recent := recent + [now];
      while recent != [] && now - recent[0] > window
        invariant DropOld(recent, now, window) == DropOld(old(recent) + [now], now, window)
        invariant pending == Put(old(pending), addr, value % 0x100) && last == old(last) && bursts == old(bursts)
        decreases |recent|
      {
        recent := recent[1..];
      }
      if |recent| == threshold {
        bursts := bursts + 1;
      }
    }

    method IsDue(now: real) returns (due: bool)
      ensures due == Due(View(), now)
    {
      if pending == [] {
        return false;
      }
      if last.None? {
        return true;
      }
      return now - last.value >= interval;
    }

    method PopDue(now: real) returns (item: Option<Entry>)
      requires View().Valid()
      modifies this
      ensures (View(), item) == AfterPop(old(View()), now)
      ensures View().Valid()
    {
      var due := IsDue(now);
      if !due {
        return None;
      }
      item := Some(pending[0]);
      pending := pending[1..];
      last := Some(now);
    }
  }

  // -------------------------------------------------------------- all runs

  datatype GateEvent = Enqueued(addr: int, value: int, now: real) | Pop(now: real)
  datatype Popped = Popped(at: real, entry: Entry)

  function Step(g: Gate, e: GateEvent): (Gate, Option<Popped>) {
    match e
    case Enqueued(addr, value, now) => (AfterEnqueue(g, addr, value, now), None)
    case Pop(now) =>
      var (g', item) := AfterPop(g, now);
      (g', if item.Some? then Some(Popped(now, item.value)) else None)
  }

  /** The successful pops of a run, in order. */
  function Pops(g: Gate, events: seq<GateEvent>): seq<Popped>
    decreases |events|
  {
    if events == [] then []
    else
      var (g', popped) := Step(g, events[0]);
      if popped.Some? then [popped.value] + Pops(g', events[1..]) else Pops(g', events[1..])
  }

  lemma {:induction false} FirstPop(g: Gate, events: seq<GateEvent>)
    requires Pops(g, events) != [] && g.last.Some?
    ensures Pops(g, events)[0].at - g.last.value >= g.interval
    decreases |events|
  {
    if Step(g, events[0]).1.None? {
      FirstPop(Step(g, events[0]).0, events[1..]);
    }
  }

  lemma {:induction false} PopsSpaced(g: Gate, events: seq<GateEvent>, i: nat)
    requires i + 1 < |Pops(g, events)|
    ensures Pops(g, events)[i + 1].at - Pops(g, events)[i].at >= g.interval
    decreases |events|
  {
    var (g', popped) := Step(g, events[0]);
    if popped.None? {
      PopsSpaced(g', events[1..], i);
    } else if i > 0 {
      PopsSpaced(g', events[1..], i - 1);
    } else {
      FirstPop(g', events[1..]);
    }
  }

  lemma {:induction false} PopsApart(g: Gate, events: seq<GateEvent>, i: nat, j: nat)
    requires i <= j < |Pops(g, events)|
    ensures Pops(g, events)[j].at - Pops(g, events)[i].at >= (j - i) as real * g.interval
    decreases j - i
  {
    if i < j {
      hide Pops;
      PopsSpaced(g, events, j - 1);
      PopsApart(g, events, i, j - 1);
      assert (j - i) as real * g.interval == (j - 1 - i) as real * g.interval + g.interval;
    }
  }

  lemma DivideBound(n: real, d: real, x: real)
    requires d > 0.0 && n * d <= x
    ensures n <= x / d
  {
    assert n == n * d / d;
  }

  /** Rate bound: pops `i` to `j`, if they fall in a window of length `length`, are at most floor(length / interval) + 1. */
  lemma RateBound(g: Gate, events: seq<GateEvent>, i: nat, j: nat, length: real)
    requires g.interval > 0.0 && i <= j < |Pops(g, events)|
    requires Pops(g, events)[j].at - Pops(g, events)[i].at <= length
    ensures j - i + 1 <= (length / g.interval).Floor + 1
  {
    hide Pops;
    PopsApart(g, events, i, j);
    DivideBound((j - i) as real, g.interval, length);
  }

  /**
   * No starvation: an address with `k` addresses ahead of it is what the (k+1)-th successful pop returns, whatever is
   * enqueued or re-enqueued in between, and no pop before returns it.
   */
  lemma {:induction false} NoStarvation(g: Gate, events: seq<GateEvent>, k: nat)
    requires g.Valid() && k < |g.pending| && k < |Pops(g, events)|
    ensures Pops(g, events)[k].entry.addr == g.pending[k].addr
    ensures forall i :: 0 <= i < k ==> Pops(g, events)[i].entry.addr != g.pending[k].addr
    decreases |events|
  {
    var (g', popped) := Step(g, events[0]);
    if events[0].Enqueued? {
      PutDistinct(g.pending, events[0].addr, events[0].value % 0x100);
    }
    if popped.None? {
      NoStarvation(g', events[1..], k);
    } else if k > 0 {
      NoStarvation(g', events[1..], k - 1);
    }
  }

  // ------------------------------------------------------------------ bursts

  /** The times of the enqueues of a run. */
  function Times(events: seq<GateEvent>): seq<real> {
    if events == [] then []
    else (if events[0].Enqueued? then [events[0].now] else []) + Times(events[1..])
  }

  function After(g: Gate, events: seq<GateEvent>): Gate
    decreases |events|
  {
    if events == [] then g else After(Step(g, events[0]).0, events[1..])
  }

  ghost predicate Ordered(times: seq<real>) { forall i, j :: 0 <= i < j < |times| ==> times[i] <= times[j] }

  /** How many of these enqueues are at most a window before `now`. */
  function Close(times: seq<real>, now: real, window: real): nat {
    if times == [] then 0 else (if now - times[0] <= window then 1 else 0) + Close(times[1..], now, window)
  }

  /** How many enqueues, from the one after `done` others on, make just as many in a window as the threshold says. */
  function Bursts(times: seq<real>, done: nat, window: real, threshold: nat): nat
    requires done <= |times|
    decreases |times| - done
  {
    if done == |times| then 0
    else (if Close(times[..done + 1], times[done], window) == threshold then 1 else 0)
         + Bursts(times, done + 1, window, threshold)
  }

  lemma {:induction false} CloseAppend(times: seq<real>, more: seq<real>, now: real, window: real)
    ensures Close(times + more, now, window) == Close(times, now, window) + Close(more, now, window)
  {
    if times == [] {
      assert times + more == more;
    } else {
      assert (times + more)[1..] == times[1..] + more;
      CloseAppend(times[1..], more, now, window);
    }
  }

  lemma {:induction false} NoneClose(times: seq<real>, now: real, window: real)
    requires forall i :: 0 <= i < |times| ==> now - times[i] > window
    ensures Close(times, now, window) == 0
  {
    if times != [] {
      NoneClose(times[1..], now, window);
    }
  }

  lemma {:induction false} AllClose(times: seq<real>, now: real, window: real)
    requires forall i :: 0 <= i < |times| ==> now - times[i] <= window
    ensures Close(times, now, window) == |times|
  {
    if times != [] {
      AllClose(times[1..], now, window);
    }
  }

  /** What is dropped is older than the window, and what is kept is not. */
  lemma {:induction false} DropOldSplits(recent: seq<real>, now: real, window: real) returns (n: nat)
    requires Ordered(recent)
    ensures n <= |recent| && DropOld(recent, now, window) == recent[n..]
    ensures forall i :: 0 <= i < n ==> now - recent[i] > window
    ensures forall i :: n <= i < |recent| ==> now - recent[i] <= window
    decreases |recent|
  {
    n := 0;
    if recent != [] && now - recent[0] > window {
      var m := DropOldSplits(recent[1..], now, window);
      n := m + 1;
      assert recent[1..][m..] == recent[n..];
    }
  }

  /** The gate keeps the end of the enqueue times: those before it were more than a window ago at the last enqueue. */
  ghost predicate KeepsEnd(g: Gate, times: seq<real>) {
    && |g.recent| <= |times| && g.recent == times[|times| - |g.recent|..]
    && forall i :: 0 <= i < |times| - |g.recent| ==> times[|times| - 1] - times[i] > g.window
  }

  /** Where the end begins that is kept after one more enqueue. */
  lemma NewEnd(all: seq<real>, r: nat, window: real) returns (m: nat)
    requires Ordered(all) && r < |all|
    requires forall i :: 0 <= i < r ==> r < |all| && all[|all| - 2] - all[i] > window
    ensures m <= |all| && DropOld(all[r..], all[|all| - 1], window) == all[m..]
    ensures forall i :: 0 <= i < m ==> all[|all| - 1] - all[i] > window
    ensures forall i :: m <= i < |all| ==> all[|all| - 1] - all[i] <= window
  {
    var recent, now := all[r..], all[|all| - 1];
    assert Ordered(recent) by {
      assert forall i :: 0 <= i < |recent| ==> recent[i] == all[r + i];
    }
    var n := DropOldSplits(recent, now, window);
    m := r + n;
    assert recent[n..] == all[m..];
    forall i | 0 <= i < m ensures now - all[i] > window {
      if i < r {
        assert all[|all| - 2] <= now;
      } else {
        assert all[i] == recent[i - r];
      }
    }
    forall i | m <= i < |all| ensures now - all[i] <= window {
      assert all[i] == recent[i - r];
    }
  }

  lemma CountsEnd(all: seq<real>, m: nat, now: real, window: real)
    requires m <= |all|
    requires forall i :: 0 <= i < m ==> now - all[i] > window
    requires forall i :: m <= i < |all| ==> now - all[i] <= window
    ensures Close(all, now, window) == |all| - m
  {
    var front, kept := all[..m], all[m..];
    assert all == front + kept;
    NoneClose(front, now, window);
    AllClose(kept, now, window);
    CloseAppend(front, kept, now, window);
  }

  lemma EndKept(g: Gate, all: seq<real>, m: nat)
    requires 0 < |all| && m <= |all| && g.recent == all[m..]
    requires forall i :: 0 <= i < m ==> all[|all| - 1] - all[i] > g.window
    ensures KeepsEnd(g, all)
  {
  }

  lemma EnqueueKeepsEnd(g: Gate, times: seq<real>, addr: int, value: int, now: real)
    requires KeepsEnd(g, times) && Ordered(times + [now])
    ensures var g' := AfterEnqueue(g, addr, value, now);
      KeepsEnd(g', times + [now]) && |g'.recent| == Close(times + [now], now, g.window)
  {
    hide Ordered, DropOld, Close, Put;
    var all, r := times + [now], |times| - |g.recent|;
    assert g.recent + [now] == all[r..];
    EndBefore(g, times, now);
    hide KeepsEnd;
    var m := NewEnd(all, r, g.window);
    CountsEnd(all, m, now, g.window);
    EndKept(AfterEnqueue(g, addr, value, now), all, m);
  }

  lemma EndBefore(g: Gate, times: seq<real>, now: real)
    requires KeepsEnd(g, times)
    ensures var all := times + [now];
      forall i :: 0 <= i < |times| - |g.recent| ==> all[|all| - 2] - all[i] > g.window
  {
  }

  lemma {:induction false} BurstsFrom(g: Gate, before: seq<real>, events: seq<GateEvent>)
    requires KeepsEnd(g, before) && Ordered(before + Times(events))
    ensures After(g, events).bursts == g.bursts + Bursts(before + Times(events), |before|, g.window, g.threshold)
    decreases |events|
  {
    hide KeepsEnd, Ordered;
    if events == [] {
      assert before + [] == before;
    } else {
      var e, g', rest := events[0], Step(g, events[0]).0, Times(events[1..]);
      if e.Enqueued? {
        var upTo := before + [e.now];
        UpTo(before, e.now, rest);
        assert before + Times(events) == upTo + rest;
        EnqueueKeepsEnd(g, before, e.addr, e.value, e.now);
        hide AfterEnqueue;
        BurstsFrom(g', upTo, events[1..]);
        EnqueueCounts(g, e.addr, e.value, e.now);
      } else {
        assert [] + rest == rest;
        assert KeepsEnd(g', before) by { PopKeepsEnd(g, before, e.now); }
        BurstsFrom(g', before, events[1..]);
      }
    }
  }

  lemma UpTo(before: seq<real>, now: real, rest: seq<real>)
    ensures var all, upTo := before + ([now] + rest), before + [now];
      all == upTo + rest && all[..|upTo|] == upTo && all[|before|] == now && (Ordered(all) ==> Ordered(upTo))
  {
    var all, upTo := before + ([now] + rest), before + [now];
    assert forall i :: 0 <= i < |upTo| ==> upTo[i] == all[i];
  }

  lemma EnqueueCounts(g: Gate, addr: int, value: int, now: real)
    ensures var g' := AfterEnqueue(g, addr, value, now);
      && g'.bursts == g.bursts + (if |g'.recent| == g.threshold then 1 else 0)
      && g'.window == g.window && g'.threshold == g.threshold
  {
    hide Put, DropOld;
  }

  lemma PopKeepsEnd(g: Gate, times: seq<real>, now: real)
    requires KeepsEnd(g, times)
    ensures var g' := AfterPop(g, now).0;
      KeepsEnd(g', times) && g'.bursts == g.bursts && g'.window == g.window && g'.threshold == g.threshold
  {
  }

  /**
   * Over any run in which time does not go backwards, the burst count of a new gate is the number of enqueues that
   * were, with those at most a window before them, just as many as the threshold.
   */
  lemma BurstsCounted(interval: real, window: real, threshold: nat, events: seq<GateEvent>)
    requires Ordered(Times(events))
    ensures After(Gate(interval, window, threshold, [], [], None, 0), events).bursts ==
            Bursts(Times(events), 0, window, threshold)
  {
    hide After, Bursts, Times;
    assert [] + Times(events) == Times(events);
    BurstsFrom(Gate(interval, window, threshold, [], [], None, 0), [], events);
  }
}
