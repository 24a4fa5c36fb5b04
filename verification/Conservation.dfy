/** The key counter: what its deltas conserve in every interleaving, and exactly when a step breaks it. */
module Conservation {
  import opened Wrappers
  import opened Bytes
  import opened Records
  import opened MapWriteGates
  import opened SyncEngines
  import opened Delivery
  import opened Replicas

  /** The deltas for the address among the updates. */
  function Sum(a: int, msgs: seq<Msg>): int {
    if msgs == [] then 0 else (if msgs[0].addr == a then msgs[0].value else 0) + Sum(a, msgs[1..])
  }

  lemma {:induction false} SumAppend(a: int, msgs: seq<Msg>, more: seq<Msg>)
    ensures Sum(a, msgs + more) == Sum(a, msgs) + Sum(a, more)
  {
    if msgs == [] {
      assert msgs + more == more;
    } else {
      SumAppend(a, msgs[1..], more);
      assert (msgs + more)[1..] == msgs[1..] + more;
    }
  }

  lemma SumOfOne(a: int, m: Msg)
    ensures Sum(a, [m]) == if m.addr == a then m.value else 0
  {
    assert [m][1..] == [];
  }

  /** What side `a` has cached, asleep and on its way. */
  function Held(a: int, e: Engine): int { At(e.cache, a) + Sum(a, e.sleep) }

  function Account(a: int, s: System): int { Held(a, s.a.e) + Sum(a, s.toA) }

  ghost predicate NotGated(a: int, e: Engine) {
    e.gate.Some? ==> forall i :: 0 <= i < |e.gate.value.pending| ==> e.gate.value.pending[i].addr != a
  }

  ghost predicate Tracked(a: int, e: Engine) { e.Valid() && a in e.cache && NotGated(a, e) }

  /** Both accounts are the same modulo the byte. */
  ghost predicate Balanced(a: int, s: System) {
    Tracked(a, s.a.e) && Tracked(a, s.b.e) && (Account(a, s) - Account(a, Swap(s))) % 0x100 == 0
  }

  // ------------------------------------------------- when a step breaks it

  /** The delta is written to memory in this call. */
  predicate Lands(a: int, m: Msg, queueAsleep: bool, env: Env) {
    m.addr == a && m.value != 0 && !(queueAsleep && !env.running)
  }

  /**
   * Memory holds what is cached and the clamp stays out of it; or the clamp fires, and the cached count and the delta
   * cancel out.
   */
  predicate Clean(a: int, e: Engine, m: Msg) {
    var ram, cached := At(e.ram, a), At(e.cache, a);
    if ram + m.value < 0 then (cached + m.value) % 0x100 == 0 else ram == cached
  }

  lemma MergedOwes(ram: byte, cached: byte, delta: int)
    ensures var merged := if ram + delta < 0 then 0 else (ram + delta) % 0x100;
      (merged - cached - delta) % 0x100 == 0 <==>
      if ram + delta < 0 then (cached + delta) % 0x100 == 0 else ram == cached
  {
  }

  lemma WrittenDeltaOwes(mode: Mode, a: int, e: Engine, delta: int, env: Env)
    requires a in mode.recs && CounterRec(mode.recs[a]) && env.canRead && env.canWrite && Tracked(a, e) && delta != 0
    ensures var e' := Apply(mode, e, Msg(a, delta), env).0;
      && Tracked(a, e') && e'.sleep == e.sleep
      && ((At(e'.cache, a) - At(e.cache, a) - delta) % 0x100 == 0 <==> Clean(a, e, Msg(a, delta)))
  {
    hide RecordChanged, CounterRec;
    CounterReceive(mode.recs[a], delta, At(e.ram, a));
    MergedOwes(At(e.ram, a), At(e.cache, a), delta);
  }

  lemma OwnDeltaOwes(mode: Mode, a: int, e: Engine, m: Msg, queueAsleep: bool, bypassGate: bool, env: Env)
    requires a in mode.recs && CounterRec(mode.recs[a]) && env.canRead && env.canWrite && Tracked(a, e) && m.addr == a
    ensures var e' := Handle(mode, e, m, queueAsleep, bypassGate, env).0;
      && Tracked(a, e')
      && ((Held(a, e') - Held(a, e) - m.value) % 0x100 == 0 <==> (Lands(a, m, queueAsleep, env) ==> Clean(a, e, m)))
  {
    hide RecordChanged, Sum, Clean, Apply;
    if queueAsleep && !env.running {
      SumOfOne(a, m);
      SumAppend(a, e.sleep, [m]);
    } else if m.value != 0 {
      WrittenDeltaOwes(mode, a, e, m.value, env);
      assert m == Msg(a, m.value);
    } else {
      ZeroDelta(mode, a, e, env);
    }
  }

  lemma ZeroDelta(mode: Mode, a: int, e: Engine, env: Env)
    requires a in mode.recs && CounterRec(mode.recs[a])
    ensures Apply(mode, e, Msg(a, 0), env).0 == e
  {
    hide RecordChanged, CounterRec;
    CounterReceive(mode.recs[a], 0, At(e.ram, a));
  }

  lemma OtherUpdateOwes(mode: Mode, a: int, e: Engine, m: Msg, queueAsleep: bool, bypassGate: bool, env: Env)
    requires Tracked(a, e) && m.addr != a
    ensures var e' := Handle(mode, e, m, queueAsleep, bypassGate, env).0;
      Tracked(a, e') && Held(a, e') == Held(a, e)
  {
    hide RecordChanged, Sum, Put, Implausible;
    SumOfOne(a, m);
    SumAppend(a, e.sleep, [m]);
    if e.gate.Some? {
      PutKeepsOrder(e.gate.value.pending, m.addr, m.value % 0x100);
      PutDistinct(e.gate.value.pending, m.addr, m.value % 0x100);
    }
  }

  lemma HandleOwes(mode: Mode, a: int, e: Engine, m: Msg, queueAsleep: bool, bypassGate: bool, env: Env)
    requires a in mode.recs && CounterRec(mode.recs[a]) && env.canRead && env.canWrite && Tracked(a, e)
    ensures var e' := Handle(mode, e, m, queueAsleep, bypassGate, env).0;
      && Tracked(a, e')
      && ((Held(a, e') - Held(a, e) - Sum(a, [m])) % 0x100 == 0 <==> (Lands(a, m, queueAsleep, env) ==> Clean(a, e, m)))
  {
    hide Handle, Tracked, Clean, Held;
    SumOfOne(a, m);
    if m.addr == a {
      OwnDeltaOwes(mode, a, e, m, queueAsleep, bypassGate, env);
    } else {
      OtherUpdateOwes(mode, a, e, m, queueAsleep, bypassGate, env);
    }
  }

  /** The step writes a delta of the counter over a memory that is not clean for it. */
  predicate Upsets(a: int, s: System, act: Action) {
    match act
    case Receive(env) => s.toA != [] && Lands(a, s.toA[0], true, env) && !Clean(a, s.a.e, s.toA[0])
    case WakeUp(env) => s.a.e.sleep != [] && Lands(a, s.a.e.sleep[0], false, env) && !Clean(a, s.a.e, s.a.e.sleep[0])
    case _ => false
  }

  predicate EndpointsWork(act: Action) {
    match act
    case Receive(env) => env.canRead && env.canWrite
    case WakeUp(env) => env.canRead && env.canWrite
    case Release(env) => env.canRead && env.canWrite
    case _ => true
  }

  lemma Balances(a: int, s: System, s': System)
    requires Balanced(a, s) && Tracked(a, s'.a.e) && s'.b.e == s.b.e && s'.toB == s.toB
    ensures Balanced(a, s') <==> (Account(a, s') - Account(a, s)) % 0x100 == 0
  {
    hide Sum, Tracked;
  }

  lemma BalancedTracks(a: int, s: System)
    requires Balanced(a, s)
    ensures Tracked(a, s.a.e)
  {
  }

  lemma ReceiveBalances(mode: Mode, a: int, s: System, env: Env)
    requires mode.Valid() && a in mode.recs && CounterRec(mode.recs[a]) && Balanced(a, s) && env.canRead && env.canWrite
    ensures Balanced(a, Act(mode, s, Receive(env))) <==> !Upsets(a, s, Receive(env))
  {
    hide Sum, Handle, Balanced, Tracked, Clean;
    if s.toA != [] {
      var m, rest := s.toA[0], s.toA[1..];
      BalancedTracks(a, s);
      HandleOwes(mode, a, s.a.e, m, true, false, env);
      assert [m] + rest == s.toA;
      SumAppend(a, [m], rest);
      Balances(a, s, Act(mode, s, Receive(env)));
    }
  }

  lemma WakeBalances(mode: Mode, a: int, s: System, env: Env)
    requires mode.Valid() && a in mode.recs && CounterRec(mode.recs[a]) && Balanced(a, s) && env.canRead && env.canWrite
    ensures Balanced(a, Act(mode, s, WakeUp(env))) <==> !Upsets(a, s, WakeUp(env))
  {
    hide Sum, Handle, Balanced, Clean;
    var e := s.a.e;
    if e.sleep != [] {
      var e1, m := e.(sleep := e.sleep[1..]), e.sleep[0];
      BalancedTracks(a, s);
      HandleOwes(mode, a, e1, m, false, false, env);
      assert [m] + e.sleep[1..] == e.sleep;
      SumAppend(a, [m], e.sleep[1..]);
      assert Clean(a, e1, m) == Clean(a, e, m) by { CleanSame(a, e1, e, m); }
      Balances(a, s, Act(mode, s, WakeUp(env)));
    }
  }

  lemma CleanSame(a: int, e: Engine, e': Engine, m: Msg)
    requires e.ram == e'.ram && e.cache == e'.cache
    ensures Clean(a, e, m) == Clean(a, e', m)
  {
  }

  lemma DrainBalances(mode: Mode, a: int, s: System, env: Env)
    requires mode.Valid() && a in mode.recs && CounterRec(mode.recs[a]) && Balanced(a, s) && env.canRead && env.canWrite
    ensures Balanced(a, Act(mode, s, Release(env)))
  {
    hide Sum, Handle, Balanced, Clean;
    var e := s.a.e;
    if e.gate.Some? && Due(e.gate.value, env.now) && env.running {
      var (g, item) := AfterPop(e.gate.value, env.now);
      var e1, m := e.(gate := Some(g)), Msg(item.value.addr, item.value.value);
      BalancedTracks(a, s);
      HandleOwes(mode, a, e1, m, false, true, env);
      SumOfOne(a, m);
      Balances(a, s, Act(mode, s, Release(env)));
    }
  }

  /** A poll sends exactly what it adds to the cache, whatever snapshot it looks at. */
  lemma PollBalances(mode: Mode, a: int, s: System, addr: int)
    requires mode.Valid() && a in mode.recs && CounterRec(mode.recs[a]) && Balanced(a, s)
    ensures Balanced(a, Act(mode, s, Poll(addr)))
  {
    hide Sum, RecordChanged, ImplausibleSnapshot;
    if addr in mode.recs && !ImplausibleSnapshot(mode, s.a.snap) {
      var (cache, out) := PollOne(mode, s.a.e.cache, s.a.snap, addr);
      SumAppend(a, s.toB, out);
      if addr == a {
        CounterSend(mode.recs[a], At(s.a.snap, a), s.a.e.cache[a]);
      }
      if out == [] {
        assert s.toB + out == s.toB;
      } else {
        SumOfOne(a, out[0]);
      }
    }
  }

  lemma LocalBalances(mode: Mode, a: int, s: System, act: Action)
    requires mode.Valid() && Balanced(a, s) && (act.Write? || act.Look?)
    ensures Balanced(a, Act(mode, s, act))
  {
    hide Sum;
  }

  /** A step keeps the accounts balanced if and only if it does not write a delta over a memory that is not clean. */
  lemma StepBalances(mode: Mode, a: int, s: System, act: Action)
    requires mode.Valid() && a in mode.recs && CounterRec(mode.recs[a]) && Balanced(a, s) && EndpointsWork(act)
    ensures Balanced(a, Act(mode, s, act)) <==> !Upsets(a, s, act)
  {
    hide Balanced, Act, Clean, Lands, CounterRec;
    match act
    case Write(_, _) => LocalBalances(mode, a, s, act);
    case Look => LocalBalances(mode, a, s, act);
    case Poll(addr) => PollBalances(mode, a, s, addr);
    case Receive(env) => ReceiveBalances(mode, a, s, env);
    case WakeUp(env) => WakeBalances(mode, a, s, env);
    case Release(env) => DrainBalances(mode, a, s, env);
  }

  lemma SwapBalanced(a: int, s: System)
    ensures Balanced(a, Swap(s)) <==> Balanced(a, s)
  {
    hide Sum, Tracked;
    assert Swap(Swap(s)) == s;
  }

  // -------------------------------------------------------------- all runs

  /** No step of the run upsets the counter, and endpoints work. */
  ghost predicate Undisturbed(mode: Mode, a: int, s: System, steps: seq<Step>)
    requires mode.Valid()
    decreases |steps|
  {
    steps == [] ||
    (var seen := if steps[0].left then s else Swap(s);
     EndpointsWork(steps[0].act) && !Upsets(a, seen, steps[0].act) && Undisturbed(mode, a, Take(mode, s, steps[0]), steps[1..]))
  }

  lemma {:induction false} RunBalances(mode: Mode, a: int, s: System, steps: seq<Step>)
    requires mode.Valid() && a in mode.recs && CounterRec(mode.recs[a])
    requires Balanced(a, s) && Undisturbed(mode, a, s, steps)
    ensures Balanced(a, Exec(mode, s, steps))
    decreases |steps|
  {
    hide Balanced, Act, Upsets, EndpointsWork, CounterRec;
    if steps != [] {
      var step := steps[0];
      if step.left {
        StepBalances(mode, a, s, step.act);
      } else {
        SwapBalanced(a, s);
        StepBalances(mode, a, Swap(s), step.act);
        SwapBalanced(a, Act(mode, Swap(s), step.act));
      }
      RunBalances(mode, a, Take(mode, s, step), steps[1..]);
    }
  }

  /**
   * The two counters agree whenever everything is quiet again, across any number of wraps of the byte and with polls
   * of any snapshot, in every run that never upsets them.
   */
  lemma CountersAgree(mode: Mode, a: int, s: System, steps: seq<Step>)
    requires mode.Valid() && a in mode.recs && CounterRec(mode.recs[a]) && Start(mode, s, a)
    requires Undisturbed(mode, a, s, steps) && Quiet(Exec(mode, s, steps), a)
    ensures At(Exec(mode, s, steps).a.e.ram, a) == At(Exec(mode, s, steps).b.e.ram, a)
  {
    hide Exec, Undisturbed, CounterRec;
    QuietNotGated(a, s.a.e);
    QuietNotGated(a, s.b.e);
    RunBalances(mode, a, s, steps);
    QuietBalance(a, Exec(mode, s, steps));
  }

  lemma QuietNotGated(a: int, e: Engine)
    requires InGate(e) == []
    ensures NotGated(a, e)
  {
  }

  /** At rest, balanced accounts and equal memories are the same thing. */
  lemma QuietBalance(a: int, s: System)
    requires Quiet(s, a) && Tracked(a, s.a.e) && Tracked(a, s.b.e)
    ensures Balanced(a, s) <==> At(s.a.e.ram, a) == At(s.b.e.ram, a)
  {
  }
}
