/** What holds over every run of the relay: capacity, the life of a pair, where forwarders aim, who is attended. */
module RelayRuns {
  import opened Wrappers
  import opened Relay

  function Idle(maxPairs: nat): World { World(maxPairs, map[], map[], map[]) }

  function Run(w: World, events: seq<Event>): World
    decreases |events|
  {
    if events == [] then w else Run(Step(w, events[0]), events[1..])
  }

  lemma {:induction false} RunKeeps(w: World, events: seq<Event>)
    requires Inv(w)
    ensures Inv(Run(w, events))
    decreases |events|
  {
    hide Inv, Step;
    if events != [] {
      StepKeeps(w, events[0]);
      RunKeeps(Step(w, events[0]), events[1..]);
    }
  }

  /** From an idle relay, every run keeps the invariant: the states mean what they say, and the table never overflows. */
  lemma EveryRun(maxPairs: nat, events: seq<Event>)
    ensures Inv(Run(Idle(maxPairs), events))
  {
    hide Run;
    RunKeeps(Idle(maxPairs), events);
  }

  /** Reachable states have one reading task at most per socket, and none on a socket that was replaced. */
  lemma OneReader(maxPairs: nat, events: seq<Event>, c: nat)
    ensures var w := Run(Idle(maxPairs), events);
      c in w.peers ==>
        && !(w.peers[c].forward.Running? && w.peers[c].watcher.Watching?)
        && (!Current(w, c) ==> !w.peers[c].Reading() && w.peers[c].closed)
  {
    hide Run, Current;
    EveryRun(maxPairs, events);
    var w := Run(Idle(maxPairs), events);
    if c in w.peers {
      InvPeer(w, c);
    }
  }

  /** A peer that is alone in its session is watched, or its end is known: its handler will run when it leaves. */
  lemma LoneWatched(maxPairs: nat, events: seq<Event>, c: nat)
    ensures var w := Run(Idle(maxPairs), events);
      Current(w, c) && !w.sessions[w.peers[c].sid].state.Paired? ==> w.peers[c].watcher.Watching? || w.peers[c].done
  {
    hide Run, Inv;
    EveryRun(maxPairs, events);
    var w := Run(Idle(maxPairs), events);
    if Current(w, c) && !w.sessions[w.peers[c].sid].state.Paired? {
      InvSession(w, w.peers[c].sid);
      OneSlot(w.sessions[w.peers[c].sid].slots, w.peers[c].id, c);
    }
  }

  // -------------------------------------------------------- steps are local

  /** The session a step is about. */
  function Subject(w: World, e: Event): nat {
    match e
    case Arrival(c, first) =>
      if first.Join? && first.code.Some? && first.code.value in w.table then w.table[first.code.value] else c
    case ForwardEnd(c) => if c in w.peers then w.peers[c].sid else c
    case ForwardBlock(c) => if c in w.peers then w.peers[c].sid else c
    case WatchEnd(c) => if c in w.peers then w.peers[c].sid else c
    case Handler(c) => if c in w.peers then w.peers[c].sid else c
    case Ttl(sid) => sid
    case Grace(sid) => sid
  }

  /** Sessions and peers of others stay as they were. */
  ghost predicate Elsewhere(w: World, w': World, sid: nat) {
    && (forall o :: o in w'.sessions && o != sid ==> o in w.sessions && w'.sessions[o] == w.sessions[o])
    && (forall o :: o in w.sessions && o != sid ==> o in w'.sessions)
    && (forall c :: c in w.peers && w.peers[c].sid != sid ==> c in w'.peers && w'.peers[c] == w.peers[c])
  }

  lemma SeatedAt(w: World, sid: nat, id: string)
    requires sid in w.sessions && SessionOk(w, sid)
    ensures var prev, other := Find(w.sessions[sid].slots, id), Other(w.sessions[sid].slots, id);
      && (prev.Some? ==> prev.value in w.peers && w.peers[prev.value].sid == sid)
      && (other.Some? ==> other.value in w.peers && w.peers[other.value].sid == sid)
  {
    var slots := w.sessions[sid].slots;
    if |slots| == 1 {
      OneSlot(slots, id, 0);
    } else if |slots| == 2 {
      assert slots == [slots[0], slots[1]];
      OneSlot(slots[1..], id, 0);
    }
  }

  lemma ReplaceElsewhere(w: World, sid: nat, id: string, c: nat, prev: nat)
    requires sid in w.sessions && prev in w.peers && w.peers[prev].sid == sid && c !in w.peers
    ensures Elsewhere(w, ReplaceWaiting(w, sid, id, c, prev), sid)
  {
    hide PutSlot;
  }

  lemma SurvivorElsewhere(w: World, sid: nat, id: string, c: nat, prev: nat)
    requires sid in w.sessions && prev in w.peers && w.peers[prev].sid == sid && c !in w.peers
    ensures Elsewhere(w, ReplaceSurvivor(w, sid, id, c, prev), sid)
  {
    hide PutSlot;
  }

  lemma PairElsewhere(w: World, sid: nat, id: string, c: nat, other: nat)
    requires sid in w.sessions && other in w.peers && w.peers[other].sid == sid && c !in w.peers
    ensures Elsewhere(w, Pair(w, sid, id, c, other), sid)
  {
    hide PutSlot;
  }

  lemma RecoverElsewhere(w: World, sid: nat, id: string, c: nat, other: nat)
    requires sid in w.sessions && other in w.peers && w.peers[other].sid == sid && c !in w.peers
    ensures Elsewhere(w, Recover(w, sid, id, c, other), sid)
  {
    hide PutSlot;
  }

  lemma SwapElsewhere(w: World, sid: nat, id: string, c: nat, prev: nat, other: nat)
    requires sid in w.sessions && prev in w.peers && other in w.peers && c !in w.peers
    requires w.peers[prev].sid == w.peers[other].sid == sid
    ensures Elsewhere(w, SwapPaired(w, sid, id, c, prev, other), sid)
  {
    hide PutSlot;
  }

  lemma NothingElsewhere(w: World, sid: nat)
    ensures Elsewhere(w, w, sid)
  {
  }

  lemma EnterElsewhere(w: World, c: nat, code: string, id: string)
    requires Inv(w) && c !in w.peers && c !in w.sessions
    ensures Elsewhere(w, Enter(w, c, code, id).0, if code in w.table then w.table[code] else c)
  {
    hide Inv, Find, Other, SessionOk, ReplaceWaiting, ReplaceSurvivor, Pair, Recover, SwapPaired;
    if code in w.table {
      hide Elsewhere;
      var sid := w.table[code];
      InvTable(w, code);
      InvSession(w, sid);
      SeatedAt(w, sid, id);
      NothingElsewhere(w, sid);
      var prev, other := Find(w.sessions[sid].slots, id), Other(w.sessions[sid].slots, id);
      if prev.Some? {
        ReplaceElsewhere(w, sid, id, c, prev.value);
        SurvivorElsewhere(w, sid, id, c, prev.value);
      }
      if other.Some? {
        PairElsewhere(w, sid, id, c, other.value);
        RecoverElsewhere(w, sid, id, c, other.value);
      }
      if prev.Some? && other.Some? {
        SwapElsewhere(w, sid, id, c, prev.value, other.value);
      }
    }
  }

  lemma DisconnectElsewhere(w: World, c: nat)
    requires Inv(w) && c in w.peers
    ensures Elsewhere(w, Disconnect(w, c), w.peers[c].sid)
  {
    hide Inv, Find, DropSlot;
    InvPeer(w, c);
    if Current(w, c) && w.sessions[w.peers[c].sid].state.Paired? {
      InvSession(w, w.peers[c].sid);
      var other := PairedSeats(w, c);
    }
  }

  lemma TtlElsewhere(w: World, sid: nat)
    requires Inv(w)
    ensures Elsewhere(w, TtlExpires(w, sid).0, sid)
  {
    hide Inv, Disconnect, Waits;
    if sid in w.sessions && w.sessions[sid].ttl && w.sessions[sid].slots != [] {
      InvSession(w, sid);
      var c := w.sessions[sid].slots[0].conn;
      WatchEndsKeeps(w, c);
      DisconnectElsewhere(WatchEnds(w, c), c);
    }
  }

  lemma StepElsewhere(w: World, e: Event)
    requires Inv(w)
    ensures Elsewhere(w, Step(w, e), Subject(w, e))
  {
    hide Inv, Enter, Disconnect, TtlExpires;
    match e
    case Arrival(c, first) =>
      if c !in w.peers && c !in w.sessions && first.Join? && first.code.Some? && first.id.Some? {
        EnterElsewhere(w, c, first.code.value, first.id.value);
      }
    case ForwardEnd(c) =>
    case ForwardBlock(c) =>
    case WatchEnd(c) =>
    case Handler(c) =>
      if c in w.peers {
        DisconnectElsewhere(w, c);
      } else {
        assert Disconnect(w, c) == w by { NobodyDisconnects(w, c); }
      }
    case Ttl(sid) => TtlElsewhere(w, sid);
    case Grace(sid) =>
  }

  lemma NobodyDisconnects(w: World, c: nat)
    requires c !in w.peers
    ensures Disconnect(w, c) == w
  {
  }

  // ---------------------------------------------------------- the pair's life

  /** The session sits under the code, with both its peers or with one of them waiting for the other. */
  predicate Engaged(w: World, code: string, sid: nat) {
    code in w.table && w.table[code] == sid && sid in w.sessions && !w.sessions[sid].state.Waiting?
  }

  /** A handler takes nothing out of the table but its own waiting session. */
  lemma HandlerTable(w: World, c: nat, code: string, sid: nat)
    requires Inv(w) && Engaged(w, code, sid)
    ensures Engaged(Disconnect(w, c), code, sid)
  {
    hide Inv, Find, DropSlot;
    InvTable(w, code);
    if Current(w, c) {
      InvSession(w, w.peers[c].sid);
    }
  }

  lemma TtlTable(w: World, o: nat, code: string, sid: nat)
    requires Inv(w) && Engaged(w, code, sid)
    ensures Engaged(TtlExpires(w, o).0, code, sid)
  {
    hide Inv, TtlExpires, Waits;
    if o in w.sessions && w.sessions[o].ttl {
      TtlCloses(w, o);
      TtlElsewhere(w, o);
      InvTable(w, code);
      KeptSession(w, o, sid);
    } else {
      TtlIdle(w, o);
    }
  }

  lemma TtlIdle(w: World, o: nat)
    requires o in w.sessions ==> !w.sessions[o].ttl
    ensures TtlExpires(w, o).0 == w
  {
  }

  lemma KeptSession(w: World, o: nat, sid: nat)
    requires Inv(w) && sid in w.sessions && o != sid
    ensures sid in TtlExpires(w, o).0.sessions && TtlExpires(w, o).0.sessions[sid] == w.sessions[sid]
  {
    hide Inv, TtlExpires;
    TtlElsewhere(w, o);
  }

  /** An arrival takes nothing out of the table, and makes no session wait again. */
  lemma EnterEngaged(w: World, code: string, sid: nat, c: nat, at: string, id: string)
    requires Engaged(w, code, sid) && c !in w.sessions
    ensures Engaged(Enter(w, c, at, id).0, code, sid)
  {
    hide Find, Other, PutSlot;
  }

  /** A pair leaves the table in one way only: the grace period of its broken state runs out. */
  lemma EngagedUntilGrace(w: World, code: string, sid: nat, e: Event)
    requires Inv(w) && Engaged(w, code, sid)
    ensures code in Step(w, e).table && Step(w, e).table[code] == sid <==> !(e == Grace(sid) && w.sessions[sid].state.HalfBroken?)
    ensures Engaged(Step(w, e), code, sid) <==> !(e == Grace(sid) && w.sessions[sid].state.HalfBroken?)
  {
    hide Inv, Enter, Disconnect, TtlExpires, DropSlot, Waits;
    InvTable(w, code);
    InvSession(w, sid);
    match e
    case Arrival(c, first) =>
      if c !in w.peers && c !in w.sessions && first.Join? && first.code.Some? && first.id.Some? {
        EnterEngaged(w, code, sid, c, first.code.value, first.id.value);
      }
    case ForwardEnd(c) =>
    case ForwardBlock(c) =>
    case WatchEnd(c) =>
    case Handler(c) => HandlerTable(w, c, code, sid);
    case Ttl(o) => TtlTable(w, o, code, sid);
    case Grace(o) =>
      if o in w.sessions && w.sessions[o].grace {
        GraceCloses(w, o);
      }
  }

  /** Two joins under an unused code make a pair, at any relay that has room, whatever the code and the ids. */
  lemma JoinsPair(w: World, code: string, a: string, b: string, c: nat, d: nat)
    requires Inv(w) && |w.table| < w.maxPairs && code !in w.table && |code| >= MIN_CODE && a != "" && b != "" && a != b
    requires c != d && c !in w.peers && c !in w.sessions && d !in w.peers && d !in w.sessions
    ensures var w' := Run(w, [Arrival(c, Join(Some(code), Some(a))), Arrival(d, Join(Some(code), Some(b)))]);
      && Engaged(w', code, c) && w'.sessions[c].state.Paired? && w'.sessions[c].slots == [Slot(a, c), Slot(b, d)]
      && c in w'.peers && w'.peers[c].forward == Running(d) && d in w'.peers && w'.peers[d].forward == Running(c)
  {
    var e0, e1 := Arrival(c, Join(Some(code), Some(a))), Arrival(d, Join(Some(code), Some(b)));
    var w1 := Open(w, code, a, c);
    SecondJoin(w, code, a, b, c, d);
    RunTwo(w, e0, e1);
  }

  lemma RunTwo(w: World, e0: Event, e1: Event)
    ensures Run(w, [e0, e1]) == Step(Step(w, e0), e1)
  {
    hide Step;
    assert [e0, e1][1..] == [e1] && [e1][1..] == [];
    assert Run(w, [e0, e1]) == Run(Step(w, e0), [e1]) == Run(Step(Step(w, e0), e1), []);
  }

  lemma SecondJoin(w: World, code: string, a: string, b: string, c: nat, d: nat)
    requires code !in w.table && |code| >= MIN_CODE && b != "" && a != b && c != d && c !in w.peers && d !in w.peers
    requires d !in w.sessions
    ensures var w1 := Open(w, code, a, c);
      var w2 := Step(w1, Arrival(d, Join(Some(code), Some(b))));
      w2 == Pair(w1, c, b, d, c) && w2.sessions[c].slots == [Slot(a, c), Slot(b, d)]
  {
    OneSlot([Slot(a, c)], b, d);
    hide Find, Other, PutSlot;
  }

  /** So a pair outlives every run in which its grace period does not run out. */
  lemma {:induction false} PairSurvives(w: World, code: string, sid: nat, events: seq<Event>)
    requires Inv(w) && Engaged(w, code, sid) && Grace(sid) !in events
    ensures Engaged(Run(w, events), code, sid)
    decreases |events|
  {
    hide Inv, Step, Engaged;
    if events != [] {
      EngagedStays(w, code, sid, events[0]);
      StepKeeps(w, events[0]);
      PairSurvives(Step(w, events[0]), code, sid, events[1..]);
    }
  }

  lemma EngagedStays(w: World, code: string, sid: nat, e: Event)
    requires Inv(w) && Engaged(w, code, sid) && e != Grace(sid)
    ensures Engaged(Step(w, e), code, sid)
  {
    hide Inv, Step;
    EngagedUntilGrace(w, code, sid, e);
  }

  // --------------------------------------------------------- replaced peers

  lemma {:induction false} PutSlotFrom(slots: seq<Slot>, id: string, conn: nat, x: Slot)
    requires x in PutSlot(slots, id, conn)
    ensures x in slots || x == Slot(id, conn)
  {
    if slots != [] && slots[0].id != id && x != slots[0] {
      assert PutSlot(slots, id, conn)[1..] == PutSlot(slots[1..], id, conn);
      PutSlotFrom(slots[1..], id, conn, x);
    }
  }

  lemma {:induction false} DropSlotFrom(slots: seq<Slot>, id: string, x: Slot)
    requires x in DropSlot(slots, id)
    ensures x in slots
  {
    if slots != [] && slots[0].id != id && x != slots[0] {
      assert DropSlot(slots, id)[1..] == DropSlot(slots[1..], id);
      DropSlotFrom(slots[1..], id, x);
    }
  }

  /** Peer objects keep their ids and sessions, and a seat of a peer that was there before was its seat before. */
  ghost predicate Tame(w: World, w': World) {
    && (forall c :: c in w.peers ==> c in w'.peers && w'.peers[c].id == w.peers[c].id && w'.peers[c].sid == w.peers[c].sid)
    && forall sid, x: Slot :: sid in w'.sessions && x in w'.sessions[sid].slots && x.conn in w.peers ==>
         sid in w.sessions && x in w.sessions[sid].slots
  }

  /** One session and some peers change: tame, if the peers keep who they are and the seats are old ones or the newcomer's. */
  lemma UpdateTame(w: World, table: map<string, nat>, sid: nat, s: Session, peers: map<nat, Peer>)
    requires forall c :: c in peers && c in w.peers ==> peers[c].id == w.peers[c].id && peers[c].sid == w.peers[c].sid
    requires forall x: Slot :: x in s.slots && x.conn in w.peers ==> sid in w.sessions && x in w.sessions[sid].slots
    ensures Tame(w, Update(w, table, sid, s, peers))
  {
  }

  lemma Seated(w: World, sid: nat, id: string, c: nat)
    requires sid in w.sessions && c !in w.peers
    ensures forall x: Slot :: x in PutSlot(w.sessions[sid].slots, id, c) && x.conn in w.peers ==> x in w.sessions[sid].slots
  {
    forall x: Slot | x in PutSlot(w.sessions[sid].slots, id, c) && x.conn in w.peers ensures x in w.sessions[sid].slots {
      PutSlotFrom(w.sessions[sid].slots, id, c, x);
    }
  }

  lemma ReplacesTame(w: World, sid: nat, id: string, c: nat, prev: nat)
    requires sid in w.sessions && prev in w.peers && c !in w.peers
    ensures Tame(w, ReplaceWaiting(w, sid, id, c, prev)) && Tame(w, ReplaceSurvivor(w, sid, id, c, prev))
  {
    Seated(w, sid, id, c);
    hide PutSlot, Tame;
    var s := w.sessions[sid];
    UpdateTame(w, w.table, sid, s.(slots := PutSlot(s.slots, id, c)),
               map[prev := w.peers[prev].StopWatching().(closed := true), c := NewPeer(id, sid).(watcher := Watching)]);
    UpdateTame(w, w.table, sid, s.(slots := PutSlot(s.slots, id, c)),
               map[prev := w.peers[prev].StopWatching().StopForwarding().(closed := true, done := true),
                   c := NewPeer(id, sid).(watcher := Watching)]);
  }

  lemma PairsTame(w: World, sid: nat, id: string, c: nat, other: nat)
    requires sid in w.sessions && other in w.peers && c !in w.peers
    ensures Tame(w, Pair(w, sid, id, c, other)) && Tame(w, Recover(w, sid, id, c, other))
  {
    Seated(w, sid, id, c);
    hide PutSlot, Tame;
    var s := w.sessions[sid];
    UpdateTame(w, w.table, sid, s.(slots := PutSlot(s.slots, id, c), state := Paired, ttl := false),
               map[other := w.peers[other].(watcher := NoWatcher, forward := Running(c)),
                   c := NewPeer(id, sid).(forward := Running(other))]);
    UpdateTame(w, w.table, sid, s.(slots := PutSlot(s.slots, id, c), state := Paired, grace := false, broken := None),
               map[other := w.peers[other].(watcher := NoWatcher).Restarted(c),
                   c := NewPeer(id, sid).(forward := Running(other))]);
  }

  lemma SwapTame(w: World, sid: nat, id: string, c: nat, prev: nat, other: nat)
    requires sid in w.sessions && prev in w.peers && other in w.peers && c !in w.peers
    ensures Tame(w, SwapPaired(w, sid, id, c, prev, other))
  {
    Seated(w, sid, id, c);
    hide PutSlot, Tame;
    var s := w.sessions[sid];
    UpdateTame(w, w.table, sid, s.(slots := PutSlot(s.slots, id, c)),
               map[prev := w.peers[prev].StopForwarding().(closed := true), other := w.peers[other].Restarted(c),
                   c := NewPeer(id, sid).(forward := Running(other))]);
  }

  lemma NothingTame(w: World)
    ensures Tame(w, w)
  {
  }

  lemma EnterTame(w: World, c: nat, code: string, id: string)
    requires c !in w.peers
    ensures Tame(w, Enter(w, c, code, id).0)
  {
    hide Find, Other, Tame, ReplaceWaiting, Pair, SwapPaired, ReplaceSurvivor, Recover;
    NothingTame(w);
    if code !in w.table {
      UpdateTame(w, w.table[code := c], c, Session(code, [Slot(id, c)], Waiting, true, false, None),
                 map[c := NewPeer(id, c).(watcher := Watching)]);
    } else if w.table[code] in w.sessions {
      var sid := w.table[code];
      var prev, other := Find(w.sessions[sid].slots, id), Other(w.sessions[sid].slots, id);
      if prev.Some? && prev.value in w.peers {
        ReplacesTame(w, sid, id, c, prev.value);
        if other.Some? && other.value in w.peers {
          SwapTame(w, sid, id, c, prev.value, other.value);
        }
      }
      if other.Some? && other.value in w.peers {
        PairsTame(w, sid, id, c, other.value);
      }
    }
  }

  lemma DisconnectTame(w: World, c: nat)
    ensures Tame(w, Disconnect(w, c))
  {
    NothingTame(w);
    if c in w.peers && w.peers[c].done && w.peers[c].attended && Current(w, c) {
      hide Tame, DropSlot, Find;
      DroppedTame(w, c);
    }
  }

  lemma DroppedTame(w: World, c: nat)
    requires Current(w, c)
    ensures Tame(w, Dropped(w, c))
  {
    hide Tame, DropSlot, Find;
    var p := w.peers[c];
    var s := w.sessions[p.sid];
    var gone := p.StopWatching().StopForwarding().(closed := true, attended := false);
    var slots := DropSlot(s.slots, p.id);
    forall x: Slot | x in slots ensures x in s.slots {
      DropSlotFrom(s.slots, p.id, x);
    }
    match s.state
    case Waiting => UpdateTame(w, w.table - {s.code}, p.sid, s.(slots := slots, ttl := false), map[c := gone]);
    case Paired =>
      var s' := s.(slots := slots, state := HalfBroken, broken := Some(p.id), grace := true);
      if slots != [] && slots[0].conn in w.peers {
        UpdateTame(w, w.table, p.sid, s', map[c := gone, slots[0].conn := Watched(w.peers[slots[0].conn])]);
      } else {
        UpdateTame(w, w.table, p.sid, s', map[c := gone]);
      }
    case HalfBroken => UpdateTame(w, w.table, p.sid, s, map[c := gone]);
  }

  /** A peer that keeps who it is changes in place. */
  lemma FadeTame(w: World, c: nat, p: Peer)
    requires c in w.peers && p.id == w.peers[c].id && p.sid == w.peers[c].sid
    ensures Tame(w, w.(peers := w.peers[c := p]))
  {
  }

  lemma TameTwice(w: World, w1: World, w2: World)
    requires Tame(w, w1) && Tame(w1, w2)
    ensures Tame(w, w2)
  {
    forall sid, x: Slot | sid in w2.sessions && x in w2.sessions[sid].slots && x.conn in w.peers
      ensures sid in w.sessions && x in w.sessions[sid].slots
    {
      assert sid in w1.sessions && x in w1.sessions[sid].slots;
    }
  }

  lemma TaskTame(w: World, c: nat)
    ensures Tame(w, ForwardEnds(w, c)) && Tame(w, ForwardBlocked(w, c)) && Tame(w, WatchEnds(w, c))
  {
    hide Tame;
    NothingTame(w);
    if c in w.peers {
      FadeTame(w, c, w.peers[c].(forward := Finished, done := true));
      FadeTame(w, c, w.peers[c].(forward := Finished));
      FadeTame(w, c, w.peers[c].(watcher := Stopped, done := true));
    }
  }

  /** The table matters to nobody's seat. */
  lemma TableTame(w: World, w': World, table: map<string, nat>)
    requires Tame(w, w')
    ensures Tame(w, w'.(table := table))
  {
  }

  lemma TimerTame(w: World, sid: nat)
    ensures Tame(w, TtlExpires(w, sid).0) && Tame(w, GraceExpires(w, sid).0)
  {
    hide Tame, Disconnect, WatchEnds;
    NothingTame(w);
    if sid in w.sessions && w.sessions[sid].slots != [] {
      var s := w.sessions[sid];
      var c := s.slots[0].conn;
      TaskTame(w, c);
      DisconnectTame(WatchEnds(w, c), c);
      TameTwice(w, WatchEnds(w, c), CloseOut(w, c));
      TableTame(w, CloseOut(w, c), w.table - {s.code});
      UpdateTame(w, w.table - {s.code}, sid, s.(grace := false), map[]);
    }
  }

  lemma StepTame(w: World, e: Event)
    ensures Tame(w, Step(w, e))
  {
    hide Tame, Enter, ForwardEnds, ForwardBlocked, WatchEnds, Disconnect, TtlExpires, GraceExpires;
    NothingTame(w);
    match e
    case Arrival(c, first) =>
      if c !in w.peers && first.Join? && first.code.Some? && first.id.Some? {
        EnterTame(w, c, first.code.value, first.id.value);
      }
    case ForwardEnd(c) => TaskTame(w, c);
    case ForwardBlock(c) => TaskTame(w, c);
    case WatchEnd(c) => TaskTame(w, c);
    case Handler(c) => DisconnectTame(w, c);
    case Ttl(sid) => TimerTame(w, sid);
    case Grace(sid) => TimerTame(w, sid);
  }

  lemma {:induction false} FindDistinct(slots: seq<Slot>, x: Slot)
    requires x in slots && forall i, j :: 0 <= i < j < |slots| ==> slots[i].id != slots[j].id
    ensures Find(slots, x.id) == Some(x.conn)
  {
    if slots[0] != x {
      FindDistinct(slots[1..], x);
    }
  }

  lemma StaysReplaced(w: World, e: Event, c: nat)
    requires Inv(w) && c in w.peers && !Current(w, c)
    ensures c in Step(w, e).peers && !Current(Step(w, e), c)
  {
    hide Inv, Step, Find;
    StepTame(w, e);
    var w' := Step(w, e);
    if Current(w', c) {
      var sid := w.peers[c].sid;
      assert Slot(w.peers[c].id, c) in w'.sessions[sid].slots;
      InvSession(w, sid);
      FindDistinct(w.sessions[sid].slots, Slot(w.peers[c].id, c));
    }
  }

  lemma {:induction false} RunStaysReplaced(w: World, events: seq<Event>, c: nat)
    requires Inv(w) && c in w.peers && !Current(w, c)
    ensures Inv(Run(w, events)) && c in Run(w, events).peers && !Current(Run(w, events), c)
    decreases |events|
  {
    hide Inv, Step, Current;
    if events != [] {
      StepKeeps(w, events[0]);
      StaysReplaced(w, events[0], c);
      RunStaysReplaced(Step(w, events[0]), events[1..], c);
    }
  }

  /**
   * A replaced peer is out for good: after any further run it has no seat, its socket is closed and unread, and whenever
   * its old handler wakes up, that changes neither table nor sessions nor any other peer.
   */
  lemma StaleHandler(w: World, events: seq<Event>, c: nat)
    requires Inv(w) && c in w.peers && !Current(w, c)
    ensures var w1 := Run(w, events);
      var w2 := Step(w1, Handler(c));
      && c in w1.peers && !Current(w1, c) && w1.peers[c].closed && !w1.peers[c].Reading()
      && w2.table == w1.table && w2.sessions == w1.sessions
      && forall d :: d in w1.peers && d != c ==> d in w2.peers && w2.peers[d] == w1.peers[d]
  {
    hide Inv, Run, Current;
    RunStaysReplaced(w, events, c);
    InvPeer(Run(w, events), c);
  }

  // ---------------------------------------------------------------- routing

  /** Running forwarders of the pair aim at each other's current peer object. */
  ghost predicate RoutedAt(w: World, sid: nat)
    requires sid in w.sessions
  {
    var slots := w.sessions[sid].slots;
    w.sessions[sid].state.Paired? ==>
      && |slots| == 2 && slots[0].conn in w.peers && slots[1].conn in w.peers
      && (w.peers[slots[0].conn].forward.Running? ==> w.peers[slots[0].conn].forward.dst == slots[1].conn)
      && (w.peers[slots[1].conn].forward.Running? ==> w.peers[slots[1].conn].forward.dst == slots[0].conn)
  }

  ghost predicate Routed(w: World) { forall sid :: sid in w.sessions ==> RoutedAt(w, sid) }

  predicate EntersAt(w: World, e: Event) {
    && e.Arrival? && e.c !in w.peers && e.c !in w.sessions && e.first.Join? && e.first.code.Some? && e.first.id.Some?
    && |e.first.code.value| >= MIN_CODE && e.first.id.value != "" && e.first.code.value in w.table
    && w.table[e.first.code.value] in w.sessions
  }

  /** A member of a pair comes back on a new socket while both are still there. */
  predicate Swaps(w: World, e: Event) {
    EntersAt(w, e) && var s := w.sessions[w.table[e.first.code.value]];
      s.state.Paired? && Find(s.slots, e.first.id.value).Some?
  }

  lemma EnterRoutes(w: World, c: nat, code: string, id: string)
    requires Inv(w) && c !in w.peers && c !in w.sessions && code in w.table && RoutedAt(w, w.table[code])
    requires var s := w.sessions[w.table[code]]; !(s.state.Paired? && Find(s.slots, id).Some?)
    ensures var w' := Enter(w, c, code, id).0; w.table[code] in w'.sessions && RoutedAt(w', w.table[code])
  {
    hide Inv, Other, Find, PutSlot;
    InvTable(w, code);
    var sid := w.table[code];
    InvSession(w, sid);
    var s := w.sessions[sid];
    if !s.state.Paired? {
      OneSlot(s.slots, id, c);
    }
  }

  lemma HandlerRoutes(w: World, c: nat, sid: nat)
    requires Inv(w) && c in w.peers && w.peers[c].sid == sid && RoutedAt(w, sid)
    ensures RoutedAt(Disconnect(w, c), sid)
  {
    hide Inv, Find, DropSlot;
    InvPeer(w, c);
    InvSession(w, sid);
  }

  lemma FadeRoutes(w: World, c: nat, p: Peer, sid: nat)
    requires sid in w.sessions && RoutedAt(w, sid) && c in w.peers
    requires p.forward == w.peers[c].forward || !p.forward.Running?
    ensures RoutedAt(w.(peers := w.peers[c := p]), sid)
  {
  }

  /** The session a step is about stays routed, unless a paired socket is swapped. */
  lemma SubjectRouted(w: World, e: Event)
    requires Inv(w) && Routed(w) && !Swaps(w, e)
    ensures var sid := Subject(w, e); sid in Step(w, e).sessions ==> RoutedAt(Step(w, e), sid)
  {
    hide Inv, RoutedAt, Enter, Disconnect, TtlExpires, Find;
    match e
    case Arrival(c, first) =>
      if c !in w.peers && c !in w.sessions && first.Join? && first.code.Some? && first.id.Some?
         && |first.code.value| >= MIN_CODE && first.id.value != "" {
        if first.code.value in w.table {
          InvTable(w, first.code.value);
          EnterRoutes(w, c, first.code.value, first.id.value);
        } else {
          OpenRouted(w, c, first.code.value, first.id.value);
        }
      }
    case ForwardEnd(c) =>
      if c in w.peers && w.peers[c].forward.Running? && w.peers[c].sid in w.sessions {
        FadeRoutes(w, c, w.peers[c].(forward := Finished, done := true), w.peers[c].sid);
      }
    case ForwardBlock(c) =>
      if c in w.peers && w.peers[c].forward.Running? && w.peers[c].sid in w.sessions {
        FadeRoutes(w, c, w.peers[c].(forward := Finished), w.peers[c].sid);
      }
    case WatchEnd(c) =>
      if c in w.peers && w.peers[c].watcher.Watching? && w.peers[c].sid in w.sessions {
        FadeRoutes(w, c, w.peers[c].(watcher := Stopped, done := true), w.peers[c].sid);
      }
    case Handler(c) =>
      if c in w.peers {
        InvPeer(w, c);
        HandlerRoutes(w, c, w.peers[c].sid);
      } else {
        NobodyDisconnects(w, c);
      }
    case Ttl(sid) => TtlRouted(w, sid);
    case Grace(sid) => GraceRouted(w, sid);
  }

  lemma OpenRouted(w: World, c: nat, code: string, id: string)
    requires code !in w.table && c !in w.sessions
    ensures var w' := Enter(w, c, code, id).0; c in w'.sessions ==> RoutedAt(w', c)
  {
  }

  lemma TtlRouted(w: World, sid: nat)
    requires Inv(w) && (sid in w.sessions ==> RoutedAt(w, sid))
    ensures var w' := TtlExpires(w, sid).0; sid in w'.sessions ==> RoutedAt(w', sid)
  {
    hide Inv, Disconnect;
    if sid in w.sessions && w.sessions[sid].ttl && w.sessions[sid].slots != [] {
      InvSession(w, sid);
      var c := w.sessions[sid].slots[0].conn;
      WatchEndsKeeps(w, c);
      HandlerRoutes(WatchEnds(w, c), c, sid);
    }
  }

  lemma GraceRouted(w: World, sid: nat)
    requires Inv(w) && (sid in w.sessions ==> RoutedAt(w, sid))
    ensures var w' := GraceExpires(w, sid).0; sid in w'.sessions ==> RoutedAt(w', sid)
  {
    hide Inv;
    if sid in w.sessions {
      InvSession(w, sid);
    }
  }

  lemma ElsewhereRouted(w: World, w': World, subject: nat, sid: nat)
    requires Inv(w) && Routed(w) && Elsewhere(w, w', subject) && sid in w'.sessions && sid != subject
    ensures RoutedAt(w', sid)
  {
    hide Inv;
    InvSession(w, sid);
    assert RoutedAt(w, sid);
  }

  lemma StepRouted(w: World, e: Event)
    requires Inv(w) && Routed(w) && !Swaps(w, e)
    ensures Routed(Step(w, e))
  {
    hide Inv, Step, Subject, Swaps, RoutedAt, Elsewhere;
    StepElsewhere(w, e);
    SubjectRouted(w, e);
    forall sid | sid in Step(w, e).sessions ensures RoutedAt(Step(w, e), sid) {
      if sid != Subject(w, e) {
        ElsewhereRouted(w, Step(w, e), Subject(w, e), sid);
      }
    }
  }

  ghost predicate SwapFree(w: World, events: seq<Event>)
    decreases |events|
  {
    events == [] || (!Swaps(w, events[0]) && SwapFree(Step(w, events[0]), events[1..]))
  }

  lemma {:induction false} RunRouted(w: World, events: seq<Event>)
    requires Inv(w) && Routed(w) && SwapFree(w, events)
    ensures Inv(Run(w, events)) && Routed(Run(w, events))
    decreases |events|
  {
    hide Inv, Step, Swaps, Routed;
    if events != [] {
      StepKeeps(w, events[0]);
      StepRouted(w, events[0]);
      RunRouted(Step(w, events[0]), events[1..]);
    }
  }

  /**
   * Routing: in every run without a swap of a paired socket, a running forwarder of a paired peer aims at the other
   * current peer, through replaced survivors and recoveries under new ids.
   */
  lemma EveryRunRouted(maxPairs: nat, events: seq<Event>, c: nat)
    requires SwapFree(Idle(maxPairs), events)
    ensures var w := Run(Idle(maxPairs), events);
      Current(w, c) && w.sessions[w.peers[c].sid].state.Paired? && w.peers[c].forward.Running? ==>
        var other := w.peers[c].forward.dst;
        Current(w, other) && other != c && w.peers[other].sid == w.peers[c].sid
  {
    hide Run, SwapFree, Inv, Find;
    IdleInv(maxPairs);
    RunRouted(Idle(maxPairs), events);
    var w := Run(Idle(maxPairs), events);
    if Current(w, c) && w.sessions[w.peers[c].sid].state.Paired? && w.peers[c].forward.Running? {
      AimsAtOther(w, c);
    }
  }

  lemma IdleInv(maxPairs: nat)
    ensures Inv(Idle(maxPairs)) && Routed(Idle(maxPairs)) && Attended(Idle(maxPairs))
  {
  }

  lemma AimsAtOther(w: World, c: nat)
    requires Inv(w) && Routed(w) && Current(w, c) && w.sessions[w.peers[c].sid].state.Paired? && w.peers[c].forward.Running?
    ensures var other := w.peers[c].forward.dst;
      Current(w, other) && other != c && w.peers[other].sid == w.peers[c].sid
  {
    hide Inv, Find;
    var sid := w.peers[c].sid;
    InvSession(w, sid);
    assert RoutedAt(w, sid);
    var slots := w.sessions[sid].slots;
    TwoSlots(slots, w.peers[c].id, c);
    assert slots == [slots[0], slots[1]];
    SeatedTwo(slots[0], slots[1]);
  }

  /** A new pair, and a recovered one, has both forwarders running. */
  lemma PairConnects(w: World, code: string, id: string, c: nat, other: nat)
    requires Inv(w) && c !in w.peers && code in w.table && w.table[code] in w.sessions
    requires var s := w.sessions[w.table[code]];
      !s.state.Paired? && Find(s.slots, id).None? && Other(s.slots, id) == Some(other)
    ensures var w' := Enter(w, c, code, id).0;
      other in w'.peers && w'.peers[other].forward == Running(c) && c in w'.peers && w'.peers[c].forward == Running(other)
  {
    hide Inv, PutSlot;
    InvTable(w, code);
    InvSession(w, w.table[code]);
    OneSlot(w.sessions[w.table[code]].slots, id, c);
  }

  /** What the hypothesis excludes: after a swap the pair is routed exactly if the partner's forwarder had ended. */
  lemma SwapRoutedIff(w: World, code: string, id: string, c: nat, prev: nat, other: nat)
    requires Inv(w) && c !in w.peers && code in w.table && w.table[code] in w.sessions && RoutedAt(w, w.table[code])
    requires var s := w.sessions[w.table[code]];
      s.state.Paired? && Find(s.slots, id) == Some(prev) && Other(s.slots, id) == Some(other)
    requires prev in w.peers && other in w.peers
    ensures RoutedAt(SwapPaired(w, w.table[code], id, c, prev, other), w.table[code]) <==> !w.peers[other].forward.Running?
  {
    hide Inv, Find, Other, PutSlot;
    var sid := w.table[code];
    InvSession(w, sid);
    TwoSlots(w.sessions[sid].slots, id, c);
  }

  // --------------------------------------------------------------- handlers

  /** A pair breaks when, and only when, the waiting handler of one of its current peers runs. */
  lemma PairBreaks(w: World, sid: nat, e: Event)
    requires Inv(w) && sid in w.sessions && w.sessions[sid].state.Paired?
    ensures sid in Step(w, e).sessions
    ensures Step(w, e).sessions[sid].state.HalfBroken? <==>
      e.Handler? && Current(w, e.c) && w.peers[e.c].sid == sid && w.peers[e.c].done && w.peers[e.c].attended
  {
    hide Inv, Find, Other, DropSlot, PutSlot, TtlExpires, Waits;
    InvSession(w, sid);
    if e.Ttl? && e.sid in w.sessions {
      InvSession(w, e.sid);
      TtlKeepsPair(w, e.sid, sid);
    } else if e.Ttl? {
      TtlIdle(w, e.sid);
    }
  }

  lemma TtlKeepsPair(w: World, o: nat, sid: nat)
    requires Inv(w) && o in w.sessions && sid in w.sessions && w.sessions[sid].state.Paired?
    ensures sid in TtlExpires(w, o).0.sessions && TtlExpires(w, o).0.sessions[sid] == w.sessions[sid]
  {
    hide Inv, TtlExpires;
    if w.sessions[o].ttl {
      TtlCloses(w, o);
      KeptSession(w, o, sid);
    } else {
      TtlIdle(w, o);
    }
  }

  /** Each current peer of a pair has a handler that can still end it. */
  ghost predicate AttendedAt(w: World, sid: nat)
    requires sid in w.sessions
  {
    w.sessions[sid].state.Paired? ==>
      forall i :: 0 <= i < |w.sessions[sid].slots| ==>
        w.sessions[sid].slots[i].conn in w.peers && w.peers[w.sessions[sid].slots[i].conn].attended
  }

  /**
   * An arrival keeps this, except for the recovery of a pair whose survivor has gone too: its handler has returned, so
   * that the pair cannot break at its end.
   */
  lemma EnterAttendedIff(w: World, c: nat, code: string, id: string)
    requires Inv(w) && c !in w.peers && c !in w.sessions && code in w.table && w.table[code] in w.sessions
    requires AttendedAt(w, w.table[code])
    ensures var w' := Enter(w, c, code, id).0;
      var s := w.sessions[w.table[code]];
      && w.table[code] in w'.sessions
      && (AttendedAt(w', w.table[code]) <==>
            !(s.state.HalfBroken? && Find(s.slots, id).None? && !w.peers[s.slots[0].conn].attended))
  {
    hide Inv, Enter, AttendedAt, Find;
    InvTable(w, code);
    InvSession(w, w.table[code]);
    if w.sessions[w.table[code]].state.Paired? {
      SwapAttends(w, c, code, id);
    } else {
      LoneAttends(w, c, code, id);
    }
  }

  lemma LoneAttends(w: World, c: nat, code: string, id: string)
    requires c !in w.peers && code in w.table && w.table[code] in w.sessions && SessionOk(w, w.table[code])
    requires InTable(w, w.table[code]) && !w.sessions[w.table[code]].state.Paired?
    ensures var w' := Enter(w, c, code, id).0;
      var s := w.sessions[w.table[code]];
      && w.table[code] in w'.sessions
      && (AttendedAt(w', w.table[code]) <==>
            !(s.state.HalfBroken? && Find(s.slots, id).None? && !w.peers[s.slots[0].conn].attended))
  {
    var sid := w.table[code];
    var s := w.sessions[sid];
    OneSlot(s.slots, id, c);
    hide Find, Other, PutSlot, InTable;
    if s.slots[0].id != id {
      JoinedAttends(w, sid, id, c, s.slots[0].conn);
    }
  }

  /** The newcomer's handler waits; the pair is attended if the other's does. */
  lemma JoinedAttends(w: World, sid: nat, id: string, c: nat, other: nat)
    requires sid in w.sessions && other in w.peers && c !in w.peers
    requires PutSlot(w.sessions[sid].slots, id, c) == [Slot(w.peers[other].id, other), Slot(id, c)]
    ensures AttendedAt(Pair(w, sid, id, c, other), sid) == w.peers[other].attended
    ensures AttendedAt(Recover(w, sid, id, c, other), sid) == w.peers[other].attended
  {
    hide PutSlot;
    var slots := PutSlot(w.sessions[sid].slots, id, c);
    assert slots[0].conn == other && slots[1].conn == c;
  }

  lemma SwapAttends(w: World, c: nat, code: string, id: string)
    requires c !in w.peers && code in w.table && w.table[code] in w.sessions && SessionOk(w, w.table[code])
    requires w.sessions[w.table[code]].state.Paired? && AttendedAt(w, w.table[code])
    ensures var w' := Enter(w, c, code, id).0; w.table[code] in w'.sessions && AttendedAt(w', w.table[code])
  {
    TwoSlots(w.sessions[w.table[code]].slots, id, c);
    hide Find, Other, PutSlot;
  }

  /** The arrival makes a pair whole again whose survivor has gone too. */
  predicate RecoversOffline(w: World, e: Event) {
    EntersAt(w, e) &&
    var s := w.sessions[w.table[e.first.code.value]];
    && s.state.HalfBroken? && Find(s.slots, e.first.id.value).None?
    && |s.slots| == 1 && s.slots[0].conn in w.peers && !w.peers[s.slots[0].conn].attended
  }

  ghost predicate Attended(w: World) { forall sid :: sid in w.sessions ==> AttendedAt(w, sid) }

  lemma EnterAttends(w: World, c: nat, code: string, id: string)
    requires Inv(w) && c !in w.peers && c !in w.sessions && code in w.table && w.table[code] in w.sessions
    requires AttendedAt(w, w.table[code])
    requires !RecoversOffline(w, Arrival(c, Join(Some(code), Some(id)))) && |code| >= MIN_CODE && id != ""
    ensures var w' := Enter(w, c, code, id).0; w.table[code] in w'.sessions && AttendedAt(w', w.table[code])
  {
    hide Inv, Enter, AttendedAt, Find;
    InvTable(w, code);
    InvSession(w, w.table[code]);
    EnterAttendedIff(w, c, code, id);
  }

  lemma HandlerAttends(w: World, c: nat, sid: nat)
    requires Inv(w) && c in w.peers && w.peers[c].sid == sid && sid in w.sessions && AttendedAt(w, sid)
    ensures sid in Disconnect(w, c).sessions && AttendedAt(Disconnect(w, c), sid)
  {
    hide Inv, Find, DropSlot;
    InvSession(w, sid);
    if !Current(w, c) {
      forall i | 0 <= i < |w.sessions[sid].slots| ensures w.sessions[sid].slots[i].conn != c {
        if w.sessions[sid].slots[i].conn == c {
          FindDistinct(w.sessions[sid].slots, w.sessions[sid].slots[i]);
        }
      }
    }
  }

  lemma FadeAttends(w: World, c: nat, p: Peer, sid: nat)
    requires sid in w.sessions && AttendedAt(w, sid) && c in w.peers && p.attended == w.peers[c].attended
    ensures AttendedAt(w.(peers := w.peers[c := p]), sid)
  {
  }

  lemma TtlAttends(w: World, sid: nat)
    requires Inv(w) && (sid in w.sessions ==> AttendedAt(w, sid))
    ensures var w' := TtlExpires(w, sid).0; sid in w'.sessions ==> AttendedAt(w', sid)
  {
    hide Inv, Disconnect;
    if sid in w.sessions && w.sessions[sid].ttl && w.sessions[sid].slots != [] {
      InvSession(w, sid);
      var c := w.sessions[sid].slots[0].conn;
      WatchEndsKeeps(w, c);
      HandlerAttends(WatchEnds(w, c), c, sid);
    }
  }

  lemma GraceAttends(w: World, sid: nat)
    requires Inv(w) && (sid in w.sessions ==> AttendedAt(w, sid))
    ensures var w' := GraceExpires(w, sid).0; sid in w'.sessions ==> AttendedAt(w', sid)
  {
    hide Inv;
    if sid in w.sessions {
      InvSession(w, sid);
    }
  }

  lemma SubjectAttended(w: World, e: Event)
    requires Inv(w) && Attended(w) && !RecoversOffline(w, e)
    ensures var sid := Subject(w, e); sid in Step(w, e).sessions ==> AttendedAt(Step(w, e), sid)
  {
    hide Inv, AttendedAt, Enter, Disconnect, TtlExpires, Find, RecoversOffline;
    match e
    case Arrival(c, first) =>
      if c !in w.peers && c !in w.sessions && first.Join? && first.code.Some? && first.id.Some?
         && |first.code.value| >= MIN_CODE && first.id.value != "" {
        if first.code.value in w.table {
          InvTable(w, first.code.value);
          EnterAttends(w, c, first.code.value, first.id.value);
        } else {
          OpenAttended(w, c, first.code.value, first.id.value);
        }
      }
    case ForwardEnd(c) =>
      if c in w.peers && w.peers[c].forward.Running? && w.peers[c].sid in w.sessions {
        FadeAttends(w, c, w.peers[c].(forward := Finished, done := true), w.peers[c].sid);
      }
    case ForwardBlock(c) =>
      if c in w.peers && w.peers[c].forward.Running? && w.peers[c].sid in w.sessions {
        FadeAttends(w, c, w.peers[c].(forward := Finished), w.peers[c].sid);
      }
    case WatchEnd(c) =>
      if c in w.peers && w.peers[c].watcher.Watching? && w.peers[c].sid in w.sessions {
        FadeAttends(w, c, w.peers[c].(watcher := Stopped, done := true), w.peers[c].sid);
      }
    case Handler(c) =>
      if c in w.peers {
        InvPeer(w, c);
        HandlerAttends(w, c, w.peers[c].sid);
      } else {
        NobodyDisconnects(w, c);
      }
    case Ttl(sid) => TtlAttends(w, sid);
    case Grace(sid) => GraceAttends(w, sid);
  }

  lemma OpenAttended(w: World, c: nat, code: string, id: string)
    requires code !in w.table && c !in w.sessions
    ensures var w' := Enter(w, c, code, id).0; c in w'.sessions ==> AttendedAt(w', c)
  {
  }

  lemma ElsewhereAttended(w: World, w': World, subject: nat, sid: nat)
    requires Inv(w) && Attended(w) && Elsewhere(w, w', subject) && sid in w'.sessions && sid != subject
    ensures AttendedAt(w', sid)
  {
    hide Inv;
    InvSession(w, sid);
    assert AttendedAt(w, sid);
  }

  lemma StepAttended(w: World, e: Event)
    requires Inv(w) && Attended(w) && !RecoversOffline(w, e)
    ensures Attended(Step(w, e))
  {
    hide Inv, Step, Subject, RecoversOffline, AttendedAt, Elsewhere;
    StepElsewhere(w, e);
    SubjectAttended(w, e);
    forall sid | sid in Step(w, e).sessions ensures AttendedAt(Step(w, e), sid) {
      if sid != Subject(w, e) {
        ElsewhereAttended(w, Step(w, e), Subject(w, e), sid);
      }
    }
  }

  /** No pair of the run is made whole again while its survivor is offline. */
  ghost predicate OnlineRecoveries(w: World, events: seq<Event>)
    decreases |events|
  {
    events == [] || (!RecoversOffline(w, events[0]) && OnlineRecoveries(Step(w, events[0]), events[1..]))
  }

  lemma {:induction false} RunAttended(w: World, events: seq<Event>)
    requires Inv(w) && Attended(w) && OnlineRecoveries(w, events)
    ensures Inv(Run(w, events)) && Attended(Run(w, events))
    decreases |events|
  {
    hide Inv, Step, RecoversOffline, Attended;
    if events != [] {
      StepKeeps(w, events[0]);
      StepAttended(w, events[0]);
      RunAttended(Step(w, events[0]), events[1..]);
    }
  }

  /**
   * Over every run that recovers no pair whose survivor is offline, a current peer of a pair has a handler waiting: when
   * its connection ends, the pair breaks.
   */
  lemma EveryRunAttended(maxPairs: nat, events: seq<Event>, c: nat)
    requires OnlineRecoveries(Idle(maxPairs), events)
    ensures var w := Run(Idle(maxPairs), events);
      Current(w, c) && w.sessions[w.peers[c].sid].state.Paired? ==>
        && w.peers[c].attended
        && (w.peers[c].done ==>
              var w' := Step(w, Handler(c));
              w.peers[c].sid in w'.sessions && w'.sessions[w.peers[c].sid].state.HalfBroken?)
  {
    hide Run, OnlineRecoveries, Inv, Find, Step;
    IdleInv(maxPairs);
    RunAttended(Idle(maxPairs), events);
    var w := Run(Idle(maxPairs), events);
    if Current(w, c) && w.sessions[w.peers[c].sid].state.Paired? {
      var sid := w.peers[c].sid;
      assert AttendedAt(w, sid);
      assert Slot(w.peers[c].id, c) in w.sessions[sid].slots;
      PairBreaks(w, sid, Handler(c));
    }
  }
}
