/** What the relay tells its peers: over every run, who is sent `joined`, who hears of a partner's return, who is refused. */
module RelayFrames {
  import opened Wrappers
  import opened Relay
  import opened RelayRuns
  import Handshakes
  import PipeClients
  import Rejoins

  /** A current peer whose session has been a pair. */
  predicate Introduced(w: World, c: nat) { Current(w, c) && !w.sessions[w.peers[c].sid].state.Waiting? }

  /** The connections seated in a session that has been a pair. */
  function Seats(w: World, sid: nat): set<nat> {
    if sid in w.sessions && !w.sessions[sid].state.Waiting? then set x | x in w.sessions[sid].slots :: x.conn else {}
  }

  // ---------------------------------------------------------------- seating

  lemma CurrentIff(w: World, sid: nat, d: nat)
    requires sid in w.sessions && SlotsOk(w, sid)
    ensures d in w.peers && w.peers[d].sid == sid && Introduced(w, d) <==> d in Seats(w, sid)
  {
    var slots := w.sessions[sid].slots;
    if d in Seats(w, sid) {
      var x :| x in slots && x.conn == d;
      FindDistinct(slots, x);
    }
  }

  /** The peers that a step names are those of one session. */
  ghost predicate Names(w: World, sid: nat, peers: map<nat, Peer>) {
    forall c :: c in peers ==> peers[c].sid == sid && (c in w.peers ==> w.peers[c].sid == sid)
  }

  /** So after the step the introduced peers are those elsewhere and the ones that are seated here now. */
  lemma UpdateIntroduces(w: World, table: map<string, nat>, sid: nat, s: Session, peers: map<nat, Peer>, d: nat)
    requires Inv(w) && Names(w, sid, peers)
    requires var w' := Update(w, table, sid, s, peers); SessionOk(w', sid)
    ensures var w' := Update(w, table, sid, s, peers);
      Introduced(w', d) <==> (d !in Seats(w, sid) && Introduced(w, d) && d !in peers) || d in Seats(w', sid)
  {
    hide Inv, Find, StateOk;
    var w' := Update(w, table, sid, s, peers);
    CurrentIff(w', sid, d);
    if sid in w.sessions {
      InvSession(w, sid);
      CurrentIff(w, sid, d);
    }
    if d in w.peers {
      InvPeer(w, d);
    }
    hide Seats, SlotsOk;
    if d in w'.peers && w'.peers[d].sid != sid {
      assert d !in peers;
    }
  }

  /** Who is newly introduced: whoever is seated here now and was not before. */
  lemma NewcomersSeated(w: World, table: map<string, nat>, sid: nat, s: Session, peers: map<nat, Peer>, d: nat)
    requires Inv(w) && Names(w, sid, peers) && Inv(Update(w, table, sid, s, peers))
    ensures var w' := Update(w, table, sid, s, peers);
      !Introduced(w, d) && Introduced(w', d) <==> d in Seats(w', sid) && d !in Seats(w, sid)
  {
    hide Inv, Find;
    var w' := Update(w, table, sid, s, peers);
    InvSession(w', sid);
    if d in w.peers {
      InvPeer(w, d);
    }
    UpdateIntroduces(w, table, sid, s, peers, d);
    CurrentIff(w', sid, d);
    if sid in w.sessions {
      InvSession(w, sid);
      CurrentIff(w, sid, d);
    }
  }

  lemma LoneSeat(w: World, sid: nat)
    requires sid in w.sessions && |w.sessions[sid].slots| == 1
    ensures Seats(w, sid) == if w.sessions[sid].state.Waiting? then {} else {w.sessions[sid].slots[0].conn}
  {
    var slots := w.sessions[sid].slots;
    assert slots == [slots[0]];
  }

  lemma TwoSeatsOf(w: World, sid: nat)
    requires sid in w.sessions && |w.sessions[sid].slots| == 2 && !w.sessions[sid].state.Waiting?
    ensures Seats(w, sid) == {w.sessions[sid].slots[0].conn, w.sessions[sid].slots[1].conn}
  {
    var slots := w.sessions[sid].slots;
    assert slots == [slots[0], slots[1]];
    assert slots[0] in slots && slots[1] in slots;
  }

  /** The seats of a session before and after an arrival, by what it finds there. */
  lemma SeatsAfter(w: World, c: nat, code: string, id: string)
    requires Inv(w) && c !in w.peers && c !in w.sessions && code in w.table
    ensures w.table[code] in w.sessions
    ensures var sid, w' := w.table[code], Enter(w, c, code, id).0;
      var s := w.sessions[sid];
      var prev, other := Find(s.slots, id), Other(s.slots, id);
      match s.state
      case Waiting =>
        Seats(w, sid) == {} && (Seats(w', sid) == if prev.Some? then {} else if other.Some? then {other.value, c} else {})
      case Paired =>
        if prev.None? then w' == w
        else other.Some? && Seats(w, sid) == {prev.value, other.value} && Seats(w', sid) == {other.value, c}
      case HalfBroken =>
        if prev.Some? then Seats(w, sid) == {prev.value} && Seats(w', sid) == {c}
        else other.Some? && Seats(w, sid) == {other.value} && Seats(w', sid) == {other.value, c}
  {
    hide Inv, Find, Other, PutSlot, Seats, StateOk;
    InvTable(w, code);
    var sid := w.table[code];
    InvSession(w, sid);
    var s, w' := w.sessions[sid], Enter(w, c, code, id).0;
    SeatsFilled(w, code, id);
    if s.state.Paired? {
      assert |s.slots| == 2 by { PairSize(w, sid); }
      TwoSlots(s.slots, id, c);
      TwoSeatsOf(w, sid);
      if Find(s.slots, id).Some? {
        TwoSeatsOf(w', sid);
      }
    } else {
      assert |s.slots| == 1 by { LoneSize(w, sid); }
      OneSlot(s.slots, id, c);
      LoneSeat(w, sid);
      if Find(s.slots, id).Some? {
        LoneSeat(w', sid);
      } else {
        TwoSeatsOf(w', sid);
      }
    }
  }

  lemma PairSize(w: World, sid: nat)
    requires sid in w.sessions && SessionOk(w, sid) && w.sessions[sid].state.Paired?
    ensures |w.sessions[sid].slots| == 2
  {
  }

  lemma LoneSize(w: World, sid: nat)
    requires sid in w.sessions && SessionOk(w, sid) && InTable(w, sid) && !w.sessions[sid].state.Paired?
    ensures |w.sessions[sid].slots| == 1
  {
  }

  lemma SameWorld(w: World, sid: nat)
    requires sid in w.sessions
    ensures Update(w, w.table, sid, w.sessions[sid], map[]) == w && Names(w, sid, map[])
  {
    assert w.sessions[sid := w.sessions[sid]] == w.sessions && w.peers + map[] == w.peers;
  }

  lemma ReplaceUpdates(w: World, sid: nat, id: string, c: nat, at: nat) returns (s: Session, peers: map<nat, Peer>)
    requires sid in w.sessions && at in w.peers && w.peers[at].sid == sid && c !in w.peers
    ensures ReplaceWaiting(w, sid, id, c, at) == Update(w, w.table, sid, s, peers) && Names(w, sid, peers)
  {
    hide PutSlot;
    var sess, p := w.sessions[sid], w.peers[at];
    s := sess.(slots := PutSlot(sess.slots, id, c));
    peers := map[at := p.StopWatching().(closed := true), c := NewPeer(id, sid).(watcher := Watching)];
  }

  lemma PairUpdates(w: World, sid: nat, id: string, c: nat, at: nat) returns (s: Session, peers: map<nat, Peer>)
    requires sid in w.sessions && at in w.peers && w.peers[at].sid == sid && c !in w.peers
    ensures Pair(w, sid, id, c, at) == Update(w, w.table, sid, s, peers) && Names(w, sid, peers)
  {
    hide PutSlot;
    var sess, p := w.sessions[sid], w.peers[at];
    s := sess.(slots := PutSlot(sess.slots, id, c), state := Paired, ttl := false);
    peers := map[at := p.(watcher := NoWatcher, forward := Running(c)), c := NewPeer(id, sid).(forward := Running(at))];
  }

  lemma SurvivorUpdates(w: World, sid: nat, id: string, c: nat, at: nat) returns (s: Session, peers: map<nat, Peer>)
    requires sid in w.sessions && at in w.peers && w.peers[at].sid == sid && c !in w.peers
    ensures ReplaceSurvivor(w, sid, id, c, at) == Update(w, w.table, sid, s, peers) && Names(w, sid, peers)
  {
    hide PutSlot;
    var sess, p := w.sessions[sid], w.peers[at];
    s := sess.(slots := PutSlot(sess.slots, id, c));
    peers := map[at := p.StopWatching().StopForwarding().(closed := true, done := true), c := NewPeer(id, sid).(watcher := Watching)];
  }

  lemma RecoverUpdates(w: World, sid: nat, id: string, c: nat, at: nat) returns (s: Session, peers: map<nat, Peer>)
    requires sid in w.sessions && at in w.peers && w.peers[at].sid == sid && c !in w.peers
    ensures Recover(w, sid, id, c, at) == Update(w, w.table, sid, s, peers) && Names(w, sid, peers)
  {
    hide PutSlot;
    var sess, p := w.sessions[sid], w.peers[at];
    s := sess.(slots := PutSlot(sess.slots, id, c), state := Paired, grace := false, broken := None);
    peers := map[at := p.(watcher := NoWatcher).Restarted(c), c := NewPeer(id, sid).(forward := Running(at))];
  }

  lemma SwapUpdates(w: World, sid: nat, id: string, c: nat, prev: nat, other: nat)
      returns (s: Session, peers: map<nat, Peer>)
    requires sid in w.sessions && prev in w.peers && w.peers[prev].sid == sid && c !in w.peers
    requires other in w.peers && w.peers[other].sid == sid
    ensures SwapPaired(w, sid, id, c, prev, other) == Update(w, w.table, sid, s, peers) && Names(w, sid, peers)
  {
    hide PutSlot;
    s := w.sessions[sid].(slots := PutSlot(w.sessions[sid].slots, id, c));
    peers := map[prev := w.peers[prev].StopForwarding().(closed := true), other := w.peers[other].Restarted(c),
                 c := NewPeer(id, sid).(forward := Running(other))];
  }

  lemma OpenUpdates(w: World, code: string, id: string, c: nat) returns (s: Session, peers: map<nat, Peer>)
    requires c !in w.peers
    ensures Open(w, code, id, c) == Update(w, w.table[code := c], c, s, peers) && Names(w, c, peers)
  {
    s := Session(code, [Slot(id, c)], Waiting, true, false, None);
    peers := map[c := NewPeer(id, c).(watcher := Watching)];
  }

  /** An arrival that finds a session, or room for one, updates this session and its peers. */
  lemma EnterUpdates(w: World, c: nat, code: string, id: string)
      returns (table: map<string, nat>, s: Session, peers: map<nat, Peer>)
    requires Inv(w) && c !in w.peers && c !in w.sessions && (code in w.table || |w.table| < w.maxPairs)
    ensures var sid := if code in w.table then w.table[code] else c;
      Enter(w, c, code, id).0 == Update(w, table, sid, s, peers) && Names(w, sid, peers)
  {
    hide Inv, Find, Other, SessionOk, Names, Update, Open, ReplaceWaiting, Pair, SwapPaired, ReplaceSurvivor, Recover;
    if code !in w.table {
      table := w.table[code := c];
      s, peers := OpenUpdates(w, code, id, c);
      return;
    }
    InvTable(w, code);
    var sid := w.table[code];
    InvSession(w, sid);
    SeatedAt(w, sid, id);
    SeatsFilled(w, code, id);
    var state := w.sessions[sid].state;
    var prev, other := Find(w.sessions[sid].slots, id), Other(w.sessions[sid].slots, id);
    table := w.table;
    if state.Paired? {
      if prev.Some? {
        s, peers := SwapUpdates(w, sid, id, c, prev.value, other.value);
      } else {
        SameWorld(w, sid);
        s, peers := w.sessions[sid], map[];
      }
    } else if prev.Some? {
      if state.Waiting? {
        s, peers := ReplaceUpdates(w, sid, id, c, prev.value);
      } else {
        s, peers := SurvivorUpdates(w, sid, id, c, prev.value);
      }
    } else {
      if state.Waiting? {
        s, peers := PairUpdates(w, sid, id, c, other.value);
      } else {
        s, peers := RecoverUpdates(w, sid, id, c, other.value);
      }
    }
  }

  /** Who is sent `joined` by an arrival: both of a new pair, and whoever comes back to one. */
  lemma JoinedFrames(w: World, c: nat, code: string, id: string, d: nat)
    requires Inv(w) && c !in w.peers && c !in w.sessions && code in w.table
    ensures w.table[code] in w.sessions
    ensures var s := w.sessions[w.table[code]];
      var prev, other := Find(s.slots, id), Other(s.slots, id);
      var to := match s.state
        case Waiting => if prev.Some? || other.None? then {} else {other.value, c}
        case Paired => if prev.None? then {} else {c}
        case HalfBroken => {c};
      multiset(Enter(w, c, code, id).1)[Frame(d, Joined)] == if d in to then 1 else 0
  {
    hide Inv, Find, Other, Open, ReplaceWaiting, Pair, SwapPaired, ReplaceSurvivor, Recover;
    SeatsFilled(w, code, id);
    var sid := w.table[code];
    SeatedAt(w, sid, id) by { hide *; InvSession(w, sid); }
  }

  lemma NotSeated(w: World, c: nat, sid: nat)
    requires Inv(w) && c !in w.peers
    ensures c !in Seats(w, sid)
  {
    if sid in w.sessions {
      InvSession(w, sid);
      CurrentIff(w, sid, c);
    }
  }

  /** An arrival introduces those whom it seats, and they are the ones that are sent `joined`. */
  lemma EnterJoins(w: World, c: nat, code: string, id: string, d: nat)
    requires Inv(w) && c !in w.peers && c !in w.sessions
    ensures var (w', frames) := Enter(w, c, code, id);
      multiset(frames)[Frame(d, Joined)] == if !Introduced(w, d) && Introduced(w', d) then 1 else 0
  {
    hide Inv, Names, Introduced, Find, Other, Seats, Update;
    if code !in w.table && |w.table| >= w.maxPairs {
      return;
    }
    EnterKeeps(w, c, code, id);
    var table, s, peers := EnterUpdates(w, c, code, id);
    var sid := if code in w.table then w.table[code] else c;
    NewcomersSeated(w, table, sid, s, peers, d);
    if code in w.table {
      SeatsAfter(w, c, code, id);
      SeatsFilled(w, code, id);
      NotSeated(w, c, sid);
      JoinedFrames(w, c, code, id, d);
      hide Enter;
    } else {
      OpenedSeat(w, code, id, c);
      LoneSeat(Open(w, code, id, c), c);
      assert Enter(w, c, code, id) == (Open(w, code, id, c), []);
      hide Enter, Open;
      assert Seats(Open(w, code, id, c), c) == {};
    }
  }

  lemma OpenedSeat(w: World, code: string, id: string, c: nat)
    ensures var w' := Open(w, code, id, c); c in w'.sessions && |w'.sessions[c].slots| == 1 && w'.sessions[c].state.Waiting?
  {
  }

  // ------------------------------------------------------- news of a return

  /** Somebody new sits in the session of `d`, under `id`. */
  ghost predicate NewPartner(w: World, w': World, d: nat, id: string) {
    d in w.peers && w.peers[d].sid in w'.sessions
    && exists x :: x in w'.sessions[w.peers[d].sid].slots && x.id == id && x.conn !in w.peers
  }

  /** A peer that stays while a newcomer takes the seat beside it. */
  ghost predicate HasNews(w: World, w': World, d: nat, id: string) {
    Introduced(w, d) && Current(w', d) && NewPartner(w, w', d, id)
  }

  lemma {:induction false} PutIn(slots: seq<Slot>, id: string, conn: nat)
    ensures Slot(id, conn) in PutSlot(slots, id, conn)
  {
    if slots != [] && slots[0].id != id {
      PutIn(slots[1..], id, conn);
    }
  }

  /** In a session that nobody new has entered there is no new partner. */
  lemma NobodyNew(w: World, w': World, d: nat, id: string)
    requires Inv(w) && d in w.peers
    requires var sid := w.peers[d].sid; sid in w.sessions && sid in w'.sessions ==> w'.sessions[sid].slots == w.sessions[sid].slots
    ensures !NewPartner(w, w', d, id)
  {
    hide Inv, StateOk;
    InvPeer(w, d);
    InvSession(w, w.peers[d].sid);
  }

  lemma OnlyNewcomer(w: World, w': World, d: nat, id: string, sid: nat, newId: string, c: nat)
    requires Inv(w) && d in w.peers && w.peers[d].sid == sid && sid in w.sessions && sid in w'.sessions && c !in w.peers
    requires w'.sessions[sid].slots == PutSlot(w.sessions[sid].slots, newId, c)
    ensures NewPartner(w, w', d, id) <==> id == newId
  {
    hide Inv, StateOk;
    InvSession(w, sid);
    var slots := w.sessions[sid].slots;
    PutIn(slots, newId, c);
    forall x | x in PutSlot(slots, newId, c) && x.conn !in w.peers ensures x == Slot(newId, c) {
      PutSlotFrom(slots, newId, c, x);
    }
  }

  /** Who is sent news of an arrival: the one that was a pair with somebody else in the newcomer's place. */
  lemma NewsFrames(w: World, c: nat, code: string, id: string, d: nat, id': string)
    requires Inv(w) && c !in w.peers && c !in w.sessions && code in w.table
    ensures w.table[code] in w.sessions
    ensures var s := w.sessions[w.table[code]];
      var prev, other := Find(s.slots, id), Other(s.slots, id);
      var to := match s.state
        case Waiting => {}
        case Paired => if prev.None? || other.None? then {} else {other.value}
        case HalfBroken => if prev.Some? || other.None? then {} else {other.value};
      multiset(Enter(w, c, code, id).1)[Frame(d, PartnerReconnected(id'))] == if d in to && id' == id then 1 else 0
  {
    hide Inv, Find, Other, Open, ReplaceWaiting, Pair, SwapPaired, ReplaceSurvivor, Recover;
    SeatsFilled(w, code, id);
    var sid := w.table[code];
    SeatedAt(w, sid, id) by { hide *; InvSession(w, sid); }
  }

  /** Either the newcomer is put into the session, or nothing changes. */
  lemma EnterSlots(w: World, c: nat, code: string, id: string)
    requires Inv(w) && c !in w.peers && c !in w.sessions && code in w.table
    ensures w.table[code] in w.sessions && w.table[code] in Enter(w, c, code, id).0.sessions
    ensures var sid, w' := w.table[code], Enter(w, c, code, id).0;
      var s := w.sessions[sid];
      if s.state.Paired? && Find(s.slots, id).None? then w' == w else w'.sessions[sid].slots == PutSlot(s.slots, id, c)
  {
    hide Inv, Find, Other, PutSlot;
    SeatsFilled(w, code, id);
    var sid := w.table[code];
    SeatedAt(w, sid, id) by { hide *; InvSession(w, sid); }
  }

  /** An arrival tells those of it, once and nobody else, who stay while the newcomer takes the seat beside them. */
  lemma EnterTells(w: World, c: nat, code: string, id: string, d: nat, id': string)
    requires Inv(w) && c !in w.peers && c !in w.sessions
    ensures var (w', frames) := Enter(w, c, code, id);
      multiset(frames)[Frame(d, PartnerReconnected(id'))] == if HasNews(w, w', d, id') then 1 else 0
  {
    var w' := Enter(w, c, code, id).0;
    EnterElsewhere(w, c, code, id);
    if code !in w.table {
      if Introduced(w, d) {
        InvPeer(w, d);
        hide Inv, Current;
        NobodyNew(w, w', d, id');
      }
      return;
    }
    hide Inv, Current, Seats, Find, Other, PutSlot, NewPartner;
    EnterKeeps(w, c, code, id);
    SeatsAfter(w, c, code, id);
    EnterSlots(w, c, code, id);
    NewsFrames(w, c, code, id, d, id');
    SeatsFilled(w, code, id);
    var sid := w.table[code];
    NotSeated(w, c, sid);
    InvSession(w, sid);
    InvSession(w', sid);
    CurrentIff(w, sid, d);
    CurrentIff(w', sid, d);
    hide Enter, SlotsOk, StateOk;
    if Introduced(w, d) {
      assert d in w.peers by { hide *; IntroducedThere(w, d); }
      InvPeer(w, d);
      EnterTame(w, c, code, id);
      if w.peers[d].sid != sid {
        NobodyNew(w, w', d, id');
      } else if w' != w {
        OnlyNewcomer(w, w', d, id', sid, id, c);
      } else {
        NobodyNew(w, w', d, id');
      }
    }
  }

  lemma IntroducedThere(w: World, d: nat)
    ensures Introduced(w, d) ==> d in w.peers
  {
  }

  // ------------------------------------------------------------- every step

  /** Nobody is new, and nobody's session has begun to wait or has ceased to. */
  ghost predicate Calm(w: World, w': World) {
    && w'.peers.Keys == w.peers.Keys && w'.sessions.Keys == w.sessions.Keys
    && forall sid :: sid in w.sessions ==> w'.sessions[sid].state.Waiting? == w.sessions[sid].state.Waiting?
  }

  lemma TaskCalm(w: World, c: nat)
    ensures Calm(w, ForwardEnds(w, c)) && Calm(w, ForwardBlocked(w, c)) && Calm(w, WatchEnds(w, c))
  {
  }

  lemma HandlerCalm(w: World, c: nat)
    ensures Calm(w, Disconnect(w, c))
  {
    hide Dropped, Current;
    if c in w.peers && w.peers[c].done && w.peers[c].attended && Current(w, c) {
      DroppedCalm(w, c);
    }
  }

  lemma DroppedCalm(w: World, c: nat)
    requires Current(w, c)
    ensures Calm(w, Dropped(w, c))
  {
    hide Find, DropSlot, Calm;
    var p := w.peers[c];
    var s := w.sessions[p.sid];
    var gone := p.StopWatching().StopForwarding().(closed := true, attended := false);
    var slots := DropSlot(s.slots, p.id);
    match s.state
    case Waiting => UpdateCalm(w, w.table - {s.code}, p.sid, s.(slots := slots, ttl := false), map[c := gone]);
    case Paired =>
      var s' := s.(slots := slots, state := HalfBroken, broken := Some(p.id), grace := true);
      if slots != [] && slots[0].conn in w.peers {
        UpdateCalm(w, w.table, p.sid, s', map[c := gone, slots[0].conn := Watched(w.peers[slots[0].conn])]);
      } else {
        UpdateCalm(w, w.table, p.sid, s', map[c := gone]);
      }
    case HalfBroken => UpdateCalm(w, w.table, p.sid, s, map[c := gone]);
  }

  lemma UpdateCalm(w: World, table: map<string, nat>, sid: nat, s: Session, peers: map<nat, Peer>)
    requires sid in w.sessions && s.state.Waiting? == w.sessions[sid].state.Waiting?
    requires forall c :: c in peers ==> c in w.peers
    ensures Calm(w, Update(w, table, sid, s, peers))
  {
  }

  lemma TtlCalm(w: World, sid: nat)
    ensures Calm(w, TtlExpires(w, sid).0)
  {
    hide Disconnect, WatchEnds;
    if sid in w.sessions && w.sessions[sid].ttl && w.sessions[sid].slots != [] {
      var c := w.sessions[sid].slots[0].conn;
      TaskCalm(w, c);
      HandlerCalm(WatchEnds(w, c), c);
    }
  }

  /** A step without an arrival brings in no peer, and makes no pair of a waiting session. */
  lemma StepCalm(w: World, e: Event)
    requires !e.Arrival?
    ensures Calm(w, Step(w, e))
  {
    hide Calm, ForwardEnds, ForwardBlocked, WatchEnds, Disconnect, TtlExpires, GraceExpires;
    match e
    case ForwardEnd(c) => TaskCalm(w, c);
    case ForwardBlock(c) => TaskCalm(w, c);
    case WatchEnd(c) => TaskCalm(w, c);
    case Handler(c) => HandlerCalm(w, c);
    case Ttl(sid) => TtlCalm(w, sid);
    case Grace(sid) => GraceCalm(w, sid);
  }

  lemma GraceCalm(w: World, sid: nat)
    ensures Calm(w, GraceExpires(w, sid).0)
  {
  }

  /** Nor does it introduce anybody, or seat anybody new. */
  lemma NobodyIntroduced(w: World, e: Event, d: nat, id: string)
    requires Inv(w) && !e.Arrival?
    ensures Introduced(Step(w, e), d) ==> Introduced(w, d)
    ensures !NewPartner(w, Step(w, e), d, id)
  {
    hide Inv, Step, Find, StateOk;
    StepKeeps(w, e);
    StepTame(w, e);
    var w' := Step(w, e);
    StepCalm(w, e);
    if d in w.peers {
      var sid := w.peers[d].sid;
      if sid in w'.sessions {
        InvSession(w, sid);
        InvSession(w', sid);
        if Introduced(w', d) {
          FindDistinct(w.sessions[sid].slots, Slot(w.peers[d].id, d));
        }
      }
    }
  }

  /** What a step without an arrival sends, if anything, is an abort. */
  lemma OnlyAborts(w: World, e: Event, f: Frame)
    requires !e.Arrival? && !f.kind.Abort?
    ensures multiset(Sends(w, e))[f] == 0
  {
    hide CloseOut;
  }

  /** `joined` is sent in the steps that introduce a peer, to this peer, and once. */
  lemma JoinedIff(w: World, e: Event, d: nat)
    requires Inv(w)
    ensures multiset(Sends(w, e))[Frame(d, Joined)] == if !Introduced(w, d) && Introduced(Step(w, e), d) then 1 else 0
  {
    hide Inv, Introduced, Enter;
    if e.Arrival? {
      if e.c !in w.peers && e.c !in w.sessions && e.first.Join? && e.first.code.Some? && e.first.id.Some? {
        EnterJoins(w, e.c, e.first.code.value, e.first.id.value, d);
      }
    } else {
      NobodyIntroduced(w, e, d, "");
      OnlyAborts(w, e, Frame(d, Joined));
    }
  }

  lemma NoNews(w: World, d: nat, id: string)
    requires Inv(w)
    ensures !HasNews(w, w, d, id)
  {
    hide Inv;
    if d in w.peers {
      NobodyNew(w, w, d, id);
    }
  }

  /**
   * `partner-reconnected` is sent in the steps that put a newcomer into the seat beside a peer of a pair, a swap or a
   * recovery: to the peer that stays, with the newcomer's id, and once.
   */
  lemma NewsIff(w: World, e: Event, d: nat, id: string)
    requires Inv(w)
    ensures multiset(Sends(w, e))[Frame(d, PartnerReconnected(id))] == if HasNews(w, Step(w, e), d, id) then 1 else 0
  {
    hide Inv, HasNews, Enter;
    if e.Arrival? {
      NoNews(w, d, id);
      if e.c !in w.peers && e.c !in w.sessions && e.first.Join? && e.first.code.Some? && e.first.id.Some? {
        EnterTells(w, e.c, e.first.code.value, e.first.id.value, d, id);
      }
    } else {
      NobodyIntroduced(w, e, d, id);
      OnlyAborts(w, e, Frame(d, PartnerReconnected(id)));
      assert !HasNews(w, Step(w, e), d, id) by { NewsNeedsPartner(w, Step(w, e), d, id); }
    }
  }

  lemma NewsNeedsPartner(w: World, w': World, d: nat, id: string)
    ensures HasNews(w, w', d, id) ==> NewPartner(w, w', d, id)
  {
  }

  // --------------------------------------------------------------- every run

  /** All that a run sends. */
  function RunSends(w: World, events: seq<Event>): seq<Frame>
    decreases |events|
  {
    if events == [] then [] else Sends(w, events[0]) + RunSends(Step(w, events[0]), events[1..])
  }

  /** `k` times `joined` so far: none before a peer is introduced, one from then on, and never a second. */
  predicate JoinedSoFar(w: World, c: nat, k: nat) {
    k <= 1 && (c !in w.peers ==> k == 0) && (Current(w, c) ==> k == if Introduced(w, c) then 1 else 0)
  }

  /** A session that has been a pair never waits again. */
  lemma PairStaysMet(w: World, e: Event, sid: nat)
    requires Inv(w) && sid in w.sessions && !w.sessions[sid].state.Waiting?
    ensures sid in Step(w, e).sessions && !Step(w, e).sessions[sid].state.Waiting?
  {
    hide Inv, Step;
    if e.Arrival? {
      ArrivalStaysMet(w, e.c, e.first, sid);
    } else {
      StepCalm(w, e);
    }
  }

  lemma ArrivalStaysMet(w: World, c: nat, first: First, sid: nat)
    requires Inv(w) && sid in w.sessions && !w.sessions[sid].state.Waiting?
    ensures var w' := Step(w, Arrival(c, first)); sid in w'.sessions && !w'.sessions[sid].state.Waiting?
  {
    hide Inv, Enter;
    if c !in w.peers && c !in w.sessions && first.Join? && first.code.Some? && first.id.Some? {
      var code := first.code.value;
      if code in w.table && w.table[code] == sid {
        EnterEngaged(w, code, sid, c, code, first.id.value);
      } else {
        EnterElsewhere(w, c, code, first.id.value);
      }
    }
  }

  lemma StepJoined(w: World, e: Event, c: nat, k: nat)
    requires Inv(w) && JoinedSoFar(w, c, k)
    ensures JoinedSoFar(Step(w, e), c, k + multiset(Sends(w, e))[Frame(c, Joined)])
  {
    hide Inv, Step, Sends, Find;
    JoinedIff(w, e, c);
    StepTame(w, e);
    if c in w.peers && !Current(w, c) {
      StaysReplaced(w, e, c);
    } else if Introduced(w, c) {
      PairStaysMet(w, e, w.peers[c].sid);
    }
  }

  lemma {:induction false} RunJoined(w: World, events: seq<Event>, c: nat, k: nat)
    requires Inv(w) && JoinedSoFar(w, c, k)
    ensures JoinedSoFar(Run(w, events), c, k + multiset(RunSends(w, events))[Frame(c, Joined)])
    decreases |events|
  {
    hide Inv, Step, Sends, JoinedSoFar;
    if events != [] {
      var w', now, more := Step(w, events[0]), Sends(w, events[0]), RunSends(Step(w, events[0]), events[1..]);
      StepKeeps(w, events[0]);
      StepJoined(w, events[0], c, k);
      RunJoined(w', events[1..], c, k + multiset(now)[Frame(c, Joined)]);
      assert multiset(now + more) == multiset(now) + multiset(more);
    }
  }

  /**
   * Over every run each current peer of a pair, broken or not, has been sent `joined` exactly once; one that still waits
   * for its first partner, never; and no connection ever twice.
   */
  lemma JoinedOnce(maxPairs: nat, events: seq<Event>, c: nat)
    ensures var w := Run(Idle(maxPairs), events);
      var k := multiset(RunSends(Idle(maxPairs), events))[Frame(c, Joined)];
      && k <= 1 && (c !in w.peers ==> k == 0)
      && (Current(w, c) ==> k == if w.sessions[w.peers[c].sid].state.Waiting? then 0 else 1)
  {
    hide Run, RunSends, Inv;
    IdleInv(maxPairs);
    RunJoined(Idle(maxPairs), events, c, 0);
  }

  // ------------------------------------------------------- refused, expired

  /** The arrivals that get a seat. */
  predicate Seated(w: World, first: First) {
    && first.Join? && first.code.Some? && |first.code.value| >= MIN_CODE && first.id.Some? && first.id.value != ""
    && if first.code.value !in w.table then |w.table| < w.maxPairs
       else
         var sid := w.table[first.code.value];
         sid in w.sessions && (w.sessions[sid].state.Paired? ==> Find(w.sessions[sid].slots, first.id.value).Some?)
  }

  /**
   * Whoever gets no seat is told so by exactly one abort, and nothing else changes; an unreadable first frame is not
   * answered at all. Whoever gets a seat is not aborted.
   */
  lemma RefusedIff(w: World, c: nat, first: First)
    requires Inv(w) && c !in w.peers && c !in w.sessions
    ensures var w', frames := Step(w, Arrival(c, first)), Sends(w, Arrival(c, first));
      && (c in w'.peers <==> Seated(w, first))
      && (Seated(w, first) ==> forall f :: f in frames ==> !f.kind.Abort?)
      && (!Seated(w, first) && !first.Malformed? ==> w' == w && exists why :: frames == [Frame(c, Abort(why))])
      && (first.Malformed? ==> w' == w && frames == [])
  {
    hide Inv, Find, Other, PutSlot;
    if first.Join? && first.code.Some? && first.id.Some? && first.code.value in w.table {
      SeatsFilled(w, first.code.value, first.id.value);
      var sid := w.table[first.code.value];
      SeatedAt(w, sid, first.id.value) by { hide *; InvSession(w, sid); }
    }
  }

  /** Why, of frames that are not the join of somebody under a code of six characters or more. */
  lemma RefusedBefore(w: World, c: nat, first: First)
    requires c !in w.peers && c !in w.sessions
    ensures var frames := Sends(w, Arrival(c, first));
      && (frames == [Frame(c, Abort("expected join"))] <==> first.NotJoin?)
      && (frames == [Frame(c, Abort("session code too short"))] <==>
            first.Join? && (first.code.None? || |first.code.value| < 6))
      && (frames == [Frame(c, Abort("missing peer_id"))] <==>
            first.Join? && first.code.Some? && |first.code.value| >= 6 && (first.id.None? || first.id.value == ""))
  {
    hide Find, Other, PutSlot;
    Reasons();
  }

  lemma Reasons()
    ensures |"expected join"| == 13 && |"session code too short"| == 22 && |"missing peer_id"| == 15
    ensures |"relay full"| == 10 && |"code in use"| == 11
  {
  }

  /** Why: the relay is full, or the code belongs to a pair of two others. */
  lemma RefusedWhy(w: World, c: nat, code: string, id: string)
    requires Inv(w) && c !in w.peers && c !in w.sessions && |code| >= MIN_CODE && id != ""
    ensures var frames := Sends(w, Arrival(c, Join(Some(code), Some(id))));
      && (frames == [Frame(c, Abort("relay full"))] <==> code !in w.table && |w.table| == w.maxPairs)
      && (frames == [Frame(c, Abort("code in use"))] <==>
            code in w.table && w.table[code] in w.sessions && w.sessions[w.table[code]].state.Paired?
            && Find(w.sessions[w.table[code]].slots, id).None?)
  {
    hide Find, Other, PutSlot, SessionOk, PeerOk;
    if code in w.table {
      SeatsFilled(w, code, id);
      var sid := w.table[code];
      SeatedAt(w, sid, id) by { hide *; InvSession(w, sid); }
    }
  }

  /**
   * A code leaves the table in three ways: its lone peer has waited too long for a partner, or for the partner's return,
   * and is told which; or it has left by itself, and nobody is told anything.
   */
  lemma ExpiryTold(w: World, e: Event, code: string)
    requires Inv(w) && code in w.table && code !in Step(w, e).table
    ensures w.table[code] in w.sessions && w.sessions[w.table[code]].slots != []
    ensures var sid := w.table[code];
      var c := w.sessions[sid].slots[0].conn;
      || (e == Ttl(sid) && Sends(w, e) == [Frame(c, Abort("no partner"))])
      || (e == Grace(sid) && Sends(w, e) == [Frame(c, Abort("partner did not return"))])
      || (e == Handler(c) && Sends(w, e) == [])
  {
    hide Inv, Enter, Disconnect, TtlExpires, GraceExpires, SessionOk, InTable;
    InvTable(w, code);
    InvSession(w, w.table[code]);
    TableSeated(w, w.table[code]);
    match e {
      case Arrival(c, first) =>
        if c !in w.peers && c !in w.sessions && first.Join? && first.code.Some? && first.id.Some? {
          EnterTable(w, c, first.code.value, first.id.value, code);
        }
      case Handler(c) => HandlerLeaves(w, c, code);
      case Ttl(sid) =>
        if sid in w.sessions && w.sessions[sid].ttl {
          TtlCloses(w, sid);
          CodeOf(w, sid);
          assert TtlExpires(w, sid).1 == [Frame(w.sessions[sid].slots[0].conn, Abort("no partner"))] by { TtlTells(w, sid); }
        } else {
          TtlIdle(w, sid);
        }
      case Grace(sid) =>
        if sid in w.sessions && w.sessions[sid].grace {
          GraceCloses(w, sid);
          CodeOf(w, sid);
        }
        GraceTells(w, sid);
      case _ =>
    }
  }

  lemma EnterTable(w: World, c: nat, at: string, id: string, code: string)
    requires code in w.table
    ensures code in Enter(w, c, at, id).0.table
  {
    hide Find, Other, PutSlot;
  }

  lemma TableSeated(w: World, sid: nat)
    requires sid in w.sessions && SessionOk(w, sid) && InTable(w, sid)
    ensures w.sessions[sid].slots != []
  {
  }

  lemma CodeOf(w: World, sid: nat)
    requires sid in w.sessions && InTable(w, sid)
    ensures w.sessions[sid].code in w.table && w.table[w.sessions[sid].code] == sid
  {
  }

  lemma TtlTells(w: World, sid: nat)
    requires sid in w.sessions && w.sessions[sid].ttl && w.sessions[sid].slots != []
    ensures TtlExpires(w, sid).1 == [Frame(w.sessions[sid].slots[0].conn, Abort("no partner"))]
  {
    hide CloseOut;
  }

  lemma GraceTells(w: World, sid: nat)
    ensures if sid in w.sessions && w.sessions[sid].grace && w.sessions[sid].slots != [] then
              GraceExpires(w, sid).1 == [Frame(w.sessions[sid].slots[0].conn, Abort("partner did not return"))]
            else GraceExpires(w, sid) == (w, [])
  {
  }

  /** A handler takes only the session of its own, waiting peer out of the table. */
  lemma HandlerLeaves(w: World, c: nat, code: string)
    requires Inv(w) && code in w.table && code !in Disconnect(w, c).table
    ensures w.table[code] in w.sessions && w.sessions[w.table[code]].slots != []
    ensures w.sessions[w.table[code]].slots[0].conn == c
  {
    hide Inv, Find, DropSlot;
    var sid := w.peers[c].sid;
    InvTable(w, code);
    InvSession(w, sid);
    InvSession(w, w.table[code]);
    OneSlot(w.sessions[sid].slots, w.peers[c].id, c);
  }

  // ------------------------------------------------- as the clients see it

  function Message(k: Kind): PipeClients.Frame {
    match k
    case Joined => PipeClients.Joined
    case PartnerReconnected(id) => PipeClients.PartnerReconnected(id)
    case Abort(reason) => PipeClients.Abort(reason)
  }

  /** What of it goes to one connection. */
  function SentTo(frames: seq<Frame>, c: nat): seq<PipeClients.Frame> {
    if frames == [] then []
    else (if frames[0].to == c then [Message(frames[0].kind)] else []) + SentTo(frames[1..], c)
  }

  lemma SentOne(f: Frame, c: nat)
    ensures SentTo([f], c) == if f.to == c then [Message(f.kind)] else []
  {
    assert [f][1..] == [];
  }

  lemma SentTwo(f: Frame, g: Frame, c: nat)
    requires f.to != g.to
    ensures SentTo([f, g], c) == if f.to == c then [Message(f.kind)] else if g.to == c then [Message(g.kind)] else []
  {
    hide Message;
    assert [f, g][1..] == [g];
    SentOne(g, c);
  }

  predicate Arriving(w: World, c: nat, code: string, id: string) {
    c !in w.peers && c !in w.sessions && |code| >= MIN_CODE && id != ""
  }

  function Arrives(c: nat, code: string, id: string): Event { Arrival(c, Join(Some(code), Some(id))) }

  /** An arrival that opens a session puts nothing on the link, as in the handshake before both are there. */
  lemma OpeningLinks(w: World, c: nat, code: string, id: string, n: Handshakes.Net)
    requires Arriving(w, c, code, id) && code !in w.table && |w.table| < w.maxPairs
    requires !n.a.arrived && n.a.up != [] && n.a.up[0].Join? && !n.b.arrived
    ensures var n' := Handshakes.Act(n, Handshakes.Arrive);
      n'.a.down == n.a.down + SentTo(Sends(w, Arrives(c, code, id)), c) && n'.b == n.b
  {
    assert n.a.down + [] == n.a.down;
  }

  /** The arrival that makes a pair puts on the two links of the handshake exactly what the relay sends. */
  lemma PairingLinks(w: World, c: nat, other: nat, code: string, id: string, n: Handshakes.Net)
    requires Inv(w) && Arriving(w, c, code, id) && code in w.table && w.table[code] in w.sessions
    requires var s := w.sessions[w.table[code]]; s.state.Waiting? && Find(s.slots, id).None? && Other(s.slots, id) == Some(other)
    requires !n.a.arrived && n.a.up != [] && n.a.up[0].Join? && n.b.arrived
    ensures var frames, n' := Sends(w, Arrives(c, code, id)), Handshakes.Act(n, Handshakes.Arrive);
      n'.a.down == n.a.down + SentTo(frames, c) && n'.b.down == n.b.down + SentTo(frames, other)
  {
    hide Inv, Find, Other, Pair;
    SeatsFilled(w, code, id);
    var frames := [Frame(other, Joined), Frame(c, Joined)];
    assert Sends(w, Arrives(c, code, id)) == frames;
    SentTwo(frames[0], frames[1], c);
    SentTwo(frames[0], frames[1], other);
  }

  /** And the return of one of the two, on the same socket's place or to a broken pair, what `Rejoins` puts on them. */
  lemma ReturningLinks(w: World, c: nat, other: nat, code: string, id: string, l: Rejoins.Line)
    requires Inv(w) && Arriving(w, c, code, id) && code in w.table && w.table[code] in w.sessions
    requires var s := w.sessions[w.table[code]];
      && ((s.state.Paired? && Find(s.slots, id).Some?) || (s.state.HalfBroken? && Find(s.slots, id).None?))
      && Other(s.slots, id) == Some(other)
    requires l.a.up != [] && l.a.up[0].Join? && l.a.up[0].peerId == id && l.b.arrived
    ensures var frames, l' := Sends(w, Arrives(c, code, id)), Rejoins.Return(l);
      l'.a.down == l.a.down + SentTo(frames, c) && l'.b.down == l.b.down + SentTo(frames, other)
  {
    hide Inv, Find, Other, SwapPaired, Recover;
    SeatsFilled(w, code, id);
    var sid := w.table[code];
    SeatedAt(w, sid, id) by { hide *; InvSession(w, sid); }
    var frames := [Frame(other, PartnerReconnected(id)), Frame(c, Joined)];
    assert Sends(w, Arrives(c, code, id)) == frames;
    SentTwo(frames[0], frames[1], c);
    SentTwo(frames[0], frames[1], other);
  }
}
