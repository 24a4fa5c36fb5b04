/**
 * The relay of relay/relay/server.py. A step is an arrival up to the wait for its end, the end of one reading task, one
 * `_on_peer_disconnect`, or the body of one timer. Peers and sessions are objects of the source; here they are entries
 * of two heaps, so that a task, a handler or a forwarder keeps naming the object it was started with.
 */
module Relay {
  import opened Wrappers

  const MIN_CODE := 6

  /** A peer's forwarding task: never started or forgotten, running towards another peer object, or over. */
  datatype Forwarder = NoForwarder | Running(dst: nat) | Finished

  datatype Watcher = NoWatcher | Watching | Stopped

  /** `attended`: its `handle_client` still waits for `done`. */
  datatype Peer = Peer(id: string, sid: nat, forward: Forwarder, watcher: Watcher, done: bool, attended: bool, closed: bool)
  {
    predicate Reading() { forward.Running? || watcher.Watching? }

    function StopWatching(): Peer { if watcher.Watching? then this.(watcher := Stopped) else this }

    function StopForwarding(): Peer { if forward.Running? then this.(forward := Finished) else this }

    /** A peer whose forwarding task has ended, or never ran, gets a new one towards `dst`. */
    function Restarted(dst: nat): Peer { if forward.Running? then this else this.(forward := Running(dst)) }
  }

  function NewPeer(id: string, sid: nat): Peer { Peer(id, sid, NoForwarder, NoWatcher, false, true, false) }

  /** An entry of `sess.peers`, which keeps insertion order. */
  datatype Slot = Slot(id: string, conn: nat)

  datatype State = Waiting | Paired | HalfBroken

  datatype Session = Session(code: string, slots: seq<Slot>, state: State, ttl: bool, grace: bool, broken: Option<string>)

  /** A peer object is named by its connection, a session object by the connection that opened it. */
  datatype World = World(maxPairs: nat, table: map<string, nat>, sessions: map<nat, Session>, peers: map<nat, Peer>)

  datatype Kind = Joined | PartnerReconnected(id: string) | Abort(reason: string)

  datatype Frame = Frame(to: nat, kind: Kind)

  function Find(slots: seq<Slot>, id: string): (r: Option<nat>)
    ensures r.Some? ==> exists i :: 0 <= i < |slots| && slots[i] == Slot(id, r.value)
    ensures r.None? ==> forall i :: 0 <= i < |slots| ==> slots[i].id != id
  {
    if slots == [] then None else if slots[0].id == id then Some(slots[0].conn) else Find(slots[1..], id)
  }

  /** `sess.peers[id] = peer`. */
  function PutSlot(slots: seq<Slot>, id: string, conn: nat): seq<Slot> {
    if slots == [] then [Slot(id, conn)]
    else if slots[0].id == id then [Slot(id, conn)] + slots[1..]
    else [slots[0]] + PutSlot(slots[1..], id, conn)
  }

  function DropSlot(slots: seq<Slot>, id: string): seq<Slot> {
    if slots == [] then [] else if slots[0].id == id then slots[1..] else [slots[0]] + DropSlot(slots[1..], id)
  }

  /** The first peer under another id. */
  function Other(slots: seq<Slot>, id: string): Option<nat> {
    if slots == [] then None else if slots[0].id != id then Some(slots[0].conn) else Other(slots[1..], id)
  }

  // ------------------------------------------------------------ invariants

  /** The peer object sits in its session under its id. */
  predicate Current(w: World, c: nat) {
    c in w.peers && w.peers[c].sid in w.sessions && Find(w.sessions[w.peers[c].sid].slots, w.peers[c].id) == Some(c)
  }

  ghost predicate SlotsOk(w: World, sid: nat)
    requires sid in w.sessions
  {
    var slots := w.sessions[sid].slots;
    && (forall i :: 0 <= i < |slots| ==>
          slots[i].conn in w.peers && w.peers[slots[i].conn].sid == sid && w.peers[slots[i].conn].id == slots[i].id)
    && forall i, j :: 0 <= i < j < |slots| ==> slots[i].id != slots[j].id
  }

  predicate InTable(w: World, sid: nat)
    requires sid in w.sessions
  {
    w.sessions[sid].code in w.table && w.table[w.sessions[sid].code] == sid
  }

  /** A lone peer: its handler is there, and its end is watched or already known. */
  predicate Waits(p: Peer) { p.forward.NoForwarder? && p.attended && (p.watcher.Watching? || p.done) }

  /** What the states mean: how many peers, which timer runs, who reads. */
  ghost predicate StateOk(w: World, sid: nat)
    requires sid in w.sessions && SlotsOk(w, sid)
  {
    var s := w.sessions[sid];
    match s.state
    case Waiting =>
      && s.broken.None? && !s.grace && s.ttl == InTable(w, sid)
      && (if InTable(w, sid) then |s.slots| == 1 && Waits(w.peers[s.slots[0].conn]) else s.slots == [])
    case Paired =>
      && s.broken.None? && !s.grace && !s.ttl && InTable(w, sid) && |s.slots| == 2
      && w.peers[s.slots[0].conn].watcher.NoWatcher? && w.peers[s.slots[1].conn].watcher.NoWatcher?
    case HalfBroken =>
      && s.broken.Some? && s.grace == InTable(w, sid) && !s.ttl && |s.slots| == 1
      && w.peers[s.slots[0].conn].forward.NoForwarder?
      && (w.peers[s.slots[0].conn].watcher.Watching? || w.peers[s.slots[0].conn].done)
  }

  /** One reading task at most per socket, and none on a socket that was replaced or dropped, which is closed. */
  ghost predicate PeerOk(w: World, c: nat)
    requires c in w.peers
  {
    var p := w.peers[c];
    && p.sid in w.sessions
    && !(p.forward.Running? && p.watcher.Watching?)
    && (!Current(w, c) ==> !p.Reading() && p.closed)
  }

  ghost predicate SessionOk(w: World, sid: nat)
    requires sid in w.sessions
  {
    SlotsOk(w, sid) && StateOk(w, sid)
  }

  ghost predicate Inv(w: World) {
    && (forall code :: code in w.table ==> w.table[code] in w.sessions && w.sessions[w.table[code]].code == code)
    && (forall sid :: sid in w.sessions ==> SessionOk(w, sid))
    && (forall c :: c in w.peers ==> PeerOk(w, c))
    && |w.table| <= w.maxPairs
  }

  // --------------------------------------------------------------- arrivals

  /** One session, some of its peers, and the table change. */
  function Update(w: World, table: map<string, nat>, sid: nat, s: Session, peers: map<nat, Peer>): World {
    w.(table := table, sessions := w.sessions[sid := s], peers := w.peers + peers)
  }

  function Open(w: World, code: string, id: string, c: nat): World {
    Update(w, w.table[code := c], c, Session(code, [Slot(id, c)], Waiting, true, false, None),
           map[c := NewPeer(id, c).(watcher := Watching)])
  }

  /** The waiting peer comes back on a new socket. */
  function ReplaceWaiting(w: World, sid: nat, id: string, c: nat, prev: nat): World
    requires sid in w.sessions && prev in w.peers
  {
    var s := w.sessions[sid];
    Update(w, w.table, sid, s.(slots := PutSlot(s.slots, id, c)),
           map[prev := w.peers[prev].StopWatching().(closed := true), c := NewPeer(id, sid).(watcher := Watching)])
  }

  /** The second peer arrives. */
  function Pair(w: World, sid: nat, id: string, c: nat, other: nat): World
    requires sid in w.sessions && other in w.peers
  {
    var s := w.sessions[sid];
    Update(w, w.table, sid, s.(slots := PutSlot(s.slots, id, c), state := Paired, ttl := false),
           map[other := w.peers[other].(watcher := NoWatcher, forward := Running(c)),
               c := NewPeer(id, sid).(forward := Running(other))])
  }

  /** A paired peer comes back on a new socket. */
  function SwapPaired(w: World, sid: nat, id: string, c: nat, prev: nat, other: nat): World
    requires sid in w.sessions && prev in w.peers && other in w.peers
  {
    var s := w.sessions[sid];
    Update(w, w.table, sid, s.(slots := PutSlot(s.slots, id, c)),
           map[prev := w.peers[prev].StopForwarding().(closed := true), other := w.peers[other].Restarted(c),
               c := NewPeer(id, sid).(forward := Running(other))])
  }

  /** The survivor of a broken pair comes back on a new socket. */
  function ReplaceSurvivor(w: World, sid: nat, id: string, c: nat, prev: nat): World
    requires sid in w.sessions && prev in w.peers
  {
    var s := w.sessions[sid];
    Update(w, w.table, sid, s.(slots := PutSlot(s.slots, id, c)),
           map[prev := w.peers[prev].StopWatching().StopForwarding().(closed := true, done := true),
               c := NewPeer(id, sid).(watcher := Watching)])
  }

  /** Somebody else joins the survivor: the pair is whole again. */
  function Recover(w: World, sid: nat, id: string, c: nat, other: nat): World
    requires sid in w.sessions && other in w.peers
  {
    var s := w.sessions[sid];
    Update(w, w.table, sid, s.(slots := PutSlot(s.slots, id, c), state := Paired, grace := false, broken := None),
           map[other := w.peers[other].(watcher := NoWatcher).Restarted(c),
               c := NewPeer(id, sid).(forward := Running(other))])
  }

  /** The first frame of a connection: unreadable, something else, or a join whose fields may not be strings. */
  datatype First = Malformed | NotJoin | Join(code: Option<string>, id: Option<string>)

  function Enter(w: World, c: nat, code: string, id: string): (World, seq<Frame>) {
    if code !in w.table then
      if |w.table| >= w.maxPairs then (w, [Frame(c, Abort("relay full"))]) else (Open(w, code, id, c), [])
    else
      var sid := w.table[code];
      if sid !in w.sessions then (w, [])
      else
        var s := w.sessions[sid];
        var prev, other := Find(s.slots, id), Other(s.slots, id);
        match s.state
        case Waiting =>
          if prev.Some? && prev.value in w.peers then (ReplaceWaiting(w, sid, id, c, prev.value), [])
          else if other.Some? && other.value in w.peers then
            (Pair(w, sid, id, c, other.value), [Frame(other.value, Joined), Frame(c, Joined)])
          else (w, [])
        case Paired =>
          if prev.None? then (w, [Frame(c, Abort("code in use"))])
          else if prev.value in w.peers && other.Some? && other.value in w.peers then
            (SwapPaired(w, sid, id, c, prev.value, other.value), [Frame(other.value, PartnerReconnected(id)), Frame(c, Joined)])
          else (w, [])
        case HalfBroken =>
          if prev.Some? && prev.value in w.peers then (ReplaceSurvivor(w, sid, id, c, prev.value), [Frame(c, Joined)])
          else if other.Some? && other.value in w.peers then
            (Recover(w, sid, id, c, other.value), [Frame(other.value, PartnerReconnected(id)), Frame(c, Joined)])
          else (w, [])
  }

  /** `handle_client`, up to its wait. */
  function Arrive(w: World, c: nat, first: First): (World, seq<Frame>) {
    match first
    case Malformed => (w, [])
    case NotJoin => (w, [Frame(c, Abort("expected join"))])
    case Join(code, id) =>
      if code.None? || |code.value| < MIN_CODE then (w, [Frame(c, Abort("session code too short"))])
      else if id.None? || id.value == "" then (w, [Frame(c, Abort("missing peer_id"))])
      else Enter(w, c, code.value, id.value)
  }

  // ----------------------------------------------------- tasks, ends, timers

  /** A forwarder's read ends: its own peer is gone. */
  function ForwardEnds(w: World, c: nat): World {
    if c in w.peers && w.peers[c].forward.Running? then
      w.(peers := w.peers[c := w.peers[c].(forward := Finished, done := true)])
    else w
  }

  /** A forwarder's write fails: it leaves quietly. */
  function ForwardBlocked(w: World, c: nat): World {
    if c in w.peers && w.peers[c].forward.Running? then w.(peers := w.peers[c := w.peers[c].(forward := Finished)]) else w
  }

  function WatchEnds(w: World, c: nat): World {
    if c in w.peers && w.peers[c].watcher.Watching? then
      w.(peers := w.peers[c := w.peers[c].(watcher := Stopped, done := true)])
    else w
  }

  /** The survivor's forwarder is dropped and a watcher takes over. */
  function Watched(p: Peer): Peer { if p.watcher.NoWatcher? then p.(forward := NoForwarder, watcher := Watching) else p }

  /** `_on_peer_disconnect` for a peer that still sits in its session. */
  function Dropped(w: World, c: nat): World
    requires Current(w, c)
  {
    var p := w.peers[c];
    var s := w.sessions[p.sid];
    var gone := p.StopWatching().StopForwarding().(closed := true, attended := false);
    var slots := DropSlot(s.slots, p.id);
    match s.state
    case Waiting => Update(w, w.table - {s.code}, p.sid, s.(slots := slots, ttl := false), map[c := gone])
    case Paired =>
      var s' := s.(slots := slots, state := HalfBroken, broken := Some(p.id), grace := true);
      if slots != [] && slots[0].conn in w.peers then
        Update(w, w.table, p.sid, s', map[c := gone, slots[0].conn := Watched(w.peers[slots[0].conn])])
      else Update(w, w.table, p.sid, s', map[c := gone])
    case HalfBroken => Update(w, w.table, p.sid, s, map[c := gone])
  }

  /** The handler of a peer wakes up and runs `_on_peer_disconnect`. */
  function Disconnect(w: World, c: nat): World {
    if c !in w.peers || !w.peers[c].done || !w.peers[c].attended then w
    else if !Current(w, c) then w.(peers := w.peers[c := w.peers[c].(attended := false)])
    else Dropped(w, c)
  }

  /** The connection of a peer is closed from this side: its watcher sees the end, and its handler runs. */
  function CloseOut(w: World, c: nat): World {
    Disconnect(WatchEnds(w, c), c)
  }

  /** `_ttl_expire`, with the disconnect of the peer it closes. */
  function TtlExpires(w: World, sid: nat): (World, seq<Frame>) {
    if sid !in w.sessions || !w.sessions[sid].ttl || w.sessions[sid].slots == [] then (w, [])
    else
      var c := w.sessions[sid].slots[0].conn;
      (CloseOut(w, c).(table := w.table - {w.sessions[sid].code}), [Frame(c, Abort("no partner"))])
  }

  /** `_grace_expire`. */
  function GraceExpires(w: World, sid: nat): (World, seq<Frame>) {
    if sid !in w.sessions || !w.sessions[sid].grace || w.sessions[sid].slots == [] then (w, [])
    else
      var c := w.sessions[sid].slots[0].conn;
      (Update(w, w.table - {w.sessions[sid].code}, sid, w.sessions[sid].(grace := false), map[]),
       [Frame(c, Abort("partner did not return"))])
  }

  datatype Event =
    | Arrival(c: nat, first: First)
    | ForwardEnd(c: nat) | ForwardBlock(c: nat) | WatchEnd(c: nat)
    | Handler(c: nat)
    | Ttl(sid: nat) | Grace(sid: nat)

  function Step(w: World, e: Event): World {
    match e
    case Arrival(c, first) => if c in w.peers || c in w.sessions then w else Arrive(w, c, first).0
    case ForwardEnd(c) => ForwardEnds(w, c)
    case ForwardBlock(c) => ForwardBlocked(w, c)
    case WatchEnd(c) => WatchEnds(w, c)
    case Handler(c) => Disconnect(w, c)
    case Ttl(sid) => TtlExpires(w, sid).0
    case Grace(sid) => GraceExpires(w, sid).0
  }

  /** The frames that a step sends. */
  function Sends(w: World, e: Event): seq<Frame> {
    match e
    case Arrival(c, first) => if c in w.peers || c in w.sessions then [] else Arrive(w, c, first).1
    case Ttl(sid) => TtlExpires(w, sid).1
    case Grace(sid) => GraceExpires(w, sid).1
    case _ => []
  }

  // ------------------------------------------------- short lists of slots

  lemma OneSlot(slots: seq<Slot>, id: string, conn: nat)
    requires |slots| == 1
    ensures Find(slots, id) == if slots[0].id == id then Some(slots[0].conn) else None
    ensures Other(slots, id) == if slots[0].id != id then Some(slots[0].conn) else None
    ensures PutSlot(slots, id, conn) == if slots[0].id == id then [Slot(id, conn)] else [slots[0], Slot(id, conn)]
    ensures DropSlot(slots, id) == if slots[0].id == id then [] else slots
  {
    assert slots[1..] == [];
    assert [slots[0]] + [] == slots;
  }

  lemma TwoSlots(slots: seq<Slot>, id: string, conn: nat)
    requires |slots| == 2 && slots[0].id != slots[1].id
    ensures Find(slots, id) ==
            if slots[0].id == id then Some(slots[0].conn) else if slots[1].id == id then Some(slots[1].conn) else None
    ensures slots[0].id == id ==> Other(slots, id) == Some(slots[1].conn)
    ensures slots[0].id != id ==> Other(slots, id) == Some(slots[0].conn)
    ensures slots[0].id == id ==> PutSlot(slots, id, conn) == [Slot(id, conn), slots[1]] && DropSlot(slots, id) == [slots[1]]
    ensures slots[1].id == id ==> PutSlot(slots, id, conn) == [slots[0], Slot(id, conn)] && DropSlot(slots, id) == [slots[0]]
  {
    var rest := slots[1..];
    OneSlot(rest, id, conn);
    assert slots == [slots[0], slots[1]] && rest == [slots[1]];
  }

  // ---------------------------------------------------- one session at work

  /** The step is a matter of one session: other sessions, their peers and their places in the table stay. */
  ghost predicate Local(w: World, w': World, sid: nat) {
    && w'.maxPairs == w.maxPairs
    && (forall code :: code in w.table && w.table[code] != sid ==> code in w'.table && w'.table[code] == w.table[code])
    && (forall code :: code in w'.table && w'.table[code] != sid ==> code in w.table && w.table[code] == w'.table[code])
    && (forall o :: o in w.sessions && o != sid ==> o in w'.sessions && w'.sessions[o] == w.sessions[o])
    && (forall o :: o in w'.sessions && o != sid ==> o in w.sessions)
    && (forall c :: c in w.peers && w.peers[c].sid != sid ==> c in w'.peers && w'.peers[c] == w.peers[c])
    && (forall c :: c in w'.peers && w'.peers[c].sid != sid ==> c in w.peers && w.peers[c] == w'.peers[c])
  }

  /** The invariant, as far as one session is concerned. */
  ghost predicate SessionInv(w: World, sid: nat) {
    && sid in w.sessions && SessionOk(w, sid)
    && (forall code :: code in w.table && w.table[code] == sid ==> w.sessions[sid].code == code)
    && (forall c :: c in w.peers && w.peers[c].sid == sid ==> PeerOk(w, c))
    && |w.table| <= w.maxPairs
  }

  lemma OtherSessionOk(w: World, w': World, sid: nat, o: nat)
    requires Inv(w) && Local(w, w', sid) && o in w'.sessions && o != sid
    ensures SessionOk(w', o)
  {
    assert SessionOk(w, o);
    assert InTable(w', o) == InTable(w, o);
  }

  lemma OtherPeerOk(w: World, w': World, sid: nat, c: nat)
    requires Inv(w) && Local(w, w', sid) && c in w'.peers && w'.peers[c].sid != sid
    ensures PeerOk(w', c)
  {
    assert PeerOk(w, c);
  }

  lemma LocalKeeps(w: World, w': World, sid: nat)
    requires Inv(w) && Local(w, w', sid) && SessionInv(w', sid)
    ensures Inv(w')
  {
    forall o | o in w'.sessions ensures SessionOk(w', o) {
      if o != sid {
        OtherSessionOk(w, w', sid, o);
      }
    }
    forall c | c in w'.peers ensures PeerOk(w', c) {
      if w'.peers[c].sid != sid {
        OtherPeerOk(w, w', sid, c);
      }
    }
  }

  /** A step leaves the table alone, or takes the session out of it, or puts a new one in. */
  ghost predicate TableStep(w: World, table: map<string, nat>, sid: nat, s: Session) {
    || (sid in w.sessions && w.sessions[sid].code == s.code && table == w.table)
    || (sid in w.sessions && InTable(w, sid) && w.sessions[sid].code == s.code && table == w.table - {s.code})
    || (sid !in w.sessions && s.code !in w.table && table == w.table[s.code := sid] && |w.table| < w.maxPairs)
  }

  /** The step is a matter of the peers it names: the session's former seats among them. */
  ghost predicate PeersStep(w: World, sid: nat, peers: map<nat, Peer>) {
    && (forall c :: c in peers ==> peers[c].sid == sid && (c in w.peers ==> w.peers[c].sid == sid))
    && (sid in w.sessions ==> forall i :: 0 <= i < |w.sessions[sid].slots| ==> w.sessions[sid].slots[i].conn in peers)
  }

  lemma {:induction false} Smaller(table: map<string, nat>, code: string)
    ensures |table - {code}| <= |table|
  {
    if code in table {
      var rest := table - {code};
      assert table == rest[code := table[code]];
    } else {
      assert table - {code} == table;
    }
  }

  lemma UpdateLocal(w: World, table: map<string, nat>, sid: nat, s: Session, peers: map<nat, Peer>)
    requires TableStep(w, table, sid, s) && PeersStep(w, sid, peers)
    ensures Local(w, Update(w, table, sid, s, peers), sid)
  {
    var w' := Update(w, table, sid, s, peers);
    forall c | c in w'.peers && w'.peers[c].sid != sid ensures c in w.peers && w.peers[c] == w'.peers[c] {
      assert c !in peers;
    }
    forall c | c in w.peers && w.peers[c].sid != sid ensures c in w'.peers && w'.peers[c] == w.peers[c] {
      assert c !in peers;
    }
  }

  lemma InvSession(w: World, sid: nat)
    requires Inv(w) && sid in w.sessions
    ensures SessionOk(w, sid)
  {
  }

  lemma InvPeer(w: World, c: nat)
    requires Inv(w) && c in w.peers
    ensures PeerOk(w, c)
  {
  }

  lemma InvTable(w: World, code: string)
    requires Inv(w) && code in w.table
    ensures w.table[code] in w.sessions && w.sessions[w.table[code]].code == code && InTable(w, w.table[code])
  {
  }

  lemma UpdateTable(w: World, table: map<string, nat>, sid: nat, s: Session)
    requires Inv(w) && TableStep(w, table, sid, s)
    ensures |table| <= w.maxPairs && forall code :: code in table && table[code] == sid ==> s.code == code
  {
    Smaller(w.table, s.code);
  }

  /** A peer that the step does not name was not seated in the session, and is still closed and unread. */
  lemma UnnamedPeerOk(w: World, table: map<string, nat>, sid: nat, s: Session, peers: map<nat, Peer>, c: nat)
    requires Inv(w) && PeersStep(w, sid, peers) && c in w.peers && w.peers[c].sid == sid && c !in peers
    ensures PeerOk(Update(w, table, sid, s, peers), c)
  {
    assert PeerOk(w, c);
    if Current(w, c) {
      assert false;
    }
  }

  /** So a step need only look after its session and the peers it names. */
  lemma UpdateKeeps(w: World, table: map<string, nat>, sid: nat, s: Session, peers: map<nat, Peer>)
    requires Inv(w) && TableStep(w, table, sid, s) && PeersStep(w, sid, peers)
    requires var w' := Update(w, table, sid, s, peers); SessionOk(w', sid) && forall c :: c in peers ==> PeerOk(w', c)
    ensures Inv(Update(w, table, sid, s, peers))
  {
    hide Inv, SessionOk, PeerOk, Local, PeersStep, TableStep;
    var w' := Update(w, table, sid, s, peers);
    UpdateLocal(w, table, sid, s, peers);
    UpdateTable(w, table, sid, s);
    forall c | c in w'.peers && w'.peers[c].sid == sid ensures PeerOk(w', c) {
      if c !in peers {
        UnnamedPeerOk(w, table, sid, s, peers, c);
      }
    }
    LocalKeeps(w, w', sid);
  }

  // --------------------------------------------------------------- arrivals

  lemma OpenSeat(w: World, code: string, id: string, c: nat)
    requires c !in w.peers
    ensures var w' := Open(w, code, id, c); SessionOk(w', c) && PeerOk(w', c)
  {
    OneSlot([Slot(id, c)], id, c);
  }

  lemma OpenKeeps(w: World, code: string, id: string, c: nat)
    requires Inv(w) && c !in w.peers && c !in w.sessions && code !in w.table && |w.table| < w.maxPairs
    ensures Inv(Open(w, code, id, c))
  {
    hide Inv, SessionOk, PeerOk;
    OpenSeat(w, code, id, c);
    UpdateKeeps(w, w.table[code := c], c, Session(code, [Slot(id, c)], Waiting, true, false, None),
                map[c := NewPeer(id, c).(watcher := Watching)]);
  }

  lemma ReplaceWaitingKeeps(w: World, code: string, id: string, c: nat, prev: nat)
    requires Inv(w) && c !in w.peers && code in w.table && w.table[code] in w.sessions
    requires var s := w.sessions[w.table[code]]; s.state.Waiting? && Find(s.slots, id) == Some(prev)
    ensures prev in w.peers && Inv(ReplaceWaiting(w, w.table[code], id, c, prev))
  {
    hide Inv, Find, Other, PutSlot, DropSlot;
    var sid := w.table[code];
    InvTable(w, code);
    InvSession(w, sid);
    var s := w.sessions[sid];
    OneSlot(s.slots, id, c);
    OneSlot([Slot(id, c)], id, c);
    InvPeer(w, prev);
    UpdateKeeps(w, w.table, sid, s.(slots := PutSlot(s.slots, id, c)),
                map[prev := w.peers[prev].StopWatching().(closed := true), c := NewPeer(id, sid).(watcher := Watching)]);
  }

  lemma PairKeeps(w: World, code: string, id: string, c: nat, other: nat)
    requires Inv(w) && c !in w.peers && code in w.table && w.table[code] in w.sessions
    requires var s := w.sessions[w.table[code]]; s.state.Waiting? && Find(s.slots, id).None? && Other(s.slots, id) == Some(other)
    ensures other in w.peers && Inv(Pair(w, w.table[code], id, c, other))
  {
    hide Inv, Find, Other, PutSlot, DropSlot;
    var sid := w.table[code];
    InvTable(w, code);
    InvSession(w, sid);
    var s := w.sessions[sid];
    OneSlot(s.slots, id, c);
    InvPeer(w, other);
    SeatedTwo(s.slots[0], Slot(id, c));
    UpdateKeeps(w, w.table, sid, s.(slots := PutSlot(s.slots, id, c), state := Paired, ttl := false),
                map[other := w.peers[other].(watcher := NoWatcher, forward := Running(c)),
                    c := NewPeer(id, sid).(forward := Running(other))]);
  }

  lemma SeatedTwo(a: Slot, b: Slot)
    requires a.id != b.id
    ensures Find([a, b], a.id) == Some(a.conn) && Find([a, b], b.id) == Some(b.conn)
  {
    TwoSlots([a, b], a.id, 0);
    TwoSlots([a, b], b.id, 0);
  }

  /** Two seats with their own peers: the session's slots are in order, and both peers are current. */
  lemma TwoSeats(w: World, sid: nat, a: Slot, b: Slot)
    requires sid in w.sessions && w.sessions[sid].slots == [a, b] && a.id != b.id
    requires a.conn in w.peers && w.peers[a.conn].sid == sid && w.peers[a.conn].id == a.id
    requires b.conn in w.peers && w.peers[b.conn].sid == sid && w.peers[b.conn].id == b.id
    ensures SlotsOk(w, sid) && Current(w, a.conn) && Current(w, b.conn)
  {
    SeatedTwo(a, b);
  }

  lemma SwapPairedKeeps(w: World, code: string, id: string, c: nat, prev: nat, other: nat)
    requires Inv(w) && c !in w.peers && code in w.table && w.table[code] in w.sessions
    requires var s := w.sessions[w.table[code]]; s.state.Paired? && Find(s.slots, id) == Some(prev) && Other(s.slots, id) == Some(other)
    ensures prev in w.peers && other in w.peers && Inv(SwapPaired(w, w.table[code], id, c, prev, other))
  {
    hide Inv, Find, Other, PutSlot, Current, InTable, SessionOk, PeerOk;
    var sid := w.table[code];
    InvTable(w, code);
    InvSession(w, sid);
    var s := w.sessions[sid];
    BothSeats(w, sid, id, prev, other);
    SwapSeats(w, sid, id, c, prev, other);
    UpdateKeeps(w, w.table, sid, s.(slots := PutSlot(s.slots, id, c)),
                map[prev := w.peers[prev].StopForwarding().(closed := true), other := w.peers[other].Restarted(c),
                    c := NewPeer(id, sid).(forward := Running(other))]);
  }

  lemma BothSeats(w: World, sid: nat, id: string, prev: nat, other: nat)
    requires sid in w.sessions && SessionOk(w, sid) && w.sessions[sid].state.Paired?
    requires Find(w.sessions[sid].slots, id) == Some(prev) && Other(w.sessions[sid].slots, id) == Some(other)
    ensures prev in w.peers && other in w.peers && w.peers[prev].sid == w.peers[other].sid == sid && prev != other
    ensures w.peers[prev].watcher.NoWatcher? && w.peers[other].watcher.NoWatcher?
    ensures w.peers[prev].id == id && w.peers[other].id != id
    ensures forall i :: 0 <= i < |w.sessions[sid].slots| ==> w.sessions[sid].slots[i].conn in {prev, other}
  {
    hide Find, Other;
    TwoSlots(w.sessions[sid].slots, id, 0);
  }

  lemma SwapSeats(w: World, sid: nat, id: string, c: nat, prev: nat, other: nat)
    requires sid in w.sessions && SessionOk(w, sid) && InTable(w, sid) && w.sessions[sid].state.Paired? && c !in w.peers
    requires Find(w.sessions[sid].slots, id) == Some(prev) && Other(w.sessions[sid].slots, id) == Some(other)
    requires prev in w.peers && other in w.peers && !w.peers[prev].watcher.Watching?
    ensures var w' := SwapPaired(w, sid, id, c, prev, other);
      SessionOk(w', sid) && PeerOk(w', prev) && PeerOk(w', other) && PeerOk(w', c)
  {
    hide Find, Other, PutSlot;
    var s := w.sessions[sid];
    TwoSlots(s.slots, id, c);
    var w' := SwapPaired(w, sid, id, c, prev, other);
    var slots := w'.sessions[sid].slots;
    assert slots == [slots[0], slots[1]];
    TwoSeats(w', sid, slots[0], slots[1]);
  }

  lemma ReplaceSurvivorKeeps(w: World, code: string, id: string, c: nat, prev: nat)
    requires Inv(w) && c !in w.peers && code in w.table && w.table[code] in w.sessions
    requires var s := w.sessions[w.table[code]]; s.state.HalfBroken? && Find(s.slots, id) == Some(prev)
    ensures prev in w.peers && Inv(ReplaceSurvivor(w, w.table[code], id, c, prev))
  {
    hide Inv, Find, Other, PutSlot, DropSlot;
    var sid := w.table[code];
    InvTable(w, code);
    InvSession(w, sid);
    var s := w.sessions[sid];
    OneSlot(s.slots, id, c);
    OneSlot([Slot(id, c)], id, c);
    InvPeer(w, prev);
    UpdateKeeps(w, w.table, sid, s.(slots := PutSlot(s.slots, id, c)),
                map[prev := w.peers[prev].StopWatching().StopForwarding().(closed := true, done := true),
                    c := NewPeer(id, sid).(watcher := Watching)]);
  }

  lemma RecoverKeeps(w: World, code: string, id: string, c: nat, other: nat)
    requires Inv(w) && c !in w.peers && code in w.table && w.table[code] in w.sessions
    requires var s := w.sessions[w.table[code]]; s.state.HalfBroken? && Find(s.slots, id).None? && Other(s.slots, id) == Some(other)
    ensures other in w.peers && Inv(Recover(w, w.table[code], id, c, other))
  {
    hide Inv, Find, Other, PutSlot, DropSlot;
    var sid := w.table[code];
    InvTable(w, code);
    InvSession(w, sid);
    var s := w.sessions[sid];
    OneSlot(s.slots, id, c);
    InvPeer(w, other);
    SeatedTwo(s.slots[0], Slot(id, c));
    UpdateKeeps(w, w.table, sid, s.(slots := PutSlot(s.slots, id, c), state := Paired, grace := false, broken := None),
                map[other := w.peers[other].(watcher := NoWatcher).Restarted(c),
                    c := NewPeer(id, sid).(forward := Running(other))]);
  }

  /** In a reachable state every arrival finds the peers its branch needs. */
  lemma SeatsFilled(w: World, code: string, id: string)
    requires Inv(w) && code in w.table
    ensures w.table[code] in w.sessions
    ensures var s := w.sessions[w.table[code]];
      && (Find(s.slots, id).None? || s.state.Paired? ==> Other(s.slots, id).Some?)
      && (Other(s.slots, id).Some? ==> Other(s.slots, id).value in w.peers)
  {
    hide Inv;
    InvTable(w, code);
    InvSession(w, w.table[code]);
    var s := w.sessions[w.table[code]];
    if |s.slots| == 1 {
      OneSlot(s.slots, id, 0);
    } else {
      assert s.slots == [s.slots[0], s.slots[1]];
      var rest := s.slots[1..];
      OneSlot(rest, id, 0);
    }
  }

  lemma EnterKeeps(w: World, c: nat, code: string, id: string)
    requires Inv(w) && c !in w.peers && c !in w.sessions
    ensures Inv(Enter(w, c, code, id).0)
  {
    hide Inv, Open, Pair, ReplaceWaiting, SwapPaired, ReplaceSurvivor, Recover, Find, Other;
    if code !in w.table {
      if |w.table| < w.maxPairs {
        OpenKeeps(w, code, id, c);
      }
    } else {
      SeatsFilled(w, code, id);
      var s := w.sessions[w.table[code]];
      var prev, other := Find(s.slots, id), Other(s.slots, id);
      if prev.Some? {
        match s.state
        case Waiting => ReplaceWaitingKeeps(w, code, id, c, prev.value);
        case Paired => SwapPairedKeeps(w, code, id, c, prev.value, other.value);
        case HalfBroken => ReplaceSurvivorKeeps(w, code, id, c, prev.value);
      } else {
        match s.state
        case Waiting => PairKeeps(w, code, id, c, other.value);
        case Paired =>
        case HalfBroken => RecoverKeeps(w, code, id, c, other.value);
      }
    }
  }

  // ------------------------------------------------------- ends and timers

  /** A task that ends, or a handler that returns without its peer being seated. */
  predicate Fades(p: Peer, p': Peer, seated: bool) {
    && p'.id == p.id && p'.sid == p.sid && p'.closed == p.closed
    && (p'.forward == p.forward || (p.forward.Running? && p'.forward.Finished?))
    && (p'.watcher == p.watcher || (p.watcher.Watching? && p'.watcher.Stopped? && p'.done))
    && (p.done ==> p'.done) && (seated ==> p'.attended == p.attended)
  }

  lemma FadeKeeps(w: World, c: nat, p: Peer)
    requires Inv(w) && c in w.peers && Fades(w.peers[c], p, Current(w, c))
    ensures Inv(w.(peers := w.peers[c := p]))
  {
    var w' := w.(peers := w.peers[c := p]);
    hide SessionOk, PeerOk, Current, Fades;
    forall sid | sid in w'.sessions ensures SessionOk(w', sid) {
      FadedSession(w, c, p, sid);
    }
    forall d | d in w'.peers ensures PeerOk(w', d) {
      FadedPeer(w, c, p, d);
    }
  }

  lemma FadedPeer(w: World, c: nat, p: Peer, d: nat)
    requires c in w.peers && Fades(w.peers[c], p, Current(w, c)) && d in w.peers && PeerOk(w, d)
    ensures PeerOk(w.(peers := w.peers[c := p]), d)
  {
    hide Find;
    assert Current(w.(peers := w.peers[c := p]), d) == Current(w, d);
  }

  lemma FadedSession(w: World, c: nat, p: Peer, sid: nat)
    requires c in w.peers && Fades(w.peers[c], p, Current(w, c)) && sid in w.sessions && SessionOk(w, sid)
    ensures SessionOk(w.(peers := w.peers[c := p]), sid)
  {
    var w' := w.(peers := w.peers[c := p]);
    assert SlotsOk(w', sid);
    assert InTable(w', sid) == InTable(w, sid);
    var slots := w.sessions[sid].slots;
    if |slots| == 1 && slots[0].conn == c {
      OneSlot(slots, slots[0].id, 0);
    }
  }

  lemma DroppedKeeps(w: World, c: nat)
    requires Inv(w) && Current(w, c) && w.peers[c].done
    ensures Inv(Dropped(w, c))
  {
    hide Inv, Find, Other, PutSlot, DropSlot;
    var p := w.peers[c];
    var sid := p.sid;
    var s := w.sessions[sid];
    InvSession(w, sid);
    InvPeer(w, c);
    var gone := p.StopWatching().StopForwarding().(closed := true, attended := false);
    match s.state
    case Waiting =>
      assert InTable(w, sid);
      OneSlot(s.slots, p.id, c);
      UpdateKeeps(w, w.table - {s.code}, sid, s.(slots := [], ttl := false), map[c := gone]);
    case Paired => DropPaired(w, c);
    case HalfBroken =>
      OneSlot(s.slots, p.id, c);
      UpdateKeeps(w, w.table, sid, s, map[c := gone]);
  }

  lemma DropPaired(w: World, c: nat)
    requires Inv(w) && Current(w, c) && w.sessions[w.peers[c].sid].state.Paired?
    ensures Inv(Dropped(w, c))
  {
    var p := w.peers[c];
    var s := w.sessions[p.sid];
    hide Inv, SessionOk, PeerOk, Current, Find, DropSlot, Dropped, Update, TableStep, PeersStep, Watched;
    InvSession(w, p.sid);
    var other := PairedSeats(w, c);
    DropSeat(w, c, other);
    var s' := s.(slots := [Slot(w.peers[other].id, other)], state := HalfBroken, broken := Some(p.id), grace := true);
    var peers := map[c := p.StopWatching().StopForwarding().(closed := true, attended := false),
                     other := Watched(w.peers[other])];
    assert Drops(w, c, other, s', peers);
    hide Drops;
    DropUpdate(w, c, other, s', peers);
    DropSteps(w, c, other, s', peers);
    UpdateKeeps(w, w.table, p.sid, s', peers);
  }

  lemma PairedSeats(w: World, c: nat) returns (other: nat)
    requires Current(w, c) && w.sessions[w.peers[c].sid].state.Paired? && SessionOk(w, w.peers[c].sid)
    ensures other in w.peers && w.peers[other].sid == w.peers[c].sid && other != c
    ensures w.peers[c].watcher.NoWatcher? && w.peers[other].watcher.NoWatcher?
    ensures var s := w.sessions[w.peers[c].sid];
      && DropSlot(s.slots, w.peers[c].id) == [Slot(w.peers[other].id, other)]
      && forall i :: 0 <= i < |s.slots| ==> s.slots[i].conn in {c, other}
  {
    hide Find, Other, DropSlot;
    var s := w.sessions[w.peers[c].sid];
    TwoSlots(s.slots, w.peers[c].id, c);
    other := DropSlot(s.slots, w.peers[c].id)[0].conn;
  }

  /** The drop of `c` from a pair: the session and the two peers after it. */
  ghost predicate Drops(w: World, c: nat, other: nat, s': Session, peers: map<nat, Peer>) {
    && Current(w, c) && w.sessions[w.peers[c].sid].state.Paired? && other in w.peers && c != other
    && w.peers[other].sid == w.peers[c].sid
    && var s := w.sessions[w.peers[c].sid];
       && DropSlot(s.slots, w.peers[c].id) == [Slot(w.peers[other].id, other)]
       && (forall i :: 0 <= i < |s.slots| ==> s.slots[i].conn in {c, other})
       && s' == s.(slots := [Slot(w.peers[other].id, other)], state := HalfBroken, broken := Some(w.peers[c].id), grace := true)
       && peers == map[c := w.peers[c].StopWatching().StopForwarding().(closed := true, attended := false),
                       other := Watched(w.peers[other])]
  }

  lemma DropUpdate(w: World, c: nat, other: nat, s': Session, peers: map<nat, Peer>)
    requires Drops(w, c, other, s', peers)
    ensures Dropped(w, c) == Update(w, w.table, w.peers[c].sid, s', peers)
  {
    hide Find, DropSlot, Update;
    var slots := DropSlot(w.sessions[w.peers[c].sid].slots, w.peers[c].id);
    assert slots[0].conn == other;
  }

  lemma DropSteps(w: World, c: nat, other: nat, s': Session, peers: map<nat, Peer>)
    requires Drops(w, c, other, s', peers)
    ensures TableStep(w, w.table, w.peers[c].sid, s') && PeersStep(w, w.peers[c].sid, peers)
    ensures forall d :: d in peers ==> d == c || d == other
  {
    DropSeated(w, c, other, s', peers);
    hide Drops, InTable, Current;
  }

  /** Whom the drop names, and that they are the session's. */
  lemma DropSeated(w: World, c: nat, other: nat, s': Session, peers: map<nat, Peer>)
    requires Drops(w, c, other, s', peers)
    ensures c in w.peers && other in w.peers && w.peers[c].sid in w.sessions
    ensures var sid := w.peers[c].sid;
      && w.peers[other].sid == sid && s'.code == w.sessions[sid].code
      && (forall d :: d in peers <==> d == c || d == other) && peers[c].sid == peers[other].sid == sid
      && forall i :: 0 <= i < |w.sessions[sid].slots| ==> w.sessions[sid].slots[i].conn in {c, other}
  {
    hide Find, DropSlot;
  }

  lemma DropSeat(w: World, c: nat, other: nat)
    requires Current(w, c) && w.sessions[w.peers[c].sid].state.Paired? && SessionOk(w, w.peers[c].sid) && other in w.peers
    requires w.peers[other].sid == w.peers[c].sid && other != c
    requires DropSlot(w.sessions[w.peers[c].sid].slots, w.peers[c].id) == [Slot(w.peers[other].id, other)]
    requires w.peers[c].watcher.NoWatcher? && w.peers[other].watcher.NoWatcher?
    ensures var w' := Dropped(w, c);
      SessionOk(w', w.peers[c].sid) && PeerOk(w', c) && PeerOk(w', other)
  {
    hide SessionOk;
    DropSession(w, c, other);
    var seat := Slot(w.peers[other].id, other);
    OneSlot([seat], w.peers[c].id, c);
    OneSlot([seat], seat.id, c);
  }

  lemma DropSession(w: World, c: nat, other: nat)
    requires Current(w, c) && w.sessions[w.peers[c].sid].state.Paired? && SessionOk(w, w.peers[c].sid) && other in w.peers
    requires w.peers[other].sid == w.peers[c].sid && other != c && w.peers[other].watcher.NoWatcher?
    requires DropSlot(w.sessions[w.peers[c].sid].slots, w.peers[c].id) == [Slot(w.peers[other].id, other)]
    ensures SessionOk(Dropped(w, c), w.peers[c].sid)
  {
    hide Find, DropSlot, Current;
    var w' := Dropped(w, c);
    assert w'.peers[other] == Watched(w.peers[other]);
  }

  lemma DisconnectKeeps(w: World, c: nat)
    requires Inv(w)
    ensures Inv(Disconnect(w, c))
  {
    hide Inv, Current, Dropped;
    if c in w.peers && w.peers[c].done && w.peers[c].attended {
      if Current(w, c) {
        DroppedKeeps(w, c);
      } else {
        FadeKeeps(w, c, w.peers[c].(attended := false));
      }
    }
  }

  lemma WatchEndsKeeps(w: World, c: nat)
    requires Inv(w)
    ensures Inv(WatchEnds(w, c))
  {
    hide Inv, Current;
    if c in w.peers && w.peers[c].watcher.Watching? {
      FadeKeeps(w, c, w.peers[c].(watcher := Stopped, done := true));
    }
  }

  lemma ForwardEndsKeeps(w: World, c: nat)
    requires Inv(w)
    ensures Inv(ForwardEnds(w, c)) && Inv(ForwardBlocked(w, c))
  {
    hide Inv, Current;
    if c in w.peers && w.peers[c].forward.Running? {
      FadeKeeps(w, c, w.peers[c].(forward := Finished, done := true));
      FadeKeeps(w, c, w.peers[c].(forward := Finished));
    }
  }

  /** The TTL of a waiting session closes its peer and takes it out of the table. */
  lemma TtlCloses(w: World, sid: nat)
    requires Inv(w) && sid in w.sessions && w.sessions[sid].ttl
    ensures var w' := TtlExpires(w, sid).0;
      Inv(w') && w'.table == w.table - {w.sessions[sid].code} && w.sessions[sid].state.Waiting? && InTable(w, sid)
    ensures w.sessions[sid].slots != [] && TtlExpires(w, sid).0 == CloseOut(w, w.sessions[sid].slots[0].conn)
  {
    hide Inv;
    InvSession(w, sid);
    var s := w.sessions[sid];
    var c := s.slots[0].conn;
    OneSlot(s.slots, s.slots[0].id, c);
    var w1 := WatchEnds(w, c);
    WatchEndsKeeps(w, c);
    DisconnectKeeps(w1, c);
    assert Current(w1, c) && w1.sessions == w.sessions && w1.peers[c].done;
    assert (w.table - {s.code}) - {s.code} == w.table - {s.code};
    assert TtlExpires(w, sid).0 == Disconnect(w1, c);
  }

  lemma GraceCloses(w: World, sid: nat)
    requires Inv(w) && sid in w.sessions && w.sessions[sid].grace
    ensures var w' := GraceExpires(w, sid).0;
      Inv(w') && w'.table == w.table - {w.sessions[sid].code} && w.sessions[sid].state.HalfBroken? && InTable(w, sid)
  {
    hide Inv;
    InvSession(w, sid);
    var s := w.sessions[sid];
    var c := s.slots[0].conn;
    InvPeer(w, c);
    var same := map[c := w.peers[c]];
    assert w.peers + same == w.peers && w.peers + map[] == w.peers;
    OneSlot(s.slots, s.slots[0].id, c);
    UpdateKeeps(w, w.table - {s.code}, sid, s.(grace := false), same);
  }

  /** Every step of the relay keeps the invariant. */
  lemma StepKeeps(w: World, e: Event)
    requires Inv(w)
    ensures Inv(Step(w, e))
  {
    hide Inv, Enter, ForwardEnds, ForwardBlocked, WatchEnds, Disconnect, CloseOut, InTable;
    match e
    case Arrival(c, first) =>
      if c !in w.peers && c !in w.sessions && first.Join? && first.code.Some? && first.id.Some? {
        EnterKeeps(w, c, first.code.value, first.id.value);
      }
    case ForwardEnd(c) => ForwardEndsKeeps(w, c);
    case ForwardBlock(c) => ForwardEndsKeeps(w, c);
    case WatchEnd(c) => WatchEndsKeeps(w, c);
    case Handler(c) => DisconnectKeeps(w, c);
    case Ttl(sid) =>
      if sid in w.sessions && w.sessions[sid].ttl {
        TtlCloses(w, sid);
      }
    case Grace(sid) =>
      if sid in w.sessions && w.sessions[sid].grace {
        GraceCloses(w, sid);
      }
  }
}
