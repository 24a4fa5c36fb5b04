/** The relay as its handlers and timers run it: fields updated one by one, proved against the steps of `Relay`. */
module RelayServers {
  import opened Wrappers
  import opened Relay

  lemma PutTwo(peers: map<nat, Peer>, a: nat, x: Peer, b: nat, y: Peer)
    requires a != b
    ensures peers[a := x][b := y] == peers + map[a := x, b := y]
  {
  }

  lemma PeerSession(w: World, c: nat)
    requires Inv(w) && c in w.peers
    ensures w.peers[c].sid in w.sessions
  {
    assert PeerOk(w, c);
  }

  /** The seat under an id holds a peer, and not the one under another. */
  lemma PrevSeated(w: World, sid: nat, id: string)
    requires Inv(w) && sid in w.sessions && Find(w.sessions[sid].slots, id).Some?
    ensures var prev, other := Find(w.sessions[sid].slots, id).value, Other(w.sessions[sid].slots, id);
      && prev in w.peers
      && (w.sessions[sid].state.Paired? && other.Some? ==> other.value != prev)
  {
    hide Inv, Find, Other;
    InvSession(w, sid);
    if w.sessions[sid].state.Paired? && Other(w.sessions[sid].slots, id).Some? {
      BothSeats(w, sid, id, Find(w.sessions[sid].slots, id).value, Other(w.sessions[sid].slots, id).value);
    }
  }

  class RelayServer {
    const maxPairs: nat
    var table: map<string, nat>
    var sessions: map<nat, Session>
    var peers: map<nat, Peer>

    function View(): World
      reads this
    {
      World(maxPairs, table, sessions, peers)
    }

    constructor (maxPairs: nat)
      ensures this.maxPairs == maxPairs && View() == World(maxPairs, map[], map[], map[]) && Inv(View())
    {
      this.maxPairs := maxPairs;
      table, sessions, peers := map[], map[], map[];
    }

    method NewSession(c: nat, code: string, id: string)
      modifies this
      ensures View() == Open(old(View()), code, id, c)
    {
      var sess := Session(code, [Slot(id, c)], Waiting, true, false, None);
      peers := peers[c := NewPeer(id, c)];
      sessions := sessions[c := sess];
      table := table[code := c];
      peers := peers[c := peers[c].(watcher := Watching)];
    }

    method ReplaceWaitingPeer(c: nat, sid: nat, id: string, prev: nat)
      requires sid in sessions && prev in peers && c !in peers
      modifies this`sessions, this`peers
      ensures View() == ReplaceWaiting(old(View()), sid, id, c, prev)
    {
      hide PutSlot;
      var peer, gone := NewPeer(id, sid), peers[prev].StopWatching();
      gone := gone.(closed := true);
      sessions := sessions[sid := sessions[sid].(slots := PutSlot(sessions[sid].slots, id, c))];
      peer := peer.(watcher := Watching);
      peers := peers[prev := gone][c := peer];
    }

    method PairUp(c: nat, sid: nat, id: string, first: nat)
      requires sid in sessions && first in peers && c !in peers
      modifies this`sessions, this`peers
      ensures View() == Pair(old(View()), sid, id, c, first)
    {
      hide PutSlot;
      var sess := sessions[sid].(ttl := false);
      var a := peers[first].(watcher := NoWatcher);
      sess := sess.(slots := PutSlot(sess.slots, id, c), state := Paired);
      sessions := sessions[sid := sess];
      a := a.(forward := Running(c));
      var b := NewPeer(id, sid).(forward := Running(first));
      PutTwo(peers, first, a, c, b);
      peers := peers[first := a][c := b];
    }

    method SwapSocket(c: nat, sid: nat, id: string, prev: nat, other: nat)
      requires sid in sessions && prev in peers && other in peers && prev != other && c !in peers
      modifies this`sessions, this`peers
      ensures View() == SwapPaired(old(View()), sid, id, c, prev, other)
    {
      hide PutSlot;
      var peer, gone, partner := NewPeer(id, sid), peers[prev].StopForwarding(), peers[other];
      gone := gone.(closed := true);
      sessions := sessions[sid := sessions[sid].(slots := PutSlot(sessions[sid].slots, id, c))];
      peer := peer.(forward := Running(other));
      if !partner.forward.Running? {
        partner := partner.(forward := Running(c));
      }
      peers := peers[prev := gone][other := partner][c := peer];
    }

    method ReplaceSurvivorPeer(c: nat, sid: nat, id: string, prev: nat)
      requires sid in sessions && prev in peers && c !in peers
      modifies this`sessions, this`peers
      ensures View() == ReplaceSurvivor(old(View()), sid, id, c, prev)
    {
      hide PutSlot;
      var peer, gone := NewPeer(id, sid), peers[prev].StopWatching().StopForwarding();
      gone := gone.(closed := true, done := true);
      sessions := sessions[sid := sessions[sid].(slots := PutSlot(sessions[sid].slots, id, c))];
      peer := peer.(watcher := Watching);
      peers := peers[prev := gone][c := peer];
    }

    method RecoverPair(c: nat, sid: nat, id: string, other: nat)
      requires sid in sessions && other in peers && c !in peers
      modifies this`sessions, this`peers
      ensures View() == Recover(old(View()), sid, id, c, other)
    {
      hide PutSlot;
      var sess, peer, survivor := sessions[sid].(grace := false), NewPeer(id, sid), peers[other];
      sessions := sessions[sid := sess.(slots := PutSlot(sess.slots, id, c), state := Paired, broken := None)];
      survivor := survivor.(watcher := NoWatcher);
      peer := peer.(forward := Running(other));
      if !survivor.forward.Running? {
        survivor := survivor.(forward := Running(c));
      }
      PutTwo(peers, other, survivor, c, peer);
      peers := peers[other := survivor][c := peer];
    }

    /** A join to a session that is already in the table. */
    method JoinSession(c: nat, code: string, id: string) returns (frames: seq<Frame>)
      requires Inv(View()) && c !in peers && code in table
      modifies this`sessions, this`peers
      ensures (View(), frames) == Enter(old(View()), c, code, id)
    {
      hide Inv, Find, Other, ReplaceWaiting, Pair, SwapPaired, ReplaceSurvivor, Recover;
      InvTable(View(), code);
      var sid := table[code];
      var sess := sessions[sid];
      SeatsFilled(View(), code, id);
      if Find(sess.slots, id).Some? {
        PrevSeated(View(), sid, id);
      }
      var prev, other := Find(sess.slots, id), Other(sess.slots, id);
      match sess.state
      case Waiting =>
        if prev.Some? {
          ReplaceWaitingPeer(c, sid, id, prev.value);
          return [];
        }
        PairUp(c, sid, id, other.value);
        return [Frame(other.value, Joined), Frame(c, Joined)];
      case Paired =>
        if prev.None? {
          return [Frame(c, Abort("code in use"))];
        }
        SwapSocket(c, sid, id, prev.value, other.value);
        return [Frame(other.value, PartnerReconnected(id)), Frame(c, Joined)];
      case HalfBroken =>
        if prev.Some? {
          ReplaceSurvivorPeer(c, sid, id, prev.value);
          return [Frame(c, Joined)];
        }
        RecoverPair(c, sid, id, other.value);
        return [Frame(other.value, PartnerReconnected(id)), Frame(c, Joined)];
    }

    /** `handle_client`, up to its wait. */
    method HandleClient(c: nat, first: First) returns (frames: seq<Frame>)
      requires Inv(View()) && c !in peers && c !in sessions
      modifies this
      ensures (View(), frames) == Arrive(old(View()), c, first)
      ensures Inv(View())
    {
      StepKeeps(View(), Arrival(c, first));
      match first
      case Malformed => return [];
      case NotJoin => return [Frame(c, Abort("expected join"))];
      case Join(code, id) =>
        if code.None? || |code.value| < MIN_CODE {
          return [Frame(c, Abort("session code too short"))];
        }
        if id.None? || id.value == "" {
          return [Frame(c, Abort("missing peer_id"))];
        }
        if code.value !in table {
          if |table| >= maxPairs {
            return [Frame(c, Abort("relay full"))];
          }
          NewSession(c, code.value, id.value);
          return [];
        }
        frames := JoinSession(c, code.value, id.value);
    }

    /** `_on_peer_disconnect`, run by the handler of a peer that is done. */
    method OnPeerDisconnect(c: nat)
      requires Inv(View()) && c in peers && peers[c].done && peers[c].attended
      modifies this
      ensures View() == Disconnect(old(View()), c)
      ensures Inv(View())
    {
      hide Inv, Find, DropSlot, SessionOk, PeerOk;
      ghost var w := View();
      DisconnectKeeps(w, c);
      PeerSession(w, c);
      var peer := peers[c].(attended := false);
      var sess := sessions[peer.sid];
      if Find(sess.slots, peer.id) != Some(c) {
        peers := peers[c := peer];
        return;
      }
      peer := peer.StopWatching().StopForwarding();
      peer := peer.(closed := true);
      match sess.state
      case Waiting =>
        peers := peers[c := peer];
        sessions := sessions[peer.sid := sess.(slots := DropSlot(sess.slots, peer.id), ttl := false)];
        table := table - {sess.code};
      case Paired =>
        EnterHalfBroken(c, peer);
      case HalfBroken =>
        peers := peers[c := peer];
    }

    /** One of a pair is gone: the other is watched, and the grace period starts. */
    method EnterHalfBroken(c: nat, peer: Peer)
      requires Inv(View()) && Current(View(), c) && sessions[peers[c].sid].state.Paired?
      requires peer == peers[c].StopWatching().StopForwarding().(closed := true, attended := false)
      modifies this`sessions, this`peers
      ensures View() == Dropped(old(View()), c)
    {
      hide Inv, Find, DropSlot, SessionOk, Watched;
      ghost var w := View();
      var sess := sessions[peer.sid];
      InvSession(w, peer.sid);
      ghost var other := PairedSeats(w, c);
      sess := sess.(slots := DropSlot(sess.slots, peer.id), state := HalfBroken, broken := Some(peer.id), grace := true);
      sessions := sessions[peer.sid := sess];
      var survivor := sess.slots[0].conn;
      PutTwo(peers, c, peer, survivor, Watched(peers[survivor]));
      peers := peers[c := peer][survivor := Watched(peers[survivor])];
    }

    /** The end of `_forward`: its own peer's read side is gone, or the other's write side is. */
    method ForwarderStops(c: nat, srcDisconnected: bool)
      requires Inv(View()) && c in peers && peers[c].forward.Running?
      modifies this`peers
      ensures View() == if srcDisconnected then ForwardEnds(old(View()), c) else ForwardBlocked(old(View()), c)
      ensures Inv(View())
    {
      hide Inv;
      ForwardEndsKeeps(View(), c);
      peers := peers[c := peers[c].(forward := Finished)];
      if srcDisconnected {
        peers := peers[c := peers[c].(done := true)];
      }
    }

    /** The end of `_watch_for_eof`. */
    method WatcherStops(c: nat)
      requires Inv(View()) && c in peers && peers[c].watcher.Watching?
      modifies this`peers
      ensures View() == WatchEnds(old(View()), c) && Inv(View())
    {
      hide Inv;
      WatchEndsKeeps(View(), c);
      peers := peers[c := peers[c].(watcher := Stopped, done := true)];
    }

    /** `_grace_expire`, once it has slept. */
    method GraceExpire(sid: nat) returns (frames: seq<Frame>)
      requires Inv(View()) && sid in sessions && sessions[sid].grace
      modifies this
      ensures (View(), frames) == GraceExpires(old(View()), sid)
      ensures Inv(View()) && old(sessions[sid].code) !in table
    {
      hide Inv, Waits;
      GraceCloses(View(), sid);
      InvSession(View(), sid);
      frames := [Frame(sessions[sid].slots[0].conn, Abort("partner did not return"))];
      assert peers + map[] == peers;
      table := table - {sessions[sid].code};
      sessions := sessions[sid := sessions[sid].(grace := false)];
    }

    /** `_ttl_expire`, once it has slept, with the end of the peer it closes. */
    method TtlExpire(sid: nat) returns (frames: seq<Frame>)
      requires Inv(View()) && sid in sessions && sessions[sid].ttl
      modifies this
      ensures (View(), frames) == TtlExpires(old(View()), sid)
      ensures Inv(View()) && old(sessions[sid].code) !in table
    {
      hide Inv, Disconnect, Find;
      TtlCloses(View(), sid);
      InvSession(View(), sid);
      var code, c := sessions[sid].code, sessions[sid].slots[0].conn;
      frames := [Frame(c, Abort("no partner"))];
      WatchEndsKeeps(View(), c);
      if peers[c].watcher.Watching? {
        peers := peers[c := peers[c].(watcher := Stopped, done := true)];
      }
      assert View() == WatchEnds(old(View()), c);
      OnPeerDisconnect(c);
      assert (old(table) - {code}) - {code} == old(table) - {code};
      table := table - {code};
    }
  }
}
