/** The serial frames of bridge/bridge_core/cc_client.py: building, reading by count, status pairs, responses. */
module CcClients {
  import opened Wrappers
  import opened Bytes
  import opened StatusPairs
  import Relocate

  function Sum(s: seq<byte>): nat { if s == [] then 0 else s[0] + Sum(s[1..]) }

  function Body(mid: byte, action: byte, payload: seq<byte>): seq<byte> {
    var body := [mid, action] + payload;
    body + [Sum(body) % 0x100]
  }

  /** `_make_cc_frame`: the frame, or the length that does not fit. */
  function MakeFrame(mid: byte, action: byte, payload: seq<byte>): Result<seq<byte>, nat> {
    var body := Body(mid, action, payload);
    if |body| > 255 then Err(|body|) else Ok([|body|] + body)
  }

  /** A payload of up to 252 bytes makes a frame, and no other. */
  lemma PayloadFits(mid: byte, action: byte, payload: seq<byte>)
    ensures MakeFrame(mid, action, payload).Ok? <==> |payload| <= 252
    ensures |payload| <= 252 ==> |MakeFrame(mid, action, payload).value| == |payload| + 4
  {
    hide Sum;
  }

  // ---------------------------------------------------------------- framing

  predicate HoldsBody(stream: seq<byte>) { stream != [] && |stream| >= 1 + stream[0] as int }

  /** The cart's side: read a length, then as many bytes; and again. What is incomplete stays. */
  function ReadBodies(stream: seq<byte>): (seq<seq<byte>>, seq<byte>)
    decreases |stream|
  {
    if !HoldsBody(stream) then ([], stream)
    else var (more, rest) := ReadBodies(stream[1 + stream[0]..]); ([stream[1..1 + stream[0]]] + more, rest)
  }

  datatype Message = Message(mid: byte, action: byte, payload: seq<byte>)

  predicate Fits(m: Message) { MakeFrame(m.mid, m.action, m.payload).Ok? }

  function Frames(ms: seq<Message>): seq<byte>
    requires forall m :: m in ms ==> Fits(m)
  {
    if ms == [] then []
    else
      assert ms[0] in ms && Fits(ms[0]);
      MakeFrame(ms[0].mid, ms[0].action, ms[0].payload).value + Frames(ms[1..])
  }

  function Bodies(ms: seq<Message>): seq<seq<byte>> {
    if ms == [] then [] else [Body(ms[0].mid, ms[0].action, ms[0].payload)] + Bodies(ms[1..])
  }

  /** A frame whose first byte is `declared` leaves the reader at the next frame exactly if it counts the checksum. */
  lemma AlignedIff(declared: byte, body: seq<byte>, checksum: byte, next: seq<byte>)
    requires |[declared] + body + [checksum] + next| >= 1 + declared
    ensures ([declared] + body + [checksum] + next)[1 + declared..] == next <==> declared == |body| + 1
  {
    var all := [declared] + body + [checksum] + next;
    if declared == |body| + 1 {
      assert all[1 + declared..] == next;
    } else {
      assert |all[1 + declared..]| != |next|;
    }
  }

  lemma ReadsFrame(body: seq<byte>, tail: seq<byte>)
    requires |body| <= 255
    ensures ReadBodies([|body|] + body + tail) == ([body] + ReadBodies(tail).0, ReadBodies(tail).1)
  {
    var stream := [|body|] + body + tail;
    assert stream[1..1 + |body|] == body && stream[1 + |body|..] == tail;
  }

  lemma FramesSplit(ms: seq<Message>, tail: seq<byte>)
    requires ms != [] && forall m :: m in ms ==> Fits(m)
    ensures var body := Body(ms[0].mid, ms[0].action, ms[0].payload);
      |body| <= 255 && Frames(ms) + tail == [|body|] + body + (Frames(ms[1..]) + tail)
  {
    hide Body;
    assert ms[0] in ms && Fits(ms[0]);
    var frame, rest := MakeFrame(ms[0].mid, ms[0].action, ms[0].payload).value, Frames(ms[1..]);
    assert frame + rest + tail == frame + (rest + tail);
  }

  /** The reader stays aligned over any sequence of frames: it takes exactly their bodies. */
  lemma {:induction false} ReadsFrames(ms: seq<Message>, tail: seq<byte>)
    requires (forall m :: m in ms ==> Fits(m)) && !HoldsBody(tail)
    ensures ReadBodies(Frames(ms) + tail) == (Bodies(ms), tail)
  {
    if ms == [] {
      assert [] + tail == tail;
    } else {
      FramesSplit(ms, tail);
      hide Body, ReadBodies, Frames, Fits;
      ReadsFrames(ms[1..], tail);
      ReadsFrame(Body(ms[0].mid, ms[0].action, ms[0].payload), Frames(ms[1..]) + tail);
    }
  }

  /** A body's last byte is the sum of the others. */
  lemma ChecksumHolds(m: Message)
    ensures var body := Body(m.mid, m.action, m.payload);
      |body| >= 3 && body[|body| - 1] == Sum(body[..|body| - 1]) % 0x100
      && body[0] == m.mid && body[1] == m.action && body[2..|body| - 1] == m.payload
  {
    var body := Body(m.mid, m.action, m.payload);
    assert body[..|body| - 1] == [m.mid, m.action] + m.payload;
  }

  predicate ChecksumOk(body: seq<byte>) { body != [] && body[|body| - 1] == Sum(body[..|body| - 1]) % 0x100 }

  lemma {:induction false} SumUpdate(s: seq<byte>, i: nat, b: byte)
    requires i < |s|
    ensures Sum(s[i := b]) == Sum(s) - s[i] + b
  {
    if i > 0 {
      assert s[i := b][1..] == s[1..][i - 1 := b];
      SumUpdate(s[1..], i - 1, b);
    } else {
      assert s[0 := b][1..] == s[1..];
    }
  }

  /** The checksum holds for what is sent, and for nothing that differs from it in one byte. */
  lemma ChecksumDetects(m: Message, i: nat, b: byte)
    requires i < |Body(m.mid, m.action, m.payload)| && b != Body(m.mid, m.action, m.payload)[i]
    ensures ChecksumOk(Body(m.mid, m.action, m.payload))
    ensures !ChecksumOk(Body(m.mid, m.action, m.payload)[i := b])
  {
    hide Body;
    var body := Body(m.mid, m.action, m.payload);
    ChecksumHolds(m);
    var front := body[..|body| - 1];
    if i < |front| {
      assert body[i := b][..|body| - 1] == front[i := b];
      SumUpdate(front, i, b);
    } else {
      assert body[i := b][..|body| - 1] == front;
    }
  }

  // -------------------------------------------------------------- responses

  /** What a client waits for. */
  datatype Expected = Expected(mid: byte, action: byte, values: nat)

  predicate Matches(e: Expected, filt: seq<byte>, i: nat) {
    i + 3 < |filt| && filt[i] == 0x20 && filt[i + 1] == e.mid && (filt[i + 2] == e.action || filt[i + 2] == 0)
    && i + 3 + e.values <= |filt|
  }

  /** The values behind the first match from position `i` on. */
  function FindFrom(e: Expected, filt: seq<byte>, i: nat): Option<seq<byte>>
    decreases |filt| - i
  {
    if i + 3 >= |filt| then None
    else if Matches(e, filt, i) then Some(filt[i + 3..i + 3 + e.values])
    else FindFrom(e, filt, i + 1)
  }

  /** The answer of the cart. */
  function Response(e: Expected, values: seq<byte>): seq<byte> {
    [0x2B, 0xD4, 0x22, 0xDD, (|values| + 3) % 0x100, 0x00, 0x20, e.mid, e.action] + values
  }

  /** It begins with the four bytes that the relocated code finds behind itself. */
  lemma ResponseBegins(e: Expected, values: seq<byte>)
    ensures Response(e, values)[..4] == Relocate.PRELUDE_BYTES
  {
    assert Response(e, values)[..4] == [0x2B, 0xD4, 0x22, 0xDD];
  }

  lemma {:induction false} FindSkips(e: Expected, filt: seq<byte>, i: nat, j: nat)
    requires i <= j && j + 3 < |filt| && forall x :: i <= x < j ==> !Matches(e, filt, x)
    ensures FindFrom(e, filt, i) == FindFrom(e, filt, j)
    decreases j - i
  {
    if i < j {
      FindSkips(e, filt, i + 1, j);
    }
  }

  /**
   * When a response survives stripping: its values must be clean, and an address read must not begin with 0xA5, which
   * together with the action byte before it looks like a status pair.
   */
  lemma ResponseCleanIff(e: Expected, values: seq<byte>)
    requires values != [] && e.action <= 0x03
    ensures Clean(Response(e, values)) <==> Clean(values) && !(e.action == 0 && values[0] == 0xA5)
  {
    var r := Response(e, values);
    assert forall i :: 0 <= i < |values| ==> r[9 + i] == values[i];
    if Clean(r) {
      assert !StatusAt(r, 8);
      forall i | 0 <= i < |values| ensures !StatusAt(values, i) {
        assert !StatusAt(r, 9 + i);
      }
    }
    if Clean(values) && !(e.action == 0 && values[0] == 0xA5) {
      forall i | 0 <= i < |r| ensures !StatusAt(r, i) {
        if i >= 9 {
          assert !StatusAt(values, i - 9);
        }
      }
    }
  }

  /** Fewer bytes than a whole answer hold no match, if all but the last of them agree with one. */
  lemma NoMatch(e: Expected, lead: seq<byte>, values: seq<byte>, filt: seq<byte>)
    requires e.mid != 0 && values != [] && |values| == e.values && Lead(lead)
    requires |filt| < |lead| + 9 + |values|
    requires forall i :: 0 <= i < |filt| - 1 && i < |lead| + 8 ==> filt[i] == (lead + Response(e, values))[i]
    ensures FindFrom(e, filt, 0) == None
  {
    forall i: nat | i < |filt| ensures !Matches(e, filt, i) {
      if i + 3 < |filt| && i < |lead| + 6 {
        assert filt[i] == (lead + Response(e, values))[i] && filt[i + 1] == (lead + Response(e, values))[i + 1];
      }
    }
    NeverFound(e, filt, 0);
  }

  lemma {:induction false} NeverFound(e: Expected, filt: seq<byte>, i: nat)
    requires forall j: nat :: i <= j < |filt| ==> !Matches(e, filt, j)
    ensures FindFrom(e, filt, i) == None
    decreases |filt| - i
  {
    if i + 3 < |filt| {
      NeverFound(e, filt, i + 1);
    }
  }

  /**
   * What the answer before may leave in front of an answer: nothing, the second half of a status pair whose first half
   * was read before, or this and the last value of that answer, in whose place the first half was read.
   */
  predicate Lead(lead: seq<byte>) { lead in {[], [0xA5], [0xA5, 0x00], [0xA5, 0x04]} }

  /** What begins like an answer, and is long enough, yields the bytes at the place of the values. */
  lemma MatchFound(e: Expected, lead: seq<byte>, values: seq<byte>, filt: seq<byte>)
    requires e.mid != 0 && values != [] && |values| == e.values && Lead(lead)
    requires |filt| >= |lead| + 9 + |values| && filt[..|lead| + 9] == (lead + Response(e, values))[..|lead| + 9]
    ensures FindFrom(e, filt, 0) == Some(filt[|lead| + 9..|lead| + 9 + |values|])
  {
    var r := lead + Response(e, values);
    assert forall i :: 0 <= i < |lead| + 9 ==> filt[i] == filt[..|lead| + 9][i] == r[i];
    forall x: nat | x < |lead| + 6 ensures !Matches(e, filt, x) {
      assert filt[x] == r[x] && filt[x + 1] == r[x + 1];
    }
    FindSkips(e, filt, 0, |lead| + 6);
  }

  /** An answer with action 0 is taken for an answer to any request under its id. */
  lemma ZeroActionFound(e: Expected, values: seq<byte>)
    requires e.mid != 0 && values != [] && |values| == e.values && Clean(values) && values[0] != 0xA5
    ensures FindFrom(e, Strip(Response(e.(action := 0), values)), 0) == Some(values)
  {
    var r := Response(e.(action := 0), values);
    ResponseCleanIff(e.(action := 0), values);
    StripKeepsIffClean(r);
    forall x: nat | x < 6 ensures !Matches(e, r, x) {
    }
    hide Strip, Clean;
    FindSkips(e, r, 0, 6);
    assert r[9..9 + |values|] == values;
  }

  // ------------------------------------------------------------ partial reads

  lemma TornSlice(front: seq<byte>, values: seq<byte>, half: byte)
    requires values != []
    ensures ((front + values)[..|front| + |values| - 1] + [half])[|front|..] == values[..|values| - 1] + [half]
  {
  }

  lemma WholeFound(e: Expected, lead: seq<byte>, values: seq<byte>, tail: seq<byte>)
    requires e.mid != 0 && values != [] && |values| == e.values && Lead(lead)
    ensures FindFrom(e, lead + Response(e, values) + tail, 0) == Some(values)
  {
    hide FindFrom;
    var p := lead + Response(e, values);
    assert (p + tail)[..|lead| + 9] == p[..|lead| + 9];
    MatchFound(e, lead, values, p + tail);
    assert (p + tail)[|lead| + 9..|lead| + 9 + |values|] == values;
  }

  lemma TornFound(e: Expected, lead: seq<byte>, values: seq<byte>, half: byte)
    requires e.mid != 0 && values != [] && |values| == e.values && Lead(lead)
    ensures var p := lead + Response(e, values);
      FindFrom(e, p[..|p| - 1] + [half], 0) == Some(values[..|values| - 1] + [half])
  {
    hide FindFrom;
    var p := lead + Response(e, values);
    var filt, front := p[..|p| - 1] + [half], p[..|lead| + 9];
    assert filt[..|lead| + 9] == front && p == front + values;
    MatchFound(e, lead, values, filt);
    TornSlice(front, values, half);
    assert filt == (front + values)[..|front| + |values| - 1] + [half];
    assert filt[|front|..|front| + |values|] == filt[|front|..];
  }

  lemma ShortNotFound(e: Expected, lead: seq<byte>, values: seq<byte>, k: nat, half: seq<byte>)
    requires e.mid != 0 && values != [] && |values| == e.values && Lead(lead) && |half| <= 1
    requires k + |half| < |lead + Response(e, values)|
    ensures FindFrom(e, (lead + Response(e, values))[..k] + half, 0) == None
  {
    hide FindFrom;
    NoMatch(e, lead, values, (lead + Response(e, values))[..k] + half);
  }

  /** What one round of polling finds in the bytes before a cut, if stripping gives the answer back. */
  lemma FoundAtCut(e: Expected, lead: seq<byte>, values: seq<byte>, b: seq<byte>, n: nat)
    requires e.mid != 0 && values != [] && |values| == e.values && Lead(lead) && n <= |b|
    requires Strip(b) == lead + Response(e, values)
    ensures FindFrom(e, Strip(b[..n]), 0) ==
            if Left(b, n) == [] then Some(values)
            else if InsidePair(b, n) && |Left(b, n)| == 1 then Some(values[..|values| - 1] + [b[n - 1]])
            else None
  {
    TornByte(b, n);
    hide Strip, FindFrom, Left, InsidePair, Response, Lead;
    var p := lead + Response(e, values);
    StripCut(b, n);
    var k, half := |p| - |Left(b, n)|, Half(b, n);
    if k == |p| {
      assert p[..k] == p;
      WholeFound(e, lead, values, half);
    } else if k + |half| == |p| {
      TornFound(e, lead, values, half[0]);
    } else {
      ShortNotFound(e, lead, values, k, half);
    }
  }

  lemma FrontClean(e: Expected, lead: seq<byte>, values: seq<byte>)
    requires e.mid != 0 && e.action <= 0x03 && Lead(lead)
    ensures forall i :: 0 <= i < |lead| + 8 ==> !StatusAt(lead + Response(e, values), i)
  {
    var p := lead + Response(e, values);
    forall i | 0 <= i < |lead| + 8 ensures !StatusAt(p, i) {
      assert i + 1 < |p| && (i + 1 < |lead| ==> p[i + 1] == lead[i + 1]);
    }
  }

  /** An answer that stripping spoils is never found. */
  lemma LostAtCut(e: Expected, lead: seq<byte>, values: seq<byte>, gaps: seq<seq<byte>>, n: nat)
    requires e.mid != 0 && e.action <= 0x03 && values != [] && |values| == e.values && Lead(lead)
    requires Gaps(lead + Response(e, values), gaps) && !Guarded(lead + Response(e, values), gaps)
    requires n <= |Spread(lead + Response(e, values), gaps)|
    ensures FindFrom(e, Strip(Spread(lead + Response(e, values), gaps)[..n]), 0) == None
  {
    hide Strip, Spread, FindFrom, Left, InsidePair, Guarded, Lead;
    var p := lead + Response(e, values);
    var b := Spread(p, gaps);
    var q, filt := Strip(b), Strip(b[..n]);
    StripCut(b, n);
    StripSpread(p, gaps);
    FrontClean(e, lead, values);
    StripKeepsFront(p, gaps, |lead| + 8);
    forall i | 0 <= i < |filt| - 1 && i < |lead| + 8 ensures filt[i] == p[i] {
      assert filt[i] == q[i] == q[..|lead| + 8][i] == p[..|lead| + 8][i];
    }
    NoMatch(e, lead, values, filt);
  }

  /**
   * A complete answer, with any status pairs put in, is found if and only if each of its bytes that looks like a pair
   * with the next has a pair put in behind it. Otherwise nothing is found at all, and the read is lost.
   */
  lemma ResponseFound(e: Expected, values: seq<byte>, gaps: seq<seq<byte>>)
    requires e.mid != 0 && e.action <= 0x03 && values != [] && |values| == e.values && Gaps(Response(e, values), gaps)
    ensures FindFrom(e, Strip(Spread(Response(e, values), gaps)), 0) ==
            if Guarded(Response(e, values), gaps) then Some(values) else None
  {
    hide Strip, Spread, FindFrom, Guarded, Response;
    var r := Response(e, values);
    var b := Spread(r, gaps);
    assert [] + r == r && b[..|b|] == b && r + [] == r;
    if Guarded(r, gaps) {
      StripRecoversIff(r, gaps);
      WholeFound(e, [], values, []);
    } else {
      LostAtCut(e, [], values, gaps, |b|);
    }
  }

  /** Where an answer looks like a pair. */
  lemma ResponsePairs(e: Expected, values: seq<byte>)
    requires e.mid != 0 && e.action <= 0x03 && values != []
    ensures var r := Response(e, values);
      && |r| == 9 + |values| && (forall i :: 0 <= i < 8 ==> !StatusAt(r, i))
      && (StatusAt(r, 8) <==> e.action == 0 && values[0] == 0xA5)
      && forall i :: 0 <= i < |values| ==> StatusAt(r, 9 + i) == StatusAt(values, i)
  {
    var r := Response(e, values);
    assert forall i :: 0 <= i < |values| ==> r[9 + i] == values[i];
  }

  /** In terms of the values: those of an address read that begin with 0xA5 need a pair in front. */
  lemma ResponseGuardedIff(e: Expected, values: seq<byte>, gaps: seq<seq<byte>>)
    requires e.mid != 0 && e.action <= 0x03 && values != [] && Gaps(Response(e, values), gaps)
    ensures Guarded(Response(e, values), gaps) <==>
            Guarded(values, gaps[9..]) && (e.action == 0 && values[0] == 0xA5 ==> gaps[9] != [])
  {
    var r := Response(e, values);
    ResponsePairs(e, values);
    hide StatusAt, Response;
    assert forall k :: 9 <= k < |gaps| ==> gaps[9..][k - 9] == gaps[k];
    if Guarded(r, gaps) {
      assert StatusAt(r, 8) ==> gaps[9] != [];
    } else {
      var i :| 0 <= i < |r| && StatusAt(r, i) && gaps[i + 1] == [];
      assert i >= 9 ==> StatusAt(values, i - 9);
    }
  }

  /** Without any pair put in: the values hold nothing like one, and those of an address read do not begin with 0xA5. */
  lemma ResponseReadIff(e: Expected, values: seq<byte>)
    requires e.mid != 0 && values != [] && |values| == e.values && e.action <= 0x03
    ensures FindFrom(e, Strip(Response(e, values)), 0) ==
            if Clean(values) && !(e.action == 0 && values[0] == 0xA5) then Some(values) else None
  {
    hide Strip, Spread, FindFrom, Response;
    var r := Response(e, values);
    SpreadNothing(r);
    ResponseFound(e, values, NoGaps(|r|));
    ResponseCleanIff(e, values);
  }

  /** `poll_response`: round by round, until something is found or the time is up. */
  function Poll(e: Expected, buf: seq<byte>, arrivals: seq<seq<byte>>): (Option<seq<byte>>, seq<byte>)
    decreases |arrivals|
  {
    if arrivals == [] then (None, buf)
    else
      var here := buf + arrivals[0];
      var found := FindFrom(e, Strip(here), 0);
      if found.Some? then (found, []) else Poll(e, here, arrivals[1..])
  }

  /** The first half of the pair that a round's end tears right in front of the last value, at the first such end. */
  function Tear(b: seq<byte>, n: nat, arrivals: seq<seq<byte>>): Option<byte>
    requires n + |Concat(arrivals)| <= |b|
    decreases |arrivals|
  {
    if arrivals == [] then None
    else
      var next := n + |arrivals[0]|;
      if InsidePair(b, next) && |Left(b, next)| == 1 then Some(b[next - 1]) else Tear(b, next, arrivals[1..])
  }

  /** Polling on, with the bytes before `n` in the buffer and nothing found in them. */
  lemma {:induction false} PollFrom(e: Expected, lead: seq<byte>, values: seq<byte>, b: seq<byte>, n: nat,
                                    arrivals: seq<seq<byte>>)
    requires e.mid != 0 && values != [] && |values| == e.values && Lead(lead) && Strip(b) == lead + Response(e, values)
    requires n + |Concat(arrivals)| <= |b| && b[n..n + |Concat(arrivals)|] == Concat(arrivals)
    requires Left(b, n) != [] && !(InsidePair(b, n) && |Left(b, n)| == 1)
    ensures Poll(e, b[..n], arrivals).0 ==
      match Tear(b, n, arrivals)
      case Some(half) => Some(values[..|values| - 1] + [half])
      case None => if Left(b, n + |Concat(arrivals)|) == [] then Some(values) else None
    decreases |arrivals|
  {
    hide Strip, FindFrom, Left, InsidePair;
    if arrivals != [] {
      var next, all := n + |arrivals[0]|, n + |Concat(arrivals)|;
      NextPiece(b, n, arrivals);
      FoundAtCut(e, lead, values, b, next);
      if Left(b, next) == [] {
        NoTearBehind(b, next, arrivals[1..]);
        LeftShrinks(b, next, all);
      } else if !(InsidePair(b, next) && |Left(b, next)| == 1) {
        PollFrom(e, lead, values, b, next, arrivals[1..]);
      }
    }
  }

  lemma NextPiece(b: seq<byte>, n: nat, arrivals: seq<seq<byte>>)
    requires arrivals != [] && n + |Concat(arrivals)| <= |b| && b[n..n + |Concat(arrivals)|] == Concat(arrivals)
    ensures var next, all := n + |arrivals[0]|, n + |Concat(arrivals)|;
      next <= all && b[..n] + arrivals[0] == b[..next] && b[next..all] == Concat(arrivals[1..])
  {
    TwoPieces(b, n, arrivals[0], Concat(arrivals[1..]));
  }

  lemma TwoPieces(b: seq<byte>, n: nat, x: seq<byte>, y: seq<byte>)
    requires n + |x| + |y| <= |b| && b[n..n + |x| + |y|] == x + y
    ensures b[..n] + x == b[..n + |x|] && b[n + |x|..n + |x| + |y|] == y
  {
    var both := b[n..n + |x| + |y|];
    assert both[..|x|] == x && both[|x|..] == y;
  }

  lemma {:induction false} NoTearBehind(b: seq<byte>, n: nat, arrivals: seq<seq<byte>>)
    requires n + |Concat(arrivals)| <= |b| && Left(b, n) == []
    ensures Tear(b, n, arrivals) == None
    decreases |arrivals|
  {
    hide Left, InsidePair;
    if arrivals != [] {
      LeftShrinks(b, n, n + |arrivals[0]|);
      NoTearBehind(b, n + |arrivals[0]|, arrivals[1..]);
    }
  }

  lemma {:induction false} PollLost(e: Expected, lead: seq<byte>, values: seq<byte>, gaps: seq<seq<byte>>, n: nat,
                                    arrivals: seq<seq<byte>>)
    requires e.mid != 0 && e.action <= 0x03 && values != [] && |values| == e.values && Lead(lead)
    requires Gaps(lead + Response(e, values), gaps) && !Guarded(lead + Response(e, values), gaps)
    requires var b := Spread(lead + Response(e, values), gaps);
      n + |Concat(arrivals)| <= |b| && b[n..n + |Concat(arrivals)|] == Concat(arrivals)
    ensures Poll(e, Spread(lead + Response(e, values), gaps)[..n], arrivals).0 == None
    decreases |arrivals|
  {
    hide Strip, FindFrom, Spread, Guarded, Response;
    if arrivals != [] {
      NextPiece(Spread(lead + Response(e, values), gaps), n, arrivals);
      LostAtCut(e, lead, values, gaps, n + |arrivals[0]|);
      PollLost(e, lead, values, gaps, n + |arrivals[0]|, arrivals[1..]);
    }
  }

  /** The pieces are a beginning of an answer, with status pairs anywhere in it. */
  predicate Served(e: Expected, lead: seq<byte>, values: seq<byte>, gaps: seq<seq<byte>>, arrivals: seq<seq<byte>>) {
    && e.mid != 0 && e.action <= 0x03 && values != [] && |values| == e.values && Lead(lead)
    && Gaps(lead + Response(e, values), gaps) && Concat(arrivals) <= Spread(lead + Response(e, values), gaps)
  }

  /**
   * Polling, exactly: whatever the values, wherever status pairs are put in, whatever pieces the answer arrives in. If a
   * byte of the answer looks like a pair with the next and has none put in behind it, nothing is ever found. Otherwise
   * the client reads the values as soon as they are complete; nothing if they are not when the time is up; and if a
   * piece ends inside a status pair right in front of the last value, the first half of that pair instead of that value.
   */
  lemma PollExactly(e: Expected, lead: seq<byte>, values: seq<byte>, gaps: seq<seq<byte>>, arrivals: seq<seq<byte>>)
    requires Served(e, lead, values, gaps, arrivals)
    ensures var p := lead + Response(e, values);
      var b := Spread(p, gaps);
      Poll(e, [], arrivals).0 ==
      if !Guarded(p, gaps) then None
      else match Tear(b, 0, arrivals)
        case Some(half) => Some(values[..|values| - 1] + [half])
        case None => if Left(b, |Concat(arrivals)|) == [] then Some(values) else None
  {
    hide Strip, FindFrom, Spread, Guarded, Response;
    var p := lead + Response(e, values);
    var b := Spread(p, gaps);
    assert b[0..] == b && b[..0] == [] && b[0..|Concat(arrivals)|] == Concat(arrivals);
    if Guarded(p, gaps) {
      StripRecoversIff(p, gaps);
      assert |p| > 0 by { ResponseLong(e, values); }
      PollFrom(e, lead, values, b, 0, arrivals);
    } else {
      PollLost(e, lead, values, gaps, 0, arrivals);
    }
  }

  lemma ResponseLong(e: Expected, values: seq<byte>)
    ensures |Response(e, values)| == 9 + |values|
  {
  }

  /** The pieces bring the values in time, and where a pair is torn its first half happens to be the last value. */
  predicate InTime(values: seq<byte>, b: seq<byte>, arrivals: seq<seq<byte>>)
    requires |Concat(arrivals)| <= |b| && values != []
  {
    match Tear(b, 0, arrivals)
    case Some(half) => half == values[|values| - 1]
    case None => Left(b, |Concat(arrivals)|) == []
  }

  /** Which answers, in which pieces, give exactly the values. */
  lemma PollReadsIff(e: Expected, lead: seq<byte>, values: seq<byte>, gaps: seq<seq<byte>>, arrivals: seq<seq<byte>>)
    requires Served(e, lead, values, gaps, arrivals)
    ensures var p := lead + Response(e, values);
      Poll(e, [], arrivals).0 == Some(values) <==> Guarded(p, gaps) && InTime(values, Spread(p, gaps), arrivals)
    ensures Poll(e, [], arrivals).0.Some? ==> Poll(e, [], arrivals).1 == [] && |Poll(e, [], arrivals).0.value| == |values|
  {
    hide Strip, FindFrom, Spread, Guarded, Response, Left, Poll;
    PollExactly(e, lead, values, gaps, arrivals);
    assert values == values[..|values| - 1] + [values[|values| - 1]];
    FoundClears(e, [], arrivals);
    var half := Tear(Spread(lead + Response(e, values), gaps), 0, arrivals);
    if half.Some? {
      assert (values[..|values| - 1] + [half.value])[|values| - 1] == half.value;
    }
  }

  lemma {:induction false} FoundClears(e: Expected, buf: seq<byte>, arrivals: seq<seq<byte>>)
    ensures Poll(e, buf, arrivals).0.Some? ==> Poll(e, buf, arrivals).1 == []
    decreases |arrivals|
  {
    hide Strip, FindFrom;
    if arrivals != [] {
      FoundClears(e, buf + arrivals[0], arrivals[1..]);
    }
  }

  lemma TornStream(r: seq<byte>, n: nat)
    requires |r| == n + 1
    ensures Inserted(r[..n] + [0x00, 0xA5, r[n]], r)
  {
    var front, last, pair := r[..n], [r[n]], [[0x00], []];
    assert Pairs([]) == [] && Pairs([0x00]) == [0x00, 0xA5] + [];
    assert pair[1..] == [[]] && last[1..] == [];
    assert Tail([], [[]]) == [] && Spread([], [[]]) == [];
    assert Spread(last, pair) == [0x00, 0xA5, r[n]];
    SpreadNothing(front);
    SpreadAppend(front, NoGaps(n), last, pair);
    assert front + last == r;
  }

  lemma TornLeft(b: seq<byte>, n: nat)
    requires |b| == n + 3 && b[n] == 0x00 && b[n + 1] == 0xA5
    ensures InsidePair(b, n + 1) && Left(b, n + 1) == [b[n + 2]]
  {
    hide Strip;
    var last := b[n + 2..];
    assert last == [b[n + 2]] && last[1..] == [];
    StripByte(last);
    StripNothing();
  }

  /** A status pair torn in front of the last value: whatever that value is, 0 is read in its place. */
  lemma TornBeforeLast(e: Expected, values: seq<byte>)
    requires e.mid != 0 && values != [] && |values| == e.values && Clean(Response(e, values))
    ensures var r := Response(e, values);
      var first, second := r[..|r| - 1] + [0x00], [0xA5, r[|r| - 1]];
      && Inserted(first + second, r)
      && Poll(e, [], [first, second]).0 == Some(values[..|values| - 1] + [0x00])
  {
    var r := Response(e, values);
    var n := |r| - 1;
    var first, second := r[..n] + [0x00], [0xA5, r[n]];
    var b := first + second;
    hide Inserted, Strip, FindFrom, Clean, Response, Left, InsidePair;
    TornStream(r, n);
    StripRecovers(r[..n] + [0x00, 0xA5, r[n]], r);
    assert b == r[..n] + [0x00, 0xA5, r[n]];
    TornLeft(b, n);
    assert [] + r == r;
    FoundAtCut(e, [], values, b, n + 1);
    assert b[..n + 1] == first == [] + first;
  }

  /** For one: the values are 7 and 9, and 7 and 0 are read. */
  lemma TornPairMisread()
    ensures var e, first, second := Expected(1, 0, 2), [0x2B, 0xD4, 0x22, 0xDD, 5, 0, 0x20, 1, 0, 7, 0x00], [0xA5, 9];
      && Clean(Response(e, [7, 9])) && Inserted(first + second, Response(e, [7, 9]))
      && Poll(e, [], [first, second]).0 == Some([7, 0])
  {
    var e, values := Expected(1, 0, 2), [7, 9];
    var r := Response(e, values);
    TornFront(r);
    hide Inserted, Poll, Clean, Response;
    ResponseCleanIff(e, values);
    PlainValues();
    TornBeforeLast(e, values);
  }

  lemma TornFront(r: seq<byte>)
    requires r == Response(Expected(1, 0, 2), [7, 9])
    ensures |r| == 11 && r[10] == 9 && r[..10] + [0x00] == [0x2B, 0xD4, 0x22, 0xDD, 5, 0, 0x20, 1, 0, 7, 0x00]
  {
    assert r == [0x2B, 0xD4, 0x22, 0xDD, 5, 0, 0x20, 1, 0, 7, 9];
  }

  lemma PlainValues()
    ensures Clean([7, 9]) && [7, 9][..1] + [0x00] == [7, 0]
  {
  }

  // ----------------------------------------------------------------- client

  function AddressPayload(addrs: seq<nat>): seq<byte> {
    if addrs == [] then [] else [addrs[0] % 0x100, addrs[0] / 0x100 % 0x100] + AddressPayload(addrs[1..])
  }

  lemma {:induction false} AddressBytes(addrs: seq<nat>)
    ensures |AddressPayload(addrs)| == 2 * |addrs|
  {
    if addrs != [] {
      AddressBytes(addrs[1..]);
    }
  }

  function ReadRequest(mid: byte, addrs: seq<nat>): Message
    requires |addrs| < 0x100
  {
    Message(mid, 0x00, [|addrs|] + AddressPayload(addrs))
  }

  /** Up to 125 addresses fit into one frame, and no more. */
  lemma AddressesFit(mid: byte, addrs: seq<nat>)
    requires |addrs| < 0x100
    ensures MakeFrame(mid, 0x00, [|addrs|] + AddressPayload(addrs)).Ok? <==> |addrs| <= 125
  {
    AddressBytes(addrs);
  }

  // -------------------------------------------------- the cart's reading

  /** 16-bit addresses, low byte first. */
  function Addresses(s: seq<byte>): seq<nat> {
    if |s| < 2 then [] else [s[0] as int + 0x100 * (s[1] as int)] + Addresses(s[2..])
  }

  /** A body as a request for single addresses: its id, and as many addresses as it counts. */
  function Requested(body: seq<byte>): Option<(byte, seq<nat>)> {
    if |body| < 4 || body[1] != 0x00 || |body| != 4 + 2 * body[2] as int || !ChecksumOk(body) then None
    else Some((body[0], Addresses(body[3..|body| - 1])))
  }

  /** What is asked for by a list of bodies. */
  function Asked(bodies: seq<seq<byte>>): seq<nat> {
    if bodies == [] then []
    else (if Requested(bodies[0]).Some? then Requested(bodies[0]).value.1 else []) + Asked(bodies[1..])
  }

  function LowWords(addrs: seq<nat>): (r: seq<nat>)
    ensures |r| == |addrs| && forall i :: 0 <= i < |r| ==> r[i] == addrs[i] % 0x1_0000
  {
    seq(|addrs|, i requires 0 <= i < |addrs| => addrs[i] % 0x1_0000)
  }

  lemma WordParts(x: nat, low: nat, high: nat, top: nat)
    requires low < 0x100 && high < 0x100 && x == 0x1_0000 * top + 0x100 * high + low
    ensures x % 0x1_0000 == low + 0x100 * high
  {
  }

  lemma LowWord(x: nat)
    ensures x % 0x100 + 0x100 * (x / 0x100 % 0x100) == x % 0x1_0000
  {
    var low, rest := x % 0x100, x / 0x100;
    var high, top := rest % 0x100, rest / 0x100;
    assert x == 0x100 * rest + low;
    assert rest == 0x100 * top + high;
    WordParts(x, low, high, top);
  }

  /** The cart reads the addresses that were written. */
  lemma {:induction false} AddressesRead(addrs: seq<nat>)
    ensures Addresses(AddressPayload(addrs)) == LowWords(addrs)
  {
    if addrs != [] {
      var more := AddressPayload(addrs[1..]);
      assert AddressPayload(addrs)[2..] == more;
      LowWord(addrs[0]);
      AddressesRead(addrs[1..]);
      assert LowWords(addrs) == [addrs[0] % 0x1_0000] + LowWords(addrs[1..]);
    }
  }

  /** And the request: from the frame that was written it takes the id and exactly the addresses, each in its low word. */
  lemma RequestRead(mid: byte, addrs: seq<nat>)
    requires |addrs| <= 125
    ensures Fits(ReadRequest(mid, addrs))
    ensures var body := Body(mid, 0x00, [|addrs|] + AddressPayload(addrs));
      Bodies([ReadRequest(mid, addrs)]) == [body] && Requested(body) == Some((mid, LowWords(addrs)))
  {
    var m := ReadRequest(mid, addrs);
    var body := Body(m.mid, m.action, m.payload);
    AddressesFit(mid, addrs);
    AddressBytes(addrs);
    ChecksumHolds(m);
    AddressesRead(addrs);
    assert Bodies([m]) == [body] by { OneBody(m); }
    assert ChecksumOk(body);
    hide Sum, Body, Addresses, Bodies, AddressPayload, ChecksumOk;
    PayloadParts(body, |addrs|, AddressPayload(addrs));
  }

  lemma OneBody(m: Message)
    ensures Bodies([m]) == [Body(m.mid, m.action, m.payload)]
  {
    hide Body;
    assert [m][1..] == [];
  }

  lemma PayloadParts(body: seq<byte>, first: byte, more: seq<byte>)
    requires |body| >= 3 && body[2..|body| - 1] == [first] + more
    ensures |body| == 4 + |more| && body[2] == first && body[3..|body| - 1] == more
  {
    var payload := body[2..|body| - 1];
    assert payload[0] == body[2] && payload[1..] == body[3..|body| - 1];
  }

  class CCClient {
    var msgId: byte
    var rxBuf: seq<byte>
    var expected: Expected
    var written: seq<byte>

    constructor ()
      ensures msgId == 0 && rxBuf == [] && expected == Expected(0, 0, 0) && written == []
    {
      msgId, rxBuf, expected, written := 0, [], Expected(0, 0, 0), [];
    }

    /** `_next_mid`: ids run through 1 to 255 and never are 0. */
    method NextMid() returns (mid: byte)
      modifies this`msgId
      ensures msgId == mid && mid != 0 && mid == old(msgId) % 255 + 1
    {
      msgId := (msgId + 1) % 0x100;
      if msgId == 0 {
        msgId := 1;
      }
      mid := msgId;
    }

    /** `send_read_addrs`; the USB header around the frame is left out. */
    method SendReadAddrs(addrs: seq<nat>) returns (ok: bool)
      requires |addrs| < 0x100
      modifies this`msgId, this`expected, this`written
      ensures ok == (|addrs| <= 125) && msgId == old(msgId) % 255 + 1
      ensures ok ==> expected == Expected(msgId, 0x00, |addrs|)
      ensures ok ==> Fits(ReadRequest(msgId, addrs)) && written == old(written) + Frames([ReadRequest(msgId, addrs)])
      ensures !ok ==> expected == old(expected) && written == old(written)
    {
      var mid := NextMid();
      var payload := [|addrs|];
      var i := 0;
      assert addrs[0..] == addrs;
      while i < |addrs|
        invariant 0 <= i <= |addrs| && payload + AddressPayload(addrs[i..]) == [|addrs|] + AddressPayload(addrs)
      {
        var low, high := addrs[i] % 0x100, addrs[i] / 0x100 % 0x100;
        assert addrs[i..][1..] == addrs[i + 1..];
        assert payload + ([low, high] + AddressPayload(addrs[i + 1..])) == payload + [low, high] + AddressPayload(addrs[i + 1..]);
        payload := payload + [low, high];
        i := i + 1;
      }
      assert payload + [] == payload;
      AddressesFit(mid, addrs);
      var frame := MakeFrame(mid, 0x00, payload);
      if frame.Err? {
        return false;
      }
      var ms := [ReadRequest(mid, addrs)];
      assert frame.value + [] == frame.value && ms[1..] == [];
      written := written + frame.value;
      expected := Expected(mid, 0x00, |addrs|);
      return true;
    }

    /** One round of `poll_response`, with the bytes that came in. */
    method PollOnce(incoming: seq<byte>) returns (values: Option<seq<byte>>)
      modifies this`rxBuf
      ensures values == FindFrom(expected, Strip(old(rxBuf) + incoming), 0)
      ensures rxBuf == if values.Some? then [] else old(rxBuf) + incoming
    {
      rxBuf := rxBuf + incoming;
      var filt := StripStatusPairs(rxBuf);
      var i := 0;
      while i + 3 < |filt|
        invariant FindFrom(expected, filt, i) == FindFrom(expected, filt, 0)
        decreases |filt| - i
      {
        if filt[i] == 0x20 && filt[i + 1] == expected.mid && filt[i + 2] in {expected.action, 0x00} {
          var start := i + 3;
          var end := start + expected.values;
          if end <= |filt| {
            rxBuf := [];
            return Some(filt[start..end]);
          }
        }
        i := i + 1;
      }
      return None;
    }

    /** `poll_response`; `arrivals` is what each round reads before the time is up. */
    method PollResponse(arrivals: seq<seq<byte>>) returns (values: Option<seq<byte>>)
      modifies this`rxBuf
      ensures (values, rxBuf) == Poll(expected, old(rxBuf), arrivals)
    {
      hide Strip, FindFrom;
      var i := 0;
      assert arrivals[0..] == arrivals;
      while i < |arrivals|
        invariant 0 <= i <= |arrivals|
        invariant Poll(expected, rxBuf, arrivals[i..]) == Poll(expected, old(rxBuf), arrivals)
      {
        assert arrivals[i..][1..] == arrivals[i + 1..];
        values := PollOnce(arrivals[i]);
        if values.Some? {
          return;
        }
        i := i + 1;
      }
      return None;
    }

    /** `read_addrs`; `arriving(k)` is what the rounds of request `k` read. */
    method ReadAddrs(addrs: seq<nat>, arriving: nat -> seq<seq<byte>>) returns (out: Option<seq<byte>>)
      modifies this
      ensures out == ReadFrom(old(msgId), old(rxBuf), addrs, arriving, 0)
      ensures exists k :: 0 <= k <= |Requests(old(msgId), addrs)| && (out.Some? ==> k == |Requests(old(msgId), addrs)|)
                          && written == old(written) + RequestFrames(old(msgId), addrs, k)
    {
      hide Strip, FindFrom, Poll, RequestFrames, Frames, Fits, Requests, AddressPayload;
      var all: seq<byte> := [];
      var start, k := 0, 0;
      assert addrs[0..] == addrs;
      PrependNothing(ReadFrom(msgId, rxBuf, addrs, arriving, 0));
      NoFrames(msgId, addrs);
      assert written + [] == written;
      ghost var all' := Requests(msgId, addrs);
      while start < |addrs|
        invariant 0 <= start <= |addrs|
        invariant Prepend(all, ReadFrom(msgId, rxBuf, addrs[start..], arriving, k))
               == ReadFrom(old(msgId), old(rxBuf), addrs, arriving, 0)
        invariant k <= |all'| && Requests(msgId, addrs[start..]) == all'[k..]
        invariant written == old(written) + RequestFrames(old(msgId), addrs, k)
      {
        var size := ChunkSize(addrs[start..]);
        var chunk := addrs[start..start + size];
        assert addrs[start..][size..] == addrs[start + size..];
        FirstRequest(msgId, addrs[start..], all', k);
        assert addrs[start..][..size] == chunk;
        NextFrame(old(msgId), addrs, k);
        ghost var sent := RequestFrames(old(msgId), addrs, k);
        assert old(written) + sent + Frames([all'[k]]) == old(written) + (sent + Frames([all'[k]]));
        var _ := SendReadAddrs(chunk);
        var values := PollResponse(arriving(k));
        if values.None? {
          return None;
        }
        PrependTwice(all, values.value, ReadFrom(msgId, rxBuf, addrs[start + size..], arriving, k + 1));
        all := all + values.value;
        start, k := start + size, k + 1;
      }
      assert all + [] == all;
      NoRequests(msgId);
      return Some(all);
    }
  }

  // ------------------------------------------------------- the whole read

  function ChunkSize(addrs: seq<nat>): (n: nat)
    requires addrs != []
    ensures 0 < n <= 100 && n <= |addrs|
  {
    if |addrs| < 100 then |addrs| else 100
  }

  function Prepend(front: seq<byte>, rest: Option<seq<byte>>): Option<seq<byte>> {
    if rest.Some? then Some(front + rest.value) else None
  }

  lemma PrependNothing(rest: Option<seq<byte>>)
    ensures Prepend([], rest) == rest
  {
    if rest.Some? {
      assert [] + rest.value == rest.value;
    }
  }

  lemma PrependTwice(a: seq<byte>, b: seq<byte>, rest: Option<seq<byte>>)
    ensures Prepend(a, Prepend(b, rest)) == Prepend(a + b, rest)
  {
    if rest.Some? {
      assert a + (b + rest.value) == a + b + rest.value;
    }
  }

  /** `read_addrs` from request `k` on: chunks of a hundred addresses, each with an id of its own. */
  function ReadFrom(id: byte, buf: seq<byte>, addrs: seq<nat>, arriving: nat -> seq<seq<byte>>, k: nat): Option<seq<byte>>
    decreases |addrs|
  {
    if addrs == [] then Some([])
    else
      var n, mid := ChunkSize(addrs), id % 255 + 1;
      var (got, buf') := Poll(Expected(mid, 0x00, n), buf, arriving(k));
      if got.None? then None else Prepend(got.value, ReadFrom(mid, buf', addrs[n..], arriving, k + 1))
  }

  /** The requests of a read: a hundred addresses each, under the ids that follow one another. */
  function Requests(id: byte, addrs: seq<nat>): seq<Message>
    decreases |addrs|
  {
    if addrs == [] then []
    else [ReadRequest(id % 255 + 1, addrs[..ChunkSize(addrs)])] + Requests(id % 255 + 1, addrs[ChunkSize(addrs)..])
  }

  lemma {:induction false} RequestsFit(id: byte, addrs: seq<nat>)
    ensures forall m :: m in Requests(id, addrs) ==> Fits(m)
    decreases |addrs|
  {
    hide Fits;
    if addrs != [] {
      RequestRead(id % 255 + 1, addrs[..ChunkSize(addrs)]);
      RequestsFit(id % 255 + 1, addrs[ChunkSize(addrs)..]);
    }
  }

  /** The frames of the first `k` requests. */
  function RequestFrames(id: byte, addrs: seq<nat>, k: nat): seq<byte>
    requires k <= |Requests(id, addrs)|
  {
    RequestsFit(id, addrs);
    Frames(Requests(id, addrs)[..k])
  }

  lemma NoFrames(id: byte, addrs: seq<nat>)
    ensures RequestFrames(id, addrs, 0) == []
  {
  }

  lemma {:induction false} FramesSnoc(ms: seq<Message>, m: Message)
    requires Fits(m) && forall x :: x in ms ==> Fits(x)
    ensures (forall x :: x in ms + [m] ==> Fits(x)) && Frames(ms + [m]) == Frames(ms) + Frames([m])
  {
    hide MakeFrame;
    if ms == [] {
      assert ms + [m] == [m] && [] + Frames([m]) == Frames([m]);
    } else {
      FramesSnoc(ms[1..], m);
      assert (ms + [m])[1..] == ms[1..] + [m];
      assert ms[0] in ms;
      var first := MakeFrame(ms[0].mid, ms[0].action, ms[0].payload).value;
      assert first + (Frames(ms[1..]) + Frames([m])) == first + Frames(ms[1..]) + Frames([m]);
    }
  }

  lemma NextFrame(id: byte, addrs: seq<nat>, k: nat)
    requires k < |Requests(id, addrs)|
    ensures Fits(Requests(id, addrs)[k])
    ensures RequestFrames(id, addrs, k + 1) == RequestFrames(id, addrs, k) + Frames([Requests(id, addrs)[k]])
  {
    hide Frames, Requests, Fits;
    var ms := Requests(id, addrs);
    RequestsFit(id, addrs);
    FramesSnoc(ms[..k], ms[k]);
    assert ms[..k + 1] == ms[..k] + [ms[k]];
  }

  lemma NoRequests(id: byte)
    ensures Requests(id, []) == []
  {
  }

  lemma FirstRequest(id: byte, addrs: seq<nat>, all: seq<Message>, k: nat)
    requires addrs != [] && k <= |all| && Requests(id, addrs) == all[k..]
    ensures k < |all| && all[k] == ReadRequest(id % 255 + 1, addrs[..ChunkSize(addrs)])
    ensures Requests(id % 255 + 1, addrs[ChunkSize(addrs)..]) == all[k + 1..]
  {
    assert all[k..][0] == all[k] && all[k..][1..] == all[k + 1..];
  }

  /** They are as many as there are hundreds begun, and what the cart reads in them is all the addresses in their order. */
  lemma {:induction false} RequestsAsk(id: byte, addrs: seq<nat>)
    ensures |Requests(id, addrs)| == (|addrs| + 99) / 100 && Asked(Bodies(Requests(id, addrs))) == LowWords(addrs)
    decreases |addrs|
  {
    hide Requested, Body;
    if addrs != [] {
      var n, mid := ChunkSize(addrs), id % 255 + 1;
      RequestRead(mid, addrs[..n]);
      RequestsAsk(mid, addrs[n..]);
      var first, more := Body(mid, 0x00, [n] + AddressPayload(addrs[..n])), Bodies(Requests(mid, addrs[n..]));
      assert Bodies(Requests(id, addrs)) == [first] + more;
      assert ([first] + more)[1..] == more;
      assert LowWords(addrs) == LowWords(addrs[..n]) + LowWords(addrs[n..]);
    }
  }

  /** So the cart reads back, from all that a read has written, the addresses that were asked for. */
  lemma RequestsRead(id: byte, addrs: seq<nat>)
    ensures Asked(ReadBodies(RequestFrames(id, addrs, |Requests(id, addrs)|)).0) == LowWords(addrs)
    ensures (forall a :: a in addrs ==> a < 0x1_0000) ==> LowWords(addrs) == addrs
  {
    hide ReadBodies, Frames, Fits, Bodies, Requests, Asked, HoldsBody;
    var ms := Requests(id, addrs);
    RequestsFit(id, addrs);
    NothingHeld();
    ReadsFrames(ms, []);
    assert Frames(ms) + [] == Frames(ms) && ms[..|ms|] == ms;
    RequestsAsk(id, addrs);
    assert forall i :: 0 <= i < |addrs| ==> addrs[i] in addrs;
  }

  /** The memory at the low words of the addresses. */
  function Contents(memory: nat -> byte, addrs: seq<nat>): (r: seq<byte>)
    ensures |r| == |addrs| && forall i :: 0 <= i < |r| ==> r[i] == memory(addrs[i] % 0x1_0000)
  {
    seq(|addrs|, i requires 0 <= i < |addrs| => memory(addrs[i] % 0x1_0000))
  }

  /** How many bytes the rounds read up to the one that finds something. */
  function Consumed(e: Expected, buf: seq<byte>, arrivals: seq<seq<byte>>): (n: nat)
    ensures n <= |Concat(arrivals)|
    decreases |arrivals|
  {
    if arrivals == [] then 0
    else
      var here := buf + arrivals[0];
      |arrivals[0]| + if FindFrom(e, Strip(here), 0).Some? then 0 else Consumed(e, here, arrivals[1..])
  }

  // ----------------------------------------------- what a read leaves behind

  /** What a client can find on the line before it asks: status pairs, and the end of a pair or of an answer it has left. */
  ghost predicate Remains(rest: seq<byte>) {
    exists lead, gaps :: Lead(lead) && Gaps(lead, gaps) && rest == Spread(lead, gaps)
  }

  /** The end of a torn pair, and what stripping leaves behind it. */
  lemma HalfRemains(b: seq<byte>, n: nat)
    requires InsidePair(b, n) && Lead([0xA5] + Left(b, n))
    ensures Remains(b[n..])
  {
    hide Strip, Spread;
    var gaps := Respread(b[n + 1..]);
    LeadSpread(Strip(b[n + 1..]), gaps);
    assert b[n..] == [0xA5] + b[n + 1..];
  }

  lemma LeadSpread(p: seq<byte>, gaps: seq<seq<byte>>)
    requires Gaps(p, gaps)
    ensures Gaps([0xA5] + p, [[]] + gaps) && Spread([0xA5] + p, [[]] + gaps) == [0xA5] + Spread(p, gaps)
  {
    var all := [[]] + gaps;
    assert all[1..] == gaps && ([0xA5] + p)[1..] == p;
    assert forall g :: g in all ==> g == [] || g in gaps;
  }

  lemma PairsRemain(b: seq<byte>, n: nat)
    requires n <= |b| && !InsidePair(b, n) && Left(b, n) == []
    ensures Remains(b[n..])
  {
    hide Strip, Spread;
    var gaps := Respread(b[n..]);
  }

  /** After a read that came out right, and where it ended. */
  lemma {:induction false} RightLeaves(e: Expected, lead: seq<byte>, values: seq<byte>, b: seq<byte>, n: nat,
                                       arrivals: seq<seq<byte>>)
    requires e.mid != 0 && values != [] && |values| == e.values && Lead(lead) && Strip(b) == lead + Response(e, values)
    requires n + |Concat(arrivals)| <= |b| && b[n..n + |Concat(arrivals)|] == Concat(arrivals)
    requires Left(b, n) != []
    requires match Tear(b, n, arrivals)
      case Some(half) => half == values[|values| - 1]
      case None => Left(b, n + |Concat(arrivals)|) == []
    ensures Remains(b[n + Consumed(e, b[..n], arrivals)..])
    decreases |arrivals|
  {
    hide Strip, FindFrom, Left, InsidePair, Response, Remains, Lead;
    if arrivals != [] {
      var next := n + |arrivals[0]|;
      NextPiece(b, n, arrivals);
      FoundAtCut(e, lead, values, b, next);
      if Left(b, next) == [] {
        DoneRemains(b, next);
      } else if InsidePair(b, next) && |Left(b, next)| == 1 {
        LastLeft(b, next, lead + Response(e, values));
        LastValue(e, lead, values);
        TornRemains(b, next);
      } else {
        RightLeaves(e, lead, values, b, next, arrivals[1..]);
      }
    }
  }

  lemma DoneRemains(b: seq<byte>, n: nat)
    requires n <= |b| && Left(b, n) == []
    ensures Remains(b[n..])
  {
    if InsidePair(b, n) {
      assert [0xA5] + [] == [0xA5];
      HalfRemains(b, n);
    } else {
      PairsRemain(b, n);
    }
  }

  lemma LastValue(e: Expected, lead: seq<byte>, values: seq<byte>)
    requires values != []
    ensures var p := lead + Response(e, values); p[|p| - 1] == values[|values| - 1]
  {
  }

  lemma TornRemains(b: seq<byte>, n: nat)
    requires InsidePair(b, n) && Left(b, n) == [b[n - 1]]
    ensures Remains(b[n..])
  {
    assert [0xA5] + [b[n - 1]] == [0xA5, b[n - 1]];
    HalfRemains(b, n);
  }

  /** What remains and the next answer are together an answer with a lead; what remains does not look like a pair. */
  lemma NextServed(e: Expected, values: seq<byte>, rest: seq<byte>, gaps: seq<seq<byte>>)
      returns (lead: seq<byte>, all: seq<seq<byte>>)
    requires Remains(rest) && Gaps(Response(e, values), gaps)
    ensures Lead(lead) && Gaps(lead + Response(e, values), all)
    ensures rest + Spread(Response(e, values), gaps) == Spread(lead + Response(e, values), all)
    ensures Guarded(lead + Response(e, values), all) <==> Guarded(Response(e, values), gaps)
  {
    var g: seq<seq<byte>>;
    lead, g :| Lead(lead) && Gaps(lead, g) && rest == Spread(lead, g);
    hide Spread;
    all := Merge(g, gaps);
    SpreadAppend(lead, g, Response(e, values), gaps);
    GuardedAhead(lead, Response(e, values), g, gaps);
  }

  lemma GuardedAhead(lead: seq<byte>, r: seq<byte>, g: seq<seq<byte>>, gaps: seq<seq<byte>>)
    requires Lead(lead) && r != [] && r[0] != 0xA5 && |g| == |lead| + 1 && |gaps| == |r| + 1
    ensures |Merge(g, gaps)| == |lead + r| + 1 && (Guarded(lead + r, Merge(g, gaps)) <==> Guarded(r, gaps))
  {
    var p, all := lead + r, Merge(g, gaps);
    forall i | 0 <= i < |lead| ensures !StatusAt(p, i) {
    }
    assert forall i :: 0 <= i < |r| ==> StatusAt(r, i) == StatusAt(p, |lead| + i) && all[|lead| + i + 1] == gaps[i + 1];
    hide StatusAt, Merge;
    if Guarded(r, gaps) {
      forall i | 0 <= i < |p| && StatusAt(p, i) ensures all[i + 1] != [] {
        assert StatusAt(r, i - |lead|);
      }
    }
    if Guarded(p, all) {
      forall i | 0 <= i < |r| && StatusAt(r, i) ensures gaps[i + 1] != [] {
        assert StatusAt(p, |lead| + i);
      }
    }
  }

  // ---------------------------------------------------------- memory reads

  /** The memory, and the status pairs that get into the answer to each request. */
  datatype Cart = Cart(memory: nat -> byte, gaps: nat -> seq<seq<byte>>)

  /** What the cart answers to the bytes of one frame: the memory at the addresses it reads there. */
  function Answered(cart: Cart, frame: seq<byte>): seq<byte> {
    var bodies := ReadBodies(frame).0;
    if bodies == [] || Requested(bodies[0]).None? then []
    else
      var (mid, addrs) := Requested(bodies[0]).value;
      Response(Expected(mid, 0x00, |addrs|), Contents(cart.memory, addrs))
  }

  /** Its answer to the request for the first addresses. */
  function Answer(cart: Cart, mid: byte, addrs: seq<nat>): seq<byte>
    requires addrs != []
  {
    RequestRead(mid, addrs[..ChunkSize(addrs)]);
    Answered(cart, Frames([ReadRequest(mid, addrs[..ChunkSize(addrs)])]))
  }

  /** The cart has read what it was asked. */
  lemma AnswerIs(cart: Cart, mid: byte, addrs: seq<nat>)
    requires addrs != []
    ensures var n := ChunkSize(addrs);
      Answer(cart, mid, addrs) == Response(Expected(mid, 0x00, n), Contents(cart.memory, addrs[..n]))
  {
    var chunk := addrs[..ChunkSize(addrs)];
    var ms := [ReadRequest(mid, chunk)];
    RequestRead(mid, chunk);
    hide ReadBodies, Frames, Requested, Bodies, Body, HoldsBody;
    assert !HoldsBody([]) by { NothingHeld(); }
    ReadsFrames(ms, []);
    assert Frames(ms) + [] == Frames(ms);
    assert Contents(cart.memory, LowWords(chunk)) == Contents(cart.memory, chunk);
  }

  lemma NothingHeld()
    ensures !HoldsBody([])
  {
  }

  /**
   * What the rounds of each request read is a beginning of what is on the line then: `rest`, which earlier requests have
   * left there, and the answer.
   */
  predicate Arrives(cart: Cart, id: byte, rest: seq<byte>, addrs: seq<nat>, arriving: nat -> seq<seq<byte>>, k: nat)
    decreases |addrs|
  {
    addrs == [] ||
    (var n, mid := ChunkSize(addrs), id % 255 + 1;
     && Gaps(Answer(cart, mid, addrs), cart.gaps(k))
     && var line := rest + Spread(Answer(cart, mid, addrs), cart.gaps(k));
        && Concat(arriving(k)) <= line
        && Arrives(cart, mid, line[Consumed(Expected(mid, 0x00, n), [], arriving(k))..], addrs[n..], arriving, k + 1))
  }

  /**
   * Each request is read right: where the answer looks like a status pair one is put in between, it is complete in time,
   * and if it is torn in front of the last value, then by a pair that begins with that value.
   */
  predicate RightFrom(cart: Cart, id: byte, rest: seq<byte>, addrs: seq<nat>, arriving: nat -> seq<seq<byte>>, k: nat)
    requires Arrives(cart, id, rest, addrs, arriving, k)
    decreases |addrs|
  {
    addrs == [] ||
    (var n, mid := ChunkSize(addrs), id % 255 + 1;
     var line := rest + Spread(Answer(cart, mid, addrs), cart.gaps(k));
     && Guarded(Answer(cart, mid, addrs), cart.gaps(k))
     && InTime(Contents(cart.memory, addrs[..n]), line, arriving(k))
     && RightFrom(cart, mid, line[Consumed(Expected(mid, 0x00, n), [], arriving(k))..], addrs[n..], arriving, k + 1))
  }

  /** One request: it is read right or not, and a right read leaves the line so that the next one can start. */
  lemma RequestReadsIff(cart: Cart, mid: byte, rest: seq<byte>, addrs: seq<nat>, gaps: seq<seq<byte>>, arrivals: seq<seq<byte>>)
    requires mid != 0 && addrs != [] && Remains(rest) && Gaps(Answer(cart, mid, addrs), gaps)
    requires Concat(arrivals) <= rest + Spread(Answer(cart, mid, addrs), gaps)
    ensures var n := ChunkSize(addrs);
      var e, values := Expected(mid, 0x00, n), Contents(cart.memory, addrs[..n]);
      var line := rest + Spread(Answer(cart, mid, addrs), gaps);
      var (got, buf) := Poll(e, [], arrivals);
      && (got == Some(values) <==> Guarded(Answer(cart, mid, addrs), gaps) && InTime(values, line, arrivals))
      && (got.Some? ==> buf == [] && |got.value| == n)
      && (got == Some(values) ==> Remains(line[Consumed(e, [], arrivals)..]))
  {
    hide Spread, Guarded, Remains, Poll, Lead, Response, FindFrom, Strip;
    AnswerIs(cart, mid, addrs);
    hide Answer;
    var n := ChunkSize(addrs);
    var e, values := Expected(mid, 0x00, n), Contents(cart.memory, addrs[..n]);
    var lead, all := NextServed(e, values, rest, gaps);
    ServedSo(e, lead, values, all, arrivals);
    PollReadsIff(e, lead, values, all, arrivals);
    var p := lead + Response(e, values);
    var line := Spread(p, all);
    if Guarded(p, all) && InTime(values, line, arrivals) {
      hide Left;
      StripRecoversIff(p, all);
      ResponseLong(e, values);
      assert line[0..] == line && line[..0] == [] && line[0..|Concat(arrivals)|] == Concat(arrivals);
      RightLeaves(e, lead, values, line, 0, arrivals);
    }
  }

  lemma ServedSo(e: Expected, lead: seq<byte>, values: seq<byte>, gaps: seq<seq<byte>>, arrivals: seq<seq<byte>>)
    requires e.mid != 0 && e.action <= 0x03 && values != [] && |values| == e.values && Lead(lead)
    requires Gaps(lead + Response(e, values), gaps) && Concat(arrivals) <= Spread(lead + Response(e, values), gaps)
    ensures Served(e, lead, values, gaps, arrivals)
  {
  }

  /** From request `k` on, with what the requests before have left on the line. */
  lemma {:induction false} LineReadsIff(cart: Cart, id: byte, rest: seq<byte>, addrs: seq<nat>,
                                        arriving: nat -> seq<seq<byte>>, k: nat)
    requires Remains(rest) && Arrives(cart, id, rest, addrs, arriving, k)
    ensures ReadFrom(id, [], addrs, arriving, k) == Some(Contents(cart.memory, addrs)) <==>
            RightFrom(cart, id, rest, addrs, arriving, k)
    decreases |addrs|
  {
    hide Poll, Spread, Guarded, InTime, Remains, Answer, Consumed;
    if addrs != [] {
      var n, mid := ChunkSize(addrs), id % 255 + 1;
      var e, front := Expected(mid, 0x00, n), Contents(cart.memory, addrs[..n]);
      var line := rest + Spread(Answer(cart, mid, addrs), cart.gaps(k));
      RequestReadsIff(cart, mid, rest, addrs, cart.gaps(k), arriving(k));
      assert Contents(cart.memory, addrs) == front + Contents(cart.memory, addrs[n..]);
      var got := Poll(e, [], arriving(k)).0;
      if got == Some(front) {
        LineReadsIff(cart, mid, line[Consumed(e, [], arriving(k))..], addrs[n..], arriving, k + 1);
      }
      SplitRead(got, front, ReadFrom(mid, [], addrs[n..], arriving, k + 1), Contents(cart.memory, addrs[n..]));
    }
  }

  lemma SplitRead(got: Option<seq<byte>>, front: seq<byte>, more: Option<seq<byte>>, back: seq<byte>)
    requires got.Some? ==> |got.value| == |front|
    ensures got.Some? && Prepend(got.value, more) == Some(front + back) <==> got == Some(front) && more == Some(back)
  {
    if got.Some? && more.Some? {
      assert (got.value + more.value)[..|front|] == got.value && (got.value + more.value)[|front|..] == more.value;
      assert (front + back)[..|front|] == front && (front + back)[|front|..] == back;
    }
  }

  lemma QuietLine()
    ensures Remains([])
  {
    assert Spread([], [[]]) == [];
    assert Lead([]) && Gaps([], [[]]);
  }

  /**
   * A read of any number of addresses from a quiet line, in whatever pieces the answers arrive and wherever status pairs
   * get into them, gives the memory in the order of the addresses if and only if every request is read right.
   */
  lemma ReadsMemoryIff(cart: Cart, id: byte, addrs: seq<nat>, arriving: nat -> seq<seq<byte>>)
    requires Arrives(cart, id, [], addrs, arriving, 0)
    ensures ReadFrom(id, [], addrs, arriving, 0) == Some(Contents(cart.memory, addrs)) <==>
            RightFrom(cart, id, [], addrs, arriving, 0)
  {
    hide ReadFrom, Remains;
    QuietLine();
    LineReadsIff(cart, id, [], addrs, arriving, 0);
  }
}
