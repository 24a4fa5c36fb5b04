/** The status pairs that get into the serial stream of bridge/bridge_core/cc_client.py, and what stripping makes of them. */
module StatusPairs {
  import opened Bytes

  predicate StatusAt(b: seq<byte>, i: nat) { i + 1 < |b| && (b[i] == 0x00 || b[i] == 0x04) && b[i + 1] == 0xA5 }

  function Strip(b: seq<byte>): seq<byte>
    decreases |b|
  {
    if b == [] then [] else if StatusAt(b, 0) then Strip(b[2..]) else [b[0]] + Strip(b[1..])
  }

  /** `_strip_status_pairs`. */
  method StripStatusPairs(b: seq<byte>) returns (out: seq<byte>)
    ensures out == Strip(b)
  {
    out := [];
    var i := 0;
    assert b[0..] == b && [] + Strip(b) == Strip(b);
    while i < |b|
      invariant 0 <= i <= |b| && out + Strip(b[i..]) == Strip(b)
    {
      var rest := b[i..];
      assert rest[1..] == b[i + 1..];
      if i + 1 < |b| && b[i] in {0x00, 0x04} && b[i + 1] == 0xA5 {
        assert StatusAt(rest, 0) && rest[2..] == b[i + 2..];
        i := i + 2;
      } else {
        assert !StatusAt(rest, 0);
        assert out + ([b[i]] + Strip(b[i + 1..])) == out + [b[i]] + Strip(b[i + 1..]);
        out := out + [b[i]];
        i := i + 1;
      }
    }
    assert out + [] == out;
  }

  /** Nothing in it looks like a status pair. */
  predicate Clean(p: seq<byte>) { forall i :: 0 <= i < |p| ==> !StatusAt(p, i) }

  // ---------------------------------------------------------- inserted pairs

  predicate Halves(g: seq<byte>) { forall h :: h in g ==> h == 0x00 || h == 0x04 }

  /** Status pairs in a row, given by their first halves. */
  function Pairs(g: seq<byte>): seq<byte> { if g == [] then [] else [g[0], 0xA5] + Pairs(g[1..]) }

  /** Which pairs stand in front of each byte of the payload, and behind the last. */
  predicate Gaps(p: seq<byte>, gaps: seq<seq<byte>>) { |gaps| == |p| + 1 && forall g :: g in gaps ==> Halves(g) }

  /** The payload with these pairs put in. */
  function Spread(p: seq<byte>, gaps: seq<seq<byte>>): seq<byte>
    requires |gaps| == |p| + 1
    decreases |p|, 1
  {
    Pairs(gaps[0]) + Tail(p, gaps)
  }

  /** What follows the pairs in front. */
  function Tail(p: seq<byte>, gaps: seq<seq<byte>>): seq<byte>
    requires |gaps| == |p| + 1
    decreases |p|, 0
  {
    if p == [] then [] else [p[0]] + Spread(p[1..], gaps[1..])
  }

  /** Wherever the payload itself looks like a pair, a pair has been put in between the two bytes. */
  predicate Guarded(p: seq<byte>, gaps: seq<seq<byte>>)
    requires |gaps| == |p| + 1
  {
    forall i :: 0 <= i < |p| && StatusAt(p, i) ==> gaps[i + 1] != []
  }

  /** `b` is `p` with status pairs put in at byte boundaries. */
  ghost predicate Inserted(b: seq<byte>, p: seq<byte>) { exists gaps :: Gaps(p, gaps) && b == Spread(p, gaps) }

  lemma StripFirst(h: byte, rest: seq<byte>)
    requires h == 0x00 || h == 0x04
    ensures Strip([h, 0xA5] + rest) == Strip(rest)
  {
    assert ([h, 0xA5] + rest)[2..] == rest;
  }

  lemma {:induction false} StripPairs(g: seq<byte>, rest: seq<byte>)
    requires Halves(g)
    ensures Strip(Pairs(g) + rest) == Strip(rest)
  {
    hide Strip;
    if g == [] {
      assert [] + rest == rest;
    } else {
      assert g[0] in g && forall h :: h in g[1..] ==> h in g;
      StripFirst(g[0], Pairs(g[1..]) + rest);
      assert Pairs(g) + rest == [g[0], 0xA5] + (Pairs(g[1..]) + rest);
      StripPairs(g[1..], rest);
    }
  }

  lemma TailFirst(p: seq<byte>, gaps: seq<seq<byte>>)
    requires p != [] && |gaps| == |p| + 1
    ensures Tail(p, gaps) == [p[0]] + Spread(p[1..], gaps[1..])
  {
  }

  /** A stream begins with the first half of a pair, or with the payload. */
  lemma SpreadFirst(p: seq<byte>, gaps: seq<seq<byte>>)
    requires Gaps(p, gaps)
    ensures if gaps[0] == [] then Spread(p, gaps) == Tail(p, gaps)
            else Spread(p, gaps) != [] && Spread(p, gaps)[0] in {0x00, 0x04}
  {
    hide Tail;
    assert Halves(gaps[0]);
    if gaps[0] == [] {
      assert [] + Tail(p, gaps) == Tail(p, gaps);
    } else {
      assert gaps[0][0] in gaps[0];
    }
  }

  /** A payload byte and the next look like a pair exactly if they do so in the payload and no pair stands between. */
  lemma TailOpens(p: seq<byte>, gaps: seq<seq<byte>>)
    requires p != [] && Gaps(p, gaps)
    ensures StatusAt(Tail(p, gaps), 0) <==> StatusAt(p, 0) && gaps[1] == []
    ensures StatusAt(p, 0) && gaps[1] == [] ==> Tail(p, gaps)[2..] == Spread(p[2..], gaps[2..])
  {
    hide Spread, Tail, Pairs, Halves;
    var q, next := p[1..], gaps[1..];
    TailFirst(p, gaps);
    SpreadFirst(q, next);
    if gaps[1] == [] && q == [] {
      NothingBehind(next);
    } else if gaps[1] == [] {
      TailFirst(q, next);
      assert q[1..] == p[2..] && next[1..] == gaps[2..];
      assert Tail(p, gaps)[2..] == Spread(q, next)[1..] == Spread(p[2..], gaps[2..]);
    }
  }

  lemma NothingBehind(gaps: seq<seq<byte>>)
    requires |gaps| == 1
    ensures Tail([], gaps) == []
  {
  }

  lemma StripTail(p: seq<byte>, gaps: seq<seq<byte>>)
    requires p != [] && Gaps(p, gaps)
    ensures Strip(Spread(p, gaps)) ==
            if StatusAt(p, 0) && gaps[1] == [] then Strip(Spread(p[2..], gaps[2..]))
            else [p[0]] + Strip(Spread(p[1..], gaps[1..]))
  {
    hide Tail, Pairs;
    assert gaps[0] in gaps;
    StripPairs(gaps[0], Tail(p, gaps));
    TailOpens(p, gaps);
    TailFirst(p, gaps);
  }

  lemma GuardedTail(p: seq<byte>, gaps: seq<seq<byte>>)
    requires p != [] && |gaps| == |p| + 1
    ensures Guarded(p, gaps) <==> !(StatusAt(p, 0) && gaps[1] == []) && Guarded(p[1..], gaps[1..])
  {
    var q, next := p[1..], gaps[1..];
    assert forall i :: 0 <= i < |q| ==> StatusAt(q, i) == StatusAt(p, i + 1) && next[i + 1] == gaps[i + 2];
    if Guarded(q, next) && !(StatusAt(p, 0) && gaps[1] == []) {
      forall i | 0 <= i < |p| && StatusAt(p, i) ensures gaps[i + 1] != [] {
        assert i > 0 ==> StatusAt(q, i - 1);
      }
    }
  }

  /** Otherwise two bytes at least are lost. */
  lemma {:induction false} StripSpread(p: seq<byte>, gaps: seq<seq<byte>>)
    requires Gaps(p, gaps)
    ensures if Guarded(p, gaps) then Strip(Spread(p, gaps)) == p else |Strip(Spread(p, gaps))| + 2 <= |p|
    ensures |Strip(Spread(p, gaps))| <= |p|
    decreases |p|
  {
    hide Strip, Spread, Guarded, StatusAt, Halves;
    if p == [] {
      NothingSpread(gaps);
    } else {
      StripTail(p, gaps);
      GuardedTail(p, gaps);
      if StatusAt(p, 0) && gaps[1] == [] {
        assert |p| > 1 by { StatusTwo(p, 0); }
        StripSpread(p[2..], gaps[2..]);
      } else {
        StripSpread(p[1..], gaps[1..]);
        assert [p[0]] + p[1..] == p;
      }
    }
  }

  lemma StatusTwo(p: seq<byte>, i: nat)
    requires StatusAt(p, i)
    ensures i + 1 < |p|
  {
  }

  lemma NothingSpread(gaps: seq<seq<byte>>)
    requires Gaps([], gaps)
    ensures Strip(Spread([], gaps)) == [] && Guarded([], gaps)
  {
    StripPairs(gaps[0], []);
  }

  /** Stripping gives the payload back if and only if every place in it that looks like a pair has a pair put in. */
  lemma StripRecoversIff(p: seq<byte>, gaps: seq<seq<byte>>)
    requires Gaps(p, gaps)
    ensures Strip(Spread(p, gaps)) == p <==> Guarded(p, gaps)
  {
    hide Strip, Spread, Guarded;
    StripSpread(p, gaps);
  }

  /** In particular, a clean payload comes back from any insertion of status pairs. */
  lemma StripRecovers(b: seq<byte>, p: seq<byte>)
    requires Inserted(b, p) && Clean(p)
    ensures Strip(b) == p
  {
    hide Strip, Spread;
    var gaps :| Gaps(p, gaps) && b == Spread(p, gaps);
    StripRecoversIff(p, gaps);
  }

  function NoGaps(n: nat): (r: seq<seq<byte>>)
    ensures |r| == n + 1 && forall i :: 0 <= i <= n ==> r[i] == []
  {
    seq(n + 1, _ => [])
  }

  lemma {:induction false} SpreadNothing(p: seq<byte>)
    ensures Gaps(p, NoGaps(|p|)) && Spread(p, NoGaps(|p|)) == p
  {
    if p != [] {
      SpreadNothing(p[1..]);
      assert NoGaps(|p|)[1..] == NoGaps(|p| - 1);
    }
  }

  /** And where nothing was put in, only a clean payload comes back. */
  lemma StripKeepsIffClean(p: seq<byte>)
    ensures Strip(p) == p <==> Clean(p)
  {
    hide Strip, Spread;
    SpreadNothing(p);
    StripRecoversIff(p, NoGaps(|p|));
  }

  lemma ConsFront(a: byte, q: seq<byte>, n: nat)
    requires 0 < n <= |q| + 1
    ensures ([a] + q)[..n] == [a] + q[..n - 1]
  {
  }

  /** Up to a place that looks like a pair and has none put in, the payload is kept in any case. */
  lemma {:induction false} StripKeepsFront(p: seq<byte>, gaps: seq<seq<byte>>, n: nat)
    requires Gaps(p, gaps) && n <= |p| && forall i :: 0 <= i < n ==> !StatusAt(p, i)
    ensures n <= |Strip(Spread(p, gaps))| && Strip(Spread(p, gaps))[..n] == p[..n]
    decreases n
  {
    hide Strip, Spread;
    if n > 0 {
      StripTail(p, gaps);
      assert forall i :: 0 <= i < n - 1 ==> StatusAt(p[1..], i) == StatusAt(p, i + 1);
      StripKeepsFront(p[1..], gaps[1..], n - 1);
      ConsFront(p[0], p[1..], n);
      ConsFront(p[0], Strip(Spread(p[1..], gaps[1..])), n);
      assert [p[0]] + p[1..] == p;
    }
  }

  /** The pairs behind one payload and in front of the next stand together. */
  function Merge(g: seq<seq<byte>>, h: seq<seq<byte>>): seq<seq<byte>>
    requires g != [] && h != []
  {
    g[..|g| - 1] + [g[|g| - 1] + h[0]] + h[1..]
  }

  lemma {:induction false} PairsAppend(g: seq<byte>, h: seq<byte>)
    ensures Pairs(g + h) == Pairs(g) + Pairs(h)
  {
    if g == [] {
      assert g + h == h;
    } else {
      assert (g + h)[1..] == g[1..] + h;
      PairsAppend(g[1..], h);
    }
  }

  lemma SameTail(q: seq<byte>, h: seq<seq<byte>>, all: seq<seq<byte>>)
    requires |h| == |all| == |q| + 1 && all[1..] == h[1..]
    ensures Tail(q, all) == Tail(q, h)
  {
  }

  lemma PairsAhead(front: seq<byte>, q: seq<byte>, h: seq<seq<byte>>, all: seq<seq<byte>>)
    requires |h| == |all| == |q| + 1 && all[0] == front + h[0] && all[1..] == h[1..]
    ensures Pairs(front) + Spread(q, h) == Spread(q, all)
  {
    hide Pairs, Tail;
    PairsAppend(front, h[0]);
    SameTail(q, h, all);
    assert Pairs(front) + (Pairs(h[0]) + Tail(q, h)) == Pairs(front) + Pairs(h[0]) + Tail(q, h);
  }

  lemma {:induction false} SpreadAppend(p: seq<byte>, g: seq<seq<byte>>, q: seq<byte>, h: seq<seq<byte>>)
    requires Gaps(p, g) && Gaps(q, h)
    ensures Gaps(p + q, Merge(g, h)) && Spread(p, g) + Spread(q, h) == Spread(p + q, Merge(g, h))
  {
    MergeGaps(p, g, q, h);
    if p == [] {
      assert p + q == q && Merge(g, h)[1..] == h[1..];
      PairsAhead(g[0], q, h, Merge(g, h));
      assert Spread(p, g) == Pairs(g[0]);
    } else {
      hide Pairs;
      SpreadAppend(p[1..], g[1..], q, h);
      assert (p + q)[1..] == p[1..] + q && Merge(g, h)[1..] == Merge(g[1..], h) && Merge(g, h)[0] == g[0];
      assert Pairs(g[0]) + ([p[0]] + Spread(p[1..], g[1..])) + Spread(q, h)
          == Pairs(g[0]) + ([p[0]] + (Spread(p[1..], g[1..]) + Spread(q, h)));
    }
  }

  lemma MergeGaps(p: seq<byte>, g: seq<seq<byte>>, q: seq<byte>, h: seq<seq<byte>>)
    requires Gaps(p, g) && Gaps(q, h)
    ensures Gaps(p + q, Merge(g, h))
  {
    var last := g[|g| - 1];
    assert last in g && h[0] in h;
    assert forall x :: x in last + h[0] ==> x in last || x in h[0];
    forall x | x in Merge(g, h) ensures Halves(x) {
      assert x in g || x in h || x == last + h[0];
    }
  }

  /** Any bytes are what stripping leaves of them, with the pairs that it drops put in. */
  lemma {:induction false} Respread(b: seq<byte>) returns (gaps: seq<seq<byte>>)
    ensures Gaps(Strip(b), gaps) && b == Spread(Strip(b), gaps)
    decreases |b|
  {
    if b == [] {
      gaps := [[]];
    } else if StatusAt(b, 0) {
      var rest := Respread(b[2..]);
      gaps := Merge([[b[0]]], rest);
      SpreadAppend([], [[b[0]]], Strip(b), rest);
      assert [] + Strip(b) == Strip(b);
      assert Spread([], [[b[0]]]) == [b[0], 0xA5];
      assert b == b[..2] + b[2..];
    } else {
      var rest := Respread(b[1..]);
      gaps := [[]] + rest;
      assert gaps[1..] == rest && Strip(b)[1..] == Strip(b[1..]);
      assert b == [b[0]] + b[1..];
    }
  }

  // ------------------------------------------------------------------- cuts

  lemma StripNothing()
    ensures Strip([]) == []
  {
  }

  /** The cut at `n` falls between the two bytes of a status pair. */
  predicate InsidePair(b: seq<byte>, n: nat) { 0 < n < |b| && StatusAt(b, n - 1) }

  /** The payload that is still to come behind the cut. */
  function Left(b: seq<byte>, n: nat): seq<byte>
    requires n <= |b|
  {
    if InsidePair(b, n) then Strip(b[n + 1..]) else Strip(b[n..])
  }

  /** Behind a place where no pair is cut, the rest of the stream can be looked at alone. */
  lemma CutTail(b: seq<byte>, k: nat, n: nat)
    requires 0 < k <= n <= |b| && !StatusAt(b, k - 1)
    ensures InsidePair(b, n) == InsidePair(b[k..], n - k) && Left(b, n) == Left(b[k..], n - k)
    ensures b[..n][k..] == b[k..][..n - k] && (InsidePair(b, n) ==> b[n - 1] == b[k..][n - k - 1])
  {
    hide Strip;
    assert b[n..] == b[k..][n - k..];
    assert n > k ==> StatusAt(b, n - 1) == StatusAt(b[k..], n - k - 1);
    assert InsidePair(b, n) ==> b[n + 1..] == b[k..][n - k + 1..];
  }

  lemma StripPair(b: seq<byte>)
    requires StatusAt(b, 0)
    ensures Strip(b) == Strip(b[2..]) && !StatusAt(b, 1)
  {
  }

  lemma StripByte(b: seq<byte>)
    requires b != [] && !StatusAt(b, 0)
    ensures Strip(b) == [b[0]] + Strip(b[1..])
  {
  }

  /** A cut at the front of a stream, or inside the pair it opens with. */
  lemma CutAtFront(b: seq<byte>, n: nat)
    requires n <= |b| && (n == 0 || (n == 1 && StatusAt(b, 0)))
    ensures Left(b, n) == Strip(b) && Strip(b[..n]) == Half(b, n)
  {
    assert b[0..] == b;
    if n == 1 {
      StripPair(b);
      assert b[..1] == [b[0]] && [b[0]][1..] == [] && !StatusAt([b[0]], 0);
    }
  }

  lemma ConsTake(a: byte, q: seq<byte>, n: nat, tail: seq<byte>)
    requires n <= |q|
    ensures [a] + (q[..n] + tail) == ([a] + q)[..n + 1] + tail
  {
  }

  lemma TornByte(b: seq<byte>, n: nat)
    requires n <= |b|
    ensures InsidePair(b, n) ==> n > 0
  {
  }

  /** The cut bytes open as the stream does. */
  lemma FrontCut(b: seq<byte>, n: nat)
    requires 0 < n <= |b| && !(n == 1 && StatusAt(b, 0))
    ensures b[..n] != [] && b[..n][0] == b[0] && StatusAt(b[..n], 0) == StatusAt(b, 0)
    ensures StatusAt(b, 0) ==> n >= 2 && !StatusAt(b, 1)
  {
  }

  /** The half pair that a cut leaves at the end. */
  function Half(b: seq<byte>, n: nat): seq<byte>
    requires n <= |b|
  {
    if InsidePair(b, n) then [b[n - 1]] else []
  }

  lemma StripCutStep(b: seq<byte>, p: seq<byte>, q: seq<byte>, k: nat, n: nat)
    requires 0 < n <= |b| && !(n == 1 && StatusAt(b, 0)) && k == (if StatusAt(b, 0) then 2 else 1)
    requires if StatusAt(b, 0) then q == p else p == [b[0]] + q
    requires k <= n && |Left(b[k..], n - k)| <= |q|
    requires Strip(b[k..][..n - k]) == q[..|q| - |Left(b[k..], n - k)|] + Half(b[k..], n - k)
    ensures |Left(b, n)| <= |p| && Strip(b[..n]) == p[..|p| - |Left(b, n)|] + Half(b, n)
  {
    hide Strip, Left, StatusAt;
    FrontCut(b, n);
    CutTail(b, k, n);
    if StatusAt(b, 0) {
      StripPair(b[..n]);
    } else {
      StripByte(b[..n]);
      ConsTake(b[0], q, |q| - |Left(b, n)|, Half(b, n));
    }
  }

  /** What the client makes of the bytes before a cut: payload, and the first half of a pair that the cut has torn. */
  lemma {:induction false} StripCut(b: seq<byte>, n: nat)
    requires n <= |b|
    ensures |Left(b, n)| <= |Strip(b)| && Strip(b[..n]) == Strip(b)[..|Strip(b)| - |Left(b, n)|] + Half(b, n)
    decreases |b|
  {
    hide Strip, InsidePair, Left, StatusAt, Half;
    if n == 0 || (n == 1 && StatusAt(b, 0)) {
      CutAtFront(b, n);
      assert Strip(b)[..0] + Half(b, n) == Half(b, n);
    } else {
      FrontCut(b, n);
      var k := if StatusAt(b, 0) then 2 else 1;
      if StatusAt(b, 0) {
        StripPair(b);
      } else {
        StripByte(b);
      }
      StripCut(b[k..], n - k);
      StripCutStep(b, Strip(b), Strip(b[k..]), k, n);
    }
  }

  /** A cut leaves no more to come than an earlier one. */
  lemma {:induction false} LeftShrinks(b: seq<byte>, n: nat, m: nat)
    requires n <= m <= |b|
    ensures |Left(b, m)| <= |Left(b, n)|
    decreases |b|
  {
    hide Strip, InsidePair, Left;
    if n == 0 || (n == 1 && StatusAt(b, 0)) {
      CutAtFront(b, n);
      StripCut(b, m);
    } else {
      FrontCut(b, n);
      var k := if StatusAt(b, 0) then 2 else 1;
      LeftShrinks(b[k..], n - k, m - k);
      CutTail(b, k, n);
      CutTail(b, k, m);
    }
  }

  /** What is left of a payload but one byte is its last. */
  lemma LastLeft(b: seq<byte>, n: nat, p: seq<byte>)
    requires n <= |b| && Strip(b) == p && |Left(b, n)| == 1
    ensures p != [] && Left(b, n) == [p[|p| - 1]]
  {
    hide Strip, InsidePair;
    LeftEnds(b, n);
  }

  lemma {:induction false} LeftEnds(b: seq<byte>, n: nat)
    requires n <= |b|
    ensures |Left(b, n)| <= |Strip(b)| && Strip(b)[|Strip(b)| - |Left(b, n)|..] == Left(b, n)
    decreases |b|
  {
    hide Strip, InsidePair, Left, StatusAt;
    if n == 0 || (n == 1 && StatusAt(b, 0)) {
      CutAtFront(b, n);
    } else {
      FrontCut(b, n);
      var k := if StatusAt(b, 0) then 2 else 1;
      LeftEnds(b[k..], n - k);
      CutTail(b, k, n);
      if StatusAt(b, 0) {
        StripPair(b);
      } else {
        StripByte(b);
        ConsEnd(b[0], Strip(b[1..]), |Left(b, n)|);
      }
    }
  }

  lemma ConsEnd(a: byte, q: seq<byte>, n: nat)
    requires n <= |q|
    ensures ([a] + q)[|q| + 1 - n..] == q[|q| - n..]
  {
  }
}
