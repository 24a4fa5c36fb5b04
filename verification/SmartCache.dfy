/** The address list and value cache of bridge/bridge_core/mister_smartcache.py. */
module SmartCaches {
  import opened Wrappers
  import opened Bytes
  import opened Bits

  const ADDRLIST_CTRL := 0x40000
  const ADDRLIST_VALUES := 0x40008
  const VALCACHE_CTRL := 0x48000
  const VALCACHE_VALUES := 0x48008
  const MAX_READ_ADDRS := 4096
  const WORD := 0x1_0000_0000

  // ------------------------------------------------------------- bit fields

  lemma Twice(y: nat, p: nat)
    ensures y * (2 * p) == 2 * (y * p)
  {
  }

  lemma Positive(y: nat, p: nat)
    requires y > 0 && p > 0
    ensures y * p > 0
  {
  }

  lemma OrEven(x: nat, half: nat)
    requires half > 0
    ensures Or(x, 2 * half) == 2 * Or(x / 2, half) + x % 2
  {
    assert 2 * half / 2 == half && 2 * half % 2 == 0;
  }

  lemma {:induction false} OrShifted(x: nat, y: nat, n: nat)
    requires x < Pow2(n)
    ensures Or(x, y * Pow2(n)) == x + y * Pow2(n)
    decreases n
  {
    if n == 0 {
      OrOfZero(y);
    } else if y > 0 {
      var half := y * Pow2(n - 1);
      Twice(y, Pow2(n - 1));
      assert half > 0 by { Positive(y, Pow2(n - 1)); }
      OrShifted(x / 2, y, n - 1);
      hide Pow2;
      OrEven(x, half);
    }
  }

  /** Two 32-bit halves in a word: `low | (high << 32)`, and how each is taken out again. */
  lemma Halves(low: nat, high: nat)
    requires low < WORD
    ensures Or(low, high * WORD) == low + high * WORD
    ensures And(0xFFFFFFFF, low + high * WORD) == low && (low + high * WORD) / WORD == high
  {
    hide And, Or, Pow2;
    BytePower();
    OrShifted(low, high, 32);
    AndOnes(32, low + high * WORD);
    DivUnique(low + high * WORD, WORD, high, low);
  }

  lemma LowHalf(x: nat)
    requires x < WORD
    ensures And(0xFFFFFFFF, x) == x
  {
    hide And, Or;
    Halves(x, 0);
  }

  // ---------------------------------------------------------------- request

  function Span(base: int, length: nat): seq<nat> {
    seq(length, i requires 0 <= i < length => (base + i) % 0x1_0000)
  }

  function Expanded(ranges: seq<(int, nat)>): seq<nat> {
    if ranges == [] then [] else Span(ranges[0].0, ranges[0].1) + Expanded(ranges[1..])
  }

  lemma {:induction false} ExpandedBelow(ranges: seq<(int, nat)>)
    ensures forall a :: a in Expanded(ranges) ==> a < 0x1_0000
  {
    if ranges != [] {
      ExpandedBelow(ranges[1..]);
    }
  }

  /** How many addresses the first ranges have. */
  function Before(ranges: seq<(int, nat)>, j: nat): nat
    requires j <= |ranges|
  {
    if j == 0 then 0 else ranges[0].1 + Before(ranges[1..], j - 1)
  }

  /** Address `i` of range `j` stands behind all those of the ranges before, and is `i` behind its base, in 16 bits. */
  lemma {:induction false} ExpandedAt(ranges: seq<(int, nat)>, j: nat, i: nat)
    requires j < |ranges| && i < ranges[j].1
    ensures Before(ranges, j) + i < |Expanded(ranges)|
    ensures (Expanded(ranges)[Before(ranges, j) + i] - ranges[j].0 - i) % 0x1_0000 == 0
    decreases j
  {
    var first, more := Span(ranges[0].0, ranges[0].1), Expanded(ranges[1..]);
    if j == 0 {
      LowBits(ranges[0].0 + i);
    } else {
      ExpandedAt(ranges[1..], j - 1, i);
      assert (first + more)[Before(ranges, j) + i] == more[Before(ranges[1..], j - 1) + i];
    }
  }

  lemma LowBits(x: int)
    ensures (x % 0x1_0000 - x) % 0x1_0000 == 0
  {
    assert x % 0x1_0000 - x == -(x / 0x1_0000) * 0x1_0000;
  }

  /** The list of a full request ends where it may, and each of its words and of the cache's is a place of its own. */
  lemma Layout(i: nat, j: nat)
    requires i < MAX_READ_ADDRS && j < MAX_READ_ADDRS
    ensures MAX_READ_ADDRS == 4096 && ADDRLIST_CTRL == 0x40000 && VALCACHE_CTRL == 0x48000
    ensures ADDRLIST_CTRL + 8 <= ADDRLIST_VALUES + i / 2 * 8 <= 0x44000 && (i < 2 ==> ADDRLIST_VALUES + i / 2 * 8 == 0x40008)
    ensures VALCACHE_CTRL + 8 <= VALCACHE_VALUES + j / 8 * 8 < 0x49008 && (j < 8 ==> VALCACHE_VALUES + j / 8 * 8 == 0x48008)
  {
  }

  datatype Request = Request(id: nat, addresses: seq<nat>)

  type Words = map<nat, nat>

  function WordAt(words: Words, offset: nat): nat { if offset in words then words[offset] else 0 }

  /** Address `i` of the list, as the device takes it out of its word. */
  function ListedAddress(words: Words, i: nat): nat {
    var word := WordAt(words, ADDRLIST_VALUES + i / 2 * 8);
    if i % 2 == 0 then And(0xFFFFFFFF, word) else word / WORD
  }

  /** A word of the list holds two addresses, and no other word's. */
  lemma WordListed(words: Words, w: nat, low: nat, high: nat)
    requires w % 2 == 0 && low < WORD
    ensures var after := words[ADDRLIST_VALUES + w / 2 * 8 := Or(low, high * WORD)];
      && ListedAddress(after, w) == low && ListedAddress(after, w + 1) == high
      && forall i :: 0 <= i < w ==> ListedAddress(after, i) == ListedAddress(words, i)
  {
    hide And, Or;
    Halves(low, high);
    assert (w + 1) / 2 == w / 2;
  }

  /** The request as the device reads it: how many addresses, under which id, and the list. */
  ghost predicate Decodes(words: Words, r: Request) {
    && And(0xFFFFFFFF, WordAt(words, ADDRLIST_CTRL)) == |r.addresses| && WordAt(words, ADDRLIST_CTRL) / WORD == r.id
    && forall i :: 0 <= i < |r.addresses| ==> ListedAddress(words, i) == r.addresses[i]
  }

  /** The words that a request may touch. */
  predicate InAddressList(offset: nat) { ADDRLIST_CTRL <= offset && offset + 8 <= 0x44008 && offset % 8 == 0 }

  // --------------------------------------------------------------- response

  /** Byte `i` of the value cache. */
  function CachedByte(words: Words, i: nat): nat {
    And(0xFF, WordAt(words, VALCACHE_VALUES + i / 8 * 8) / Pow256(i % 8))
  }

  /** The snapshot after the first `n` addresses. */
  function Snapshot(words: Words, addresses: seq<nat>): map<nat, nat> {
    if addresses == [] then map[]
    else Snapshot(words, addresses[..|addresses| - 1])[addresses[|addresses| - 1] := CachedByte(words, |addresses| - 1)]
  }

  /** The device has stored the value of address `i` at byte `i`: its words are those bytes, lowest first. */
  ghost predicate Stored(words: Words, addresses: seq<nat>, memory: nat -> byte) {
    forall j :: 0 <= j <= |addresses| / 8 ==> WordAt(words, VALCACHE_VALUES + j * 8) == Packed(addresses, memory, j * 8, 8)
  }

  /** `k` bytes from index `i` on, little endian; 0 where there is no address. */
  function Packed(addresses: seq<nat>, memory: nat -> byte, i: nat, k: nat): nat
    decreases k
  {
    if k == 0 then 0
    else (if i < |addresses| then memory(addresses[i]) else 0) + 0x100 * Packed(addresses, memory, i + 1, k - 1)
  }

  lemma {:induction false} PackedByte(addresses: seq<nat>, memory: nat -> byte, i: nat, k: nat, n: nat)
    requires n < k && i + n < |addresses|
    ensures Packed(addresses, memory, i, k) / Pow256(n) % 0x100 == memory(addresses[i + n])
    decreases n
  {
    var rest := Packed(addresses, memory, i + 1, k - 1);
    FirstByte(memory(addresses[i]), rest);
    if n > 0 {
      PackedByte(addresses, memory, i + 1, k - 1, n - 1);
      hide Packed;
      DivTwice(Packed(addresses, memory, i, k), 0x100, Pow256(n - 1));
    }
  }

  lemma FirstByte(b: byte, rest: nat)
    ensures (b + 0x100 * rest) % 0x100 == b && (b + 0x100 * rest) / 0x100 == rest
  {
  }

  lemma DivTwice(x: nat, a: nat, b: nat)
    requires a > 0 && b > 0
    ensures a * b > 0 && x / (a * b) == x / a / b
  {
    var q, r := x / a, x % a;
    var q', r' := q / b, q % b;
    assert x == a * q + r && q == b * q' + r';
    assert x == a * b * q' + (a * r' + r) by {
      assert a * q == a * (b * q') + a * r';
      assert a * (b * q') == a * b * q';
    }
    assert a * r' + r < a * b by {
      assert r' + 1 <= b;
      MulMonotone(a, r' + 1, b);
      assert a * (r' + 1) == a * r' + a;
    }
    DivUnique(x, a * b, q', a * r' + r);
  }

  lemma MulMonotone(a: nat, x: nat, y: nat)
    requires x <= y
    ensures a * x <= a * y
  {
    assert a * y == a * x + a * (y - x);
  }

  /** Byte `i` of a value cache filled by the device is the value of address `i`. */
  lemma CachedByteStored(words: Words, addresses: seq<nat>, memory: nat -> byte, i: nat)
    requires Stored(words, addresses, memory) && i < |addresses|
    ensures CachedByte(words, i) == memory(addresses[i])
  {
    hide And, Packed, Pow256;
    var j, n := i / 8, i % 8;
    assert WordAt(words, VALCACHE_VALUES + j * 8) == Packed(addresses, memory, j * 8, 8);
    PackedByte(addresses, memory, j * 8, 8, n);
    AndByte(Packed(addresses, memory, j * 8, 8) / Pow256(n));
  }

  /** Every address is mapped to its own value, whatever the ranges repeat. */
  lemma {:induction false} SnapshotStored(words: Words, addresses: seq<nat>, all: seq<nat>, memory: nat -> byte)
    requires Stored(words, all, memory) && addresses <= all
    ensures Snapshot(words, addresses).Keys == (set a | a in addresses)
    ensures forall a :: a in addresses ==> Snapshot(words, addresses)[a] == memory(a)
    decreases |addresses|
  {
    hide CachedByte, Stored;
    if addresses != [] {
      var n := |addresses| - 1;
      SnapshotStored(words, addresses[..n], all, memory);
      CachedByteStored(words, all, memory, n);
      assert addresses == addresses[..n] + [addresses[n]];
    }
  }

  // ------------------------------------------------------------------ class

  class SmartCacheEndpoint {
    var memory: Words
    var requestId: nat
    var lastFrame: nat

    constructor (memory: Words)
      ensures this.memory == memory && requestId == 0 && lastFrame == 0
    {
      this.memory, requestId, lastFrame := memory, 0, 0;
    }

    /** `_next_request_id`. */
    method NextRequestId() returns (id: nat)
      requires requestId < WORD
      modifies this`requestId
      ensures id == requestId == old(requestId) % 0xFFFFFFFF + 1 && 0 < id < WORD
    {
      requestId := requestId + 1;
      if requestId > 0xFFFFFFFF {
        requestId := 1;
      }
      id := requestId;
    }

    /** `_expand_ranges`. */
    method ExpandRanges(ranges: seq<(int, nat)>) returns (r: Result<seq<nat>, nat>)
      ensures r == if |Expanded(ranges)| > MAX_READ_ADDRS then Err(|Expanded(ranges)|) else Ok(Expanded(ranges))
    {
      var addresses: seq<nat> := [];
      var i := 0;
      assert ranges[0..] == ranges && [] + Expanded(ranges) == Expanded(ranges);
      while i < |ranges|
        invariant 0 <= i <= |ranges| && addresses + Expanded(ranges[i..]) == Expanded(ranges)
      {
        var (base, length) := ranges[i];
        assert ranges[i..][1..] == ranges[i + 1..];
        ghost var before := addresses;
        var offset := 0;
        while offset < length
          invariant 0 <= offset <= length && addresses == before + Span(base, length)[..offset]
        {
          addresses := addresses + [(base + offset) % 0x1_0000];
          offset := offset + 1;
        }
        assert Span(base, length)[..length] == Span(base, length);
        assert before + (Span(base, length) + Expanded(ranges[i + 1..])) == before + Span(base, length) + Expanded(ranges[i + 1..]);
        i := i + 1;
      }
      assert addresses + [] == addresses;
      return if |addresses| > MAX_READ_ADDRS then Err(|addresses|) else Ok(addresses);
    }

    /** The address words of a request. */
    method WriteAddresses(addresses: seq<nat>)
      requires |addresses| <= MAX_READ_ADDRS && forall a :: a in addresses ==> a < 0x1_0000
      modifies this`memory
      ensures forall i :: 0 <= i < |addresses| ==> ListedAddress(memory, i) == addresses[i]
      ensures forall o :: o !in old(memory) && o in memory ==> InAddressList(o)
      ensures forall o :: !InAddressList(o) ==> WordAt(memory, o) == WordAt(old(memory), o)
    {
      hide And, Or, ListedAddress;
      var w := 0;
      while w < |addresses|
        invariant w % 2 == 0 && 0 <= w <= |addresses| + 1
        invariant forall i :: 0 <= i < w && i < |addresses| ==> ListedAddress(memory, i) == addresses[i]
        invariant forall o :: o !in old(memory) && o in memory ==> InAddressList(o)
        invariant forall o :: !InAddressList(o) ==> WordAt(memory, o) == WordAt(old(memory), o)
        decreases |addresses| - w
      {
        var low := And(0xFFFFFFFF, addresses[w]);
        var high := 0;
        if w + 1 < |addresses| {
          high := And(0xFFFFFFFF, addresses[w + 1]);
          assert addresses[w + 1] in addresses;
          LowHalf(addresses[w + 1]);
        }
        assert addresses[w] in addresses;
        LowHalf(addresses[w]);
        WordListed(memory, w, low, high);
        memory := memory[ADDRLIST_VALUES + w / 2 * 8 := Or(low, high * WORD)];
        w := w + 2;
      }
    }

    /** `submit_read_request`: the device reads back exactly the request, from words below 0x44008. */
    method SubmitReadRequest(ranges: seq<(int, nat)>) returns (r: Result<Request, nat>)
      requires requestId < WORD
      modifies this`memory, this`requestId
      ensures |Expanded(ranges)| > MAX_READ_ADDRS ==>
        r == Err(|Expanded(ranges)|) && memory == old(memory) && requestId == old(requestId)
      ensures |Expanded(ranges)| <= MAX_READ_ADDRS ==>
        && r == Ok(Request(requestId, Expanded(ranges))) && Decodes(memory, r.value)
        && requestId == old(requestId) % 0xFFFFFFFF + 1
        && forall o :: !InAddressList(o) ==> WordAt(memory, o) == WordAt(old(memory), o)
    {
      hide And, Or;
      var addresses := ExpandRanges(ranges);
      if addresses.Err? {
        return Err(addresses.error);
      }
      ExpandedBelow(ranges);
      var id := NextRequestId();
      WriteAddresses(addresses.value);
      Halves(|addresses.value|, id);
      ghost var before := memory;
      memory := memory[ADDRLIST_CTRL := Or(|addresses.value|, id * WORD)];
      forall i | 0 <= i < |addresses.value| ensures ListedAddress(memory, i) == addresses.value[i] {
        assert ListedAddress(memory, i) == ListedAddress(before, i);
      }
      return Ok(Request(id, addresses.value));
    }

    /** `_read_values`. */
    method ReadValues(addresses: seq<nat>) returns (snapshot: map<nat, nat>)
      ensures snapshot == Snapshot(memory, addresses)
    {
      hide And;
      snapshot := map[];
      var i := 0;
      while i < |addresses|
        invariant 0 <= i <= |addresses| && snapshot == Snapshot(memory, addresses[..i])
      {
        var word := WordAt(memory, VALCACHE_VALUES + i / 8 * 8);
        var value := And(0xFF, word / Pow256(i % 8));
        assert addresses[..i + 1][..i] == addresses[..i];
        snapshot := snapshot[addresses[i] := value];
        i := i + 1;
      }
      assert addresses[..i] == addresses;
    }

    /** One look at the mailbox in `read_response`: the snapshot once the device has answered this request. */
    method PollResponse(r: Request) returns (snapshot: Option<map<nat, nat>>)
      modifies this`lastFrame
      ensures snapshot.Some? <==> And(0xFFFFFFFF, WordAt(memory, VALCACHE_CTRL)) == r.id
      ensures snapshot.Some? ==> snapshot.value == Snapshot(memory, r.addresses)
      ensures snapshot.None? ==> lastFrame == old(lastFrame)
      ensures snapshot.Some? ==> lastFrame == And(0xFFFFFFFF, WordAt(memory, VALCACHE_CTRL) / WORD)
    {
      hide And;
      var control := WordAt(memory, VALCACHE_CTRL);
      if And(0xFFFFFFFF, control) != r.id {
        return None;
      }
      lastFrame := And(0xFFFFFFFF, control / WORD);
      var values := ReadValues(r.addresses);
      return Some(values);
    }

    /** A read of ranges, against a device that has stored the values of the request and its id: memory itself. */
    method ReadAnswered(r: Request, device: nat -> byte) returns (snapshot: map<nat, nat>)
      requires Stored(memory, r.addresses, device) && And(0xFFFFFFFF, WordAt(memory, VALCACHE_CTRL)) == r.id
      modifies this`lastFrame
      ensures snapshot.Keys == (set a | a in r.addresses) && forall a :: a in r.addresses ==> snapshot[a] == device(a)
    {
      hide And, Snapshot, Stored;
      var answer := PollResponse(r);
      SnapshotStored(memory, r.addresses, r.addresses, device);
      return answer.value;
    }
  }
}
