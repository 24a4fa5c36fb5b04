/** The 6502 code relocation of bridge/relocate_patch.py, for any instruction table and any list of regions. */
module Relocate {
  import opened Wrappers
  import opened Bytes
  import opened Opcodes

  // ------------------------------------------------------- packed mapping

  /** A stretch of old code: `len` bytes at CPU address `cpu`. */
  datatype Region = Region(cpu: nat, len: nat) {
    predicate Has(a: nat) { cpu <= a < cpu + len }
  }

  predicate Ascending(regions: seq<Region>) {
    forall i, j :: 0 <= i < j < |regions| ==> regions[i].cpu + regions[i].len <= regions[j].cpu
  }

  /** Where region `i` starts when the regions are packed from `base` on. */
  function NewStart(regions: seq<Region>, base: nat, i: nat): nat
    requires i <= |regions|
  {
    if i == 0 then base else NewStart(regions, base, i - 1) + regions[i - 1].len
  }

  type Mapping = map<nat, nat>

  /** `m` maps exactly the bytes of the regions, each to its place in the packed block. */
  ghost predicate IsMapping(regions: seq<Region>, base: nat, m: Mapping) {
    && (forall a: nat :: a in m <==> exists i :: 0 <= i < |regions| && regions[i].Has(a))
    && (forall i, a: nat :: 0 <= i < |regions| && regions[i].Has(a) ==>
          m[a] == NewStart(regions, base, i) + (a - regions[i].cpu))
  }

  lemma {:induction false} NewStartPrefix(regions: seq<Region>, base: nat, n: nat, i: nat)
    requires i <= n <= |regions|
    ensures NewStart(regions[..n], base, i) == NewStart(regions, base, i)
  {
    if i > 0 {
      NewStartPrefix(regions, base, n, i - 1);
    }
  }

  lemma MappedAt(regions: seq<Region>, base: nat, m: Mapping, i: nat, a: nat)
    requires IsMapping(regions, base, m) && i < |regions| && regions[i].Has(a)
    ensures a in m && m[a] == NewStart(regions, base, i) + (a - regions[i].cpu)
  {
  }

  /** Addresses of the regions before the `n`-th keep their place, and those of the `n`-th get theirs. */
  lemma MappingValue(regions: seq<Region>, base: nat, n: nat, m: Mapping, m': Mapping, i: nat, a: nat)
    requires Ascending(regions) && n < |regions| && IsMapping(regions[..n], base, m)
    requires forall a: nat :: a in m' <==> a in m || regions[n].Has(a)
    requires forall a: nat :: regions[n].Has(a) ==> m'[a] == NewStart(regions, base, n) + (a - regions[n].cpu)
    requires forall a: nat :: a in m && !regions[n].Has(a) ==> m'[a] == m[a]
    requires i <= n && regions[i].Has(a)
    ensures a in m' && m'[a] == NewStart(regions[..n + 1], base, i) + (a - regions[i].cpu)
  {
    hide NewStart;
    NewStartPrefix(regions, base, n + 1, i);
    if i < n {
      NewStartPrefix(regions, base, n, i);
      assert regions[..n][i] == regions[i];
      MappedAt(regions[..n], base, m, i, a);
    }
  }

  lemma MappingStep(regions: seq<Region>, base: nat, n: nat, m: Mapping, m': Mapping)
    requires Ascending(regions) && n < |regions| && IsMapping(regions[..n], base, m)
    requires forall a: nat :: a in m' <==> a in m || regions[n].Has(a)
    requires forall a: nat :: regions[n].Has(a) ==> m'[a] == NewStart(regions, base, n) + (a - regions[n].cpu)
    requires forall a: nat :: a in m && !regions[n].Has(a) ==> m'[a] == m[a]
    ensures IsMapping(regions[..n + 1], base, m')
  {
    hide NewStart;
    var before, after := regions[..n], regions[..n + 1];
    forall a: nat | a in m' ensures exists i :: 0 <= i < |after| && after[i].Has(a) {
      if a in m {
        var i :| 0 <= i < |before| && before[i].Has(a);
        assert after[i] == before[i];
      } else {
        assert after[n] == regions[n];
      }
    }
    hide Region.Has, IsMapping, Ascending;
    forall i, a: nat | 0 <= i < |after| && after[i].Has(a)
      ensures a in m' && m'[a] == NewStart(after, base, i) + (a - after[i].cpu)
    {
      assert after[i] == regions[i];
      MappingValue(regions, base, n, m, m', i, a);
    }
    MappingMade(after, base, m');
  }

  lemma MappingMade(regions: seq<Region>, base: nat, m: Mapping)
    requires forall a: nat :: a in m ==> exists i :: 0 <= i < |regions| && regions[i].Has(a)
    requires forall i, a: nat :: 0 <= i < |regions| && regions[i].Has(a) ==>
      a in m && m[a] == NewStart(regions, base, i) + (a - regions[i].cpu)
    ensures IsMapping(regions, base, m)
  {
    hide NewStart;
  }

  /** The bytes of one region, one after the other. */
  method MapRegion(before: Mapping, region: Region, addr: nat) returns (m: Mapping)
    ensures forall a: nat :: a in m <==> a in before || region.Has(a)
    ensures forall a: nat :: region.Has(a) ==> m[a] == addr + (a - region.cpu)
    ensures forall a: nat :: a in before && !region.Has(a) ==> m[a] == before[a]
  {
    m := before;
    var cpu := region.cpu;
    for i := 0 to region.len
      invariant forall a: nat :: a in m <==> a in before || cpu <= a < cpu + i
      invariant forall a: nat :: cpu <= a < cpu + i ==> m[a] == addr + (a - cpu)
      invariant forall a: nat :: a in before && !(cpu <= a < cpu + i) ==> m[a] == before[a]
    {
      m := m[cpu + i := addr + i];
    }
  }

  /** `build_mapping`: a running address, a loop over the regions and one over the bytes of each. */
  method BuildMapping(regions: seq<Region>, base: nat) returns (m: Mapping)
    requires Ascending(regions)
    ensures IsMapping(regions, base, m)
  {
    m := map[];
    var addr := base;
    for n := 0 to |regions|
      invariant addr == NewStart(regions, base, n)
      invariant IsMapping(regions[..n], base, m)
    {
      ghost var before := m;
      m := MapRegion(m, regions[n], addr);
      MappingStep(regions, base, n, before, m);
      addr := addr + regions[n].len;
    }
    assert regions[..|regions|] == regions;
  }

  lemma {:induction false} PackedGap(regions: seq<Region>, base: nat, i: nat, j: nat)
    requires Ascending(regions) && i < j < |regions|
    ensures regions[i].len <= NewStart(regions, base, j) - NewStart(regions, base, i) <= regions[j].cpu - regions[i].cpu
  {
    if i < j - 1 {
      PackedGap(regions, base, i, j - 1);
    }
  }

  lemma RegionOf(regions: seq<Region>, base: nat, m: Mapping, a: nat) returns (i: nat)
    requires IsMapping(regions, base, m) && a in m
    ensures i < |regions| && regions[i].Has(a) && m[a] == NewStart(regions, base, i) + (a - regions[i].cpu)
  {
    hide NewStart;
    i :| i < |regions| && regions[i].Has(a);
  }

  lemma RegionOrder(regions: seq<Region>, i: nat, j: nat, a: nat, b: nat)
    requires Ascending(regions) && i < |regions| && j < |regions| && regions[i].Has(a) && regions[j].Has(b) && a < b
    ensures i <= j
  {
  }

  /** Two addresses of one region keep their distance, and those of two regions come closer as the regions do. */
  lemma Closer(x: Region, y: Region, a: nat, b: nat, from: int, to: int)
    requires x.Has(a) && y.Has(b) && a < b && ((x == y && from == to) || x.len <= to - from <= y.cpu - x.cpu)
    ensures 0 < (to + (b - y.cpu)) - (from + (a - x.cpu)) <= b - a
  {
  }

  /** The mapping is injective, keeps the order of addresses and never moves two of them apart. */
  lemma Contracts(regions: seq<Region>, base: nat, m: Mapping, a: nat, b: nat)
    requires Ascending(regions) && IsMapping(regions, base, m)
    requires a in m && b in m && a < b
    ensures 0 < m[b] - m[a] <= b - a
  {
    hide NewStart, IsMapping, Ascending, Region.Has;
    var i := RegionOf(regions, base, m, a);
    var j := RegionOf(regions, base, m, b);
    RegionOrder(regions, i, j, a, b);
    if i < j {
      PackedGap(regions, base, i, j);
    }
    Closer(regions[i], regions[j], a, b, NewStart(regions, base, i), NewStart(regions, base, j));
  }

  // -------------------------------------------------------- relocating code

  /** What the rewriter is given besides the bytes; `lo` and `hi` bound the addresses it takes for internal. */
  datatype Context = Context(ops: Table, m: Mapping, lo: nat, hi: nat, preludeOld: nat, preludeNew: nat) {
    predicate Internal(a: nat) { lo <= a <= hi }

    /** Every mapped address is internal, and new addresses fit in 16 bits. */
    ghost predicate Valid() {
      (forall a: nat :: a in m ==> Internal(a) && m[a] <= 0xFFFF) && preludeNew <= 0xFFFF
    }

    /** Where an absolute operand has to point afterwards. */
    function Moved(a: nat): nat {
      if a in m then m[a] else if a == preludeOld then preludeNew else a
    }
  }

  datatype Error = TableTruncated | OutsidePatch(target: nat) | Unmapped(target: nat) | BranchOutOfRange(addr: nat, offset: int)

  const JUMP_TABLE_LEN: nat := 12

  function Word(code: seq<byte>, i: nat): nat
    requires i + 1 < |code|
  {
    code[i] as int + 0x100 * (code[i + 1] as int)
  }

  function Signed(b: byte): int { if b >= 0x80 then b - 0x100 else b }

  function BranchTarget(code: seq<byte>, start: nat, idx: nat): nat
    requires idx + 1 < |code|
  {
    (start + idx + 2 + Signed(code[idx + 1])) % 0x1_0000
  }

  /** The offsets at which a linear walk of `code` from `idx` finds whole instructions. */
  function Walk(ops: Table, code: seq<byte>, idx: nat): seq<nat>
    decreases |code| - idx
  {
    if idx >= |code| then []
    else if code[idx] !in ops then Walk(ops, code, idx + 1)
    else if idx + ops[code[idx]].Len() > |code| then []
    else [idx] + Walk(ops, code, idx + ops[code[idx]].Len())
  }

  /** A whole instruction of the table stands at `idx`. */
  predicate InstrAt(ops: Table, code: seq<byte>, idx: nat) {
    idx < |code| && code[idx] in ops && idx + ops[code[idx]].Len() <= |code|
  }

  lemma {:induction false} WalkFindsInstrs(ops: Table, code: seq<byte>, idx: nat)
    ensures forall j :: j in Walk(ops, code, idx) ==> idx <= j && InstrAt(ops, code, j)
    decreases |code| - idx
  {
    if idx < |code| {
      if code[idx] !in ops {
        WalkFindsInstrs(ops, code, idx + 1);
      } else if idx + ops[code[idx]].Len() <= |code| {
        WalkFindsInstrs(ops, code, idx + ops[code[idx]].Len());
      }
    }
  }

  predicate IsOperandOf(ops: Table, code: seq<byte>, j: nat, k: nat) {
    InstrAt(ops, code, j) && j < k < j + ops[code[j]].Len()
  }

  /** If only operand bytes of walked instructions change, the walk does not. */
  lemma {:induction false} WalkUnchanged(ops: Table, code: seq<byte>, out: seq<byte>, idx: nat)
    requires |out| == |code|
    requires forall k :: idx <= k < |code| && out[k] != code[k] ==>
      exists j :: j in Walk(ops, code, idx) && IsOperandOf(ops, code, j, k)
    ensures Walk(ops, out, idx) == Walk(ops, code, idx)
    decreases |code| - idx
  {
    if idx < |code| {
      WalkFindsInstrs(ops, code, idx);
      assert out[idx] == code[idx];
      if code[idx] !in ops {
        WalkUnchanged(ops, code, out, idx + 1);
      } else if idx + ops[code[idx]].Len() <= |code| {
        var next := idx + ops[code[idx]].Len();
        forall k | next <= k < |code| && out[k] != code[k]
          ensures exists j :: j in Walk(ops, code, next) && IsOperandOf(ops, code, j, k)
        {
          var j :| j in Walk(ops, code, idx) && IsOperandOf(ops, code, j, k);
          assert j != idx;
          assert j in Walk(ops, code, next);
        }
        WalkUnchanged(ops, code, out, next);
      }
    }
  }

  /** The displacement a branch at offset `idx` needs in the new place. */
  function NewOffset(c: Context, code: seq<byte>, oldStart: nat, newStart: nat, idx: nat): int
    requires idx + 1 < |code| && BranchTarget(code, oldStart, idx) in c.m
  {
    c.m[BranchTarget(code, oldStart, idx)] - (newStart + idx + 2)
  }

  /** The instruction at `idx` cannot be relocated. */
  predicate Fails(c: Context, code: seq<byte>, oldStart: nat, newStart: nat, idx: nat)
    requires InstrAt(c.ops, code, idx)
  {
    var mode := c.ops[code[idx]];
    if mode.IsAbs() then
      c.Internal(Word(code, idx + 1)) && Word(code, idx + 1) !in c.m
    else
      && mode.Rel? && c.Internal(BranchTarget(code, oldStart, idx))
      && (BranchTarget(code, oldStart, idx) !in c.m || !(-128 <= NewOffset(c, code, oldStart, newStart, idx) <= 127))
  }

  /** What relocation does to the instruction at `idx`, read off the two byte strings. */
  predicate Rewritten(c: Context, code: seq<byte>, out: seq<byte>, oldStart: nat, newStart: nat, idx: nat)
    requires InstrAt(c.ops, code, idx) && |out| == |code| && !Fails(c, code, oldStart, newStart, idx)
  {
    var mode := c.ops[code[idx]];
    && out[idx] == code[idx]
    && (mode.IsAbs() ==> Word(out, idx + 1) == c.Moved(Word(code, idx + 1)))
    && (mode.Rel? ==>
          if c.Internal(BranchTarget(code, oldStart, idx))
          then newStart + idx + 2 + Signed(out[idx + 1]) == c.m[BranchTarget(code, oldStart, idx)]
          else out[idx + 1] == code[idx + 1])
    && (!mode.IsAbs() && !mode.Rel? ==> out[idx..idx + mode.Len()] == code[idx..idx + mode.Len()])
  }

  /** The rewriting of one code region: same walk, same opcodes, operands moved, nothing else touched. */
  ghost predicate Relocated(c: Context, code: seq<byte>, out: seq<byte>, oldStart: nat, newStart: nat) {
    && |out| == |code|
    && Walk(c.ops, out, 0) == Walk(c.ops, code, 0)
    && (forall j :: j in Walk(c.ops, code, 0) ==>
          && InstrAt(c.ops, code, j)
          && !Fails(c, code, oldStart, newStart, j)
          && Rewritten(c, code, out, oldStart, newStart, j))
    && (forall k :: 0 <= k < |code| && out[k] != code[k] ==>
          exists j :: j in Walk(c.ops, code, 0) && IsOperandOf(c.ops, code, j, k))
  }

  /** An entry of the jump table that has no new place. */
  predicate BadEntry(c: Context, code: seq<byte>, k: nat)
    requires 2 * k + 1 < |code|
  {
    !c.Internal(Word(code, 2 * k)) || Word(code, 2 * k) !in c.m
  }

  /** Entry k of the new table is the mapping of entry k of the old one; bytes behind the table stay. */
  predicate TableMoved(c: Context, code: seq<byte>, out: seq<byte>) {
    && |out| == |code| >= JUMP_TABLE_LEN && out[JUMP_TABLE_LEN..] == code[JUMP_TABLE_LEN..]
    && forall k :: 0 <= k < 6 ==> !BadEntry(c, code, k) && Word(out, 2 * k) == c.m[Word(code, 2 * k)]
  }

  /** The jump-table half of `relocate_region`: every pointer is looked up in the mapping. */
  method RelocateTable(c: Context, code: seq<byte>) returns (r: Result<seq<byte>, Error>)
    requires c.Valid()
    ensures r.Err? <==> |code| < JUMP_TABLE_LEN || exists k :: 0 <= k < 6 && BadEntry(c, code, k)
    ensures r.Ok? ==> TableMoved(c, code, r.value)
  {
    var out: seq<byte> := code;
    var k := 0;
    if |code| < JUMP_TABLE_LEN {
      return Err(TableTruncated);
    }
    while k < 6
      invariant 0 <= k <= 6 && |out| == |code|
      invariant out[2 * k..] == code[2 * k..]
      invariant forall j :: 0 <= j < k ==> !BadEntry(c, code, j) && Word(out, 2 * j) == c.m[Word(code, 2 * j)]
    {
      var target := Word(code, 2 * k);
      if !c.Internal(target) {
        assert BadEntry(c, code, k);
        return Err(OutsidePatch(target));
      }
      if target !in c.m {
        assert BadEntry(c, code, k);
        return Err(Unmapped(target));
      }
      out := out[2 * k := c.m[target] % 0x100][2 * k + 1 := c.m[target] / 0x100 % 0x100];
      k := k + 1;
    }
    return Ok(out);
  }

  /** Two bytes written little endian read back as the word. */
  lemma WordWritten(before: seq<byte>, i: nat, v: nat)
    requires i + 1 < |before| && v <= 0xFFFF
    ensures Word(before[i := v % 0x100][i + 1 := v / 0x100 % 0x100], i) == v
  {
  }

  lemma SignedWritten(offset: int)
    requires -128 <= offset <= 127
    ensures Signed(offset % 0x100) == offset
  {
  }

  /** The operand rewriting done for the instruction at `idx`. */
  method RewriteOperand(c: Context, code: seq<byte>, before: seq<byte>, oldStart: nat, newStart: nat, idx: nat)
    returns (r: Result<seq<byte>, Error>)
    requires c.Valid() && InstrAt(c.ops, code, idx) && |before| == |code| && before[idx..] == code[idx..]
    ensures r.Err? <==> Fails(c, code, oldStart, newStart, idx)
    ensures r.Ok? ==> |r.value| == |code| && Rewritten(c, code, r.value, oldStart, newStart, idx)
    ensures r.Ok? ==> forall k :: 0 <= k < |code| && !IsOperandOf(c.ops, code, idx, k) ==> r.value[k] == before[k]
  {
    hide Word, Signed, BranchTarget;
    var out: seq<byte> := before;
    var mode := c.ops[code[idx]];
    SameWord(code, before, idx);
    if mode.IsAbs() {
      var target := Word(code, idx + 1);
      if c.Internal(target) {
        if target !in c.m {
          return Err(Unmapped(target));
        }
        WordWritten(out, idx + 1, c.m[target]);
        out := out[idx + 1 := c.m[target] % 0x100][idx + 2 := c.m[target] / 0x100 % 0x100];
      } else if target == c.preludeOld {
        WordWritten(out, idx + 1, c.preludeNew);
        out := out[idx + 1 := c.preludeNew % 0x100][idx + 2 := c.preludeNew / 0x100 % 0x100];
      }
    } else if mode.Rel? {
      var target := BranchTarget(code, oldStart, idx);
      if c.Internal(target) {
        if target !in c.m {
          return Err(Unmapped(target));
        }
        var offset := c.m[target] - (newStart + idx + 2);
        if !(-128 <= offset <= 127) {
          return Err(BranchOutOfRange(oldStart + idx, offset));
        }
        SignedWritten(offset);
        out := out[idx + 1 := offset % 0x100];
      }
    }
    return Ok(out);
  }

  lemma SameWord(code: seq<byte>, before: seq<byte>, idx: nat)
    requires idx <= |code| == |before| && before[idx..] == code[idx..]
    ensures forall k :: idx <= k < |code| ==> before[k] == code[k]
    ensures idx + 2 < |code| ==> Word(before, idx + 1) == Word(code, idx + 1)
  {
    assert forall k :: idx <= k < |code| ==> before[k] == before[idx..][k - idx] == code[idx..][k - idx] == code[k];
  }

  /** The state of the walk at `idx`, with the instructions in `done` behind it. */
  ghost predicate Progress(c: Context, code: seq<byte>, out: seq<byte>, oldStart: nat, newStart: nat, done: seq<nat>, idx: nat) {
    && idx <= |code| && |out| == |code| && out[idx..] == code[idx..]
    && Walk(c.ops, code, 0) == done + Walk(c.ops, code, idx)
    && (forall j :: j in done ==>
          && InstrAt(c.ops, code, j) && j + c.ops[code[j]].Len() <= idx
          && !Fails(c, code, oldStart, newStart, j) && Rewritten(c, code, out, oldStart, newStart, j))
    && (forall k :: 0 <= k < |code| && out[k] != code[k] ==> exists j :: j in done && IsOperandOf(c.ops, code, j, k))
  }

  /** An instruction is rewritten or not by its own bytes. */
  lemma RewrittenHere(c: Context, code: seq<byte>, before: seq<byte>, out: seq<byte>, oldStart: nat, newStart: nat, j: nat)
    requires InstrAt(c.ops, code, j) && |before| == |out| == |code| && !Fails(c, code, oldStart, newStart, j)
    requires Rewritten(c, code, before, oldStart, newStart, j)
    requires forall k :: j <= k < j + c.ops[code[j]].Len() ==> out[k] == before[k]
    ensures Rewritten(c, code, out, oldStart, newStart, j)
  {
    hide Fails, BranchTarget;
    assert out[j..j + c.ops[code[j]].Len()] == before[j..j + c.ops[code[j]].Len()];
  }

  lemma ProgressStep(c: Context, code: seq<byte>, before: seq<byte>, out: seq<byte>, oldStart: nat, newStart: nat,
                     done: seq<nat>, idx: nat)
    requires Progress(c, code, before, oldStart, newStart, done, idx)
    requires InstrAt(c.ops, code, idx) && !Fails(c, code, oldStart, newStart, idx)
    requires |out| == |code| && Rewritten(c, code, out, oldStart, newStart, idx)
    requires forall k :: 0 <= k < |code| && !IsOperandOf(c.ops, code, idx, k) ==> out[k] == before[k]
    ensures Progress(c, code, out, oldStart, newStart, done + [idx], idx + c.ops[code[idx]].Len())
  {
    hide Fails, Rewritten;
    var next := idx + c.ops[code[idx]].Len();
    forall k | next <= k < |code| ensures out[k] == code[k] {
      assert before[k] == before[idx..][k - idx] == code[idx..][k - idx];
    }
    assert out[next..] == code[next..];
    assert Walk(c.ops, code, idx) == [idx] + Walk(c.ops, code, next);
    assert done + ([idx] + Walk(c.ops, code, next)) == done + [idx] + Walk(c.ops, code, next);
    forall j | j in done ensures Rewritten(c, code, out, oldStart, newStart, j) {
      RewrittenHere(c, code, before, out, oldStart, newStart, j);
    }
    forall k | 0 <= k < |code| && out[k] != code[k]
      ensures exists j :: j in done + [idx] && IsOperandOf(c.ops, code, j, k)
    {
      if IsOperandOf(c.ops, code, idx, k) {
        assert idx in done + [idx];
      } else {
        var j :| j in done && IsOperandOf(c.ops, code, j, k);
        assert j in done + [idx];
      }
    }
  }

  /** A byte that is no opcode is passed over. */
  lemma ProgressSkip(c: Context, code: seq<byte>, out: seq<byte>, oldStart: nat, newStart: nat, done: seq<nat>, idx: nat)
    requires Progress(c, code, out, oldStart, newStart, done, idx) && idx < |code| && code[idx] !in c.ops
    ensures Progress(c, code, out, oldStart, newStart, done, idx + 1)
  {
    hide Fails, Rewritten;
    assert out[idx + 1..] == out[idx..][1..] && code[idx + 1..] == code[idx..][1..];
  }

  /** The walk is over at the end of the code, and at an instruction that does not fit. */
  lemma ProgressEnds(c: Context, code: seq<byte>, out: seq<byte>, oldStart: nat, newStart: nat, done: seq<nat>, idx: nat)
    requires Progress(c, code, out, oldStart, newStart, done, idx)
    requires idx < |code| ==> code[idx] in c.ops && idx + c.ops[code[idx]].Len() > |code|
    ensures Relocated(c, code, out, oldStart, newStart)
  {
    hide Fails;
    assert Walk(c.ops, code, 0) == done;
    WalkUnchanged(c.ops, code, out, 0);
  }

  lemma ProgressFails(c: Context, code: seq<byte>, out: seq<byte>, oldStart: nat, newStart: nat, done: seq<nat>, idx: nat)
    requires Progress(c, code, out, oldStart, newStart, done, idx)
    requires InstrAt(c.ops, code, idx) && Fails(c, code, oldStart, newStart, idx)
    ensures idx in Walk(c.ops, code, 0)
  {
    assert idx in Walk(c.ops, code, idx);
  }

  lemma ProgressStarts(c: Context, code: seq<byte>, oldStart: nat, newStart: nat)
    ensures Progress(c, code, code, oldStart, newStart, [], 0)
  {
    assert [] + Walk(c.ops, code, 0) == Walk(c.ops, code, 0);
  }

  /** The code half of `relocate_region`: walk instruction by instruction, rewriting operands in place. */
  method RelocateCode(c: Context, code: seq<byte>, oldStart: nat, newStart: nat) returns (r: Result<seq<byte>, Error>)
    requires c.Valid()
    ensures r.Err? <==> exists j :: j in Walk(c.ops, code, 0) && InstrAt(c.ops, code, j) && Fails(c, code, oldStart, newStart, j)
    ensures r.Ok? ==> Relocated(c, code, r.value, oldStart, newStart)
  {
    hide Fails, Rewritten, Walk;
    var out: seq<byte> := code;
    var idx := 0;
    ghost var done: seq<nat> := [];
    ProgressStarts(c, code, oldStart, newStart);
    while idx < |code|
      invariant Progress(c, code, out, oldStart, newStart, done, idx)
    {
      if code[idx] !in c.ops {
        ProgressSkip(c, code, out, oldStart, newStart, done, idx);
        idx := idx + 1;
        continue;
      }
      var len := c.ops[code[idx]].Len();
      if idx + len > |code| {
        break;
      }
      var rewritten := RewriteOperand(c, code, out, oldStart, newStart, idx);
      if rewritten.Err? {
        ProgressFails(c, code, out, oldStart, newStart, done, idx);
        return rewritten;
      }
      ProgressStep(c, code, out, rewritten.value, oldStart, newStart, done, idx);
      done := done + [idx];
      out, idx := rewritten.value, idx + len;
    }
    ProgressEnds(c, code, out, oldStart, newStart, done, idx);
    return Ok(out);
  }

  const PRELUDE_BYTES: seq<byte> := [0x2B, 0xD4, 0x22, 0xDD]

  /** Region `i` of the packed block holds the relocated bytes `out` of that region. */
  predicate Packed(regions: seq<Region>, base: nat, block: seq<byte>, i: nat, out: seq<byte>)
    requires i < |regions|
  {
    var at := NewStart(regions, base, i) - base;
    0 <= at && at + regions[i].len <= |block| && block[at..at + regions[i].len] == out
  }

  /** Region `i` has been relocated to `out`, and stands in the block. */
  ghost predicate RegionDone(c: Context, regions: seq<Region>, base: nat, code: seq<byte>, table: nat, block: seq<byte>,
                             i: nat, out: seq<byte>)
    requires i < |regions|
  {
    && Packed(regions, base, block, i, out)
    && if i == table then TableMoved(c, code, out)
       else Relocated(c, code, out, regions[i].cpu, NewStart(regions, base, i))
  }

  /** The first `n` regions have been. */
  ghost predicate RegionsDone(c: Context, regions: seq<Region>, base: nat, codes: seq<seq<byte>>, table: nat,
                              block: seq<byte>, n: nat, outs: seq<seq<byte>>)
    requires |codes| == |regions|
  {
    n == |outs| <= |regions| &&
    forall i :: 0 <= i < n ==> RegionDone(c, regions, base, codes[i], table, block, i, outs[i])
  }

  lemma RegionStays(c: Context, regions: seq<Region>, base: nat, code: seq<byte>, table: nat, block: seq<byte>,
                    more: seq<byte>, i: nat, out: seq<byte>)
    requires i < |regions| && RegionDone(c, regions, base, code, table, block, i, out)
    ensures RegionDone(c, regions, base, code, table, block + more, i, out)
  {
    var at := NewStart(regions, base, i) - base;
    assert (block + more)[at..at + regions[i].len] == block[at..at + regions[i].len];
  }

  lemma RegionsStay(c: Context, regions: seq<Region>, base: nat, codes: seq<seq<byte>>, table: nat, block: seq<byte>,
                    more: seq<byte>, n: nat, outs: seq<seq<byte>>)
    requires |codes| == |regions| && RegionsDone(c, regions, base, codes, table, block, n, outs)
    ensures RegionsDone(c, regions, base, codes, table, block + more, n, outs)
  {
    forall i | 0 <= i < n ensures RegionDone(c, regions, base, codes[i], table, block + more, i, outs[i]) {
      RegionStays(c, regions, base, codes[i], table, block, more, i, outs[i]);
    }
  }

  lemma RegionsStep(c: Context, regions: seq<Region>, base: nat, codes: seq<seq<byte>>, table: nat, block: seq<byte>,
                    out: seq<byte>, n: nat, outs: seq<seq<byte>>)
    requires |codes| == |regions| && RegionsDone(c, regions, base, codes, table, block, n, outs) && n < |regions|
    requires RegionDone(c, regions, base, codes[n], table, block + out, n, out)
    ensures RegionsDone(c, regions, base, codes, table, block + out, n + 1, outs + [out])
  {
    RegionsStay(c, regions, base, codes, table, block, out, n, outs);
  }

  /** The bytes of region `i` cannot be relocated: an instruction, or an entry of the table, has no place to point to. */
  ghost predicate RegionFails(c: Context, regions: seq<Region>, base: nat, code: seq<byte>, table: nat, i: nat)
    requires i < |regions|
  {
    if i == table then |code| < JUMP_TABLE_LEN || exists k :: 0 <= k < 6 && BadEntry(c, code, k)
    else
      exists j :: j in Walk(c.ops, code, 0) && InstrAt(c.ops, code, j)
                  && Fails(c, code, regions[i].cpu, NewStart(regions, base, i), j)
  }

  /** One turn of the packing loop. */
  method PackRegion(c: Context, regions: seq<Region>, base: nat, code: seq<byte>, table: nat, block: seq<byte>, i: nat)
    returns (r: Result<seq<byte>, Error>)
    requires c.Valid() && i < |regions| && |code| == regions[i].len && |block| == NewStart(regions, base, i) - base
    ensures r.Err? <==> RegionFails(c, regions, base, code, table, i)
    ensures r.Ok? ==> |r.value| == |code| && RegionDone(c, regions, base, code, table, block + r.value, i, r.value)
  {
    if i == table {
      r := RelocateTable(c, code);
    } else {
      r := RelocateCode(c, code, regions[i].cpu, base + |block|);
    }
    assert r.Ok? ==> (block + r.value)[|block|..|block| + |code|] == r.value;
  }

  /** The packing loop: every region relocated to its place, back to back, and the response prelude behind them. */
  method PackRegions(c: Context, regions: seq<Region>, base: nat, codes: seq<seq<byte>>, table: nat)
    returns (r: Result<seq<byte>, Error>, ghost outs: seq<seq<byte>>)
    requires c.Valid() && |codes| == |regions| && forall i :: 0 <= i < |regions| ==> |codes[i]| == regions[i].len
    ensures r.Err? <==> exists i :: 0 <= i < |regions| && RegionFails(c, regions, base, codes[i], table, i)
    ensures r.Ok? ==> RegionsDone(c, regions, base, codes, table, r.value, |regions|, outs)
    ensures r.Ok? ==> var end := NewStart(regions, base, |regions|) - base;
      0 <= end <= |r.value| && r.value[end..] == PRELUDE_BYTES
  {
    var block: seq<byte> := [];
    outs := [];
    for i := 0 to |regions|
      invariant |block| == NewStart(regions, base, i) - base
      invariant RegionsDone(c, regions, base, codes, table, block, i, outs)
      invariant forall j :: 0 <= j < i ==> !RegionFails(c, regions, base, codes[j], table, j)
    {
      var moved := PackRegion(c, regions, base, codes[i], table, block, i);
      if moved.Err? {
        return moved, outs;
      }
      RegionsStep(c, regions, base, codes, table, block, moved.value, i, outs);
      block, outs := block + moved.value, outs + [moved.value];
    }
    RegionsStay(c, regions, base, codes, table, block, PRELUDE_BYTES, |regions|, outs);
    return Ok(block + PRELUDE_BYTES), outs;
  }

  // ------------------------------------------------ where operands point to

  /**
   * The operand of every three-byte instruction: an internal address is looked up, the old prelude becomes the new one,
   * and any other address stays.
   */
  lemma OperandMoves(c: Context, code: seq<byte>, out: seq<byte>, oldStart: nat, newStart: nat, j: nat)
    requires c.Valid() && Relocated(c, code, out, oldStart, newStart) && j in Walk(c.ops, code, 0)
    requires c.ops[code[j]].Len() == 3
    ensures j + 2 < |out| == |code| && out[j] == code[j]
    ensures var from, to := Word(code, j + 1), Word(out, j + 1);
      && (c.Internal(from) ==> from in c.m && to == c.m[from])
      && (!c.Internal(from) && from == c.preludeOld ==> to == c.preludeNew)
      && (!c.Internal(from) && from != c.preludeOld ==> to == from)
  {
    hide Word;
    assert InstrAt(c.ops, code, j) && Rewritten(c, code, out, oldStart, newStart, j);
  }

  /** The prelude is found where an operand pointed to it: behind the packed regions. */
  lemma PreludeFollows(c: Context, regions: seq<Region>, base: nat, codes: seq<seq<byte>>, table: nat, block: seq<byte>,
                       outs: seq<seq<byte>>, i: nat, j: nat)
    requires c.Valid() && |codes| == |regions| && RegionsDone(c, regions, base, codes, table, block, |regions|, outs)
    requires c.preludeNew == NewStart(regions, base, |regions|) && !c.Internal(c.preludeOld)
    requires 0 <= c.preludeNew - base <= |block| && block[c.preludeNew - base..] == PRELUDE_BYTES
    requires i < |regions| && i != table && j in Walk(c.ops, codes[i], 0)
    requires c.ops[codes[i][j]].Len() == 3 && Word(codes[i], j + 1) == c.preludeOld
    ensures j + 2 < |outs[i]| && base <= Word(outs[i], j + 1)
    ensures block[Word(outs[i], j + 1) - base..] == PRELUDE_BYTES
  {
    hide Word, Packed;
    assert RegionDone(c, regions, base, codes[i], table, block, i, outs[i]);
    OperandMoves(c, codes[i], outs[i], regions[i].cpu, NewStart(regions, base, i), j);
  }

  /** And a byte of a region that an operand pointed to is found, relocated, where the operand points to now. */
  lemma TargetFollows(c: Context, regions: seq<Region>, base: nat, codes: seq<seq<byte>>, table: nat, block: seq<byte>,
                      outs: seq<seq<byte>>, i: nat, j: nat, r: nat, k: nat)
    requires c.Valid() && |codes| == |regions| && RegionsDone(c, regions, base, codes, table, block, |regions|, outs)
    requires IsMapping(regions, base, c.m) && forall x :: 0 <= x < |regions| ==> |codes[x]| == regions[x].len
    requires i < |regions| && i != table && j in Walk(c.ops, codes[i], 0)
    requires r < |regions| && k < regions[r].len
    requires c.ops[codes[i][j]].Len() == 3 && Word(codes[i], j + 1) == regions[r].cpu + k
    ensures j + 2 < |outs[i]| && k < |outs[r]| && base <= Word(outs[i], j + 1) < base + |block|
    ensures block[Word(outs[i], j + 1) - base] == outs[r][k]
  {
    hide Word, NewStart;
    var from, at := regions[r].cpu + k, NewStart(regions, base, r) - base;
    MappedAt(regions, base, c.m, r, from);
    assert RegionDone(c, regions, base, codes[i], table, block, i, outs[i]);
    assert RegionDone(c, regions, base, codes[r], table, block, r, outs[r]);
    assert Packed(regions, base, block, r, outs[r]);
    hide Relocated, IsMapping, RegionsDone, TableMoved;
    OperandMoves(c, codes[i], outs[i], regions[i].cpu, NewStart(regions, base, i), j);
    PackedByte(regions, base, block, r, outs[r], k);
  }

  lemma PackedByte(regions: seq<Region>, base: nat, block: seq<byte>, r: nat, out: seq<byte>, k: nat)
    requires r < |regions| && Packed(regions, base, block, r, out) && k < regions[r].len
    ensures var at := NewStart(regions, base, r) - base;
      0 <= at && at + k < |block| && k < |out| && block[at + k] == out[k]
  {
    hide NewStart;
    var at := NewStart(regions, base, r) - base;
    assert block[at..at + regions[r].len][k] == block[at + k];
  }

  // --------------------------------------------------------- branch reach

  /** The branch at `idx` leaves the 16-bit address space and comes in again at the other end. */
  predicate Wraps(code: seq<byte>, start: nat, idx: nat)
    requires idx + 1 < |code|
  {
    !(0 <= start + idx + 2 + Signed(code[idx + 1]) <= 0xFFFF)
  }

  /**
   * A branch between two packed addresses always reaches: whatever the bytes of the region, the "out of range" error
   * can only be raised for a branch that wraps around the end of the address space.
   */
  lemma BranchReaches(c: Context, regions: seq<Region>, base: nat, i: nat, code: seq<byte>, idx: nat)
    requires Ascending(regions) && IsMapping(regions, base, c.m) && i < |regions| && |code| == regions[i].len
    requires InstrAt(c.ops, code, idx) && c.ops[code[idx]].Rel?
    requires BranchTarget(code, regions[i].cpu, idx) in c.m && !Wraps(code, regions[i].cpu, idx)
    ensures -128 <= NewOffset(c, code, regions[i].cpu, NewStart(regions, base, i), idx) <= 127
  {
    hide NewStart, IsMapping, Ascending, BranchTarget, Wraps;
    var from, target := regions[i].cpu + idx + 1, BranchTarget(code, regions[i].cpu, idx);
    StraightTarget(code, regions[i].cpu, idx);
    MappedAt(regions, base, c.m, i, from);
    if from < target {
      Contracts(regions, base, c.m, from, target);
    } else if target < from {
      Contracts(regions, base, c.m, target, from);
    }
  }

  lemma StraightTarget(code: seq<byte>, start: nat, idx: nat)
    requires idx + 1 < |code| && !Wraps(code, start, idx)
    ensures -128 <= BranchTarget(code, start, idx) - (start + idx + 2) <= 127
  {
  }

  /** So a region clear of both ends of the address space by the reach of a branch never raises that error. */
  lemma NoBranchOutOfRange(c: Context, regions: seq<Region>, base: nat, i: nat, code: seq<byte>, idx: nat)
    requires Ascending(regions) && IsMapping(regions, base, c.m) && i < |regions| && |code| == regions[i].len
    requires 126 <= regions[i].cpu && regions[i].cpu + regions[i].len <= 0xFFFF - 127
    requires InstrAt(c.ops, code, idx) && c.ops[code[idx]].Rel?
    ensures Fails(c, code, regions[i].cpu, NewStart(regions, base, i), idx) <==>
            c.Internal(BranchTarget(code, regions[i].cpu, idx)) && BranchTarget(code, regions[i].cpu, idx) !in c.m
  {
    if BranchTarget(code, regions[i].cpu, idx) in c.m {
      BranchReaches(c, regions, base, i, code, idx);
    }
  }

  /**
   * A branch that wraps to packed code raises it exactly if the packed block puts more than the reach of a branch between
   * the two: 128 bytes back to a target that lies lower, 127 ahead to one that lies higher.
   */
  lemma WrappingFailsIff(c: Context, regions: seq<Region>, base: nat, i: nat, j: nat, code: seq<byte>, idx: nat)
    requires Ascending(regions) && IsMapping(regions, base, c.m) && i < |regions| && j < |regions| && |code| == regions[i].len
    requires InstrAt(c.ops, code, idx) && c.ops[code[idx]].Rel? && Wraps(code, regions[i].cpu, idx)
    requires var target := BranchTarget(code, regions[i].cpu, idx); regions[j].Has(target) && c.Internal(target)
    ensures var target := BranchTarget(code, regions[i].cpu, idx);
      var behind, to := NewStart(regions, base, i) + idx + 2, NewStart(regions, base, j) + (target - regions[j].cpu);
      Fails(c, code, regions[i].cpu, NewStart(regions, base, i), idx) <==>
        if target < regions[i].cpu + idx then behind - to > 128 else to - behind > 127
  {
    hide NewStart, IsMapping, Ascending, BranchTarget, Wraps;
    var from, target := regions[i].cpu + idx, BranchTarget(code, regions[i].cpu, idx);
    MappedAt(regions, base, c.m, i, from);
    MappedAt(regions, base, c.m, j, target);
    if from < target {
      Contracts(regions, base, c.m, from, target);
    } else if target < from {
      Contracts(regions, base, c.m, target, from);
    }
  }

  /** So it can be raised: from the top of the address space to the bottom, with 200 bytes between. */
  lemma WrappingBranchFails(c: Context)
    requires c.ops == map[0xD0 := Rel] && c.lo == 0 && c.hi == 0xFFFF
    requires IsMapping([Region(0, 200), Region(0xFFF0, 2)], 0x8000, c.m)
    ensures Fails(c, [0xD0, 0x20], 0xFFF0, 0x8000 + 200, 0)
  {
    var regions := [Region(0, 200), Region(0xFFF0, 2)];
    assert NewStart(regions, 0x8000, 0) == 0x8000;
    assert BranchTarget([0xD0, 0x20], 0xFFF0, 0) == 0x12;
    WrappingFailsIff(c, regions, 0x8000, 1, 0, [0xD0, 0x20], 0);
  }

  // ---------------------------------------------------------- control flow

  /** A block of code at a CPU address. */
  datatype Block = Block(start: nat, code: seq<byte>)

  /** Execution can go on behind the opcode: not a jump, a return or a software interrupt. */
  predicate FallsThrough(op: byte) { op !in {0x4C, 0x6C, 0x60, 0x40, 0x00} }

  /** Where execution can go from the instruction at offset `idx` of the block. */
  function Successors(ops: Table, b: Block, idx: nat): set<nat>
    requires InstrAt(ops, b.code, idx)
  {
    var op, mode := b.code[idx], ops[b.code[idx]];
    (if FallsThrough(op) then {b.start + idx + mode.Len()} else {})
    + (if mode.Rel? then {BranchTarget(b.code, b.start, idx)} else {})
    + (if op in {0x20, 0x4C} && mode.Abs? then {Word(b.code, idx + 1)} else {})
  }

  /** Kind by kind: calls and branches go on and to their target, jumps to theirs, returns and indirect jumps nowhere. */
  lemma SuccessorKinds(ops: Table, b: Block, idx: nat)
    requires InstrAt(ops, b.code, idx) && Some(ops[b.code[idx]]) == Regular(b.code[idx])
    ensures var op, next := b.code[idx], b.start + idx + ops[b.code[idx]].Len();
      && (op == 0x20 ==> Successors(ops, b, idx) == {next, Word(b.code, idx + 1)})
      && (op == 0x4C ==> Successors(ops, b, idx) == {Word(b.code, idx + 1)})
      && (op in {0x6C, 0x60, 0x40, 0x00} ==> Successors(ops, b, idx) == {})
      && (ops[op].Rel? ==> Successors(ops, b, idx) == {next, BranchTarget(b.code, b.start, idx)})
      && (op !in {0x20, 0x4C, 0x6C, 0x60, 0x40, 0x00} && !ops[op].Rel? ==> Successors(ops, b, idx) == {next})
  {
    hide Word, BranchTarget;
    JumpModes(b.code[idx]);
    hide Regular;
  }

  lemma JumpModes(op: byte)
    ensures op in {0x20, 0x4C} ==> Regular(op) == Some(Abs)
    ensures op == 0x6C ==> Regular(op) == Some(Ind)
    ensures op in {0x60, 0x40, 0x00} ==> Regular(op) == Some(Imp)
  {
  }

  /** A control-flow edge of the walked code of `b`. */
  ghost predicate BlockEdge(ops: Table, b: Block, pc: nat, t: nat) {
    exists idx :: idx in Walk(ops, b.code, 0) && InstrAt(ops, b.code, idx) && pc == b.start + idx && t in Successors(ops, b, idx)
  }

  ghost predicate Edge(ops: Table, blocks: seq<Block>, pc: nat, t: nat) {
    exists i :: 0 <= i < |blocks| && BlockEdge(ops, blocks[i], pc, t)
  }

  /** Branches aim at relocated code, and execution does not run off the end of a region. */
  ghost predicate SelfContained(c: Context, b: Block) {
    forall idx :: idx in Walk(c.ops, b.code, 0) && InstrAt(c.ops, b.code, idx) ==>
      && (c.ops[b.code[idx]].Rel? ==> c.Internal(BranchTarget(b.code, b.start, idx)))
      && (FallsThrough(b.code[idx]) ==> idx + c.ops[b.code[idx]].Len() < |b.code|)
  }

  /** `moved` is the relocation of the regions' code, region by region; a region of data has no code. */
  ghost predicate RelocatedProgram(c: Context, regions: seq<Region>, base: nat, original: seq<Block>, moved: seq<Block>) {
    && c.Valid() && Ascending(regions) && IsMapping(regions, base, c.m)
    && |original| == |moved| == |regions|
    && (forall i :: 0 <= i < |regions| ==>
          && original[i].start == regions[i].cpu && |original[i].code| <= regions[i].len
          && moved[i].start == NewStart(regions, base, i)
          && Relocated(c, original[i].code, moved[i].code, original[i].start, moved[i].start)
          && SelfContained(c, original[i]))
  }

  /** The code of the regions at its old addresses; the jump table is data. */
  function CodeBlocks(regions: seq<Region>, codes: seq<seq<byte>>, table: nat): (r: seq<Block>)
    requires |codes| == |regions|
    ensures |r| == |regions|
  {
    seq(|regions|, i requires 0 <= i < |regions| => Block(regions[i].cpu, if i == table then [] else codes[i]))
  }

  /** And where the packed block holds it. */
  function PackedBlocks(regions: seq<Region>, base: nat, outs: seq<seq<byte>>, table: nat): (r: seq<Block>)
    requires |outs| == |regions|
    ensures |r| == |regions|
  {
    seq(|regions|, i requires 0 <= i < |regions| => Block(NewStart(regions, base, i), if i == table then [] else outs[i]))
  }

  lemma NothingRelocated(c: Context, oldStart: nat, newStart: nat)
    ensures Relocated(c, [], [], oldStart, newStart)
  {
  }

  /** What the packing loop returns is a relocated program, to which all of the following applies. */
  lemma PackedProgram(c: Context, regions: seq<Region>, base: nat, codes: seq<seq<byte>>, table: nat, block: seq<byte>,
                      outs: seq<seq<byte>>)
    requires c.Valid() && Ascending(regions) && IsMapping(regions, base, c.m)
    requires |codes| == |regions| && forall i :: 0 <= i < |regions| ==> |codes[i]| == regions[i].len
    requires RegionsDone(c, regions, base, codes, table, block, |regions|, outs)
    requires forall i :: 0 <= i < |regions| && i != table ==> SelfContained(c, Block(regions[i].cpu, codes[i]))
    ensures RelocatedProgram(c, regions, base, CodeBlocks(regions, codes, table), PackedBlocks(regions, base, outs, table))
  {
    hide Relocated, SelfContained, TableMoved, IsMapping, Ascending, Packed;
    var original, moved := CodeBlocks(regions, codes, table), PackedBlocks(regions, base, outs, table);
    forall i | 0 <= i < |regions|
      ensures Relocated(c, original[i].code, moved[i].code, original[i].start, moved[i].start) && SelfContained(c, original[i])
    {
      assert RegionDone(c, regions, base, codes[i], table, block, i, outs[i]);
      if i == table {
        NothingRelocated(c, regions[i].cpu, NewStart(regions, base, i));
        NothingContained(c, regions[i].cpu);
      }
    }
  }

  lemma NothingContained(c: Context, start: nat)
    ensures SelfContained(c, Block(start, []))
  {
  }

  lemma OperandsMove(c: Context, o: Block, n: Block, idx: nat)
    requires c.Valid() && InstrAt(c.ops, o.code, idx) && |n.code| == |o.code|
    requires !Fails(c, o.code, o.start, n.start, idx) && Rewritten(c, o.code, n.code, o.start, n.start, idx)
    requires c.ops[o.code[idx]].Rel? ==> c.Internal(BranchTarget(o.code, o.start, idx))
    ensures InstrAt(c.ops, n.code, idx)
    ensures c.ops[o.code[idx]].Rel? ==> c.Moved(BranchTarget(o.code, o.start, idx)) == BranchTarget(n.code, n.start, idx)
    ensures c.ops[o.code[idx]].IsAbs() ==> c.Moved(Word(o.code, idx + 1)) == Word(n.code, idx + 1)
  {
  }

  lemma FallThroughMoves(c: Context, regions: seq<Region>, base: nat, i: nat, k: nat)
    requires IsMapping(regions, base, c.m) && i < |regions| && k < regions[i].len
    ensures c.Moved(regions[i].cpu + k) == NewStart(regions, base, i) + k
  {
    assert regions[i].Has(regions[i].cpu + k);
  }

  /** An instruction of the relocated block goes exactly where the old one went, moved. */
  lemma SuccessorsMove(c: Context, regions: seq<Region>, base: nat, original: seq<Block>, moved: seq<Block>, i: nat, idx: nat)
    requires RelocatedProgram(c, regions, base, original, moved) && i < |regions|
    requires idx in Walk(c.ops, original[i].code, 0)
    ensures InstrAt(c.ops, original[i].code, idx) && InstrAt(c.ops, moved[i].code, idx) && idx in Walk(c.ops, moved[i].code, 0)
    ensures Successors(c.ops, moved[i], idx) == set t | t in Successors(c.ops, original[i], idx) :: c.Moved(t)
  {
    var o, n := original[i], moved[i];
    OperandsMove(c, o, n, idx);
    var mode := c.ops[o.code[idx]];
    assert n.code[idx] == o.code[idx];
    if FallsThrough(o.code[idx]) {
      FallThroughMoves(c, regions, base, i, idx + mode.Len());
    }
    MovedUnion(c, o, n, idx, mode);
  }

  lemma MovedUnion(c: Context, o: Block, n: Block, idx: nat, mode: Mode)
    requires InstrAt(c.ops, o.code, idx) && InstrAt(c.ops, n.code, idx)
    requires n.code[idx] == o.code[idx] && c.ops[o.code[idx]] == mode
    requires FallsThrough(o.code[idx]) ==> c.Moved(o.start + idx + mode.Len()) == n.start + idx + mode.Len()
    requires mode.Rel? ==> c.Moved(BranchTarget(o.code, o.start, idx)) == BranchTarget(n.code, n.start, idx)
    requires mode.IsAbs() ==> c.Moved(Word(o.code, idx + 1)) == Word(n.code, idx + 1)
    ensures Successors(c.ops, n, idx) == set t | t in Successors(c.ops, o, idx) :: c.Moved(t)
  {
  }

  lemma PlaceOf(regions: seq<Region>, base: nat, m: Mapping, i: nat, k: nat, pc: nat)
    requires Ascending(regions) && IsMapping(regions, base, m) && i < |regions| && k < regions[i].len
    ensures var from := regions[i].cpu + k;
      from in m && m[from] == NewStart(regions, base, i) + k && (pc in m && m[pc] == m[from] ==> pc == from)
  {
    var from := regions[i].cpu + k;
    assert regions[i].Has(from);
    if pc in m && from < pc {
      Contracts(regions, base, m, from, pc);
    } else if pc in m && pc < from {
      Contracts(regions, base, m, pc, from);
    }
  }

  lemma MakeEdge(ops: Table, blocks: seq<Block>, i: nat, idx: nat, pc: nat, t: nat)
    requires i < |blocks| && idx in Walk(ops, blocks[i].code, 0) && InstrAt(ops, blocks[i].code, idx)
    requires pc == blocks[i].start + idx && t in Successors(ops, blocks[i], idx)
    ensures Edge(ops, blocks, pc, t)
  {
    assert BlockEdge(ops, blocks[i], pc, t);
  }

  /** The block and the instruction an edge comes from. */
  lemma EdgeOrigin(ops: Table, blocks: seq<Block>, pc: nat, t: nat) returns (i: nat, idx: nat)
    requires Edge(ops, blocks, pc, t)
    ensures i < |blocks| && idx in Walk(ops, blocks[i].code, 0) && InstrAt(ops, blocks[i].code, idx)
    ensures pc == blocks[i].start + idx && t in Successors(ops, blocks[i], idx)
  {
    hide Walk, Successors, InstrAt;
    i :| i < |blocks| && BlockEdge(ops, blocks[i], pc, t);
    idx :| idx in Walk(ops, blocks[i].code, 0) && InstrAt(ops, blocks[i].code, idx)
           && pc == blocks[i].start + idx && t in Successors(ops, blocks[i], idx);
  }

  lemma SameWalk(c: Context, o: Block, n: Block)
    requires Relocated(c, o.code, n.code, o.start, n.start)
    ensures |n.code| == |o.code| && Walk(c.ops, n.code, 0) == Walk(c.ops, o.code, 0)
  {
  }

  lemma NewEdgeIsOld(c: Context, regions: seq<Region>, base: nat, original: seq<Block>, moved: seq<Block>, pc: nat, t': nat)
    returns (t: nat)
    requires RelocatedProgram(c, regions, base, original, moved) && pc in c.m && Edge(c.ops, moved, c.m[pc], t')
    ensures Edge(c.ops, original, pc, t) && t' == c.Moved(t)
  {
    hide Walk, Edge, Successors, Relocated, SelfContained, NewStart;
    var i, idx := EdgeOrigin(c.ops, moved, c.m[pc], t');
    SameWalk(c, original[i], moved[i]);
    SuccessorsMove(c, regions, base, original, moved, i, idx);
    PlaceOf(regions, base, c.m, i, idx, pc);
    t :| t in Successors(c.ops, original[i], idx) && t' == c.Moved(t);
    MakeEdge(c.ops, original, i, idx, pc, t);
  }

  lemma OldEdgeIsNew(c: Context, regions: seq<Region>, base: nat, original: seq<Block>, moved: seq<Block>, pc: nat, t: nat)
    requires RelocatedProgram(c, regions, base, original, moved) && Edge(c.ops, original, pc, t)
    ensures pc in c.m && Edge(c.ops, moved, c.m[pc], c.Moved(t))
  {
    hide Walk, Edge, Successors, Relocated, SelfContained, NewStart;
    var i, idx := EdgeOrigin(c.ops, original, pc, t);
    SuccessorsMove(c, regions, base, original, moved, i, idx);
    PlaceOf(regions, base, c.m, i, idx, pc);
    MakeEdge(c.ops, moved, i, idx, c.m[pc], c.Moved(t));
  }

  lemma TargetsMapped(c: Context, regions: seq<Region>, base: nat, original: seq<Block>, moved: seq<Block>, pc: nat, t: nat)
    requires RelocatedProgram(c, regions, base, original, moved) && Edge(c.ops, original, pc, t) && c.Internal(t)
    ensures t in c.m
  {
    var i :| 0 <= i < |original| && BlockEdge(c.ops, original[i], pc, t);
    hide Walk, Edge, Successors, Relocated, SelfContained, NewStart;
    var idx :| idx in Walk(c.ops, original[i].code, 0) && InstrAt(c.ops, original[i].code, idx)
               && pc == original[i].start + idx && t in Successors(c.ops, original[i], idx);
    TargetMapped(c, regions, base, original[i], moved[i], i, idx, t);
  }

  lemma TargetMapped(c: Context, regions: seq<Region>, base: nat, o: Block, n: Block, i: nat, idx: nat, t: nat)
    requires IsMapping(regions, base, c.m) && i < |regions| && o.start == regions[i].cpu && |o.code| <= regions[i].len
    requires SelfContained(c, o) && idx in Walk(c.ops, o.code, 0) && InstrAt(c.ops, o.code, idx)
    requires !Fails(c, o.code, o.start, n.start, idx) && t in Successors(c.ops, o, idx) && c.Internal(t)
    ensures t in c.m
  {
    var next := o.start + idx + c.ops[o.code[idx]].Len();
    if FallsThrough(o.code[idx]) {
      HasPlace(regions, base, c.m, i, next);
    }
  }

  lemma HasPlace(regions: seq<Region>, base: nat, m: Mapping, i: nat, a: nat)
    requires IsMapping(regions, base, m) && i < |regions| && regions[i].Has(a)
    ensures a in m
  {
  }

  /** Relocation preserves control flow: the edges out of a moved address are the moved edges out of the old one. */
  lemma EdgesMove(c: Context, regions: seq<Region>, base: nat, original: seq<Block>, moved: seq<Block>, pc: nat, t': nat)
    requires RelocatedProgram(c, regions, base, original, moved) && pc in c.m
    ensures Edge(c.ops, moved, c.m[pc], t') <==> exists t :: Edge(c.ops, original, pc, t) && t' == c.Moved(t)
  {
    if Edge(c.ops, moved, c.m[pc], t') {
      var t := NewEdgeIsOld(c, regions, base, original, moved, pc, t');
    }
    if t :| Edge(c.ops, original, pc, t) && t' == c.Moved(t) {
      OldEdgeIsNew(c, regions, base, original, moved, pc, t);
    }
  }

  /** A run: every address reached from the one before it. */
  ghost predicate Run(ops: Table, blocks: seq<Block>, path: seq<nat>) {
    forall k :: 0 <= k < |path| - 1 ==> Edge(ops, blocks, path[k], path[k + 1])
  }

  function MovedPath(c: Context, path: seq<nat>): (r: seq<nat>)
    ensures |r| == |path| && forall k :: 0 <= k < |path| ==> r[k] == c.Moved(path[k])
  {
    seq(|path|, k requires 0 <= k < |path| => c.Moved(path[k]))
  }

  lemma NewEdgeSource(c: Context, regions: seq<Region>, base: nat, original: seq<Block>, moved: seq<Block>, pc: nat, t: nat)
    requires RelocatedProgram(c, regions, base, original, moved) && Edge(c.ops, moved, pc, t)
    ensures exists a :: a in c.m && c.m[a] == pc
  {
    var i :| 0 <= i < |moved| && BlockEdge(c.ops, moved[i], pc, t);
    PlaceOf(regions, base, c.m, i, pc - moved[i].start, 0);
  }

  /** Every run of the old code, moved, is a run of the new code. */
  lemma RunsMove(c: Context, regions: seq<Region>, base: nat, original: seq<Block>, moved: seq<Block>, path: seq<nat>)
    requires RelocatedProgram(c, regions, base, original, moved) && Run(c.ops, original, path)
    ensures Run(c.ops, moved, MovedPath(c, path))
  {
    forall k | 0 <= k < |path| - 1 ensures Edge(c.ops, moved, c.Moved(path[k]), c.Moved(path[k + 1])) {
      OldEdgeIsNew(c, regions, base, original, moved, path[k], path[k + 1]);
    }
  }

  /** The packed block lies inside the range of the old code, off the new prelude, as it does for the shipped constants. */
  ghost predicate PlacedInside(c: Context) {
    forall a :: a in c.m ==> c.Internal(c.m[a]) && c.m[a] != c.preludeNew
  }

  lemma StepBack(c: Context, regions: seq<Region>, base: nat, original: seq<Block>, moved: seq<Block>, start: nat, p: nat)
    returns (t: nat)
    requires RelocatedProgram(c, regions, base, original, moved) && PlacedInside(c)
    requires start in c.m && Edge(c.ops, moved, c.m[start], p)
    ensures Edge(c.ops, original, start, t) && p == c.Moved(t)
    ensures forall q :: Edge(c.ops, moved, p, q) ==> t in c.m
  {
    t := NewEdgeIsOld(c, regions, base, original, moved, start, p);
    forall q | Edge(c.ops, moved, p, q) ensures t in c.m {
      NewEdgeSource(c, regions, base, original, moved, p, q);
      if c.Internal(t) {
        TargetsMapped(c, regions, base, original, moved, start, t);
      }
    }
  }

  lemma RunTail(ops: Table, blocks: seq<Block>, path: seq<nat>)
    requires Run(ops, blocks, path) && |path| > 1
    ensures Edge(ops, blocks, path[0], path[1]) && Run(ops, blocks, path[1..])
    ensures |path| > 2 ==> Edge(ops, blocks, path[1], path[2])
  {
    forall k | 0 <= k < |path[1..]| - 1 ensures Edge(ops, blocks, path[1..][k], path[1..][k + 1]) {
      assert Edge(ops, blocks, path[k + 1], path[k + 1 + 1]);
    }
    assert |path| > 2 ==> Edge(ops, blocks, path[1], path[1 + 1]);
  }

  lemma RunCons(ops: Table, blocks: seq<Block>, a: nat, path: seq<nat>)
    requires Run(ops, blocks, path) && path != [] && Edge(ops, blocks, a, path[0])
    ensures Run(ops, blocks, [a] + path)
  {
    forall k | 0 <= k < |path| ensures Edge(ops, blocks, ([a] + path)[k], ([a] + path)[k + 1]) {
      assert k > 0 ==> Edge(ops, blocks, path[k - 1], path[k - 1 + 1]);
    }
  }

  lemma MovedCons(c: Context, a: nat, path: seq<nat>, path': seq<nat>)
    requires |path'| > 0 && path'[0] == c.Moved(a) && MovedPath(c, path) == path'[1..]
    ensures MovedPath(c, [a] + path) == path'
  {
    assert path' == [path'[0]] + path'[1..];
  }

  /** And the new code has no others: a run from a moved address is the moved image of a run of the old code. */
  lemma {:induction false} RunsComeFromOld(c: Context, regions: seq<Region>, base: nat, original: seq<Block>, moved: seq<Block>,
                                           start: nat, path': seq<nat>) returns (path: seq<nat>)
    requires RelocatedProgram(c, regions, base, original, moved) && PlacedInside(c)
    requires path' != [] && path'[0] == c.Moved(start) && Run(c.ops, moved, path')
    requires start in c.m || |path'| == 1
    ensures path != [] && path[0] == start && Run(c.ops, original, path) && MovedPath(c, path) == path'
    decreases |path'|
  {
    path := [start];
    if |path'| > 1 {
      RunTail(c.ops, moved, path');
      var t := StepBack(c, regions, base, original, moved, start, path'[1]);
      var rest := RunsComeFromOld(c, regions, base, original, moved, t, path'[1..]);
      RunCons(c.ops, original, start, rest);
      path := [start] + rest;
      MovedCons(c, start, rest, path');
    }
  }

  // ------------------------------------------------------ shipped constants

  const OLD_REGIONS: seq<Region> := [
    Region(0xB290, 38), Region(0xB390, 21), Region(0xB490, 517), Region(0xB890, 39), Region(0xB910, 64), Region(0xB990, 70),
    Region(0xBA90, 80), Region(0xBB90, 72), Region(0xBC90, 78), Region(0xBD90, 12), Region(0xBE90, 49)
  ]
  const NEW_BASE_CPU: nat := 0xB46F
  const PRELUDE_OLD_CPU: nat := 0xED94

  function Z1rrContext(m: Mapping): Context {
    Context(OPCODES, m, 0xB290, 0xBEC0, PRELUDE_OLD_CPU, NewStart(OLD_REGIONS, NEW_BASE_CPU, 11))
  }

  /** The regions lie between two addresses, and so do their packed places. */
  ghost predicate Bounded(regions: seq<Region>, base: nat, lo: nat, hi: nat, newEnd: nat) {
    forall i :: 0 <= i < |regions| ==>
      && lo <= regions[i].cpu && regions[i].cpu + regions[i].len <= hi + 1
      && base <= NewStart(regions, base, i) && NewStart(regions, base, i) + regions[i].len <= newEnd
  }

  lemma {:induction false} StartsStep(regions: seq<Region>, base: nat, i: nat)
    requires i < |regions|
    ensures NewStart(regions, base, i + 1) == NewStart(regions, base, i) + regions[i].len
  {
  }

  lemma Z1rrStarts()
    ensures forall i :: 0 <= i <= 11 ==>
      NewStart(OLD_REGIONS, NEW_BASE_CPU, i) == 0xB46F + [0, 38, 59, 576, 615, 679, 749, 829, 901, 979, 991, 1040][i]
  {
    assert NewStart(OLD_REGIONS, NEW_BASE_CPU, 0) == 0xB46F;
    hide NewStart;
    StartsStep(OLD_REGIONS, NEW_BASE_CPU, 0);
    StartsStep(OLD_REGIONS, NEW_BASE_CPU, 1);
    StartsStep(OLD_REGIONS, NEW_BASE_CPU, 2);
    StartsStep(OLD_REGIONS, NEW_BASE_CPU, 3);
    StartsStep(OLD_REGIONS, NEW_BASE_CPU, 4);
    StartsStep(OLD_REGIONS, NEW_BASE_CPU, 5);
    StartsStep(OLD_REGIONS, NEW_BASE_CPU, 6);
    StartsStep(OLD_REGIONS, NEW_BASE_CPU, 7);
    StartsStep(OLD_REGIONS, NEW_BASE_CPU, 8);
    StartsStep(OLD_REGIONS, NEW_BASE_CPU, 9);
    StartsStep(OLD_REGIONS, NEW_BASE_CPU, 10);
  }

  lemma Z1rrBounded()
    ensures NewStart(OLD_REGIONS, NEW_BASE_CPU, 11) == 0xB87F && Ascending(OLD_REGIONS)
    ensures Bounded(OLD_REGIONS, NEW_BASE_CPU, 0xB290, 0xBEC0, 0xB87F)
  {
    hide NewStart;
    Z1rrStarts();
  }

  lemma BoundedIsPlaced(regions: seq<Region>, base: nat, c: Context)
    requires IsMapping(regions, base, c.m) && Bounded(regions, base, c.lo, c.hi, c.preludeNew)
    requires c.lo <= base && c.preludeNew <= c.hi <= 0xFFFF
    ensures c.Valid() && PlacedInside(c)
  {
    forall a: nat | a in c.m ensures c.Internal(a) && base <= c.m[a] < c.preludeNew {
      var i :| 0 <= i < |regions| && regions[i].Has(a);
    }
  }

  /** The shipped region table meets every hypothesis above, and its packed code and prelude end below $BFFF. */
  lemma Z1rrLayout(m: Mapping)
    requires IsMapping(OLD_REGIONS, NEW_BASE_CPU, m)
    ensures Ascending(OLD_REGIONS) && Z1rrContext(m).Valid() && PlacedInside(Z1rrContext(m))
    ensures Z1rrContext(m).preludeNew + 4 <= 0xBFFF
    ensures forall i :: 0 <= i < |OLD_REGIONS| ==> 126 <= OLD_REGIONS[i].cpu && OLD_REGIONS[i].cpu + OLD_REGIONS[i].len <= 0xFFFF - 127
  {
    hide NewStart;
    Z1rrBounded();
    BoundedIsPlaced(OLD_REGIONS, NEW_BASE_CPU, Z1rrContext(m));
  }
}
