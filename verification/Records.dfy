/** Sync records and `record_changed` of bridge/bridge_core/sync_engine.py. */
module Records {
  import opened Wrappers
  import opened Bytes
  import opened Bits

  /** The `kind` of a record; `Custom` is a callable of value, previous value and direction. */
  datatype Kind = Plain | High | BitwiseOr | BitwiseAnd | Delta | Trigger | Custom(f: (int, int, bool) -> (bool, int))

  /** `maxPlausible` is what a record's names allow (see `_max_plausible_value`); it only matters for `High`. */
  datatype Rec = Rec(
    kind: Kind,
    size: nat := 1,
    mask: Option<nat> := None,
    deltaMin: Option<int> := None,
    deltaMax: Option<int> := None,
    ignoreZero: bool := false,
    cond: Option<int -> bool> := None,
    maxPlausible: Option<nat> := None)
  {
    function SizeMask(): nat { if size == 2 then 0xFFFF else if size == 4 then 0xFFFFFFFF else 0xFF }

    function Mask(): nat { if mask.Some? then mask.value else SizeMask() }
  }

  /** The value with every bit outside an explicit mask taken from the previous value. */
  function MaskedValue(rec: Rec, value: int, prev: int): int {
    if rec.mask.Some? then Or(And(rec.mask.value, value), And(Inverse(rec.mask.value), prev)) else value
  }

  function Clamp(rec: Rec, sum: int): int {
    var low := if rec.deltaMin.Some? && sum < rec.deltaMin.value then rec.deltaMin.value else sum;
    if rec.deltaMax.Some? && low > rec.deltaMax.value then rec.deltaMax.value else low
  }

  predicate ZeroBoundary(rec: Rec, value: int, prev: int) {
    rec.ignoreZero && (And(rec.Mask(), value) == 0 || And(rec.Mask(), prev) == 0)
  }

  /** What a received delta makes of the previous value. */
  function DeltaWritten(rec: Rec, delta: int, prev: nat): nat {
    var inverse := if rec.mask.Some? then Inverse(rec.mask.value) else 0;
    Or(And(inverse, prev), And(rec.Mask(), Clamp(rec, prev + delta)))
  }

  /** The decision of the record's kind, before `cond`: allowed, and the value to send or write. */
  function KindDecides(rec: Rec, value: int, prev: nat, receiving: bool): (bool, int) {
    var masked := MaskedValue(rec, value, prev);
    match rec.kind
    case Trigger => (false, value)
    case Custom(f) => f(value, prev, receiving)
    case High => (And(rec.Mask(), value) > And(rec.Mask(), prev), masked)
    case BitwiseOr => (masked != prev, if receiving then Or(masked, prev) else masked)
    case BitwiseAnd => (masked != prev, if receiving then And(prev, masked) else masked)
    case Delta =>
      if receiving then (value != 0, DeltaWritten(rec, value, prev))
      else if ZeroBoundary(rec, value, prev) then (false, value)
      else (masked != prev, And(rec.Mask(), value) - And(rec.Mask(), prev))
    case Plain => (masked != prev, masked)
  }

  /** `record_changed`: whether a change is sent or applied, and with which value. */
  function RecordChanged(rec: Rec, value: int, prev: nat, receiving: bool): (bool, int) {
    var (allow, resolved) := KindDecides(rec, value, prev, receiving);
    (allow && (rec.cond.Some? ==> rec.cond.value(MaskedValue(rec, value, prev))), resolved)
  }

  /** `implausible_change_reason`, as a test. */
  predicate Implausible(rec: Rec, value: int) {
    rec.kind.High? && rec.maxPlausible.Some? && (value < 0 || value > rec.maxPlausible.value)
  }

  /** `_should_cache_suppressed_delta`. */
  predicate CachesSuppressed(rec: Rec, value: int, prev: int) {
    rec.kind.Delta? && ZeroBoundary(rec, value, prev)
  }

  /** `_should_gate_map_write`. */
  predicate Gated(addr: int, rec: Rec) { 0x067F <= addr <= 0x07FE && rec.kind.BitwiseOr? }

  // ---------------------------------------------------- the modes' records

  /** A byte-sized `high` record without mask or condition, as all of them are in the Zelda modes. */
  predicate HighRec(rec: Rec) { rec.kind.High? && rec.size == 1 && rec.mask.None? && rec.cond.None? }

  /** A byte-sized record, whole or masked. */
  predicate ByteRec(rec: Rec) { rec.size == 1 && (rec.mask.Some? ==> rec.mask.value <= 0xFF) }

  /** A byte-sized `bitOr` record, whole or masked, without condition. */
  predicate BitOrRec(rec: Rec) {
    rec.kind.BitwiseOr? && rec.size == 1 && rec.cond.None? && (rec.mask.Some? ==> rec.mask.value <= 0xFF)
  }

  /** A byte-sized counter such as the key count: unmasked, with a lower clamp at most. */
  predicate CounterRec(rec: Rec) {
    && rec.kind.Delta? && rec.size == 1 && rec.mask.None? && rec.cond.None? && !rec.ignoreZero
    && rec.deltaMin == Some(0) && rec.deltaMax.None?
  }

  /** A whole-byte record looks at the low byte. */
  lemma WholeByte(rec: Rec, x: int)
    requires rec.size == 1 && rec.mask.None?
    ensures And(rec.Mask(), x) == x % 0x100
  {
    hide And;
    AndByte(x);
  }

  /** What a received `high` value does: it is written if and only if it is larger. */
  lemma HighReceive(rec: Rec, value: int, prev: byte)
    requires HighRec(rec) && 0 <= value < 0x100
    ensures RecordChanged(rec, value, prev, true) == RecordChanged(rec, value, prev, false) == (value > prev, value)
  {
    hide And;
    WholeByte(rec, value);
    WholeByte(rec, prev);
  }

  lemma BitOfMasked(rec: Rec, value: int, prev: byte, i: nat)
    requires ByteRec(rec) && i < 8
    ensures Bit(MaskedValue(rec, value, prev), i) <==> if Bit(rec.Mask(), i) then Bit(value, i) else Bit(prev, i)
  {
    BytePower();
    if rec.mask.Some? {
      var m := rec.mask.value;
      BitOr(And(m, value), And(Inverse(m), prev), i);
      BitAnd(m, value, i);
      BitAnd(Inverse(m), prev, i);
      BitInverse(m, i);
    } else {
      BitOfOnes(8, i);
    }
  }

  /** What a received `bitOr` value does to each bit of the byte: set inside the mask, untouched outside. */
  lemma BitOrReceive(rec: Rec, value: int, prev: byte, i: nat)
    requires BitOrRec(rec) && i < 8
    ensures var (allow, written) := RecordChanged(rec, value, prev, true);
      var after := if allow then written % 0x100 else prev;
      Bit(after, i) <==> Bit(prev, i) || (Bit(rec.Mask(), i) && Bit(value, i))
  {
    var masked := MaskedValue(rec, value, prev);
    BitOfMasked(rec, value, prev, i);
    BitOr(masked, prev, i);
    BitOfByte(Or(masked, prev), i);
  }

  lemma BitOrDecides(rec: Rec, cur: byte, prev: byte)
    requires BitOrRec(rec)
    ensures RecordChanged(rec, cur, prev, false) == (MaskedValue(rec, cur, prev) != prev, MaskedValue(rec, cur, prev))
  {
    hide MaskedValue;
  }

  /** What a poll sends for a changed `bitOr` byte agrees with it inside the mask, and with the old byte outside. */
  lemma BitOrSend(rec: Rec, cur: byte, prev: byte, i: nat)
    requires BitOrRec(rec) && i < 8
    ensures var (allow, sent) := RecordChanged(rec, cur, prev, false);
      && 0 <= sent < 0x100
      && (Bit(sent, i) <==> if Bit(rec.Mask(), i) then Bit(cur, i) else Bit(prev, i))
      && (!allow && Bit(rec.Mask(), i) ==> Bit(cur, i) == Bit(prev, i))
  {
    hide Bit, MaskedValue, RecordChanged;
    BitOfMasked(rec, cur, prev, i);
    MaskedIsByte(rec, cur, prev);
    BitOrDecides(rec, cur, prev);
  }

  lemma MaskedIsByte(rec: Rec, cur: byte, prev: byte)
    requires ByteRec(rec)
    ensures 0 <= MaskedValue(rec, cur, prev) < 0x100
  {
    if rec.mask.Some? {
      var m := rec.mask.value;
      var masked := Or(And(m, cur), And(Inverse(m), prev));
      BytePower();
      AndBelow(Inverse(m), prev, 8);
      OrBelow(And(m, cur), And(Inverse(m), prev), 8);
    }
  }

  lemma {:induction false} AndBelow(mask: nat, x: nat, n: nat)
    requires x < Pow2(n)
    ensures And(mask, x) < Pow2(n)
    decreases mask
  {
    if mask > 0 && n > 0 {
      AndBelow(mask / 2, x / 2, n - 1);
    } else if n == 0 {
      AndZero(mask);
    }
  }

  lemma {:induction false} AndZero(mask: nat)
    ensures And(mask, 0) == 0
  {
    if mask > 0 {
      AndZero(mask / 2);
    }
  }

  lemma {:induction false} OrBelow(x: nat, y: nat, n: nat)
    requires x < Pow2(n) && y < Pow2(n)
    ensures Or(x, y) < Pow2(n)
    decreases n
  {
    if y > 0 && n > 0 {
      OrBelow(x / 2, y / 2, n - 1);
    }
  }

  lemma CounterWritten(rec: Rec, delta: int, prev: byte)
    requires CounterRec(rec)
    ensures DeltaWritten(rec, delta, prev) == if prev + delta < 0 then 0 else (prev + delta) % 0x100
  {
    hide And, Or;
    WholeByte(rec, Clamp(rec, prev + delta));
    AndZeroMask(prev);
    OrOfZero(And(rec.Mask(), Clamp(rec, prev + delta)));
  }

  /** What a received delta writes to a counter: the sum, or zero when it would fall below zero, in one byte. */
  lemma CounterReceive(rec: Rec, delta: int, prev: byte)
    requires CounterRec(rec)
    ensures RecordChanged(rec, delta, prev, true) ==
            (delta != 0, if prev + delta < 0 then 0 else (prev + delta) % 0x100)
  {
    CounterWritten(rec, delta, prev);
  }

  lemma AndZeroMask(x: int)
    ensures And(0, x) == 0
  {
  }

  /** And what a poll sends for it is the plain difference. */
  lemma CounterSend(rec: Rec, cur: byte, prev: byte)
    requires CounterRec(rec)
    ensures RecordChanged(rec, cur, prev, false) == (cur != prev, cur - prev)
  {
    hide And;
    WholeByte(rec, cur);
    WholeByte(rec, prev);
  }

  // -------------------------------------------------- the other kinds, bit by bit

  /** A record without kind takes the bits inside its mask as they come, and leaves the others alone. */
  lemma PlainTakes(rec: Rec, value: int, prev: byte, receiving: bool, i: nat)
    requires rec.kind.Plain? && ByteRec(rec) && rec.cond.None? && i < 8
    ensures var (allow, resolved) := RecordChanged(rec, value, prev, receiving);
      var after := if allow then resolved % 0x100 else prev;
      Bit(after, i) <==> if Bit(rec.Mask(), i) then Bit(value, i) else Bit(prev, i)
  {
    BitOfMasked(rec, value, prev, i);
    BitOfByte(MaskedValue(rec, value, prev), i);
  }

  /** The bytes differ in a bit inside the mask. */
  predicate DifferAt(rec: Rec, x: byte, y: byte, i: nat) { Bit(rec.Mask(), i) && Bit(x, i) != Bit(y, i) }

  /** And a byte is sent or written only if it differs inside the mask. */
  lemma PlainChangesIff(rec: Rec, value: byte, prev: byte, receiving: bool)
    requires rec.kind.Plain? && ByteRec(rec) && rec.cond.None?
    ensures RecordChanged(rec, value, prev, receiving).0 <==>
            exists i: nat :: i < 8 && DifferAt(rec, value, prev, i)
  {
    hide MaskedValue;
    MaskedIsByte(rec, value, prev);
    var masked := MaskedValue(rec, value, prev);
    forall i: nat | i < 8 ensures Bit(masked, i) <==> if Bit(rec.Mask(), i) then Bit(value, i) else Bit(prev, i) {
      BitOfMasked(rec, value, prev, i);
    }
    if i: nat :| i < 8 && DifferAt(rec, value, prev, i) {
      assert Bit(masked, i) != Bit(prev, i);
    } else {
      forall i: nat | i < 8 ensures Bit(masked, i) == Bit(prev, i) {
        assert !DifferAt(rec, value, prev, i);
      }
      SameByte(masked, prev);
    }
  }

  /** What a received `bitAnd` value does: it clears bits inside the mask, and no others. */
  lemma BitAndReceive(rec: Rec, value: int, prev: byte, i: nat)
    requires rec.kind.BitwiseAnd? && ByteRec(rec) && rec.cond.None? && i < 8
    ensures var (allow, written) := RecordChanged(rec, value, prev, true);
      var after := if allow then written % 0x100 else prev;
      Bit(after, i) <==> Bit(prev, i) && (Bit(rec.Mask(), i) ==> Bit(value, i))
  {
    var masked := MaskedValue(rec, value, prev);
    BitOfMasked(rec, value, prev, i);
    BitAnd(prev, masked, i);
    BitOfByte(And(prev, masked), i);
  }

  /** A mask of the low `k` bits: the records' packed fields. */
  predicate LowMask(rec: Rec, k: nat) { ByteRec(rec) && k <= 8 && rec.Mask() == Pow2(k) - 1 }

  /** A masked `high` record compares its field, and writes nothing beside it. */
  lemma HighField(rec: Rec, value: int, prev: byte, receiving: bool, k: nat, i: nat)
    requires rec.kind.High? && rec.cond.None? && LowMask(rec, k) && i < 8
    ensures var (allow, resolved) := RecordChanged(rec, value, prev, receiving);
      && (allow <==> value % Pow2(k) > prev % Pow2(k))
      && (Bit(resolved, i) <==> if Bit(rec.Mask(), i) then Bit(value, i) else Bit(prev, i))
  {
    BitOfMasked(rec, value, prev, i);
    var x, y := And(rec.Mask(), value), And(rec.Mask(), prev);
    assert RecordChanged(rec, value, prev, receiving) == (x > y, MaskedValue(rec, value, prev));
    assert x == value % Pow2(k) && y == prev % Pow2(k) by {
      hide *;
      FieldOf(rec, value, k);
      FieldOf(rec, prev, k);
    }
    hide *;
  }

  lemma FieldOf(rec: Rec, x: int, k: nat)
    requires LowMask(rec, k)
    ensures And(rec.Mask(), x) == x % Pow2(k)
  {
    hide And, Pow2;
    AndOnes(k, x);
  }

  /** A whole value of one, two or four bytes: `high` values and counters are compared, and sent, as such. */
  lemma WholeValue(rec: Rec, value: nat, prev: nat, receiving: bool)
    requires rec.mask.None? && rec.cond.None? && rec.size in {1, 2, 4}
    requires value < Pow2(8 * rec.size) && prev < Pow2(8 * rec.size)
    ensures rec.kind.High? ==> RecordChanged(rec, value, prev, receiving) == (value > prev, value)
    ensures rec.kind.Delta? && !rec.ignoreZero ==> RecordChanged(rec, value, prev, false) == (value != prev, value - prev)
  {
    WholeMask(rec, value);
    WholeMask(rec, prev);
    hide And, Pow2;
  }

  lemma WholeMask(rec: Rec, x: nat)
    requires rec.mask.None? && rec.size in {1, 2, 4} && x < Pow2(8 * rec.size)
    ensures And(rec.Mask(), x) == x
  {
    SizeMaskIs(rec);
    hide And, Pow2;
    AndOnes(8 * rec.size, x);
    SmallMod(x, Pow2(8 * rec.size));
  }

  lemma SizeMaskIs(rec: Rec)
    requires rec.size in {1, 2, 4}
    ensures rec.SizeMask() == Pow2(8 * rec.size) - 1
  {
    BytePower();
    TwoBytes();
    hide Pow2;
  }

  lemma TwoBytes()
    ensures Pow2(16) == 0x1_0000
  {
    assert Pow2(4) == 16;
    assert Pow2(8) == 0x100;
    assert Pow2(12) == 0x1000;
  }

  lemma SmallMod(x: nat, n: nat)
    requires x < n
    ensures x % n == x
  {
  }

  /** The clamp: a sum between the bounds stays, any other becomes the bound it is beyond. */
  lemma ClampIs(rec: Rec, sum: int)
    requires rec.deltaMin.Some? && rec.deltaMax.Some? ==> rec.deltaMin.value <= rec.deltaMax.value
    ensures var r := Clamp(rec, sum);
      && (rec.deltaMin.Some? ==> r >= rec.deltaMin.value) && (rec.deltaMax.Some? ==> r <= rec.deltaMax.value)
      && (r == sum || Some(r) in {rec.deltaMin, rec.deltaMax})
      && ((rec.deltaMin.Some? ==> sum >= rec.deltaMin.value) && (rec.deltaMax.Some? ==> sum <= rec.deltaMax.value) <==> r == sum)
  {
  }

  /** A received delta writes the clamped sum into the counter's field, and leaves the bits beside it alone. */
  lemma DeltaField(rec: Rec, delta: int, prev: byte, k: nat, i: nat)
    requires rec.kind.Delta? && rec.cond.None? && LowMask(rec, k) && i < 8
    ensures var (allow, written) := RecordChanged(rec, delta, prev, true);
      && (allow <==> delta != 0)
      && (Bit(written, i) <==> if Bit(rec.Mask(), i) then Bit(Clamp(rec, prev + delta), i) else Bit(prev, i))
  {
    hide And, Bit, Or, Clamp;
    var sum := Clamp(rec, prev + delta);
    var inverse := if rec.mask.Some? then Inverse(rec.mask.value) else 0;
    BitOr(And(inverse, prev), And(rec.Mask(), sum), i);
    BitAnd(rec.Mask(), sum, i);
    BitAnd(inverse, prev, i);
    if rec.mask.Some? {
      BitInverse(rec.mask.value, i);
    } else {
      BytePower();
      BitOfOnes(8, i);
      BitOfZero(i);
    }
  }

  /** What a poll sends for it is the difference of the fields, unless one of them is zero and the record says to ignore that. */
  lemma DeltaFieldSend(rec: Rec, cur: byte, prev: byte, k: nat)
    requires rec.kind.Delta? && rec.cond.None? && LowMask(rec, k)
    ensures var (allow, sent) := RecordChanged(rec, cur, prev, false);
      var x, y := cur % Pow2(k), prev % Pow2(k);
      && (allow <==> x != y && !(rec.ignoreZero && (x == 0 || y == 0)))
      && (allow ==> sent == x - y)
  {
    hide And, Bit, MaskedValue, Pow2;
    AndOnes(k, cur);
    AndOnes(k, prev);
    FieldDiffers(rec, cur, prev, k);
  }

  lemma FieldDiffers(rec: Rec, cur: byte, prev: byte, k: nat)
    requires LowMask(rec, k)
    ensures MaskedValue(rec, cur, prev) == prev <==> cur % Pow2(k) == prev % Pow2(k)
  {
    hide Bit, MaskedValue;
    MaskedIsByte(rec, cur, prev);
    var masked := MaskedValue(rec, cur, prev);
    BytePower();
    forall i: nat | i < 8
      ensures Bit(masked, i) <==> if i < k then Bit(cur, i) else Bit(prev, i)
      ensures i < k ==> (Bit(cur % Pow2(k), i) <==> Bit(cur, i)) && (Bit(prev % Pow2(k), i) <==> Bit(prev, i))
    {
      BitOfMasked(rec, cur, prev, i);
      if i < k {
        BitOfOnes(k, i);
        BitOfMod(cur, k, i);
        BitOfMod(prev, k, i);
      } else {
        BitAbove(Pow2(k) - 1, k, i);
      }
    }
    if cur % Pow2(k) == prev % Pow2(k) {
      SameByte(masked, prev);
    } else if masked == prev {
      forall i: nat | i < k ensures Bit(cur % Pow2(k), i) == Bit(prev % Pow2(k), i) {
        assert i < 8;
      }
      SameBits(cur % Pow2(k), prev % Pow2(k), k);
    }
  }

  /** A trigger is neither sent nor written; a custom record does what its callable says for the direction. */
  lemma CallableDecides(rec: Rec, value: int, prev: nat, receiving: bool)
    requires rec.cond.None?
    ensures rec.kind.Trigger? ==> !RecordChanged(rec, value, prev, receiving).0
    ensures rec.kind.Custom? ==> RecordChanged(rec, value, prev, receiving) == rec.kind.f(value, prev, receiving)
  {
  }

  /**
   * A condition lets through what the record lets through without it and what it accepts: it sees the value inside the
   * mask and the previous byte outside, whichever the direction.
   */
  lemma CondSees(rec: Rec, value: byte, prev: byte, receiving: bool, x: byte)
    requires ByteRec(rec) && rec.cond.Some?
    requires forall i: nat :: i < 8 ==> Bit(x, i) == if Bit(rec.Mask(), i) then Bit(value, i) else Bit(prev, i)
    ensures var (allow, resolved) := RecordChanged(rec, value, prev, receiving);
      var (allowed, same) := RecordChanged(rec.(cond := None), value, prev, receiving);
      (allow <==> allowed && rec.cond.value(x)) && resolved == same
  {
    hide Bit, MaskedValue;
    MaskedIsByte(rec, value, prev);
    assert MaskedValue(rec.(cond := None), value, prev) == MaskedValue(rec, value, prev) by { MaskedAlone(rec, value, prev); }
    assert RecordChanged(rec, value, prev, receiving).1 == RecordChanged(rec.(cond := None), value, prev, receiving).1 by {
      KindAlone(rec, value, prev, receiving);
    }
    KindAlone(rec, value, prev, receiving);
    hide KindDecides;
    forall i: nat | i < 8 ensures Bit(MaskedValue(rec, value, prev), i) == Bit(x, i) {
      BitOfMasked(rec, value, prev, i);
    }
    SameByte(MaskedValue(rec, value, prev), x);
  }

  lemma MaskedAlone(rec: Rec, value: int, prev: int)
    ensures MaskedValue(rec.(cond := None), value, prev) == MaskedValue(rec, value, prev)
  {
  }

  lemma KindAlone(rec: Rec, value: int, prev: nat, receiving: bool)
    ensures KindDecides(rec.(cond := None), value, prev, receiving) == KindDecides(rec, value, prev, receiving)
  {
    hide And, Or;
  }
}
