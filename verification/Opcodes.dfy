/** The opcode table of bridge/relocate_patch.py, and the pattern of the 6502's documented opcodes. */
module Opcodes {
  import opened Wrappers
  import opened Bytes

  datatype Mode = Imp | Acc | Imm | Zp | ZpX | ZpY | Rel | IndX | IndY | Abs | AbsX | AbsY | Ind {
    function Len(): (n: nat)
      ensures 1 <= n <= 3
    {
      match this
      case Imp | Acc => 1
      case Abs | AbsX | AbsY | Ind => 3
      case _ => 2
    }

    predicate IsAbs() { Abs? || AbsX? || AbsY? || Ind? }
  }

  type Table = map<byte, Mode>

  const OPCODES_00: Table := map[
    0x00 := Imp, 0x01 := IndX, 0x05 := Zp, 0x06 := Zp, 0x08 := Imp, 0x09 := Imm, 0x0A := Acc, 0x0D := Abs,
    0x0E := Abs, 0x10 := Rel, 0x11 := IndY, 0x15 := ZpX, 0x16 := ZpX, 0x18 := Imp, 0x19 := AbsY, 0x1D := AbsX,
    0x1E := AbsX
  ]

  const OPCODES_20: Table := map[
    0x20 := Abs, 0x21 := IndX, 0x24 := Zp, 0x25 := Zp, 0x26 := Zp, 0x28 := Imp, 0x29 := Imm, 0x2A := Acc,
    0x2C := Abs, 0x2D := Abs, 0x2E := Abs, 0x30 := Rel, 0x31 := IndY, 0x35 := ZpX, 0x36 := ZpX, 0x38 := Imp,
    0x39 := AbsY, 0x3D := AbsX, 0x3E := AbsX
  ]

  const OPCODES_40: Table := map[
    0x40 := Imp, 0x41 := IndX, 0x45 := Zp, 0x46 := Zp, 0x48 := Imp, 0x49 := Imm, 0x4A := Acc, 0x4C := Abs,
    0x4D := Abs, 0x4E := Abs, 0x50 := Rel, 0x51 := IndY, 0x55 := ZpX, 0x56 := ZpX, 0x58 := Imp, 0x59 := AbsY,
    0x5D := AbsX, 0x5E := AbsX
  ]

  const OPCODES_60: Table := map[
    0x60 := Imp, 0x61 := IndX, 0x65 := Zp, 0x66 := Zp, 0x68 := Imp, 0x69 := Imm, 0x6A := Acc, 0x6C := Ind,
    0x6D := Abs, 0x6E := Abs, 0x70 := Rel, 0x71 := IndY, 0x75 := ZpX, 0x76 := ZpX, 0x78 := Imp, 0x79 := AbsY,
    0x7D := AbsX, 0x7E := AbsX
  ]

  const OPCODES_80: Table := map[
    0x81 := IndX, 0x84 := Zp, 0x85 := Zp, 0x86 := Zp, 0x88 := Imp, 0x8A := Imp, 0x8C := Abs, 0x8D := Abs,
    0x8E := Abs, 0x90 := Rel, 0x91 := IndY, 0x94 := ZpX, 0x95 := ZpX, 0x96 := ZpY, 0x98 := Imp, 0x99 := AbsY,
    0x9A := Imp, 0x9D := AbsX
  ]

  const OPCODES_A0: Table := map[
    0xA0 := Imm, 0xA1 := IndX, 0xA2 := Imm, 0xA4 := Zp, 0xA5 := Zp, 0xA6 := Zp, 0xA8 := Imp, 0xA9 := Imm,
    0xAA := Imp, 0xAC := Abs, 0xAD := Abs, 0xAE := Abs, 0xB0 := Rel, 0xB1 := IndY, 0xB4 := ZpX, 0xB5 := ZpX,
    0xB6 := ZpY, 0xB8 := Imp, 0xB9 := AbsY, 0xBA := Imp, 0xBC := AbsX, 0xBD := AbsX, 0xBE := AbsY
  ]

  const OPCODES_C0: Table := map[
    0xC0 := Imm, 0xC1 := IndX, 0xC4 := Zp, 0xC5 := Zp, 0xC6 := Zp, 0xC8 := Imp, 0xC9 := Imm, 0xCA := Imp,
    0xCC := Abs, 0xCD := Abs, 0xCE := Abs, 0xD0 := Rel, 0xD1 := IndY, 0xD5 := ZpX, 0xD6 := ZpX, 0xD8 := Imp,
    0xD9 := AbsY, 0xDD := AbsX, 0xDE := AbsX
  ]

  const OPCODES_E0: Table := map[
    0xE0 := Imm, 0xE1 := IndX, 0xE4 := Zp, 0xE5 := Zp, 0xE6 := Zp, 0xE8 := Imp, 0xE9 := Imm, 0xEA := Imp,
    0xEC := Abs, 0xED := Abs, 0xEE := Abs, 0xF0 := Rel, 0xF1 := IndY, 0xF5 := ZpX, 0xF6 := ZpX, 0xF8 := Imp,
    0xF9 := AbsY, 0xFD := AbsX, 0xFE := AbsX
  ]

  const OPCODES_LOW: Table := OPCODES_00 + OPCODES_20 + OPCODES_40 + OPCODES_60
  const OPCODES_HIGH: Table := OPCODES_80 + OPCODES_A0 + OPCODES_C0 + OPCODES_E0

  /** The table, row by row. */
  const OPCODES: Table := OPCODES_LOW + OPCODES_HIGH

  // ---------------------------------------------------------- the pattern

  /**
   * The addressing mode of a documented opcode as its bits tell it: rows of 32, in which the columns keep their mode but
   * for a few exceptions.
   */
  function Regular(op: byte): Option<Mode> {
    var row, column := op / 0x20, op % 0x20;
    if column == 0x00 then if row == 4 then None else Some(if row == 1 then Abs else if row < 4 then Imp else Imm)
    else if column == 0x01 then Some(IndX)
    else if column == 0x02 then if row == 5 then Some(Imm) else None
    else if column == 0x04 then if row in {0, 2, 3} then None else Some(Zp)
    else if column in {0x05, 0x06} then Some(Zp)
    else if column in {0x08, 0x18} then Some(Imp)
    else if column == 0x09 then if row == 4 then None else Some(Imm)
    else if column == 0x0A then Some(if row < 4 then Acc else Imp)
    else if column == 0x0C then if row == 0 then None else Some(if row == 3 then Ind else Abs)
    else if column in {0x0D, 0x0E} then Some(Abs)
    else if column == 0x10 then Some(Rel)
    else if column == 0x11 then Some(IndY)
    else if column == 0x14 then if row in {4, 5} then Some(ZpX) else None
    else if column == 0x15 then Some(ZpX)
    else if column == 0x16 then Some(if row in {4, 5} then ZpY else ZpX)
    else if column == 0x19 then Some(AbsY)
    else if column == 0x1A then if row in {4, 5} then Some(Imp) else None
    else if column == 0x1C then if row == 5 then Some(AbsX) else None
    else if column == 0x1D then Some(AbsX)
    else if column == 0x1E then if row == 4 then None else Some(if row == 5 then AbsY else AbsX)
    else None
  }

  lemma Row00(op: byte)
    ensures op in OPCODES_00 <==> 0x00 <= op < 0x20 && Regular(op).Some?
    ensures op in OPCODES_00 ==> Some(OPCODES_00[op]) == Regular(op)
  {
    assert 0x00 <= op < 0x20 ==> op / 0x20 == 0 && op % 0x20 == op - 0x00;
  }

  lemma Row20(op: byte)
    ensures op in OPCODES_20 <==> 0x20 <= op < 0x40 && Regular(op).Some?
    ensures op in OPCODES_20 ==> Some(OPCODES_20[op]) == Regular(op)
  {
    assert 0x20 <= op < 0x40 ==> op / 0x20 == 1 && op % 0x20 == op - 0x20;
  }

  lemma Row40(op: byte)
    ensures op in OPCODES_40 <==> 0x40 <= op < 0x60 && Regular(op).Some?
    ensures op in OPCODES_40 ==> Some(OPCODES_40[op]) == Regular(op)
  {
    assert 0x40 <= op < 0x60 ==> op / 0x20 == 2 && op % 0x20 == op - 0x40;
  }

  lemma Row60(op: byte)
    ensures op in OPCODES_60 <==> 0x60 <= op < 0x80 && Regular(op).Some?
    ensures op in OPCODES_60 ==> Some(OPCODES_60[op]) == Regular(op)
  {
    assert 0x60 <= op < 0x80 ==> op / 0x20 == 3 && op % 0x20 == op - 0x60;
  }

  lemma Row80(op: byte)
    ensures op in OPCODES_80 <==> 0x80 <= op < 0xA0 && Regular(op).Some?
    ensures op in OPCODES_80 ==> Some(OPCODES_80[op]) == Regular(op)
  {
    assert 0x80 <= op < 0xA0 ==> op / 0x20 == 4 && op % 0x20 == op - 0x80;
  }

  lemma RowA0(op: byte)
    ensures op in OPCODES_A0 <==> 0xA0 <= op < 0xC0 && Regular(op).Some?
    ensures op in OPCODES_A0 ==> Some(OPCODES_A0[op]) == Regular(op)
  {
    assert 0xA0 <= op < 0xC0 ==> op / 0x20 == 5 && op % 0x20 == op - 0xA0;
  }

  lemma RowC0(op: byte)
    ensures op in OPCODES_C0 <==> 0xC0 <= op < 0xE0 && Regular(op).Some?
    ensures op in OPCODES_C0 ==> Some(OPCODES_C0[op]) == Regular(op)
  {
    assert 0xC0 <= op < 0xE0 ==> op / 0x20 == 6 && op % 0x20 == op - 0xC0;
  }

  lemma RowE0(op: byte)
    ensures op in OPCODES_E0 <==> 0xE0 <= op < 0x100 && Regular(op).Some?
    ensures op in OPCODES_E0 ==> Some(OPCODES_E0[op]) == Regular(op)
  {
    assert 0xE0 <= op < 0x100 ==> op / 0x20 == 7 && op % 0x20 == op - 0xE0;
  }

  lemma LowHalf(op: byte)
    ensures op in OPCODES_LOW <==> op < 0x80 && Regular(op).Some?
    ensures op in OPCODES_LOW ==> Some(OPCODES_LOW[op]) == Regular(op)
  {
    hide OPCODES_00, OPCODES_20, OPCODES_40, OPCODES_60, Regular;
    Row00(op);
    Row20(op);
    Row40(op);
    Row60(op);
  }

  lemma HighHalf(op: byte)
    ensures op in OPCODES_HIGH <==> op >= 0x80 && Regular(op).Some?
    ensures op in OPCODES_HIGH ==> Some(OPCODES_HIGH[op]) == Regular(op)
  {
    hide OPCODES_80, OPCODES_A0, OPCODES_C0, OPCODES_E0, Regular;
    Row80(op);
    RowA0(op);
    RowC0(op);
    RowE0(op);
  }

  /** The table has all documented opcodes and no other, each with its mode. */
  lemma OpcodesRegular(op: byte)
    ensures (if op in OPCODES then Some(OPCODES[op]) else None) == Regular(op)
  {
    hide OPCODES_LOW, OPCODES_HIGH, Regular;
    LowHalf(op);
    HighHalf(op);
  }
}
