/** The instruction emitters of `gba_handasm.py`, and an independent ARM decoder. */
module ArmCode {
  import opened Common
  import opened ArmImmediates

  const AL := 0xE
  const NE := 0x1

  type Nibble = x: int | 0 <= x < 16
  type Word = x: int | 0 <= x < 0x1_0000_0000

  /** Condition, eight operation bits, two registers and twelve low bits; no two share a bit. */
  function Assembled(cond: Nibble, top: Byte, rn: Nibble, rd: Nibble, low: nat): Word
    requires low < 0x1000
  {
    cond * 0x1000_0000 + top * 0x10_0000 + rn * 0x1_0000 + rd * 0x1000 + low
  }

  /** An immediate that cannot be encoded is an error. */
  function WithImm(imm: Option<nat>, cond: Nibble, top: Byte, rn: Nibble, rd: Nibble): Option<Word>
    requires imm.Some? ==> imm.value < 0x1000
  {
    if imm.None? then None else Some(Assembled(cond, top, rn, rd, imm.value))
  }

  function MovImm(rd: Nibble, value: int, cond: Nibble): Option<Word> {
    WithImm(Imm12(value), cond, 0x3A, 0, rd)
  }

  function OrrImm(rd: Nibble, rn: Nibble, value: int, cond: Nibble): Option<Word> {
    WithImm(Imm12(value), cond, 0x38, rn, rd)
  }

  function SubsImm(rd: Nibble, rn: Nibble, value: int, cond: Nibble): Option<Word> {
    WithImm(Imm12(value), cond, 0x25, rn, rd)
  }

  function LslInto(rd: Nibble, rn: Nibble, rm: Nibble, shift: int, cond: Nibble): Option<Word> {
    if !(0 <= shift < 32) then None else Some(Assembled(cond, 0x18, rn, rd, shift * 0x80 + rm))
  }

  function StrhPost0(rt: Nibble, rn: Nibble, cond: Nibble): Word {
    Assembled(cond, 0x1C, rn, rt, 0xB0)
  }

  function StrPostInc(rt: Nibble, rn: Nibble, inc: int, cond: Nibble): Option<Word> {
    if !(0 <= inc < 0x1000) then None else Some(Assembled(cond, 0x48, rn, rt, inc))
  }

  function BranchWord(cond: Nibble, delta: int): Word {
    cond * 0x1000_0000 + 0xA * 0x100_0000 + delta % 0x100_0000
  }

  predicate InRange(delta: int) {
    -0x80_0000 <= delta < 0x80_0000
  }

  /** Python's `>>` rounds down. */
  function Delta(target: int, here: int): int {
    (target - here - 8) / 4
  }

  function BImm(target: int, here: int, cond: Nibble): Option<Word> {
    if InRange(Delta(target, here)) then Some(BranchWord(cond, Delta(target, here))) else None
  }

  /** No range check here. */
  function BneBack(stepsBack: int): Word {
    BranchWord(NE, -stepsBack - 2)
  }

  function BSelf(): Word {
    AL * 0x1000_0000 + 0xA * 0x100_0000 + 0xFF_FFFE
  }

  // ---------- decoding ----------

  /** The instruction groups of the ARM Architecture Reference Manual (section A3.1) the emitters use. */
  datatype Instr =
    | DataImm(cond: Nibble, opcode: Nibble, s: bool, rn: Nibble, rd: Nibble, operand: nat)
    | DataShift(cond: Nibble, opcode: Nibble, s: bool, rn: Nibble, rd: Nibble, amount: nat, kind: nat, rm: Nibble)
    | Single(cond: Nibble, pre: bool, up: bool, byte: bool, writeback: bool, load: bool,
             rn: Nibble, rt: Nibble, offset: nat)
    | Extra(cond: Nibble, pre: bool, up: bool, imm: bool, writeback: bool, load: bool,
            rn: Nibble, rt: Nibble, op: nat, offset: nat)
    | Branch(cond: Nibble, link: bool, imm24: nat)
    | Other

  /** The number three digits write. */
  function Three(x: Nibble, y: Nibble, z: Nibble): (n: nat)
    ensures n < 0x1000
  {
    x as nat * 0x100 + y as nat * 16 + z as nat
  }

  /** By the bits of the eight digits; bits 27 to 25 select the group. */
  function Group(d: seq<Nibble>): Instr
    requires |d| == 8
  {
    var a: nat, b: nat, y: nat := d[1], d[2], d[6];
    var low := Three(d[5], d[6], d[7]);
    if a / 2 == 1 then DataImm(d[0], a % 2 * 8 + b / 2, b % 2 == 1, d[3], d[4], Decoded(low))
    else if a / 2 == 2 then
      Single(d[0], a % 2 == 1, b / 8 == 1, b / 4 % 2 == 1, b / 2 % 2 == 1, b % 2 == 1, d[3], d[4], low)
    else if a / 2 == 5 then Branch(d[0], a % 2 == 1, Three(d[2], d[3], d[4]) * 0x1000 + low)
    else if a / 2 == 0 && y % 2 == 0 then
      DataShift(d[0], a % 2 * 8 + b / 2, b % 2 == 1, d[3], d[4], d[5] as nat * 2 + y / 8, y / 2 % 4, d[7])
    else if a / 2 == 0 && y / 8 == 1 && y / 2 % 4 != 0 then
      Extra(d[0], a % 2 == 1, b / 8 == 1, b / 4 % 2 == 1, b / 2 % 2 == 1, b % 2 == 1, d[3], d[4], y / 2 % 4,
            d[5] as nat * 16 + d[7] as nat)
    else Other
  }

  /** Reads hexadecimal digits from the lowest on until there are eight. */
  function Read(w: nat, d: seq<Nibble>): Instr
    requires |d| <= 8
    decreases 8 - |d|
  {
    if |d| == 8 then Group(d) else Read(w / 16, [w % 16] + d)
  }

  function Decode(w: Word): Instr {
    Read(w, [])
  }

  lemma ReadOne(w: nat, a: Nibble, d: seq<Nibble>)
    requires |d| < 8
    ensures Read(w * 16 + a, d) == Read(w, [a] + d)
  {
    DivModUnique(w * 16 + a, 16, w, a);
  }

  function High(a: Nibble, b: Nibble, c: Nibble, d: Nibble): (h: nat)
    ensures h < 0x1_0000
  {
    a * 0x1000 + b * 0x100 + c * 16 + d
  }

  lemma ReadFour(w: nat, a: Nibble, b: Nibble, c: Nibble, d: Nibble, s: seq<Nibble>)
    requires |s| <= 4
    ensures Read(w * 0x1_0000 + High(a, b, c, d), s) == Read(w, [a, b, c, d] + s)
  {
    ReadOne(w * 0x1000 + a * 0x100 + b * 16 + c, d, s);
    ReadOne(w * 0x100 + a * 16 + b, c, [d] + s);
    ReadOne(w * 16 + a, b, [c] + ([d] + s));
    ReadOne(w, a, [b] + ([c] + ([d] + s)));
    assert [a] + ([b] + ([c] + ([d] + s))) == [a, b, c, d] + s;
  }

  function Top(a: Nibble, b: Nibble): Byte {
    a as int * 16 + b as int
  }

  /** An assembled word by its digits. */
  lemma Fields(cond: Nibble, a: Nibble, b: Nibble, rn: Nibble, rd: Nibble, x: Nibble, y: Nibble, z: Nibble)
    ensures Decode(Assembled(cond, Top(a, b), rn, rd, Three(x, y, z))) == Group([cond, a, b, rn, rd, x, y, z])
  {
    var w := High(cond, a, b, rn);
    assert Assembled(cond, Top(a, b), rn, rd, Three(x, y, z)) == w * 0x1_0000 + High(rd, x, y, z);
    ReadFour(w, rd, x, y, z, []);
    assert [rd, x, y, z] + [] == [rd, x, y, z];
    ReadFour(0, cond, a, b, rn, [rd, x, y, z]);
    assert [cond, a, b, rn] + [rd, x, y, z] == [cond, a, b, rn, rd, x, y, z];
  }

  lemma DigitsOf(low: nat) returns (x: Nibble, y: Nibble, z: Nibble)
    requires low < 0x1000
    ensures low == Three(x, y, z)
  {
    x, y, z := low / 0x100, low / 16 % 16, low % 16;
    DivModUnique(low, 0x100, low / 16 / 16, low / 16 % 16 * 16 + low % 16);
  }

  /** Where a branch at `here` with this offset field goes: the field is signed, and PC is two words ahead. */
  function BranchTarget(here: int, imm24: nat): int {
    here + 8 + 4 * (if imm24 >= 0x80_0000 then imm24 - 0x100_0000 else imm24)
  }

  lemma BranchFields(cond: Nibble, delta: int)
    ensures Decode(BranchWord(cond, delta)) == Branch(cond, false, delta % 0x100_0000)
  {
    var imm := delta % 0x100_0000;
    DivModUnique(imm, 0x1000, imm / 0x1000, imm % 0x1000);
    var b, rn, rd := DigitsOf(imm / 0x1000);
    var x, y, z := DigitsOf(imm % 0x1000);
    assert BranchWord(cond, delta) == Assembled(cond, Top(10, b), rn, rd, Three(x, y, z));
    Fields(cond, 10, b, rn, rd, x, y, z);
  }

  // ---------- what the emitters emit ----------

  ghost predicate CanEncode(v: int) {
    exists e :: 0 <= e < 0x1000 && Decoded(e) == v
  }

  /** Only an unencodable value is refused; the others are the operand of the instruction. */
  ghost predicate IsDataImm(w: Option<Word>, value: int, cond: Nibble, opcode: Nibble, s: bool, rn: Nibble,
                            rd: Nibble) {
    && (w.Some? <==> CanEncode(value % 0x1_0000_0000))
    && (w.Some? ==> Decode(w.value) == DataImm(cond, opcode, s, rn, rd, value % 0x1_0000_0000))
  }

  lemma ImmDecodes(value: int, cond: Nibble, a: Nibble, b: Nibble, rn: Nibble, rd: Nibble)
    requires a / 2 == 1
    ensures IsDataImm(WithImm(Imm12(value), cond, Top(a, b), rn, rd), value, cond, a % 2 * 8 + b / 2, b % 2 == 1,
                      rn, rd)
  {
    Imm12Correct(value);
    if Imm12(value).Some? {
      var imm := Imm12(value).value;
      DigitsDecode(imm, cond, a, b, rn, rd);
    }
  }

  lemma DigitsDecode(imm: nat, cond: Nibble, a: Nibble, b: Nibble, rn: Nibble, rd: Nibble)
    requires a / 2 == 1 && imm < 0x1000
    ensures Decode(Assembled(cond, Top(a, b), rn, rd, imm))
            == DataImm(cond, a % 2 * 8 + b / 2, b % 2 == 1, rn, rd, Decoded(imm))
  {
    var x, y, z := DigitsOf(imm);
    Fields(cond, a, b, rn, rd, x, y, z);
  }

  /** MOV is operation 13, ORR is 12, and SUBS is 2 with the flags. */
  lemma MovDecodes(rd: Nibble, value: int, cond: Nibble)
    ensures IsDataImm(MovImm(rd, value, cond), value, cond, 13, false, 0, rd)
  {
    ImmDecodes(value, cond, 3, 10, 0, rd);
  }

  lemma OrrDecodes(rd: Nibble, rn: Nibble, value: int, cond: Nibble)
    ensures IsDataImm(OrrImm(rd, rn, value, cond), value, cond, 12, false, rn, rd)
  {
    ImmDecodes(value, cond, 3, 8, rn, rd);
  }

  lemma SubsDecodes(rd: Nibble, rn: Nibble, value: int, cond: Nibble)
    ensures IsDataImm(SubsImm(rd, rn, value, cond), value, cond, 2, true, rn, rd)
  {
    ImmDecodes(value, cond, 2, 5, rn, rd);
  }

  lemma GroupedShift(cond: Nibble, rn: Nibble, rd: Nibble, rm: Nibble, shift: nat)
    requires shift < 32
    ensures Group([cond, 1, 8, rn, rd, shift / 2, shift % 2 * 8, rm]) ==
            DataShift(cond, 12, false, rn, rd, shift, 0, rm)
  {
    assert shift % 2 == 0 || shift % 2 == 1;
  }

  lemma ShiftWord(cond: Nibble, rn: Nibble, rd: Nibble, rm: Nibble, shift: nat)
    requires shift < 32
    ensures Decode(Assembled(cond, 0x18, rn, rd, shift * 0x80 + rm)) == DataShift(cond, 12, false, rn, rd, shift, 0, rm)
  {
    assert Top(1, 8) == 0x18;
    assert shift * 0x80 + rm == Three(shift / 2, shift % 2 * 8, rm);
    Fields(cond, 1, 8, rn, rd, shift / 2, shift % 2 * 8, rm);
    GroupedShift(cond, rn, rd, rm, shift);
  }

  lemma LslDecodes(rd: Nibble, rn: Nibble, rm: Nibble, shift: int, cond: Nibble)
    ensures var w := LslInto(rd, rn, rm, shift, cond);
            && (w.Some? <==> 0 <= shift < 32)
            && (w.Some? ==> Decode(w.value) == DataShift(cond, 12, false, rn, rd, shift, 0, rm))
  {
    if 0 <= shift < 32 {
      ShiftWord(cond, rn, rd, rm, shift);
    }
  }

  lemma StrhDecodes(rt: Nibble, rn: Nibble, cond: Nibble)
    ensures Decode(StrhPost0(rt, rn, cond)) == Extra(cond, true, true, true, false, false, rn, rt, 1, 0)
  {
    assert Top(1, 12) == 0x1C && Three(0, 11, 0) == 0xB0;
    Fields(cond, 1, 12, rn, rt, 0, 11, 0);
  }

  lemma StrDecodes(rt: Nibble, rn: Nibble, inc: int, cond: Nibble)
    ensures var w := StrPostInc(rt, rn, inc, cond);
            && (w.Some? <==> 0 <= inc < 0x1000)
            && (w.Some? ==> Decode(w.value) == Single(cond, false, true, false, false, false, rn, rt, inc))
  {
    if 0 <= inc < 0x1000 {
      var x, y, z := DigitsOf(inc);
      assert Top(4, 8) == 0x48;
      Fields(cond, 4, 8, rn, rt, x, y, z);
    }
  }

  /** The offset field of a branch. */
  function Field24(delta: int): nat {
    delta % 0x100_0000
  }

  lemma TargetOf(target: int, here: int)
    requires InRange(Delta(target, here))
    ensures BranchTarget(here, Field24(Delta(target, here))) == target - (target - here) % 4
  {
    var d := Delta(target, here);
    assert target - here - 8 == 4 * d + (target - here - 8) % 4;
    assert (target - here - 8) % 4 == (target - here) % 4 by {
      ModShift(-2, 4, target - here);
    }
    if d < 0 {
      DivModUnique(d, 0x100_0000, -1, d + 0x100_0000);
    }
  }

  lemma DeltaRange(target: int, here: int)
    ensures InRange(Delta(target, here)) <==> -0x200_0000 <= target - here - 8 < 0x200_0000
  {
  }

  /**
   * A branch is refused exactly when it is out of range; an accepted one goes to its target,
   * rounded down to whole words from the branch, so exactly there when the distance is a number
   * of words.
   */
  lemma BranchDecodes(target: int, here: int, cond: Nibble)
    ensures var w := BImm(target, here, cond);
            var field := Field24(Delta(target, here));
            && (w.Some? <==> -0x200_0000 <= target - here - 8 < 0x200_0000)
            && (w.Some? ==> Decode(w.value) == Branch(cond, false, field))
            && (w.Some? ==> BranchTarget(here, field) == target - (target - here) % 4)
            && (w.Some? ==> (BranchTarget(here, field) == target <==> (target - here) % 4 == 0))
  {
    DeltaRange(target, here);
    if InRange(Delta(target, here)) {
      BranchFields(cond, Delta(target, here));
      TargetOf(target, here);
    }
  }

  /** Going back is the branch it stands for exactly when that branch is in range; so is the halt, always. */
  lemma BackIsBranch(stepsBack: int, here: int)
    ensures BImm(here - 4 * stepsBack, here, NE) == Some(BneBack(stepsBack)) <==> InRange(-stepsBack - 2)
    ensures BImm(here, here, AL) == Some(BSelf())
  {
    DivModUnique(-4 * stepsBack - 8, 4, -stepsBack - 2, 0);
    assert Delta(here, here) == -2;
  }

  /** Out of range, the unchecked branch goes somewhere else. */
  lemma BackWraps(stepsBack: int, here: int)
    requires !InRange(-stepsBack - 2)
    ensures Decode(BneBack(stepsBack)) == Branch(NE, false, Field24(-stepsBack - 2))
    ensures BranchTarget(here, Field24(-stepsBack - 2)) != here - 4 * stepsBack
  {
    BranchFields(NE, -stepsBack - 2);
  }
}
