/** Executing the instructions the emitters know. */
module ArmMachine {
  import opened Common
  import opened ArmImmediates
  import opened ArmCode

  type Regs = s: seq<Word> | |s| == 16 witness [0, 0, 0, 0, 0, 0, 0, 0, 0, 0, 0, 0, 0, 0, 0, 0]

  type Mem = nat -> Byte

  datatype State = State(r: Regs, z: bool, pc: nat, mem: Mem)

  /** Bitwise or. */
  function Or(a: nat, b: nat): nat {
    if a == 0 then b
    else if b == 0 then a
    else (if a % 2 == 1 || b % 2 == 1 then 1 else 0) + 2 * Or(a / 2, b / 2)
  }

  function Fetch(m: Mem, a: nat): Word {
    m(a) as nat + 0x100 * m(a + 1) as nat + 0x1_0000 * m(a + 2) as nat + 0x100_0000 * m(a + 3) as nat
  }

  /** Byte `k` of a word. */
  function ByteOf(v: Word, k: nat): Byte {
    if k == 0 then v % 0x100 else if k == 1 then v / 0x100 % 0x100 else if k == 2 then v / 0x1_0000 % 0x100
    else v / 0x100_0000
  }

  function Stored(m: Mem, a: nat, v: Word, n: nat): Mem {
    (x: nat) => if a <= x < a + n then ByteOf(v, x - a) else m(x)
  }

  /** Whether an instruction is carried out, for the conditions EQ, NE and AL. */
  function Passes(cond: Nibble, z: bool): Option<bool> {
    if cond == AL then Some(true) else if cond == NE then Some(!z) else if cond == 0 then Some(z) else None
  }

  function SetReg(s: State, rd: Nibble, v: int): State {
    s.(r := s.r[rd := v % 0x1_0000_0000], pc := s.pc + 4)
  }

  /** SUBS also tells whether the difference is zero. */
  function Subtracted(s: State, rd: Nibble, v: int): State {
    SetReg(s, rd, v).(z := v % 0x1_0000_0000 == 0)
  }

  /** What the manual says of the modelled instructions; the program counter is no operand here. */
  function Perform(i: Instr, s: State): Option<State> {
    match i
    case DataImm(_, opcode, flags, rn, rd, operand) =>
      if rn == 15 || rd == 15 then None
      else if opcode == 13 && !flags then Some(SetReg(s, rd, operand))
      else if opcode == 12 && !flags then Some(SetReg(s, rd, Or(s.r[rn], operand)))
      else if opcode == 2 && flags then Some(Subtracted(s, rd, s.r[rn] - operand))
      else None
    case DataShift(_, opcode, flags, rn, rd, amount, kind, rm) =>
      if rn == 15 || rd == 15 || rm == 15 || opcode != 12 || flags || kind != 0 then None
      else Some(SetReg(s, rd, Or(s.r[rn], Shl(s.r[rm], amount))))
    case Extra(_, pre, up, imm, writeback, load, rn, rt, op, offset) =>
      if rn == 15 || rt == 15 || !pre || !up || !imm || writeback || load || op != 1 then None
      else Some(s.(mem := Stored(s.mem, s.r[rn] + offset, s.r[rt], 2), pc := s.pc + 4))
    case Single(_, pre, up, byte, writeback, load, rn, rt, offset) =>
      if rn == 15 || rt == 15 || pre || !up || byte || writeback || load then None
      else Some(SetReg(s.(mem := Stored(s.mem, s.r[rn], s.r[rt], 4)), rn, s.r[rn] + offset))
    case Branch(_, link, imm24) =>
      if link || BranchTarget(s.pc, imm24) < 0 then None else Some(s.(pc := BranchTarget(s.pc, imm24)))
    case Other => None
  }

  function Execute(i: Instr, s: State): Option<State> {
    if i.Other? then None
    else
      var go := Passes(i.cond, s.z);
      if go.None? then None else if !go.value then Some(s.(pc := s.pc + 4)) else Perform(i, s)
  }

  function Step(s: State): Option<State> {
    Execute(Decode(Fetch(s.mem, s.pc)), s)
  }

  function Run(s: State, n: nat): Option<State>
    decreases n
  {
    if n == 0 then Some(s)
    else
      var t := Step(s);
      if t.None? then None else Run(t.value, n - 1)
  }

  ghost predicate Reaches(s: State, t: State) {
    exists n: nat :: Run(s, n) == Some(t)
  }

  lemma {:induction false} RunAppend(s: State, m: nat, t: State, n: nat)
    requires Run(s, m) == Some(t)
    ensures Run(s, m + n) == Run(t, n)
    decreases m
  {
    if m > 0 {
      RunAppend(Step(s).value, m - 1, t, n);
    }
  }

  lemma ReachesOne(s: State, t: State)
    requires Step(s) == Some(t)
    ensures Reaches(s, t)
  {
    assert Run(t, 0) == Some(t);
    assert Run(s, 1) == Some(t);
  }

  lemma ReachesTwice(s: State, t: State, u: State)
    requires Reaches(s, t) && Reaches(t, u)
    ensures Reaches(s, u)
  {
    var m: nat :| Run(s, m) == Some(t);
    var n: nat :| Run(t, n) == Some(u);
    RunAppend(s, m, t, n);
  }

  // ---------- steps ----------

  function Next(s: State): Instr {
    Decode(Fetch(s.mem, s.pc))
  }

  lemma MovStep(s: State, rd: Nibble, v: Word)
    requires rd < 15 && Next(s) == DataImm(AL, 13, false, 0, rd, v)
    ensures Step(s) == Some(SetReg(s, rd, v))
  {
  }

  lemma OrrStep(s: State, rd: Nibble, rn: Nibble, v: Word)
    requires rd < 15 && rn < 15 && Next(s) == DataImm(AL, 12, false, rn, rd, v)
    ensures Step(s) == Some(SetReg(s, rd, Or(s.r[rn], v)))
  {
  }

  lemma SubsStep(s: State, rd: Nibble, rn: Nibble, v: Word)
    requires rd < 15 && rn < 15 && Next(s) == DataImm(AL, 2, true, rn, rd, v)
    ensures Step(s) == Some(Subtracted(s, rd, s.r[rn] - v))
  {
  }

  lemma LslStep(s: State, rd: Nibble, rn: Nibble, rm: Nibble, shift: nat)
    requires rd < 15 && rn < 15 && rm < 15 && Next(s) == DataShift(AL, 12, false, rn, rd, shift, 0, rm)
    ensures Step(s) == Some(SetReg(s, rd, Or(s.r[rn], Shl(s.r[rm], shift))))
  {
  }

  lemma StrhStep(s: State, rt: Nibble, rn: Nibble)
    requires rt < 15 && rn < 15 && Next(s) == Extra(AL, true, true, true, false, false, rn, rt, 1, 0)
    ensures Step(s) == Some(s.(mem := Stored(s.mem, s.r[rn], s.r[rt], 2), pc := s.pc + 4))
  {
  }

  lemma StrStep(s: State, rt: Nibble, rn: Nibble, inc: nat)
    requires rt < 15 && rn < 15 && Next(s) == Single(AL, false, true, false, false, false, rn, rt, inc)
    ensures Step(s) == Some(SetReg(s.(mem := Stored(s.mem, s.r[rn], s.r[rt], 4)), rn, s.r[rn] + inc))
  {
  }

  /** A branch that is taken goes to its target. */
  lemma BranchStep(s: State, cond: Nibble, field: nat)
    requires Next(s) == Branch(cond, false, field) && BranchTarget(s.pc, field) >= 0
    requires cond == AL || (cond == NE && !s.z)
    ensures Step(s) == Some(s.(pc := BranchTarget(s.pc, field)))
  {
  }

  lemma BranchSkips(s: State, field: nat)
    requires Next(s) == Branch(NE, false, field) && s.z
    ensures Step(s) == Some(s.(pc := s.pc + 4))
  {
  }
}
