/** Real-mode interrupt entry of the PC runner, and the IRET that undoes it. */
module Interrupts {
  import opened Common

  const RAM := 0x10_0000

  type Ram = m: seq<Byte> | |m| == 0x10_0000 witness seq(0x10_0000, i => 0)

  // ---------- FLAGS ----------

  datatype Flags = Flags(c: bool, p: bool, a: bool, z: bool, s: bool, t: bool, i: bool, d: bool, o: bool)

  function Bit(b: bool): nat {
    if b then 1 else 0
  }

  /** The architectural register; bits 15 to 12 and bit 1 read as one. */
  function GetFlags(f: Flags): (w: Half) {
    0xF002 + Bit(f.c) + 0x4 * Bit(f.p) + 0x10 * Bit(f.a) + 0x40 * Bit(f.z) + 0x80 * Bit(f.s)
    + 0x100 * Bit(f.t) + 0x200 * Bit(f.i) + 0x400 * Bit(f.d) + 0x800 * Bit(f.o)
  }

  predicate Has(w: Half, mask: nat)
    requires mask > 0
  {
    w / mask % 2 == 1
  }

  function SetFlags(w: Half): Flags {
    Flags(Has(w, 1), Has(w, 4), Has(w, 0x10), Has(w, 0x40), Has(w, 0x80), Has(w, 0x100), Has(w, 0x200),
          Has(w, 0x400), Has(w, 0x800))
  }

  lemma BitAt(w: Half, mask: nat, hi: nat, b: bool, lo: nat)
    requires mask > 0 && w == (2 * hi + Bit(b)) * mask + lo && lo < mask
    ensures Has(w, mask) == b
  {
    DivModUnique(w, mask, 2 * hi + Bit(b), lo);
  }

  lemma CarryBit(f: Flags)
    ensures Has(GetFlags(f), 0x1) == f.c
  {
    BitAt(GetFlags(f), 0x1, 30721 + 2 * Bit(f.p) + 8 * Bit(f.a) + 32 * Bit(f.z) + 64 * Bit(f.s) + 128 * Bit(f.t) +
          256 * Bit(f.i) + 512 * Bit(f.d) + 1024 * Bit(f.o), f.c, 0);
  }

  lemma ParityBit(f: Flags)
    ensures Has(GetFlags(f), 0x4) == f.p
  {
    BitAt(GetFlags(f), 0x4, 7680 + 2 * Bit(f.a) + 8 * Bit(f.z) + 16 * Bit(f.s) + 32 * Bit(f.t) + 64 * Bit(f.i) +
          128 * Bit(f.d) + 256 * Bit(f.o), f.p, 2 + Bit(f.c));
  }

  lemma AdjustBit(f: Flags)
    ensures Has(GetFlags(f), 0x10) == f.a
  {
    BitAt(GetFlags(f), 0x10, 1920 + 2 * Bit(f.z) + 4 * Bit(f.s) + 8 * Bit(f.t) + 16 * Bit(f.i) + 32 * Bit(f.d) +
          64 * Bit(f.o), f.a, 2 + Bit(f.c) + 4 * Bit(f.p));
  }

  lemma ZeroBit(f: Flags)
    ensures Has(GetFlags(f), 0x40) == f.z
  {
    BitAt(GetFlags(f), 0x40, 480 + Bit(f.s) + 2 * Bit(f.t) + 4 * Bit(f.i) + 8 * Bit(f.d) + 16 * Bit(f.o), f.z,
          2 + Bit(f.c) + 4 * Bit(f.p) + 16 * Bit(f.a));
  }

  lemma SignBit(f: Flags)
    ensures Has(GetFlags(f), 0x80) == f.s
  {
    BitAt(GetFlags(f), 0x80, 240 + Bit(f.t) + 2 * Bit(f.i) + 4 * Bit(f.d) + 8 * Bit(f.o), f.s,
          2 + Bit(f.c) + 4 * Bit(f.p) + 16 * Bit(f.a) + 64 * Bit(f.z));
  }

  lemma TrapBit(f: Flags)
    ensures Has(GetFlags(f), 0x100) == f.t
  {
    BitAt(GetFlags(f), 0x100, 120 + Bit(f.i) + 2 * Bit(f.d) + 4 * Bit(f.o), f.t,
          2 + Bit(f.c) + 4 * Bit(f.p) + 16 * Bit(f.a) + 64 * Bit(f.z) + 128 * Bit(f.s));
  }

  lemma InterruptBit(f: Flags)
    ensures Has(GetFlags(f), 0x200) == f.i
  {
    BitAt(GetFlags(f), 0x200, 60 + Bit(f.d) + 2 * Bit(f.o), f.i,
          2 + Bit(f.c) + 4 * Bit(f.p) + 16 * Bit(f.a) + 64 * Bit(f.z) + 128 * Bit(f.s) + 256 * Bit(f.t));
  }

  lemma DirectionBit(f: Flags)
    ensures Has(GetFlags(f), 0x400) == f.d
  {
    BitAt(GetFlags(f), 0x400, 30 + Bit(f.o), f.d, 2 + Bit(f.c) + 4 * Bit(f.p) + 16 * Bit(f.a) + 64 * Bit(f.z) +
          128 * Bit(f.s) + 256 * Bit(f.t) + 512 * Bit(f.i));
  }

  lemma OverflowBit(f: Flags)
    ensures Has(GetFlags(f), 0x800) == f.o
  {
    BitAt(GetFlags(f), 0x800, 15, f.o, 2 + Bit(f.c) + 4 * Bit(f.p) + 16 * Bit(f.a) + 64 * Bit(f.z) + 128 * Bit(f.s) +
          256 * Bit(f.t) + 512 * Bit(f.i) + 1024 * Bit(f.d));
  }

  /** Bits 15 to 12 and bit 1 of FLAGS are set, bits 5 and 3 are not. */
  lemma ReservedBits(f: Flags)
    ensures GetFlags(f) / 0x1000 == 0xF
    ensures Has(GetFlags(f), 0x2) && !Has(GetFlags(f), 0x8) && !Has(GetFlags(f), 0x20)
  {
    BitOne(f);
    BitThree(f);
    BitFive(f);
  }

  lemma BitOne(f: Flags)
    ensures Has(GetFlags(f), 0x2)
  {
    BitAt(GetFlags(f), 0x2, 15360 + Bit(f.p) + 4 * Bit(f.a) + 16 * Bit(f.z) + 32 * Bit(f.s) + 64 * Bit(f.t) +
          128 * Bit(f.i) + 256 * Bit(f.d) + 512 * Bit(f.o), true, Bit(f.c));
  }

  lemma BitThree(f: Flags)
    ensures !Has(GetFlags(f), 0x8)
  {
    BitAt(GetFlags(f), 0x8, 3840 + Bit(f.a) + 4 * Bit(f.z) + 8 * Bit(f.s) + 16 * Bit(f.t) + 32 * Bit(f.i) +
          64 * Bit(f.d) + 128 * Bit(f.o), false, 2 + Bit(f.c) + 4 * Bit(f.p));
  }

  lemma BitFive(f: Flags)
    ensures !Has(GetFlags(f), 0x20)
  {
    BitAt(GetFlags(f), 0x20, 960 + Bit(f.z) + 2 * Bit(f.s) + 4 * Bit(f.t) + 8 * Bit(f.i) + 16 * Bit(f.d) +
          32 * Bit(f.o), false, 2 + Bit(f.c) + 4 * Bit(f.p) + 16 * Bit(f.a));
  }

  /** Packing and unpacking FLAGS loses nothing. */
  lemma FlagsRoundTrip(f: Flags)
    ensures SetFlags(GetFlags(f)) == f
  {
    CarryBit(f);
    ParityBit(f);
    AdjustBit(f);
    ZeroBit(f);
    SignBit(f);
    TrapBit(f);
    InterruptBit(f);
    DirectionBit(f);
    OverflowBit(f);
  }

  // ---------- memory ----------

  /** Addresses wrap at 1 MB, once. */
  function Linear(segment: Half, offset: Half): (a: nat)
    ensures a < RAM
  {
    var a := segment as nat * 16 + offset as nat;
    if a < RAM then a else a - RAM
  }

  lemma LinearIsMasked(segment: Half, offset: Half)
    ensures Linear(segment, offset) == (segment as nat * 16 + offset as nat) % 0x10_0000
  {
  }

  function After(a: nat): (b: nat)
    requires a < RAM
    ensures b < RAM
  {
    if a + 1 == RAM then 0 else a + 1
  }

  function ReadWord(m: Ram, a: nat): Half
    requires a < RAM
  {
    m[a] as nat + 0x100 * m[After(a)] as nat
  }

  function WriteWord(m: Ram, a: nat, v: Half): (r: Ram)
    requires a < RAM
  {
    m[a := v % 0x100][After(a) := v / 0x100]
  }

  lemma WordReadsBack(m: Ram, a: nat, v: Half)
    requires a < RAM
    ensures ReadWord(WriteWord(m, a, v), a) == v
  {
  }

  /** The bytes of a word. */
  function Word(a: nat): set<nat>
    requires a < RAM
  {
    {a, After(a)}
  }

  lemma WordKept(m: Ram, a: nat, v: Half, b: nat)
    requires a < RAM && b < RAM && Word(a) !! Word(b)
    ensures ReadWord(WriteWord(m, a, v), b) == ReadWord(m, b)
  {
  }

  // ---------- the processor ----------

  /** The registers an interrupt uses; `others` are all the others. */
  datatype Cpu = Cpu(cs: Half, ip: Half, ss: Half, sp: Half, flags: Flags, others: seq<Half>)

  function Down(sp: int, n: int): Half {
    (sp - n) % 0x1_0000
  }

  lemma DownDown(sp: int, m: int, n: int)
    ensures Down(Down(sp, m), n) == Down(sp, m + n)
  {
    assert sp - m == 0x1_0000 * ((sp - m) / 0x1_0000) + Down(sp, m);
  }

  /** Where the `k`th of the three pushes of an interrupt goes. */
  function Push(c: Cpu, k: nat): (a: nat)
    ensures a < RAM
  {
    Linear(c.ss, Down(c.sp, 2 * k))
  }

  function Pushed(m: Ram, c: Cpu): Ram {
    WriteWord(WriteWord(WriteWord(m, Push(c, 1), GetFlags(c.flags)), Push(c, 2), c.cs), Push(c, 3), c.ip)
  }

  /** The processor as the handler of `vec` starts. */
  function Entered(m: Ram, c: Cpu, vec: Byte): Cpu {
    var m' := Pushed(m, c);
    c.(ip := ReadWord(m', vec * 4), cs := ReadWord(m', vec * 4 + 2), sp := Down(c.sp, 6),
       flags := c.flags.(i := false, t := false))
  }

  /** IRET pops IP, CS and FLAGS. */
  function Iret(m: Ram, c: Cpu): Cpu {
    c.(ip := ReadWord(m, Linear(c.ss, c.sp)), cs := ReadWord(m, Linear(c.ss, Down(c.sp, -2))),
       flags := SetFlags(ReadWord(m, Linear(c.ss, Down(c.sp, -4)))), sp := Down(c.sp, -6))
  }

  class X86State {
    var CS: Half
    var IP: Half
    var SS: Half
    var SP: Half
    var flags: Flags
    var others: seq<Half>

    function Value(): Cpu
      reads this
    {
      Cpu(CS, IP, SS, SP, flags, others)
    }
  }

  class Bus {
    const ram: array<Byte>
    var irqCounts: map<Byte, nat>

    constructor ()
      ensures fresh(ram) && ram.Length == RAM && irqCounts == map[]
    {
      ram := new Byte[RAM](i => 0);
      irqCounts := map[];
    }

    method WriteWord16(a: nat, v: Half)
      requires ram.Length == RAM && a < RAM
      modifies ram
      ensures ram[..] == WriteWord(old(ram[..]), a, v)
    {
      ram[a] := v % 0x100;
      ram[(a + 1) % RAM] := v / 0x100;
    }

    method ReadWord16(a: nat) returns (v: Half)
      requires ram.Length == RAM && a < RAM
      ensures v == ReadWord(ram[..], a)
    {
      v := ram[a] as nat + 0x100 * ram[(a + 1) % RAM] as nat;
    }

    method PushWord(st: X86State, v: Half)
      requires ram.Length == RAM
      modifies ram, st`SP
      ensures st.SP == Down(old(st.SP), 2)
      ensures ram[..] == WriteWord(old(ram[..]), Linear(st.SS, st.SP), v)
    {
      st.SP := (st.SP - 2) % 0x1_0000;
      LinearIsMasked(st.SS, st.SP);
      WriteWord16((st.SS as nat * 16 + st.SP as nat) % 0x10_0000, v);
    }

    /** FLAGS, CS and IP, in this order. */
    method PushFrame(st: X86State)
      requires ram.Length == RAM
      modifies ram, st`SP
      ensures ram[..] == Pushed(old(ram[..]), old(st.Value())) && st.SP == Down(old(st.SP), 6)
    {
      DownDown(st.SP, 2, 2);
      DownDown(st.SP, 4, 2);
      PushWord(st, GetFlags(st.flags));
      PushWord(st, st.CS);
      PushWord(st, st.IP);
    }

    method DeliverInterrupt(vec: Byte, st: X86State)
      requires ram.Length == RAM
      modifies ram, st, this`irqCounts
      ensures ram[..] == Pushed(old(ram[..]), old(st.Value()))
      ensures st.Value() == Entered(old(ram[..]), old(st.Value()), vec)
      ensures irqCounts == old(irqCounts)[vec := if vec in old(irqCounts) then old(irqCounts)[vec] + 1 else 1]
    {
      PushFrame(st);
      EnterHandler(vec, st);
      irqCounts := irqCounts[vec := if vec in irqCounts then irqCounts[vec] + 1 else 1];
    }

    /** The flags and the vector. */
    method EnterHandler(vec: Byte, st: X86State)
      requires ram.Length == RAM
      modifies st
      ensures st.Value() == old(st.Value()).(flags := old(st.flags).(i := false, t := false),
                                             ip := ReadWord(ram[..], vec * 4), cs := ReadWord(ram[..], vec * 4 + 2))
    {
      st.flags := st.flags.(i := false);
      st.flags := st.flags.(t := false);
      var slot := vec * 4;
      var newIp := ReadWord16(slot);
      var newCs := ReadWord16(slot + 2);
      st.CS := newCs;
      st.IP := newIp;
    }
  }
}
