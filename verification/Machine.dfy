/** The part of a 32-bit x86 that the assembly rewriter deals with. */
module Machine {
  import opened Common

  const M32 := 0x1_0000_0000

  type Word = x: int | 0 <= x < M32

  /** 32-bit registers wrap around. */
  function Wrap(x: int): Word { x % M32 }

  lemma WrapAdd(a: int, b: int)
    ensures Wrap(Wrap(a) + b) == Wrap(a + b)
  {
    assert a == M32 * (a / M32) + Wrap(a);
  }

  lemma WrapSub(a: int, b: int)
    ensures Wrap(a - Wrap(b)) == Wrap(a - b)
  {
    assert b == M32 * (b / M32) + Wrap(b);
  }

  datatype Reg = Eax | Ecx | Edx | Ebx | Esp | Ebp | Esi | Edi

  datatype Regs = Regs(eax: Word, ecx: Word, edx: Word, ebx: Word, esp: Word, ebp: Word, esi: Word, edi: Word) {
    function Get(r: Reg): Word {
      match r
      case Eax => eax case Ecx => ecx case Edx => edx case Ebx => ebx
      case Esp => esp case Ebp => ebp case Esi => esi case Edi => edi
    }

    function Set(r: Reg, v: Word): Regs {
      match r
      case Eax => this.(eax := v) case Ecx => this.(ecx := v) case Edx => this.(edx := v) case Ebx => this.(ebx := v)
      case Esp => this.(esp := v) case Ebp => this.(ebp := v) case Esi => this.(esi := v) case Edi => this.(edi := v)
    }
  }

  lemma GetSet(r: Regs, x: Reg, y: Reg, v: Word)
    ensures r.Set(x, v).Get(y) == if x == y then v else r.Get(y)
    ensures r.Set(x, r.Get(x)) == r
  {
  }

  lemma SetSet(r: Regs, x: Reg, y: Reg, v: Word, w: Word)
    ensures r.Set(x, v).Set(x, w) == r.Set(x, w)
    ensures x != y ==> r.Set(x, v).Set(y, w) == r.Set(y, w).Set(x, v)
  {
  }

  // ---------- memory ----------

  type Mem = Word -> Byte

  function Write(m: Mem, a: Word, v: Byte): Mem {
    (x: Word) => if x == a then v else m(x)
  }

  function Read16(m: Mem, a: Word): Half {
    m(a) + 0x100 * m(Wrap(a + 1))
  }

  function Write16(m: Mem, a: Word, v: Half): Mem {
    Write(Write(m, a, v % 0x100), Wrap(a + 1), v / 0x100)
  }

  function Read32(m: Mem, a: Word): Word {
    Read16(m, a) + 0x1_0000 * Read16(m, Wrap(a + 2))
  }

  function Write32(m: Mem, a: Word, v: Word): Mem {
    Write16(Write16(m, a, v % 0x1_0000), Wrap(a + 2), v / 0x1_0000)
  }

  predicate Within(x: int, a: int, n: nat) {
    Wrap(x - a) < n
  }

  /** The `n` addresses from `a` up. */
  function Span(a: int, n: nat): set<int> {
    set x: int | 0 <= x < M32 && Within(x, a, n)
  }

  lemma SpanWrap(a: int, n: nat)
    ensures Span(Wrap(a), n) == Span(a, n)
  {
    forall x: int
      ensures Within(x, Wrap(a), n) <==> Within(x, a, n)
    {
      WrapAdd(x - Wrap(a), Wrap(a));
      WrapSub(x, a);
    }
  }

  lemma SpanParts(a: int, m: nat, n: nat)
    requires m + n < M32
    ensures Span(a, m + n) == Span(a, m) + Span(a + m, n)
  {
    forall x: int
      ensures Within(x, a, m + n) <==> Within(x, a, m) || Within(x, a + m, n)
    {
      WrapAdd(x - a, 0 - m);
      assert Wrap(Wrap(x - a) - m) == Wrap(x - (a + m));
    }
  }

  /** The two memories agree outside `d`. */
  ghost predicate Agree(m: Mem, l: Mem, d: set<int>) {
    forall x: Word :: x !in d ==> m(x) == l(x)
  }

  lemma Write16Effect(m: Mem, a: Word, v: Half)
    ensures Read16(Write16(m, a, v), a) == v
    ensures Agree(m, Write16(m, a, v), Span(a, 2))
  {
    assert Wrap(a - a) == 0;
    assert Wrap(Wrap(a + 1) - a) == 1 by { WrapAdd(a + 1, 0 - a); }
  }

  lemma ReadApart(m: Mem, l: Mem, d: set<int>, a: Word)
    requires Agree(m, l, d) && a !in d && Wrap(a + 1) !in d
    ensures Read16(m, a) == Read16(l, a)
  {
  }

  lemma Write32Effect(m: Mem, a: Word, v: Word)
    ensures Read32(Write32(m, a, v), a) == v
    ensures Agree(m, Write32(m, a, v), Span(a, 4))
  {
    var m1 := Write16(m, a, v % 0x1_0000);
    var m2 := Write16(m1, Wrap(a + 2), v / 0x1_0000);
    Write16Effect(m, a, v % 0x1_0000);
    Write16Effect(m1, Wrap(a + 2), v / 0x1_0000);
    SpanParts(a, 2, 2);
    SpanWrap(a + 2, 2);
    WrapAdd(a + 1, -(a + 2));
    ReadApart(m1, m2, Span(a + 2, 2), a);
    assert Agree(m, m2, Span(a, 4));
  }

  /** Pushing a word writes the four bytes below `e`. */
  lemma PushWrites(m: Mem, e: Word, v: Word)
    ensures Read32(Write32(m, Wrap(e - 4), v), Wrap(e - 4)) == v
    ensures Agree(m, Write32(m, Wrap(e - 4), v), Span(e - 4, 4))
    ensures Wrap(Wrap(e - 4) + 4) == e
  {
    Write32Effect(m, Wrap(e - 4), v);
    AgreeWrap(m, Write32(m, Wrap(e - 4), v), e - 4, 4);
    FourBack(e);
  }

  lemma FourBack(e: Word)
    ensures Wrap(Wrap(e - 4) + 4) == e
  {
    WrapAdd(e - 4, 4);
  }

  lemma AgreeWrap(m: Mem, l: Mem, a: int, n: nat)
    requires Agree(m, l, Span(Wrap(a), n))
    ensures Agree(m, l, Span(a, n))
  {
    SpanWrap(a, n);
  }

  // ---------- instructions ----------

  datatype State = State(r: Regs, flags: Half, mem: Mem)

  datatype Insn =
    | MovL(src: Reg, dst: Reg)
    | PushFW
    | PopFW
    | PushAX
    | ShlL(count: nat, dst: Reg)
    | AddL(src: Reg, dst: Reg)
    | AddImm(imm: int, dst: Reg)
    | ImulL(imm: int, dst: Reg)
    | PushL(src: Reg)
    | PopL(dst: Reg)

  /** What an arithmetic instruction leaves in FLAGS; nothing is assumed about it. */
  type Alu = (Insn, State) -> Half

  function SetReg(s: State, r: Reg, v: int): State {
    s.(r := s.r.Set(r, Wrap(v)))
  }

  function Exec(i: Insn, s: State, alu: Alu): State {
    match i
    case MovL(src, dst) => s.(r := s.r.Set(dst, s.r.Get(src)))
    case PushFW =>
      var esp := Wrap(s.r.esp - 2);
      State(s.r.(esp := esp), s.flags, Write16(s.mem, esp, s.flags))
    case PopFW => State(s.r.(esp := Wrap(s.r.esp + 2)), Read16(s.mem, s.r.esp), s.mem)
    case PushAX =>
      var esp := Wrap(s.r.esp - 2);
      s.(r := s.r.(esp := esp), mem := Write16(s.mem, esp, s.r.eax % 0x1_0000))
    case ShlL(k, dst) => SetReg(s, dst, s.r.Get(dst) * Pow2(k)).(flags := alu(i, s))
    case AddL(src, dst) => SetReg(s, dst, s.r.Get(dst) + s.r.Get(src)).(flags := alu(i, s))
    case AddImm(v, dst) => SetReg(s, dst, s.r.Get(dst) + v).(flags := alu(i, s))
    case ImulL(v, dst) => SetReg(s, dst, s.r.Get(dst) * v).(flags := alu(i, s))
    case PushL(src) =>
      var esp := Wrap(s.r.esp - 4);
      State(s.r.(esp := esp), s.flags, Write32(s.mem, esp, s.r.Get(src)))
    case PopL(dst) =>
      s.(r := s.r.(esp := Wrap(s.r.esp + 4)).Set(dst, Read32(s.mem, s.r.esp)))
  }

  /** The first `n` instructions, in order. */
  function Run(p: seq<Insn>, n: nat, s: State, alu: Alu): State
    requires n <= |p|
  {
    if n == 0 then s else Exec(p[n - 1], Run(p, n - 1, s, alu), alu)
  }
}
