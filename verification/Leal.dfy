/** Replacing one `leal` by instructions that x86emu executes correctly. */
module Leal {
  import opened Common
  import opened Machine

  /** The text in front of the parenthesis: nothing, the text `0`, or an expression. */
  datatype Disp = Absent | Zero | Expr(value: int) {
    function Value(): int {
      if Expr? then value else 0
    }

    /** The `+2` the rewriter appends to the text. */
    function PlusTwo(): Disp {
      Expr(Value() + 2)
    }
  }

  type Shift = k: int | 0 <= k <= 3

  /** `disp(base, index, 2**scale), dest`; an omitted scale is 1. */
  datatype Operands = Operands(disp: Disp, base: Option<Reg>, index: Option<Reg>, scale: Shift, dest: Reg)

  function Part(r: Regs, x: Option<Reg>): Word {
    if x.Some? then r.Get(x.value) else 0
  }

  /** The address `leal` loads. */
  function Address(op: Operands, r: Regs): Word {
    Wrap(op.disp.Value() + Part(r, op.base) + Part(r, op.index) * Pow2(op.scale))
  }

  /** `d(base, index, 1)` to `d(base, index, 8)`. */
  lemma AddressIs(op: Operands, r: Regs)
    requires op.disp.Expr? && op.base.Some? && op.index.Some?
    ensures var times := match op.scale case 0 => 1 case 1 => 2 case 2 => 4 case _ => 8;
            Address(op, r) == (op.disp.value + r.Get(op.base.value) + times * r.Get(op.index.value)) % 0x1_0000_0000
  {
    assert Pow2(0) == 1 && Pow2(1) == 2 && Pow2(2) == 4 && Pow2(3) == 8;
  }

  // ---------- the emitted instructions ----------

  /** Base and index swapped or merged to keep the base simple. */
  function Rearranged(op: Operands): Operands {
    if op.scale == 0 && op.base == op.index then op.(base := None, scale := 1)
    else if op.index.None? || (op.scale == 0 && op.base in {Some(op.dest), Some(Esp)} && op.index != Some(op.dest))
    then op.(base := op.index, index := op.base, scale := 0)
    else op
  }

  function Load(index: Reg, dest: Reg): seq<Insn> {
    if index != dest then [MovL(index, dest)] else []
  }

  function Scaled(scale: Shift, dest: Reg): seq<Insn> {
    if scale != 0 then [ShlL(scale, dest)] else []
  }

  function AddBase(base: Option<Reg>, dest: Reg): seq<Insn> {
    if base.Some? then [AddL(base.value, dest)] else []
  }

  function AddDisp(d: Disp, dest: Reg): seq<Insn> {
    if d.Expr? then [AddImm(d.value, dest)] else []
  }

  /** The calculation between `pushfw` and `popfw`, after rearranging. */
  function Middle(op: Operands): seq<Insn>
    requires op.index.Some?
  {
    if op.base != Some(op.dest) then
      Scaled(op.scale, op.dest) + AddBase(op.base, op.dest)
    else if op.base == op.index then
      [ImulL(Pow2(op.scale) + 1, op.dest)]
    else
      var index := op.index.value;
      [PushL(index), ShlL(op.scale, index), AddL(index, op.dest), PopL(index)]
  }

  /** `pushfw` has moved `%esp` down by two. */
  function Offset(op: Operands): Disp {
    if op.base == Some(Esp) && op.dest != Esp then op.disp.PlusTwo() else op.disp
  }

  function Emitted(op: Operands): seq<Insn>
    requires op.base.Some? || op.index.Some?
  {
    var o := Rearranged(op);
    (if o.base != Some(o.dest) then Load(o.index.value, o.dest) else [])
    + ([PushFW] + (Middle(o) + AddDisp(Offset(o), o.dest)) + [PopFW])
  }

  lemma Associate(a: seq<Insn>, b: seq<Insn>, c: seq<Insn>, d: seq<Insn>, e: seq<Insn>)
    ensures a + b + c + d + e == a + (b + (c + d) + e)
  {
  }

  /** `NoSource` is a line that starts with a `movl` from nothing: no assembler accepts it. */
  datatype Fixup = Unable | Leaw | NoSource | Insns(insns: seq<Insn>)

  /** `handle_leal` from the parsed operands on. */
  method HandleLeal(op: Operands) returns (f: Fixup)
    ensures f == if op.index == Some(Esp) then Unable
                 else if op.dest == Esp then Leaw
                 else if op.base.None? && op.index.None? then NoSource
                 else Insns(Emitted(op))
  {
    if op.index == Some(Esp) {
      return Unable;
    }
    var offset, base, index, scale, dest := op.disp, op.base, op.index, op.scale, op.dest;
    if dest == Esp {
      return Leaw;
    }
    if scale == 0 && base == index {
      base, scale := None, 1;
    } else if index.None? || (scale == 0 && base in {Some(dest), Some(Esp)} && index != Some(dest)) {
      base, index, scale := index, base, 0;
    }
    if index.None? {
      return NoSource;
    }
    ghost var o := Rearranged(op);
    var insns := [PushFW];
    ghost var load := [];
    if base != Some(dest) {
      if index != Some(dest) {
        insns := [MovL(index.value, dest)] + insns;
      }
      load := Load(index.value, dest);
      assert insns == load + [PushFW];
      if scale != 0 {
        insns := insns + [ShlL(scale, dest)];
      }
      assert insns == load + [PushFW] + Scaled(scale, dest);
      if base.Some? {
        if base == Some(Esp) {
          offset := offset.PlusTwo();
        }
        insns := insns + [AddL(base.value, dest)];
      }
      assert insns == load + [PushFW] + Middle(o);
    } else if base == index {
      insns := insns + [ImulL(Pow2(scale) + 1, dest)];
    } else {
      insns := insns + [PushL(index.value)];
      insns := insns + [ShlL(scale, index.value)];
      insns := insns + [AddL(index.value, dest)];
      insns := insns + [PopL(index.value)];
    }
    assert insns == load + [PushFW] + Middle(o) && offset == Offset(o);
    if offset.Expr? {
      insns := insns + [AddImm(offset.value, dest)];
    }
    assert insns == load + [PushFW] + Middle(o) + AddDisp(offset, dest);
    insns := insns + [PopFW];
    Associate(load, [PushFW], Middle(o), AddDisp(offset, dest), [PopFW]);
    f := Insns(insns);
  }

  // ---------- what they compute ----------

  function All(p: seq<Insn>, s: State, alu: Alu): State {
    Run(p, |p|, s, alu)
  }

  lemma {:induction false} RunPrefix(p: seq<Insn>, q: seq<Insn>, n: nat, s: State, alu: Alu)
    requires n <= |p|
    ensures Run(p + q, n, s, alu) == Run(p, n, s, alu)
  {
    if n > 0 {
      RunPrefix(p, q, n - 1, s, alu);
    }
  }

  lemma {:induction false} AllAppend(p: seq<Insn>, q: seq<Insn>, s: State, alu: Alu)
    ensures All(p + q, s, alu) == All(q, All(p, s, alu), alu)
  {
    if q == [] {
      assert p + q == p;
    } else {
      var q' := q[..|q| - 1];
      AllAppend(p, q', s, alu);
      assert p + q == (p + q') + [q[|q| - 1]] && q == q' + [q[|q| - 1]];
      RunPrefix(p + q', [q[|q| - 1]], |p + q'|, s, alu);
      RunPrefix(q', [q[|q| - 1]], |q'|, All(p, s, alu), alu);
    }
  }

  /** Only `dest` and the flags change. */
  ghost predicate Computes(s: State, t: State, dest: Reg, v: Word) {
    t.r == s.r.Set(dest, v) && t.mem == s.mem
  }

  lemma AllNone(s: State, alu: Alu)
    ensures All([], s, alu) == s
  {
  }

  lemma AllOne(i: Insn, s: State, alu: Alu)
    ensures All([i], s, alu) == Exec(i, s, alu)
  {
    assert Run([i], 0, s, alu) == s;
  }

  lemma LoadEffect(index: Reg, dest: Reg, s: State, alu: Alu)
    ensures All(Load(index, dest), s, alu) == s.(r := s.r.Set(dest, s.r.Get(index)))
  {
    AllOne(MovL(index, dest), s, alu);
    GetSet(s.r, dest, dest, 0);
  }

  lemma ScaledEffect(scale: Shift, dest: Reg, s: State, alu: Alu)
    ensures Computes(s, All(Scaled(scale, dest), s, alu), dest, Wrap(s.r.Get(dest) * Pow2(scale)))
  {
    if scale != 0 {
      AllOne(ShlL(scale, dest), s, alu);
    } else {
      Unscaled(s.r.Get(dest));
      AllNone(s, alu);
      GetSet(s.r, dest, dest, 0);
    }
  }

  lemma Unscaled(x: Word)
    ensures Wrap(x * Pow2(0)) == x
  {
  }

  lemma AddBaseEffect(base: Option<Reg>, dest: Reg, s: State, alu: Alu)
    ensures Computes(s, All(AddBase(base, dest), s, alu), dest, Wrap(s.r.Get(dest) + Part(s.r, base)))
  {
    if base.Some? { AllOne(AddL(base.value, dest), s, alu); }
    GetSet(s.r, dest, dest, 0);
  }

  lemma AddDispEffect(d: Disp, dest: Reg, s: State, alu: Alu)
    ensures Computes(s, All(AddDisp(d, dest), s, alu), dest, Wrap(s.r.Get(dest) + d.Value()))
  {
    if d.Expr? { AllOne(AddImm(d.value, dest), s, alu); }
    GetSet(s.r, dest, dest, 0);
  }

  lemma BracketRuns(mid: seq<Insn>, s: State, alu: Alu)
    ensures All([PushFW] + mid + [PopFW], s, alu) == Exec(PopFW, All(mid, Exec(PushFW, s, alu), alu), alu)
  {
    AllAppend([PushFW], mid, s, alu);
    AllAppend([PushFW] + mid, [PopFW], s, alu);
    AllOne(PushFW, s, alu);
    AllOne(PopFW, All([PushFW] + mid, s, alu), alu);
  }

  /** The flags `pushfw` stored below `e` survive a calculation that only writes the four bytes below them. */
  lemma FlagsKept(e: Word, m0: Mem, f: Half, m2: Mem)
    requires Agree(Write16(m0, Wrap(e - 2), f), m2, Span(e - 6, 4))
    ensures Read16(m2, Wrap(e - 2)) == f
  {
    Write16Effect(m0, Wrap(e - 2), f);
    AboveSpan(e);
  }

  lemma AboveSpan(e: Word)
    ensures Wrap(e - 2) !in Span(e - 6, 4) && Wrap(Wrap(e - 2) + 1) !in Span(e - 6, 4)
  {
    WrapAdd(e - 2, 6 - e);
    WrapAdd(e - 2, 1);
    WrapAdd(e - 1, 6 - e);
  }

  lemma SixBelow(e: Word, m0: Mem, f: Half, m2: Mem)
    requires Agree(Write16(m0, Wrap(e - 2), f), m2, Span(e - 6, 4))
    ensures Agree(m0, m2, Span(e - 6, 6))
  {
    Write16Effect(m0, Wrap(e - 2), f);
    SpanParts(e - 6, 4, 2);
    SpanWrap(e - 2, 2);
  }

  /** Moving the stack pointer commutes with setting another register. */
  lemma SetEsp(r: Regs, dest: Reg, v: Word, x: Word)
    requires dest != Esp
    ensures r.(esp := x).Set(dest, v) == r.Set(dest, v).(esp := x)
    ensures r.Set(dest, v).esp == r.esp
  {
  }

  lemma PopBack(dest: Reg, v: Word, s: State, s2: State, alu: Alu)
    requires dest != Esp
    requires s2.r == s.r.(esp := Wrap(s.r.esp - 2)).Set(dest, v)
    ensures Exec(PopFW, s2, alu).r == s.r.Set(dest, v)
    ensures s2.r.esp == Wrap(s.r.esp - 2)
  {
    SetEsp(s.r, dest, v, Wrap(s.r.esp - 2));
    SetEsp(s.r, dest, v, s.r.esp);
    WrapAdd(s.r.esp - 2, 2);
  }

  /** `pushfw` and `popfw` around a calculation keep the flags and `%esp`. */
  lemma Bracket(mid: seq<Insn>, dest: Reg, v: Word, s: State, alu: Alu)
    requires dest != Esp
    requires var s1 := Exec(PushFW, s, alu);
             var s2 := All(mid, s1, alu);
             s2.r == s1.r.Set(dest, v) && Agree(s1.mem, s2.mem, Span(s.r.esp - 6, 4))
    ensures var t := All([PushFW] + mid + [PopFW], s, alu);
            t.r == s.r.Set(dest, v) && t.flags == s.flags && Agree(s.mem, t.mem, Span(s.r.esp - 6, 6))
  {
    BracketRuns(mid, s, alu);
    var s2 := All(mid, Exec(PushFW, s, alu), alu);
    FlagsKept(s.r.esp, s.mem, s.flags, s2.mem);
    SixBelow(s.r.esp, s.mem, s.flags, s2.mem);
    PopBack(dest, v, s, s2, alu);
  }

  // ---------- the calculation ----------

  /** What `Middle` leaves in `dest`, from the registers before it. */
  function Calculated(o: Operands, r: Regs): Word
    requires o.index.Some?
  {
    if o.base != Some(o.dest) then Wrap(Wrap(r.Get(o.dest) * Pow2(o.scale)) + Part(r, o.base))
    else if o.base == o.index then Wrap(r.Get(o.dest) * (Pow2(o.scale) + 1))
    else Wrap(r.Get(o.dest) + Wrap(r.Get(o.index.value) * Pow2(o.scale)))
  }

  lemma DirectEffect(o: Operands, s: State, alu: Alu)
    requires o.index.Some? && o.base != Some(o.dest)
    ensures Computes(s, All(Middle(o), s, alu), o.dest, Calculated(o, s.r))
  {
    var t := All(Scaled(o.scale, o.dest), s, alu);
    AllAppend(Scaled(o.scale, o.dest), AddBase(o.base, o.dest), s, alu);
    ScaledEffect(o.scale, o.dest, s, alu);
    AddBaseEffect(o.base, o.dest, t, alu);
    var v := Wrap(s.r.Get(o.dest) * Pow2(o.scale));
    GetSet(s.r, o.dest, o.dest, v);
    if o.base.Some? { GetSet(s.r, o.dest, o.base.value, v); }
    SetSet(s.r, o.dest, o.dest, v, Calculated(o, s.r));
  }

  lemma ImulEffect(o: Operands, s: State, alu: Alu)
    requires o.index.Some? && o.base == o.index == Some(o.dest)
    ensures Computes(s, All(Middle(o), s, alu), o.dest, Calculated(o, s.r))
  {
    AllOne(ImulL(Pow2(o.scale) + 1, o.dest), s, alu);
  }

  /** `pushl` and `popl` around the scaling of the index register restore it. */
  lemma PushEffect(o: Operands, s: State, alu: Alu)
    requires o.index.Some? && o.base == Some(o.dest) != o.index
    requires o.index != Some(Esp) && o.dest != Esp
    ensures var t := All(Middle(o), s, alu);
            t.r == s.r.Set(o.dest, Calculated(o, s.r)) && Agree(s.mem, t.mem, Span(s.r.esp - 4, 4))
  {
    var i, d := o.index.value, o.dest;
    var s1 := Exec(PushL(i), s, alu);
    var s2 := Exec(ShlL(o.scale, i), s1, alu);
    var s3 := Exec(AddL(i, d), s2, alu);
    FourRuns(PushL(i), ShlL(o.scale, i), AddL(i, d), PopL(i), s, alu);
    Scaling(o, s, alu);
    PopRestores(i, d, Wrap(s.r.Get(i) * Pow2(o.scale)), Calculated(o, s.r), s, s3, alu);
  }

  lemma PopRestores(i: Reg, d: Reg, x: Word, v: Word, s: State, s3: State, alu: Alu)
    requires i != Esp && d != Esp && i != d
    requires s3.mem == Write32(s.mem, Wrap(s.r.esp - 4), s.r.Get(i))
    requires s3.r == s.r.(esp := Wrap(s.r.esp - 4)).Set(i, x).Set(d, v)
    ensures var t := Exec(PopL(i), s3, alu);
            t.r == s.r.Set(d, v) && Agree(s.mem, t.mem, Span(s.r.esp - 4, 4))
  {
    PushWrites(s.mem, s.r.esp, s.r.Get(i));
    Restored(s.r, i, d, Wrap(s.r.esp - 4), x, v);
    PopExact(i, s3, s.r.esp, s.r.Get(i), alu);
  }

  lemma PopExact(i: Reg, s: State, e: Word, v: Word, alu: Alu)
    requires Wrap(s.r.esp + 4) == e && Read32(s.mem, s.r.esp) == v
    ensures Exec(PopL(i), s, alu).r == s.r.(esp := e).Set(i, v)
    ensures Exec(PopL(i), s, alu).mem == s.mem
  {
  }

  lemma Scaling(o: Operands, s: State, alu: Alu)
    requires o.index.Some? && o.base == Some(o.dest) != o.index
    requires o.index != Some(Esp) && o.dest != Esp
    ensures var i := o.index.value;
            var s1 := Exec(PushL(i), s, alu);
            var s3 := Exec(AddL(i, o.dest), Exec(ShlL(o.scale, i), s1, alu), alu);
            var x := Wrap(s.r.Get(i) * Pow2(o.scale));
            && s3.mem == s1.mem
            && s3.r == s.r.(esp := Wrap(s.r.esp - 4)).Set(i, x).Set(o.dest, Calculated(o, s.r))
  {
    var i, d := o.index.value, o.dest;
    var r1 := s.r.(esp := Wrap(s.r.esp - 4));
    var x := Wrap(s.r.Get(i) * Pow2(o.scale));
    GetEsp(s.r, i, Wrap(s.r.esp - 4));
    GetEsp(s.r, d, Wrap(s.r.esp - 4));
    GetSet(r1, i, i, x);
    GetSet(r1, i, d, x);
  }

  lemma GetEsp(r: Regs, x: Reg, e: Word)
    requires x != Esp
    ensures r.(esp := e).Get(x) == r.Get(x)
  {
  }

  lemma Restored(r: Regs, i: Reg, d: Reg, e: Word, x: Word, v: Word)
    requires i != Esp && d != Esp && i != d
    ensures var t := r.(esp := e).Set(i, x).Set(d, v);
            t.esp == e && t.(esp := r.esp).Set(i, r.Get(i)) == r.Set(d, v)
  {
    SetEsp(r, i, x, e);
    SetEsp(r.Set(i, x), d, v, e);
    var t := r.(esp := e).Set(i, x).Set(d, v);
    assert t == r.Set(i, x).Set(d, v).(esp := e);
    assert t.(esp := r.esp) == r.Set(i, x).Set(d, v) by {
      SetEsp(r.Set(i, x), d, v, r.esp);
      SetEsp(r, i, x, r.esp);
    }
    Unset(r, i, d, x, v);
  }

  lemma Unset(r: Regs, i: Reg, d: Reg, x: Word, v: Word)
    requires i != d
    ensures r.Set(i, x).Set(d, v).Set(i, r.Get(i)) == r.Set(d, v)
  {
    SetSet(r, i, d, x, v);
    SetSet(r.Set(d, v), i, i, x, r.Get(i));
    GetSet(r, d, i, v);
    GetSet(r.Set(d, v), i, i, 0);
  }

  lemma FourRuns(a: Insn, b: Insn, c: Insn, d: Insn, s: State, alu: Alu)
    ensures All([a, b, c, d], s, alu) == Exec(d, Exec(c, Exec(b, Exec(a, s, alu), alu), alu), alu)
  {
    var p := [a, b, c, d];
    assert Run(p, 0, s, alu) == s;
    assert Run(p, 1, s, alu) == Exec(a, s, alu);
    assert Run(p, 2, s, alu) == Exec(b, Run(p, 1, s, alu), alu);
    assert Run(p, 3, s, alu) == Exec(c, Run(p, 2, s, alu), alu);
  }

  lemma MiddleEffect(o: Operands, s: State, alu: Alu)
    requires o.index.Some? && o.dest != Esp
    requires o.base == Some(o.dest) ==> o.index != Some(Esp)
    ensures var mid := Middle(o) + AddDisp(Offset(o), o.dest);
            var t := All(mid, s, alu);
            t.r == s.r.Set(o.dest, Wrap(Calculated(o, s.r) + Offset(o).Value()))
            && Agree(s.mem, t.mem, Span(s.r.esp - 4, 4))
  {
    if o.base != Some(o.dest) {
      DirectEffect(o, s, alu);
    } else if o.base == o.index {
      ImulEffect(o, s, alu);
    } else {
      PushEffect(o, s, alu);
    }
    var t := All(Middle(o), s, alu);
    var v := Calculated(o, s.r);
    AllAppend(Middle(o), AddDisp(Offset(o), o.dest), s, alu);
    AddDispEffect(Offset(o), o.dest, t, alu);
    GetSet(s.r, o.dest, o.dest, v);
    SetSet(s.r, o.dest, o.dest, v, Wrap(v + Offset(o).Value()));
  }

  // ---------- the result ----------

  /** Rearranging keeps the address and leaves an index. */
  lemma RearrangedSame(op: Operands, r: Regs)
    requires (op.base.Some? || op.index.Some?) && op.dest != Esp && op.index != Some(Esp)
    ensures var o := Rearranged(op);
            o.index.Some? && o.dest == op.dest && Address(o, r) == Address(op, r)
            && (o.index == Some(Esp) ==> o.base != Some(o.dest))
            && (o.base == o.index ==> o.base == Some(o.dest) || o.scale != 0)
  {
  }

  lemma DirectSum(q: int, b: int, d: int)
    ensures Wrap(Wrap(Wrap(q) + b) + d) == Wrap(d + b + q)
  {
    WrapAdd(q, b);
    WrapAdd(q + b, d);
  }

  lemma MovedSum(q: int, e: int, d: int)
    ensures Wrap(Wrap(Wrap(q) + Wrap(e - 2)) + (d + 2)) == Wrap(d + e + q)
  {
    DirectSum(q, Wrap(e - 2), d + 2);
    WrapAdd(e - 2, d + 2 + q);
  }

  /** The calculated value, with the correction for the moved `%esp`, is the address. */
  lemma DirectIsAddress(o: Operands, r: Regs)
    requires o.index.Some? && o.dest != Esp && o.base != Some(o.dest)
    ensures var r' := r.Set(o.dest, r.Get(o.index.value)).(esp := Wrap(r.esp - 2));
            Wrap(Calculated(o, r') + Offset(o).Value()) == Address(o, r)
  {
    var i := r.Get(o.index.value);
    var r1 := r.Set(o.dest, i);
    GetSet(r, o.dest, o.dest, i);
    GetEsp(r1, o.dest, Wrap(r.esp - 2));
    SetEsp(r, o.dest, i, r.esp);
    if o.base == Some(Esp) {
      MovedSum(i * Pow2(o.scale), r.esp, o.disp.Value());
    } else {
      DirectSum(i * Pow2(o.scale), Part(r, o.base), o.disp.Value());
      if o.base.Some? {
        GetSet(r, o.dest, o.base.value, i);
        GetEsp(r1, o.base.value, Wrap(r.esp - 2));
      }
    }
  }

  lemma InPlaceIsAddress(o: Operands, r: Regs)
    requires o.index.Some? && o.dest != Esp && o.base == Some(o.dest) && o.index != Some(Esp)
    ensures Wrap(Calculated(o, r.(esp := Wrap(r.esp - 2))) + Offset(o).Value()) == Address(o, r)
  {
    var i, b, p, d := r.Get(o.index.value), r.Get(o.dest), Pow2(o.scale), o.disp.Value();
    GetEsp(r, o.dest, Wrap(r.esp - 2));
    GetEsp(r, o.index.value, Wrap(r.esp - 2));
    if o.base == o.index {
      assert i * (p + 1) == i * p + i;
      WrapAdd(i * p + i, d);
    } else {
      WrapAdd(i * p, b);
      DirectSum(i * p, b, d);
    }
  }

  /**
   * In every state, and whatever arithmetic leaves in FLAGS, the emitted instructions load the
   * address `leal` loads, and change nothing else but the six bytes below the stack pointer.
   */
  lemma EmittedMeansLeal(op: Operands, s: State, alu: Alu)
    requires op.base.Some? || op.index.Some?
    requires op.dest != Esp && op.index != Some(Esp)
    ensures var t := All(Emitted(op), s, alu);
            && t.r == s.r.Set(op.dest, Address(op, s.r))
            && t.flags == s.flags
            && Agree(s.mem, t.mem, Span(s.r.esp - 6, 6))
  {
    RearrangedSame(op, s.r);
    var o := Rearranged(op);
    var load := if o.base != Some(o.dest) then Load(o.index.value, o.dest) else [];
    AllAppend(load, [PushFW] + (Middle(o) + AddDisp(Offset(o), o.dest)) + [PopFW], s, alu);
    Loaded(o, s, alu);
    var a := All(load, s, alu);
    CalculatedIsAddress(o, s.r);
    Bracketed(o, Address(o, s.r), a, alu);
    SetSet(s.r, o.dest, o.dest, a.r.Get(o.dest), Address(op, s.r));
    SetEsp(s.r, o.dest, s.r.Get(o.index.value), s.r.esp);
  }

  /** The registers after the leading `movl`. */
  function AfterLoad(o: Operands, r: Regs): Regs
    requires o.index.Some?
  {
    if o.base != Some(o.dest) then r.Set(o.dest, r.Get(o.index.value)) else r
  }

  lemma Loaded(o: Operands, s: State, alu: Alu)
    requires o.index.Some?
    ensures var load := if o.base != Some(o.dest) then Load(o.index.value, o.dest) else [];
            All(load, s, alu) == s.(r := AfterLoad(o, s.r))
    ensures AfterLoad(o, s.r) == s.r.Set(o.dest, AfterLoad(o, s.r).Get(o.dest))
  {
    AllNone(s, alu);
    GetSet(s.r, o.dest, o.dest, 0);
    if o.base != Some(o.dest) {
      LoadEffect(o.index.value, o.dest, s, alu);
      GetSet(s.r, o.dest, o.dest, s.r.Get(o.index.value));
    }
  }

  lemma CalculatedIsAddress(o: Operands, r: Regs)
    requires o.index.Some? && o.dest != Esp && (o.base == Some(o.dest) ==> o.index != Some(Esp))
    ensures Wrap(Calculated(o, AfterLoad(o, r).(esp := Wrap(r.esp - 2))) + Offset(o).Value()) == Address(o, r)
  {
    if o.base != Some(o.dest) {
      DirectIsAddress(o, r);
    } else {
      InPlaceIsAddress(o, r);
    }
  }

  lemma FourBelow(e: Word)
    ensures Span(Wrap(e - 2) - 4, 4) == Span(e - 6, 4)
  {
    WrapAdd(e - 2, -4);
    SpanWrap(Wrap(e - 2) - 4, 4);
    SpanWrap(e - 6, 4);
  }

  lemma Bracketed(o: Operands, v: Word, a: State, alu: Alu)
    requires o.index.Some? && o.dest != Esp && (o.base == Some(o.dest) ==> o.index != Some(Esp))
    requires Wrap(Calculated(o, a.r.(esp := Wrap(a.r.esp - 2))) + Offset(o).Value()) == v
    ensures var t := All([PushFW] + (Middle(o) + AddDisp(Offset(o), o.dest)) + [PopFW], a, alu);
            t.r == a.r.Set(o.dest, v) && t.flags == a.flags && Agree(a.mem, t.mem, Span(a.r.esp - 6, 6))
  {
    var s1 := Exec(PushFW, a, alu);
    MiddleEffect(o, s1, alu);
    FourBelow(a.r.esp);
    Bracket(Middle(o) + AddDisp(Offset(o), o.dest), o.dest, v, a, alu);
  }
}
