/** Rewriting a whole file: the new program simulates the old one at any call depth. */
module CallRet {
  import opened Common
  import opened Machine
  import opened Leal

  type Writes = seq<(Word, Byte)>

  datatype Outcome = Outcome(r: Regs, flags: Half, writes: Writes, next: Option<nat>)

  /**
   * One line of the file. `Plain` is any line the rewriter copies: it reads the bytes at
   * addresses its registers give, writes registers, flags and bytes, and may jump to a line.
   */
  datatype Line =
    | Ret
    | Leave
    | Call(target: nat)
    | Lea(op: Operands)
    | Plain(needs: Regs -> seq<Word>, effect: (Regs, Half, seq<Byte>) -> Outcome)

  /** How a new line ends. */
  datatype Control =
    | FallThrough
    | CallW(target: nat)
    | RetW(extra: nat)
    | LeaW(op: Operands)
    | NoLine   // not accepted by the assembler
    | Copied(needs: Regs -> seq<Word>, effect: (Regs, Half, seq<Byte>) -> Outcome)

  datatype NewLine = NewLine(insns: seq<Insn>, control: Control)

  /** A `leal` has a base or an index, or its destination is `%esp`. */
  predicate Assembles(l: Line) {
    l.Lea? ==> l.op.base.Some? || l.op.index.Some? || l.op.dest == Esp
  }

  function Fixed(l: Line): Option<NewLine> {
    match l
    case Ret => Some(NewLine([], RetW(2)))
    case Leave => Some(NewLine([MovL(Ebp, Esp), PopL(Ebp)], FallThrough))
    case Call(target) => Some(NewLine([PushAX], CallW(target)))
    case Lea(op) =>
      if op.index == Some(Esp) then None
      else if op.dest == Esp then Some(NewLine([], LeaW(op)))
      else if op.base.None? && op.index.None? then Some(NewLine([], NoLine))
      else Some(NewLine(Emitted(op), FallThrough))
    case Plain(needs, effect) => Some(NewLine([], Copied(needs, effect)))
  }

  ghost predicate Replaced(p: seq<Line>, q: seq<NewLine>) {
    |q| == |p| && forall i :: 0 <= i < |p| ==> Fixed(p[i]) == Some(q[i])
  }

  ghost predicate Rewritten(p: seq<Line>, q: seq<NewLine>) {
    Replaced(p, q) && forall i :: 0 <= i < |p| ==> Assembles(p[i])
  }

  /** The loop of `main`; a `leal` it cannot replace ends the program. */
  method Rewrite(lines: seq<Line>) returns (out: seq<NewLine>, ok: bool)
    ensures ok ==> Replaced(lines, out)
    ensures ok <==> forall i :: 0 <= i < |lines| ==> Fixed(lines[i]).Some?
  {
    out, ok := [], true;
    var n := 0;
    while ok && n < |lines|
      invariant 0 <= n <= |lines|
      invariant ok ==> |out| == n && forall i :: 0 <= i < n ==> Fixed(lines[i]) == Some(out[i])
      invariant !ok ==> exists i :: 0 <= i < |lines| && Fixed(lines[i]).None?
      decreases |lines| - n, ok
    {
      var line := lines[n];
      match line {
      case Ret => out := out + [NewLine([], RetW(2))];
      case Leave => out := out + [NewLine([MovL(Ebp, Esp), PopL(Ebp)], FallThrough)];
      case Call(target) => out := out + [NewLine([PushAX], CallW(target))];
      case Lea(op) =>
        var f := HandleLeal(op);
        match f {
          case Unable => ok := false;
          case Leaw => out := out + [NewLine([], LeaW(op))];
          case NoSource => out := out + [NewLine([], NoLine)];
          case Insns(insns) => out := out + [NewLine(insns, FallThrough)];
        }
      case Plain(needs, effect) => out := out + [NewLine([], Copied(needs, effect))];
      }
      if ok {
        n := n + 1;
      }
    }
  }

  // ---------- execution ----------

  /** Where the lines of a program sit in memory, and which line an address is. */
  datatype Layout = Layout(addr: nat -> Word, at: Word -> nat)

  /** Addresses below 2^16 that tell the lines apart; a return may go behind the last line. */
  ghost predicate Placed(l: Layout, n: nat) {
    forall k: nat :: k <= n ==> l.addr(k) < 0x1_0000 && l.at(l.addr(k)) == k
  }

  datatype Config = Config(pc: nat, s: State)

  function Bytes(m: Mem, a: seq<Word>, n: nat): seq<Byte>
    requires n <= |a|
  {
    if n == 0 then [] else Bytes(m, a, n - 1) + [m(a[n - 1])]
  }

  function Stored(m: Mem, w: Writes, n: nat): Mem
    requires n <= |w|
  {
    if n == 0 then m else Write(Stored(m, w, n - 1), w[n - 1].0, w[n - 1].1)
  }

  function Perform(needs: Regs -> seq<Word>, effect: (Regs, Half, seq<Byte>) -> Outcome, c: Config): Config {
    var a := needs(c.s.r);
    var o := effect(c.s.r, c.s.flags, Bytes(c.s.mem, a, |a|));
    Config(if o.next.Some? then o.next.value else c.pc + 1, State(o.r, o.flags, Stored(c.s.mem, o.writes, |o.writes|)))
  }

  /** The original line: `call` pushes and `ret` pops a 32-bit return address. */
  function Step0(p: seq<Line>, l: Layout, c: Config): Config {
    if c.pc >= |p| then c else
    var s := c.s;
    match p[c.pc]
    case Ret => Config(l.at(Read32(s.mem, s.r.esp)), s.(r := s.r.(esp := Wrap(s.r.esp + 4))))
    case Leave => Config(c.pc + 1, s.(r := s.r.(esp := Wrap(s.r.ebp + 4), ebp := Read32(s.mem, s.r.ebp))))
    case Call(target) =>
      var e := Wrap(s.r.esp - 4);
      Config(target, s.(r := s.r.(esp := e), mem := Write32(s.mem, e, l.addr(c.pc + 1))))
    case Lea(op) => Config(c.pc + 1, s.(r := s.r.Set(op.dest, Address(op, s.r))))
    case Plain(needs, effect) => Perform(needs, effect, c)
  }

  /** The line that replaces it: 16-bit return addresses. */
  function Finish(k: Control, l: Layout, c: Config): Config {
    var s := c.s;
    match k
    case FallThrough => c.(pc := c.pc + 1)
    case CallW(target) =>
      var e := Wrap(s.r.esp - 2);
      Config(target, s.(r := s.r.(esp := e), mem := Write16(s.mem, e, l.addr(c.pc + 1) % 0x1_0000)))
    case RetW(extra) => Config(l.at(Read16(s.mem, s.r.esp)), s.(r := s.r.(esp := Wrap(s.r.esp + 2 + extra))))
    case LeaW(op) =>
      var low := Address(op, s.r) % 0x1_0000;
      Config(c.pc + 1, s.(r := s.r.Set(op.dest, s.r.Get(op.dest) / 0x1_0000 * 0x1_0000 + low)))
    case NoLine => c
    case Copied(needs, effect) => Perform(needs, effect, c)
  }

  function Step1(q: seq<NewLine>, l: Layout, c: Config, alu: Alu): Config {
    if c.pc >= |q| then c
    else Finish(q[c.pc].control, l, Config(c.pc, All(q[c.pc].insns, c.s, alu)))
  }

  // ---------- the original run, with what it may rely on ----------

  /** A return address on the stack. */
  datatype Slot = Slot(at: Word, back: nat)

  /** The return slots in use, and the bytes whose contents the rewriting does not keep. */
  datatype Track = Track(c: Config, slots: seq<Slot>, dirty: set<int>)

  function Live(slots: seq<Slot>): set<int> {
    if slots == [] then {} else Live(slots[..|slots| - 1]) + Span(slots[|slots| - 1].at, 4)
  }

  function Touched(w: Writes): set<int> {
    set i | 0 <= i < |w| :: w[i].0
  }

  function WritesOf(p: seq<Line>, c: Config): Writes {
    if c.pc < |p| && p[c.pc].Plain? then
      var a := p[c.pc].needs(c.s.r);
      p[c.pc].effect(c.s.r, c.s.flags, Bytes(c.s.mem, a, |a|)).writes
    else []
  }

  /** One step: a call makes a slot, a return retires it, a write makes bytes reliable again. */
  function Next(p: seq<Line>, l: Layout, t: Track): Track {
    if t.c.pc >= |p| then t else
    var c := Step0(p, l, t.c);
    var esp := t.c.s.r.esp;
    match p[t.c.pc]
    case Ret => Track(c, if t.slots == [] then [] else t.slots[..|t.slots| - 1], t.dirty)
    case Leave => Track(c, t.slots, t.dirty)
    case Call(_) => Track(c, t.slots + [Slot(c.s.r.esp, t.c.pc + 1)], t.dirty + Span(c.s.r.esp, 4))
    case Lea(op) => Track(c, t.slots, if op.dest == Esp then t.dirty else t.dirty + Span(esp - 6, 6))
    case Plain(_, _) => Track(c, t.slots, t.dirty - Touched(WritesOf(p, t.c)))
  }

  /**
   * What the rewriting asks of the next step: calls nest, no line touches a return slot or reads
   * a byte that is not reliable, and `leal` into `%esp` stays in its 64 kB.
   */
  ghost predicate Allowed(p: seq<Line>, t: Track) {
    && t.c.pc < |p|
    && var r := t.c.s.r;
    match p[t.c.pc]
    case Ret => t.slots != [] && t.slots[|t.slots| - 1].at == r.esp
    case Leave => Span(r.ebp, 4) !! t.dirty
    case Call(_) => Span(Wrap(r.esp - 4), 4) !! Live(t.slots)
    case Lea(op) =>
      if op.dest == Esp then Address(op, r) / 0x1_0000 == r.esp / 0x1_0000
      else Span(r.esp - 6, 6) !! Live(t.slots)
    case Plain(needs, _) =>
      && (forall i :: 0 <= i < |needs(r)| ==> needs(r)[i] !in t.dirty)
      && Touched(WritesOf(p, t.c)) !! Live(t.slots)
  }

  // ---------- the relation ----------

  /** Either program finds its own address of the same line in the slot. */
  predicate Returns(x: Slot, m0: Mem, m1: Mem, l0: Layout, l1: Layout) {
    Read32(m0, x.at) == l0.addr(x.back) && Read16(m1, x.at) == l1.addr(x.back)
  }

  ghost predicate Sim(n: nat, l0: Layout, l1: Layout, t: Track, c: Config) {
    && t.c.pc == c.pc
    && t.c.s.r == c.s.r
    && t.c.s.flags == c.s.flags
    && Agree(t.c.s.mem, c.s.mem, t.dirty)
    && Live(t.slots) <= t.dirty
    && (forall i :: 0 <= i < |t.slots| ==> t.slots[i].back <= n && Returns(t.slots[i], t.c.s.mem, c.s.mem, l0, l1))
  }

  // ---------- frames ----------

  lemma {:induction false} LiveHas(slots: seq<Slot>, i: nat, k: nat)
    requires i < |slots| && k < 4
    ensures Wrap(slots[i].at + k) in Live(slots)
  {
    if i == |slots| - 1 {
      InSpan(slots[i].at, k);
    } else {
      LiveHas(slots[..|slots| - 1], i, k);
    }
  }

  /** Bytes outside the live slots may change. */
  lemma KeepReturns(slots: seq<Slot>, i: nat, m0: Mem, m1: Mem, l0: Layout, l1: Layout, n0: Mem, n1: Mem, d: set<int>)
    requires i < |slots| && Returns(slots[i], m0, m1, l0, l1)
    requires Agree(m0, n0, d) && Agree(m1, n1, d) && d !! Live(slots)
    ensures Returns(slots[i], n0, n1, l0, l1)
  {
    KeepRead(slots, i, m0, n0, d);
    KeepRead(slots, i, m1, n1, d);
  }

  lemma KeepRead(slots: seq<Slot>, i: nat, m: Mem, n: Mem, d: set<int>)
    requires i < |slots| && Agree(m, n, d) && d !! Live(slots)
    ensures Read16(m, slots[i].at) == Read16(n, slots[i].at)
    ensures Read32(m, slots[i].at) == Read32(n, slots[i].at)
  {
    LiveHas(slots, i, 0);
    LiveHas(slots, i, 1);
    LiveHas(slots, i, 2);
    LiveHas(slots, i, 3);
    ReadFour(m, n, d, slots[i].at);
  }

  lemma ReadFour(m: Mem, n: Mem, d: set<int>, a: int)
    requires 0 <= a < M32 && Agree(m, n, d)
    requires Wrap(a + 0) !in d && Wrap(a + 1) !in d && Wrap(a + 2) !in d && Wrap(a + 3) !in d
    ensures Read16(m, a) == Read16(n, a)
    ensures Read32(m, a) == Read32(n, a)
  {
    WrapAdd(a + 2, 1);
    ReadApart(m, n, d, a);
    ReadApart(m, n, d, Wrap(a + 2));
  }

  /** Writing outside the live slots keeps the relation between slots and memories. */
  lemma KeepSlots(n: nat, l0: Layout, l1: Layout, t: Track, c: Config, n0: Mem, n1: Mem, d: set<int>)
    requires Sim(n, l0, l1, t, c)
    requires Agree(t.c.s.mem, n0, d) && Agree(c.s.mem, n1, d) && d !! Live(t.slots)
    ensures forall i :: 0 <= i < |t.slots| ==> t.slots[i].back <= n && Returns(t.slots[i], n0, n1, l0, l1)
  {
    forall i | 0 <= i < |t.slots|
      ensures t.slots[i].back <= n && Returns(t.slots[i], n0, n1, l0, l1)
    {
      KeepReturns(t.slots, i, t.c.s.mem, c.s.mem, l0, l1, n0, n1, d);
    }
  }

  lemma {:induction false} BytesSame(m0: Mem, m1: Mem, a: seq<Word>, n: nat, d: set<int>)
    requires n <= |a| && Agree(m0, m1, d) && forall i :: 0 <= i < n ==> a[i] !in d
    ensures Bytes(m0, a, n) == Bytes(m1, a, n)
  {
    if n > 0 {
      BytesSame(m0, m1, a, n - 1, d);
    }
  }

  lemma {:induction false} StoredOutside(m: Mem, w: Writes, n: nat, x: Word)
    requires n <= |w| && forall i :: 0 <= i < n ==> w[i].0 != x
    ensures Stored(m, w, n)(x) == m(x)
  {
    if n > 0 {
      StoredOutside(m, w, n - 1, x);
    }
  }

  lemma {:induction false} StoredInside(m0: Mem, m1: Mem, w: Writes, n: nat, x: Word)
    requires n <= |w| && (m0(x) == m1(x) || exists i :: 0 <= i < n && w[i].0 == x)
    ensures Stored(m0, w, n)(x) == Stored(m1, w, n)(x)
  {
    if n > 0 && w[n - 1].0 != x {
      StoredInside(m0, m1, w, n - 1, x);
    }
  }

  /** Storing the same bytes makes them agree, and changes nothing else. */
  lemma StoredAgree(m0: Mem, m1: Mem, w: Writes, d: set<int>)
    requires Agree(m0, m1, d)
    ensures Agree(Stored(m0, w, |w|), Stored(m1, w, |w|), d - Touched(w))
    ensures Agree(m0, Stored(m0, w, |w|), Touched(w)) && Agree(m1, Stored(m1, w, |w|), Touched(w))
  {
    forall x: Word | x !in d - Touched(w)
      ensures Stored(m0, w, |w|)(x) == Stored(m1, w, |w|)(x)
    {
      StoredInside(m0, m1, w, |w|, x);
    }
    forall x: Word | x !in Touched(w)
      ensures m0(x) == Stored(m0, w, |w|)(x) && m1(x) == Stored(m1, w, |w|)(x)
    {
      assert forall i :: 0 <= i < |w| ==> w[i].0 in Touched(w);
      StoredOutside(m0, w, |w|, x);
      StoredOutside(m1, w, |w|, x);
    }
  }

  // ---------- one step ----------

  lemma CallStep(p: seq<Line>, q: seq<NewLine>, l0: Layout, l1: Layout, alu: Alu, t: Track, c: Config)
    requires Rewritten(p, q) && Placed(l0, |p|) && Placed(l1, |p|)
    requires Sim(|p|, l0, l1, t, c) && t.c.pc < |p| && p[t.c.pc].Call?
    requires Span(Wrap(t.c.s.r.esp - 4), 4) !! Live(t.slots)
    ensures Sim(|p|, l0, l1, Next(p, l0, t), Step1(q, l1, c, alu))
  {
    assert Fixed(p[c.pc]) == Some(q[c.pc]);
    CalledOld(p, l0, t);
    CalledNew(q, l1, c, alu);
    CallRelated(|p|, l0, l1, t, c, p[c.pc].target, Next(p, l0, t), Step1(q, l1, c, alu));
  }

  /** What `calll` does. */
  ghost predicate OldCalled(l: Layout, t: Track, target: nat, t': Track) {
    var e := Wrap(t.c.s.r.esp - 4);
    && t'.c.pc == target && t'.c.s.r == t.c.s.r.(esp := e) && t'.c.s.flags == t.c.s.flags
    && Agree(t.c.s.mem, t'.c.s.mem, Span(e, 4))
    && Read32(t'.c.s.mem, e) == l.addr(t.c.pc + 1)
    && t'.slots == t.slots + [Slot(e, t.c.pc + 1)] && t'.dirty == t.dirty + Span(e, 4)
  }

  /** What `pushw %ax ; callw` does. */
  ghost predicate NewCalled(l: Layout, c: Config, target: nat, c': Config) {
    var e := Wrap(c.s.r.esp - 4);
    && c'.pc == target && c'.s.r == c.s.r.(esp := e) && c'.s.flags == c.s.flags
    && Agree(c.s.mem, c'.s.mem, Span(e, 4))
    && Read16(c'.s.mem, e) == l.addr(c.pc + 1)
  }

  lemma CallRelated(n: nat, l0: Layout, l1: Layout, t: Track, c: Config, target: nat, t': Track, c': Config)
    requires Sim(n, l0, l1, t, c) && c.pc < n && Span(Wrap(t.c.s.r.esp - 4), 4) !! Live(t.slots)
    requires OldCalled(l0, t, target, t') && NewCalled(l1, c, target, c')
    ensures Sim(n, l0, l1, t', c')
  {
    var x := Slot(Wrap(c.s.r.esp - 4), c.pc + 1);
    CallsAgree(l0, l1, t, c, target, t', c', x);
    NewSlot(n, l0, l1, t, c, t', c', x);
  }

  lemma CallsAgree(l0: Layout, l1: Layout, t: Track, c: Config, target: nat, t': Track, c': Config, x: Slot)
    requires t.c.pc == c.pc && t.c.s.r == c.s.r && t.c.s.flags == c.s.flags
    requires x == Slot(Wrap(c.s.r.esp - 4), c.pc + 1)
    requires OldCalled(l0, t, target, t') && NewCalled(l1, c, target, c')
    ensures t'.c.pc == c'.pc && t'.c.s.r == c'.s.r && t'.c.s.flags == c'.s.flags
    ensures t'.slots == t.slots + [x] && t'.dirty == t.dirty + Span(x.at, 4)
    ensures Agree(t.c.s.mem, t'.c.s.mem, Span(x.at, 4)) && Agree(c.s.mem, c'.s.mem, Span(x.at, 4))
    ensures Returns(x, t'.c.s.mem, c'.s.mem, l0, l1)
  {
  }

  lemma CalledOld(p: seq<Line>, l: Layout, t: Track)
    requires t.c.pc < |p| && p[t.c.pc].Call?
    ensures OldCalled(l, t, p[t.c.pc].target, Next(p, l, t))
  {
    OldCallEffect(l, t, p[t.c.pc].target, Next(p, l, t));
  }

  lemma OldCallEffect(l: Layout, t: Track, target: nat, t': Track)
    requires var e := Wrap(t.c.s.r.esp - 4);
      && t'.c == Config(target, State(t.c.s.r.(esp := e), t.c.s.flags, Write32(t.c.s.mem, e, l.addr(t.c.pc + 1))))
      && t'.slots == t.slots + [Slot(e, t.c.pc + 1)] && t'.dirty == t.dirty + Span(e, 4)
    ensures OldCalled(l, t, target, t')
  {
    Write32Effect(t.c.s.mem, Wrap(t.c.s.r.esp - 4), l.addr(t.c.pc + 1));
  }

  lemma PushAX2(s: State, alu: Alu)
    ensures var s' := Exec(PushAX, s, alu);
            s'.r == s.r.(esp := Wrap(s.r.esp - 2)) && s'.flags == s.flags
            && s'.mem == Write16(s.mem, Wrap(s.r.esp - 2), s.r.eax % 0x1_0000)
            && Wrap(s'.r.esp - 2) == Wrap(s.r.esp - 4)
  {
    WrapAdd(s.r.esp - 2, -2);
  }

  lemma FinishCall(k: Control, l: Layout, c: Config)
    requires k.CallW? && l.addr(c.pc + 1) < 0x1_0000
    ensures var e := Wrap(c.s.r.esp - 2);
            Finish(k, l, c)
            == Config(k.target, State(c.s.r.(esp := e), c.s.flags, Write16(c.s.mem, e, l.addr(c.pc + 1))))
  {
  }

  lemma CalledNew(q: seq<NewLine>, l: Layout, c: Config, alu: Alu)
    requires c.pc < |q| && q[c.pc].insns == [PushAX] && q[c.pc].control.CallW? && l.addr(c.pc + 1) < 0x1_0000
    ensures NewCalled(l, c, q[c.pc].control.target, Step1(q, l, c, alu))
  {
    AllOne(PushAX, c.s, alu);
    PushAX2(c.s, alu);
    FinishCall(q[c.pc].control, l, Config(c.pc, Exec(PushAX, c.s, alu)));
    CallWrites(c.s.mem, c.s.r.esp, c.s.r.eax % 0x1_0000, l.addr(c.pc + 1));
  }

  lemma NewSlot(n: nat, l0: Layout, l1: Layout, t: Track, c: Config, t': Track, c': Config, x: Slot)
    requires Sim(n, l0, l1, t, c)
    requires t'.c.pc == c'.pc && t'.c.s.r == c'.s.r && t'.c.s.flags == c'.s.flags
    requires t'.slots == t.slots + [x] && t'.dirty == t.dirty + Span(x.at, 4)
    requires Agree(t.c.s.mem, t'.c.s.mem, Span(x.at, 4)) && Agree(c.s.mem, c'.s.mem, Span(x.at, 4))
    requires Span(x.at, 4) !! Live(t.slots)
    requires x.back <= n && Returns(x, t'.c.s.mem, c'.s.mem, l0, l1)
    ensures Sim(n, l0, l1, t', c')
  {
    KeepSlots(n, l0, l1, t, c, t'.c.s.mem, c'.s.mem, Span(x.at, 4));
    assert t'.slots[..|t.slots|] == t.slots;
  }

  /** `pushw %ax ; callw` fills the four bytes `calll` fills, the return address below. */
  lemma CallWrites(m: Mem, e: Word, ax: Half, back: Half)
    ensures var n := Write16(Write16(m, Wrap(e - 2), ax), Wrap(e - 4), back);
            Read16(n, Wrap(e - 4)) == back && Agree(m, n, Span(Wrap(e - 4), 4))
  {
    var m' := Write16(m, Wrap(e - 2), ax);
    Write16Effect(m, Wrap(e - 2), ax);
    Write16Effect(m', Wrap(e - 4), back);
    AgreeWrap(m, m', e - 2, 2);
    AgreeWrap(m', Write16(m', Wrap(e - 4), back), e - 4, 2);
    SpanParts(e - 4, 2, 2);
    SpanWrap(e - 4, 4);
  }

  lemma RetStep(p: seq<Line>, q: seq<NewLine>, l0: Layout, l1: Layout, alu: Alu, t: Track, c: Config)
    requires Rewritten(p, q) && Placed(l0, |p|) && Placed(l1, |p|)
    requires Sim(|p|, l0, l1, t, c) && Allowed(p, t) && p[t.c.pc].Ret?
    ensures Sim(|p|, l0, l1, Next(p, l0, t), Step1(q, l1, c, alu))
  {
    AllNone(c.s, alu);
    var x := t.slots[|t.slots| - 1];
    assert Returns(x, t.c.s.mem, c.s.mem, l0, l1);
    assert l0.at(l0.addr(x.back)) == x.back && l1.at(l1.addr(x.back)) == x.back;
  }

  lemma LeaveStep(p: seq<Line>, q: seq<NewLine>, l0: Layout, l1: Layout, alu: Alu, t: Track, c: Config)
    requires Rewritten(p, q)
    requires Sim(|p|, l0, l1, t, c) && Allowed(p, t) && p[t.c.pc].Leave?
    ensures Sim(|p|, l0, l1, Next(p, l0, t), Step1(q, l1, c, alu))
  {
    assert Fixed(p[c.pc]) == Some(q[c.pc]);
    LeaveNew(q, l1, c, alu);
    LeaveRelated(|p|, l0, l1, t, c, Next(p, l0, t), Step1(q, l1, c, alu));
  }

  /** What `leavel` does. */
  function Left(s: State): State {
    s.(r := s.r.(esp := Wrap(s.r.ebp + 4), ebp := Read32(s.mem, s.r.ebp)))
  }

  lemma LeaveNew(q: seq<NewLine>, l: Layout, c: Config, alu: Alu)
    requires c.pc < |q| && q[c.pc] == NewLine([MovL(Ebp, Esp), PopL(Ebp)], FallThrough)
    ensures Step1(q, l, c, alu) == Config(c.pc + 1, Left(c.s))
  {
    LeaveRuns(c.s, alu);
  }

  lemma LeaveRelated(n: nat, l0: Layout, l1: Layout, t: Track, c: Config, t': Track, c': Config)
    requires Sim(n, l0, l1, t, c) && Span(t.c.s.r.ebp, 4) !! t.dirty
    requires t' == Track(Config(t.c.pc + 1, Left(t.c.s)), t.slots, t.dirty) && c' == Config(c.pc + 1, Left(c.s))
    ensures Sim(n, l0, l1, t', c')
  {
    ReadWhole(t.c.s.mem, c.s.mem, t.dirty, c.s.r.ebp);
  }

  lemma LeaveRuns(s: State, alu: Alu)
    ensures All([MovL(Ebp, Esp), PopL(Ebp)], s, alu) == Left(s)
  {
    AllAppend([MovL(Ebp, Esp)], [PopL(Ebp)], s, alu);
    AllOne(MovL(Ebp, Esp), s, alu);
    AllOne(PopL(Ebp), Exec(MovL(Ebp, Esp), s, alu), alu);
    assert [MovL(Ebp, Esp)] + [PopL(Ebp)] == [MovL(Ebp, Esp), PopL(Ebp)];
  }

  lemma InSpan(a: int, k: nat)
    requires k < 4
    ensures Wrap(a + k) in Span(a, 4)
  {
    WrapAdd(a + k, 0 - a);
    assert Within(Wrap(a + k), a, 4);
  }

  lemma ReadWhole(m: Mem, l: Mem, d: set<int>, a: Word)
    requires Agree(m, l, d) && Span(a, 4) !! d
    ensures Read32(m, a) == Read32(l, a)
  {
    InSpan(a, 0);
    InSpan(a, 1);
    InSpan(a, 2);
    InSpan(a, 3);
    ReadFour(m, l, d, a);
  }

  /** What `leal` does. */
  ghost predicate OldLoaded(t: Track, op: Operands, t': Track) {
    var s := t.c.s;
    && t'.c == Config(t.c.pc + 1, s.(r := s.r.Set(op.dest, Address(op, s.r))))
    && t'.slots == t.slots && t'.dirty == t.dirty + Span(s.r.esp - 6, 6)
  }

  /** What the instructions emitted for it do. */
  ghost predicate NewLoaded(c: Config, op: Operands, c': Config) {
    && c'.pc == c.pc + 1 && c'.s.r == c.s.r.Set(op.dest, Address(op, c.s.r)) && c'.s.flags == c.s.flags
    && Agree(c.s.mem, c'.s.mem, Span(c.s.r.esp - 6, 6))
  }

  lemma LeaRelated(n: nat, l0: Layout, l1: Layout, t: Track, c: Config, op: Operands, t': Track, c': Config)
    requires Sim(n, l0, l1, t, c) && OldLoaded(t, op, t') && NewLoaded(c, op, c')
    requires Span(t.c.s.r.esp - 6, 6) !! Live(t.slots)
    ensures Sim(n, l0, l1, t', c')
  {
    Scribbled(n, l0, l1, t, c, t', c', Span(c.s.r.esp - 6, 6));
  }

  lemma OldLea(p: seq<Line>, l0: Layout, t: Track, op: Operands)
    requires t.c.pc < |p| && p[t.c.pc] == Lea(op) && op.dest != Esp
    ensures OldLoaded(t, op, Next(p, l0, t))
  {
  }

  lemma NewLea(q: seq<NewLine>, l1: Layout, alu: Alu, c: Config, op: Operands)
    requires (op.base.Some? || op.index.Some?) && op.dest != Esp && op.index != Some(Esp)
    requires c.pc < |q| && q[c.pc] == NewLine(Emitted(op), FallThrough)
    ensures NewLoaded(c, op, Step1(q, l1, c, alu))
  {
    EmittedMeansLeal(op, c.s, alu);
  }

  lemma LeaIntoEsp(p: seq<Line>, q: seq<NewLine>, l0: Layout, l1: Layout, alu: Alu, t: Track, c: Config, op: Operands)
    requires |p| == |q| && Sim(|p|, l0, l1, t, c) && Allowed(p, t) && p[t.c.pc] == Lea(op) && op.dest == Esp
    requires q[t.c.pc] == NewLine([], LeaW(op))
    ensures Sim(|p|, l0, l1, Next(p, l0, t), Step1(q, l1, c, alu))
  {
    AllNone(c.s, alu);
  }

  lemma LeaStep(p: seq<Line>, q: seq<NewLine>, l0: Layout, l1: Layout, alu: Alu, t: Track, c: Config)
    requires Rewritten(p, q)
    requires Sim(|p|, l0, l1, t, c) && Allowed(p, t) && p[t.c.pc].Lea?
    ensures Sim(|p|, l0, l1, Next(p, l0, t), Step1(q, l1, c, alu))
  {
    var op := p[c.pc].op;
    assert Assembles(p[c.pc]) && Fixed(p[c.pc]) == Some(q[c.pc]);
    if op.dest == Esp {
      LeaIntoEsp(p, q, l0, l1, alu, t, c, op);
    } else {
      OldLea(p, l0, t, op);
      NewLea(q, l1, alu, c, op);
      LeaRelated(|p|, l0, l1, t, c, op, Next(p, l0, t), Step1(q, l1, c, alu));
    }
  }

  /** The new program may write bytes that are no longer relied on, outside the return slots. */
  lemma Scribbled(n: nat, l0: Layout, l1: Layout, t: Track, c: Config, t': Track, c': Config, d: set<int>)
    requires Sim(n, l0, l1, t, c) && d !! Live(t.slots)
    requires t'.c.pc == c'.pc && t'.c.s.r == c'.s.r && t'.c.s.flags == c'.s.flags
    requires t'.c.s.mem == t.c.s.mem && t'.slots == t.slots && t'.dirty == t.dirty + d && Agree(c.s.mem, c'.s.mem, d)
    ensures Sim(n, l0, l1, t', c')
  {
    KeepSlots(n, l0, l1, t, c, t'.c.s.mem, c'.s.mem, d);
  }

  lemma PlainStep(p: seq<Line>, q: seq<NewLine>, l0: Layout, l1: Layout, alu: Alu, t: Track, c: Config)
    requires Rewritten(p, q)
    requires Sim(|p|, l0, l1, t, c) && Allowed(p, t) && p[t.c.pc].Plain?
    ensures Sim(|p|, l0, l1, Next(p, l0, t), Step1(q, l1, c, alu))
  {
    AllNone(c.s, alu);
    var m0, m1 := t.c.s.mem, c.s.mem;
    var a := p[c.pc].needs(c.s.r);
    BytesSame(m0, m1, a, |a|, t.dirty);
    var w := WritesOf(p, t.c);
    StoredAgree(m0, m1, w, t.dirty);
    KeepSlots(|p|, l0, l1, t, c, Stored(m0, w, |w|), Stored(m1, w, |w|), Touched(w));
  }

  /** Every allowed step of the old program is a step of the new one. */
  lemma StepSimulates(p: seq<Line>, q: seq<NewLine>, l0: Layout, l1: Layout, alu: Alu, t: Track, c: Config)
    requires Rewritten(p, q) && Placed(l0, |p|) && Placed(l1, |p|)
    requires Sim(|p|, l0, l1, t, c) && Allowed(p, t)
    ensures Sim(|p|, l0, l1, Next(p, l0, t), Step1(q, l1, c, alu))
  {
    match p[t.c.pc]
    case Ret => RetStep(p, q, l0, l1, alu, t, c);
    case Leave => LeaveStep(p, q, l0, l1, alu, t, c);
    case Call(_) => CallStep(p, q, l0, l1, alu, t, c);
    case Lea(_) => LeaStep(p, q, l0, l1, alu, t, c);
    case Plain(_, _) => PlainStep(p, q, l0, l1, alu, t, c);
  }

  // ---------- whole runs ----------

  function Original(p: seq<Line>, l: Layout, t: Track, n: nat): Track {
    if n == 0 then t else Next(p, l, Original(p, l, t, n - 1))
  }

  ghost predicate AllowedRun(p: seq<Line>, l: Layout, t: Track, n: nat) {
    n == 0 || (AllowedRun(p, l, t, n - 1) && Allowed(p, Original(p, l, t, n - 1)))
  }

  function New(q: seq<NewLine>, l: Layout, c: Config, alu: Alu, n: nat): Config {
    if n == 0 then c else Step1(q, l, New(q, l, c, alu, n - 1), alu)
  }

  /** The instrumented run is the original run. */
  lemma {:induction false} OriginalRuns(p: seq<Line>, l: Layout, t: Track, n: nat)
    ensures Original(p, l, t, n + 1).c == Step0(p, l, Original(p, l, t, n).c)
  {
    assert Original(p, l, t, n + 1) == Next(p, l, Original(p, l, t, n));
  }

  /**
   * From equal states, for as long as the steps of the old program are allowed, the new program
   * is at the same line with the same registers, flags and reliable bytes, and every return slot
   * leads both back to the same line - at any call depth and for any code layout.
   */
  lemma Simulates(p: seq<Line>, q: seq<NewLine>, l0: Layout, l1: Layout, alu: Alu, s: Config, n: nat)
    requires Rewritten(p, q) && Placed(l0, |p|) && Placed(l1, |p|)
    requires AllowedRun(p, l0, Track(s, [], {}), n)
    ensures Sim(|p|, l0, l1, Original(p, l0, Track(s, [], {}), n), New(q, l1, s, alu, n))
  {
    SimulatesFrom(p, q, l0, l1, alu, Track(s, [], {}), s, n);
  }

  lemma {:induction false} SimulatesFrom(p: seq<Line>, q: seq<NewLine>, l0: Layout, l1: Layout, alu: Alu, t: Track,
                                         c: Config, n: nat)
    requires Rewritten(p, q) && Placed(l0, |p|) && Placed(l1, |p|)
    requires Sim(|p|, l0, l1, t, c) && AllowedRun(p, l0, t, n)
    ensures Sim(|p|, l0, l1, Original(p, l0, t, n), New(q, l1, c, alu, n))
  {
    if n > 0 {
      SimulatesFrom(p, q, l0, l1, alu, t, c, n - 1);
      StepSimulates(p, q, l0, l1, alu, Original(p, l0, t, n - 1), New(q, l1, c, alu, n - 1));
    }
  }
}
