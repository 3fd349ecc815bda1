/** The interrupt controller and the loop of the emulator thread. */
module EmulatorLoop {
  import opened Common
  import opened Interrupts

  // ---------- the 8259 ----------

  const VECTOR_BASE := 0x08

  /** One bit per interrupt line. */
  type Lines = s: seq<bool> | |s| == 8 witness [false, false, false, false, false, false, false, false]

  predicate Ready(imr: Lines, pending: Lines, line: nat)
    requires line < 8
  {
    pending[line] && !imr[line]
  }

  /** The lowest line from `from` on that is pending and not masked. */
  function Lowest(imr: Lines, pending: Lines, from: nat): Option<nat>
    requires from <= 8
    decreases 8 - from
  {
    if from == 8 then None
    else if Ready(imr, pending, from) then Some(from)
    else Lowest(imr, pending, from + 1)
  }

  lemma {:induction false} LowestIs(imr: Lines, pending: Lines, from: nat)
    requires from <= 8
    ensures var r := Lowest(imr, pending, from);
            && (r.Some? ==> from <= r.value < 8 && Ready(imr, pending, r.value))
            && forall i :: from <= i < (if r.Some? then r.value else 8) ==> !Ready(imr, pending, i)
    decreases 8 - from
  {
    if from < 8 && !Ready(imr, pending, from) {
      LowestIs(imr, pending, from + 1);
    }
  }

  class Pic8259 {
    var imr: Lines
    var pending: Lines

    method SetMask(irq: nat, masked: bool)
      modifies `imr
      ensures imr == old(imr)[irq % 8 := masked]
    {
      imr := imr[irq % 8 := masked];
    }

    /** A masked line is ignored. */
    method AssertIrq(irq: nat)
      modifies `pending
      ensures pending == if imr[irq % 8] then old(pending) else old(pending)[irq % 8 := true]
    {
      if !imr[irq % 8] {
        pending := pending[irq % 8 := true];
      }
    }

    method DequeueNextVector() returns (vector: Option<Byte>)
      modifies `pending
      ensures var r := Lowest(imr, old(pending), 0);
              && r.Some? == vector.Some?
              && (r.None? ==> pending == old(pending))
              && (r.Some? ==> r.value < 8 && vector.value == VECTOR_BASE + r.value)
              && (r.Some? ==> pending == old(pending)[r.value := false])
    {
      LowestIs(imr, pending, 0);
      vector := None;
      var i := 0;
      while vector.None? && i < 8
        invariant 0 <= i <= 8
        invariant vector.None? ==> pending == old(pending) && Lowest(imr, pending, 0) == Lowest(imr, pending, i)
        invariant vector.Some? ==> i < 8 && Lowest(imr, old(pending), 0) == Some(i)
        invariant vector.Some? ==> vector.value == VECTOR_BASE + i && pending == old(pending)[i := false]
        decreases 8 - i, vector.None?
      {
        if pending[i] && !imr[i] {
          pending := pending[i := false];
          vector := Some(VECTOR_BASE + i);
        } else {
          i := i + 1;
        }
      }
    }
  }

  // ---------- one iteration ----------

  /** What happened, in order; `Raise` is an edge that made a line pending. */
  datatype Act = Raise(line: nat) | Delivery(line: nat) | Dispatch | Step

  /** What the BIOS tests answer, and the machine after a `Dispatch` or a `Step`. */
  datatype Outside = Outside(trapped: bool, blocked: bool, ram: Ram, cpu: Cpu, halted: bool)

  datatype Loop = Loop(cpu: Cpu, ram: Ram, halted: bool, imr: Lines, pending: Lines, executed: nat, log: seq<Act>)

  function Deliver(s: Loop, line: nat): Loop
    requires line < 8
  {
    s.(cpu := Entered(s.ram, s.cpu, VECTOR_BASE + line), ram := Pushed(s.ram, s.cpu), halted := false,
       pending := s.pending[line := false], executed := s.executed + 1, log := s.log + [Delivery(line)])
  }

  function Iterate(s: Loop, o: Outside): Loop {
    LowestIs(s.imr, s.pending, 0);
    var next := Lowest(s.imr, s.pending, 0);
    if s.cpu.flags.i && next.Some? then Deliver(s, next.value)
    else if s.halted || (o.trapped && o.blocked) then s
    else s.(cpu := o.cpu, ram := o.ram, halted := o.halted, executed := s.executed + 1,
            log := s.log + [if o.trapped then Dispatch else Step])
  }

  /** Between iterations devices raise lines and ports change the mask. */
  datatype Event = Iteration(o: Outside) | Assert(irq: nat) | Mask(irq: nat, masked: bool)

  function Next(s: Loop, e: Event): Loop {
    match e
    case Iteration(o) => Iterate(s, o)
    case Assert(irq) =>
      var line := irq % 8;
      if s.imr[line] || s.pending[line] then s
      else s.(pending := s.pending[line := true], log := s.log + [Raise(line)])
    case Mask(irq, masked) => s.(imr := s.imr[irq % 8 := masked])
  }

  class Emulator {
    const bus: Bus
    const st: X86State
    const pic: Pic8259
    var halted: bool
    var instructionsExecuted: nat
    ghost var log: seq<Act>

    constructor (bus: Bus, st: X86State, pic: Pic8259)
      ensures this.bus == bus && this.st == st && this.pic == pic
      ensures !halted && instructionsExecuted == 0 && log == []
    {
      this.bus, this.st, this.pic := bus, st, pic;
      halted, instructionsExecuted, log := false, 0, [];
    }

    ghost predicate Valid()
      reads this
    {
      bus.ram.Length == RAM
    }

    ghost function Value(): Loop
      requires Valid()
      reads this, st, pic, bus.ram
    {
      Loop(st.Value(), bus.ram[..], halted, pic.imr, pic.pending, instructionsExecuted, log)
    }

    /** `DeliverInterrupt`, `LoadState` and the counter; the line was taken from the controller before. */
    method DeliverVector(ghost was: Loop, line: nat)
      requires Valid() && line < 8
      requires Value() == was.(halted := false, pending := was.pending[line := false])
      modifies this, st, bus, bus.ram
      ensures Valid() && Value() == Deliver(was, line)
    {
      bus.DeliverInterrupt(VECTOR_BASE + line, st);
      instructionsExecuted := instructionsExecuted + 1;
      log := log + [Delivery(line)];
    }

    /** A BIOS dispatch or a CPU step, both outside this model, by their result. */
    method Perform(o: Outside, ghost act: Act)
      requires Valid()
      modifies this, st, bus.ram
      ensures Valid() && unchanged(pic)
      ensures var s := old(Value());
              Value() == s.(cpu := o.cpu, ram := o.ram, halted := o.halted, executed := s.executed + 1,
                            log := s.log + [act])
    {
      st.CS, st.IP, st.SS, st.SP := o.cpu.cs, o.cpu.ip, o.cpu.ss, o.cpu.sp;
      st.flags, st.others := o.cpu.flags, o.cpu.others;
      forall a | 0 <= a < RAM {
        bus.ram[a] := o.ram[a];
      }
      assert bus.ram[..] == o.ram;
      halted := o.halted;
      instructionsExecuted := instructionsExecuted + 1;
      log := log + [act];
    }

    /** The body of the loop in `EmulatorThreadProc`. */
    method Iteration(o: Outside)
      requires Valid()
      modifies this, st, pic`pending, bus, bus.ram
      ensures Valid() && Value() == Iterate(old(Value()), o)
    {
      ghost var s := Value();
      LowestIs(s.imr, s.pending, 0);
      if halted {
        if st.flags.i {
          var vecH := pic.DequeueNextVector();
          if vecH.Some? {
            halted := false;
            DeliverVector(s, vecH.value - VECTOR_BASE);
          }
        }
      } else {
        var vec := None;
        if st.flags.i {
          vec := pic.DequeueNextVector();
        }
        if vec.Some? {
          DeliverVector(s, vec.value - VECTOR_BASE);
        } else if o.trapped {
          if !o.blocked {
            Perform(o, Dispatch);
          }
        } else {
          Perform(o, Step);
        }
      }
    }

    /** A device raises a line. */
    method RaiseLine(irq: nat)
      requires Valid()
      modifies this`log, pic`pending
      ensures Valid() && Value() == Next(old(Value()), Assert(irq))
    {
      ghost var s := Value();
      pic.AssertIrq(irq);
      if !s.imr[irq % 8] && !s.pending[irq % 8] {
        log := log + [Raise(irq % 8)];
      }
    }

    /** A port masks or unmasks a line. */
    method MaskLine(irq: nat, masked: bool)
      requires Valid()
      modifies pic`imr
      ensures Valid() && Value() == Next(old(Value()), Mask(irq, masked))
    {
      pic.SetMask(irq, masked);
    }
  }

  // ---------- every run ----------

  function Run(s: Loop, es: seq<Event>, n: nat): Loop
    requires n <= |es|
  {
    if n == 0 then s else Next(Run(s, es, n - 1), es[n - 1])
  }

  function Count(log: seq<Act>, a: Act): nat {
    if log == [] then 0 else Count(log[..|log| - 1], a) + if log[|log| - 1] == a then 1 else 0
  }

  function Work(log: seq<Act>): nat {
    if log == [] then 0 else Work(log[..|log| - 1]) + if log[|log| - 1].Raise? then 0 else 1
  }

  /** The last thing the loop did. */
  function Latest(log: seq<Act>): Option<Act> {
    if log == [] then None
    else if log[|log| - 1].Raise? then Latest(log[..|log| - 1])
    else Some(log[|log| - 1])
  }

  /** Every delivery comes first, or after a step or a dispatch. */
  predicate Separated(log: seq<Act>) {
    log == [] || (Separated(log[..|log| - 1])
    && (log[|log| - 1].Delivery? ==> Latest(log[..|log| - 1]) in {None, Some(Dispatch), Some(Step)}))
  }

  ghost predicate Fresh(s: Loop) {
    s.executed == 0 && s.log == [] && forall i :: 0 <= i < 8 ==> !s.pending[i]
  }

  ghost predicate Invariant(s: Loop) {
    && s.executed == Work(s.log)
    && (forall i :: 0 <= i < 8 ==> Count(s.log, Raise(i)) == Count(s.log, Delivery(i)) + Bit(s.pending[i]))
    && (Latest(s.log).Some? && Latest(s.log).value.Delivery? ==> !s.cpu.flags.i)
    && Separated(s.log)
  }

  /** One more act. */
  lemma Appended(log: seq<Act>, a: Act)
    ensures var l := log + [a];
            && Work(l) == Work(log) + (if a.Raise? then 0 else 1)
            && Latest(l) == (if a.Raise? then Latest(log) else Some(a))
            && (Separated(l) <==> Separated(log) && (a.Delivery? ==> Latest(log) in {None, Some(Dispatch), Some(Step)}))
            && forall b :: Count(l, b) == Count(log, b) + if a == b then 1 else 0
  {
    assert (log + [a])[..|log|] == log;
  }

  lemma LatestKinds(log: seq<Act>)
    ensures Latest(log).None? || Latest(log).value.Delivery? || Latest(log) in {Some(Dispatch), Some(Step)}
  {
  }

  /** What an act may change. */
  ghost predicate Acted(s: Loop, a: Act, t: Loop) {
    && t.log == s.log + [a]
    && match a
       case Raise(l) =>
         l < 8 && !s.pending[l] && t.pending == s.pending[l := true] && t.executed == s.executed && t.cpu == s.cpu
       case Delivery(l) =>
         && l < 8 && s.pending[l] && t.pending == s.pending[l := false] && t.executed == s.executed + 1
         && s.cpu.flags.i && !t.cpu.flags.i
       case _ => t.pending == s.pending && t.executed == s.executed + 1
  }

  lemma ActedKeeps(s: Loop, a: Act, t: Loop)
    requires Invariant(s) && Acted(s, a, t)
    ensures Invariant(t)
  {
    LatestKinds(s.log);
    Appended(s.log, a);
  }

  lemma NextActs(s: Loop, e: Event)
    ensures var t := Next(s, e);
            || (t.log == s.log && t.pending == s.pending && t.executed == s.executed && t.cpu == s.cpu)
            || (|t.log| == |s.log| + 1 && Acted(s, t.log[|s.log|], t))
  {
    LowestIs(s.imr, s.pending, 0);
  }

  lemma NextKeeps(s: Loop, e: Event)
    requires Invariant(s)
    ensures Invariant(Next(s, e))
  {
    var t := Next(s, e);
    NextActs(s, e);
    if t.log != s.log {
      ActedKeeps(s, t.log[|s.log|], t);
    }
  }

  /**
   * In every run: the counter is deliveries plus dispatches plus steps; every edge that made a
   * line pending was delivered once or is still pending; no delivery follows another directly.
   */
  lemma {:induction false} EveryRun(s: Loop, es: seq<Event>, n: nat)
    requires Fresh(s) && n <= |es|
    ensures Invariant(Run(s, es, n))
  {
    if n > 0 {
      EveryRun(s, es, n - 1);
      NextKeeps(Run(s, es, n - 1), es[n - 1]);
    }
  }

  /** The act between two deliveries. */
  lemma {:induction false} Between(log: seq<Act>, i: nat, j: nat) returns (k: nat)
    requires Separated(log) && i < j < |log| && log[i].Delivery? && log[j].Delivery?
    ensures i < k < j && (log[k].Dispatch? || log[k].Step?)
  {
    if j < |log| - 1 {
      k := Between(log[..|log| - 1], i, j);
    } else {
      k := LatestAt(log[..j], i);
    }
  }

  lemma {:induction false} LatestAt(log: seq<Act>, i: nat) returns (k: nat)
    requires i < |log| && !log[i].Raise?
    ensures i <= k < |log| && Latest(log) == Some(log[k]) && !log[k].Raise?
  {
    k := |log| - 1;
    if log[k].Raise? {
      k := LatestAt(log[..k], i);
    }
  }

  /**
   * A vector is delivered only with IF set, from the lowest unmasked pending line, whose pending
   * bit it takes; a halted processor resumes only this way, and does nothing else meanwhile.
   */
  lemma DeliveredProperly(s: Loop, e: Event)
    ensures var t := Next(s, e);
            && (forall line: nat :: t.log == s.log + [Delivery(line)] ==>
                  && s.cpu.flags.i && line < 8 && Ready(s.imr, s.pending, line)
                  && (forall i :: 0 <= i < line ==> !Ready(s.imr, s.pending, i))
                  && t.pending == s.pending[line := false]
                  && t.cpu == Entered(s.ram, s.cpu, VECTOR_BASE + line) && !t.cpu.flags.i && !t.halted)
            && (s.halted && !t.halted ==> exists line: nat :: t.log == s.log + [Delivery(line)])
            && (s.halted ==> t.log != s.log + [Dispatch] && t.log != s.log + [Step])
  {
    LowestIs(s.imr, s.pending, 0);
    var t := Next(s, e);
    if t.log != s.log {
      assert t.log[|s.log|] == t.log[|t.log| - 1];
      forall a | t.log == s.log + [a]
        ensures a == t.log[|s.log|]
      {
      }
    }
  }

  /**
   * What one pass does: a ready line is delivered if IF is set, the lowest one as interrupt 8 plus
   * its number; otherwise a halted processor waits, and so does one blocked in a trap; otherwise
   * the trap is dispatched or an instruction is executed.
   */
  lemma PassDoes(s: Loop, o: Outside)
    ensures s.cpu.flags.i && SomeReady(s.imr, s.pending) ==>
              exists l: nat :: LowestLine(s.imr, s.pending, l)
                && Iterate(s, o) == s.(cpu := Entered(s.ram, s.cpu, 8 + l), ram := Pushed(s.ram, s.cpu),
                                       halted := false, pending := s.pending[l := false],
                                       executed := s.executed + 1, log := s.log + [Delivery(l)])
    ensures !(s.cpu.flags.i && SomeReady(s.imr, s.pending)) ==>
              Iterate(s, o) == if s.halted || (o.trapped && o.blocked) then s
                               else s.(cpu := o.cpu, ram := o.ram, halted := o.halted, executed := s.executed + 1,
                                       log := s.log + [if o.trapped then Dispatch else Step])
  {
    LowestReady(s.imr, s.pending);
    var l := Lowest(s.imr, s.pending, 0);
    if s.cpu.flags.i && l.Some? {
      assert Iterate(s, o) == Deliver(s, l.value);
      assert LowestLine(s.imr, s.pending, l.value);
    }
  }

  ghost predicate SomeReady(imr: Lines, pending: Lines) {
    exists i :: 0 <= i < 8 && pending[i] && !imr[i]
  }

  ghost predicate LowestLine(imr: Lines, pending: Lines, l: nat) {
    l < 8 && pending[l] && !imr[l] && forall i :: 0 <= i < l ==> !(pending[i] && !imr[i])
  }

  lemma LowestReady(imr: Lines, pending: Lines)
    ensures var l := Lowest(imr, pending, 0);
            if SomeReady(imr, pending) then l.Some? && LowestLine(imr, pending, l.value) else l == None
  {
    LowestIs(imr, pending, 0);
    forall i | 0 <= i < 8
      ensures Ready(imr, pending, i) <==> pending[i] && !imr[i]
    {
    }
  }

  /** Raising a line makes it pending unless it is masked; masking changes one bit of the mask. */
  lemma EventsDo(s: Loop, irq: nat, masked: bool, i: nat)
    requires i < 8
    ensures var t := Next(s, Assert(irq));
            && t.pending[i] == (s.pending[i] || (i == irq % 8 && !s.imr[i]))
            && t.imr == s.imr && t.cpu == s.cpu && t.ram == s.ram && t.halted == s.halted && t.executed == s.executed
            && t.log == if t.pending == s.pending then s.log else s.log + [Raise(irq % 8)]
    ensures var t := Next(s, Mask(irq, masked));
            t.imr[i] == (if i == irq % 8 then masked else s.imr[i]) && t == s.(imr := t.imr)
  {
  }
}
