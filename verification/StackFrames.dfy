/** The frame of an interrupt, byte by byte. */
module StackFrames {
  import opened Common
  import opened Interrupts
  import opened Nesting

  /** The byte `k` below the stack pointer, or `-k` above it; offsets wrap at 64 kB, addresses at 1 MB. */
  ghost function StackAt(c: Cpu, k: int): nat {
    (c.ss as nat * 16 + (c.sp - k) % 0x1_0000) % 0x10_0000
  }

  lemma PushIsStack(c: Cpu, k: nat)
    ensures Push(c, k) == StackAt(c, 2 * k)
  {
    LinearIsMasked(c.ss, Down(c.sp, 2 * k));
  }

  /** The word `v` stands at address `a`, low byte first. */
  ghost predicate WordAt(m: Ram, a: nat, v: nat) {
    a < 0x10_0000 && m[a] as nat == v % 0x100 && m[(a + 1) % 0x10_0000] as nat == v / 0x100
  }

  lemma ReadIsWord(m: Ram, a: nat)
    requires a < RAM
    ensures WordAt(m, a, ReadWord(m, a))
  {
  }

  /** On the stack: FLAGS, below them CS, below that IP. */
  lemma FrameOnStack(m: Ram, c: Cpu)
    ensures var m' := Pushed(m, c);
            WordAt(m', StackAt(c, 2), GetFlags(c.flags)) && WordAt(m', StackAt(c, 4), c.cs)
            && WordAt(m', StackAt(c, 6), c.ip)
  {
    var m' := Pushed(m, c);
    PushedSaves(m, c);
    PushIsStack(c, 1);
    PushIsStack(c, 2);
    PushIsStack(c, 3);
    ReadIsWord(m', Push(c, 1));
    ReadIsWord(m', Push(c, 2));
    ReadIsWord(m', Push(c, 3));
  }

  /**
   * A handler starts at the address its vector holds, offset first, unless the frame was pushed
   * over it; six bytes lower on the same stack, with IF and TF clear and all else as before.
   */
  lemma HandlerStarts(m: Ram, c: Cpu, vec: Byte)
    requires var v := 4 * vec as nat; FrameBytes(c) !! {v, v + 1, v + 2, v + 3}
    ensures var e, v := Entered(m, c, vec), 4 * vec as nat;
            && e.ip == m[v] as nat + 0x100 * m[v + 1] as nat && e.cs == m[v + 2] as nat + 0x100 * m[v + 3] as nat
            && e.ss == c.ss && e.sp == (c.sp - 6) % 0x1_0000 && e.others == c.others
            && e.flags == c.flags.(i := false, t := false)
  {
    var v := 4 * vec as nat;
    PushedKeeps(m, c, v);
    PushedKeeps(m, c, v + 1);
    PushedKeeps(m, c, v + 2);
    PushedKeeps(m, c, v + 3);
  }

  /** The frame is six bytes; the others do not change. */
  lemma FrameIs(m: Ram, c: Cpu, x: nat)
    requires x < 0x10_0000
    requires forall k :: 1 <= k <= 3 ==> x != StackAt(c, 2 * k) && x != (StackAt(c, 2 * k) + 1) % 0x10_0000
    ensures x !in FrameBytes(c) && Pushed(m, c)[x] == m[x]
  {
    OutsideWord(c, 1, x);
    OutsideWord(c, 2, x);
    OutsideWord(c, 3, x);
    PushedKeeps(m, c, x);
  }

  lemma OutsideWord(c: Cpu, k: nat, x: nat)
    requires x != StackAt(c, 2 * k) && x != (StackAt(c, 2 * k) + 1) % 0x10_0000
    ensures x !in Word(Push(c, k))
  {
    PushIsStack(c, k);
  }

  /** IRET takes IP, CS and FLAGS from the stack, the lowest first. */
  lemma IretPops(m: Ram, c: Cpu, w: Half)
    requires WordAt(m, StackAt(c, -4), w)
    ensures var r := Iret(m, c);
            && WordAt(m, StackAt(c, 0), r.ip) && WordAt(m, StackAt(c, -2), r.cs) && r.flags == SetFlags(w)
            && r.sp == (c.sp + 6) % 0x1_0000 && r.ss == c.ss && r.others == c.others
  {
    WordOnStack(m, c, 0);
    WordOnStack(m, c, -2);
    WordOnStack(m, c, -4);
    OneWord(m, StackAt(c, -4), w, ReadWord(m, Linear(c.ss, Down(c.sp, -4))));
    IretReads(m, c);
  }

  lemma OneWord(m: Ram, a: nat, v: Half, w: Half)
    requires WordAt(m, a, v) && WordAt(m, a, w)
    ensures v == w
  {
    assert v == v / 0x100 * 0x100 + v % 0x100 && w == w / 0x100 * 0x100 + w % 0x100;
  }

  lemma IretReads(m: Ram, c: Cpu)
    ensures var r := Iret(m, c);
            && r.ip == ReadWord(m, Linear(c.ss, Down(c.sp, 0))) && r.cs == ReadWord(m, Linear(c.ss, Down(c.sp, -2)))
            && r.flags == SetFlags(ReadWord(m, Linear(c.ss, Down(c.sp, -4))))
            && r.sp == (c.sp + 6) % 0x1_0000 && r.ss == c.ss && r.others == c.others
  {
    assert Down(c.sp, 0) == c.sp;
  }

  lemma WordOnStack(m: Ram, c: Cpu, k: int)
    ensures WordAt(m, StackAt(c, k), ReadWord(m, Linear(c.ss, Down(c.sp, k))))
  {
    LinearIsMasked(c.ss, Down(c.sp, k));
    ReadIsWord(m, StackAt(c, k));
  }
}
