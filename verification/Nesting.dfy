/** Interrupts inside interrupt handlers: every IRET finds the frame of its own interrupt. */
module Nesting {
  import opened Common
  import opened Interrupts

  /** `Compute` is any run of instructions of a handler, by its result. */
  datatype Event = Interrupt(vec: Byte) | Return | Compute(m: Ram, c: Cpu)

  /** `frames` are the processors whose interrupts have not returned, as they were interrupted. */
  datatype Nest = Nest(m: Ram, c: Cpu, frames: seq<Cpu>)

  function Do(s: Nest, e: Event): Nest {
    match e
    case Interrupt(vec) => Nest(Pushed(s.m, s.c), Entered(s.m, s.c, vec), s.frames + [s.c])
    case Return => Nest(s.m, Iret(s.m, s.c), if s.frames == [] then [] else s.frames[..|s.frames| - 1])
    case Compute(m, c) => Nest(m, c, s.frames)
  }

  function FrameBytes(c: Cpu): set<nat> {
    Word(Push(c, 1)) + Word(Push(c, 2)) + Word(Push(c, 3))
  }

  function LiveBytes(frames: seq<Cpu>): set<nat> {
    if frames == [] then {} else LiveBytes(frames[..|frames| - 1]) + FrameBytes(frames[|frames| - 1])
  }

  /** A handler leaves the live frames alone and returns with the stack pointer it started with. */
  ghost predicate May(s: Nest, e: Event) {
    match e
    case Interrupt(_) => FrameBytes(s.c) !! LiveBytes(s.frames)
    case Return =>
      && s.frames != []
      && s.c.ss == s.frames[|s.frames| - 1].ss
      && s.c.sp == Down(s.frames[|s.frames| - 1].sp, 6)
    case Compute(m, _) => forall x :: x in LiveBytes(s.frames) ==> 0 <= x < RAM && m[x] == s.m[x]
  }

  /** The frame of `f` is intact. */
  predicate Saved(m: Ram, f: Cpu) {
    ReadWord(m, Push(f, 1)) == GetFlags(f.flags) && ReadWord(m, Push(f, 2)) == f.cs && ReadWord(m, Push(f, 3)) == f.ip
  }

  ghost predicate Intact(s: Nest) {
    forall i :: 0 <= i < |s.frames| ==> Saved(s.m, s.frames[i])
  }

  // ---------- words on the stack ----------

  lemma WordsApart(ss: Half, o: Half, p: Half)
    requires o != p && o % 2 == p % 2
    ensures Word(Linear(ss, o)) !! Word(Linear(ss, p))
  {
    assert o + 2 <= p || p + 2 <= o;
  }

  lemma DownParity(sp: Half, n: nat)
    ensures Down(sp, 2 * n) % 2 == sp % 2
  {
    assert sp - 2 * n == 0x1_0000 * ((sp - 2 * n) / 0x1_0000) + Down(sp, 2 * n);
  }

  lemma DownApart(sp: Half, m: nat, n: nat)
    requires m < n <= m + 0x7FFF
    ensures Down(sp, 2 * m) != Down(sp, 2 * n)
  {
  }

  /** Pushes of the same stack that are less than a segment apart do not overlap. */
  lemma PushesApart(ss: Half, sp: Half, m: nat, n: nat)
    requires m < n <= m + 0x7FFF
    ensures Word(Linear(ss, Down(sp, 2 * m))) !! Word(Linear(ss, Down(sp, 2 * n)))
  {
    DownParity(sp, m);
    DownParity(sp, n);
    DownApart(sp, m, n);
    WordsApart(ss, Down(sp, 2 * m), Down(sp, 2 * n));
  }

  lemma PushedSaves(m: Ram, c: Cpu)
    ensures Saved(Pushed(m, c), c)
  {
    PushesApart(c.ss, c.sp, 1, 2);
    PushesApart(c.ss, c.sp, 1, 3);
    PushesApart(c.ss, c.sp, 2, 3);
    var m1 := WriteWord(m, Push(c, 1), GetFlags(c.flags));
    var m2 := WriteWord(m1, Push(c, 2), c.cs);
    WordReadsBack(m, Push(c, 1), GetFlags(c.flags));
    WordReadsBack(m1, Push(c, 2), c.cs);
    WordReadsBack(m2, Push(c, 3), c.ip);
    WordKept(m1, Push(c, 2), c.cs, Push(c, 1));
    WordKept(m2, Push(c, 3), c.ip, Push(c, 1));
    WordKept(m2, Push(c, 3), c.ip, Push(c, 2));
  }

  lemma PushedKeeps(m: Ram, c: Cpu, x: nat)
    requires x < RAM && x !in FrameBytes(c)
    ensures Pushed(m, c)[x] == m[x]
  {
  }

  lemma {:induction false} FrameIsLive(frames: seq<Cpu>, i: nat)
    requires i < |frames|
    ensures FrameBytes(frames[i]) <= LiveBytes(frames)
  {
    if i < |frames| - 1 {
      FrameIsLive(frames[..|frames| - 1], i);
    }
  }

  lemma SavedKept(m: Ram, n: Ram, f: Cpu)
    requires Saved(m, f) && forall x :: x in FrameBytes(f) ==> x < RAM && m[x] == n[x]
    ensures Saved(n, f)
  {
    assert Push(f, 1) in FrameBytes(f) && After(Push(f, 1)) in FrameBytes(f);
    assert Push(f, 2) in FrameBytes(f) && After(Push(f, 2)) in FrameBytes(f);
    assert Push(f, 3) in FrameBytes(f) && After(Push(f, 3)) in FrameBytes(f);
  }

  // ---------- steps ----------

  lemma OthersKept(s: Nest, i: nat)
    requires Intact(s) && i < |s.frames| && FrameBytes(s.c) !! LiveBytes(s.frames)
    ensures Saved(Pushed(s.m, s.c), s.frames[i])
  {
    FrameIsLive(s.frames, i);
    forall x | x in FrameBytes(s.frames[i])
      ensures x < RAM && s.m[x] == Pushed(s.m, s.c)[x]
    {
      PushedKeeps(s.m, s.c, x);
    }
    SavedKept(s.m, Pushed(s.m, s.c), s.frames[i]);
  }

  lemma ComputeKeeps(s: Nest, m: Ram, c: Cpu)
    requires Intact(s) && May(s, Compute(m, c))
    ensures Intact(Do(s, Compute(m, c)))
  {
    forall i | 0 <= i < |s.frames|
      ensures Saved(m, s.frames[i])
    {
      FrameIsLive(s.frames, i);
      SavedKept(s.m, m, s.frames[i]);
    }
  }

  lemma StepKeeps(s: Nest, e: Event)
    requires Intact(s) && May(s, e)
    ensures Intact(Do(s, e))
  {
    match e
    case Interrupt(_) =>
      PushedSaves(s.m, s.c);
      forall i | 0 <= i < |s.frames|
        ensures Saved(Pushed(s.m, s.c), s.frames[i])
      {
        OthersKept(s, i);
      }
    case Return =>
    case Compute(m, c) => ComputeKeeps(s, m, c);
  }

  /** `c` continues where `f` was interrupted. */
  predicate Resumes(c: Cpu, f: Cpu) {
    c.cs == f.cs && c.ip == f.ip && c.ss == f.ss && c.sp == f.sp && c.flags == f.flags
  }

  lemma ReturnResumes(s: Nest)
    requires Intact(s) && May(s, Return)
    ensures Resumes(Do(s, Return).c, s.frames[|s.frames| - 1])
  {
    var f := s.frames[|s.frames| - 1];
    assert Saved(s.m, f);
    PopsFrame(s.m, s.c, f);
  }

  /** IRET with the stack pointer below the frame of `f`. */
  lemma PopsFrame(m: Ram, c: Cpu, f: Cpu)
    requires Saved(m, f) && c.ss == f.ss && c.sp == Down(f.sp, 6)
    ensures Resumes(Iret(m, c), f)
  {
    PopAt(f.sp, c.sp);
    FlagsRoundTrip(f.flags);
  }

  lemma PopAt(sp: Half, below: Half)
    requires below == Down(sp, 6)
    ensures Down(below, -2) == Down(sp, 4) && Down(below, -4) == Down(sp, 2) && Down(below, -6) == sp
  {
    DownDown(sp, 6, -2);
    DownDown(sp, 6, -4);
    DownDown(sp, 6, -6);
  }

  // ---------- runs ----------

  /** The states of a run from a processor that handles no interrupt. */
  ghost predicate IsRun(t: seq<Nest>, es: seq<Event>) {
    && |t| == |es| + 1 && t[0].frames == []
    && forall k :: 0 <= k < |es| ==> IsStep(t[k], es[k], t[k + 1])
  }

  ghost predicate IsStep(s: Nest, e: Event, s': Nest) {
    May(s, e) && s' == Do(s, e)
  }

  lemma {:induction false} RunIntact(t: seq<Nest>, es: seq<Event>, n: nat)
    requires IsRun(t, es) && n <= |es|
    ensures Intact(t[n])
  {
    if n > 0 {
      RunIntact(t, es, n - 1);
      assert IsStep(t[n - 1], es[n - 1], t[n]);
      StepKeeps(t[n - 1], es[n - 1]);
    }
  }

  lemma StepFrames(s: Nest, e: Event, s': Nest)
    requires IsStep(s, e, s')
    ensures s'.frames == match e
                         case Interrupt(_) => s.frames + [s.c]
                         case Return => s.frames[..|s.frames| - 1]
                         case Compute(_, _) => s.frames
  {
  }

  /** While an interrupt is being handled, its frame stays where it was pushed. */
  lemma {:induction false} FrameStays(t: seq<Nest>, es: seq<Event>, a: nat, k: nat)
    requires IsRun(t, es) && a < k <= |es| && es[a].Interrupt?
    requires forall j :: a < j <= k ==> |t[j].frames| > |t[a].frames|
    ensures t[k].frames[..|t[a].frames| + 1] == t[a].frames + [t[a].c]
  {
    assert IsStep(t[k - 1], es[k - 1], t[k]);
    StepFrames(t[k - 1], es[k - 1], t[k]);
    if k > a + 1 {
      FrameStays(t, es, a, k - 1);
    }
  }

  /**
   * The return that brings the nesting back to where it was before interrupt `a` resumes exactly
   * what `a` interrupted, whatever handlers, nested interrupts and computations came between;
   * and the handler of `a` started with IF and TF clear.
   */
  lemma Lifo(t: seq<Nest>, es: seq<Event>, a: nat, b: nat)
    requires IsRun(t, es) && a < b < |es| && es[a].Interrupt? && es[b].Return?
    requires forall j :: a < j <= b ==> |t[j].frames| > |t[a].frames|
    requires |t[b + 1].frames| == |t[a].frames|
    ensures Resumes(t[b + 1].c, t[a].c)
    ensures !t[a + 1].c.flags.i && !t[a + 1].c.flags.t
  {
    RunIntact(t, es, b);
    FrameStays(t, es, a, b);
    assert IsStep(t[a], es[a], t[a + 1]);
    assert IsStep(t[b], es[b], t[b + 1]);
    StepFrames(t[b], es[b], t[b + 1]);
    ReturnResumes(t[b]);
    assert t[b].frames == t[b].frames[..|t[a].frames| + 1];
  }

  // ---------- deliveries followed by as many returns ----------

  ghost predicate IsNext(s: Nest, e: Event, s': Nest) {
    s' == Do(s, e)
  }

  /** `n` interrupts, each before the handler of the one before has done anything, then `n` returns. */
  ghost predicate InAndOut(t: seq<Nest>, es: seq<Event>, n: nat) {
    && |es| == 2 * n && |t| == |es| + 1 && t[0].frames == []
    && (forall k :: 0 <= k < |es| ==> IsNext(t[k], es[k], t[k + 1]))
    && (forall k :: 0 <= k < n ==> es[k].Interrupt?)
    && (forall k :: n <= k < 2 * n ==> es[k].Return?)
  }

  lemma InterruptStep(s: Nest, e: Event, s': Nest)
    requires IsNext(s, e, s') && e.Interrupt?
    ensures s'.frames == s.frames + [s.c] && s'.c.ss == s.c.ss && s'.c.sp == Down(s.c.sp, 6)
  {
  }

  /** Delivered one after the other, the frames lie one below the other. */
  lemma {:induction false} Delivered(t: seq<Nest>, es: seq<Event>, n: nat, k: nat)
    requires InAndOut(t, es, n) && k <= n
    ensures t[k].c.ss == t[0].c.ss && t[k].c.sp == Down(t[0].c.sp, 6 * k) && |t[k].frames| == k
  {
    if k > 0 {
      Delivered(t, es, n, k - 1);
      DeliveredOne(t[0].c, t[k - 1], es[k - 1], t[k], k - 1);
    }
  }

  lemma DeliveredOne(c: Cpu, s: Nest, e: Event, s': Nest, k: nat)
    requires IsNext(s, e, s') && e.Interrupt?
    requires s.c.ss == c.ss && s.c.sp == Down(c.sp, 6 * k) && |s.frames| == k
    ensures s'.c.ss == c.ss && s'.c.sp == Down(c.sp, 6 * (k + 1)) && |s'.frames| == k + 1
  {
    InterruptStep(s, e, s');
    DownDown(c.sp, 6 * k, 6);
  }

  /** As long as the frames fit in the 64 kB of the segment, they do not overlap. */
  lemma {:induction false} FramesApart(t: seq<Nest>, es: seq<Event>, n: nat, m: nat, k: nat)
    requires InAndOut(t, es, n) && k <= m < n && 6 * n <= 0x1_0000
    ensures FrameBytes(t[m].c) !! LiveBytes(t[k].frames)
  {
    Delivered(t, es, n, k);
    if k > 0 {
      FramesApart(t, es, n, m, k - 1);
      Delivered(t, es, n, k - 1);
      Delivered(t, es, n, m);
      TwoFramesApart(t[0].c.ss, t[0].c.sp, k - 1, m, t[k - 1].c, t[m].c);
      OneFrameMore(t[k - 1], es[k - 1], t[k], t[m].c);
    }
  }

  lemma OneFrameMore(s: Nest, e: Event, s': Nest, d: Cpu)
    requires IsNext(s, e, s') && e.Interrupt?
    requires FrameBytes(d) !! LiveBytes(s.frames) && FrameBytes(d) !! FrameBytes(s.c)
    ensures FrameBytes(d) !! LiveBytes(s'.frames)
  {
    InterruptStep(s, e, s');
    LiveGrows(s.frames, s.c);
  }

  lemma LiveGrows(frames: seq<Cpu>, c: Cpu)
    ensures LiveBytes(frames + [c]) == LiveBytes(frames) + FrameBytes(c)
  {
    assert (frames + [c])[..|frames|] == frames;
  }

  lemma TwoFramesApart(ss: Half, sp: Half, k: nat, n: nat, c: Cpu, d: Cpu)
    requires k < n && 6 * (n + 1) <= 0x1_0000
    requires c.ss == d.ss == ss && c.sp == Down(sp, 6 * k) && d.sp == Down(sp, 6 * n)
    ensures FrameBytes(d) !! FrameBytes(c)
  {
    OneFromFrame(ss, sp, k, n, c, d, 1);
    OneFromFrame(ss, sp, k, n, c, d, 2);
    OneFromFrame(ss, sp, k, n, c, d, 3);
  }

  /** One word of the upper frame. */
  lemma OneFromFrame(ss: Half, sp: Half, k: nat, n: nat, c: Cpu, d: Cpu, i: nat)
    requires k < n && 6 * (n + 1) <= 0x1_0000 && 1 <= i <= 3
    requires c.ss == d.ss == ss && c.sp == Down(sp, 6 * k) && d.sp == Down(sp, 6 * n)
    ensures FrameBytes(d) !! Word(Push(c, i))
  {
    OneFromOne(ss, sp, k, n, c, d, i, 1);
    OneFromOne(ss, sp, k, n, c, d, i, 2);
    OneFromOne(ss, sp, k, n, c, d, i, 3);
  }

  lemma OneFromOne(ss: Half, sp: Half, k: nat, n: nat, c: Cpu, d: Cpu, i: nat, j: nat)
    requires k < n && 6 * (n + 1) <= 0x1_0000 && 1 <= i <= 3 && 1 <= j <= 3
    requires c.ss == d.ss == ss && c.sp == Down(sp, 6 * k) && d.sp == Down(sp, 6 * n)
    ensures Word(Push(c, i)) !! Word(Push(d, j))
  {
    PushAt(sp, k, c, i, 3 * k + i);
    PushAt(sp, n, d, j, 3 * n + j);
    PushesApart(ss, sp, 3 * k + i, 3 * n + j);
  }

  /** The pushes of the `k`th interrupt, counted from the stack pointer of the first. */
  lemma PushAt(sp: Half, k: nat, c: Cpu, i: nat, m: nat)
    requires c.sp == Down(sp, 6 * k) && m == 3 * k + i
    ensures Push(c, i) == Linear(c.ss, Down(sp, 2 * m))
  {
    DownDown(sp, 6 * k, 2 * i);
  }

  lemma {:induction false} DeliveredIntact(t: seq<Nest>, es: seq<Event>, n: nat, k: nat)
    requires InAndOut(t, es, n) && k <= n && 6 * n <= 0x1_0000
    ensures Intact(t[k])
  {
    if k > 0 {
      DeliveredIntact(t, es, n, k - 1);
      FramesApart(t, es, n, k - 1, k - 1);
      DeliveryKeeps(t[k - 1], es[k - 1], t[k]);
    }
  }

  lemma DeliveryKeeps(s: Nest, e: Event, s': Nest)
    requires Intact(s) && IsNext(s, e, s') && e.Interrupt? && FrameBytes(s.c) !! LiveBytes(s.frames)
    ensures Intact(s')
  {
    StepKeeps(s, e);
  }

  lemma OneReturn(s: Nest, s': Nest, f: Nest, g: Nest)
    requires Intact(s) && IsNext(s, Return, s')
    requires s.frames == g.frames == f.frames + [f.c]
    requires s.c.ss == f.c.ss && s.c.sp == Down(f.c.sp, 6)
    ensures Intact(s') && s'.frames == f.frames && Resumes(s'.c, f.c)
  {
    StepKeeps(s, Return);
    ReturnResumes(s);
    assert s.frames[..|f.frames|] == f.frames;
  }

  /** All frames of `s` are intact, and they and the processor are those of `f`. */
  ghost predicate Unwound(s: Nest, f: Nest) {
    Intact(s) && s.frames == f.frames && Resumes(s.c, f.c)
  }

  /** Each return finds the processor as before the matching delivery. */
  lemma {:induction false} Unwinds(t: seq<Nest>, es: seq<Event>, n: nat, j: nat)
    requires InAndOut(t, es, n) && 6 * n <= 0x1_0000 && j <= n
    ensures Unwound(t[n + j], t[n - j])
  {
    if j == 0 {
      DeliveredIntact(t, es, n, n);
    } else {
      Unwinds(t, es, n, j - 1);
      Matching(t, es, n, j);
      OneUnwound(t[n + j - 1], es[n + j - 1], t[n + j], t[n - j], es[n - j], t[n - j + 1]);
    }
  }

  lemma Matching(t: seq<Nest>, es: seq<Event>, n: nat, j: nat)
    requires InAndOut(t, es, n) && 1 <= j <= n
    ensures IsNext(t[n + j - 1], es[n + j - 1], t[n + j]) && es[n + j - 1].Return?
    ensures IsNext(t[n - j], es[n - j], t[n - j + 1]) && es[n - j].Interrupt?
  {
  }

  /** A return against the matching delivery. */
  lemma OneUnwound(s: Nest, r: Event, s': Nest, f: Nest, e: Event, g: Nest)
    requires IsNext(s, r, s') && r.Return? && IsNext(f, e, g) && e.Interrupt?
    requires Unwound(s, g)
    ensures Unwound(s', f)
  {
    InterruptStep(f, e, g);
    OneReturn(s, s', f, g);
  }

  /** `n` deliveries and `n` returns restore the interrupted processor, with SP counted modulo 2^16. */
  lemma DeliverAndReturn(t: seq<Nest>, es: seq<Event>, n: nat)
    requires InAndOut(t, es, n) && 6 * n <= 0x1_0000
    ensures Resumes(t[2 * n].c, t[0].c)
  {
    Unwinds(t, es, n, n);
  }
}
