/** `findReachable`: the worklist that keeps the sections an anchor leads to. */
module Reachability {
  import opened Common
  import opened Sections

  // ---------- resolving a relocation by name ----------

  /** `symbols[fileid][name]` */
  datatype SymbolTables =
    SymbolTables(code16: map<string, Symbol>, seg32: map<string, Symbol>, flat32: map<string, Symbol>)
  {
    function Of(file: FileId): map<string, Symbol> {
      match file case File16 => code16 case File32Seg => seg32 case File32Flat => flat32
    }
  }

  function FileName(file: FileId): string {
    match file case File16 => "16" case File32Seg => "32seg" case File32Flat => "32flat"
  }

  /** `part in s` on strings. */
  predicate Contains(s: string, part: string) {
    part <= s || (s != [] && Contains(s[1..], part))
  }

  /** The symbol a name stands for in one file, unless the section or the kind of call rules it out. */
  function KeepSym(symbolname: string, syms: map<string, Symbol>, file: FileId, isxref: bool): Option<Symbol> {
    var mustbecfunc := "_cfunc" <= symbolname;
    var symprefix := "_cfunc" + FileName(file) + "_";
    if mustbecfunc && !(symprefix <= symbolname) then None
    else
      var name := if mustbecfunc then symbolname[|symprefix|..] else symbolname;
      if name !in syms || syms[name].section.None? || ".discard." <= syms[name].section.value.name then None
      else
        var section := syms[name].section.value;
        var isdestcfunc := ".text." <= section.name && !(".text.asm." <= section.name);
        if (mustbecfunc && !isdestcfunc) || (!mustbecfunc && isdestcfunc && isxref) then None
        else Some(syms[name])
  }

  /** First in the section's own file, then as a cross reference in the others, in this order. */
  function Keep(symbolname: string, file: FileId, tables: SymbolTables): Option<Symbol> {
    var own := KeepSym(symbolname, tables.Of(file), file, false);
    var x16 := if file != File16 then KeepSym(symbolname, tables.code16, File16, true) else None;
    var xseg := if file != File32Seg then KeepSym(symbolname, tables.seg32, File32Seg, true) else None;
    var xflat := if file != File32Flat then KeepSym(symbolname, tables.flat32, File32Flat, true) else None;
    if own.Some? then own else if x16.Some? then x16 else if xseg.Some? then xseg else xflat
  }

  method CheckKeepSym(reloc: Reloc, syms: map<string, Symbol>, file: FileId, isxref: bool) returns (ret: bool)
    modifies reloc
    ensures ret <==> KeepSym(reloc.symbolname, syms, file, isxref).Some?
    ensures reloc.symbol == if ret then KeepSym(reloc.symbolname, syms, file, isxref).value else old(reloc.symbol)
  {
    var symbolname := reloc.symbolname;
    var mustbecfunc := "_cfunc" <= symbolname;
    if mustbecfunc {
      var symprefix := "_cfunc" + FileName(file) + "_";
      if !(symprefix <= symbolname) {
        return false;
      }
      symbolname := symbolname[|symprefix|..];
    }
    if symbolname !in syms || syms[symbolname].section.None? || ".discard." <= syms[symbolname].section.value.name {
      return false;
    }
    var section := syms[symbolname].section.value;
    var isdestcfunc := ".text." <= section.name && !(".text.asm." <= section.name);
    if (mustbecfunc && !isdestcfunc) || (!mustbecfunc && isdestcfunc && isxref) {
      return false;
    }
    reloc.symbol := syms[symbolname];
    return true;
  }

  method CheckKeep(reloc: Reloc, section: Section, tables: SymbolTables) returns (ret: bool)
    modifies reloc
    ensures ret <==> Keep(reloc.symbolname, section.fileid, tables).Some?
    ensures reloc.symbol == if ret then Keep(reloc.symbolname, section.fileid, tables).value else old(reloc.symbol)
  {
    ret := CheckKeepSym(reloc, tables.Of(section.fileid), section.fileid, false);
    if !ret && section.fileid != File16 {
      ret := CheckKeepSym(reloc, tables.code16, File16, true);
    }
    if !ret && section.fileid != File32Seg {
      ret := CheckKeepSym(reloc, tables.seg32, File32Seg, true);
    }
    if !ret && section.fileid != File32Flat {
      ret := CheckKeepSym(reloc, tables.flat32, File32Flat, true);
    }
  }

  // ---------- the two ways of checking a relocation ----------

  /** `checkreloc` and its `data`. */
  datatype Check = CheckKeepIn(tables: SymbolTables) | CheckRuntime

  /** What a relocation leads to. */
  datatype Step = Skip | Follow(section: Section) | Fail(section: Section)

  /** Under `checkKeep` the step depends on names alone, not on what the relocation pointed to before. */
  function KeepStep(reloc: Reloc, section: Section, tables: SymbolTables): Step {
    var k := Keep(reloc.symbolname, section.fileid, tables);
    if k.Some? && k.value.section.Some? then Follow(k.value.section.value) else Skip
  }

  function RuntimeStep(symbol: Symbol): Step {
    if symbol.section.None? || Contains(symbol.section.value.name, ".init.") then Skip
    else if Contains(symbol.section.value.name, ".data.varinit.") then Fail(symbol.section.value)
    else Follow(symbol.section.value)
  }

  function StepOf(check: Check, reloc: Reloc, section: Section): Step
    reads reloc
  {
    match check
    case CheckKeepIn(tables) => KeepStep(reloc, section, tables)
    case CheckRuntime => RuntimeStep(reloc.symbol)
  }

  method CheckReloc(check: Check, reloc: Reloc, section: Section) returns (step: Step)
    modifies reloc
    ensures step == old(StepOf(check, reloc, section)) == StepOf(check, reloc, section)
    ensures step.Follow? ==> reloc.symbol.section == Some(step.section)
    ensures check.CheckRuntime? || step.Skip? ==> reloc.symbol == old(reloc.symbol)
  {
    match check {
      case CheckKeepIn(tables) =>
        var ret := CheckKeep(reloc, section, tables);
        step := if ret then Follow(reloc.symbol.section.value) else Skip;
      case CheckRuntime =>
        step := RuntimeStep(reloc.symbol);
    }
  }

  // ---------- the graph ----------

  /** The step of relocation `i` of a section. */
  type Steps = (Section, nat) -> Step

  /** Where following the relocations numbered `p` leads, starting from section `a`. */
  ghost function Walk(g: Steps, a: Section, p: seq<nat>): Option<Section> {
    if p == [] then Some(a)
    else
      var s := Walk(g, a, p[..|p| - 1]);
      var i := p[|p| - 1];
      if s.Some? && i < |s.value.relocs| && g(s.value, i).Follow? then Some(g(s.value, i).section) else None
  }

  /** The names of the sections the walk leaves behind. */
  ghost function Trail(g: Steps, a: Section, p: seq<nat>): seq<string> {
    if p == [] then []
    else
      var s := Walk(g, a, p[..|p| - 1]);
      Trail(g, a, p[..|p| - 1]) + (if s.Some? then [s.value.name] else [])
  }

  ghost predicate Reachable(g: Steps, anchors: seq<Section>, s: Section) {
    exists k: nat, p: seq<nat> :: k < |anchors| && Walk(g, anchors[k], p) == Some(s)
  }

  /** A chain as it is stored: the names along a walk from an anchor to `s`. */
  ghost predicate ChainOf(g: Steps, anchors: seq<Section>, chain: seq<string>, s: Section) {
    exists k: nat, p: seq<nat> ::
      k < |anchors| && Walk(g, anchors[k], p) == Some(s) && chain == Trail(g, anchors[k], p)
  }

  /** All targets of a section's first `n` relocations are in `c`. */
  ghost predicate TargetsIn(g: Steps, s: Section, n: nat, c: set<Section>) {
    forall i :: 0 <= i < n ==> (g(s, i).Follow? ==> g(s, i).section in c)
  }

  ghost predicate Closed(g: Steps, c: set<Section>) {
    forall s :: s in c ==> TargetsIn(g, s, |s.relocs|, c)
  }

  /** Whatever contains the anchors and is closed contains every reachable section. */
  lemma {:induction false} WalkStaysInClosed(g: Steps, a: Section, p: seq<nat>, c: set<Section>)
    requires Closed(g, c) && a in c
    ensures Walk(g, a, p).Some? ==> Walk(g, a, p).value in c
  {
    if p != [] {
      WalkStaysInClosed(g, a, p[..|p| - 1], c);
    }
  }

  lemma ChainStep(g: Steps, anchors: seq<Section>, chain: seq<string>, s: Section, i: nat)
    requires ChainOf(g, anchors, chain, s) && i < |s.relocs| && g(s, i).Follow?
    ensures ChainOf(g, anchors, chain + [s.name], g(s, i).section)
  {
    var k: nat, p: seq<nat> :| k < |anchors| && Walk(g, anchors[k], p) == Some(s) && chain == Trail(g, anchors[k], p);
    var q := p + [i];
    assert q[..|q| - 1] == p;
    assert Walk(g, anchors[k], q) == Some(g(s, i).section);
  }

  /** The anchors are among all sections, which are closed under following relocations. */
  ghost predicate Within(g: Steps, anchors: seq<Section>, all: set<Section>) {
    (forall k :: 0 <= k < |anchors| ==> anchors[k] in all) && Closed(g, all)
  }

  /** All sections, with all their relocations. */
  datatype Program = Program(sections: set<Section>, relocs: set<Reloc>)

  /** The graph `check` sees at this moment. */
  ghost predicate Sees(g: Steps, check: Check, all: Program)
    reads all.relocs
  {
    forall s, i :: s in all.sections && 0 <= i < |s.relocs| ==>
      s.relocs[i] in all.relocs && g(s, i) == StepOf(check, s.relocs[i], s)
  }

  // ---------- the worklist ----------

  /** `sys.exit`: `section` is used, by way of `chain`, from `origin`. */
  datatype Failure = Failure(section: Section, origin: Section, chain: seq<string>)

  type Chains = map<Section, seq<string>>

  /** `anchorsections`, `pending`, and whether the script has exited. */
  datatype Work = Work(reached: Chains, pending: seq<Section>, failed: Option<Failure>)

  /** The effect of the first `n` relocations of `section`. */
  ghost function Visited(g: Steps, section: Section, chain: seq<string>, n: nat, w: Work): Work {
    if n == 0 then w
    else
      var v := Visited(g, section, chain, n - 1, w);
      if v.failed.Some? then v
      else match g(section, n - 1)
        case Skip => v
        case Fail(t) => v.(failed := Some(Failure(t, section, chain)))
        case Follow(t) =>
          if t in v.reached then v else Work(v.reached[t := chain], v.pending + [t], None)
  }

  /** The `for reloc in section.relocs` loop. */
  method Visit(check: Check, section: Section, chain: seq<string>, ghost g: Steps, ghost all: Program, w0: Work)
    returns (w: Work)
    requires section in all.sections && Sees(g, check, all) && w0.failed.None?
    modifies all.relocs
    ensures Sees(g, check, all)
    ensures w == Visited(g, section, chain, |section.relocs|, w0)
  {
    w := w0;
    var n := |section.relocs|;
    var i := 0;
    while w.failed.None? && i < n
      invariant 0 <= i <= n && Sees(g, check, all) && w == Visited(g, section, chain, i, w0)
    {
      w := VisitReloc(check, section, chain, i, g, all, w0, w);
      i := i + 1;
    }
    if w.failed.Some? {
      FailedStays(g, section, chain, i, n, w0);
    }
  }

  /** One relocation. */
  method VisitReloc(check: Check, section: Section, chain: seq<string>, i: nat, ghost g: Steps, ghost all: Program,
                    ghost w0: Work, w: Work)
    returns (v: Work)
    requires section in all.sections && Sees(g, check, all) && i < |section.relocs|
    requires w.failed.None? && w == Visited(g, section, chain, i, w0)
    modifies all.relocs
    ensures Sees(g, check, all) && v == Visited(g, section, chain, i + 1, w0)
  {
    var step := CheckReloc(check, section.relocs[i], section);
    match step {
      case Skip => v := w;
      case Fail(t) => v := w.(failed := Some(Failure(t, section, chain)));
      case Follow(t) =>
        v := if t in w.reached then w else Work(w.reached[t := chain], w.pending + [t], None);
    }
  }

  lemma {:induction false} FailedStays(g: Steps, section: Section, chain: seq<string>, n: nat, m: nat, w: Work)
    requires n <= m && Visited(g, section, chain, n, w).failed.Some?
    ensures Visited(g, section, chain, m, w) == Visited(g, section, chain, n, w)
    decreases m
  {
    if n < m {
      FailedStays(g, section, chain, n, m - 1, w);
    }
  }

  /** `pending.pop()`: the script takes the last; the proof allows any. */
  method Pop(pending: seq<Section>) returns (section: Section, rest: seq<Section>)
    requires pending != []
    ensures section in pending && |rest| == |pending| - 1
    ensures forall s :: s in pending ==> s == section || s in rest
    ensures forall k :: 0 <= k < |rest| ==> rest[k] in pending
  {
    var k: nat :| k < |pending|;
    section, rest := pending[k], pending[..k] + pending[k + 1..];
    forall s | s in pending && s != section
      ensures s in rest
    {
      var i :| 0 <= i < |pending| && pending[i] == s;
      assert rest[if i < k then i else i - 1] == s;
    }
  }

  // ---------- the invariant of the worklist ----------

  /** One of the relocations of `s` is an error that names `t`. */
  ghost predicate FailsAt(g: Steps, s: Section, t: Section) {
    exists i :: 0 <= i < |s.relocs| && g(s, i) == Fail(t)
  }

  ghost predicate FailsNowhere(g: Steps, s: Section, n: nat) {
    forall i :: 0 <= i < n ==> !g(s, i).Fail?
  }

  /** A section whose relocations have all been followed without error. */
  ghost predicate Explored(g: Steps, reached: Chains, s: Section) {
    TargetsIn(g, s, |s.relocs|, reached.Keys) && FailsNowhere(g, s, |s.relocs|)
  }

  ghost predicate GoodChains(g: Steps, anchors: seq<Section>, reached: Chains) {
    forall s {:trigger reached[s]} :: s in reached ==> ChainOf(g, anchors, reached[s], s)
  }

  ghost predicate WorkOk(g: Steps, anchors: seq<Section>, all: set<Section>, w: Work) {
    && GoodChains(g, anchors, w.reached)
    && (forall k :: 0 <= k < |anchors| ==> anchors[k] in w.reached)
    && (forall s :: s in w.reached ==> s in all)
    && (forall k :: 0 <= k < |w.pending| ==> w.pending[k] in w.reached)
    && (forall s :: s in w.reached ==> s in w.pending || Explored(g, w.reached, s))
  }

  /** The worklist has run dry. */
  ghost predicate Done(g: Steps, anchors: seq<Section>, all: set<Section>, reached: Chains) {
    && GoodChains(g, anchors, reached)
    && (forall k :: 0 <= k < |anchors| ==> anchors[k] in reached)
    && (forall s :: s in reached ==> s in all && Explored(g, reached, s))
  }

  lemma WorkDone(g: Steps, anchors: seq<Section>, all: set<Section>, w: Work)
    requires WorkOk(g, anchors, all, w) && w.pending == []
    ensures Done(g, anchors, all, w.reached)
  {
  }

  /** What `v` adds to `w` while the relocations of one section are followed. */
  ghost predicate Extends(w: Work, v: Work) {
    && w.reached.Keys <= v.reached.Keys
    && (forall s :: s in w.reached ==> v.reached[s] == w.reached[s])
    && w.pending <= v.pending
    && |v.reached| - |w.reached| == |v.pending| - |w.pending|
    && (forall s :: s in v.reached ==> s in w.reached || s in v.pending)
    && (forall k :: |w.pending| <= k < |v.pending| ==> v.pending[k] in v.reached)
  }

  lemma {:induction false} VisitedExtends(g: Steps, section: Section, chain: seq<string>, n: nat, w: Work)
    requires n <= |section.relocs| && w.failed.None?
    ensures Extends(w, Visited(g, section, chain, n, w))
  {
    if n > 0 {
      VisitedExtends(g, section, chain, n - 1, w);
    }
  }

  /** No error means all targets are in the map; an error names this section. */
  lemma {:induction false} VisitedTargets(g: Steps, section: Section, chain: seq<string>, n: nat, w: Work)
    requires n <= |section.relocs| && w.failed.None?
    ensures var v := Visited(g, section, chain, n, w);
      && (v.failed.None? ==> TargetsIn(g, section, n, v.reached.Keys) && FailsNowhere(g, section, n))
      && (v.failed.Some? ==>
          var x := v.failed.value;
          x.origin == section && x.chain == chain && FailsAt(g, section, x.section))
  {
    if n > 0 {
      VisitedTargets(g, section, chain, n - 1, w);
    }
  }

  /** Sections added to the map have a chain, and belong to the program. */
  lemma {:induction false} VisitedGood(g: Steps, anchors: seq<Section>, all: set<Section>, section: Section, n: nat,
                                       w: Work)
    requires n <= |section.relocs| && section in all && Closed(g, all) && section in w.reached
    requires GoodChains(g, anchors, w.reached) && forall s :: s in w.reached ==> s in all
    ensures var v := Visited(g, section, w.reached[section] + [section.name], n, w);
      GoodChains(g, anchors, v.reached) && forall s :: s in v.reached ==> s in all
  {
    if n > 0 {
      VisitedGood(g, anchors, all, section, n - 1, w);
      if g(section, n - 1).Follow? {
        ChainStep(g, anchors, w.reached[section], section, n - 1);
      }
    }
  }

  /** Taking `section` from the pending list and following all its relocations keeps the invariant. */
  lemma TurnOk(g: Steps, anchors: seq<Section>, all: set<Section>, w: Work, section: Section, rest: seq<Section>,
               v: Work)
    requires WorkOk(g, anchors, all, w)
    requires forall s :: s in w.pending ==> s == section || s in rest
    requires forall k :: 0 <= k < |rest| ==> rest[k] in w.pending
    requires Extends(w.(pending := rest), v) && Explored(g, v.reached, section)
    requires GoodChains(g, anchors, v.reached) && forall s :: s in v.reached ==> s in all
    ensures WorkOk(g, anchors, all, v)
  {
    StillExplored(g, w, section, rest, v);
    PendingReached(w, rest, v);
  }

  lemma StillExplored(g: Steps, w: Work, section: Section, rest: seq<Section>, v: Work)
    requires forall s :: s in w.reached ==> s in w.pending || Explored(g, w.reached, s)
    requires forall s :: s in w.pending ==> s == section || s in rest
    requires Extends(w.(pending := rest), v) && Explored(g, v.reached, section)
    ensures forall s :: s in v.reached ==> s in v.pending || Explored(g, v.reached, s)
  {
    forall s | s in v.reached
      ensures s in v.pending || Explored(g, v.reached, s)
    {
      if s != section && s in w.reached && s !in v.pending {
        assert s !in rest;
        assert Explored(g, w.reached, s);
      }
    }
  }

  lemma PendingReached(w: Work, rest: seq<Section>, v: Work)
    requires forall k :: 0 <= k < |w.pending| ==> w.pending[k] in w.reached
    requires forall k :: 0 <= k < |rest| ==> rest[k] in w.pending
    requires Extends(w.(pending := rest), v)
    ensures forall k :: 0 <= k < |v.pending| ==> v.pending[k] in v.reached
  {
    forall k | 0 <= k < |v.pending|
      ensures v.pending[k] in v.reached
    {
      if k < |rest| {
        assert v.pending[k] == rest[k];
      }
    }
  }

  /** What one turn takes from the invariant: `section` is popped and `rest` stays pending. */
  ghost predicate Popped(w: Work, section: Section, rest: seq<Section>) {
    && w.failed.None? && section in w.reached && section in w.pending && |rest| < |w.pending|
    && (forall s :: s in w.pending ==> s == section || s in rest)
    && (forall k :: 0 <= k < |rest| ==> rest[k] in w.pending)
  }

  ghost function Turned(g: Steps, w: Work, section: Section, rest: seq<Section>): Work
    requires section in w.reached
  {
    Visited(g, section, w.reached[section] + [section.name], |section.relocs|, w.(pending := rest))
  }

  lemma TurnShrinks(g: Steps, w: Work, section: Section, rest: seq<Section>, v: Work)
    requires Popped(w, section, rest) && v == Turned(g, w, section, rest)
    ensures |v.pending| - |w.pending| < |v.reached| - |w.reached| && |w.reached| <= |v.reached|
  {
    VisitedExtends(g, section, w.reached[section] + [section.name], |section.relocs|, w.(pending := rest));
  }

  lemma TurnBlames(g: Steps, anchors: seq<Section>, w: Work, section: Section, rest: seq<Section>, v: Work)
    requires Popped(w, section, rest) && GoodChains(g, anchors, w.reached) && v == Turned(g, w, section, rest)
    ensures v.failed.Some? ==> Blamed(g, anchors, v.failed.value)
  {
    var chain := w.reached[section] + [section.name];
    VisitedTargets(g, section, chain, |section.relocs|, w.(pending := rest));
    assert ChainOf(g, anchors, w.reached[section], section) && chain[..|chain| - 1] == w.reached[section];
  }

  /** One turn keeps the invariant, and brings the loop closer to its end. */
  lemma TurnKeeps(g: Steps, anchors: seq<Section>, all: set<Section>, w: Work, section: Section, rest: seq<Section>,
                  v: Work)
    requires WorkOk(g, anchors, all, w) && Closed(g, all)
    requires Popped(w, section, rest) && v == Turned(g, w, section, rest)
    ensures v.failed.None? ==> WorkOk(g, anchors, all, v) && |v.reached| <= |all|
  {
    var chain := w.reached[section] + [section.name];
    var w' := w.(pending := rest);
    if v.failed.None? {
      VisitedExtends(g, section, chain, |section.relocs|, w');
      VisitedTargets(g, section, chain, |section.relocs|, w');
      VisitedGood(g, anchors, all, section, |section.relocs|, w');
      TurnOk(g, anchors, all, w, section, rest, v);
      ReachedSize(g, anchors, all, v);
    }
  }

  /** The reported error is real: its origin is reachable along the reported chain. */
  ghost predicate Blamed(g: Steps, anchors: seq<Section>, f: Failure) {
    && FailsAt(g, f.origin, f.section)
    && f.chain != [] && f.chain[|f.chain| - 1] == f.origin.name
    && ChainOf(g, anchors, f.chain[..|f.chain| - 1], f.origin)
  }

  /** The dictionary of anchors and the list of its keys. */
  method Start(anchors: seq<Section>, ghost g: Steps, ghost all: set<Section>) returns (w: Work)
    requires Within(g, anchors, all)
    ensures WorkOk(g, anchors, all, w) && w.failed.None?
  {
    w := Work(map[], [], None);
    for k := 0 to |anchors|
      invariant w.failed.None?
      invariant forall i :: 0 <= i < k ==> anchors[i] in w.reached
      invariant forall s :: s in w.reached ==> s in anchors[..k] && w.reached[s] == [] && s in w.pending
      invariant forall i :: 0 <= i < |w.pending| ==> w.pending[i] in w.reached
    {
      if anchors[k] !in w.reached {
        w := w.(pending := w.pending + [anchors[k]]);
      }
      w := w.(reached := w.reached[anchors[k] := []]);
    }
    forall s | s in w.reached
      ensures ChainOf(g, anchors, w.reached[s], s) && s in all
    {
      var k :| 0 <= k < |anchors| && anchors[k] == s;
      assert Walk(g, anchors[k], []) == Some(s) && Trail(g, anchors[k], []) == [];
    }
  }

  lemma ReachedSize(g: Steps, anchors: seq<Section>, all: set<Section>, w: Work)
    requires WorkOk(g, anchors, all, w)
    ensures |w.reached| <= |all|
  {
    SubsetSize(w.reached.Keys, all);
  }

  /** One turn of the loop. */
  method Turn(check: Check, ghost g: Steps, ghost anchors: seq<Section>, ghost all: Program, w: Work) returns (v: Work)
    requires Closed(g, all.sections) && Sees(g, check, all) && w.failed.None? && w.pending != []
    requires WorkOk(g, anchors, all.sections, w)
    modifies all.relocs
    ensures Sees(g, check, all)
    ensures v.failed.None? ==> WorkOk(g, anchors, all.sections, v) && |v.reached| <= |all.sections|
    ensures |v.pending| - |w.pending| < |v.reached| - |w.reached| && |w.reached| <= |v.reached|
    ensures v.failed.Some? ==> Blamed(g, anchors, v.failed.value)
  {
    var section, rest := Pop(w.pending);
    var chain := w.reached[section] + [section.name];
    v := Visit(check, section, chain, g, all, w.(pending := rest));
    assert v == Turned(g, w, section, rest);
    TurnDone(g, anchors, all.sections, w, section, rest, v);
  }

  /** All a turn does. */
  lemma TurnDone(g: Steps, anchors: seq<Section>, all: set<Section>, w: Work, section: Section, rest: seq<Section>,
                 v: Work)
    requires WorkOk(g, anchors, all, w) && Closed(g, all)
    requires Popped(w, section, rest) && v == Turned(g, w, section, rest)
    ensures v.failed.None? ==> WorkOk(g, anchors, all, v) && |v.reached| <= |all|
    ensures |v.pending| - |w.pending| < |v.reached| - |w.reached| && |w.reached| <= |v.reached|
    ensures v.failed.Some? ==> Blamed(g, anchors, v.failed.value)
  {
    TurnShrinks(g, w, section, rest, v);
    TurnBlames(g, anchors, w, section, rest, v);
    TurnKeeps(g, anchors, all, w, section, rest, v);
  }

  /** The loop: it ends with nothing pending, or with an error. */
  method Run(check: Check, ghost g: Steps, ghost anchors: seq<Section>, ghost all: Program, w0: Work) returns (w: Work)
    requires Closed(g, all.sections) && Sees(g, check, all) && w0.failed.None?
    requires WorkOk(g, anchors, all.sections, w0)
    modifies all.relocs
    ensures Sees(g, check, all)
    ensures w.failed.None? ==> w.pending == [] && WorkOk(g, anchors, all.sections, w)
    ensures w.failed.Some? ==> Blamed(g, anchors, w.failed.value)
  {
    w := w0;
    ReachedSize(g, anchors, all.sections, w);
    while w.pending != [] && w.failed.None?
      invariant Sees(g, check, all)
      invariant w.failed.None? ==> WorkOk(g, anchors, all.sections, w)
      invariant w.failed.None? ==> |w.reached| <= |all.sections|
      invariant w.failed.Some? ==> Blamed(g, anchors, w.failed.value)
      decreases w.failed.None?, 2 * (|all.sections| - |w.reached|) + |w.pending|
    {
      ghost var before := w;
      w := Turn(check, g, anchors, all, w);
      assert w.failed.None? ==>
          2 * (|all.sections| - |w.reached|) + |w.pending| < 2 * (|all.sections| - |before.reached|) + |before.pending|;
    }
  }

  method FindReachable(anchors: seq<Section>, check: Check, ghost g: Steps, ghost all: Program)
    returns (r: Result<Chains, Failure>)
    requires Within(g, anchors, all.sections) && Sees(g, check, all)
    modifies all.relocs
    ensures Sees(g, check, all)
    ensures r.Ok? ==> Done(g, anchors, all.sections, r.value)
    ensures r.Err? ==> Blamed(g, anchors, r.error)
  {
    var w := Start(anchors, g, all.sections);
    w := Run(check, g, anchors, all, w);
    if w.failed.Some? {
      r := Err(w.failed.value);
    } else {
      WorkDone(g, anchors, all.sections, w);
      r := Ok(w.reached);
    }
  }

  // ---------- what the worklist computes ----------

  /** The result is exactly the set of reachable sections, in whatever order they were taken, and none fails. */
  lemma FoundIffReachable(g: Steps, anchors: seq<Section>, all: set<Section>, reached: Chains, s: Section)
    requires Done(g, anchors, all, reached)
    ensures s in reached <==> Reachable(g, anchors, s)
    ensures s in reached ==> FailsNowhere(g, s, |s.relocs|)
  {
    DoneIsClosed(g, anchors, all, reached);
    if s in reached {
      assert ChainOf(g, anchors, reached[s], s);
      assert Explored(g, reached, s);
    }
    if Reachable(g, anchors, s) {
      var k: nat, p: seq<nat> :| k < |anchors| && Walk(g, anchors[k], p) == Some(s);
      WalkStaysInClosed(g, anchors[k], p, reached.Keys);
    }
  }

  lemma DoneIsClosed(g: Steps, anchors: seq<Section>, all: set<Section>, reached: Chains)
    requires Done(g, anchors, all, reached)
    ensures Closed(g, reached.Keys)
  {
    forall s | s in reached.Keys
      ensures TargetsIn(g, s, |s.relocs|, reached.Keys)
    {
      assert Explored(g, reached, s);
    }
  }

  /** It is the least set with the anchors that is closed under accepted relocations. */
  lemma FoundIsLeast(g: Steps, anchors: seq<Section>, all: set<Section>, reached: Chains, c: set<Section>)
    requires Done(g, anchors, all, reached)
    requires (forall k :: 0 <= k < |anchors| ==> anchors[k] in c) && Closed(g, c)
    ensures Closed(g, reached.Keys) && reached.Keys <= c
  {
    DoneIsClosed(g, anchors, all, reached);
    forall s | s in reached
      ensures s in c
    {
      assert ChainOf(g, anchors, reached[s], s);
      var k: nat, p: seq<nat> :|
        k < |anchors| && Walk(g, anchors[k], p) == Some(s) && reached[s] == Trail(g, anchors[k], p);
      WalkStaysInClosed(g, anchors[k], p, c);
    }
  }

  /** The script exits exactly when a reachable section has an offending relocation. */
  lemma ExitsIffReachableFails(g: Steps, anchors: seq<Section>, all: set<Section>, r: Result<Chains, Failure>)
    requires r.Ok? ==> Done(g, anchors, all, r.value)
    requires r.Err? ==> Blamed(g, anchors, r.error)
    ensures r.Err? ==> Reachable(g, anchors, r.error.origin) && FailsAt(g, r.error.origin, r.error.section)
    ensures r.Ok? ==> forall s, t :: s in all && t in all && Reachable(g, anchors, s) ==> !FailsAt(g, s, t)
  {
    if r.Ok? {
      forall s, t | s in all && t in all && Reachable(g, anchors, s)
        ensures !FailsAt(g, s, t)
      {
        FoundIffReachable(g, anchors, all, r.value, s);
      }
    }
  }

  // ---------- sorting sections into categories ----------

  /** `section.category`, where `runtime` says whether the runtime anchors lead to the section. */
  function CategoryOf(s: Section, runtime: bool): Category {
    if ".data.varlow." <= s.name then Low32
    else if ".data.varfseg." <= s.name then Fseg32
    else if ".text.32fseg." <= s.name then TextFseg32
    else if ".fixedaddr." <= s.name then Category.Fixed
    else if s.fileid == File32Flat && !runtime then Init32
    else match s.fileid case File16 => Code16 case File32Seg => Seg32 case File32Flat => Flat32
  }

  /**
   * Code kept at run time refers to init sections only by names that say `.init.`,
   * and to none marked `.data.varinit.`.
   */
  lemma RuntimeAvoidsInit(g: Steps, anchors: seq<Section>, all: Program, reached: Chains, s: Section, i: nat,
                          t: Section)
    requires Done(g, anchors, all.sections, reached) && Sees(g, CheckRuntime, all)
    requires s in reached && i < |s.relocs| && s.relocs[i].symbol.section == Some(t)
    requires !Contains(t.name, ".init.")
    ensures CategoryOf(t, t in reached) != Init32 && !Contains(t.name, ".data.varinit.")
  {
    assert g(s, i) == StepOf(CheckRuntime, s.relocs[i], s);
    ExploredAvoidsInit(g, reached, s, i, s.relocs[i].symbol, t);
  }

  lemma ExploredAvoidsInit(g: Steps, reached: Chains, s: Section, i: nat, symbol: Symbol, t: Section)
    requires Explored(g, reached, s) && i < |s.relocs|
    requires g(s, i) == RuntimeStep(symbol) && symbol.section == Some(t) && !Contains(t.name, ".init.")
    ensures CategoryOf(t, t in reached) != Init32 && !Contains(t.name, ".data.varinit.")
  {
    assert !g(s, i).Fail?;
  }
}
