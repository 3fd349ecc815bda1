/** Which relocations `findReachable` follows, told without the search through the symbol tables. */
module KeepRules {
  import opened Common
  import opened Sections
  import opened Reachability

  // ---------- names ----------

  ghost predicate Occurs(part: string, s: string) {
    exists i :: OccursAt(part, s, i)
  }

  ghost predicate OccursAt(part: string, s: string, i: int) {
    0 <= i <= |s| - |part| && s[i..i + |part|] == part
  }

  lemma AtStart(part: string, s: string)
    ensures OccursAt(part, s, 0) <==> part <= s
  {
    if OccursAt(part, s, 0) {
      assert s[0..0 + |part|] == s[..|part|];
    }
  }

  lemma {:induction false} ContainsMeans(s: string, part: string)
    ensures Contains(s, part) <==> Occurs(part, s)
  {
    AtStart(part, s);
    if !(part <= s) && s != [] {
      ContainsMeans(s[1..], part);
      if i :| OccursAt(part, s[1..], i) {
        assert s[i + 1..i + 1 + |part|] == s[1..][i..i + |part|];
        assert OccursAt(part, s, i + 1);
      }
      if i :| OccursAt(part, s, i) {
        assert s[1..][i - 1..i - 1 + |part|] == s[i..i + |part|];
        assert OccursAt(part, s[1..], i - 1);
      }
    }
  }

  /** A C function: text that does not come from an assembler file. */
  ghost predicate IsCText(section: Section) {
    ".text." <= section.name && !(".text.asm." <= section.name)
  }

  /** The table has a symbol of this name in a section that is not discarded. */
  ghost predicate Defines(syms: map<string, Symbol>, name: string) {
    name in syms && syms[name].section.Some? && !(".discard." <= syms[name].section.value.name)
  }

  /** `_cfunc16_x` and the like: the C function `x` of that file. */
  ghost predicate NamesC(symbolname: string, file: string, x: string) {
    symbolname == "_cfunc" + file + "_" + x
  }

  /**
   * The name `x` under which the table of `file` has what a relocation means: a plain name means
   * any symbol, but in another file no C function; a name of a C function of this file means that,
   * and nothing else.
   */
  ghost predicate Means(symbolname: string, syms: map<string, Symbol>, file: string, own: bool, x: string) {
    && Defines(syms, x)
    && var c := IsCText(syms[x].section.value);
       (x == symbolname && !("_cfunc" <= x) && (own || !c)) || (NamesC(symbolname, file, x) && c)
  }

  lemma PrefixSplits(symbolname: string, file: string)
    ensures "_cfunc" + file + "_" <= symbolname <==>
            exists x :: NamesC(symbolname, file, x)
    ensures forall x :: NamesC(symbolname, file, x) ==> x == symbolname[|"_cfunc" + file + "_"|..]
    ensures forall x :: NamesC(symbolname, file, x) ==> "_cfunc" <= symbolname
  {
    var p := "_cfunc" + file + "_";
    if p <= symbolname {
      assert NamesC(symbolname, file, symbolname[|p|..]);
    }
    forall x | NamesC(symbolname, file, x)
      ensures x == symbolname[|p|..] && "_cfunc" <= symbolname
    {
      assert symbolname == p + x && p == "_cfunc" + (file + "_");
      assert symbolname[..6] == "_cfunc";
    }
  }

  /** The search in one table finds what the name means there. */
  lemma OneTable(symbolname: string, syms: map<string, Symbol>, file: FileId, own: bool) returns (x: string)
    ensures forall y :: Means(symbolname, syms, FileName(file), own, y) ==>
              KeepSym(symbolname, syms, file, !own) == Some(syms[y])
    ensures KeepSym(symbolname, syms, file, !own).Some? ==> Means(symbolname, syms, FileName(file), own, x)
  {
    PrefixSplits(symbolname, FileName(file));
    var p := "_cfunc" + FileName(file) + "_";
    x := if p <= symbolname then symbolname[|p|..] else symbolname;
    assert p <= symbolname ==> NamesC(symbolname, FileName(file), symbolname[|p|..]);
  }

  // ---------- the search ----------

  ghost predicate Own(symbolname: string, file: FileId, t: SymbolTables, x: string) {
    match file
    case File16 => Means(symbolname, t.code16, "16", true, x)
    case File32Seg => Means(symbolname, t.seg32, "32seg", true, x)
    case File32Flat => Means(symbolname, t.flat32, "32flat", true, x)
  }

  ghost predicate From16(symbolname: string, file: FileId, t: SymbolTables, x: string) {
    file != File16 && Means(symbolname, t.code16, "16", false, x)
  }

  ghost predicate FromSeg(symbolname: string, file: FileId, t: SymbolTables, x: string) {
    file != File32Seg && Means(symbolname, t.seg32, "32seg", false, x)
  }

  ghost predicate FromFlat(symbolname: string, file: FileId, t: SymbolTables, x: string) {
    file != File32Flat && Means(symbolname, t.flat32, "32flat", false, x)
  }

  ghost predicate NotOwn(symbolname: string, file: FileId, t: SymbolTables) {
    forall x :: !Own(symbolname, file, t, x)
  }

  ghost predicate Not16(symbolname: string, file: FileId, t: SymbolTables) {
    forall x :: !From16(symbolname, file, t, x)
  }

  ghost predicate NotSeg(symbolname: string, file: FileId, t: SymbolTables) {
    forall x :: !FromSeg(symbolname, file, t, x)
  }

  ghost predicate NotFlat(symbolname: string, file: FileId, t: SymbolTables) {
    forall x :: !FromFlat(symbolname, file, t, x)
  }

  /**
   * A relocation is kept as what its name means in the section's own file; if nothing, in the 16-bit
   * file; if nothing, in the 32-bit segment file; if nothing, in the flat file; otherwise not.
   */
  lemma KeptAs(symbolname: string, file: FileId, t: SymbolTables, x: string)
    ensures var k := Keep(symbolname, file, t);
      if NotOwn(symbolname, file, t) then
        if Not16(symbolname, file, t) then
          if NotSeg(symbolname, file, t) then
            if NotFlat(symbolname, file, t) then k == None
            else FromFlat(symbolname, file, t, x) ==> k == Some(t.flat32[x])
          else FromSeg(symbolname, file, t, x) ==> k == Some(t.seg32[x])
        else From16(symbolname, file, t, x) ==> k == Some(t.code16[x])
      else Own(symbolname, file, t, x) ==>
        k == Some(match file case File16 => t.code16[x] case File32Seg => t.seg32[x] case File32Flat => t.flat32[x])
  {
    OwnTable(symbolname, file, t);
    Table16(symbolname, file, t);
    TableSeg(symbolname, file, t);
    TableFlat(symbolname, file, t);
  }

  lemma OwnTable(symbolname: string, file: FileId, t: SymbolTables)
    ensures NotOwn(symbolname, file, t) <==> KeepSym(symbolname, t.Of(file), file, false).None?
    ensures forall x :: Own(symbolname, file, t, x) ==>
              KeepSym(symbolname, t.Of(file), file, false) == Some(t.Of(file)[x])
  {
    var y := OneTable(symbolname, t.Of(file), file, true);
    assert Means(symbolname, t.Of(file), FileName(file), true, y) ==> Own(symbolname, file, t, y);
  }

  lemma Table16(symbolname: string, file: FileId, t: SymbolTables)
    ensures Not16(symbolname, file, t) <==> file == File16 || KeepSym(symbolname, t.code16, File16, true).None?
    ensures forall x :: From16(symbolname, file, t, x) ==>
              KeepSym(symbolname, t.code16, File16, true) == Some(t.code16[x])
  {
    var y := OneTable(symbolname, t.code16, File16, false);
    assert file != File16 && Means(symbolname, t.code16, "16", false, y) ==> From16(symbolname, file, t, y);
  }

  lemma TableSeg(symbolname: string, file: FileId, t: SymbolTables)
    ensures NotSeg(symbolname, file, t) <==> file == File32Seg || KeepSym(symbolname, t.seg32, File32Seg, true).None?
    ensures forall x :: FromSeg(symbolname, file, t, x) ==>
              KeepSym(symbolname, t.seg32, File32Seg, true) == Some(t.seg32[x])
  {
    var y := OneTable(symbolname, t.seg32, File32Seg, false);
    assert file != File32Seg && Means(symbolname, t.seg32, "32seg", false, y) ==> FromSeg(symbolname, file, t, y);
  }

  lemma TableFlat(symbolname: string, file: FileId, t: SymbolTables)
    ensures NotFlat(symbolname, file, t)
            <==> file == File32Flat || KeepSym(symbolname, t.flat32, File32Flat, true).None?
    ensures forall x :: FromFlat(symbolname, file, t, x) ==>
              KeepSym(symbolname, t.flat32, File32Flat, true) == Some(t.flat32[x])
  {
    var y := OneTable(symbolname, t.flat32, File32Flat, false);
    assert file != File32Flat && Means(symbolname, t.flat32, "32flat", false, y) ==> FromFlat(symbolname, file, t, y);
  }

  // ---------- the steps ----------

  /**
   * In the first pass a relocation is followed to the section of the symbol its name is kept as; in
   * the second to any section whose name says neither `.init.` nor `.data.varinit.`, and the
   * latter without the former is the error.
   */
  lemma StepMeans(check: Check, reloc: Reloc, section: Section, t: Section)
    ensures check.CheckKeepIn? ==>
              (StepOf(check, reloc, section) == Follow(t) <==>
               exists y :: Keep(reloc.symbolname, section.fileid, check.tables) == Some(y) && y.section == Some(t))
    ensures check.CheckKeepIn? ==> !StepOf(check, reloc, section).Fail?
    ensures check.CheckRuntime? ==>
              (StepOf(check, reloc, section) == Follow(t) <==>
               reloc.symbol.section == Some(t) && !Occurs(".init.", t.name) && !Occurs(".data.varinit.", t.name))
    ensures check.CheckRuntime? ==>
              (StepOf(check, reloc, section) == Fail(t) <==>
               reloc.symbol.section == Some(t) && !Occurs(".init.", t.name) && Occurs(".data.varinit.", t.name))
  {
    ContainsMeans(t.name, ".init.");
    ContainsMeans(t.name, ".data.varinit.");
  }

  /** The names of a chain are those of the sections the walk comes through, in order. */
  lemma {:induction false} TrailNames(g: Steps, a: Section, p: seq<nat>, i: nat)
    requires Walk(g, a, p).Some?
    ensures |Trail(g, a, p)| == |p|
    ensures i < |p| ==> Walk(g, a, p[..i]).Some? && Trail(g, a, p)[i] == Walk(g, a, p[..i]).value.name
  {
    if p != [] {
      var q := p[..|p| - 1];
      TrailNames(g, a, q, if i < |q| then i else 0);
      if i < |q| {
        assert p[..i] == q[..i];
      }
    }
  }

  // ---------- categories ----------

  /** The category of a section, by its name first and by its file otherwise. */
  lemma CategoryMeans(s: Section, runtime: bool)
    ensures var named := ".data.varlow." <= s.name || ".data.varfseg." <= s.name || ".text.32fseg." <= s.name
                         || ".fixedaddr." <= s.name;
      && (CategoryOf(s, runtime) == Low32 <==> ".data.varlow." <= s.name)
      && (CategoryOf(s, runtime) == Fseg32 <==> ".data.varfseg." <= s.name)
      && (CategoryOf(s, runtime) == TextFseg32 <==> ".text.32fseg." <= s.name)
      && (CategoryOf(s, runtime) == Category.Fixed <==> ".fixedaddr." <= s.name)
      && (CategoryOf(s, runtime) == Code16 <==> !named && s.fileid == File16)
      && (CategoryOf(s, runtime) == Seg32 <==> !named && s.fileid == File32Seg)
      && (CategoryOf(s, runtime) == Flat32 <==> !named && s.fileid == File32Flat && runtime)
      && (CategoryOf(s, runtime) == Init32 <==> !named && s.fileid == File32Flat && !runtime)
  {
    assert ".data.varlow."[1] == 'd' && ".text.32fseg."[1] == 't' && ".fixedaddr."[1] == 'f';
    assert ".data.varlow."[9] == 'l' && ".data.varfseg."[9] == 'f';
    if ".data.varlow." <= s.name { assert s.name[1] == 'd' && s.name[9] == 'l'; }
    if ".data.varfseg." <= s.name { assert s.name[1] == 'd' && s.name[9] == 'f'; }
    if ".text.32fseg." <= s.name { assert s.name[1] == 't'; }
    if ".fixedaddr." <= s.name { assert s.name[1] == 'f'; }
  }
}
