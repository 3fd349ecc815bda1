/** `doLayout`: the eight groups of sections stacked below the fixed ones. */
module Layout {
  import opened Common
  import opened Sections
  import opened GapFilling
  import opened FixedSections

  const ROM_START := 0xc0000
  const LOWRAM_END := 0xa0000
  const MIN_BIOSTABLE := 2048

  // ---------- selecting sections ----------

  /** `[x for x in s[:n] if p(x)]` */
  function Select(s: seq<Section>, n: nat, p: Section -> bool): seq<Section>
    requires n <= |s|
  {
    if n == 0 then []
    else if p(s[n - 1]) then Select(s, n - 1, p) + [s[n - 1]]
    else Select(s, n - 1, p)
  }

  lemma {:induction false} SelectFrom(s: seq<Section>, n: nat, p: Section -> bool)
    requires n <= |s|
    ensures forall k :: 0 <= k < |Select(s, n, p)| ==> Select(s, n, p)[k] in s[..n] && p(Select(s, n, p)[k])
    ensures Distinct(s) ==> Distinct(Select(s, n, p))
  {
    if n > 0 {
      SelectFrom(s, n - 1, p);
    }
  }

  lemma {:induction false} SelectHolds(s: seq<Section>, n: nat, p: Section -> bool, i: nat) returns (k: nat)
    requires i < n <= |s| && p(s[i])
    ensures k < |Select(s, n, p)| && Select(s, n, p)[k] == s[i]
  {
    if i == n - 1 {
      k := |Select(s, n, p)| - 1;
    } else {
      k := SelectHolds(s, n - 1, p, i);
    }
  }

  function OfCategory(s: seq<Section>, category: Category): seq<Section> {
    Select(s, |s|, (x: Section) => x.category == category)
  }

  function WithPrefix(s: seq<Section>, prefix: string): seq<Section> {
    Select(s, |s|, (x: Section) => prefix <= x.name)
  }

  /** `getSectionsPrefix(s, p0) + getSectionsPrefix(s, p1) + ...` for the first `n` prefixes. */
  function ByPrefix(s: seq<Section>, prefixes: seq<string>, n: nat): seq<Section>
    requires n <= |prefixes|
  {
    if n == 0 then [] else ByPrefix(s, prefixes, n - 1) + WithPrefix(s, prefixes[n - 1])
  }

  /** No name can start with two of the prefixes. */
  ghost predicate PrefixFree(prefixes: seq<string>) {
    forall i, j :: 0 <= i < j < |prefixes| ==> !(prefixes[i] <= prefixes[j]) && !(prefixes[j] <= prefixes[i])
  }

  lemma {:induction false} ByPrefixFrom(s: seq<Section>, prefixes: seq<string>, n: nat)
    requires n <= |prefixes| && Distinct(s) && PrefixFree(prefixes)
    ensures Distinct(ByPrefix(s, prefixes, n))
    ensures forall k :: 0 <= k < |ByPrefix(s, prefixes, n)| ==>
      ByPrefix(s, prefixes, n)[k] in s && exists i :: 0 <= i < n && prefixes[i] <= ByPrefix(s, prefixes, n)[k].name
  {
    if n > 0 {
      var p := (x: Section) => prefixes[n - 1] <= x.name;
      ByPrefixFrom(s, prefixes, n - 1);
      SelectFrom(s, |s|, p);
      assert s[..|s|] == s;
      var a, b := ByPrefix(s, prefixes, n - 1), WithPrefix(s, prefixes[n - 1]);
      assert b == Select(s, |s|, p);
      forall k, l | 0 <= k < |a| && 0 <= l < |b|
        ensures a[k] != b[l]
      {
        if a[k] == b[l] {
          var i :| 0 <= i < n - 1 && prefixes[i] <= a[k].name;
          PrefixesOfOne(prefixes[i], prefixes[n - 1], b[l].name);
        }
      }
    }
  }

  lemma PrefixesOfOne(p: string, q: string, s: string)
    requires p <= s && q <= s
    ensures p <= q || q <= p
  {
    if |p| <= |q| {
      assert q == s[..|q|] && p == s[..|p|];
    } else {
      assert q == s[..|q|] && p == s[..|p|];
    }
  }

  // ---------- the groups ----------

  const TEXT16: seq<string> := [".text.", ".rodata", ".data16."]
  const TEXT32SEG: seq<string> := [".text.", ".rodata", ".data32seg."]
  const TEXT32FLAT: seq<string> := [".text.", ".rodata", ".data.", ".bss."]

  /** The lists `doLayout` stacks, from the top down. */
  datatype Groups = Groups(
    rem16: seq<Section>, seg32: seq<Section>, textfseg: seq<Section>, fseg: seq<Section>,
    flat: seq<Section>, init: seq<Section>, low: seq<Section>)

  function FixedOf(s: seq<Section>): seq<Section> {
    OfCategory(s, Category.Fixed)
  }

  function FillOf(s: seq<Section>): seq<Section> {
    WithPrefix(OfCategory(s, Code16), ".text.")
  }

  ghost function PlacedByFill(s: seq<Section>): set<Section> {
    Targets(FillPlan(FixedOf(s), FillOf(s)))
  }

  ghost function Unplaced(s: seq<Section>, n: nat, placed: set<Section>): seq<Section>
    requires n <= |s|
  {
    Select(s, n, x => x !in placed)
  }

  ghost function GroupsOf(s: seq<Section>): Groups {
    var text16 := ByPrefix(OfCategory(s, Code16), TEXT16, 3);
    Groups(Unplaced(text16, |text16|, PlacedByFill(s)),
           ByPrefix(OfCategory(s, Seg32), TEXT32SEG, 3),
           OfCategory(s, TextFseg32),
           OfCategory(s, Fseg32),
           ByPrefix(OfCategory(s, Flat32), TEXT32FLAT, 4),
           ByPrefix(OfCategory(s, Init32), TEXT32FLAT, 4),
           OfCategory(s, Low32))
  }

  ghost predicate AllOf(s: seq<Section>, g: seq<Section>, category: Category) {
    Distinct(g) && forall k :: 0 <= k < |g| ==> g[k] in s && g[k].category == category
  }

  lemma CategoryFrom(s: seq<Section>, category: Category)
    requires Distinct(s)
    ensures AllOf(s, OfCategory(s, category), category)
  {
    var p := (x: Section) => x.category == category;
    SelectFrom(s, |s|, p);
    assert s[..|s|] == s && OfCategory(s, category) == Select(s, |s|, p);
  }

  lemma CategoryByPrefix(s: seq<Section>, category: Category, prefixes: seq<string>)
    requires Distinct(s) && PrefixFree(prefixes)
    ensures AllOf(s, ByPrefix(OfCategory(s, category), prefixes, |prefixes|), category)
  {
    CategoryFrom(s, category);
    ByPrefixFrom(OfCategory(s, category), prefixes, |prefixes|);
  }

  lemma PrefixesAreFree()
    ensures PrefixFree(TEXT16) && PrefixFree(TEXT32SEG) && PrefixFree(TEXT32FLAT)
  {
    assert TEXT16[0][1] == 't' && TEXT16[1][1] == 'r' && TEXT16[2][1] == 'd';
    assert TEXT32SEG[0][1] == 't' && TEXT32SEG[1][1] == 'r' && TEXT32SEG[2][1] == 'd';
    assert TEXT32FLAT[0][1] == 't' && TEXT32FLAT[1][1] == 'r' && TEXT32FLAT[2][1] == 'd' && TEXT32FLAT[3][1] == 'b';
  }

  lemma FillOfFrom(s: seq<Section>)
    requires Distinct(s)
    ensures AllOf(s, FixedOf(s), Category.Fixed) && AllOf(s, FillOf(s), Code16)
    ensures forall x :: x in PlacedByFill(s) ==> x in FillOf(s)
  {
    CategoryFrom(s, Category.Fixed);
    CategoryFrom(s, Code16);
    var p := (x: Section) => ".text." <= x.name;
    var c := OfCategory(s, Code16);
    SelectFrom(c, |c|, p);
    assert c[..|c|] == c && FillOf(s) == Select(c, |c|, p);
    FillPlanTargets(FixedOf(s), FillOf(s));
  }

  /** Every group holds sections of one category, each once; the filled ones are not among them. */
  lemma GroupsFrom(s: seq<Section>)
    requires Distinct(s)
    ensures var g := GroupsOf(s);
      && AllOf(s, g.rem16, Code16) && AllOf(s, g.seg32, Seg32) && AllOf(s, g.textfseg, TextFseg32)
      && AllOf(s, g.fseg, Fseg32) && AllOf(s, g.flat, Flat32) && AllOf(s, g.init, Init32)
      && AllOf(s, g.low, Low32)
    ensures forall x :: x in GroupsOf(s).rem16 ==> x !in PlacedByFill(s)
  {
    PrefixesAreFree();
    CategoryByPrefix(s, Code16, TEXT16);
    CategoryByPrefix(s, Seg32, TEXT32SEG);
    CategoryByPrefix(s, Flat32, TEXT32FLAT);
    CategoryByPrefix(s, Init32, TEXT32FLAT);
    CategoryFrom(s, TextFseg32);
    CategoryFrom(s, Fseg32);
    CategoryFrom(s, Low32);
    var text16 := ByPrefix(OfCategory(s, Code16), TEXT16, 3);
    var filled := PlacedByFill(s);
    var p := x => x !in filled;
    SelectFrom(text16, |text16|, p);
    assert text16[..|text16|] == text16 && GroupsOf(s).rem16 == Select(text16, |text16|, p);
  }

  // ---------- the start addresses ----------

  /** The flat and init groups, and the zone reserved in the f-segment. */
  datatype ZoneBases = ZoneBases(flat: int, init: int, start: int, end: int)

  ghost function ZoneOf(g: Groups, fseg: int, genreloc: bool): ZoneBases {
    var flat := StartFor(g.flat, fseg, 4);
    var init := StartFor(g.init, flat, 4);
    var end := if genreloc then flat else init;
    if BIOS_ADDR + MIN_BIOSTABLE > end then
      var start := fseg - MIN_BIOSTABLE;
      var flat' := StartFor(g.flat, start, 4);
      ZoneBases(flat', StartFor(g.init, flat', 4), start, fseg)
    else ZoneBases(flat, init, BIOS_ADDR, end)
  }

  /** Group `g` has been laid out from `start`. */
  ghost predicate Laid(g: seq<Section>, start: int, segoffset: int)
    reads g
  {
    forall k :: 0 <= k < |g| ==> PlacedAt(g[k], Locs(g, start, |g|)[k], segoffset)
  }

  method LayCode(ghost s: seq<Section>, g: Groups, firstfixed: int) returns (sec16: int, seg32: int)
    requires AllOf(s, g.rem16, Code16) && AllOf(s, g.seg32, Seg32)
    modifies g.rem16, g.seg32
    ensures sec16 == StartFor(g.rem16, firstfixed, 0) && seg32 == StartFor(g.seg32, sec16, 0)
    ensures Laid(g.rem16, sec16, BIOS_ADDR) && Laid(g.seg32, seg32, BIOS_ADDR)
  {
    var align16, align32;
    sec16, align16 := SetSectionsStart(g.rem16, firstfixed, 0, BIOS_ADDR);
    seg32, align32 := SetSectionsStart(g.seg32, sec16, 0, BIOS_ADDR);
  }

  method LayFseg(ghost s: seq<Section>, g: Groups, seg32: int) returns (textfseg: int, fseg: int)
    requires AllOf(s, g.textfseg, TextFseg32) && AllOf(s, g.fseg, Fseg32)
    modifies g.textfseg, g.fseg
    ensures textfseg == StartFor(g.textfseg, seg32, 4) && fseg == StartFor(g.fseg, textfseg, 4)
    ensures Laid(g.textfseg, textfseg, 0) && Laid(g.fseg, fseg, BIOS_ADDR)
  {
    var aligntextfseg, alignfseg;
    textfseg, aligntextfseg := SetSectionsStart(g.textfseg, seg32, 4, 0);
    fseg, alignfseg := SetSectionsStart(g.fseg, textfseg, 4, BIOS_ADDR);
  }

  method LayFlat(ghost s: seq<Section>, g: Groups, end: int) returns (flat: int, init: int, initalign: nat)
    requires AllOf(s, g.flat, Flat32) && AllOf(s, g.init, Init32)
    modifies g.flat, g.init
    ensures flat == StartFor(g.flat, end, 4) && init == StartFor(g.init, flat, 4) && initalign == MaxAlign(g.init, 4)
    ensures Laid(g.flat, flat, 0) && Laid(g.init, init, 0)
  {
    var flatalign;
    flat, flatalign := SetSectionsStart(g.flat, end, 4, 0);
    init, initalign := SetSectionsStart(g.init, flat, 4, 0);
  }

  method LayZone(ghost s: seq<Section>, g: Groups, fseg: int, genreloc: bool) returns (z: ZoneBases, initalign: nat)
    requires AllOf(s, g.flat, Flat32) && AllOf(s, g.init, Init32)
    modifies g.flat, g.init
    ensures z == ZoneOf(g, fseg, genreloc) && initalign == MaxAlign(g.init, 4)
    ensures Laid(g.flat, z.flat, 0) && Laid(g.init, z.init, 0)
  {
    var flat, init;
    flat, init, initalign := LayFlat(s, g, fseg);
    var end := flat;
    if !genreloc {
      end := init;
    }
    var start := BIOS_ADDR;
    if start + MIN_BIOSTABLE > end {
      // Not enough room: force a minimum.
      end := fseg;
      start := end - MIN_BIOSTABLE;
      flat, init, initalign := LayFlat(s, g, start);
    }
    z := ZoneBases(flat, init, start, end);
  }

  /** Where low memory starts, where it ends once relocated, the low zone's base, and the relocation distance. */
  datatype LowBases = LowBases(start: int, finalend: int, zonebase: int, relocdelta: int, segoffset: int)

  ghost function LowOf(g: Groups, z: ZoneBases, genreloc: bool, uppermemory: bool): LowBases {
    var readonly := Readonly(z, genreloc);
    var finalend := if uppermemory then readonly else LOWRAM_END;
    var zonebase :=
      if uppermemory then Max(ROM_START, AlignPos(finalend - 64 * 1024, 11)) else finalend - 64 * 1024;
    LowBases(StartFor(g.low, z.init, 4), finalend, zonebase, finalend - z.init, zonebase - (finalend - z.init))
  }

  function Max(a: int, b: int): int { if a > b then a else b }

  function Min(a: int, b: int): int { if a < b then a else b }

  /** `final_readonly_start` */
  function Readonly(z: ZoneBases, genreloc: bool): int {
    Min(BIOS_ADDR, if genreloc then z.flat else z.init)
  }

  /** The low zone and the relocation distance, before the low sections are laid out. */
  method FindLowZone(ghost g: Groups, z: ZoneBases, genreloc: bool, uppermemory: bool)
    returns (finalend: int, zonebase: int)
    ensures var l := LowOf(g, z, genreloc, uppermemory); finalend == l.finalend && zonebase == l.zonebase
  {
    if uppermemory {
      finalend := Readonly(z, genreloc);
      zonebase := finalend - 64 * 1024;
      zonebase := Max(ROM_START, AlignPos(zonebase, 11));
    } else {
      finalend := LOWRAM_END;
      zonebase := finalend - 64 * 1024;
    }
  }

  method LayLow(g: Groups, z: ZoneBases, genreloc: bool, uppermemory: bool) returns (l: LowBases)
    requires Distinct(g.low)
    modifies g.low
    ensures l == LowOf(g, z, genreloc, uppermemory)
    ensures Laid(g.low, l.start, l.segoffset)
  {
    var finalend, zonebase := FindLowZone(g, z, genreloc, uppermemory);
    var relocdelta := finalend - z.init;
    var segoffset := zonebase - relocdelta;
    var start, align := SetSectionsStart(g.low, z.init, 4, segoffset);
    l := LowBases(start, finalend, zonebase, relocdelta, segoffset);
  }

  /** `[s for s in ... if s.finalloc is None]` */
  method FindUnplaced(s: seq<Section>, ghost placed: set<Section>) returns (r: seq<Section>)
    requires forall k :: 0 <= k < |s| ==> (s[k].finalloc.None? <==> s[k] !in placed)
    ensures r == Unplaced(s, |s|, placed)
  {
    r := [];
    for k := 0 to |s|
      invariant r == Unplaced(s, k, placed)
    {
      if s[k].finalloc.None? {
        r := r + [s[k]];
      }
    }
  }

  // ---------- doLayout ----------

  /** `LayoutInfo`, with the start of every group. */
  datatype LayoutInfo = LayoutInfo(firstfixed: int, sec16: int, seg32: int, textfseg: int, fseg: int,
                                   zone: ZoneBases, initalign: nat, readonly: int, low: LowBases)

  /** There is a fixed section, and the lowest one is at `firstfixed`. */
  ghost predicate StartsAt(s: seq<Section>, firstfixed: int) {
    var f := FixedByAddr(FixedOf(s));
    f != [] && firstfixed == Addr(f[0]) + BIOS_ADDR
  }

  /** A section `fitSections` stores: one with a fixed address, or one of the plan. */
  ghost predicate OnTop(s: seq<Section>, x: Section) {
    (x in FixedOf(s) && x.fixedaddr.Some?) || x in PlacedByFill(s)
  }

  /** No other section has an address yet. */
  ghost predicate OnlyTop(s: seq<Section>)
    reads s
  {
    forall k :: 0 <= k < |s| ==> s[k].finalloc.Some? ==> OnTop(s, s[k])
  }

  /**
   * The script ends: a fixed section asks for alignment, there is none, two fill sections have
   * the same size, alignment and name, or the lowest fixed section leaves no space.
   */
  ghost predicate Refused(fixed: seq<Section>, fill: seq<Section>, fit: FitResult) {
    var f := FixedByAddr(fixed);
    match fit
    case Fitted(_, _) => false
    case Misaligned(x) => x in fixed && x.fixedaddr.Some? && x.alignlog != 0
    case NoFixedSection => f == []
    case Incomparable => f != [] && !Comparable(fill)
    case NoSpace => f != [] && Addr(f[0]) == BIOS_SIZE
  }

  /** The fixed sections, and the sections filled in between. */
  method LayTop(sections: seq<Section>) returns (fit: FitResult)
    requires Distinct(sections) && forall k :: 0 <= k < |sections| ==> sections[k].finalloc == None
    modifies FixedOf(sections), FillOf(sections)
    ensures fit.Fitted? ==> StartsAt(sections, fit.firstfixed)
    ensures fit.Fitted? ==> TopDone(FixedOf(sections), FillPlan(FixedOf(sections), FillOf(sections)))
    ensures fit.Fitted? ==> OnlyTop(sections)
    ensures !fit.Fitted? ==> Refused(FixedOf(sections), FillOf(sections), fit)
    ensures fit.Fitted? ==> forall x :: x in FixedOf(sections) && x.fixedaddr.Some? ==> x.alignlog == 0
    ensures fit.Fitted? ==> Comparable(FillOf(sections))
  {
    FillOfFrom(sections);
    var fixed, fill := FixedOf(sections), FillOf(sections);
    forall x | x in fixed
      ensures x !in fill
    {
      var k :| 0 <= k < |fixed| && fixed[k] == x;
    }
    fit := FitSections(fixed, fill);
  }

  lemma CodeIsNotFixed(sections: seq<Section>, x: Section)
    requires Distinct(sections) && x.category == Code16
    ensures x !in FixedOf(sections)
  {
    FillOfFrom(sections);
  }

  /** What remains of the 16bit code. */
  method Remaining16(sections: seq<Section>) returns (rem16: seq<Section>)
    requires Distinct(sections)
    requires TopDone(FixedOf(sections), FillPlan(FixedOf(sections), FillOf(sections)))
    requires OnlyTop(sections)
    ensures OnlyTop(sections) && TopDone(FixedOf(sections), FillPlan(FixedOf(sections), FillOf(sections)))
    ensures rem16 == GroupsOf(sections).rem16
  {
    var text16 := ByPrefix(OfCategory(sections, Code16), TEXT16, 3);
    ghost var placed := PlacedByFill(sections);
    PrefixesAreFree();
    CategoryByPrefix(sections, Code16, TEXT16);
    FillOfFrom(sections);
    forall k | 0 <= k < |text16|
      ensures text16[k].finalloc.None? <==> text16[k] !in placed
    {
      var i :| 0 <= i < |sections| && sections[i] == text16[k];
      CodeIsNotFixed(sections, text16[k]);
      var p := FillPlan(FixedOf(sections), FillOf(sections));
      if text16[k] in placed {
        var m :| 0 <= m < |p| && p[m].section == text16[k];
        assert Stored(p[m]);
      }
    }
    rem16 := FindUnplaced(text16, placed);
  }

  /** The sections below the code: f-segment, flat, init and low groups. */
  ghost function Lower(g: Groups): set<Section> {
    set x | x in g.textfseg + g.fseg + g.flat + g.init + g.low
  }

  method LayMiddle(ghost s: seq<Section>, g: Groups, seg32: int, genreloc: bool)
    returns (textfseg: int, fseg: int, z: ZoneBases, initalign: nat)
    requires AllOf(s, g.textfseg, TextFseg32) && AllOf(s, g.fseg, Fseg32)
    requires AllOf(s, g.flat, Flat32) && AllOf(s, g.init, Init32)
    modifies set x | x in g.textfseg + g.fseg + g.flat + g.init
    ensures textfseg == StartFor(g.textfseg, seg32, 4) && fseg == StartFor(g.fseg, textfseg, 4)
    ensures z == ZoneOf(g, fseg, genreloc) && initalign == MaxAlign(g.init, 4)
    ensures Laid(g.textfseg, textfseg, 0) && Laid(g.fseg, fseg, BIOS_ADDR)
    ensures Laid(g.flat, z.flat, 0) && Laid(g.init, z.init, 0)
  {
    textfseg, fseg := LayFseg(s, g, seg32);
    z, initalign := LayZone(s, g, fseg, genreloc);
  }

  /** Groups of different categories have no section in common. */
  lemma KindsApart(s: seq<Section>, g: seq<Section>, kind: Category, h: seq<Section>, other: Category)
    requires AllOf(s, g, kind) && AllOf(s, h, other) && kind != other
    ensures forall k :: 0 <= k < |h| ==> h[k] !in g
  {
  }

  method LayLower(ghost s: seq<Section>, g: Groups, seg32: int, uppermemory: bool, genreloc: bool)
    returns (textfseg: int, fseg: int, z: ZoneBases, initalign: nat, low: LowBases)
    requires AllOf(s, g.textfseg, TextFseg32) && AllOf(s, g.fseg, Fseg32)
    requires AllOf(s, g.flat, Flat32) && AllOf(s, g.init, Init32) && AllOf(s, g.low, Low32)
    modifies Lower(g)
    ensures textfseg == StartFor(g.textfseg, seg32, 4) && fseg == StartFor(g.fseg, textfseg, 4)
    ensures z == ZoneOf(g, fseg, genreloc) && initalign == MaxAlign(g.init, 4)
    ensures low == LowOf(g, z, genreloc, uppermemory)
    ensures Laid(g.textfseg, textfseg, 0) && Laid(g.fseg, fseg, BIOS_ADDR)
    ensures Laid(g.flat, z.flat, 0) && Laid(g.init, z.init, 0)
    ensures Laid(g.low, low.start, low.segoffset)
  {
    KindsApart(s, g.low, Low32, g.textfseg, TextFseg32);
    KindsApart(s, g.low, Low32, g.fseg, Fseg32);
    KindsApart(s, g.low, Low32, g.flat, Flat32);
    KindsApart(s, g.low, Low32, g.init, Init32);
    textfseg, fseg, z, initalign := LayMiddle(s, g, seg32, genreloc);
    low := LayLow(g, z, genreloc, uppermemory);
  }

  ghost predicate AllLaid(g: Groups, li: LayoutInfo)
    reads g.rem16, g.seg32, g.textfseg, g.fseg, g.flat, g.init, g.low
  {
    && Laid(g.rem16, li.sec16, BIOS_ADDR) && Laid(g.seg32, li.seg32, BIOS_ADDR)
    && Laid(g.textfseg, li.textfseg, 0) && Laid(g.fseg, li.fseg, BIOS_ADDR)
    && Laid(g.flat, li.zone.flat, 0) && Laid(g.init, li.zone.init, 0)
    && Laid(g.low, li.low.start, li.low.segoffset)
  }

  /** The numbers of the layout, given its groups. */
  ghost predicate IsStacked(g: Groups, li: LayoutInfo, uppermemory: bool, genreloc: bool) {
    && li.sec16 == StartFor(g.rem16, li.firstfixed, 0)
    && li.seg32 == StartFor(g.seg32, li.sec16, 0)
    && li.textfseg == StartFor(g.textfseg, li.seg32, 4)
    && li.fseg == StartFor(g.fseg, li.textfseg, 4)
    && li.zone == ZoneOf(g, li.fseg, genreloc)
    && li.initalign == MaxAlign(g.init, 4)
    && li.readonly == Readonly(li.zone, genreloc)
    && li.low == LowOf(g, li.zone, genreloc, uppermemory)
  }

  /** The fixed sections and the filled ones are where `fitSections` put them. */
  ghost predicate TopDone(fixed: seq<Section>, plan: seq<Placement>)
    reads fixed, Targets(plan)
  {
    && (forall k :: 0 <= k < |fixed| ==> fixed[k].fixedaddr.Some? ==> AtItsAddress(fixed[k]))
    && (forall m :: 0 <= m < |plan| ==> Stored(plan[m]))
  }

  /** Laying out the code groups leaves the top alone. */
  method LayCodeBelow(ghost s: seq<Section>, ghost fixed: seq<Section>, ghost plan: seq<Placement>, g: Groups,
                      firstfixed: int)
    returns (sec16: int, seg32: int)
    requires AllOf(s, g.rem16, Code16) && AllOf(s, g.seg32, Seg32)
    requires forall k :: 0 <= k < |fixed| ==> fixed[k].category == Category.Fixed
    requires forall m :: 0 <= m < |plan| ==> plan[m].section.category == Code16 && plan[m].section !in g.rem16
    requires TopDone(fixed, plan)
    modifies g.rem16, g.seg32
    ensures sec16 == StartFor(g.rem16, firstfixed, 0) && seg32 == StartFor(g.seg32, sec16, 0)
    ensures Laid(g.rem16, sec16, BIOS_ADDR) && Laid(g.seg32, seg32, BIOS_ADDR)
    ensures TopDone(fixed, plan)
  {
    sec16, seg32 := LayCode(s, g, firstfixed);
  }

  lemma LowerCategories(s: seq<Section>, g: Groups)
    requires AllOf(s, g.textfseg, TextFseg32) && AllOf(s, g.fseg, Fseg32)
    requires AllOf(s, g.flat, Flat32) && AllOf(s, g.init, Init32) && AllOf(s, g.low, Low32)
    ensures forall x :: x in Lower(g) ==> x.category !in {Category.Fixed, Code16, Seg32}
  {
  }

  /** Everything placed before the lower groups. */
  ghost predicate UpperDone(fixed: seq<Section>, plan: seq<Placement>, g: Groups, sec16: int, seg32: int)
    reads fixed, Targets(plan), g.rem16, g.seg32
  {
    TopDone(fixed, plan) && Laid(g.rem16, sec16, BIOS_ADDR) && Laid(g.seg32, seg32, BIOS_ADDR)
  }

  /** Laying out the lower groups leaves everything above alone. */
  method LayLowerBelow(ghost s: seq<Section>, ghost fixed: seq<Section>, ghost plan: seq<Placement>, g: Groups,
                       ghost sec16: int, seg32: int, uppermemory: bool, genreloc: bool)
    returns (textfseg: int, fseg: int, z: ZoneBases, initalign: nat, low: LowBases)
    requires AllOf(s, g.rem16, Code16) && AllOf(s, g.seg32, Seg32)
    requires AllOf(s, g.textfseg, TextFseg32) && AllOf(s, g.fseg, Fseg32)
    requires AllOf(s, g.flat, Flat32) && AllOf(s, g.init, Init32) && AllOf(s, g.low, Low32)
    requires forall k :: 0 <= k < |fixed| ==> fixed[k].category == Category.Fixed
    requires forall m :: 0 <= m < |plan| ==> plan[m].section.category == Code16
    requires UpperDone(fixed, plan, g, sec16, seg32)
    modifies Lower(g)
    ensures textfseg == StartFor(g.textfseg, seg32, 4) && fseg == StartFor(g.fseg, textfseg, 4)
    ensures z == ZoneOf(g, fseg, genreloc) && initalign == MaxAlign(g.init, 4)
    ensures low == LowOf(g, z, genreloc, uppermemory)
    ensures Laid(g.textfseg, textfseg, 0) && Laid(g.fseg, fseg, BIOS_ADDR)
    ensures Laid(g.flat, z.flat, 0) && Laid(g.init, z.init, 0)
    ensures Laid(g.low, low.start, low.segoffset)
    ensures UpperDone(fixed, plan, g, sec16, seg32)
  {
    LowerCategories(s, g);
    textfseg, fseg, z, initalign, low := LayLower(s, g, seg32, uppermemory, genreloc);
  }

  /** Every group after the fixed and filled sections, which stay where they are. */
  method LayRest(ghost s: seq<Section>, ghost fixed: seq<Section>, ghost plan: seq<Placement>, g: Groups,
                 firstfixed: int, uppermemory: bool, genreloc: bool) returns (li: LayoutInfo)
    requires AllOf(s, g.rem16, Code16) && AllOf(s, g.seg32, Seg32)
    requires AllOf(s, g.textfseg, TextFseg32) && AllOf(s, g.fseg, Fseg32)
    requires AllOf(s, g.flat, Flat32) && AllOf(s, g.init, Init32) && AllOf(s, g.low, Low32)
    requires forall k :: 0 <= k < |fixed| ==> fixed[k].category == Category.Fixed
    requires forall m :: 0 <= m < |plan| ==> plan[m].section.category == Code16 && plan[m].section !in g.rem16
    requires TopDone(fixed, plan)
    modifies g.rem16, g.seg32, Lower(g)
    ensures li.firstfixed == firstfixed && IsStacked(g, li, uppermemory, genreloc)
    ensures AllLaid(g, li) && TopDone(fixed, plan)
  {
    var sec16, seg32 := LayCodeBelow(s, fixed, plan, g, firstfixed);
    var textfseg, fseg, z, initalign, low := LayLowerBelow(s, fixed, plan, g, sec16, seg32, uppermemory, genreloc);
    li := LayoutInfo(firstfixed, sec16, seg32, textfseg, fseg, z, initalign, Readonly(z, genreloc), low);
  }

  ghost predicate InGroups(g: Groups, x: Section) {
    x in g.rem16 || x in g.seg32 || x in Lower(g)
  }

  /** Every section with an address is on top or in a group. */
  ghost predicate OnlyPlaced(s: seq<Section>, g: Groups)
    reads s
  {
    forall k :: 0 <= k < |s| ==> s[k].finalloc.Some? ==> OnTop(s, s[k]) || InGroups(g, s[k])
  }

  /** What `LayRest` asks of the sections that are already placed. */
  lemma TopSections(s: seq<Section>)
    requires Distinct(s)
    ensures forall k :: 0 <= k < |FixedOf(s)| ==> FixedOf(s)[k].category == Category.Fixed
    ensures var p := FillPlan(FixedOf(s), FillOf(s));
      forall m :: 0 <= m < |p| ==> p[m].section.category == Code16 && p[m].section !in GroupsOf(s).rem16
  {
    FillOfFrom(s);
    GroupsFrom(s);
    FillPlanTargets(FixedOf(s), FillOf(s));
    var p := FillPlan(FixedOf(s), FillOf(s));
    forall m | 0 <= m < |p|
      ensures p[m].section.category == Code16 && p[m].section !in GroupsOf(s).rem16
    {
      var k :| 0 <= k < |FillOf(s)| && FillOf(s)[k] == p[m].section;
      assert p[m].section in PlacedByFill(s);
    }
  }

  /** The layout that is left behind. */
  ghost predicate LaidOut(s: seq<Section>, li: LayoutInfo)
    reads s, FixedOf(s), PlacedByFill(s)
    reads GroupsOf(s).rem16, GroupsOf(s).seg32, GroupsOf(s).textfseg, GroupsOf(s).fseg
    reads GroupsOf(s).flat, GroupsOf(s).init, GroupsOf(s).low
  {
    && TopDone(FixedOf(s), FillPlan(FixedOf(s), FillOf(s)))
    && AllLaid(GroupsOf(s), li)
    && OnlyPlaced(s, GroupsOf(s))
  }

  /** `LayRest` on the groups of `doLayout`. */
  method LayGroups(sections: seq<Section>, g: Groups, firstfixed: int, uppermemory: bool, genreloc: bool)
    returns (li: LayoutInfo)
    requires Distinct(sections) && g == GroupsOf(sections) && OnlyTop(sections)
    requires TopDone(FixedOf(sections), FillPlan(FixedOf(sections), FillOf(sections)))
    modifies g.rem16, g.seg32, Lower(g)
    ensures li.firstfixed == firstfixed && IsStacked(g, li, uppermemory, genreloc) && LaidOut(sections, li)
  {
    GroupsFrom(sections);
    TopSections(sections);
    li := LayRest(sections, FixedOf(sections), FillPlan(FixedOf(sections), FillOf(sections)), g,
                  firstfixed, uppermemory, genreloc);
  }

  method DoLayout(sections: seq<Section>, uppermemory: bool, genreloc: bool) returns (r: Result<LayoutInfo, FitResult>)
    requires Distinct(sections) && forall k :: 0 <= k < |sections| ==> sections[k].finalloc == None
    modifies FixedOf(sections), FillOf(sections)
    modifies GroupsOf(sections).rem16, GroupsOf(sections).seg32, Lower(GroupsOf(sections))
    ensures r.Err? ==> Refused(FixedOf(sections), FillOf(sections), r.error)
    ensures r.Ok? ==> forall x :: x in FixedOf(sections) && x.fixedaddr.Some? ==> x.alignlog == 0
    ensures r.Ok? ==> Comparable(FillOf(sections))
    ensures r.Ok? ==> StartsAt(sections, r.value.firstfixed)
    ensures r.Ok? ==> IsStacked(GroupsOf(sections), r.value, uppermemory, genreloc)
    ensures r.Ok? ==> LaidOut(sections, r.value)
  {
    var fit := LayTop(sections);
    if !fit.Fitted? {
      return Err(fit);
    }
    var rem16 := Remaining16(sections);
    var g := Groups(rem16, ByPrefix(OfCategory(sections, Seg32), TEXT32SEG, 3),
                    OfCategory(sections, TextFseg32), OfCategory(sections, Fseg32),
                    ByPrefix(OfCategory(sections, Flat32), TEXT32FLAT, 4),
                    ByPrefix(OfCategory(sections, Init32), TEXT32FLAT, 4), OfCategory(sections, Low32));
    var li := LayGroups(sections, g, fit.firstfixed, uppermemory, genreloc);
    return Ok(li);
  }
}
