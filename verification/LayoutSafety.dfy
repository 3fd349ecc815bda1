/** What every layout computed by `doLayout` satisfies. */
module LayoutSafety {
  import opened Common
  import opened Sections
  import opened GapFilling
  import opened FixedSections
  import opened Layout

  /** Group `g`, laid out from its start address, ends at or below `end`. */
  ghost predicate Below(g: seq<Section>, end: int, least: nat) {
    Space(g) <= end || IsAligned(end - Space(g), MaxAlign(g, least))
  }

  /** Where the flat group has to end: at the f-segment data, or at the zone forced below it. */
  ghost function FlatEnd(g: Groups, fseg: int, genreloc: bool): int {
    var flat := StartFor(g.flat, fseg, 4);
    var init := StartFor(g.init, flat, 4);
    if BIOS_ADDR + MIN_BIOSTABLE > (if genreloc then flat else init) then fseg - MIN_BIOSTABLE else fseg
  }

  /** The groups are not larger than the addresses below them allow. */
  ghost predicate Fits(g: Groups, li: LayoutInfo, genreloc: bool) {
    && Below(g.rem16, li.firstfixed, 0) && Below(g.seg32, li.sec16, 0)
    && Below(g.textfseg, li.seg32, 4) && Below(g.fseg, li.textfseg, 4)
    && Below(g.flat, FlatEnd(g, li.fseg, genreloc), 4) && Below(g.init, li.zone.flat, 4)
    && Below(g.low, li.zone.init, 4)
  }

  ghost predicate InGroup(g: seq<Section>, start: int, x: Section, a: int) {
    exists k :: 0 <= k < |g| && g[k] == x && a == Locs(g, start, |g|)[k]
  }

  /** The group on each level, from the top down; level 0 belongs to `fitSections`. */
  ghost function GroupAt(g: Groups, i: nat): seq<Section>
    requires 1 <= i <= 7
  {
    match i case 1 => g.rem16 case 2 => g.seg32 case 3 => g.textfseg case 4 => g.fseg
    case 5 => g.flat case 6 => g.init case _ => g.low
  }

  ghost function StartAt(li: LayoutInfo, i: nat): int
    requires i <= 7
  {
    match i case 0 => li.firstfixed case 1 => li.sec16 case 2 => li.seg32 case 3 => li.textfseg case 4 => li.fseg
    case 5 => li.zone.flat case 6 => li.zone.init case _ => li.low.start
  }

  ghost function EndAt(li: LayoutInfo, flatend: int, i: nat): int
    requires i <= 7
  {
    if i == 0 then BIOS_ADDR + BIOS_SIZE else if i == 5 then flatend else StartAt(li, i - 1)
  }

  /** Section `x` is given address `a` on level `i`. */
  ghost predicate Assigned(s: seq<Section>, li: LayoutInfo, i: nat, x: Section, a: int)
    requires i <= 7
  {
    if i == 0 then Located(FixedOf(s), FillOf(s), x, a - BIOS_ADDR)
    else InGroup(GroupAt(GroupsOf(s), i), StartAt(li, i), x, a)
  }

  /** The premises: fixed sections that fit, groups that fit, and the numbers of `DoLayout`. */
  ghost predicate GoodLayout(s: seq<Section>, li: LayoutInfo, uppermemory: bool, genreloc: bool) {
    var f := FixedByAddr(FixedOf(s));
    && Distinct(s) && f != [] && FixedFit(f)
    && li.firstfixed == Addr(f[0]) + BIOS_ADDR
    && IsStacked(GroupsOf(s), li, uppermemory, genreloc)
    && Fits(GroupsOf(s), li, genreloc)
  }

  lemma GroupInside(g: seq<Section>, end: int, least: nat, k: nat)
    requires Below(g, end, least) && k < |g|
    ensures var start := StartFor(g, end, least);
      start <= Locs(g, start, |g|)[k] && Locs(g, start, |g|)[k] + g[k].size <= end
  {
    var start := StartFor(g, end, least);
    StartBounds(g, end, least);
    LocsStack(g, start, k, k);
    LocsAt(g, start, |g|, k);
  }

  lemma GroupApart(g: seq<Section>, start: int, k: nat, l: nat)
    requires k < |g| && l < |g| && k != l
    ensures Apart(Locs(g, start, |g|)[k], g[k].size, Locs(g, start, |g|)[l], g[l].size)
  {
    LocsAt(g, start, |g|, k);
    LocsAt(g, start, |g|, l);
    LocsStack(g, start, if k < l then k else l, if k < l then l else k);
  }

  /** Each level ends at or below the start of the one above it. */
  ghost predicate Tower(g: Groups, li: LayoutInfo, flatend: int) {
    && flatend <= li.fseg
    && forall i :: 1 <= i <= 7 ==> Level(g, li, flatend, i)
  }

  ghost predicate Level(g: Groups, li: LayoutInfo, flatend: int, i: nat)
    requires 1 <= i <= 7
  {
    && Below(GroupAt(g, i), EndAt(li, flatend, i), if i <= 2 then 0 else 4)
    && StartAt(li, i) == StartFor(GroupAt(g, i), EndAt(li, flatend, i), if i <= 2 then 0 else 4)
  }

  lemma ZoneBounds(g: Groups, fseg: int, genreloc: bool)
    ensures var z, e := ZoneOf(g, fseg, genreloc), FlatEnd(g, fseg, genreloc);
      && z.flat == StartFor(g.flat, e, 4) && z.init == StartFor(g.init, z.flat, 4)
      && e <= fseg && MIN_BIOSTABLE <= z.end - z.start
      && ((z.start == e && z.end == fseg) || (e == fseg && z.end == if genreloc then z.flat else z.init))
  {
  }

  lemma GoodIsTower(s: seq<Section>, li: LayoutInfo, uppermemory: bool, genreloc: bool) returns (flatend: int)
    requires GoodLayout(s, li, uppermemory, genreloc)
    ensures flatend == FlatEnd(GroupsOf(s), li.fseg, genreloc) && Tower(GroupsOf(s), li, flatend)
  {
    flatend := FlatEnd(GroupsOf(s), li.fseg, genreloc);
    StackedTower(GroupsOf(s), li, flatend, uppermemory, genreloc);
  }

  lemma StackedTower(g: Groups, li: LayoutInfo, flatend: int, uppermemory: bool, genreloc: bool)
    requires IsStacked(g, li, uppermemory, genreloc) && Fits(g, li, genreloc)
    requires flatend == FlatEnd(g, li.fseg, genreloc)
    ensures Tower(g, li, flatend)
  {
    ZoneBounds(g, li.fseg, genreloc);
  }

  /** The groups fit, by their sizes and alignments, if and only if each ends at or below its limit. */
  lemma FitsIffBelow(g: Groups, li: LayoutInfo, uppermemory: bool, genreloc: bool)
    requires IsStacked(g, li, uppermemory, genreloc)
    ensures Fits(g, li, genreloc) <==>
            var flatend := FlatEnd(g, li.fseg, genreloc);
            forall i :: 1 <= i <= 7 ==> EndsBelow(GroupAt(g, i), StartAt(li, i), EndAt(li, flatend, i))
  {
    var flatend := FlatEnd(g, li.fseg, genreloc);
    ZoneBounds(g, li.fseg, genreloc);
    forall i | 1 <= i <= 7
      ensures EndsBelow(GroupAt(g, i), StartAt(li, i), EndAt(li, flatend, i))
              <==> Below(GroupAt(g, i), EndAt(li, flatend, i), if i <= 2 then 0 else 4)
    {
      StartBounds(GroupAt(g, i), EndAt(li, flatend, i), if i <= 2 then 0 else 4);
    }
    FitsByLevel(g, li, flatend, genreloc);
  }

  ghost predicate EndsBelow(s: seq<Section>, start: int, end: int) {
    End(s, start, |s|) <= end
  }

  lemma FitsByLevel(g: Groups, li: LayoutInfo, flatend: int, genreloc: bool)
    requires flatend == FlatEnd(g, li.fseg, genreloc)
    ensures Fits(g, li, genreloc) <==>
            forall i :: 1 <= i <= 7 ==> Below(GroupAt(g, i), EndAt(li, flatend, i), if i <= 2 then 0 else 4)
  {
    assert GroupAt(g, 1) == g.rem16 && GroupAt(g, 2) == g.seg32 && GroupAt(g, 3) == g.textfseg;
    assert GroupAt(g, 4) == g.fseg && GroupAt(g, 5) == g.flat && GroupAt(g, 6) == g.init && GroupAt(g, 7) == g.low;
  }

  lemma LevelInside(g: Groups, li: LayoutInfo, flatend: int, i: nat)
    requires Tower(g, li, flatend) && 1 <= i <= 7
    ensures StartAt(li, i) <= EndAt(li, flatend, i) <= StartAt(li, i - 1)
  {
    assert Level(g, li, flatend, i);
    StartBounds(GroupAt(g, i), EndAt(li, flatend, i), if i <= 2 then 0 else 4);
    EndMonotone(GroupAt(g, i), StartAt(li, i), 0, |GroupAt(g, i)|);
  }

  lemma {:induction false} LevelsDescend(g: Groups, li: LayoutInfo, flatend: int, i: nat, j: nat)
    requires Tower(g, li, flatend) && i < j <= 7
    ensures EndAt(li, flatend, j) <= StartAt(li, i)
    decreases j
  {
    LevelInside(g, li, flatend, j);
    if i < j - 1 {
      LevelInside(g, li, flatend, j - 1);
      LevelsDescend(g, li, flatend, i, j - 1);
    }
  }

  lemma AssignedInside(s: seq<Section>, li: LayoutInfo, flatend: int, i: nat, x: Section, a: int)
    requires Distinct(s) && FixedByAddr(FixedOf(s)) != [] && FixedFit(FixedByAddr(FixedOf(s)))
    requires li.firstfixed == Addr(FixedByAddr(FixedOf(s))[0]) + BIOS_ADDR
    requires Tower(GroupsOf(s), li, flatend) && i <= 7 && Assigned(s, li, i, x, a)
    ensures StartAt(li, i) <= a && a + x.size <= EndAt(li, flatend, i)
  {
    if i == 0 {
      FillOfFrom(s);
      FittedInside(FixedOf(s), FillOf(s), x, a - BIOS_ADDR);
    } else {
      var g := GroupAt(GroupsOf(s), i);
      assert Level(GroupsOf(s), li, flatend, i);
      var k :| 0 <= k < |g| && g[k] == x && a == Locs(g, StartAt(li, i), |g|)[k];
      GroupInside(g, EndAt(li, flatend, i), if i <= 2 then 0 else 4, k);
    }
  }

  /** Two sections on one level. */
  lemma LevelApart(s: seq<Section>, li: LayoutInfo, i: nat, x: Section, a: int, y: Section, b: int)
    requires Distinct(s) && FixedFit(FixedByAddr(FixedOf(s))) && i <= 7 && x != y
    requires Assigned(s, li, i, x, a) && Assigned(s, li, i, y, b)
    ensures Apart(a, x.size, b, y.size)
  {
    if i == 0 {
      FillOfFrom(s);
      FittedSectionsApart(FixedOf(s), FillOf(s), x, a - BIOS_ADDR, y, b - BIOS_ADDR);
    } else {
      var g, start := GroupAt(GroupsOf(s), i), StartAt(li, i);
      var k :| 0 <= k < |g| && g[k] == x && a == Locs(g, start, |g|)[k];
      var l :| 0 <= l < |g| && g[l] == y && b == Locs(g, start, |g|)[l];
      GroupApart(g, start, k, l);
    }
  }

  /** Any two sections that receive addresses occupy disjoint ranges, whatever their categories. */
  lemma SectionsDisjoint(s: seq<Section>, li: LayoutInfo, uppermemory: bool, genreloc: bool,
                         i: nat, x: Section, a: int, j: nat, y: Section, b: int)
    requires GoodLayout(s, li, uppermemory, genreloc) && i <= 7 && j <= 7 && x != y
    requires Assigned(s, li, i, x, a) && Assigned(s, li, j, y, b)
    ensures Apart(a, x.size, b, y.size)
  {
    if i == j {
      LevelApart(s, li, i, x, a, y, b);
    } else {
      var flatend := GoodIsTower(s, li, uppermemory, genreloc);
      AssignedInside(s, li, flatend, i, x, a);
      AssignedInside(s, li, flatend, j, y, b);
      LevelsDescend(GroupsOf(s), li, flatend, if i < j then i else j, if i < j then j else i);
    }
  }

  /** The zone is large enough and meets no section that stays in place at run time. */
  lemma ZoneReserved(s: seq<Section>, li: LayoutInfo, uppermemory: bool, genreloc: bool, i: nat, x: Section, a: int)
    requires GoodLayout(s, li, uppermemory, genreloc)
    requires i <= (if genreloc then 5 else 6) && Assigned(s, li, i, x, a)
    ensures MIN_BIOSTABLE <= li.zone.end - li.zone.start
    ensures Apart(a, x.size, li.zone.start, li.zone.end - li.zone.start)
  {
    var flatend := GoodIsTower(s, li, uppermemory, genreloc);
    AssignedInside(s, li, flatend, i, x, a);
    LevelClear(GroupsOf(s), li, flatend, genreloc, i);
  }

  /** A level that stays in place lies above the zone or below it. */
  lemma LevelClear(g: Groups, li: LayoutInfo, flatend: int, genreloc: bool, i: nat)
    requires Tower(g, li, flatend) && flatend == FlatEnd(g, li.fseg, genreloc)
    requires li.zone == ZoneOf(g, li.fseg, genreloc) && i <= (if genreloc then 5 else 6)
    ensures MIN_BIOSTABLE <= li.zone.end - li.zone.start
    ensures li.zone.end <= StartAt(li, i) || EndAt(li, flatend, i) <= li.zone.start
  {
    ZoneBounds(g, li.fseg, genreloc);
    LevelInside(g, li, flatend, 5);
    LevelInside(g, li, flatend, 6);
    if i < 4 { LevelsDescend(g, li, flatend, i, 4); LevelInside(g, li, flatend, 4); }
  }

  /**
   * The zone holds more than the least size exactly when the flat sections, and the init sections
   * unless they are relocated, leave that much room above 0xf0000. For `want == 8192`, the size
   * the script means to reserve in large images, nothing else provides it.
   */
  lemma ZoneRoom(g: Groups, li: LayoutInfo, uppermemory: bool, genreloc: bool, want: int)
    requires IsStacked(g, li, uppermemory, genreloc) && MIN_BIOSTABLE < want
    ensures var flat := StartFor(g.flat, li.fseg, 4);
            want <= li.zone.end - li.zone.start <==>
            BIOS_ADDR + want <= if genreloc then flat else StartFor(g.init, flat, 4)
  {
  }

  // ---------- the addresses that are stored ----------

  /** A stored section of a group is assigned its stored address. */
  lemma GroupStored(s: seq<Section>, li: LayoutInfo, i: nat, segoffset: int, x: Section)
    requires 1 <= i <= 7 && x in GroupAt(GroupsOf(s), i)
    requires Laid(GroupAt(GroupsOf(s), i), StartAt(li, i), segoffset)
    ensures x.finalloc.Some? && Assigned(s, li, i, x, x.finalloc.value)
  {
    var g := GroupAt(GroupsOf(s), i);
    var k :| 0 <= k < |g| && g[k] == x;
    assert PlacedAt(g[k], Locs(g, StartAt(li, i), |g|)[k], segoffset);
  }

  lemma TopStored(s: seq<Section>, li: LayoutInfo, x: Section)
    requires Distinct(s) && TopDone(FixedOf(s), FillPlan(FixedOf(s), FillOf(s))) && OnTop(s, x)
    ensures x.finalloc.Some? && Assigned(s, li, 0, x, x.finalloc.value)
  {
    FillOfFrom(s);
    var f, p := FixedOf(s), FillPlan(FixedOf(s), FillOf(s));
    if x in f && x.fixedaddr.Some? {
      var k :| 0 <= k < |f| && f[k] == x;
      var j := FixedByAddrHolds(f, x);
      assert AtItsAddress(f[k]);
    } else {
      var m :| 0 <= m < |p| && p[m].section == x;
      assert Stored(p[m]) && p[m] == Placement(x, p[m].pos);
    }
  }

  /** Every section that `doLayout` gives an address has a level, with the category of that level. */
  lemma StoredLevel(s: seq<Section>, li: LayoutInfo, x: Section) returns (i: nat)
    requires Distinct(s) && LaidOut(s, li) && x in s && x.finalloc.Some?
    ensures i <= 7 && Assigned(s, li, i, x, x.finalloc.value)
    ensures (i == 7 ==> x.category == Low32) && (i == 6 ==> x.category == Init32)
  {
    GroupsFrom(s);
    var k :| 0 <= k < |s| && s[k] == x;
    var g := GroupsOf(s);
    if OnTop(s, x) {
      i := 0;
      TopStored(s, li, x);
    } else {
      i := LevelOf(g, x);
      var segoffset := LaidAt(g, li, i);
      GroupStored(s, li, i, segoffset, x);
    }
  }

  lemma LaidAt(g: Groups, li: LayoutInfo, i: nat) returns (segoffset: int)
    requires AllLaid(g, li) && 1 <= i <= 7
    ensures Laid(GroupAt(g, i), StartAt(li, i), segoffset)
  {
    segoffset := if i in {1, 2, 4} then BIOS_ADDR else if i == 7 then li.low.segoffset else 0;
  }

  lemma LevelOf(g: Groups, x: Section) returns (i: nat)
    requires InGroups(g, x)
    ensures 1 <= i <= 7 && x in GroupAt(g, i)
  {
    i := if x in g.rem16 then 1 else if x in g.seg32 then 2 else if x in g.textfseg then 3
         else if x in g.fseg then 4 else if x in g.flat then 5 else if x in g.init then 6 else 7;
  }

  /** After `doLayout`, any two sections with addresses occupy disjoint ranges. */
  lemma StoredDisjoint(s: seq<Section>, li: LayoutInfo, uppermemory: bool, genreloc: bool, x: Section, y: Section)
    requires GoodLayout(s, li, uppermemory, genreloc) && LaidOut(s, li)
    requires x in s && y in s && x != y && x.finalloc.Some? && y.finalloc.Some?
    ensures Apart(x.finalloc.value, x.size, y.finalloc.value, y.size)
  {
    var i := StoredLevel(s, li, x);
    var j := StoredLevel(s, li, y);
    SectionsDisjoint(s, li, uppermemory, genreloc, i, x, x.finalloc.value, j, y, y.finalloc.value);
  }

  /**
   * After `doLayout`, the zone is large enough and meets no section with an address, except
   * those in low memory, and the init sections when they are relocated.
   */
  lemma StoredOutsideZone(s: seq<Section>, li: LayoutInfo, uppermemory: bool, genreloc: bool, x: Section)
    requires GoodLayout(s, li, uppermemory, genreloc) && LaidOut(s, li) && x in s && x.finalloc.Some?
    requires x.category != Low32 && (genreloc ==> x.category != Init32)
    ensures MIN_BIOSTABLE <= li.zone.end - li.zone.start
    ensures Apart(x.finalloc.value, x.size, li.zone.start, li.zone.end - li.zone.start)
  {
    var i := StoredLevel(s, li, x);
    ZoneReserved(s, li, uppermemory, genreloc, i, x, x.finalloc.value);
  }

  // ---------- low memory ----------

  lemma GroupAligned(g: seq<Section>, start: int, k: nat)
    requires k < |g|
    ensures IsAligned(Locs(g, start, |g|)[k], g[k].alignlog)
  {
    LocsAt(g, start, |g|, k);
    AlignPosLeast(End(g, start, k), g[k].alignlog, 0);
  }

  /** A low section's segment offset is its relocated address less the zone base, and relocation keeps it
      below the end of low memory. */
  lemma LowRelocation(s: seq<Section>, li: LayoutInfo, uppermemory: bool, genreloc: bool, x: Section, a: int)
    requires GoodLayout(s, li, uppermemory, genreloc) && Assigned(s, li, 7, x, a)
    ensures a - li.low.segoffset + li.low.zonebase == a + li.low.relocdelta
    ensures a + li.low.relocdelta + x.size <= li.low.finalend
  {
    var flatend := GoodIsTower(s, li, uppermemory, genreloc);
    AssignedInside(s, li, flatend, 7, x, a);
  }

  /** The distance is aligned, up to the alignment of 0xa0000, exactly when the init sections start aligned. */
  lemma DistanceAligned(init: int, k: nat)
    requires k <= 17
    ensures IsAligned(LOWRAM_END - init, k) <==> IsAligned(init, k)
  {
    EndOfLowAligned(k);
    AlignDownShift(LOWRAM_END, -init, k);
    NegatedAligned(init, k);
  }

  lemma EndOfLowAligned(k: nat)
    requires k <= 17
    ensures IsAligned(LOWRAM_END, k)
  {
    assert Pow2(8) == 256 && Pow2(14) == 64 * Pow2(8) && Pow2(17) == 8 * Pow2(14);
    AlignedIffMultiple(LOWRAM_END, 17);
    AlignedToSmaller(LOWRAM_END, k, 17);
  }

  /**
   * Without upper memory, relocation keeps the alignment of a low section exactly when the init
   * sections start at a multiple of it; so it does for every alignment the init sections have.
   */
  lemma LowAlignment(s: seq<Section>, li: LayoutInfo, genreloc: bool, x: Section, a: int)
    requires IsStacked(GroupsOf(s), li, false, genreloc) && Assigned(s, li, 7, x, a)
    ensures IsAligned(a + li.low.relocdelta, x.alignlog) <==> IsAligned(LOWRAM_END - li.zone.init, x.alignlog)
    ensures x.alignlog <= 17 ==>
              (IsAligned(a + li.low.relocdelta, x.alignlog) <==> IsAligned(li.zone.init, x.alignlog))
    ensures x.alignlog <= MaxAlign(GroupsOf(s).init, 4) ==> IsAligned(li.zone.init, x.alignlog)
  {
    AssignedLow(s, li, x, a);
    InLowMemory(GroupsOf(s), li, genreloc, x, a);
  }

  lemma AssignedLow(s: seq<Section>, li: LayoutInfo, x: Section, a: int)
    requires Assigned(s, li, 7, x, a)
    ensures InGroup(GroupsOf(s).low, li.low.start, x, a)
  {
  }

  lemma InLowMemory(g: Groups, li: LayoutInfo, genreloc: bool, x: Section, a: int)
    requires IsStacked(g, li, false, genreloc) && InGroup(g.low, li.low.start, x, a)
    ensures IsAligned(a + li.low.relocdelta, x.alignlog) <==> IsAligned(LOWRAM_END - li.zone.init, x.alignlog)
    ensures x.alignlog <= 17 ==>
              (IsAligned(a + li.low.relocdelta, x.alignlog) <==> IsAligned(li.zone.init, x.alignlog))
    ensures x.alignlog <= MaxAlign(g.init, 4) ==> IsAligned(li.zone.init, x.alignlog)
  {
    Relocated(g.low, li.low.start, x, a, li.low.relocdelta);
    DistanceOf(g, li, false, genreloc);
    InitAligned(g, li.fseg, genreloc, x.alignlog);
    if x.alignlog <= 17 {
      DistanceAligned(li.zone.init, x.alignlog);
    }
  }

  lemma Relocated(g: seq<Section>, start: int, x: Section, a: int, delta: int)
    requires InGroup(g, start, x, a)
    ensures IsAligned(a + delta, x.alignlog) <==> IsAligned(delta, x.alignlog)
  {
    var k :| 0 <= k < |g| && g[k] == x && a == Locs(g, start, |g|)[k];
    GroupAligned(g, start, k);
    AlignDownShift(a, delta, x.alignlog);
  }

  lemma DistanceOf(g: Groups, li: LayoutInfo, uppermemory: bool, genreloc: bool)
    requires IsStacked(g, li, uppermemory, genreloc)
    ensures li.zone == ZoneOf(g, li.fseg, genreloc)
    ensures li.low.relocdelta == (if uppermemory then Readonly(li.zone, genreloc) else LOWRAM_END) - li.zone.init
  {
  }

  lemma InitAligned(g: Groups, fseg: int, genreloc: bool, k: nat)
    ensures k <= MaxAlign(g.init, 4) ==> IsAligned(ZoneOf(g, fseg, genreloc).init, k)
    ensures k <= MaxAlign(g.flat, 4) ==> IsAligned(ZoneOf(g, fseg, genreloc).flat, k)
  {
    var z, e := ZoneOf(g, fseg, genreloc), FlatEnd(g, fseg, genreloc);
    ZoneBounds(g, fseg, genreloc);
    StartAligned(g.flat, e, k);
    StartAligned(g.init, z.flat, k);
  }

  lemma StartAligned(s: seq<Section>, end: int, k: nat)
    ensures k <= MaxAlign(s, 4) ==> IsAligned(StartFor(s, end, 4), k)
  {
    StartBounds(s, end, 4);
    if k <= MaxAlign(s, 4) {
      AlignedToSmaller(StartFor(s, end, 4), k, MaxAlign(s, 4));
    }
  }

  /**
   * With upper memory, relocation keeps the alignment of a low section exactly when the distance
   * from the init sections to the start of the read-only memory has it; so it does for every
   * alignment up to 2^16 that both the flat and the init sections have.
   */
  lemma LowAlignmentUpper(s: seq<Section>, li: LayoutInfo, genreloc: bool, x: Section, a: int)
    requires IsStacked(GroupsOf(s), li, true, genreloc) && Assigned(s, li, 7, x, a)
    ensures IsAligned(a + li.low.relocdelta, x.alignlog) <==>
            IsAligned(Readonly(li.zone, genreloc) - li.zone.init, x.alignlog)
    ensures var g := GroupsOf(s);
            x.alignlog <= 16 && x.alignlog <= MaxAlign(g.init, 4) && x.alignlog <= MaxAlign(g.flat, 4) ==>
              IsAligned(a + li.low.relocdelta, x.alignlog)
  {
    AssignedLow(s, li, x, a);
    InUpperMemory(GroupsOf(s), li, genreloc, x, a);
  }

  lemma InUpperMemory(g: Groups, li: LayoutInfo, genreloc: bool, x: Section, a: int)
    requires IsStacked(g, li, true, genreloc) && InGroup(g.low, li.low.start, x, a)
    ensures IsAligned(a + li.low.relocdelta, x.alignlog) <==>
            IsAligned(Readonly(li.zone, genreloc) - li.zone.init, x.alignlog)
    ensures x.alignlog <= 16 && x.alignlog <= MaxAlign(g.init, 4) && x.alignlog <= MaxAlign(g.flat, 4) ==>
              IsAligned(a + li.low.relocdelta, x.alignlog)
  {
    Relocated(g.low, li.low.start, x, a, li.low.relocdelta);
    DistanceOf(g, li, true, genreloc);
    InitAligned(g, li.fseg, genreloc, x.alignlog);
    if x.alignlog <= 16 && x.alignlog <= MaxAlign(g.init, 4) && x.alignlog <= MaxAlign(g.flat, 4) {
      ReadonlyAligned(li.zone, genreloc, x.alignlog);
    }
  }

  lemma ReadonlyAligned(z: ZoneBases, genreloc: bool, k: nat)
    requires k <= 16 && IsAligned(z.init, k) && IsAligned(z.flat, k)
    ensures IsAligned(Readonly(z, genreloc) - z.init, k)
  {
    BiosAligned(k);
    NegatedAligned(z.init, k);
    AlignDownShift(Readonly(z, genreloc), -z.init, k);
  }

  lemma BiosAligned(k: nat)
    requires k <= 16
    ensures IsAligned(BIOS_ADDR, k)
  {
    assert Pow2(8) == 256 && Pow2(14) == 64 * Pow2(8) && Pow2(16) == 4 * Pow2(14);
    AlignedIffMultiple(BIOS_ADDR, 16);
    AlignedToSmaller(BIOS_ADDR, k, 16);
  }
}
