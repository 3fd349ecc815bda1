/** Section lists for which `doLayout` does less than expected. */
module LayoutExamples {
  import opened Common
  import opened Sections
  import opened GapFilling
  import opened FixedSections
  import opened Layout
  import opened LayoutSafety
  import FillAlignment

  // ---------- selecting from a short list ----------

  lemma {:induction false} SelectNone(s: seq<Section>, n: nat, p: Section -> bool)
    requires n <= |s| && forall i :: 0 <= i < n ==> !p(s[i])
    ensures Select(s, n, p) == []
  {
    if n > 0 {
      SelectNone(s, n - 1, p);
    }
  }

  lemma {:induction false} SelectOne(s: seq<Section>, n: nat, p: Section -> bool, k: nat)
    requires k < n <= |s| && p(s[k]) && forall i :: 0 <= i < n && i != k ==> !p(s[i])
    ensures Select(s, n, p) == [s[k]]
  {
    if k == n - 1 {
      SelectNone(s, n - 1, p);
    } else {
      SelectOne(s, n - 1, p, k);
    }
  }

  /** No section of the list, or just one, has the category. */
  lemma NoneOf(s: seq<Section>, category: Category)
    requires forall i :: 0 <= i < |s| ==> s[i].category != category
    ensures OfCategory(s, category) == []
  {
    SelectNone(s, |s|, (x: Section) => x.category == category);
  }

  lemma OneOf(s: seq<Section>, category: Category, k: nat)
    requires k < |s| && s[k].category == category
    requires forall i :: 0 <= i < |s| && i != k ==> s[i].category != category
    ensures OfCategory(s, category) == [s[k]]
  {
    SelectOne(s, |s|, (x: Section) => x.category == category, k);
  }

  lemma {:induction false} ByPrefixNone(prefixes: seq<string>, n: nat)
    requires n <= |prefixes|
    ensures ByPrefix([], prefixes, n) == []
  {
    if n > 0 {
      ByPrefixNone(prefixes, n - 1);
    }
  }

  lemma WithPrefixOne(x: Section, prefix: string)
    ensures WithPrefix([x], prefix) == if prefix <= x.name then [x] else []
  {
    var p := (y: Section) => prefix <= y.name;
    if prefix <= x.name { SelectOne([x], 1, p, 0); } else { SelectNone([x], 1, p); }
  }

  /** A data section of the flat group. */
  lemma OneFlat(x: Section)
    requires ".data." <= x.name
    ensures ByPrefix([x], TEXT32FLAT, 4) == [x]
  {
    WithPrefixOne(x, TEXT32FLAT[0]);
    WithPrefixOne(x, TEXT32FLAT[1]);
    WithPrefixOne(x, TEXT32FLAT[2]);
    WithPrefixOne(x, TEXT32FLAT[3]);
    assert x.name[..6] == ".data.";
    assert x.name[1] == 'd' && x.name[2] == 'a';
    assert ByPrefix([x], TEXT32FLAT, 0) == [];
    assert ByPrefix([x], TEXT32FLAT, 1) == [];
    assert ByPrefix([x], TEXT32FLAT, 2) == [];
    assert ByPrefix([x], TEXT32FLAT, 3) == [x];
  }

  lemma NoCode(s: seq<Section>)
    requires OfCategory(s, Code16) == []
    ensures FillOf(s) == [] && GroupsOf(s).rem16 == []
  {
    ByPrefixNone(TEXT16, 3);
  }

  // ---------- start addresses ----------

  /** The multiple of `2 ** k` just below a number. */
  lemma Truncated(x: int, k: nat, v: int)
    requires 0 <= v <= x < v + Pow2(k) && v % Pow2(k) == 0
    ensures TruncTo(x, k) == v
  {
    AlignedIffMultiple(v, k);
    AlignDownShift(v, x - v, k);
    AlignDownBounds(x - v, k);
  }

  lemma Nothing(least: nat)
    ensures Space([]) == 0 && MaxAlign([], least) == least
  {
  }

  lemma OneSection(x: Section, least: nat)
    requires x.alignlog == 0
    ensures Space([x]) == x.size && MaxAlign([x], least) == least
  {
    var s := [x];
    assert End(s, 0, 0) == 0 && MaxOver(s, 0, least) == least;
  }

  lemma StartIs(s: seq<Section>, end: int, least: nat, v: int)
    requires MaxAlign(s, least) == least
    requires 0 <= v <= end - Space(s) < v + Pow2(least) && v % Pow2(least) == 0
    ensures StartFor(s, end, least) == v
  {
    Truncated(end - Space(s), least, v);
  }

  lemma StartOfNothing(end: int, least: nat, v: int)
    requires 0 <= v <= end < v + Pow2(least) && v % Pow2(least) == 0
    ensures StartFor([], end, least) == v
  {
    Nothing(least);
    StartIs([], end, least, v);
  }

  lemma StartOfOne(x: Section, end: int, least: nat, v: int)
    requires x.alignlog == 0 && 0 <= v <= end - x.size < v + Pow2(least) && v % Pow2(least) == 0
    ensures StartFor([x], end, least) == v
  {
    OneSection(x, least);
    StartIs([x], end, least, v);
  }

  // ---------- a large data section ----------

  /** One fixed section, data that almost fills the segment below it, and an aligned low section. */
  predicate LargeData(s: seq<Section>) {
    && |s| == 3
    && s[0].category == Category.Fixed && s[0].fixedaddr == Some(0xe05b) && s[0].size == 3
    && s[1].category == Flat32 && ".data." <= s[1].name && s[1].size == 0xd860 && s[1].alignlog == 0
    && s[2].category == Low32 && s[2].size == 32 && s[2].alignlog == 5
  }

  lemma LargeDataGroups(s: seq<Section>)
    requires LargeData(s)
    ensures GroupsOf(s) == Groups([], [], [], [], [s[1]], [], [s[2]]) && FixedOf(s) == [s[0]]
  {
    OneOf(s, Category.Fixed, 0);
    OneOf(s, Flat32, 1);
    OneOf(s, Low32, 2);
    NoneOf(s, Code16);
    NoneOf(s, Seg32);
    NoneOf(s, TextFseg32);
    NoneOf(s, Fseg32);
    NoneOf(s, Init32);
    NoCode(s);
    ByPrefixNone(TEXT32SEG, 3);
    ByPrefixNone(TEXT32FLAT, 4);
    OneFlat(s[1]);
  }

  /**
   * The zone of an image of any size can be 2048 bytes small: here the data is laid out a second
   * time, below the zone, and the zone ends at the f-segment data.
   */
  lemma SmallZone(s: seq<Section>, li: LayoutInfo, uppermemory: bool, genreloc: bool)
    requires LargeData(s) && StartsAt(s, li.firstfixed)
    requires IsStacked(GroupsOf(s), li, uppermemory, genreloc)
    ensures li.zone == ZoneBases(0xefff0, 0xefff0, 0xfd850, 0xfe050)
    ensures li.zone.end - li.zone.start == 2048
  {
    LargeDataGroups(s);
    FillAlignment.OneFixed(s[0]);
    StartsAbove(GroupsOf(s), li, uppermemory, genreloc);
    ZoneOfData(GroupsOf(s), s[1], genreloc);
  }

  lemma ZoneOfData(g: Groups, x: Section, genreloc: bool)
    requires g.flat == [x] && g.init == [] && x.size == 0xd860 && x.alignlog == 0
    ensures ZoneOf(g, 0xfe050, genreloc) == ZoneBases(0xefff0, 0xefff0, 0xfd850, 0xfe050)
    ensures FlatEnd(g, 0xfe050, genreloc) == 0xfd850
  {
    assert Pow2(4) == 16;
    StartOfOne(x, 0xfe050, 4, 0xf07f0);
    StartOfNothing(0xf07f0, 4, 0xf07f0);
    StartOfOne(x, 0xfd850, 4, 0xefff0);
    StartOfNothing(0xefff0, 4, 0xefff0);
  }

  /** All of them fit, so what `StoredDisjoint` and `StoredOutsideZone` say holds of them. */
  lemma LargeDataFits(s: seq<Section>, li: LayoutInfo, uppermemory: bool, genreloc: bool)
    requires LargeData(s) && StartsAt(s, li.firstfixed)
    requires IsStacked(GroupsOf(s), li, uppermemory, genreloc)
    ensures GoodLayout(s, li, uppermemory, genreloc)
  {
    LargeDataGroups(s);
    LargeDataFixed(s);
    GroupsFit(GroupsOf(s), li, uppermemory, genreloc, s[1], s[2]);
  }

  lemma LargeDataFixed(s: seq<Section>)
    requires LargeData(s)
    ensures Distinct(s) && FixedByAddr([s[0]]) == [s[0]] && FixedFit([s[0]])
  {
    FillAlignment.OneFixed(s[0]);
  }

  lemma GroupsFit(g: Groups, li: LayoutInfo, uppermemory: bool, genreloc: bool, x: Section, y: Section)
    requires g.rem16 == g.seg32 == g.textfseg == g.fseg == g.init == [] && g.flat == [x] && g.low == [y]
    requires x.size == 0xd860 && x.alignlog == 0 && y.size == 32 && y.alignlog == 5
    requires IsStacked(g, li, uppermemory, genreloc) && li.firstfixed == 0xfe05b
    ensures Fits(g, li, genreloc)
  {
    SpacesOf(g, x, y);
    LevelsOf(g, li, uppermemory, genreloc, x);
    SpacesFit(g, li, genreloc);
  }

  lemma SpacesOf(g: Groups, x: Section, y: Section)
    requires g.rem16 == g.seg32 == g.textfseg == g.fseg == g.init == [] && g.flat == [x] && g.low == [y]
    requires x.size == 0xd860 && x.alignlog == 0 && y.size == 32
    ensures Space(g.rem16) == Space(g.seg32) == Space(g.textfseg) == Space(g.fseg) == Space(g.init) == 0
    ensures Space(g.flat) == 0xd860 && Space(g.low) == 32
  {
    Nothing(0);
    OneSection(x, 4);
    SpaceOfAligned(y);
  }

  lemma LevelsOf(g: Groups, li: LayoutInfo, uppermemory: bool, genreloc: bool, x: Section)
    requires g.rem16 == g.seg32 == g.textfseg == g.fseg == g.init == [] && g.flat == [x]
    requires x.size == 0xd860 && x.alignlog == 0
    requires IsStacked(g, li, uppermemory, genreloc) && li.firstfixed == 0xfe05b
    ensures li.sec16 == li.seg32 == 0xfe05b && li.textfseg == li.fseg == 0xfe050
    ensures li.zone.flat == li.zone.init == 0xefff0 && FlatEnd(g, li.fseg, genreloc) == 0xfd850
  {
    StartsAbove(g, li, uppermemory, genreloc);
    ZoneOfData(g, x, genreloc);
    DistanceOf(g, li, uppermemory, genreloc);
  }

  /** Groups that need no more space than there is. */
  lemma SpacesFit(g: Groups, li: LayoutInfo, genreloc: bool)
    requires Space(g.rem16) <= li.firstfixed && Space(g.seg32) <= li.sec16
    requires Space(g.textfseg) <= li.seg32 && Space(g.fseg) <= li.textfseg
    requires Space(g.flat) <= FlatEnd(g, li.fseg, genreloc) && Space(g.init) <= li.zone.flat
    requires Space(g.low) <= li.zone.init
    ensures Fits(g, li, genreloc)
  {
  }

  lemma SpaceOfAligned(y: Section)
    ensures Space([y]) == y.size
  {
    var s := [y];
    assert End(s, 0, 0) == 0;
    ZeroAligned(y.alignlog);
  }

  lemma ZeroAligned(k: nat)
    ensures AlignPos(0, k) == 0
  {
    AlignDownBounds(Pow2(k) - 1, k);
  }

  lemma StartsAbove(g: Groups, li: LayoutInfo, uppermemory: bool, genreloc: bool)
    requires g.rem16 == g.seg32 == g.textfseg == g.fseg == [] && IsStacked(g, li, uppermemory, genreloc)
    requires li.firstfixed == 0xfe05b
    ensures li.sec16 == li.seg32 == 0xfe05b && li.textfseg == li.fseg == 0xfe050
  {
    assert Pow2(0) == 1 && Pow2(4) == 16;
    StartOfNothing(0xfe05b, 0, 0xfe05b);
    StartOfNothing(0xfe05b, 4, 0xfe050);
    StartOfNothing(0xfe050, 4, 0xfe050);
  }

  lemma LowStored(s: seq<Section>, li: LayoutInfo, y: Section)
    requires LaidOut(s, li) && y in GroupsOf(s).low
    ensures y.finalloc.Some? && IsAligned(y.finalloc.value, y.alignlog)
    ensures InGroup(GroupsOf(s).low, li.low.start, y, y.finalloc.value)
  {
    var g := GroupsOf(s).low;
    var segoffset := LaidAt(GroupsOf(s), li, 7);
    GroupStored(s, li, 7, segoffset, y);
    AssignedLow(s, li, y, y.finalloc.value);
    var k :| 0 <= k < |g| && g[k] == y && y.finalloc.value == Locs(g, li.low.start, |g|)[k];
    GroupAligned(g, li.low.start, k);
  }

  /** Relocated without upper memory, the low section loses its alignment. */
  lemma LowAlignmentLost(s: seq<Section>, li: LayoutInfo, genreloc: bool)
    requires LargeData(s) && StartsAt(s, li.firstfixed)
    requires IsStacked(GroupsOf(s), li, false, genreloc) && LaidOut(s, li)
    ensures var y := s[2];
      && y.finalloc.Some? && IsAligned(y.finalloc.value, y.alignlog)
      && !IsAligned(y.finalloc.value + li.low.relocdelta, y.alignlog)
  {
    SmallZone(s, li, false, genreloc);
    LargeDataGroups(s);
    LowStored(s, li, s[2]);
    LowMisplaced(GroupsOf(s), li, genreloc, s[2], s[2].finalloc.value);
  }

  lemma LowMisplaced(g: Groups, li: LayoutInfo, genreloc: bool, y: Section, a: int)
    requires IsStacked(g, li, false, genreloc) && InGroup(g.low, li.low.start, y, a)
    requires y.alignlog == 5 && li.zone.init == 0xefff0
    ensures !IsAligned(a + li.low.relocdelta, y.alignlog)
  {
    InLowMemory(g, li, genreloc, y, a);
    HalfAligned();
  }

  lemma HalfAligned()
    ensures !IsAligned(0xefff0, 5)
  {
    assert Pow2(5) == 32;
    AlignedIffMultiple(0xefff0, 5);
  }

  // ---------- a group that does not fit ----------

  /** Data of the f-segment that is twelve bytes larger than the room below a fixed section. */
  predicate TooLarge(s: seq<Section>) {
    && |s| == 2
    && s[0].category == Category.Fixed && s[0].fixedaddr == Some(0xe05b) && s[0].size > 0
    && s[1].category == Fseg32 && s[1].size == 0xfe05c && s[1].alignlog == 0
  }

  lemma TooLargeGroups(s: seq<Section>)
    requires TooLarge(s)
    ensures GroupsOf(s) == Groups([], [], [], [s[1]], [], [], []) && FixedOf(s) == [s[0]]
  {
    OneOf(s, Category.Fixed, 0);
    OneOf(s, Fseg32, 1);
    NoneOf(s, Code16);
    NoneOf(s, Seg32);
    NoneOf(s, TextFseg32);
    NoneOf(s, Flat32);
    NoneOf(s, Init32);
    NoneOf(s, Low32);
    NoCode(s);
    ByPrefixNone(TEXT32SEG, 3);
    ByPrefixNone(TEXT32FLAT, 4);
  }

  lemma TruncatedUp(x: int, k: nat)
    requires 0 <= x < Pow2(k)
    ensures TruncTo(-x, k) == 0
  {
    AlignDownBounds(x, k);
  }

  lemma StartOfTooLarge(y: Section, end: int, least: nat)
    requires y.alignlog == 0 && end < y.size < end + Pow2(least)
    ensures StartFor([y], end, least) == 0 && Locs([y], 0, 1) == [0]
  {
    OneSection(y, least);
    var x := Space([y]) - end;
    TruncatedUp(x, least);
    assert StartFor([y], end, least) == TruncTo(-x, least);
    AlignPosLeast(0, 0, 0);
    assert Locs([y], 0, 0) == [];
  }

  /** It is stored from address 0 on, over that section; the script reports nothing. */
  lemma TooLargeOverlaps(s: seq<Section>, li: LayoutInfo, uppermemory: bool, genreloc: bool)
    requires TooLarge(s) && StartsAt(s, li.firstfixed)
    requires IsStacked(GroupsOf(s), li, uppermemory, genreloc) && LaidOut(s, li)
    ensures s[0].finalloc == Some(0xfe05b) && s[1].finalloc == Some(0)
    ensures !Apart(0xfe05b, s[0].size, 0, s[1].size)
  {
    TooLargeGroups(s);
    FillAlignment.OneFixed(s[0]);
    assert Pow2(0) == 1 && Pow2(4) == 16;
    StartOfNothing(0xfe05b, 0, 0xfe05b);
    StartOfNothing(0xfe05b, 4, 0xfe050);
    StartOfTooLarge(s[1], 0xfe050, 4);
    assert li.fseg == 0;
    assert AtItsAddress(FixedOf(s)[0]);
    assert PlacedAt([s[1]][0], Locs([s[1]], 0, 1)[0], BIOS_ADDR);
  }
}
