/** Which sections `doLayout` gives an address, in which order, and in which segment. */
module LayoutOrder {
  import opened Common
  import opened Sections
  import opened GapFilling
  import opened FixedSections
  import opened Layout
  import opened LayoutSafety

  // ---------- which sections ----------

  /** Where a section belongs in its group, by its name: text, read-only data, data, zeroed data. */
  ghost function PartOf(x: Section): Option<nat> {
    match x.category
    case Fixed => if x.fixedaddr.Some? then Some(0) else None
    case Code16 =>
      if ".text." <= x.name then Some(0) else if ".rodata" <= x.name then Some(1)
      else if ".data16." <= x.name then Some(2) else None
    case Seg32 =>
      if ".text." <= x.name then Some(0) else if ".rodata" <= x.name then Some(1)
      else if ".data32seg." <= x.name then Some(2) else None
    case Flat32 => FlatPart(x.name)
    case Init32 => FlatPart(x.name)
    case _ => Some(0)
  }

  ghost function FlatPart(name: string): Option<nat> {
    if ".text." <= name then Some(0) else if ".rodata" <= name then Some(1)
    else if ".data." <= name then Some(2) else if ".bss." <= name then Some(3) else None
  }

  /** Selecting keeps the order. */
  lemma {:induction false} SelectOrder(s: seq<Section>, n: nat, p: Section -> bool, i: nat, j: nat)
    returns (k: nat, l: nat)
    requires i < j < n <= |s| && p(s[i]) && p(s[j])
    ensures k < l < |Select(s, n, p)| && Select(s, n, p)[k] == s[i] && Select(s, n, p)[l] == s[j]
  {
    if j == n - 1 {
      k := SelectHolds(s, n - 1, p, i);
      l := |Select(s, n, p)| - 1;
    } else {
      k, l := SelectOrder(s, n - 1, p, i, j);
    }
  }

  lemma InPrefix(s: seq<Section>, prefix: string, i: nat) returns (k: nat)
    requires i < |s| && prefix <= s[i].name
    ensures k < |WithPrefix(s, prefix)| && WithPrefix(s, prefix)[k] == s[i]
  {
    k := SelectHolds(s, |s|, (x: Section) => prefix <= x.name, i);
  }

  lemma InCategory(s: seq<Section>, i: nat) returns (k: nat)
    requires i < |s|
    ensures k < |OfCategory(s, s[i].category)| && OfCategory(s, s[i].category)[k] == s[i]
  {
    var c := s[i].category;
    k := SelectHolds(s, |s|, (x: Section) => x.category == c, i);
  }

  /** An element of the list of prefix `q`, in the whole list. */
  lemma {:induction false} InPrefixes(s: seq<Section>, prefixes: seq<string>, n: nat, q: nat, k: nat)
    requires q < n <= |prefixes| && k < |WithPrefix(s, prefixes[q])|
    ensures |ByPrefix(s, prefixes, q)| + k < |ByPrefix(s, prefixes, n)|
    ensures ByPrefix(s, prefixes, n)[|ByPrefix(s, prefixes, q)| + k] == WithPrefix(s, prefixes[q])[k]
    decreases n
  {
    if q < n - 1 {
      InPrefixes(s, prefixes, n - 1, q, k);
    }
  }

  lemma {:induction false} PrefixesGrow(s: seq<Section>, prefixes: seq<string>, q: nat, r: nat)
    requires q <= r <= |prefixes|
    ensures |ByPrefix(s, prefixes, q)| <= |ByPrefix(s, prefixes, r)|
    decreases r
  {
    if q < r {
      PrefixesGrow(s, prefixes, q, r - 1);
    }
  }

  /** Sections of an earlier prefix come first, and those of one prefix in the order of the list. */
  lemma PrefixOrder(s: seq<Section>, prefixes: seq<string>, i: nat, j: nat, q: nat, r: nat) returns (k: nat, l: nat)
    requires i < |s| && j < |s| && q < |prefixes| && r < |prefixes|
    requires prefixes[q] <= s[i].name && prefixes[r] <= s[j].name && (q < r || (q == r && i < j))
    ensures var b := ByPrefix(s, prefixes, |prefixes|); k < l < |b| && b[k] == s[i] && b[l] == s[j]
  {
    var a, b;
    if q < r {
      a := InPrefix(s, prefixes[q], i);
      b := InPrefix(s, prefixes[r], j);
      PrefixesGrow(s, prefixes, q + 1, r);
    } else {
      a, b := SelectOrder(s, |s|, (x: Section) => prefixes[q] <= x.name, i, j);
    }
    InPrefixes(s, prefixes, |prefixes|, q, a);
    InPrefixes(s, prefixes, |prefixes|, r, b);
    k, l := |ByPrefix(s, prefixes, q)| + a, |ByPrefix(s, prefixes, r)| + b;
  }

  /** The prefixes of a category, in order. */
  ghost function PrefixesOf(c: Category): seq<string> {
    match c
    case Code16 => TEXT16
    case Seg32 => TEXT32SEG
    case _ => TEXT32FLAT
  }

  predicate ByName(c: Category) {
    c in {Code16, Seg32, Flat32, Init32}
  }

  ghost function FirstOf(p: seq<string>, name: string, i: nat): (q: Option<nat>)
    requires i <= |p|
    ensures q.Some? ==> i <= q.value < |p|
    decreases |p| - i
  {
    if i == |p| then None else if p[i] <= name then Some(i) else FirstOf(p, name, i + 1)
  }

  lemma {:induction false} FirstIs(p: seq<string>, name: string, i: nat, q: nat)
    requires PrefixFree(p) && i <= q < |p|
    ensures p[q] <= name <==> FirstOf(p, name, i) == Some(q)
    decreases |p| - i
  {
    if i < q {
      FirstIs(p, name, i + 1, q);
      OnePrefix(p, i, q, name);
    }
  }

  lemma PartIsFirst(x: Section)
    requires ByName(x.category)
    ensures PartOf(x) == FirstOf(PrefixesOf(x.category), x.name, 0)
  {
    var p := PrefixesOf(x.category);
    assert |p| == 3 || |p| == 4;
    assert FirstOf(p, x.name, |p|) == None;
    assert FirstOf(p, x.name, 2) == if p[2] <= x.name then Some(2) else FirstOf(p, x.name, 3);
    assert FirstOf(p, x.name, 1) == if p[1] <= x.name then Some(1) else FirstOf(p, x.name, 2);
  }

  /** The part is the number of the prefix, and at most one prefix matches. */
  lemma PartIsPrefix(x: Section, q: nat)
    requires ByName(x.category) && q < |PrefixesOf(x.category)|
    ensures PrefixesOf(x.category)[q] <= x.name <==> PartOf(x) == Some(q)
  {
    PrefixesAreFree();
    PartIsFirst(x);
    FirstIs(PrefixesOf(x.category), x.name, 0, q);
  }

  lemma OnePrefix(p: seq<string>, q: nat, r: nat, name: string)
    requires PrefixFree(p) && q < r < |p|
    ensures !(p[q] <= name && p[r] <= name)
  {
    if p[q] <= name && p[r] <= name {
      PrefixesOfOne(p[q], p[r], name);
    }
  }

  // ---------- every one of them has an address ----------

  /** The group of a category, other than the fixed one. */
  ghost function GroupOf(g: Groups, c: Category): seq<Section>
    requires c != Category.Fixed
  {
    match c case Code16 => g.rem16 case Seg32 => g.seg32 case TextFseg32 => g.textfseg case Fseg32 => g.fseg
    case Flat32 => g.flat case Init32 => g.init case Low32 => g.low
  }

  lemma InNamedList(s: seq<Section>, i: nat, c: Category, q: nat) returns (k: nat)
    requires i < |s| && s[i].category == c && ByName(c) && PartOf(s[i]) == Some(q)
    ensures var b := ByPrefix(OfCategory(s, c), PrefixesOf(c), |PrefixesOf(c)|); k < |b| && b[k] == s[i]
  {
    var p := PrefixesOf(c);
    var a := InCategory(s, i);
    PartInside(s[i]);
    PartIsPrefix(s[i], q);
    var b := InPrefix(OfCategory(s, c), p[q], a);
    InPrefixes(OfCategory(s, c), p, |p|, q, b);
    k := |ByPrefix(OfCategory(s, c), p, q)| + b;
  }

  lemma PartInside(x: Section)
    requires ByName(x.category) && PartOf(x).Some?
    ensures PartOf(x).value < |PrefixesOf(x.category)|
  {
    PartIsFirst(x);
  }

  lemma InCode(s: seq<Section>, i: nat, q: nat) returns (k: nat)
    requires Distinct(s) && i < |s| && s[i].category == Code16 && PartOf(s[i]) == Some(q) && s[i] !in PlacedByFill(s)
    ensures k < |GroupsOf(s).rem16| && GroupsOf(s).rem16[k] == s[i]
  {
    var a := InNamedList(s, i, Code16, q);
    k := InRest(s, ByPrefix(OfCategory(s, Code16), TEXT16, 3), a);
  }

  lemma InRest(s: seq<Section>, text16: seq<Section>, a: nat) returns (k: nat)
    requires text16 == ByPrefix(OfCategory(s, Code16), TEXT16, 3) && a < |text16| && text16[a] !in PlacedByFill(s)
    ensures k < |GroupsOf(s).rem16| && GroupsOf(s).rem16[k] == text16[a]
  {
    var filled := PlacedByFill(s);
    k := SelectHolds(text16, |text16|, x => x !in filled, a);
  }

  lemma InNamedGroup(s: seq<Section>, i: nat, q: nat) returns (k: nat)
    requires i < |s| && s[i].category in {Seg32, Flat32, Init32} && PartOf(s[i]) == Some(q)
    ensures var g := GroupOf(GroupsOf(s), s[i].category); k < |g| && g[k] == s[i]
  {
    k := InNamedList(s, i, s[i].category, q);
    GroupByName(s, s[i].category);
  }

  lemma GroupByName(s: seq<Section>, c: Category)
    requires c in {Seg32, Flat32, Init32}
    ensures GroupOf(GroupsOf(s), c) == ByPrefix(OfCategory(s, c), PrefixesOf(c), |PrefixesOf(c)|)
  {
  }

  /** A section with a part is on top or in the group of its category. */
  lemma HasLevel(s: seq<Section>, i: nat)
    requires Distinct(s) && i < |s| && PartOf(s[i]).Some?
    ensures OnTop(s, s[i]) || (s[i].category != Category.Fixed && s[i] in GroupOf(GroupsOf(s), s[i].category))
  {
    var x := s[i];
    if x.category == Code16 {
      if x !in PlacedByFill(s) {
        var k := InCode(s, i, PartOf(x).value);
      }
    } else if ByName(x.category) {
      var k := InNamedGroup(s, i, PartOf(x).value);
    } else {
      var k := InCategory(s, i);
    }
  }

  /** A section without one is neither. */
  lemma HasNoLevel(s: seq<Section>, i: nat)
    requires Distinct(s) && i < |s| && PartOf(s[i]).None?
    ensures !OnTop(s, s[i]) && !InGroups(GroupsOf(s), s[i])
  {
    var x := s[i];
    FillOfFrom(s);
    if x in FillOf(s) {
      FillNamed(s, x);
    }
    if InGroups(GroupsOf(s), x) {
      var c := GroupNamed(s, x);
    }
  }

  lemma FillNamed(s: seq<Section>, x: Section)
    requires Distinct(s) && x in FillOf(s)
    ensures x.category == Code16 && PartOf(x) == Some(0)
  {
    FillOfFrom(s);
    var c, p := OfCategory(s, Code16), (y: Section) => ".text." <= y.name;
    SelectFrom(c, |c|, p);
    assert FillOf(s) == Select(c, |c|, p);
    var k :| 0 <= k < |FillOf(s)| && FillOf(s)[k] == x;
  }

  /** Everything in a group has a part. */
  lemma GroupNamed(s: seq<Section>, x: Section) returns (c: Category)
    requires Distinct(s) && InGroups(GroupsOf(s), x)
    ensures c == x.category != Category.Fixed && x in GroupOf(GroupsOf(s), c) && PartOf(x).Some?
  {
    GroupsFrom(s);
    c := KindOf(GroupsOf(s), x);
    MemberKind(s, GroupOf(GroupsOf(s), c), c, x);
    if ByName(c) {
      if c == Code16 {
        RestIsCode(s, x);
      } else {
        GroupByName(s, c);
      }
      NamedInGroup(s, x);
    }
  }

  lemma NamedInGroup(s: seq<Section>, x: Section)
    requires Distinct(s) && ByName(x.category)
    requires x in ByPrefix(OfCategory(s, x.category), PrefixesOf(x.category), |PrefixesOf(x.category)|)
    ensures PartOf(x).Some?
  {
    var p := PrefixesOf(x.category);
    CategoryFrom(s, x.category);
    PrefixesAreFree();
    NamedByPrefix(OfCategory(s, x.category), p, x);
    var q :| 0 <= q < |p| && p[q] <= x.name;
    PartIsPrefix(x, q);
  }

  lemma KindOf(g: Groups, x: Section) returns (c: Category)
    requires InGroups(g, x)
    ensures c != Category.Fixed && x in GroupOf(g, c)
  {
    c := if x in g.rem16 then Code16 else if x in g.seg32 then Seg32 else if x in g.textfseg then TextFseg32
         else if x in g.fseg then Fseg32 else if x in g.flat then Flat32 else if x in g.init then Init32 else Low32;
  }

  lemma MemberKind(s: seq<Section>, g: seq<Section>, c: Category, x: Section)
    requires AllOf(s, g, c) && x in g
    ensures x.category == c
  {
  }

  lemma RestIsCode(s: seq<Section>, x: Section)
    requires x in GroupsOf(s).rem16
    ensures x in ByPrefix(OfCategory(s, Code16), TEXT16, 3)
  {
    var text16, filled := ByPrefix(OfCategory(s, Code16), TEXT16, 3), PlacedByFill(s);
    var p := x => x !in filled;
    SelectFrom(text16, |text16|, p);
    assert text16[..|text16|] == text16 && GroupsOf(s).rem16 == Select(text16, |text16|, p);
  }

  lemma NamedByPrefix(c: seq<Section>, prefixes: seq<string>, x: Section)
    requires Distinct(c) && PrefixFree(prefixes) && x in ByPrefix(c, prefixes, |prefixes|)
    ensures exists q :: 0 <= q < |prefixes| && prefixes[q] <= x.name
  {
    ByPrefixFrom(c, prefixes, |prefixes|);
    var b := ByPrefix(c, prefixes, |prefixes|);
    var k :| 0 <= k < |b| && b[k] == x;
  }

  /**
   * After `doLayout`, a section has an address if and only if it is a fixed one, has a name with one
   * of the prefixes of its category, or is of a category that is laid out whatever the names.
   */
  lemma StoredIffNamed(s: seq<Section>, li: LayoutInfo, i: nat)
    requires Distinct(s) && LaidOut(s, li) && i < |s|
    ensures s[i].finalloc.Some? <==> PartOf(s[i]).Some?
  {
    if PartOf(s[i]).Some? {
      HasLevel(s, i);
      if OnTop(s, s[i]) {
        TopStored(s, li, s[i]);
      } else {
        var k := LevelOf(GroupsOf(s), s[i]);
        var segoffset := LaidAt(GroupsOf(s), li, k);
        GroupStored(s, li, k, segoffset, s[i]);
      }
    } else {
      HasNoLevel(s, i);
    }
  }

  /** What is offered to the gaps: all 16-bit code sections by the name of text; and what is fixed. */
  lemma OfferedIff(s: seq<Section>, i: nat)
    requires Distinct(s) && i < |s|
    ensures s[i] in FillOf(s) <==> s[i].category == Code16 && ".text." <= s[i].name
    ensures s[i] in FixedOf(s) <==> s[i].category == Category.Fixed
  {
    FillOfFrom(s);
    if s[i] in FillOf(s) {
      FillNamed(s, s[i]);
      PartIsPrefix(s[i], 0);
    }
    if s[i].category == Code16 && ".text." <= s[i].name {
      var a := InCategory(s, i);
      var b := InPrefix(OfCategory(s, Code16), ".text.", a);
    }
    if s[i].category == Category.Fixed {
      var a := InCategory(s, i);
    }
  }

  // ---------- the order inside a group ----------

  /** `x` comes first: by its part, and among equals by its place in the list. */
  ghost predicate ComesFirst(s: seq<Section>, i: nat, j: nat)
    requires i < |s| && j < |s| && PartOf(s[i]).Some? && PartOf(s[j]).Some?
  {
    PartOf(s[i]).value < PartOf(s[j]).value || (PartOf(s[i]) == PartOf(s[j]) && i < j)
  }

  lemma NamedPair(s: seq<Section>, i: nat, j: nat) returns (k: nat, l: nat)
    requires i < |s| && j < |s| && ByName(s[i].category) && s[i].category == s[j].category
    requires PartOf(s[i]).Some? && PartOf(s[j]).Some? && ComesFirst(s, i, j)
    ensures var p := PrefixesOf(s[i].category);
      var b := ByPrefix(OfCategory(s, s[i].category), p, |p|);
      k < l < |b| && b[k] == s[i] && b[l] == s[j]
  {
    var c, q, r := s[i].category, PartOf(s[i]).value, PartOf(s[j]).value;
    var p := PrefixesOf(c);
    PartInside(s[i]);
    PartInside(s[j]);
    PartIsPrefix(s[i], q);
    PartIsPrefix(s[j], r);
    var a, b;
    if i < j {
      a, b := SelectOrder(s, |s|, (x: Section) => x.category == c, i, j);
    } else {
      a := InCategory(s, i);
      b := InCategory(s, j);
    }
    k, l := PrefixOrder(OfCategory(s, c), p, a, b, q, r);
  }

  lemma CodePair(s: seq<Section>, i: nat, j: nat) returns (k: nat, l: nat)
    requires Distinct(s) && i < |s| && j < |s| && s[i].category == s[j].category == Code16
    requires PartOf(s[i]).Some? && PartOf(s[j]).Some? && ComesFirst(s, i, j)
    requires s[i] !in PlacedByFill(s) && s[j] !in PlacedByFill(s)
    ensures var g := GroupsOf(s).rem16; k < l < |g| && g[k] == s[i] && g[l] == s[j]
  {
    var text16, filled := ByPrefix(OfCategory(s, Code16), TEXT16, 3), PlacedByFill(s);
    var a, b := NamedPair(s, i, j);
    k, l := SelectOrder(text16, |text16|, x => x !in filled, a, b);
  }

  lemma OtherPair(s: seq<Section>, i: nat, j: nat) returns (k: nat, l: nat)
    requires i < j < |s| && s[i].category == s[j].category && s[i].category in {TextFseg32, Fseg32, Low32}
    ensures var g := GroupOf(GroupsOf(s), s[i].category); k < l < |g| && g[k] == s[i] && g[l] == s[j]
  {
    var c := s[i].category;
    k, l := SelectOrder(s, |s|, (x: Section) => x.category == c, i, j);
  }

  /** Two sections of one group, `i` in front of `j`. */
  lemma GroupPair(s: seq<Section>, i: nat, j: nat) returns (k: nat, l: nat)
    requires Distinct(s) && i < |s| && j < |s| && s[i].category == s[j].category != Category.Fixed
    requires PartOf(s[i]).Some? && PartOf(s[j]).Some? && ComesFirst(s, i, j)
    requires s[i] !in PlacedByFill(s) && s[j] !in PlacedByFill(s)
    ensures var g := GroupOf(GroupsOf(s), s[i].category); k < l < |g| && g[k] == s[i] && g[l] == s[j]
  {
    if s[i].category == Code16 {
      k, l := CodePair(s, i, j);
    } else if ByName(s[i].category) {
      k, l := NamedPair(s, i, j);
      GroupByName(s, s[i].category);
    } else {
      k, l := OtherPair(s, i, j);
    }
  }

  lemma LaidInOrder(g: seq<Section>, start: int, segoffset: int, k: nat, l: nat)
    requires Laid(g, start, segoffset) && k < l < |g|
    ensures g[k].finalloc.Some? && g[l].finalloc.Some? && g[k].finalloc.value + g[k].size <= g[l].finalloc.value
  {
    LocsAt(g, start, |g|, k);
    LocsAt(g, start, |g|, l);
    LocsStack(g, start, k, l);
    assert PlacedAt(g[k], Locs(g, start, |g|)[k], segoffset);
    assert PlacedAt(g[l], Locs(g, start, |g|)[l], segoffset);
  }

  /**
   * Sections of one category are stored in the order of their parts, and those of one part in the
   * order of the list - but for the code that was filled in between fixed sections.
   */
  lemma StoredInOrder(s: seq<Section>, li: LayoutInfo, i: nat, j: nat)
    requires Distinct(s) && LaidOut(s, li) && i < |s| && j < |s| && s[i].category == s[j].category != Category.Fixed
    requires PartOf(s[i]).Some? && PartOf(s[j]).Some? && ComesFirst(s, i, j)
    requires s[i] !in PlacedByFill(s) && s[j] !in PlacedByFill(s)
    ensures s[i].finalloc.Some? && s[j].finalloc.Some?
    ensures s[i].finalloc.value + s[i].size <= s[j].finalloc.value
  {
    var k, l := GroupPair(s, i, j);
    var n := LevelOfKind(s[i].category);
    LevelHolds(GroupsOf(s), s[i].category);
    var segoffset := LaidAt(GroupsOf(s), li, n);
    LaidInOrder(GroupAt(GroupsOf(s), n), StartAt(li, n), segoffset, k, l);
  }

  /** The level of a group. */
  ghost function LevelOfKind(c: Category): (n: nat)
    requires c != Category.Fixed
    ensures 1 <= n <= 7
  {
    match c case Code16 => 1 case Seg32 => 2 case TextFseg32 => 3 case Fseg32 => 4 case Flat32 => 5
    case Init32 => 6 case Low32 => 7
  }

  lemma LevelHolds(g: Groups, c: Category)
    requires c != Category.Fixed
    ensures GroupAt(g, LevelOfKind(c)) == GroupOf(g, c)
  {
  }

  // ---------- the order of the groups ----------

  /** From the top down: the higher a category, the higher its addresses. */
  ghost function Height(c: Category): nat {
    match c case Fixed => 7 case Code16 => 7 case Seg32 => 6 case TextFseg32 => 5 case Fseg32 => 4 case Flat32 => 3
    case Init32 => 2 case Low32 => 1
  }

  /** The level of a stored section, by its category. */
  lemma LevelOfStored(s: seq<Section>, li: LayoutInfo, x: Section) returns (i: nat)
    requires Distinct(s) && LaidOut(s, li) && x in s && x.finalloc.Some?
    ensures i <= 7 && Assigned(s, li, i, x, x.finalloc.value)
    ensures if OnTop(s, x) then i == 0 && Height(x.category) == 7 else i > 0 && Height(x.category) == 8 - i
  {
    var k :| 0 <= k < |s| && s[k] == x;
    if OnTop(s, x) {
      i := 0;
      TopStored(s, li, x);
      TopHeight(s, x);
    } else {
      var c := GroupNamed(s, x);
      i := LevelOfKind(c);
      StoredInGroup(s, li, c, x);
    }
  }

  lemma StoredInGroup(s: seq<Section>, li: LayoutInfo, c: Category, x: Section)
    requires LaidOut(s, li) && c != Category.Fixed && x in GroupOf(GroupsOf(s), c)
    ensures x.finalloc.Some? && Assigned(s, li, LevelOfKind(c), x, x.finalloc.value)
  {
    LevelHolds(GroupsOf(s), c);
    var segoffset := LaidAt(GroupsOf(s), li, LevelOfKind(c));
    GroupStored(s, li, LevelOfKind(c), segoffset, x);
  }

  lemma TopHeight(s: seq<Section>, x: Section)
    requires Distinct(s) && OnTop(s, x)
    ensures Height(x.category) == 7
  {
    FillOfFrom(s);
    if x in PlacedByFill(s) {
      FillNamed(s, x);
    } else {
      MemberKind(s, FixedOf(s), Category.Fixed, x);
    }
  }

  /**
   * The groups lie in the order code, segment, f-segment code, f-segment data, flat, init, low,
   * from the top down; code that is not filled in lies below every fixed section.
   */
  lemma GroupsDescend(s: seq<Section>, li: LayoutInfo, uppermemory: bool, genreloc: bool, x: Section, y: Section)
    requires GoodLayout(s, li, uppermemory, genreloc) && LaidOut(s, li)
    requires x in s && y in s && x.finalloc.Some? && y.finalloc.Some?
    requires Height(x.category) < Height(y.category) || (x.category == Code16 && !OnTop(s, x) && OnTop(s, y))
    ensures x.finalloc.value + x.size <= y.finalloc.value
  {
    var i := LevelOfStored(s, li, x);
    var j := LevelOfStored(s, li, y);
    var flatend := GoodIsTower(s, li, uppermemory, genreloc);
    AssignedInside(s, li, flatend, i, x, x.finalloc.value);
    AssignedInside(s, li, flatend, j, y, y.finalloc.value);
    LevelsDescend(GroupsOf(s), li, flatend, j, i);
  }

  // ---------- segments ----------

  /** Where the segment of a category begins, for the sections that are not relocated. */
  ghost function SegmentOf(c: Category): int {
    if c in {Category.Fixed, Code16, Seg32, Fseg32} then 0xf0000 else 0
  }

  lemma SegmentOfGroup(g: Groups, li: LayoutInfo, c: Category)
    requires AllLaid(g, li) && c !in {Category.Fixed, Low32}
    ensures Laid(GroupOf(g, c), StartAt(li, LevelOfKind(c)), SegmentOf(c))
  {
  }

  lemma OffsetStored(g: seq<Section>, start: int, segoffset: int, x: Section)
    requires Laid(g, start, segoffset) && x in g
    ensures x.finalloc.Some? && x.finalsegloc == Some(x.finalloc.value - segoffset)
  {
    var k :| 0 <= k < |g| && g[k] == x;
    assert PlacedAt(g[k], Locs(g, start, |g|)[k], segoffset);
  }

  /**
   * The segment offset of every stored section: from 0xf0000 for fixed ones, 16-bit code, 32-bit
   * segment code and f-segment data; from zero for the others; relocated ones from the low zone.
   */
  lemma SegmentAddresses(s: seq<Section>, li: LayoutInfo, x: Section)
    requires Distinct(s) && LaidOut(s, li) && x in s && x.finalloc.Some?
    ensures x.category != Low32 ==> x.finalsegloc == Some(x.finalloc.value - SegmentOf(x.category))
    ensures x.category == Low32 ==> x.finalsegloc == Some(x.finalloc.value - li.low.segoffset)
    ensures x.category == Category.Fixed ==> x.finalsegloc == x.fixedaddr
  {
    if OnTop(s, x) {
      TopSegment(s, li, x);
    } else {
      var c := KindOfStored(s, li, x);
      GroupSegment(GroupsOf(s), li, c, x);
    }
  }

  lemma KindOfStored(s: seq<Section>, li: LayoutInfo, x: Section) returns (c: Category)
    requires Distinct(s) && LaidOut(s, li) && x in s && x.finalloc.Some? && !OnTop(s, x)
    ensures c == x.category != Category.Fixed && x in GroupOf(GroupsOf(s), c)
  {
    var k :| 0 <= k < |s| && s[k] == x;
    c := GroupNamed(s, x);
  }

  lemma GroupSegment(g: Groups, li: LayoutInfo, c: Category, x: Section)
    requires AllLaid(g, li) && c != Category.Fixed && x in GroupOf(g, c)
    ensures x.finalloc.Some?
    ensures x.finalsegloc == Some(x.finalloc.value - if c == Low32 then li.low.segoffset else SegmentOf(c))
  {
    if c == Low32 {
      OffsetStored(g.low, li.low.start, li.low.segoffset, x);
    } else {
      SegmentOfGroup(g, li, c);
      OffsetStored(GroupOf(g, c), StartAt(li, LevelOfKind(c)), SegmentOf(c), x);
    }
  }

  lemma TopSegment(s: seq<Section>, li: LayoutInfo, x: Section)
    requires Distinct(s) && TopDone(FixedOf(s), FillPlan(FixedOf(s), FillOf(s))) && OnTop(s, x)
    ensures x.category in {Category.Fixed, Code16} && x.finalloc.Some?
    ensures x.finalsegloc == Some(x.finalloc.value - 0xf0000)
    ensures x.category == Category.Fixed ==> x.finalsegloc == x.fixedaddr
  {
    FillOfFrom(s);
    var f, p := FixedOf(s), FillPlan(FixedOf(s), FillOf(s));
    if x in PlacedByFill(s) {
      FillNamed(s, x);
      var m :| 0 <= m < |p| && p[m].section == x;
      assert Stored(p[m]);
    } else {
      MemberKind(s, f, Category.Fixed, x);
      var k :| 0 <= k < |f| && f[k] == x;
      assert AtItsAddress(f[k]);
    }
  }

  // ---------- the numbers ----------

  /**
   * If the sections have room below `end`, `start` is the highest multiple of the largest of their
   * alignments, and of `2 ** least`, from which they end by `end`.
   */
  ghost predicate StartsHighest(s: seq<Section>, start: int, end: int, least: nat) {
    Behind(s, 0, |s|) <= end ==>
      exists k: nat :: MaxOf(s, least, k) && start % Pow2(k) == 0 && 0 <= start && Behind(s, start, |s|) <= end
        && forall v :: v % Pow2(k) == 0 && Behind(s, v, |s|) <= end ==> v <= start
  }

  ghost predicate MaxOf(s: seq<Section>, least: nat, k: nat) {
    && least <= k && (forall x :: x in s ==> x.alignlog <= k)
    && (k == least || exists x :: x in s && k == x.alignlog)
  }

  lemma StartHighest(s: seq<Section>, end: int, least: nat)
    ensures StartsHighest(s, StartFor(s, end, least), end, least)
  {
    var start, k := StartFor(s, end, least), MaxAlign(s, least);
    if Behind(s, 0, |s|) <= end {
      AlignmentOfGroup(s, least);
      assert MaxOf(s, least, k);
      HighestStart(s, end, least, 0);
      forall v | v % Pow2(k) == 0 && Behind(s, v, |s|) <= end
        ensures v <= start
      {
        HighestStart(s, end, least, v);
      }
    }
  }

  /** Every group of code and data starts as high as the one above it allows; `2 ** 4` is 16 bytes. */
  lemma GroupStarts(g: Groups, li: LayoutInfo, uppermemory: bool, genreloc: bool)
    requires IsStacked(g, li, uppermemory, genreloc)
    ensures StartsHighest(g.rem16, li.sec16, li.firstfixed, 0) && StartsHighest(g.seg32, li.seg32, li.sec16, 0)
    ensures StartsHighest(g.textfseg, li.textfseg, li.seg32, 4) && StartsHighest(g.fseg, li.fseg, li.textfseg, 4)
    ensures StartsHighest(g.init, li.zone.init, li.zone.flat, 4) && StartsHighest(g.low, li.low.start, li.zone.init, 4)
    ensures MaxOf(g.init, 4, li.initalign)
  {
    StartHighest(g.rem16, li.firstfixed, 0);
    StartHighest(g.seg32, li.sec16, 0);
    StartHighest(g.textfseg, li.seg32, 4);
    StartHighest(g.fseg, li.textfseg, 4);
    ZoneBounds(g, li.fseg, genreloc);
    StartHighest(g.init, li.zone.flat, 4);
    StartHighest(g.low, li.zone.init, 4);
    AlignmentOfGroup(g.init, 4);
  }

  /**
   * The zone lies between 0xf0000 and the flat sections, or the init sections unless they are
   * relocated, if that leaves 2048 bytes; otherwise these are laid out below the 2048 bytes under
   * the f-segment data.
   */
  lemma ZoneStarts(g: Groups, li: LayoutInfo, uppermemory: bool, genreloc: bool)
    requires IsStacked(g, li, uppermemory, genreloc)
    ensures var flat := StartFor(g.flat, li.fseg, 4);
      var init := StartFor(g.init, flat, 4);
      && StartsHighest(g.flat, flat, li.fseg, 4) && StartsHighest(g.init, init, flat, 4)
      && if 0xf0000 + 2048 <= (if genreloc then flat else init)
         then li.zone == ZoneBases(flat, init, 0xf0000, if genreloc then flat else init)
         else li.zone.start == li.fseg - 2048 && li.zone.end == li.fseg
              && StartsHighest(g.flat, li.zone.flat, li.fseg - 2048, 4)
  {
    var flat := StartFor(g.flat, li.fseg, 4);
    ZoneCases(g, li.fseg, genreloc);
    DistanceOf(g, li, uppermemory, genreloc);
    StartHighest(g.flat, li.fseg, 4);
    StartHighest(g.init, flat, 4);
    StartHighest(g.flat, li.fseg - 2048, 4);
  }

  lemma ZoneCases(g: Groups, fseg: int, genreloc: bool)
    ensures var z, flat := ZoneOf(g, fseg, genreloc), StartFor(g.flat, fseg, 4);
      var init := StartFor(g.init, flat, 4);
      if 0xf0000 + 2048 <= (if genreloc then flat else init)
      then z == ZoneBases(flat, init, 0xf0000, if genreloc then flat else init)
      else z.start == fseg - 2048 && z.end == fseg && z.flat == StartFor(g.flat, fseg - 2048, 4)
  {
  }

  /** Low memory: its end, the base of its zone, and how far it is moved. */
  lemma LowNumbers(g: Groups, li: LayoutInfo, uppermemory: bool, genreloc: bool)
    requires IsStacked(g, li, uppermemory, genreloc)
    ensures var end := if genreloc then li.zone.flat else li.zone.init;
      li.readonly == if end < 0xf0000 then end else 0xf0000
    ensures !uppermemory ==> li.low.finalend == 0xa0000 && li.low.zonebase == 0x90000
    ensures uppermemory ==> li.low.finalend == li.readonly && 0xc0000 <= li.low.zonebase
    ensures uppermemory && li.low.zonebase != 0xc0000 ==> li.low.zonebase % 2048 == 0
    ensures uppermemory ==> li.readonly - 0x10000 <= li.low.zonebase
    ensures uppermemory && li.low.zonebase != 0xc0000 ==> li.low.zonebase < li.readonly - 0x10000 + 2048
    ensures li.low.relocdelta == li.low.finalend - li.zone.init
    ensures li.low.segoffset == li.low.zonebase - li.low.relocdelta
  {
    UpToTwoK(li.readonly - 64 * 1024);
  }

  lemma UpToTwoK(base: int)
    ensures base <= AlignPos(base, 11) < base + 2048 && AlignPos(base, 11) % 2048 == 0
  {
    TwoK();
    AlignPosLeast(base, 11, 0);
    AlignDownBounds(base + Pow2(11) - 1, 11);
    AlignedIffMultiple(AlignPos(base, 11), 11);
  }

  lemma TwoK()
    ensures Pow2(11) == 2048
  {
    assert Pow2(8) == 256 && Pow2(11) == 8 * Pow2(8);
  }
}
