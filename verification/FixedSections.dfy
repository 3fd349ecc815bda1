/** `fitSections` as a whole: the sorted tables, the run, and what the final addresses satisfy. */
module FixedSections {
  import opened Common
  import opened Sections
  import opened GapFilling
  import Sorting

  // ---------- the tables ----------

  /** `int(section.name[11:], 16)` */
  function Addr(s: Section): int {
    if s.fixedaddr.Some? then s.fixedaddr.value else 0
  }

  /** The `.fixedaddr.` sections among the first `n`, keyed by address. */
  function FixedTable(s: seq<Section>, n: nat): seq<Sorting.Keyed<Section>>
    requires n <= |s|
  {
    if n == 0 then []
    else if s[n - 1].fixedaddr.Some? then
      FixedTable(s, n - 1) + [(Sorting.Key(Addr(s[n - 1]), 0, "", 0), s[n - 1])]
    else FixedTable(s, n - 1)
  }

  function Second<T>(t: seq<Sorting.Keyed<T>>): (r: seq<T>)
    ensures |r| == |t| && forall i :: 0 <= i < |t| ==> r[i] == t[i].1
  {
    seq(|t|, i requires 0 <= i < |t| => t[i].1)
  }

  /** The fixed sections in address order. */
  function FixedByAddr(s: seq<Section>): seq<Section> {
    Second(Sorting.Sort(FixedTable(s, |s|)))
  }

  /** The gap behind fixed section `i`, up to the next one or the end of the segment. */
  function GapAfter(f: seq<Section>, i: nat): Gap
    requires i < |f|
  {
    Gap(Addr(f[i]) + f[i].size, if i == |f| - 1 then BIOS_SIZE else Addr(f[i + 1]), f[i])
  }

  /** `(freespace, section)` for the first `n` fixed sections. */
  function GapTable(f: seq<Section>, n: nat): (r: seq<Sorting.Keyed<Gap>>)
    requires n <= |f|
    ensures |r| == n && forall i :: 0 <= i < n ==> r[i].1 == GapAfter(f, i)
  {
    if n == 0 then []
    else
      var g := GapAfter(f, n - 1);
      GapTable(f, n - 1) + [(Sorting.Key(g.hi - g.lo, 0, "", 0), g)]
  }

  /** The gaps, smallest first. */
  function GapsBySpace(f: seq<Section>): (r: seq<Gap>)
    ensures |r| == |f|
  {
    Second(Sorting.Sort(GapTable(f, |f|)))
  }

  function SizeKey(s: Section): Sorting.Key {
    Sorting.Key(s.size, Pow2(s.alignlog), s.name, 0)
  }

  function SizeTable(s: seq<Section>): (r: seq<Sorting.Keyed<Section>>)
    ensures |r| == |s| && forall i :: 0 <= i < |s| ==> r[i] == (SizeKey(s[i]), s[i])
  {
    seq(|s|, i requires 0 <= i < |s| => (SizeKey(s[i]), s[i]))
  }

  /** The fill sections by (size, align, name). */
  function Candidates(s: seq<Section>): (r: seq<Section>)
    ensures |r| == |s|
  {
    Second(Sorting.Sort(SizeTable(s)))
  }

  /** Candidates are the fill sections in ascending key order. */
  lemma CandidatesSorted(s: seq<Section>)
    ensures forall i, j :: 0 <= i < j < |s| ==> Sorting.Leq(SizeKey(Candidates(s)[i]), SizeKey(Candidates(s)[j]))
    ensures forall x :: x in s ==> x in Candidates(s)
    ensures forall x :: x in Candidates(s) ==> x in s
    ensures SizesAscend(Candidates(s))
  {
    var t, c := SizeTable(s), Candidates(s);
    var r := Sorting.Sort(t);
    Sorting.SortSorts(t);
    forall i | 0 <= i < |s|
      ensures r[i] == (SizeKey(c[i]), c[i]) && c[i] in s
    {
      var j := Sorting.SortedFrom(t, i);
    }
    forall x | x in s
      ensures x in c
    {
      var j :| 0 <= j < |s| && s[j] == x;
      var i := Sorting.SortedTo(t, j);
      assert c[i] == x;
    }
  }

  lemma CandidatesDistinct(s: seq<Section>)
    requires Distinct(s)
    ensures Distinct(Candidates(s))
  {
    var t, c := SizeTable(s), Candidates(s);
    forall i, j | 0 <= i < j < |s|
      ensures c[i] != c[j]
    {
      var k := Sorting.SortedFrom(t, i);
      var l := Sorting.SortedFrom(t, j);
      if c[i] == c[j] {
        var m, n := Sorting.SortedTwice(t, i, j);
      }
    }
  }

  lemma {:induction false} FixedTableFrom(s: seq<Section>, n: nat)
    requires n <= |s|
    ensures forall k :: 0 <= k < |FixedTable(s, n)| ==> var x := FixedTable(s, n)[k];
      x.1 in s[..n] && x.1.fixedaddr.Some? && x.0 == Sorting.Key(Addr(x.1), 0, "", 0)
    ensures forall i :: 0 <= i < n && s[i].fixedaddr.Some? ==>
      exists k :: 0 <= k < |FixedTable(s, n)| && FixedTable(s, n)[k].1 == s[i]
    ensures Distinct(s) ==> forall k, l :: 0 <= k < l < |FixedTable(s, n)| ==>
      FixedTable(s, n)[k].1 != FixedTable(s, n)[l].1
  {
    if n > 0 {
      FixedTableFrom(s, n - 1);
      var t, u := FixedTable(s, n - 1), FixedTable(s, n);
      assert forall k :: 0 <= k < |t| ==> u[k] == t[k];
      forall i | 0 <= i < n && s[i].fixedaddr.Some?
        ensures exists k :: 0 <= k < |u| && u[k].1 == s[i]
      {
        if i == n - 1 {
          assert u[|u| - 1].1 == s[i];
        } else {
          var k :| 0 <= k < |t| && t[k].1 == s[i];
          assert u[k].1 == s[i];
        }
      }
    }
  }

  /** The fixed sections, each once, in address order. */
  lemma FixedByAddrSorted(s: seq<Section>)
    requires Distinct(s)
    ensures forall i :: 0 <= i < |FixedByAddr(s)| ==> FixedByAddr(s)[i] in s && FixedByAddr(s)[i].fixedaddr.Some?
    ensures Distinct(FixedByAddr(s))
    ensures forall i, j :: 0 <= i < j < |FixedByAddr(s)| ==> Addr(FixedByAddr(s)[i]) <= Addr(FixedByAddr(s)[j])
  {
    var t, f := FixedTable(s, |s|), FixedByAddr(s);
    FixedTableFrom(s, |s|);
    Sorting.SortSorts(t);
    assert s[..|s|] == s;
    forall i | 0 <= i < |f|
      ensures Sorting.Sort(t)[i] == (Sorting.Key(Addr(f[i]), 0, "", 0), f[i]) && f[i] in s && f[i].fixedaddr.Some?
    {
      var j := Sorting.SortedFrom(t, i);
    }
    forall i, j | 0 <= i < j < |f|
      ensures f[i] != f[j]
    {
      if f[i] == f[j] {
        var k, l := Sorting.SortedTwice(t, i, j);
      }
    }
  }

  lemma FixedByAddrHolds(s: seq<Section>, x: Section) returns (i: nat)
    requires Distinct(s) && x in s && x.fixedaddr.Some?
    ensures i < |FixedByAddr(s)| && FixedByAddr(s)[i] == x
  {
    var t := FixedTable(s, |s|);
    FixedTableFrom(s, |s|);
    var n :| 0 <= n < |s| && s[n] == x;
    var k :| 0 <= k < |t| && t[k].1 == x;
    i := Sorting.SortedTo(t, k);
  }

  /** Gap `i` of the sorted gaps lies behind fixed section `k`, and behind no other. */
  lemma GapOf(f: seq<Section>, i: nat) returns (k: nat)
    requires i < |f|
    ensures k < |f| && GapsBySpace(f)[i] == GapAfter(f, k)
  {
    k := Sorting.SortedFrom(GapTable(f, |f|), i);
  }

  lemma GapsDistinct(f: seq<Section>, i: nat, j: nat)
    requires Distinct(f) && i < j < |f|
    ensures GapsBySpace(f)[i] != GapsBySpace(f)[j]
  {
    var t := GapTable(f, |f|);
    var k := Sorting.SortedFrom(t, i);
    var l := Sorting.SortedFrom(t, j);
    if GapsBySpace(f)[i] == GapsBySpace(f)[j] {
      assert f[k] == f[l] && k == l;
      var m, n := Sorting.SortedTwice(t, i, j);
    }
  }

  // ---------- the run ----------

  datatype FitResult =
    | Fitted(firstfixed: int, slack: int)
    | Misaligned(section: Section)   // reported, then sys.exit
    | NoFixedSection                 // fixedsections[0] raises IndexError
    | Incomparable                   // sorting compares two sections, which raises TypeError
    | NoSpace                        // the percentage of slack divides by zero

  /** A fixed section is stored at the address in its name. */
  ghost predicate AtItsAddress(x: Section)
    reads x
  {
    x.finalloc == Some(Addr(x) + BIOS_ADDR) && x.finalsegloc == Some(Addr(x))
  }

  /**
   * The tuples `canrelocate.sort()` compares are decided before their sections are: some two
   * neighbours of the sorted list would have equal keys otherwise, and a sort compares them.
   */
  predicate Comparable(fill: seq<Section>) {
    forall i, j :: 0 <= i < j < |fill| ==> SizeKey(fill[i]) != SizeKey(fill[j])
  }

  /** What `fitSections` plans for the fill sections. */
  ghost function FillPlan(sections: seq<Section>, fill: seq<Section>): seq<Placement> {
    var g := GapsBySpace(FixedByAddr(sections));
    Plan(g, Candidates(fill), |g|)
  }

  /** The first loop: store the fixed sections and collect them. */
  method StoreFixed(sections: seq<Section>) returns (fixed: seq<Sorting.Keyed<Section>>, bad: Option<Section>)
    requires Distinct(sections)
    modifies sections`finalloc, sections`finalsegloc
    ensures bad.Some? ==> bad.value in sections && bad.value.fixedaddr.Some? && bad.value.alignlog != 0
    ensures bad.None? ==> fixed == FixedTable(sections, |sections|)
    ensures bad.None? ==> forall i :: 0 <= i < |sections| && sections[i].fixedaddr.Some? ==>
      AtItsAddress(sections[i]) && sections[i].alignlog == 0
    ensures forall i :: 0 <= i < |sections| && sections[i].fixedaddr.None? ==>
      sections[i].finalloc == old(sections[i].finalloc)
  {
    fixed, bad := [], None;
    for i := 0 to |sections|
      invariant fixed == FixedTable(sections, i)
      invariant forall k :: 0 <= k < i && sections[k].fixedaddr.Some? ==>
        AtItsAddress(sections[k]) && sections[k].alignlog == 0
      invariant forall k :: 0 <= k < |sections| && sections[k].fixedaddr.None? ==>
        sections[k].finalloc == old(sections[k].finalloc)
    {
      var section := sections[i];
      if section.fixedaddr.Some? {
        var addr := section.fixedaddr.value;
        section.finalloc := Some(addr + BIOS_ADDR);
        section.finalsegloc := Some(addr);
        fixed := fixed + [(Sorting.Key(addr, 0, "", 0), section)];
        if section.alignlog != 0 {
          return fixed, Some(section);
        }
      }
    }
  }

  /** The second loop: the free space behind each fixed section. */
  method FindGaps(fixed: seq<Section>) returns (gaps: seq<Sorting.Keyed<Gap>>)
    ensures gaps == GapTable(fixed, |fixed|)
  {
    gaps := [];
    for i := 0 to |fixed|
      invariant gaps == GapTable(fixed, i)
    {
      var section := fixed[i];
      var addr := Addr(section);
      var nextaddr := if i == |fixed| - 1 then BIOS_SIZE else Addr(fixed[i + 1]);
      var avail := nextaddr - addr - section.size;
      gaps := gaps + [(Sorting.Key(avail, 0, "", 0), Gap(addr + section.size, nextaddr, section))];
    }
  }

  /** Fill sections receive the placements, and no others. */
  lemma FillPlanTargets(sections: seq<Section>, fill: seq<Section>)
    requires Distinct(fill)
    ensures DistinctPlacements(FillPlan(sections, fill))
    ensures forall m :: 0 <= m < |FillPlan(sections, fill)| ==> FillPlan(sections, fill)[m].section in fill
  {
    var g := GapsBySpace(FixedByAddr(sections));
    CandidatesSorted(fill);
    CandidatesDistinct(fill);
    PlanPartition(g, Candidates(fill), |g|);
  }

  /** Gaps and candidates in their sorted order, then the filling. */
  method FillSorted(sections: seq<Section>, fixed: seq<Section>, fillsections: seq<Section>) returns (totalused: nat)
    requires Distinct(sections) && Distinct(fillsections) && fixed == FixedByAddr(sections)
    requires forall i :: 0 <= i < |fixed| ==> fixed[i] !in fillsections && AtItsAddress(fixed[i])
    modifies Targets(FillPlan(sections, fillsections))
    ensures forall m :: 0 <= m < |FillPlan(sections, fillsections)| ==> Stored(FillPlan(sections, fillsections)[m])
    ensures totalused == Used(GapsBySpace(fixed), Candidates(fillsections), |fixed|)
  {
    var gaps := FindGaps(fixed);
    var fixedAddr := Second(Sorting.Sort(gaps));
    var canrelocate := Candidates(fillsections);
    CandidatesSorted(fillsections);
    CandidatesDistinct(fillsections);
    forall i | 0 <= i < |fixedAddr|
      ensures fixedAddr[i].fixed !in canrelocate
      ensures fixedAddr[i].fixed.finalsegloc == Some(fixedAddr[i].lo - fixedAddr[i].fixed.size)
    {
      var k := GapOf(fixed, i);
    }
    totalused := FillGaps(fixedAddr, canrelocate);
  }

  method FitSections(sections: seq<Section>, fillsections: seq<Section>) returns (r: FitResult)
    requires Distinct(sections) && Distinct(fillsections) && forall x :: x in sections ==> x !in fillsections
    modifies sections, fillsections
    ensures r.Misaligned? <==> exists x :: x in sections && x.fixedaddr.Some? && x.alignlog != 0
    ensures r.Misaligned? ==> r.section in sections && r.section.fixedaddr.Some? && r.section.alignlog != 0
    ensures r.NoFixedSection? ==> FixedByAddr(sections) == []
    ensures r.Incomparable? ==> FixedByAddr(sections) != [] && !Comparable(fillsections)
    ensures r.NoSpace? ==> FixedByAddr(sections) != [] && Addr(FixedByAddr(sections)[0]) == BIOS_SIZE
    ensures r.NoSpace? || r.Fitted? ==> Comparable(fillsections)
    ensures r.Fitted? ==>
      var f := FixedByAddr(sections);
      && f != [] && Addr(f[0]) != BIOS_SIZE && r.firstfixed == Addr(f[0]) + BIOS_ADDR
      && r.slack == BIOS_SIZE - Addr(f[0]) - Used(GapsBySpace(f), Candidates(fillsections), |f|)
    ensures r.Fitted? ==> forall x :: x in sections && x.fixedaddr.Some? ==> AtItsAddress(x)
    ensures r.Fitted? ==>
      forall m :: 0 <= m < |FillPlan(sections, fillsections)| ==> Stored(FillPlan(sections, fillsections)[m])
    ensures r.Fitted? ==> forall x :: x in sections && x.fixedaddr.None? ==> x.finalloc == old(x.finalloc)
    ensures r.Fitted? ==> forall s :: s in fillsections && s !in Targets(FillPlan(sections, fillsections)) ==>
      s.finalloc == old(s.finalloc)
  {
    var table, bad := StoreFixed(sections);
    if bad.Some? {
      return Misaligned(bad.value);
    }
    FixedByAddrSorted(sections);
    if FixedByAddr(sections) == [] {
      return NoFixedSection;
    }
    if !Comparable(fillsections) {
      return Incomparable;
    }
    var total, totalused := FitComparable(sections, fillsections, Second(Sorting.Sort(table)));
    if total == 0 {
      return NoSpace;
    }
    return Fitted(BIOS_SIZE - total + BIOS_ADDR, total - totalused);
  }

  /** What follows once the lists are sorted. */
  method FitComparable(sections: seq<Section>, fillsections: seq<Section>, fixed: seq<Section>)
    returns (total: int, totalused: nat)
    requires Distinct(sections) && Distinct(fillsections) && forall x :: x in sections ==> x !in fillsections
    requires fixed == FixedByAddr(sections) && fixed != []
    requires forall x :: x in sections && x.fixedaddr.Some? ==> AtItsAddress(x)
    modifies fillsections
    ensures total == BIOS_SIZE - Addr(fixed[0])
    ensures totalused == Used(GapsBySpace(fixed), Candidates(fillsections), |fixed|)
    ensures forall m :: 0 <= m < |FillPlan(sections, fillsections)| ==> Stored(FillPlan(sections, fillsections)[m])
    ensures forall s :: s in fillsections && s !in Targets(FillPlan(sections, fillsections)) ==>
      s.finalloc == old(s.finalloc)
  {
    FixedByAddrSorted(sections);
    FillPlanTargets(sections, fillsections);
    totalused := FillSorted(sections, fixed, fillsections);
    total := BIOS_SIZE - Addr(fixed[0]);
  }

  // ---------- what the addresses satisfy ----------

  /** No fixed section reaches into the next one, or out of the segment: no gap is negative. */
  ghost predicate FixedFit(f: seq<Section>) {
    forall i :: 0 <= i < |f| ==> GapAfter(f, i).lo <= GapAfter(f, i).hi
  }

  /** Section `x` is at segment offset `pos`: a fixed one by its name, a fill one by the plan. */
  ghost predicate Located(sections: seq<Section>, fill: seq<Section>, x: Section, pos: int) {
    (x in FixedByAddr(sections) && pos == Addr(x)) ||
    (exists m :: 0 <= m < |FillPlan(sections, fill)| && FillPlan(sections, fill)[m] == Placement(x, pos))
  }

  ghost predicate Apart(p: int, m: nat, q: int, n: nat) {
    p + m <= q || q + n <= p
  }

  lemma {:induction false} FixedMonotone(f: seq<Section>, i: nat, j: nat)
    requires FixedFit(f) && i < j < |f|
    ensures GapAfter(f, i).hi <= Addr(f[j])
    decreases j
  {
    if i < j - 1 {
      FixedMonotone(f, i, j - 1);
      assert GapAfter(f, j - 1).lo <= GapAfter(f, j - 1).hi;
    }
  }

  /** Every placement lies in the gap behind one fixed section. */
  lemma PlacementGap(sections: seq<Section>, fill: seq<Section>, m: nat) returns (i: nat, j: nat, k: nat)
    requires m < |FillPlan(sections, fill)|
    ensures var f, g, p := FixedByAddr(sections), GapsBySpace(FixedByAddr(sections)), FillPlan(sections, fill)[m];
      && i < |g| && j < |FillAt(g, Candidates(fill), i).placed| && k < |f|
      && p == FillAt(g, Candidates(fill), i).placed[j] && g[i] == GapAfter(f, k)
      && g[i].lo <= p.pos && p.pos + p.section.size <= g[i].hi
      && m == |Plan(g, Candidates(fill), i)| + j
  {
    var f := FixedByAddr(sections);
    var g := GapsBySpace(f);
    i, j := PlanEntry(g, Candidates(fill), |g|, m);
    k := GapOf(f, i);
    FilledInside(RestBefore(g, Candidates(fill), i), g[i].lo, g[i].hi, j, j);
  }

  /** Two fixed sections, of which `x` comes first. */
  lemma FixedApart(f: seq<Section>, i: nat, j: nat)
    requires FixedFit(f) && i < |f| && j < |f| && i != j
    ensures Apart(Addr(f[i]), f[i].size, Addr(f[j]), f[j].size)
  {
    var k, l := if i < j then i else j, if i < j then j else i;
    FixedMonotone(f, k, l);
    assert GapAfter(f, k).lo <= GapAfter(f, k).hi;
  }

  lemma FixedBounds(f: seq<Section>, i: nat)
    requires FixedFit(f) && i < |f|
    ensures Addr(f[0]) <= Addr(f[i]) && GapAfter(f, i).lo <= GapAfter(f, i).hi <= BIOS_SIZE
  {
    assert GapAfter(f, i).lo <= GapAfter(f, i).hi;
    assert GapAfter(f, 0).lo <= GapAfter(f, 0).hi;
    if i > 0 { FixedMonotone(f, 0, i); }
    var n := |f| - 1;
    assert GapAfter(f, n).lo <= GapAfter(f, n).hi;
    if i < n { FixedMonotone(f, i, n); }
  }

  /** A fixed section and what a gap holds. */
  lemma FixedClearOfGap(f: seq<Section>, l: nat, k: nat, pos: int, size: nat)
    requires FixedFit(f) && l < |f| && k < |f|
    requires GapAfter(f, k).lo <= pos && pos + size <= GapAfter(f, k).hi
    ensures Apart(Addr(f[l]), f[l].size, pos, size)
  {
    if l < k {
      FixedMonotone(f, l, k);
      assert GapAfter(f, l).lo <= GapAfter(f, l).hi;
    } else if k < l {
      FixedMonotone(f, k, l);
    }
  }

  /** What two gaps hold. */
  lemma GapsClear(f: seq<Section>, k: nat, l: nat, p: int, m: nat, q: int, n: nat)
    requires FixedFit(f) && k < |f| && l < |f| && k != l
    requires GapAfter(f, k).lo <= p && p + m <= GapAfter(f, k).hi
    requires GapAfter(f, l).lo <= q && q + n <= GapAfter(f, l).hi
    ensures Apart(p, m, q, n)
  {
    if k < l { FixedMonotone(f, k, l); } else { FixedMonotone(f, l, k); }
  }

  /** Two entries of the plan. */
  lemma PlacementsApart(sections: seq<Section>, fill: seq<Section>, m: nat, n: nat)
    requires Distinct(sections) && Distinct(fill) && FixedFit(FixedByAddr(sections))
    requires m < |FillPlan(sections, fill)| && n < |FillPlan(sections, fill)| && m != n
    ensures var p := FillPlan(sections, fill);
      Apart(p[m].pos, p[m].section.size, p[n].pos, p[n].section.size)
  {
    var f, c := FixedByAddr(sections), Candidates(fill);
    var g, p := GapsBySpace(f), FillPlan(sections, fill);
    FillPlanTargets(sections, fill);
    FixedByAddrSorted(sections);
    var i, j, k := PlacementGap(sections, fill, m);
    var i', j', k' := PlacementGap(sections, fill, n);
    if i == i' {
      assert j != j';
      FilledInside(RestBefore(g, c, i), g[i].lo, g[i].hi, if j < j' then j else j', if j < j' then j' else j);
    } else {
      GapsDistinct(f, if i < i' then i else i', if i < i' then i' else i);
      GapsClear(f, k, k', p[m].pos, p[m].section.size, p[n].pos, p[n].section.size);
    }
  }

  /** `fitSections`: no two sections it stores overlap. */
  lemma FittedSectionsApart(sections: seq<Section>, fill: seq<Section>, x: Section, p: int, y: Section, q: int)
    requires Distinct(sections) && Distinct(fill) && FixedFit(FixedByAddr(sections))
    requires Located(sections, fill, x, p) && Located(sections, fill, y, q) && x != y
    ensures Apart(p, x.size, q, y.size)
  {
    var f := FixedByAddr(sections);
    if x in f && p == Addr(x) {
      var i :| 0 <= i < |f| && f[i] == x;
      if y in f && q == Addr(y) {
        var j :| 0 <= j < |f| && f[j] == y;
        FixedApart(f, i, j);
      } else {
        var n :| 0 <= n < |FillPlan(sections, fill)| && FillPlan(sections, fill)[n] == Placement(y, q);
        var _, _, k := PlacementGap(sections, fill, n);
        FixedClearOfGap(f, i, k, q, y.size);
      }
    } else {
      var m :| 0 <= m < |FillPlan(sections, fill)| && FillPlan(sections, fill)[m] == Placement(x, p);
      var _, _, k := PlacementGap(sections, fill, m);
      if y in f && q == Addr(y) {
        var j :| 0 <= j < |f| && f[j] == y;
        FixedClearOfGap(f, j, k, p, x.size);
      } else {
        var n :| 0 <= n < |FillPlan(sections, fill)| && FillPlan(sections, fill)[n] == Placement(y, q);
        PlacementsApart(sections, fill, m, n);
      }
    }
  }

  lemma FittedInside(sections: seq<Section>, fill: seq<Section>, x: Section, p: int)
    requires Distinct(sections) && Distinct(fill) && FixedFit(FixedByAddr(sections))
    requires Located(sections, fill, x, p)
    ensures Addr(FixedByAddr(sections)[0]) <= p && p + x.size <= BIOS_SIZE
  {
    var f := FixedByAddr(sections);
    if x in f && p == Addr(x) {
      var i :| 0 <= i < |f| && f[i] == x;
      FixedBounds(f, i);
    } else {
      var m :| 0 <= m < |FillPlan(sections, fill)| && FillPlan(sections, fill)[m] == Placement(x, p);
      var _, _, k := PlacementGap(sections, fill, m);
      FixedBounds(f, k);
    }
  }

  /** Greedy maximality over all gaps: an unplaced fill section fits in no remainder. */
  lemma UnplacedFitsNowhere(sections: seq<Section>, fill: seq<Section>, s: Section, i: nat)
    requires Distinct(fill) && s in fill && s !in Targets(FillPlan(sections, fill))
    requires i < |GapsBySpace(FixedByAddr(sections))|
    ensures var g := GapsBySpace(FixedByAddr(sections));
      After(s, FillAt(g, Candidates(fill), i).pos) > g[i].hi
  {
    var g, c := GapsBySpace(FixedByAddr(sections)), Candidates(fill);
    CandidatesSorted(fill);
    CandidatesDistinct(fill);
    if s !in RestBefore(g, c, |g|) {
      var m := PlanCovers(g, c, |g|, s);
    }
    RestShrinks(g, c, i + 1, |g|, s);
    NothingMoreFits(RestBefore(g, c, i), g[i].lo, g[i].hi, s);
  }

  ghost predicate KeysAscend(c: seq<Section>) {
    forall i, j :: 0 <= i < j < |c| ==> Sorting.Leq(SizeKey(c[i]), SizeKey(c[j]))
  }

  lemma KeysWithout(c: seq<Section>, k: nat)
    requires k < |c| && KeysAscend(c)
    ensures KeysAscend(Without(c, k))
  {
  }

  /** Each pick is, among the candidates still there that fit, the last in (size, align, name) order. */
  lemma {:induction false} PickIsLargest(c: seq<Section>, pos: int, next: int, j: nat, s: Section)
    requires Distinct(c) && KeysAscend(c) && s in c
    requires j < |FillGap(c, pos, next).placed|
    requires forall i :: 0 <= i < j ==> FillGap(c, pos, next).placed[i].section != s
    requires After(s, FillGap(c, pos, next).placed[j].pos) <= next
    ensures Sorting.Leq(SizeKey(s), SizeKey(FillGap(c, pos, next).placed[j].section))
    decreases j
  {
    var k := LastFit(c, |c|, pos, next);
    LastFitIsLast(c, |c|, pos, next);
    FillGapStep(c, pos, next, k);
    if j == 0 {
      var i :| 0 <= i < |c| && c[i] == s;
      assert i <= k;
      Sorting.Total(SizeKey(s), SizeKey(s));
    } else {
      DistinctWithout(c, k);
      KeysWithout(c, k);
      assert FillGap(c, pos, next).placed[0].section == c[k];
      assert FillGap(c, pos, next).placed[j] == FillGap(Without(c, k), After(c[k], pos), next).placed[j - 1];
      PickIsLargest(Without(c, k), After(c[k], pos), next, j - 1, s);
    }
  }

  /** What is left over keeps its order. */
  lemma {:induction false} RestAscends(c: seq<Section>, pos: int, next: int)
    requires Distinct(c) && KeysAscend(c)
    ensures Distinct(FillGap(c, pos, next).rest) && KeysAscend(FillGap(c, pos, next).rest)
    decreases |c|
  {
    var k := LastFit(c, |c|, pos, next);
    FillGapStep(c, pos, next, k);
    if k >= 0 {
      DistinctWithout(c, k);
      KeysWithout(c, k);
      RestAscends(Without(c, k), After(c[k], pos), next);
    }
  }

  lemma {:induction false} RestsAscend(g: seq<Gap>, c: seq<Section>, n: nat)
    requires n <= |g| && Distinct(c) && KeysAscend(c)
    ensures Distinct(RestBefore(g, c, n)) && KeysAscend(RestBefore(g, c, n))
  {
    if n > 0 {
      RestsAscend(g, c, n - 1);
      RestAscends(RestBefore(g, c, n - 1), g[n - 1].lo, g[n - 1].hi);
    }
  }

  ghost predicate NotBefore(p: seq<Placement>, m: nat, x: Section) {
    forall n :: 0 <= n < m && n < |p| ==> p[n].section != x
  }

  /**
   * Each entry of the whole plan lies behind one fixed section and is, among the fill sections
   * not placed before it that would fit there, the last in (size, align, name) order.
   */
  lemma EachPickIsLargest(sections: seq<Section>, fill: seq<Section>, m: nat) returns (k: nat)
    requires Distinct(fill) && m < |FillPlan(sections, fill)|
    ensures var f, p := FixedByAddr(sections), FillPlan(sections, fill);
      && k < |f| && GapAfter(f, k).lo <= p[m].pos && p[m].pos + p[m].section.size <= GapAfter(f, k).hi
      && forall x :: x in fill && NotBefore(p, m, x) && After(x, p[m].pos) <= GapAfter(f, k).hi ==>
           Sorting.Leq(SizeKey(x), SizeKey(p[m].section))
  {
    var f, p, c := FixedByAddr(sections), FillPlan(sections, fill), Candidates(fill);
    var g := GapsBySpace(f);
    var i, j, k' := PlacementGap(sections, fill, m);
    k := k';
    forall x | x in fill && NotBefore(p, m, x) && After(x, p[m].pos) <= GapAfter(f, k).hi
      ensures Sorting.Leq(SizeKey(x), SizeKey(p[m].section))
    {
      PickAt(g, c, i, j, fill, x);
    }
  }

  lemma NotYetPlanned(g: seq<Gap>, c: seq<Section>, i: nat, x: Section)
    requires Distinct(c) && x in c && i <= |g| && |Plan(g, c, i)| <= |Plan(g, c, |g|)|
    requires Plan(g, c, |g|)[..|Plan(g, c, i)|] == Plan(g, c, i)
    requires forall n :: 0 <= n < |Plan(g, c, i)| ==> Plan(g, c, |g|)[n].section != x
    ensures x in RestBefore(g, c, i)
  {
    forall n | 0 <= n < |Plan(g, c, i)|
      ensures Plan(g, c, i)[n].section != x
    {
      assert Plan(g, c, i)[n] == Plan(g, c, |g|)[n];
    }
    if x !in RestBefore(g, c, i) {
      var n := PlanCovers(g, c, i, x);
      assert false;
    }
  }

  lemma PickAt(g: seq<Gap>, c: seq<Section>, i: nat, j: nat, fill: seq<Section>, x: Section)
    requires Distinct(fill) && c == Candidates(fill) && i < |g| && j < |FillAt(g, c, i).placed| && x in fill
    requires |Plan(g, c, i)| + j < |Plan(g, c, |g|)|
    requires forall n :: 0 <= n < |Plan(g, c, i)| + j ==> Plan(g, c, |g|)[n].section != x
    requires After(x, FillAt(g, c, i).placed[j].pos) <= g[i].hi
    ensures Sorting.Leq(SizeKey(x), SizeKey(FillAt(g, c, i).placed[j].section))
  {
    var p, d := Plan(g, c, |g|), |Plan(g, c, i)|;
    CandidatesSorted(fill);
    CandidatesDistinct(fill);
    PlanPrefix(g, c, i, |g|);
    PlanSegment(g, c, i);
    NotYetPlanned(g, c, i, x);
    RestsAscend(g, c, i);
    forall l | 0 <= l < j
      ensures FillAt(g, c, i).placed[l].section != x
    {
      assert p[d + l] == FillAt(g, c, i).placed[l];
    }
    PickIsLargest(RestBefore(g, c, i), g[i].lo, g[i].hi, j, x);
  }

  // ---------- slack ----------

  /** Fixed sections plus free space, over a table of gaps. */
  function Room(t: seq<Sorting.Keyed<Gap>>): int {
    if t == [] then 0
    else
      var g := t[|t| - 1].1;
      Room(t[..|t| - 1]) + g.fixed.size + g.hi - g.lo
  }

  lemma {:induction false} RoomOfInsert(t: seq<Sorting.Keyed<Gap>>, x: Sorting.Keyed<Gap>)
    ensures Room(Sorting.Insert(t, x)) == Room(t) + x.1.fixed.size + x.1.hi - x.1.lo
  {
    var r := Sorting.Insert(t, x);
    if t == [] {
      assert r[..0] == [];
    } else if Sorting.Leq(t[|t| - 1].0, x.0) {
      assert r[..|t|] == t;
    } else {
      RoomOfInsert(t[..|t| - 1], x);
      assert r[..|r| - 1] == Sorting.Insert(t[..|t| - 1], x);
    }
  }

  lemma {:induction false} RoomOfSort(t: seq<Sorting.Keyed<Gap>>)
    ensures Room(Sorting.Sort(t)) == Room(t)
  {
    if t != [] {
      RoomOfSort(t[..|t| - 1]);
      RoomOfInsert(Sorting.Sort(t[..|t| - 1]), t[|t| - 1]);
    }
  }

  lemma {:induction false} RoomOfGaps(f: seq<Section>, n: nat)
    requires 0 < n <= |f|
    ensures Room(GapTable(f, n)) == GapAfter(f, n - 1).hi - Addr(f[0])
  {
    assert GapTable(f, n)[..n - 1] == GapTable(f, n - 1);
    if n > 1 {
      RoomOfGaps(f, n - 1);
    } else {
      assert Room(GapTable(f, 0)) == 0;
    }
  }

  lemma {:induction false} UsedWithinRoom(t: seq<Sorting.Keyed<Gap>>, g: seq<Gap>, c: seq<Section>, n: nat)
    requires g == Second(t) && n <= |g| && forall i :: 0 <= i < |g| ==> g[i].lo <= g[i].hi
    ensures Used(g, c, n) <= Room(t[..n])
  {
    if n > 0 {
      UsedWithinRoom(t, g, c, n - 1);
      assert t[..n][..n - 1] == t[..n - 1];
      var r := RestBefore(g, c, n - 1);
      var p := FillAt(g, c, n - 1).placed;
      FilledBytes(r, g[n - 1].lo, g[n - 1].hi, |p|);
      if p != [] { FilledInside(r, g[n - 1].lo, g[n - 1].hi, |p| - 1, |p| - 1); }
    }
  }

  /** The reported slack is never negative. */
  lemma SlackNonNegative(sections: seq<Section>, fill: seq<Section>)
    requires FixedByAddr(sections) != [] && FixedFit(FixedByAddr(sections))
    ensures var f := FixedByAddr(sections);
      0 <= BIOS_SIZE - Addr(f[0]) - Used(GapsBySpace(f), Candidates(fill), |f|)
  {
    SlackOf(FixedByAddr(sections), Candidates(fill));
  }

  lemma SlackOf(f: seq<Section>, c: seq<Section>)
    requires f != [] && FixedFit(f)
    ensures 0 <= BIOS_SIZE - Addr(f[0]) - Used(GapsBySpace(f), c, |f|)
  {
    var t := GapTable(f, |f|);
    RoomOfGaps(f, |f|);
    RoomOfSort(t);
    forall i | 0 <= i < |f|
      ensures GapsBySpace(f)[i].lo <= GapsBySpace(f)[i].hi
    {
      var k := GapOf(f, i);
    }
    UsedWithinRoom(Sorting.Sort(t), GapsBySpace(f), c, |f|);
    assert Sorting.Sort(t)[..|f|] == Sorting.Sort(t);
  }
}
