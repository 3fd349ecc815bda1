/** `fitSections`: fixed-address sections, and the greedy filling of the gaps between them. */
module GapFilling {
  import opened Common
  import opened Sections
  import Sorting

  const BIOS_ADDR := 0xf0000
  const BIOS_SIZE := 0x10000

  // ---------- one gap ----------

  datatype Placement = Placement(section: Section, pos: int)

  /** The outcome of filling one gap: what went where, what is left, where the free rest starts. */
  datatype Filled = Filled(placed: seq<Placement>, rest: seq<Section>, pos: int)

  /** Where the free space starts once `s` is stored at `pos`. */
  function After(s: Section, pos: int): (r: int)
    ensures pos + s.size <= r
  {
    AlignPos(pos, s.alignlog) + s.size
  }

  /** The last of the first `n` candidates that fits before `next`, or -1. */
  function LastFit(c: seq<Section>, n: nat, pos: int, next: int): int
    requires n <= |c|
  {
    if n == 0 then -1
    else if After(c[n - 1], pos) <= next then n - 1
    else LastFit(c, n - 1, pos, next)
  }

  lemma {:induction false} LastFitIsLast(c: seq<Section>, n: nat, pos: int, next: int)
    requires n <= |c|
    ensures var k := LastFit(c, n, pos, next);
      && -1 <= k < n
      && (k >= 0 ==> After(c[k], pos) <= next)
      && forall j :: k < j < n ==> After(c[j], pos) > next
  {
    if n != 0 {
      LastFitIsLast(c, n - 1, pos, next);
    }
  }

  function Without(c: seq<Section>, k: nat): seq<Section>
    requires k < |c|
  {
    c[..k] + c[k + 1..]
  }

  /** Keep taking the last candidate that fits, stored at the unaligned position. */
  function FillGap(c: seq<Section>, pos: int, next: int): Filled
    decreases |c|
  {
    LastFitIsLast(c, |c|, pos, next);
    var k := LastFit(c, |c|, pos, next);
    if k < 0 then Filled([], c, pos)
    else
      var f := FillGap(Without(c, k), After(c[k], pos), next);
      f.(placed := [Placement(c[k], pos)] + f.placed)
  }

  /** One turn of the filling loop. */
  lemma FillGapStep(c: seq<Section>, pos: int, next: int, k: int)
    requires k == LastFit(c, |c|, pos, next)
    ensures -1 <= k < |c|
    ensures k < 0 ==> FillGap(c, pos, next) == Filled([], c, pos)
    ensures k >= 0 ==>
      && After(c[k], pos) <= next
      && FillGap(c, pos, next).placed != []
      && FillGap(c, pos, next).placed[0] == Placement(c[k], pos)
      && FillGap(Without(c, k), After(c[k], pos), next)
         == FillGap(c, pos, next).(placed := FillGap(c, pos, next).placed[1..])
  {
    LastFitIsLast(c, |c|, pos, next);
  }

  /** Where the filling stops. */
  lemma {:induction false} FilledEnd(c: seq<Section>, pos: int, next: int)
    ensures var f := FillGap(c, pos, next);
      && pos <= f.pos
      && (pos <= next ==> f.pos <= next)
      && (next < pos ==> f == Filled([], c, pos))
    decreases |c|
  {
    var k := LastFit(c, |c|, pos, next);
    FillGapStep(c, pos, next, k);
    if k >= 0 {
      FilledEnd(Without(c, k), After(c[k], pos), next);
    }
  }

  /** Placements lie inside the gap, in order and without overlap. */
  lemma {:induction false} FilledInside(c: seq<Section>, pos: int, next: int, i: nat, j: nat)
    requires i < |FillGap(c, pos, next).placed| && j < |FillGap(c, pos, next).placed|
    ensures var f := FillGap(c, pos, next);
      && pos <= f.placed[i].pos && f.placed[i].pos + f.placed[i].section.size <= f.pos <= next
      && (i < j ==> f.placed[i].pos + f.placed[i].section.size <= f.placed[j].pos)
    decreases |c|
  {
    var k := LastFit(c, |c|, pos, next);
    FillGapStep(c, pos, next, k);
    var c', pos' := Without(c, k), After(c[k], pos);
    FilledEnd(c', pos', next);
    if i > 0 { FilledInside(c', pos', next, i - 1, if j > 0 then j - 1 else 0); }
    if j > 0 { FilledInside(c', pos', next, j - 1, j - 1); }
  }

  /** Greedy maximality: nothing left over fits in what remains of the gap. */
  lemma {:induction false} NothingMoreFits(c: seq<Section>, pos: int, next: int, s: Section)
    requires s in FillGap(c, pos, next).rest
    ensures After(s, FillGap(c, pos, next).pos) > next
    decreases |c|
  {
    var k := LastFit(c, |c|, pos, next);
    LastFitIsLast(c, |c|, pos, next);
    FillGapStep(c, pos, next, k);
    if k >= 0 {
      NothingMoreFits(Without(c, k), After(c[k], pos), next, s);
    }
  }

  /** The bytes of the first `n` placements. */
  function PlacedBytes(p: seq<Placement>, n: nat): nat
    requires n <= |p|
  {
    if n == 0 then 0 else PlacedBytes(p, n - 1) + p[n - 1].section.size
  }

  /** A filling uses no more bytes than its position advances. */
  lemma {:induction false} FilledBytes(c: seq<Section>, pos: int, next: int, n: nat)
    requires n <= |FillGap(c, pos, next).placed|
    ensures var f := FillGap(c, pos, next);
      pos + PlacedBytes(f.placed, n) <= if n == 0 then pos else f.placed[n - 1].pos + f.placed[n - 1].section.size
  {
    if n > 0 {
      FilledBytes(c, pos, next, n - 1);
      FilledInside(c, pos, next, if n > 1 then n - 2 else 0, n - 1);
    }
  }

  lemma DistinctWithout(c: seq<Section>, k: nat)
    requires k < |c| && Distinct(c)
    ensures Distinct(Without(c, k)) && c[k] !in Without(c, k)
    ensures forall s :: s in c ==> s == c[k] || s in Without(c, k)
    ensures forall s :: s in Without(c, k) ==> s in c
  {
    forall s | s in c && s != c[k]
      ensures s in Without(c, k)
    {
      var i :| 0 <= i < |c| && c[i] == s;
      assert Without(c, k)[if i < k then i else i - 1] == s;
    }
  }

  ghost predicate DistinctPlacements(p: seq<Placement>) {
    forall i, j :: 0 <= i < j < |p| ==> p[i].section != p[j].section
  }

  /** No candidate is placed twice, and none is both placed and left over. */
  lemma {:induction false} FilledPartition(c: seq<Section>, pos: int, next: int)
    requires Distinct(c)
    ensures var f := FillGap(c, pos, next);
      && Distinct(f.rest) && DistinctPlacements(f.placed)
      && (forall i :: 0 <= i < |f.placed| ==> f.placed[i].section in c && f.placed[i].section !in f.rest)
      && (forall s :: s in f.rest ==> s in c)
    decreases |c|
  {
    var k := LastFit(c, |c|, pos, next);
    FillGapStep(c, pos, next, k);
    if k >= 0 {
      DistinctWithout(c, k);
      FilledPartition(Without(c, k), After(c[k], pos), next);
      var f, g := FillGap(c, pos, next), FillGap(Without(c, k), After(c[k], pos), next);
      assert forall i :: 0 < i < |f.placed| ==> f.placed[i] == g.placed[i - 1];
    }
  }

  /** No candidate is lost. */
  lemma {:induction false} FilledCovers(c: seq<Section>, pos: int, next: int, s: Section) returns (i: nat)
    requires Distinct(c) && s in c && s !in FillGap(c, pos, next).rest
    ensures i < |FillGap(c, pos, next).placed| && FillGap(c, pos, next).placed[i].section == s
    decreases |c|
  {
    var k := LastFit(c, |c|, pos, next);
    FillGapStep(c, pos, next, k);
    i := 0;
    if s != c[k] {
      DistinctWithout(c, k);
      i := FilledCovers(Without(c, k), After(c[k], pos), next, s);
      i := i + 1;
    }
  }

  ghost predicate SizesAscend(c: seq<Section>) {
    forall i, j :: 0 <= i < j < |c| ==> c[i].size <= c[j].size
  }

  /** The scan for the section to place next, which stops at the first one that is too large. */
  method FindFit(canrelocate: seq<Section>, addpos: int, next: int) returns (canfit: int)
    requires SizesAscend(canrelocate)
    ensures canfit == LastFit(canrelocate, |canrelocate|, addpos, next)
  {
    canfit := -1;
    for i := 0 to |canrelocate|
      invariant canfit == LastFit(canrelocate, i, addpos, next)
    {
      var fitsection := canrelocate[i];
      if addpos + fitsection.size > next {
        NoneFitsBeyond(canrelocate, i, |canrelocate|, addpos, next);
        break;
      }
      if After(fitsection, addpos) > next {
        continue;
      }
      canfit := i;
    }
  }

  /** Sizes ascend, so once one section is larger than the space, so are all later ones. */
  lemma {:induction false} NoneFitsBeyond(c: seq<Section>, i: nat, n: nat, pos: int, next: int)
    requires SizesAscend(c) && i <= n <= |c| && i < |c| && pos + c[i].size > next
    ensures LastFit(c, n, pos, next) == LastFit(c, i, pos, next)
    decreases n
  {
    if i < n {
      NoneFitsBeyond(c, i, n - 1, pos, next);
    }
  }

  ghost function Targets(p: seq<Placement>): set<Section> {
    set i | 0 <= i < |p| :: p[i].section
  }

  /** The placement has been written to its section. */
  ghost predicate Stored(p: Placement)
    reads p.section
  {
    p.section.finalloc == Some(p.pos + BIOS_ADDR) && p.section.finalsegloc == Some(p.pos)
  }

  /** `canrelocate.remove(fitsection)` and the two assignments that store it. */
  method StoreNext(c: seq<Section>, k: nat, pos: int) returns (rest: seq<Section>)
    requires k < |c| && SizesAscend(c)
    modifies c[k]
    ensures rest == Without(c, k) && SizesAscend(rest)
    ensures Stored(Placement(c[k], pos))
  {
    rest := Without(c, k);
    c[k].finalloc := Some(pos + BIOS_ADDR);
    c[k].finalsegloc := Some(pos);
  }

  /** The `while 1` loop over one gap, which carries out the filling `f`. */
  method FillOne(candidates: seq<Section>, lo: int, hi: int, ghost f: Filled)
    returns (canrelocate: seq<Section>, used: nat)
    requires SizesAscend(candidates) && f == FillGap(candidates, lo, hi) && DistinctPlacements(f.placed)
    modifies Targets(f.placed)
    ensures canrelocate == f.rest && SizesAscend(canrelocate)
    ensures used == PlacedBytes(f.placed, |f.placed|)
    ensures forall i :: 0 <= i < |f.placed| ==> Stored(f.placed[i])
  {
    var addpos := lo;
    canrelocate, used := candidates, 0;
    ghost var n := 0;
    var canfit := FindFit(canrelocate, addpos, hi);
    while canfit >= 0
      invariant SizesAscend(canrelocate) && canfit == LastFit(canrelocate, |canrelocate|, addpos, hi)
      invariant n <= |f.placed| && FillGap(canrelocate, addpos, hi) == Filled(f.placed[n..], f.rest, f.pos)
      invariant used == PlacedBytes(f.placed, n)
      invariant forall i :: 0 <= i < n ==> Stored(f.placed[i])
      decreases |f.placed| - n
    {
      FillGapStep(canrelocate, addpos, hi, canfit);
      var fitsection := canrelocate[canfit];
      assert f.placed[n] == Placement(fitsection, addpos) && f.placed[n..][1..] == f.placed[n + 1..];
      canrelocate := StoreNext(canrelocate, canfit, addpos);
      addpos := After(fitsection, addpos);
      used := used + fitsection.size;
      n := n + 1;
      canfit := FindFit(canrelocate, addpos, hi);
    }
    FillGapStep(canrelocate, addpos, hi, canfit);
  }

  // ---------- all gaps ----------

  /** The free space behind a fixed section. */
  datatype Gap = Gap(lo: int, hi: int, fixed: Section)

  /** The candidates left when gap `n` is reached. */
  function RestBefore(g: seq<Gap>, c: seq<Section>, n: nat): seq<Section>
    requires n <= |g|
    decreases n, 0
  {
    if n == 0 then c else FillAt(g, c, n - 1).rest
  }

  function FillAt(g: seq<Gap>, c: seq<Section>, n: nat): Filled
    requires n < |g|
    decreases n, 1
  {
    FillGap(RestBefore(g, c, n), g[n].lo, g[n].hi)
  }

  /** What the first `n` gaps receive. */
  function Plan(g: seq<Gap>, c: seq<Section>, n: nat): seq<Placement>
    requires n <= |g|
  {
    if n == 0 then [] else Plan(g, c, n - 1) + FillAt(g, c, n - 1).placed
  }

  /** Bytes used by the first `n` fixed sections and their fillings. */
  function Used(g: seq<Gap>, c: seq<Section>, n: nat): nat
    requires n <= |g|
  {
    if n == 0 then 0
    else
      var p := FillAt(g, c, n - 1).placed;
      Used(g, c, n - 1) + g[n - 1].fixed.size + PlacedBytes(p, |p|)
  }

  /** Over all gaps, too, no candidate is placed twice or both placed and left over. */
  lemma {:induction false} PlanPartition(g: seq<Gap>, c: seq<Section>, n: nat)
    requires n <= |g| && Distinct(c)
    ensures var p, r := Plan(g, c, n), RestBefore(g, c, n);
      && Distinct(r) && DistinctPlacements(p)
      && (forall i :: 0 <= i < |p| ==> p[i].section in c && p[i].section !in r)
      && (forall s :: s in r ==> s in c)
  {
    if n > 0 {
      PlanPartition(g, c, n - 1);
      FilledPartition(RestBefore(g, c, n - 1), g[n - 1].lo, g[n - 1].hi);
    }
  }

  /** And none is lost. */
  lemma {:induction false} PlanCovers(g: seq<Gap>, c: seq<Section>, n: nat, s: Section) returns (i: nat)
    requires n <= |g| && Distinct(c) && s in c && s !in RestBefore(g, c, n)
    ensures i < |Plan(g, c, n)| && Plan(g, c, n)[i].section == s
  {
    PlanPartition(g, c, n - 1);
    if s in RestBefore(g, c, n - 1) {
      i := FilledCovers(RestBefore(g, c, n - 1), g[n - 1].lo, g[n - 1].hi, s);
      i := |Plan(g, c, n - 1)| + i;
    } else {
      i := PlanCovers(g, c, n - 1, s);
    }
  }

  /** Which gap, and which place in its filling, entry `m` of the plan comes from. */
  lemma {:induction false} PlanEntry(g: seq<Gap>, c: seq<Section>, n: nat, m: nat) returns (i: nat, j: nat)
    requires n <= |g| && m < |Plan(g, c, n)|
    ensures i < n && j < |FillAt(g, c, i).placed| && Plan(g, c, n)[m] == FillAt(g, c, i).placed[j]
    ensures m == |Plan(g, c, i)| + j
  {
    var p := Plan(g, c, n - 1);
    if m >= |p| {
      i, j := n - 1, m - |p|;
    } else {
      i, j := PlanEntry(g, c, n - 1, m);
    }
  }

  lemma {:induction false} RestShrinks(g: seq<Gap>, c: seq<Section>, i: nat, n: nat, s: Section)
    requires i <= n <= |g| && Distinct(c) && s in RestBefore(g, c, n)
    ensures s in RestBefore(g, c, i)
    decreases n
  {
    if i < n {
      PlanPartition(g, c, n - 1);
      FilledPartition(RestBefore(g, c, n - 1), g[n - 1].lo, g[n - 1].hi);
      RestShrinks(g, c, i, n - 1, s);
    }
  }

  /** One turn of the loop over the gaps. */
  method FillNext(gaps: seq<Gap>, candidates: seq<Section>, i: nat, canrelocate: seq<Section>,
                  ghost plan: seq<Placement>)
    returns (rest: seq<Section>, used: nat)
    requires i < |gaps| && Distinct(candidates) && plan == Plan(gaps, candidates, |gaps|)
    requires canrelocate == RestBefore(gaps, candidates, i) && SizesAscend(canrelocate)
    requires gaps[i].fixed.finalsegloc == Some(gaps[i].lo - gaps[i].fixed.size)
    requires |Plan(gaps, candidates, i)| <= |plan|
    requires forall m :: 0 <= m < |Plan(gaps, candidates, i)| ==> Stored(plan[m])
    modifies Targets(plan)
    ensures rest == RestBefore(gaps, candidates, i + 1) && SizesAscend(rest)
    ensures Used(gaps, candidates, i + 1) == Used(gaps, candidates, i) + gaps[i].fixed.size + used
    ensures |Plan(gaps, candidates, i + 1)| <= |plan|
    ensures forall m :: 0 <= m < |Plan(gaps, candidates, i + 1)| ==> Stored(plan[m])
  {
    ghost var f := FillAt(gaps, candidates, i);
    PlanExtends(gaps, candidates, i);
    var addpos := gaps[i].fixed.finalsegloc.value + gaps[i].fixed.size;
    rest, used := FillOne(canrelocate, addpos, gaps[i].hi, f);
  }

  /** The loop over the gaps. */
  method FillGaps(gaps: seq<Gap>, candidates: seq<Section>) returns (totalused: nat)
    requires Distinct(candidates) && SizesAscend(candidates)
    requires forall i :: 0 <= i < |gaps| ==>
      gaps[i].fixed !in candidates && gaps[i].fixed.finalsegloc == Some(gaps[i].lo - gaps[i].fixed.size)
    modifies Targets(Plan(gaps, candidates, |gaps|))
    ensures totalused == Used(gaps, candidates, |gaps|)
    ensures forall m :: 0 <= m < |Plan(gaps, candidates, |gaps|)| ==> Stored(Plan(gaps, candidates, |gaps|)[m])
  {
    totalused := 0;
    var canrelocate := candidates;
    ghost var plan := Plan(gaps, candidates, |gaps|);
    PlanPartition(gaps, candidates, |gaps|);
    for i := 0 to |gaps|
      invariant canrelocate == RestBefore(gaps, candidates, i) && SizesAscend(canrelocate)
      invariant totalused == Used(gaps, candidates, i)
      invariant |Plan(gaps, candidates, i)| <= |plan|
      invariant forall m :: 0 <= m < |Plan(gaps, candidates, i)| ==> Stored(plan[m])
    {
      var used;
      canrelocate, used := FillNext(gaps, candidates, i, canrelocate, plan);
      totalused := totalused + gaps[i].fixed.size + used;
    }
  }

  /** Gap `i` contributes a segment of the whole plan. */
  lemma {:induction false} PlanPrefix(g: seq<Gap>, c: seq<Section>, i: nat, n: nat)
    requires i <= n <= |g|
    ensures |Plan(g, c, i)| <= |Plan(g, c, n)| && Plan(g, c, n)[..|Plan(g, c, i)|] == Plan(g, c, i)
    decreases n
  {
    if i < n {
      PlanPrefix(g, c, i, n - 1);
    }
  }

  /** The entries of gap `i` in the whole plan. */
  lemma PlanSegment(g: seq<Gap>, c: seq<Section>, i: nat)
    requires i < |g|
    ensures var p, d, f := Plan(g, c, |g|), |Plan(g, c, i)|, FillAt(g, c, i);
      && |Plan(g, c, i + 1)| == d + |f.placed| <= |p|
      && (forall m :: d <= m < d + |f.placed| ==> p[m] == f.placed[m - d])
  {
    PlanPrefix(g, c, i + 1, |g|);
    var p, d, f := Plan(g, c, |g|), |Plan(g, c, i)|, FillAt(g, c, i);
    forall m | d <= m < d + |f.placed|
      ensures p[m] == f.placed[m - d]
    {
      assert p[..d + |f.placed|][m] == Plan(g, c, i + 1)[m];
    }
  }

  lemma SegmentTargets(p: seq<Placement>, d: nat, f: seq<Placement>)
    requires d + |f| <= |p| && DistinctPlacements(p)
    requires forall m :: d <= m < d + |f| ==> p[m] == f[m - d]
    ensures Targets(f) <= Targets(p)
    ensures forall m :: 0 <= m < d ==> p[m].section !in Targets(f)
  {
    forall s | s in Targets(f)
      ensures s in Targets(p)
    {
      var m :| 0 <= m < |f| && f[m].section == s;
      assert p[d + m].section == s;
    }
    forall m, j | 0 <= m < d && 0 <= j < |f|
      ensures p[m].section != f[j].section
    {
      assert p[d + j] == f[j];
    }
  }

  lemma PlanExtends(g: seq<Gap>, c: seq<Section>, i: nat)
    requires i < |g| && Distinct(c)
    ensures var p, d, f := Plan(g, c, |g|), |Plan(g, c, i)|, FillAt(g, c, i);
      && |Plan(g, c, i + 1)| == d + |f.placed| <= |p|
      && DistinctPlacements(f.placed) && Targets(f.placed) <= Targets(p)
      && (forall m :: 0 <= m < d ==> p[m].section !in Targets(f.placed))
      && (forall m :: d <= m < d + |f.placed| ==> p[m] == f.placed[m - d])
  {
    PlanSegment(g, c, i);
    PlanDistinct(g, c, |g|);
    SegmentDistinct(g, c, i);
    SegmentTargets(Plan(g, c, |g|), |Plan(g, c, i)|, FillAt(g, c, i).placed);
  }

  lemma PlanDistinct(g: seq<Gap>, c: seq<Section>, n: nat)
    requires n <= |g| && Distinct(c)
    ensures DistinctPlacements(Plan(g, c, n))
  {
    PlanPartition(g, c, n);
  }

  lemma SegmentDistinct(g: seq<Gap>, c: seq<Section>, i: nat)
    requires i < |g| && Distinct(c)
    ensures DistinctPlacements(FillAt(g, c, i).placed)
  {
    PlanPartition(g, c, i);
    FilledPartition(RestBefore(g, c, i), g[i].lo, g[i].hi);
  }
}
