/**
 * `fitSections` tests with the aligned address whether a section fits, and stores it at the
 * unaligned one: when its sections are aligned all the same.
 */
module FillAlignment {
  import opened Common
  import opened Sections
  import opened GapFilling
  import opened FixedSections
  import Sorting

  predicate InPlace(p: Placement) {
    IsAligned(p.pos, p.section.alignlog)
  }

  ghost predicate AllInPlace(p: seq<Placement>) {
    forall i :: 0 <= i < |p| ==> InPlace(p[i])
  }

  /** Every byte between the start of the gap and its free rest belongs to a section. */
  predicate NoPadding(f: Filled, lo: int) {
    f.pos == lo + PlacedBytes(f.placed, |f.placed|)
  }

  lemma PaddingOf(s: Section, pos: int)
    ensures After(s, pos) == pos + s.size <==> IsAligned(pos, s.alignlog)
  {
    AlignPosLeast(pos, s.alignlog, pos);
  }

  lemma {:induction false} BytesBehind(x: Placement, p: seq<Placement>, n: nat)
    requires n <= |p|
    ensures PlacedBytes([x] + p, n + 1) == x.section.size + PlacedBytes(p, n)
  {
    if n > 0 {
      BytesBehind(x, p, n - 1);
    }
  }

  lemma FirstInPlace(x: Placement, p: seq<Placement>)
    ensures AllInPlace([x] + p) <==> InPlace(x) && AllInPlace(p)
  {
    var q := [x] + p;
    if AllInPlace(q) {
      assert InPlace(q[0]);
      forall i | 0 <= i < |p|
        ensures InPlace(p[i])
      {
        assert InPlace(q[i + 1]);
      }
    }
  }

  /** One gap: its sections are aligned exactly when no padding was counted. */
  lemma {:induction false} GapAligned(c: seq<Section>, pos: int, next: int)
    ensures var f := FillGap(c, pos, next);
      && pos + PlacedBytes(f.placed, |f.placed|) <= f.pos
      && (AllInPlace(f.placed) <==> NoPadding(f, pos))
    decreases |c|
  {
    var k := LastFit(c, |c|, pos, next);
    FillGapStep(c, pos, next, k);
    if k >= 0 {
      var f, x := FillGap(c, pos, next), Placement(c[k], pos);
      var rest := f.placed[1..];
      GapAligned(Without(c, k), After(c[k], pos), next);
      PaddingOf(c[k], pos);
      BytesBehind(x, rest, |rest|);
      FirstInPlace(x, rest);
      assert f.placed == [x] + rest;
    }
  }

  /**
   * All sections that are filled in receive addresses of their alignment exactly when no gap
   * counts padding between its sections.
   */
  lemma AlignedIffNoPadding(sections: seq<Section>, fill: seq<Section>)
    ensures var g, c := GapsBySpace(FixedByAddr(sections)), Candidates(fill);
      AllInPlace(FillPlan(sections, fill)) <==>
      forall i :: 0 <= i < |g| ==> NoPadding(FillAt(g, c, i), g[i].lo)
  {
    var g, c, p := GapsBySpace(FixedByAddr(sections)), Candidates(fill), FillPlan(sections, fill);
    forall i | 0 <= i < |g|
      ensures AllInPlace(FillAt(g, c, i).placed) <==> NoPadding(FillAt(g, c, i), g[i].lo)
      ensures AllInPlace(p) ==> AllInPlace(FillAt(g, c, i).placed)
    {
      GapAligned(RestBefore(g, c, i), g[i].lo, g[i].hi);
      SegmentInPlace(g, c, i);
    }
    if forall i :: 0 <= i < |g| ==> NoPadding(FillAt(g, c, i), g[i].lo) {
      forall m | 0 <= m < |p|
        ensures InPlace(p[m])
      {
        var i, j := PlanEntry(g, c, |g|, m);
        assert AllInPlace(FillAt(g, c, i).placed);
      }
    }
  }

  lemma SegmentInPlace(g: seq<Gap>, c: seq<Section>, i: nat)
    requires i < |g|
    ensures AllInPlace(Plan(g, c, |g|)) ==> AllInPlace(FillAt(g, c, i).placed)
  {
    PlanSegment(g, c, i);
    var p, d, q := Plan(g, c, |g|), |Plan(g, c, i)|, FillAt(g, c, i).placed;
    if AllInPlace(p) {
      forall j | 0 <= j < |q|
        ensures InPlace(q[j])
      {
        assert p[d + j] == q[j];
      }
    }
  }

  /** Sizes and starts on a grid no finer than any alignment keep every section aligned. */
  lemma {:induction false} GridKept(c: seq<Section>, pos: int, next: int, k: nat)
    requires IsAligned(pos, k) && forall s :: s in c ==> s.alignlog <= k && IsAligned(s.size, k)
    ensures AllInPlace(FillGap(c, pos, next).placed)
    decreases |c|
  {
    var n := LastFit(c, |c|, pos, next);
    FillGapStep(c, pos, next, n);
    if n >= 0 {
      var f, s := FillGap(c, pos, next), c[n];
      AlignedToSmaller(pos, s.alignlog, k);
      PaddingOf(s, pos);
      AlignDownShift(pos, s.size, k);
      GridKept(Without(c, n), After(s, pos), next, k);
      FirstInPlace(Placement(s, pos), f.placed[1..]);
      assert f.placed == [Placement(s, pos)] + f.placed[1..];
    }
  }

  /** In particular they are when sizes and ends are multiples of the largest alignment, `2 ** k`. */
  lemma AlignedOnGrid(sections: seq<Section>, fill: seq<Section>, k: nat)
    requires Distinct(fill) && forall s :: s in fill ==> s.alignlog <= k && IsAligned(s.size, k)
    requires forall x :: x in FixedByAddr(sections) ==> IsAligned(Addr(x) + x.size, k)
    ensures AllInPlace(FillPlan(sections, fill))
  {
    var f, g, c := FixedByAddr(sections), GapsBySpace(FixedByAddr(sections)), Candidates(fill);
    CandidatesSorted(fill);
    CandidatesDistinct(fill);
    forall i | 0 <= i < |g|
      ensures NoPadding(FillAt(g, c, i), g[i].lo)
    {
      var j := GapOf(f, i);
      assert g[i].lo == Addr(f[j]) + f[j].size;
      forall s | s in RestBefore(g, c, i)
        ensures s in fill
      {
        RestShrinks(g, c, 0, i, s);
      }
      GridKept(RestBefore(g, c, i), g[i].lo, g[i].hi, k);
      GapAligned(RestBefore(g, c, i), g[i].lo, g[i].hi);
    }
    AlignedIffNoPadding(sections, fill);
  }

  /** A gap has room for a section of `2 ** k` bytes with that alignment. */
  predicate HasRoom(g: Gap, k: nat) {
    AlignPos(g.lo, k) + Pow2(k) <= g.hi
  }

  predicate Blocks(c: seq<Section>, k: nat) {
    forall i :: 0 <= i < |c| ==> c[i].size == Pow2(k) && c[i].alignlog == k
  }

  lemma {:induction false} NoneLost(c: seq<Section>, pos: int, next: int)
    ensures |FillGap(c, pos, next).placed| + |FillGap(c, pos, next).rest| == |c|
    decreases |c|
  {
    var k := LastFit(c, |c|, pos, next);
    FillGapStep(c, pos, next, k);
    if k >= 0 {
      NoneLost(Without(c, k), After(c[k], pos), next);
    }
  }

  lemma {:induction false} AllCounted(g: seq<Gap>, c: seq<Section>, n: nat)
    requires n <= |g|
    ensures |Plan(g, c, n)| + |RestBefore(g, c, n)| == |c|
  {
    if n > 0 {
      AllCounted(g, c, n - 1);
      NoneLost(RestBefore(g, c, n - 1), g[n - 1].lo, g[n - 1].hi);
    }
  }

  /** A byte at least for every section placed. */
  lemma {:induction false} BytesAtLeast(p: seq<Placement>, n: nat)
    requires n <= |p| && forall i :: 0 <= i < |p| ==> p[i].section.size > 0
    ensures n <= PlacedBytes(p, n)
  {
    if n > 0 {
      BytesAtLeast(p, n - 1);
    }
  }

  lemma {:induction false} UsedAtLeast(g: seq<Gap>, c: seq<Section>, n: nat)
    requires n <= |g| && forall i :: 0 <= i < |Plan(g, c, n)| ==> Plan(g, c, n)[i].section.size > 0
    ensures |Plan(g, c, n)| <= Used(g, c, n)
  {
    if n > 0 {
      var p, q := Plan(g, c, n - 1), FillAt(g, c, n - 1).placed;
      assert Plan(g, c, n) == p + q;
      forall i | 0 <= i < |p|
        ensures p[i].section.size > 0
      {
        assert p[i] == Plan(g, c, n)[i];
      }
      forall i | 0 <= i < |q|
        ensures q[i].section.size > 0
      {
        assert q[i] == Plan(g, c, n)[|p| + i];
      }
      UsedAtLeast(g, c, n - 1);
      BytesAtLeast(q, |q|);
    }
  }

  /** More blocks than the segment has bytes: some are left for every gap. */
  lemma BlocksLeft(sections: seq<Section>, fill: seq<Section>, k: nat, i: nat)
    requires Distinct(fill) && Blocks(fill, k) && |fill| > BIOS_SIZE
    requires FixedByAddr(sections) != [] && FixedFit(FixedByAddr(sections)) && i < |FixedByAddr(sections)|
    ensures RestBefore(GapsBySpace(FixedByAddr(sections)), Candidates(fill), i) != []
  {
    var f, g, c := FixedByAddr(sections), GapsBySpace(FixedByAddr(sections)), Candidates(fill);
    var p := FillPlan(sections, fill);
    FillPlanTargets(sections, fill);
    forall m | 0 <= m < |p|
      ensures p[m].section.size > 0
    {
      var l :| 0 <= l < |fill| && fill[l] == p[m].section;
    }
    UsedAtLeast(g, c, |g|);
    SlackNonNegative(sections, fill);
    PlanPrefix(g, c, i, |g|);
    AllCounted(g, c, i);
  }

  lemma RestBlocks(sections: seq<Section>, fill: seq<Section>, k: nat, i: nat)
    requires Distinct(fill) && Blocks(fill, k) && i <= |FixedByAddr(sections)|
    ensures Blocks(RestBefore(GapsBySpace(FixedByAddr(sections)), Candidates(fill), i), k)
  {
    var g, c := GapsBySpace(FixedByAddr(sections)), Candidates(fill);
    var r := RestBefore(g, c, i);
    CandidatesSorted(fill);
    CandidatesDistinct(fill);
    forall j | 0 <= j < |r|
      ensures r[j].size == Pow2(k) && r[j].alignlog == k
    {
      RestShrinks(g, c, 0, i, r[j]);
      var l :| 0 <= l < |fill| && fill[l] == r[j];
    }
  }

  /** What a gap receives of blocks: nothing without room, the first one at its start otherwise. */
  lemma FirstBlock(c: seq<Section>, g: Gap, k: nat)
    requires c != [] && Blocks(c, k)
    ensures var p := FillGap(c, g.lo, g.hi).placed;
            if HasRoom(g, k) then p != [] && p[0].pos == g.lo && p[0].section.alignlog == k else p == []
  {
    var n := LastFit(c, |c|, g.lo, g.hi);
    LastFitIsLast(c, |c|, g.lo, g.hi);
    FillGapStep(c, g.lo, g.hi, n);
    assert After(c[|c| - 1], g.lo) == AlignPos(g.lo, k) + Pow2(k);
    if n >= 0 {
      assert After(c[n], g.lo) == AlignPos(g.lo, k) + Pow2(k);
    }
  }

  lemma SizeOnGrid(k: nat)
    ensures IsAligned(Pow2(k), k)
  {
    AlignedIffMultiple(Pow2(k), k);
  }

  /**
   * The condition on the ends is needed: blocks of `2 ** k` bytes, as many as it takes, are all
   * stored aligned exactly when every gap with room for one starts at a multiple of `2 ** k`.
   */
  lemma BlocksAligned(sections: seq<Section>, fill: seq<Section>, k: nat)
    requires Distinct(fill) && Blocks(fill, k) && |fill| > BIOS_SIZE
    requires FixedByAddr(sections) != [] && FixedFit(FixedByAddr(sections))
    ensures var g := GapsBySpace(FixedByAddr(sections));
      AllInPlace(FillPlan(sections, fill)) <==>
      forall i :: 0 <= i < |g| ==> HasRoom(g[i], k) ==> IsAligned(g[i].lo, k)
  {
    var g, c := GapsBySpace(FixedByAddr(sections)), Candidates(fill);
    forall i | 0 <= i < |g|
      ensures NoPadding(FillAt(g, c, i), g[i].lo) <==> (HasRoom(g[i], k) ==> IsAligned(g[i].lo, k))
    {
      BlocksLeft(sections, fill, k, i);
      RestBlocks(sections, fill, k, i);
      GapOfBlocks(RestBefore(g, c, i), g[i], k);
    }
    AlignedIffNoPadding(sections, fill);
  }

  lemma GapOfBlocks(c: seq<Section>, g: Gap, k: nat)
    requires c != [] && Blocks(c, k)
    ensures NoPadding(FillGap(c, g.lo, g.hi), g.lo) <==> (HasRoom(g, k) ==> IsAligned(g.lo, k))
  {
    var f := FillGap(c, g.lo, g.hi);
    FirstBlock(c, g, k);
    GapAligned(c, g.lo, g.hi);
    if HasRoom(g, k) {
      assert AllInPlace(f.placed) ==> InPlace(f.placed[0]);
      if IsAligned(g.lo, k) {
        SizeOnGrid(k);
        GridKept(c, g.lo, g.hi, k);
      }
    }
  }

  /**
   * They need not be: behind a fixed section that ends at 0xe05e, a section aligned to 16 bytes
   * is stored at 0xe05e.
   */
  lemma StoredOffAlignment(x: Section, s: Section)
    requires x.fixedaddr == Some(0xe05b) && x.size == 3 && s.size == 16 && s.alignlog == 4
    ensures FixedFit(FixedByAddr([x])) && FillPlan([x], [s]) == [Placement(s, 0xe05e)]
    ensures !InPlace(Placement(s, 0xe05e))
  {
    OneFixed(x);
    OneCandidate(s);
    var g := Gap(0xe05e, BIOS_SIZE, x);
    assert After(s, 0xe05e) == 0xe070;
    assert LastFit([s], 1, 0xe05e, BIOS_SIZE) == 0;
    FillGapStep([s], 0xe05e, BIOS_SIZE, 0);
    assert Without([s], 0) == [];
    FillGapStep([], 0xe070, BIOS_SIZE, -1);
    assert FillAt([g], [s], 0).placed == [Placement(s, 0xe05e)];
    assert Plan([g], [s], 1) == Plan([g], [s], 0) + FillAt([g], [s], 0).placed;
  }

  lemma OneFixed(x: Section)
    requires x.fixedaddr.Some?
    ensures FixedByAddr([x]) == [x] && GapsBySpace([x]) == [GapAfter([x], 0)]
  {
    var t := FixedTable([x], 1);
    assert t == FixedTable([x], 0) + [(Sorting.Key(Addr(x), 0, "", 0), x)];
    assert Sorting.Sort(t[..0]) == [];
    assert Sorting.Sort(t) == t;
    var g := GapAfter([x], 0);
    var u := GapTable([x], 1);
    assert u == GapTable([x], 0) + [(Sorting.Key(g.hi - g.lo, 0, "", 0), g)];
    assert Sorting.Sort(u[..0]) == [];
    assert Sorting.Sort(u) == u;
  }

  lemma OneCandidate(s: Section)
    ensures Candidates([s]) == [s]
  {
    var t := SizeTable([s]);
    assert Sorting.Sort(t[..0]) == [];
    assert Sorting.Sort(t) == t;
  }
}
