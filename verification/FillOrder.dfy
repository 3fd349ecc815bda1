/** In which order `fitSections` fills the gaps and takes the sections, and how much room it leaves. */
module FillOrder {
  import opened Common
  import opened Sections
  import opened GapFilling
  import opened FixedSections
  import Sorting

  // ---------- the gaps ----------

  /** Bytes between fixed section `k` and the next one, or the end of the segment. */
  function Space(f: seq<Section>, k: nat): int
    requires k < |f|
  {
    (if k + 1 < |f| then Addr(f[k + 1]) else 0x10000) - (Addr(f[k]) + f[k].size)
  }

  /** Section `s` at `pos` lies between fixed section `k` and the next one. */
  predicate LiesIn(f: seq<Section>, k: nat, p: Placement)
    requires k < |f|
  {
    Addr(f[k]) + f[k].size <= p.pos && p.pos + p.section.size <= if k + 1 < |f| then Addr(f[k + 1]) else 0x10000
  }

  lemma {:induction false} TableKeys(f: seq<Section>, n: nat, i: nat)
    requires i < n <= |f|
    ensures GapTable(f, n)[i] == (Sorting.Key(Space(f, i), 0, "", 0), GapAfter(f, i))
  {
    if i < n - 1 {
      TableKeys(f, n - 1, i);
    }
  }

  /** Smaller gaps come first, equal ones in address order. */
  lemma GapsInOrder(f: seq<Section>, i: nat, j: nat) returns (k: nat, l: nat)
    requires i < j < |f|
    ensures k < |f| && l < |f| && GapsBySpace(f)[i] == GapAfter(f, k) && GapsBySpace(f)[j] == GapAfter(f, l)
    ensures Space(f, k) < Space(f, l) || (Space(f, k) == Space(f, l) && k < l)
  {
    var t := GapTable(f, |f|);
    Sorting.SortSorts(t);
    k, l := Sorting.SortStable(t, i, j);
    TableKeys(f, |f|, k);
    TableKeys(f, |f|, l);
  }

  /** A section of some size lies in one gap only. */
  lemma OneGap(f: seq<Section>, k: nat, l: nat, p: Placement)
    requires FixedFit(f) && k < |f| && l < |f| && LiesIn(f, k, p) && LiesIn(f, l, p) && p.section.size > 0
    ensures k == l
  {
    if k < l {
      FixedMonotone(f, k, l);
    } else if l < k {
      FixedMonotone(f, l, k);
    }
  }

  /** Entries of the plan come gap by gap: the smallest gap first, equal ones in address order. */
  lemma SmallestGapFirst(sections: seq<Section>, fill: seq<Section>, m: nat, n: nat, k: nat, l: nat)
    requires FixedFit(FixedByAddr(sections)) && m < n < |FillPlan(sections, fill)|
    requires var f, p := FixedByAddr(sections), FillPlan(sections, fill);
      && k < |f| && l < |f| && LiesIn(f, k, p[m]) && LiesIn(f, l, p[n])
      && p[m].section.size > 0 && p[n].section.size > 0
    ensures var f := FixedByAddr(sections);
      Space(f, k) < Space(f, l) || (Space(f, k) == Space(f, l) && k <= l)
  {
    var f, p := FixedByAddr(sections), FillPlan(sections, fill);
    var c := Candidates(fill);
    var i, a, k' := PlacementGap(sections, fill, m);
    var j, b, l' := PlacementGap(sections, fill, n);
    OneGap(f, k, k', p[m]);
    OneGap(f, l, l', p[n]);
    SegmentsInOrder(GapsBySpace(f), c, i, a, j, b);
    if i < j {
      var u, v := GapsInOrder(f, i, j);
      OneGap(f, k, u, p[m]);
      OneGap(f, l, v, p[n]);
    } else {
      OneGap(f, k, l', p[m]);
    }
  }

  /** Later entries come from later gaps, or the same. */
  lemma SegmentsInOrder(g: seq<Gap>, c: seq<Section>, i: nat, a: nat, j: nat, b: nat)
    requires i < |g| && j < |g| && a < |FillAt(g, c, i).placed| && b < |FillAt(g, c, j).placed|
    requires |Plan(g, c, i)| + a < |Plan(g, c, j)| + b
    ensures i <= j
  {
    if j < i {
      PlanPrefix(g, c, j + 1, i);
    }
  }

  // ---------- the sections ----------

  lemma {:induction false} PowersAscend(a: nat, b: nat)
    requires a < b
    ensures Pow2(a) < Pow2(b)
    decreases b
  {
    if a < b - 1 {
      PowersAscend(a, b - 1);
    }
  }

  /** Smaller, or equally large and less aligned, or also equally aligned and with no later name. */
  ghost predicate NotLarger(x: Section, y: Section) {
    || x.size < y.size
    || (x.size == y.size && x.alignlog < y.alignlog)
    || (x.size == y.size && x.alignlog == y.alignlog && Sorting.NameAtMost(x.name, y.name))
  }

  lemma KeyOrder(x: Section, y: Section)
    ensures Sorting.Leq(SizeKey(x), SizeKey(y)) <==> NotLarger(x, y)
  {
    if x.alignlog < y.alignlog {
      PowersAscend(x.alignlog, y.alignlog);
    } else if y.alignlog < x.alignlog {
      PowersAscend(y.alignlog, x.alignlog);
    }
    Sorting.StringOrder(x.name, y.name);
  }

  /**
   * Each entry of the plan is, among the sections not placed before it that have room at that
   * place, the last by size, alignment and name.
   */
  lemma LargestFirst(sections: seq<Section>, fill: seq<Section>, m: nat) returns (k: nat)
    requires Distinct(fill) && m < |FillPlan(sections, fill)|
    ensures var f, p := FixedByAddr(sections), FillPlan(sections, fill);
      && k < |f| && LiesIn(f, k, p[m])
      && forall x, v :: x in fill && NotBefore(p, m, x) && HasPlace(f, k, p[m].pos, x, v) ==> NotLarger(x, p[m].section)
  {
    k := EachPickIsLargest(sections, fill, m);
    var f, p := FixedByAddr(sections), FillPlan(sections, fill);
    forall x, v | x in fill && NotBefore(p, m, x) && HasPlace(f, k, p[m].pos, x, v)
      ensures NotLarger(x, p[m].section)
    {
      AlignedIffMultiple(v, x.alignlog);
      AlignPosLeast(p[m].pos, x.alignlog, v);
      KeyOrder(x, p[m].section);
    }
  }

  /** At the aligned address `v`, at or behind `pos`, section `x` ends before the next fixed one. */
  predicate HasPlace(f: seq<Section>, k: nat, pos: int, x: Section, v: int)
    requires k < |f|
  {
    pos <= v && v % Pow2(x.alignlog) == 0 && v + x.size <= if k + 1 < |f| then Addr(f[k + 1]) else 0x10000
  }

  // ---------- what is left ----------

  /** Where the rest of a gap starts. */
  lemma {:induction false} RestStarts(c: seq<Section>, pos: int, next: int)
    ensures var f := FillGap(c, pos, next);
      f.pos == if f.placed == [] then pos else After(f.placed[|f.placed| - 1].section, f.placed[|f.placed| - 1].pos)
    decreases |c|
  {
    var k := LastFit(c, |c|, pos, next);
    FillGapStep(c, pos, next, k);
    if k >= 0 {
      RestStarts(Without(c, k), After(c[k], pos), next);
    }
  }

  /**
   * A section that is not placed has no place in any gap, from the end of the gap's last section
   * on; `e` is that end, or the start of the gap.
   */
  lemma NoPlaceLeft(sections: seq<Section>, fill: seq<Section>, s: Section, k: nat) returns (e: int)
    requires Distinct(fill) && s in fill && s !in Targets(FillPlan(sections, fill)) && k < |FixedByAddr(sections)|
    ensures var f, p := FixedByAddr(sections), FillPlan(sections, fill);
      && (e == Addr(f[k]) + f[k].size
          || exists m :: 0 <= m < |p| && LiesIn(f, k, p[m]) && e == After(p[m].section, p[m].pos))
      && forall v :: !HasPlace(f, k, e, s, v)
  {
    var f, p := FixedByAddr(sections), FillPlan(sections, fill);
    var g, c := GapsBySpace(f), Candidates(fill);
    var i := Sorting.SortedTo(GapTable(f, |f|), k);
    assert g[i] == GapAfter(f, k);
    UnplacedFitsNowhere(sections, fill, s, i);
    e := FillAt(g, c, i).pos;
    RestOf(g, c, i, f, k);
    forall v
      ensures !HasPlace(f, k, e, s, v)
    {
      NoPlaceAt(f, k, e, s, v);
    }
  }

  lemma NoPlaceAt(f: seq<Section>, k: nat, e: int, s: Section, v: int)
    requires k < |f| && After(s, e) > GapAfter(f, k).hi
    ensures !HasPlace(f, k, e, s, v)
  {
    AlignedIffMultiple(v, s.alignlog);
    AlignPosLeast(e, s.alignlog, v);
  }

  lemma RestOf(g: seq<Gap>, c: seq<Section>, i: nat, f: seq<Section>, k: nat)
    requires i < |g| && k < |f| && g[i] == GapAfter(f, k)
    ensures var e, p := FillAt(g, c, i).pos, Plan(g, c, |g|);
      e == Addr(f[k]) + f[k].size
      || exists m :: 0 <= m < |p| && LiesIn(f, k, p[m]) && e == After(p[m].section, p[m].pos)
  {
    var d, p := FillAt(g, c, i), Plan(g, c, |g|);
    RestStarts(RestBefore(g, c, i), g[i].lo, g[i].hi);
    if d.placed != [] {
      var j := |d.placed| - 1;
      PlanSegment(g, c, i);
      FilledInside(RestBefore(g, c, i), g[i].lo, g[i].hi, j, j);
      assert p[|Plan(g, c, i)| + j] == d.placed[j];
    }
  }

  // ---------- the reported slack ----------

  function Sum(s: seq<Section>): nat {
    if s == [] then 0 else Sum(s[..|s| - 1]) + s[|s| - 1].size
  }

  function SumPlaced(p: seq<Placement>): nat {
    if p == [] then 0 else SumPlaced(p[..|p| - 1]) + p[|p| - 1].section.size
  }

  lemma {:induction false} SumJoined(p: seq<Placement>, q: seq<Placement>, n: nat)
    requires n <= |q|
    ensures SumPlaced(p + q[..n]) == SumPlaced(p) + PlacedBytes(q, n)
  {
    if n > 0 {
      SumJoined(p, q, n - 1);
      assert (p + q[..n])[..|p| + n - 1] == p + q[..n - 1];
    } else {
      assert p + q[..0] == p;
    }
  }

  /** Sizes of the fixed sections in a table of gaps. */
  function SumFixed(t: seq<Sorting.Keyed<Gap>>): nat {
    if t == [] then 0 else SumFixed(t[..|t| - 1]) + t[|t| - 1].1.fixed.size
  }

  lemma {:induction false} SumOfInsert(t: seq<Sorting.Keyed<Gap>>, x: Sorting.Keyed<Gap>)
    ensures SumFixed(Sorting.Insert(t, x)) == SumFixed(t) + x.1.fixed.size
  {
    var r := Sorting.Insert(t, x);
    if t != [] && !Sorting.Leq(t[|t| - 1].0, x.0) {
      SumOfInsert(t[..|t| - 1], x);
      assert r[..|r| - 1] == Sorting.Insert(t[..|t| - 1], x);
    } else {
      assert r[..|r| - 1] == t;
    }
  }

  lemma {:induction false} SumOfSort(t: seq<Sorting.Keyed<Gap>>)
    ensures SumFixed(Sorting.Sort(t)) == SumFixed(t)
  {
    if t != [] {
      SumOfSort(t[..|t| - 1]);
      SumOfInsert(Sorting.Sort(t[..|t| - 1]), t[|t| - 1]);
    }
  }

  lemma SumOfLast(t: seq<Sorting.Keyed<Gap>>, x: Sorting.Keyed<Gap>)
    ensures SumFixed(t + [x]) == SumFixed(t) + x.1.fixed.size
  {
    assert (t + [x])[..|t|] == t;
  }

  lemma SumOfNext(f: seq<Section>, n: nat)
    requires 0 < n <= |f|
    ensures Sum(f[..n]) == Sum(f[..n - 1]) + f[n - 1].size
  {
    assert f[..n][..n - 1] == f[..n - 1];
  }

  lemma {:induction false} SumOfTable(f: seq<Section>, n: nat)
    requires n <= |f|
    ensures SumFixed(GapTable(f, n)) == Sum(f[..n])
  {
    if n > 0 {
      SumOfTable(f, n - 1);
      var g := GapAfter(f, n - 1);
      SumOfLast(GapTable(f, n - 1), (Sorting.Key(g.hi - g.lo, 0, "", 0), g));
      SumOfNext(f, n);
    }
  }

  lemma {:induction false} UsedIsSum(t: seq<Sorting.Keyed<Gap>>, g: seq<Gap>, c: seq<Section>, n: nat)
    requires g == Second(t) && n <= |g|
    ensures Used(g, c, n) == SumFixed(t[..n]) + SumPlaced(Plan(g, c, n))
  {
    if n > 0 {
      UsedIsSum(t, g, c, n - 1);
      assert t[..n][..n - 1] == t[..n - 1];
      var q := FillAt(g, c, n - 1).placed;
      SumJoined(Plan(g, c, n - 1), q, |q|);
      assert q[..|q|] == q;
    }
  }

  /** The bytes that count as used are those of the fixed sections and of the sections placed. */
  lemma SlackIs(sections: seq<Section>, fill: seq<Section>)
    ensures var f := FixedByAddr(sections);
      Used(GapsBySpace(f), Candidates(fill), |f|) == Sum(f) + SumPlaced(FillPlan(sections, fill))
  {
    var f := FixedByAddr(sections);
    var t := GapTable(f, |f|);
    UsedIsSum(Sorting.Sort(t), GapsBySpace(f), Candidates(fill), |f|);
    SumOfSort(t);
    SumOfTable(f, |f|);
    assert Sorting.Sort(t)[..|f|] == Sorting.Sort(t) && f[..|f|] == f;
  }
}
