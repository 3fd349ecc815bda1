/** Linker sections and the stacking allocator `setSectionsStart`. */
module Sections {
  import opened Common

  /** `section.category`, as `main` assigns it. */
  datatype Category = Fixed | Code16 | Seg32 | TextFseg32 | Fseg32 | Flat32 | Init32 | Low32

  /** The object file a section comes from. */
  datatype FileId = File16 | File32Seg | File32Flat

  datatype Symbol = Symbol(name: string, section: Option<Section>)

  /** A relocation; `checkKeepSym` redirects its symbol. */
  class Reloc {
    const symbolname: string
    var symbol: Symbol

    constructor (symbolname: string, symbol: Symbol)
      ensures this.symbolname == symbolname && this.symbol == symbol
    {
      this.symbolname, this.symbol := symbolname, symbol;
    }
  }

  class Section {
    const name: string
    const fileid: FileId
    const relocs: seq<Reloc>
    const size: nat
    // The alignment is `2 ** alignlog`, as the object dump spells it.
    const alignlog: nat
    const category: Category
    // The address spelled in the name of a `.fixedaddr.` section.
    const fixedaddr: Option<nat>
    var finalloc: Option<int>
    var finalsegloc: Option<int>

    constructor (name: string, fileid: FileId, relocs: seq<Reloc>, size: nat, alignlog: nat,
                 category: Category, fixedaddr: Option<nat>)
      ensures this.name == name && this.fileid == fileid && this.relocs == relocs
      ensures this.size == size && this.alignlog == alignlog
      ensures this.category == category && this.fixedaddr == fixedaddr
      ensures finalloc == None && finalsegloc == None
    {
      this.name, this.fileid, this.relocs := name, fileid, relocs;
      this.size, this.alignlog := size, alignlog;
      this.category, this.fixedaddr := category, fixedaddr;
      finalloc, finalsegloc := None, None;
    }
  }

  ghost predicate PlacedAt(s: Section, loc: int, segoffset: int)
    reads s
  {
    s.finalloc == Some(loc) && s.finalsegloc == Some(loc - segoffset)
  }

  ghost predicate Distinct(s: seq<Section>) {
    forall i, j :: 0 <= i < j < |s| ==> s[i] != s[j]
  }

  // ---------- alignment (an alignment `2 ** k` is passed as `k`) ----------

  /** `x & ~(2 ** k - 1)` on Python integers: the `k` low bits cleared. */
  function AlignDown(x: int, k: nat): int
    decreases k
  {
    if k == 0 then x else 2 * AlignDown(x / 2, k - 1)
  }

  lemma {:induction false} AlignDownBounds(x: int, k: nat)
    ensures x - Pow2(k) < AlignDown(x, k) <= x
    ensures x < Pow2(k) ==> AlignDown(x, k) <= 0
    ensures 0 <= x ==> 0 <= AlignDown(x, k)
    decreases k
  {
    if k != 0 {
      AlignDownBounds(x / 2, k - 1);
    }
  }

  function AlignPos(pos: int, k: nat): (r: int)
    ensures pos <= r
  {
    AlignDownBounds(pos + Pow2(k) - 1, k);
    AlignDown(pos + Pow2(k) - 1, k)
  }

  predicate IsAligned(x: int, k: nat) {
    AlignDown(x, k) == x
  }

  lemma {:induction false} AlignDownProduct(x: int, k: nat) returns (q: int)
    ensures AlignDown(x, k) == q * Pow2(k)
    decreases k
  {
    if k == 0 {
      q := x;
    } else {
      q := AlignDownProduct(x / 2, k - 1);
      assert q * Pow2(k) == 2 * (q * Pow2(k - 1));
    }
  }

  /** Clearing the low bits leaves exactly the multiples of `2 ** k` alone. */
  lemma AlignedIffMultiple(x: int, k: nat)
    ensures IsAligned(x, k) <==> x % Pow2(k) == 0
  {
    var q := AlignDownProduct(x, k);
    var p, c := Pow2(k), AlignDown(x, k);
    AlignDownBounds(x, k);
    DivModUnique(x, p, q, x - c);
  }

  lemma {:induction false} AlignDownShift(y: int, x: int, k: nat)
    requires IsAligned(y, k)
    ensures AlignDown(y + x, k) == y + AlignDown(x, k)
    decreases k
  {
    if k != 0 {
      AlignDownShift(y / 2, x / 2, k - 1);
    }
  }

  /** What is aligned to a larger power of two is aligned to a smaller one. */
  lemma {:induction false} AlignedToSmaller(y: int, k: nat, m: nat)
    requires k <= m && IsAligned(y, m)
    ensures IsAligned(y, k)
    decreases k
  {
    if k != 0 {
      AlignedToSmaller(y / 2, k - 1, m - 1);
    }
  }

  lemma {:induction false} AlignDownAligned(x: int, k: nat)
    ensures IsAligned(AlignDown(x, k), k)
    decreases k
  {
    if k != 0 {
      AlignDownAligned(x / 2, k - 1);
    }
  }

  /** Aligning up gives the least multiple of `2 ** k` not below `pos`. */
  lemma AlignPosLeast(pos: int, k: nat, m: int)
    ensures IsAligned(AlignPos(pos, k), k)
    ensures pos <= m && IsAligned(m, k) ==> AlignPos(pos, k) <= m
  {
    AlignDownAligned(pos + Pow2(k) - 1, k);
    AlignDownBounds(pos - m + Pow2(k) - 1, k);
    if pos <= m && IsAligned(m, k) {
      AlignDownShift(m, pos - m + Pow2(k) - 1, k);
    }
  }

  // ---------- stacking sections ----------

  /** The address after the first `k` sections when they are laid out upward from `start`. */
  function End(s: seq<Section>, start: int, k: nat): int
    requires k <= |s|
  {
    if k == 0 then start else AlignPos(End(s, start, k - 1), s[k - 1].alignlog) + s[k - 1].size
  }

  /** The address of section `k` in that layout. */
  function Loc(s: seq<Section>, start: int, k: nat): int
    requires k < |s|
  {
    AlignPos(End(s, start, k), s[k].alignlog)
  }

  /** The addresses of the first `n` sections. */
  function Locs(s: seq<Section>, start: int, n: nat): (r: seq<int>)
    requires n <= |s|
    ensures |r| == n
  {
    if n == 0 then [] else Locs(s, start, n - 1) + [Loc(s, start, n - 1)]
  }

  lemma {:induction false} LocsAt(s: seq<Section>, start: int, n: nat, k: nat)
    requires k < n <= |s|
    ensures Locs(s, start, n)[k] == Loc(s, start, k)
  {
    if k < n - 1 {
      LocsAt(s, start, n - 1, k);
    }
  }

  /** The space a group takes from an aligned origin. */
  function Space(s: seq<Section>): int {
    End(s, 0, |s|)
  }

  function MaxOver(s: seq<Section>, k: nat, least: nat): nat
    requires k <= |s|
  {
    if k == 0 then least
    else
      var m := MaxOver(s, k - 1, least);
      if s[k - 1].alignlog > m then s[k - 1].alignlog else m
  }

  /** The largest alignment in the list, and at least `least`. */
  function MaxAlign(s: seq<Section>, least: nat): nat {
    MaxOver(s, |s|, least)
  }

  /** `int(x / y)`: true division followed by truncation toward zero. */
  function TruncDiv(x: int, y: int): int
    requires 0 < y
  {
    if x >= 0 then x / y else -((-x) / y)
  }

  /** `int(x / y) * y` for `y == 2 ** k`: the low bits of the magnitude cleared. */
  function TruncTo(x: int, k: nat): int {
    if x >= 0 then AlignDown(x, k) else -AlignDown(-x, k)
  }

  lemma TruncToIsQuotient(x: int, k: nat)
    ensures TruncTo(x, k) == TruncDiv(x, Pow2(k)) * Pow2(k)
  {
    var y := if x >= 0 then x else -x;
    var q := AlignDownProduct(y, k);
    var c, p := AlignDown(y, k), Pow2(k);
    AlignDownBounds(y, k);
    DivModUnique(y, p, q, y - c);
    assert (-q) * p == -(q * p);
  }

  lemma NegatedAligned(x: int, k: nat)
    ensures IsAligned(-x, k) <==> IsAligned(x, k)
  {
    AlignDownBounds(0, k);
    if IsAligned(x, k) { AlignDownShift(x, -x, k); }
    if IsAligned(-x, k) { AlignDownShift(-x, x, k); }
  }

  lemma TruncAligned(x: int, k: nat)
    ensures IsAligned(TruncTo(x, k), k)
  {
    if x >= 0 {
      AlignDownAligned(x, k);
    } else {
      AlignDownAligned(-x, k);
      NegatedAligned(AlignDown(-x, k), k);
    }
  }

  /** The start address chosen for sections that must end by `end`. */
  function StartFor(s: seq<Section>, end: int, least: nat): int {
    TruncTo(end - Space(s), MaxAlign(s, least))
  }

  lemma {:induction false} MaxOverBound(s: seq<Section>, k: nat, least: nat, i: nat)
    requires i < k <= |s|
    ensures s[i].alignlog <= MaxOver(s, k, least)
  {
    if i < k - 1 {
      MaxOverBound(s, k - 1, least, i);
    }
  }

  /** It is the least bound: `least`, or the alignment of one of the sections. */
  lemma {:induction false} MaxOverReached(s: seq<Section>, k: nat, least: nat) returns (i: nat)
    requires k <= |s|
    ensures least <= MaxOver(s, k, least)
    ensures MaxOver(s, k, least) == least || (i < k && MaxOver(s, k, least) == s[i].alignlog)
  {
    i := 0;
    if k > 0 {
      i := MaxOverReached(s, k - 1, least);
      if s[k - 1].alignlog > MaxOver(s, k - 1, least) {
        i := k - 1;
      }
    }
  }

  /** The alignment of a group is the largest of its sections' and the least one asked for. */
  lemma AlignmentOfGroup(s: seq<Section>, least: nat)
    ensures least <= MaxAlign(s, least) && forall x :: x in s ==> x.alignlog <= MaxAlign(s, least)
    ensures MaxAlign(s, least) == least || exists x :: x in s && MaxAlign(s, least) == x.alignlog
  {
    var i := MaxOverReached(s, |s|, least);
    forall x | x in s
      ensures x.alignlog <= MaxAlign(s, least)
    {
      var k :| 0 <= k < |s| && s[k] == x;
      MaxOverBound(s, |s|, least, k);
    }
  }

  lemma AlignPosShift(y: int, x: int, k: nat)
    requires IsAligned(y, k)
    ensures AlignPos(y + x, k) == y + AlignPos(x, k)
  {
    AlignDownShift(y, x + Pow2(k) - 1, k);
  }

  /** The second pass repeats the offsets of the first, shifted by an aligned start. */
  lemma {:induction false} SecondPassRepeats(s: seq<Section>, start: int, least: nat, k: nat)
    requires k <= |s| && IsAligned(start, MaxAlign(s, least))
    ensures End(s, start, k) == start + End(s, 0, k)
    ensures k < |s| ==> Loc(s, start, k) == start + Loc(s, 0, k)
  {
    if k > 0 {
      SecondPassRepeats(s, start, least, k - 1);
    }
    if k < |s| {
      MaxOverBound(s, |s|, least, k);
      AlignedToSmaller(start, s[k].alignlog, MaxAlign(s, least));
      AlignPosShift(start, End(s, 0, k), s[k].alignlog);
    }
  }

  method StoreAt(s: Section, loc: int, segoffset: int)
    modifies s`finalloc, s`finalsegloc
    ensures PlacedAt(s, loc, segoffset)
  {
    s.finalloc := Some(loc);
    s.finalsegloc := Some(loc - segoffset);
  }

  method SetSectionsStart(sections: seq<Section>, endaddr: int, least: nat, segoffset: int)
    returns (startaddr: int, minalign: nat)
    requires Distinct(sections)
    modifies sections`finalloc, sections`finalsegloc
    ensures minalign == MaxAlign(sections, least)
    ensures startaddr == StartFor(sections, endaddr, least)
    ensures forall k :: 0 <= k < |sections| ==>
      PlacedAt(sections[k], Locs(sections, startaddr, |sections|)[k], segoffset)
  {
    var totspace := 0;
    minalign := least;
    for i := 0 to |sections|
      invariant totspace == End(sections, 0, i)
      invariant minalign == MaxOver(sections, i, least)
    {
      minalign := if sections[i].alignlog > minalign then sections[i].alignlog else minalign;
      totspace := AlignPos(totspace, sections[i].alignlog) + sections[i].size;
    }
    assert totspace == Space(sections) && minalign == MaxAlign(sections, least);
    startaddr := TruncTo(endaddr - totspace, minalign);
    assert startaddr == StartFor(sections, endaddr, least);
    ghost var locs: seq<int> := [];
    var curaddr := startaddr;
    for i := 0 to |sections|
      invariant curaddr == End(sections, startaddr, i)
      invariant locs == Locs(sections, startaddr, i)
      invariant forall k :: 0 <= k < i ==> PlacedAt(sections[k], locs[k], segoffset)
    {
      var section := sections[i];
      curaddr := AlignPos(curaddr, section.alignlog);
      StoreAt(section, curaddr, segoffset);
      locs := locs + [curaddr];
      curaddr := curaddr + section.size;
    }
  }

  // ---------- what the stacking guarantees ----------

  lemma {:induction false} EndMonotone(s: seq<Section>, start: int, i: nat, j: nat)
    requires i <= j <= |s|
    ensures End(s, start, i) <= End(s, start, j)
    decreases j
  {
    if i < j {
      EndMonotone(s, start, i, j - 1);
    }
  }

  /** Sections keep their order, do not overlap and lie inside the space counted for them. */
  lemma LocsStack(s: seq<Section>, start: int, i: nat, j: nat)
    requires i < |s| && j < |s|
    ensures start <= Loc(s, start, i) && Loc(s, start, i) + s[i].size <= End(s, start, |s|)
    ensures i < j ==> Loc(s, start, i) + s[i].size <= Loc(s, start, j)
  {
    EndMonotone(s, start, 0, i);
    EndMonotone(s, start, i + 1, |s|);
    if i < j {
      EndMonotone(s, start, i + 1, j);
    }
  }

  /** Where the group starts, and exactly when it ends by `end`. */
  lemma StartBounds(s: seq<Section>, end: int, least: nat)
    ensures var start, m := StartFor(s, end, least), MaxAlign(s, least);
      && IsAligned(start, m)
      && End(s, start, |s|) == start + Space(s)
      && (Space(s) <= end ==> 0 <= start && end - End(s, start, |s|) < Pow2(m))
      && (End(s, start, |s|) <= end <==> Space(s) <= end || IsAligned(end - Space(s), m))
  {
    var x, m := end - Space(s), MaxAlign(s, least);
    TruncAligned(x, m);
    NegatedAligned(x, m);
    AlignDownBounds(x, m);
    AlignDownBounds(-x, m);
    SecondPassRepeats(s, StartFor(s, end, least), least, |s|);
  }

  /** `setSectionsStart` on every list: aligned, in order, disjoint and inside `[start, end)`. */
  lemma StackedLayout(s: seq<Section>, end: int, least: nat, i: nat, j: nat)
    requires i < |s| && j < |s|
    ensures var start := StartFor(s, end, least);
      && Loc(s, start, i) % Pow2(s[i].alignlog) == 0
      && start <= Loc(s, start, i)
      && (Space(s) <= end ==> Loc(s, start, i) + s[i].size <= end)
      && (i < j ==> Loc(s, start, i) + s[i].size <= Loc(s, start, j))
  {
    var start := StartFor(s, end, least);
    LocsStack(s, start, i, j);
    StartBounds(s, end, least);
    AlignPosLeast(End(s, start, i), s[i].alignlog, 0);
    AlignedIffMultiple(Loc(s, start, i), s[i].alignlog);
  }

  /** Where the next section could start at the earliest. */
  ghost function Behind(s: seq<Section>, start: int, k: nat): int
    requires k <= |s|
  {
    if k == 0 then start else Loc(s, start, k - 1) + s[k - 1].size
  }

  /** Every section is at the first multiple of its alignment behind the one before it. */
  lemma PackedTightly(s: seq<Section>, start: int, k: nat, v: int)
    requires k < |s|
    ensures Behind(s, start, k) <= Loc(s, start, k) && Loc(s, start, k) % Pow2(s[k].alignlog) == 0
    ensures Behind(s, start, k) <= v && v % Pow2(s[k].alignlog) == 0 ==> Loc(s, start, k) <= v
  {
    AlignedIffMultiple(v, s[k].alignlog);
    AlignedIffMultiple(Loc(s, start, k), s[k].alignlog);
    AlignPosLeast(End(s, start, k), s[k].alignlog, v);
  }

  /**
   * A group that has room starts at the highest multiple of its alignment, not below zero, from
   * which it ends by `end`.
   */
  lemma HighestStart(s: seq<Section>, end: int, least: nat, v: int)
    requires Behind(s, 0, |s|) <= end
    ensures var start, m := StartFor(s, end, least), Pow2(MaxAlign(s, least));
      && 0 <= start && start % m == 0 && Behind(s, start, |s|) <= end
      && (v % m == 0 && Behind(s, v, |s|) <= end ==> v <= start)
  {
    var start, k := StartFor(s, end, least), MaxAlign(s, least);
    StartBounds(s, end, least);
    AlignedIffMultiple(start, k);
    AlignedIffMultiple(v, k);
    if IsAligned(v, k) && Behind(s, v, |s|) <= end {
      SecondPassRepeats(s, v, least, |s|);
      NextMultiple(start, v, k);
    }
  }

  lemma NextMultiple(a: int, b: int, k: nat)
    requires IsAligned(a, k) && IsAligned(b, k) && b < a + Pow2(k)
    ensures b <= a
  {
    NegatedAligned(a, k);
    AlignDownShift(b, -a, k);
    AlignDownBounds(b - a, k);
  }
}
