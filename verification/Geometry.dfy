/** The logical disk geometry the BIOS makes of a drive's physical one. */
module Geometry {
  import opened Common

  const TRANSLATION_NONE := 0
  const TRANSLATION_LBA := 1
  const TRANSLATION_LARGE := 2
  const TRANSLATION_RECHS := 3
  const TRANSLATION_HOST := 4
  const DTYPE_ATA := 0x20
  const CMOS_BIOS_DISKTRANSFLAG := 0x39

  /** Fields of 16 bits. */
  datatype Chs = Chs(head: Half, cylinder: Half, sector: Half) {
    function Capacity(): nat {
      head as nat * cylinder as nat * sector as nat
    }
  }

  predicate HostSupplied(lchs: Chs) {
    lchs.head <= 255 && lchs.sector > 0 && lchs.sector <= 63
  }

  /** What does not change while a drive is set up: physical geometry, size, NVRAM. */
  datatype Setting = Setting(pchs: Chs, sectors: nat, ata: bool, id: nat, qemu: bool, nvram: nat -> Byte)

  /** `cylinders * heads` is an `int` in the source. */
  predicate Multiplies(pchs: Chs) {
    pchs.cylinder as nat * pchs.head as nat <= 0x7FFF_FFFF
  }

  function Shifted(b: Byte, pairs: nat): Byte {
    if pairs == 0 then b else Shifted(b / 4, pairs - 1)
  }

  function Heuristic(pchs: Chs, sectors: nat): nat {
    if pchs.head == 0 || pchs.cylinder == 0 || pchs.sector == 0 || pchs.Capacity() > sectors then TRANSLATION_LBA
    else if pchs.cylinder <= 1024 && pchs.head <= 16 && pchs.sector <= 63 then TRANSLATION_NONE
    else if pchs.cylinder as nat * pchs.head as nat <= 131072 then TRANSLATION_LARGE
    else TRANSLATION_LBA
  }

  function Translation(s: Setting, lchs: Chs): nat {
    if HostSupplied(lchs) then TRANSLATION_HOST
    else if s.qemu && s.ata then Shifted(s.nvram((CMOS_BIOS_DISKTRANSFLAG + s.id / 4) % 0x100), s.id % 4) % 4
    else Heuristic(s.pchs, s.sectors)
  }

  // ---------- the translations ----------

  /** Halve cylinders and double heads until the cylinders fit or the heads are used up. */
  function Large(cylinders: Half, heads: Half): (Half, Half)
    decreases cylinders
  {
    if cylinders <= 1024 then (cylinders, heads)
    else
      var c, h := cylinders / 2, heads * 2 % 0x1_0000;
      if h > 127 then (c, h) else Large(c, h)
  }

  function LbaHeads(sect: nat): nat {
    if sect / 1024 > 128 then 255
    else if sect / 1024 > 64 then 128
    else if sect / 1024 > 32 then 64
    else if sect / 1024 > 16 then 32
    else 16
  }

  function Lba(sectors: nat): (Half, Half) {
    if sectors > 63 * 255 * 1024 then (1024, 255)
    else
      var sect := sectors / 63;
      (sect / LbaHeads(sect) % 0x1_0000, LbaHeads(sect))
  }

  function Rechs(cylinders: Half, heads: Half): (Half, Half) {
    if heads != 16 then (cylinders, heads)
    else ((if cylinders > 61439 then 61439 else cylinders) as nat * 16 / 15 % 0x1_0000, 15)
  }

  function Clip(cylinders: Half): Half {
    if cylinders > 1024 then 1024 else cylinders
  }

  /** The logical geometry under a translation. */
  function Logical(t: nat, pchs: Chs, lchs: Chs, sectors: nat): Chs {
    if t == TRANSLATION_LBA then var (c, h) := Lba(sectors); Chs(h, Clip(c), 63)
    else if t == TRANSLATION_RECHS then
      var (c, h) := Rechs(pchs.cylinder, pchs.head);
      var (c', h') := Large(c, h);
      Chs(h', Clip(c'), pchs.sector)
    else if t == TRANSLATION_LARGE then
      var (c, h) := Large(pchs.cylinder, pchs.head);
      Chs(h, Clip(c), pchs.sector)
    else if t == TRANSLATION_HOST then lchs.(cylinder := Clip(lchs.cylinder))
    else pchs.(cylinder := Clip(pchs.cylinder))
  }

  class Drive {
    const pchs: Chs
    const sectors: nat
    const ata: bool
    const id: nat
    var lchs: Chs
    var translation: nat

    constructor (pchs: Chs, sectors: nat, ata: bool, id: nat, lchs: Chs)
      ensures this.pchs == pchs && this.sectors == sectors && this.ata == ata && this.id == id && this.lchs == lchs
    {
      this.pchs, this.sectors, this.ata, this.id, this.lchs := pchs, sectors, ata, id, lchs;
    }

    function Fixed(qemu: bool, nvram: nat -> Byte): Setting {
      Setting(pchs, sectors, ata, id, qemu, nvram)
    }

    method SetupTranslation(qemu: bool, nvram: nat -> Byte)
      requires Multiplies(pchs) && sectors < 0x1_0000_0000_0000_0000
      modifies this
      ensures translation == Translation(Fixed(qemu, nvram), old(lchs))
      ensures lchs == Logical(translation, pchs, old(lchs), sectors)
    {
      translation := Translation(Fixed(qemu, nvram), lchs);
      var heads, cylinders, spt := pchs.head, pchs.cylinder, pchs.sector;
      if translation == TRANSLATION_LBA {
        spt := 63;
        cylinders, heads := SetupLba(sectors);
      } else if translation == TRANSLATION_RECHS || translation == TRANSLATION_LARGE {
        if translation == TRANSLATION_RECHS && heads == 16 {
          if cylinders > 61439 {
            cylinders := 61439;
          }
          heads := 15;
          cylinders := cylinders as nat * 16 / 15 % 0x1_0000;
        }
        cylinders, heads := SetupLarge(cylinders, heads);
      } else if translation == TRANSLATION_HOST {
        cylinders, heads, spt := lchs.cylinder, lchs.head, lchs.sector;
      }
      if cylinders > 1024 {
        cylinders := 1024;
      }
      lchs := Chs(heads, cylinders, spt);
    }
  }

  method SetupLba(sectors: nat) returns (cylinders: Half, heads: Half)
    ensures (cylinders, heads) == Lba(sectors)
  {
    if sectors > 63 * 255 * 1024 {
      heads := 255;
      cylinders := 1024;
    } else {
      var sect := sectors / 63;
      heads := sect / 1024;
      if heads > 128 {
        heads := 255;
      } else if heads > 64 {
        heads := 128;
      } else if heads > 32 {
        heads := 64;
      } else if heads > 16 {
        heads := 32;
      } else {
        heads := 16;
      }
      cylinders := sect / heads % 0x1_0000;
    }
  }

  method SetupLarge(c: Half, h: Half) returns (cylinders: Half, heads: Half)
    ensures (cylinders, heads) == Large(c, h)
  {
    cylinders, heads := c, h;
    var full := false;
    while !full && cylinders > 1024
      invariant if full then (cylinders, heads) == Large(c, h) else Large(cylinders, heads) == Large(c, h)
      decreases cylinders, !full
    {
      cylinders := cylinders / 2;
      heads := heads * 2 % 0x1_0000;
      full := heads > 127;
    }
  }

  // ---------- LARGE ----------

  /** Halving never raises the number of tracks. */
  lemma {:induction false} LargeTracks(c: Half, h: Half)
    ensures var (c', h') := Large(c, h); c' as nat * h' as nat <= c as nat * h as nat
    decreases c
  {
    if c > 1024 {
      var c1: nat, h1: nat := c / 2, h * 2 % 0x1_0000;
      HalfProduct(c, h, c1, h1);
      if h1 <= 127 {
        LargeTracks(c1, h1);
      }
    }
  }

  lemma HalfProduct(c: nat, h: nat, c1: nat, h1: nat)
    requires c1 == c / 2 && h1 <= 2 * h
    ensures c1 * h1 <= c * h
  {
    assert c1 * h1 <= c1 * (2 * h);
    assert c1 * (2 * h) == (2 * c1) * h <= c * h;
  }

  /** The loop ends with cylinders that fit, without the final clip, when there were few enough tracks. */
  lemma {:induction false} LargeFits(c: Half, h: Half)
    requires c as nat * h as nat <= 131072
    ensures Large(c, h).0 <= 1024
    decreases c
  {
    if c > 1024 {
      var c1: nat, h1: nat := c / 2, h * 2 % 0x1_0000;
      HalfProduct(c, h, c1, h1);
      if h1 <= 127 {
        LargeFits(c1, h1);
      } else if c1 > 1024 {
        Products(c1, 1025, h1, 128);
      }
    }
  }

  lemma Products(a: nat, b: nat, c: nat, d: nat)
    requires b <= a && d <= c
    ensures b * d <= a * c
  {
    assert b * d <= a * d <= a * c;
  }

  /** The loop leaves more than 255 heads only if they were there before. */
  lemma {:induction false} LargeHeads(c: Half, h: Half)
    requires c as nat * h as nat <= 131072
    ensures Large(c, h).1 <= 255 <==> h <= 255
    decreases c
  {
    if c > 1024 {
      if h >= 128 {
        Products(c, 1025, h, 128);
      }
      var c1: nat, h1: nat := c / 2, h * 2 % 0x1_0000;
      HalfProduct(c, h, c1, h1);
      if h1 <= 127 {
        LargeHeads(c1, h1);
      }
    }
  }

  // ---------- LBA ----------

  /** Below the limit of 255 heads, LBA loses less than one cylinder of 1024 tracks. */
  lemma LbaLoses(pchs: Chs, lchs: Chs, sectors: nat)
    requires sectors <= 63 * 255 * 1024
    ensures var g := Logical(TRANSLATION_LBA, pchs, lchs, sectors);
            g.Capacity() <= sectors < g.Capacity() + 63 * 1024
  {
    var sect := sectors / 63;
    var h: nat := LbaHeads(sect);
    var c := sect / h;
    assert sect == h * c + sect % h;
    assert c < 0x1_0000 by {
      assert c <= sect / 16;
    }
    var clipped: nat := Clip(c);
    if c <= 1024 {
      assert h * clipped * 63 == 63 * (h * c);
    } else {
      assert h * 1025 <= h * c;
      assert h * clipped * 63 == 63 * (h * 1024);
    }
  }

  // ---------- every drive ----------

  lemma Tracks(h: nat, c: nat, h': nat, c': nat, spt: nat)
    requires c' * h' <= c * h
    ensures h' * c' * spt <= h * c * spt
  {
    Products(h * c, h' * c', spt, spt);
  }

  lemma Clipped(c: Half, h: nat)
    ensures Clip(c) as nat * h <= c as nat * h
  {
    Products(c, Clip(c), h, h);
  }

  lemma RechsTracks(c: Half, h: Half)
    ensures var (c', h') := Rechs(c, h); c' as nat * h' as nat <= c as nat * h as nat
  {
  }

  /** No translation of the physical geometry addresses more than the physical geometry. */
  lemma NothingGained(t: nat, pchs: Chs, lchs: Chs, sectors: nat)
    requires t != TRANSLATION_LBA && t != TRANSLATION_HOST
    ensures Logical(t, pchs, lchs, sectors).Capacity() <= pchs.Capacity()
  {
    var g := Logical(t, pchs, lchs, sectors);
    var (c, h) := if t == TRANSLATION_RECHS then Rechs(pchs.cylinder, pchs.head) else (pchs.cylinder, pchs.head);
    RechsTracks(pchs.cylinder, pchs.head);
    var (c', h') := if t == TRANSLATION_RECHS || t == TRANSLATION_LARGE then Large(c, h) else (c, h);
    LargeTracks(c, h);
    Clipped(c', h');
    Tracks(pchs.head, pchs.cylinder, g.head, g.cylinder, pchs.sector);
  }

  /** Any drive: at most 1024 cylinders. */
  lemma CylindersFit(t: nat, pchs: Chs, lchs: Chs, sectors: nat)
    ensures Logical(t, pchs, lchs, sectors).cylinder <= 1024
  {
  }

  /**
   * A drive translated by the heuristic has at most 255 heads, unless it is LARGE and has more
   * physical ones, and its logical geometry fits in its sectors.
   */
  lemma HeuristicGeometry(pchs: Chs, lchs: Chs, sectors: nat)
    ensures var t := Heuristic(pchs, sectors);
            var g := Logical(t, pchs, lchs, sectors);
            && (g.head <= 255 <==> !(t == TRANSLATION_LARGE && pchs.head > 255))
            && g.Capacity() <= sectors
  {
    var t := Heuristic(pchs, sectors);
    if t == TRANSLATION_LBA {
      if sectors <= 63 * 255 * 1024 {
        LbaLoses(pchs, lchs, sectors);
      }
    } else {
      NothingGained(t, pchs, lchs, sectors);
      if t == TRANSLATION_LARGE {
        LargeHeads(pchs.cylinder, pchs.head);
      }
    }
  }

  /** A drive that keeps more than 255 heads. */
  lemma LargeKeepsHeads(lchs: Chs)
    ensures var pchs := Chs(300, 400, 1);
            Heuristic(pchs, 120000) == TRANSLATION_LARGE && Logical(TRANSLATION_LARGE, pchs, lchs, 120000) == pchs
  {
    assert Chs(300, 400, 1).Capacity() == 120000;
  }

  /** A heuristically LARGE drive reaches 1024 cylinders without the final clip. */
  lemma LargeNeedsNoClip(pchs: Chs, lchs: Chs, sectors: nat)
    requires Heuristic(pchs, sectors) == TRANSLATION_LARGE
    ensures Logical(TRANSLATION_LARGE, pchs, lchs, sectors).cylinder == Large(pchs.cylinder, pchs.head).0
  {
    LargeFits(pchs.cylinder, pchs.head);
  }

  /**
   * In LBA the clip does cut: below the limit of 255 heads, exactly where the head count has
   * not yet doubled, or become 255, although there are more than 1024 cylinders of tracks.
   */
  lemma LbaIsClipped(pchs: Chs, lchs: Chs, sectors: nat)
    requires sectors <= 63 * 255 * 1024
    ensures var tracks := sectors / 63;
            var clipped := 16400 <= tracks < 17408 || 32800 <= tracks < 33792 || 65600 <= tracks < 66560
                           || 131200 <= tracks < 132096;
            && (Lba(sectors).0 > 1024 <==> clipped)
            && (clipped ==> Logical(TRANSLATION_LBA, pchs, lchs, sectors).Capacity() < tracks * 63)
  {
    var tracks := sectors / 63;
    assert tracks <= 255 * 1024;
    var (c, h) := Lba(sectors);
    if c > 1024 {
      assert 1024 * h < c * h <= tracks;
    }
  }

  /**
   * Setting up a drive again leaves its logical geometry alone; the translation becomes that of
   * the host as soon as the geometry could have come from the host.
   */
  lemma SetupAgain(s: Setting, lchs: Chs)
    ensures var t := Translation(s, lchs);
            var once := Logical(t, s.pchs, lchs, s.sectors);
            var t2 := Translation(s, once);
            && Logical(t2, s.pchs, once, s.sectors) == once
            && t2 == if HostSupplied(once) then TRANSLATION_HOST else t
  {
    var t := Translation(s, lchs);
    var once := Logical(t, s.pchs, lchs, s.sectors);
    CylindersFit(t, s.pchs, lchs, s.sectors);
    if t == TRANSLATION_HOST {
      assert HostSupplied(once);
    }
  }

  // ---------- the rules, by numbers ----------

  /**
   * The translation: 4 when the host's geometry is plausible; in QEMU, for ATA drives, the drive's
   * pair of bits in the byte of its group of four; otherwise by the physical geometry.
   */
  lemma TranslationRules(s: Setting, lchs: Chs)
    ensures var host := lchs.head <= 255 && 1 <= lchs.sector <= 63;
            var b := s.nvram((0x39 + s.id / 4) % 0x100);
            && (host ==> Translation(s, lchs) == 4)
            && (!host && s.qemu && s.ata ==>
                  Translation(s, lchs) == (match s.id % 4 case 0 => b % 4 case 1 => b / 4 % 4 case 2 => b / 16 % 4
                                                          case _ => b / 64 % 4))
            && (!host && !(s.qemu && s.ata) ==> Translation(s, lchs) == Heuristic(s.pchs, s.sectors))
  {
    var b := s.nvram((0x39 + s.id / 4) % 0x100);
    ShiftedPairs(b);
  }

  lemma ShiftedPairs(b: Byte)
    ensures Shifted(b, 0) == b && Shifted(b, 1) == b / 4 && Shifted(b, 2) == b / 16 && Shifted(b, 3) == b / 64
  {
    assert Shifted(b / 4, 0) == b / 4;
    assert Shifted(b / 4, 1) == Shifted(b / 4 / 4, 0);
    assert Shifted(b / 4, 2) == Shifted(b / 4 / 4, 1) == Shifted(b / 4 / 4 / 4, 0);
  }

  /** Without a hint: 1 for geometries that cannot be or have too many tracks, 0 for small ones, else 2. */
  lemma HeuristicRules(pchs: Chs, sectors: nat)
    ensures var h, c, n := pchs.head as nat, pchs.cylinder as nat, pchs.sector as nat;
            var valid := h > 0 && c > 0 && n > 0 && h * c * n <= sectors;
            var small := c <= 1024 && h <= 16 && n <= 63;
            && (Heuristic(pchs, sectors) == 0 <==> valid && small)
            && (Heuristic(pchs, sectors) == 2 <==> valid && !small && c * h <= 131072)
            && (Heuristic(pchs, sectors) == 1 <==> !valid || (!small && c * h > 131072))
  {
  }

  /** Translation 1: 63 sectors; the least of five head counts that will do; at most 1024 cylinders. */
  lemma LbaRules(pchs: Chs, lchs: Chs, sectors: nat)
    ensures var g := Logical(1, pchs, lchs, sectors);
            && g.sector == 63
            && (sectors > 63 * 255 * 1024 ==> g.head == 255 && g.cylinder == 1024)
            && (sectors <= 63 * 255 * 1024 ==>
                  && LeastHeads(g.head, sectors / 63 / 1024)
                  && g.cylinder == if sectors / 63 / g.head <= 1024 then sectors / 63 / g.head else 1024)
  {
    if sectors <= 63 * 255 * 1024 {
      HeadsFor(sectors / 63);
    }
  }

  /** The least of 16, 32, 64, 128 and 255 that is at least `n`. */
  predicate LeastHeads(h: nat, n: nat) {
    && h in {16, 32, 64, 128, 255} && n <= h
    && (h > 16 ==> n > 16) && (h > 32 ==> n > 32) && (h > 64 ==> n > 64) && (h > 128 ==> n > 128)
  }

  lemma HeadsFor(tracks: nat)
    requires tracks <= 255 * 1024
    ensures LeastHeads(LbaHeads(tracks), tracks / 1024) && tracks / LbaHeads(tracks) < 0x1_0000
  {
    assert tracks / 1024 <= 255;
    assert tracks / LbaHeads(tracks) <= tracks / 16;
  }

  function Halved(c: nat, k: nat): nat {
    if k == 0 then c else Halved(c, k - 1) / 2
  }

  /** Doubled `k` times in 16 bits. */
  function Doubled(h: nat, k: nat): nat {
    if k == 0 then h else Doubled(h, k - 1) * 2 % 0x1_0000
  }

  lemma {:induction false} HalvedFirst(c: nat, h: nat, k: nat)
    ensures Halved(c / 2, k) == Halved(c, k + 1) && Doubled(h * 2 % 0x1_0000, k) == Doubled(h, k + 1)
  {
    if k > 0 {
      HalvedFirst(c, h, k - 1);
    }
  }

  /** Cylinders are halved and heads doubled until there are 1024 cylinders or more than 127 heads. */
  lemma {:induction false} LargeRules(c: Half, h: Half) returns (k: nat)
    ensures Large(c, h) == (Halved(c, k), Doubled(h, k))
    ensures c <= 1024 ==> k == 0
    ensures c > 1024 ==> k > 0 && (Halved(c, k) <= 1024 || Doubled(h, k) > 127)
    ensures forall j :: 0 < j < k ==> Halved(c, j) > 1024 && Doubled(h, j) <= 127
    decreases c
  {
    k := 0;
    if c > 1024 {
      var c1, h1 := c / 2, h * 2 % 0x1_0000;
      HalvedFirst(c, h, 0);
      k := 1;
      if h1 <= 127 {
        var n := LargeRules(c1, h1);
        HalvedFirst(c, h, n);
        k := n + 1;
        forall j | 0 < j < k
          ensures Halved(c, j) > 1024 && Doubled(h, j) <= 127
        {
          HalvedFirst(c, h, j - 1);
          assert j == 1 || Halved(c1, j - 1) > 1024;
        }
      }
    }
  }

  /** Translation 2 is that, cut off at 1024 cylinders; 3 is 2 on 15 heads in place of 16. */
  lemma OtherRules(pchs: Chs, lchs: Chs, sectors: nat)
    ensures var (c, h) := Large(pchs.cylinder, pchs.head);
            Logical(2, pchs, lchs, sectors) == Chs(h, if c <= 1024 then c else 1024, pchs.sector)
    ensures pchs.head != 16 ==> Logical(3, pchs, lchs, sectors) == Logical(2, pchs, lchs, sectors)
    ensures pchs.head == 16 ==>
              var c := if pchs.cylinder <= 61439 then pchs.cylinder else 61439;
              Logical(3, pchs, lchs, sectors) == Logical(2, pchs.(head := 15, cylinder := c * 16 / 15), lchs, sectors)
    ensures Logical(0, pchs, lchs, sectors) == pchs.(cylinder := if pchs.cylinder <= 1024 then pchs.cylinder else 1024)
    ensures Logical(4, pchs, lchs, sectors) == lchs.(cylinder := if lchs.cylinder <= 1024 then lchs.cylinder else 1024)
  {
  }
}
