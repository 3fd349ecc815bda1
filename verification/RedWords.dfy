/** The sample cart as numbers: its twelve words, its bytes, and the pixels it leaves. */
module RedWords {
  import opened Common
  import opened Bytes
  import opened ArmImmediates
  import opened ArmCode
  import opened ArmMachine
  import opened RedDemo
  import Cart

  // ---------- the encodings of its constants ----------

  lemma Powers()
    ensures Pow2(10) == 0x400 && Pow2(12) == 0x1000 && Pow2(14) == 0x4000 && Pow2(16) == 0x1_0000
    ensures Pow2(24) == 0x100_0000 && Pow2(26) == 0x400_0000 && Pow2(28) == 0x1000_0000
    ensures Pow2(6) == 0x40 && Pow2(8) == 0x100 && Pow2(22) == 0x40_0000
  {
    assert Pow2(2) == 4 && Pow2(4) == 0x10 && Pow2(6) == 0x40 && Pow2(8) == 0x100;
    PowSum(8, 2);
    PowSum(8, 4);
    PowSum(8, 6);
    PowSum(8, 8);
    PowSum(16, 8);
    PowSum(16, 6);
    PowSum(24, 2);
    PowSum(24, 4);
  }

  lemma LargerPower(a: nat, b: nat)
    requires a <= b
    ensures Pow2(a) <= Pow2(b)
  {
    PowSum(a, b - a);
    MulAtLeast(Pow2(b - a), Pow2(a));
    assert Times(Pow2(a), Pow2(b - a)) == Pow2(b - a) * Pow2(a);
  }

  /** A value that stays below the top bits grows when it is turned left. */
  lemma GrowsTurned(v: nat, k: nat)
    requires k <= 16 && 0x100 <= v < Pow2(32 - 2 * k)
    ensures Rol(v, k * 2) >= 0x100
  {
    DivModUnique(v, Pow2(32 - 2 * k), 0, v);
    TimesAtLeast(v, Pow2(2 * k));
  }

  lemma TimesAtLeast(a: nat, b: nat)
    requires 1 <= a && 1 <= b
    ensures a <= Times(a, b) && b <= Times(a, b)
  {
    MulAtLeast(b, a);
    MulAtLeast(a, b);
    assert Times(a, b) == b * a;
  }

  /** A value with bits left below those turned around is large. */
  lemma LargeTurned(v: nat, k: nat)
    requires 4 <= k <= 16 && v % Pow2(32 - 2 * k) > 0
    ensures Rol(v, k * 2) >= 0x100
  {
    assert Pow2(8) == 0x100;
    LargerPower(8, 2 * k);
    RolAtLeast(v, 2 * k);
  }

  lemma RolAtLeast(v: nat, n: nat)
    requires n <= 32 && v % Pow2(32 - n) > 0
    ensures Rol(v, n) >= Pow2(n)
  {
    SwappedAtLeast(v, Pow2(32 - n), Pow2(n));
  }

  lemma SwappedAtLeast(v: nat, p: nat, q: nat)
    requires 0 < p && 0 < q && v % p > 0
    ensures Swapped(v, p, q) >= q
  {
    TimesAtLeast(v % p, q);
  }

  lemma FoundAt(v: nat, rot: nat, imm8: nat)
    requires v < 0x1_0000_0000 && rot < 16 && imm8 < 0x100 && Rol(v, rot * 2) == imm8
    requires forall k :: 0 <= k < rot ==> Rol(v, k * 2) >= 0x100
    ensures Imm12(v) == Some(rot * 0x100 + imm8)
  {
    SmallestIs(v, 0);
    assert v % 0x1_0000_0000 == v;
    var r := Smallest(v, 0);
    assert r.Some?;
    var k := r.value / 0x100;
    assert Rol(v, k * 2) < 0x100;
    assert rot <= k;
    assert k <= rot;
  }

  lemma ByteImm(v: nat)
    requires v < 0x100
    ensures Imm12(v) == Some(v)
  {
    WordSize();
    assert Pow2(0) == 1;
    DivModUnique(v, Pow2(32), 0, v);
    assert Times(v, 1) == v;
    FoundAt(v, 0, v);
  }

  lemma IoImm()
    ensures Imm12(0x400_0000) == Some(0x301)
  {
    Powers();
    forall k | 0 <= k < 3
      ensures Rol(0x400_0000, k * 2) >= 0x100
    {
      LargerPower(28, 32 - 2 * k);
      GrowsTurned(0x400_0000, k);
    }
    FoundAt(0x400_0000, 3, 1);
  }

  lemma BackgroundImm()
    ensures Imm12(0x400) == Some(0xB01)
  {
    Powers();
    forall k | 0 <= k < 11
      ensures Rol(0x400, k * 2) >= 0x100
    {
      LargerPower(12, 32 - 2 * k);
      GrowsTurned(0x400, k);
    }
    FoundAt(0x400, 11, 1);
  }

  lemma VramImm()
    ensures Imm12(0x600_0000) == Some(0x406)
  {
    Powers();
    forall k | 0 <= k < 4
      ensures Rol(0x600_0000, k * 2) >= 0x100
    {
      if k < 3 {
        LargerPower(28, 32 - 2 * k);
        GrowsTurned(0x600_0000, k);
      }
    }
    FoundAt(0x600_0000, 4, 6);
  }

  lemma WordsImm()
    ensures Imm12(19200) == Some(0xC4B)
  {
    Powers();
    forall k | 0 <= k < 12
      ensures Rol(19200, k * 2) >= 0x100
    {
      if k <= 8 {
        LargerPower(16, 32 - 2 * k);
        GrowsTurned(19200, k);
      } else {
        LargeTurned(19200, k);
      }
    }
    FoundAt(19200, 12, 0x4B);
  }

  // ---------- the words ----------

  lemma MovWord(rd: Nibble, v: int, imm: nat)
    requires Imm12(v) == Some(imm)
    ensures MovImm(rd, v, AL) == Some(0xE3A0_0000 + rd * 0x1000 + imm)
  {
  }

  lemma OrrWord(v: int, imm: nat)
    requires Imm12(v) == Some(imm)
    ensures OrrImm(1, 1, v, AL) == Some(0xE381_1000 + imm)
  {
  }

  lemma SubsWord(v: int, imm: nat)
    requires Imm12(v) == Some(imm)
    ensures SubsImm(2, 2, v, AL) == Some(0xE252_2000 + imm)
  {
  }

  /** Word `i` of the listing is `w`. */
  predicate ListedAs(i: nat, w: Word)
    requires i < 12
  {
    Listed(i) == Some(w)
  }

  lemma SetupWords()
    ensures ListedAs(0, 0xE3A0_0301) && ListedAs(1, 0xE3A0_1B01) && ListedAs(4, 0xE3A0_0406)
  {
    IoImm();
    MovWord(0, 0x400_0000, 0x301);
    BackgroundImm();
    MovWord(1, 0x400, 0xB01);
    VramImm();
    MovWord(0, 0x600_0000, 0x406);
  }

  lemma CountWord()
    ensures ListedAs(7, 0xE3A0_2C4B)
  {
    WordsImm();
    MovWord(2, 19200, 0xC4B);
  }

  /** Instructions with a constant of one byte. */
  lemma ByteWords(v: nat)
    requires v < 0x100
    ensures MovImm(1, v, AL) == Some(0xE3A0_1000 + v) && OrrImm(1, 1, v, AL) == Some(0xE381_1000 + v)
    ensures SubsImm(2, 2, v, AL) == Some(0xE252_2000 + v)
  {
    ByteImm(v);
    MovWord(1, v, v);
    OrrWord(v, v);
    SubsWord(v, v);
  }

  lemma PixelWord()
    ensures ListedAs(5, 0xE3A0_101F)
  {
    ByteWords(RED_PIXEL);
  }

  lemma ModeWord()
    ensures ListedAs(2, 0xE381_1003)
  {
    ByteWords(MODE);
  }

  lemma NinthIs(v: int)
    requires v == ONE
    ensures Listed(9) == SubsImm(2, 2, v, AL)
  {
  }

  lemma SubsByte(v: nat)
    requires v < 0x100
    ensures SubsImm(2, 2, v, AL) == Some(0xE252_2000 + v)
  {
    ByteImm(v);
    SubsWord(v, v);
  }

  lemma OneWord(v: nat)
    requires v == ONE
    ensures ListedAs(9, 0xE252_2000 + v)
  {
    NinthIs(v);
    SubsByte(v);
  }

  lemma NinthWord()
    ensures ListedAs(9, 0xE252_2001)
  {
    OneWord(ONE);
  }

  lemma OtherWords()
    ensures ListedAs(3, 0xE1C0_10B0) && ListedAs(6, 0xE181_1801) && ListedAs(8, 0xE480_1004)
    ensures ListedAs(10, 0x1AFF_FFFC) && ListedAs(11, 0xEAFF_FFFE)
  {
  }

  /** What the assembler makes of the listing. */
  lemma ListedWords()
    ensures ListedAs(0, 0xE3A0_0301) && ListedAs(1, 0xE3A0_1B01) && ListedAs(2, 0xE381_1003)
    ensures ListedAs(3, 0xE1C0_10B0) && ListedAs(4, 0xE3A0_0406) && ListedAs(5, 0xE3A0_101F)
    ensures ListedAs(6, 0xE181_1801) && ListedAs(7, 0xE3A0_2C4B) && ListedAs(8, 0xE480_1004)
    ensures ListedAs(9, 0xE252_2001) && ListedAs(10, 0x1AFF_FFFC) && ListedAs(11, 0xEAFF_FFFE)
  {
    SetupWords();
    ModeWord();
    PixelWord();
    CountWord();
    NinthWord();
    OtherWords();
  }

  /** The branch over the header. */
  lemma EntryWord()
    ensures Cart.ENTRY == 0xEA00_002E
  {
  }

  // ---------- the screen ----------

  /** The pixel in column `x` of row `y`, of 16 bits. */
  ghost function Pixel(m: Mem, x: nat, y: nat): nat {
    var a := 0x0600_0000 + 2 * (240 * y + x);
    m(a) as nat + 0x100 * m(a + 1) as nat
  }

  lemma WordIsPixels(m: Mem, i: nat)
    requires Fetch(m, 0x0600_0000 + 4 * i) == 0x001F_001F
    ensures var a := 0x0600_0000 + 4 * i; m(a) == 0x1F && m(a + 1) == 0 && m(a + 2) == 0x1F && m(a + 3) == 0
  {
  }

  /**
   * The machine that starts at 0x0800_0000 with the patched cart inserted turns all 240 by 160
   * pixels to colour 0x1F, sets display control to 0x0403, and stops at the last instruction.
   */
  lemma PaintsTheScreen(s: State) returns (t: State)
    requires Loaded(s.mem) && s.pc == 0x0800_0000
    ensures Reaches(s, t) && Step(t) == Some(t) && t.pc == 0x0800_00EC
    ensures forall x, y :: 0 <= x < 240 && 0 <= y < 160 ==> Pixel(t.mem, x, y) == 0x1F
    ensures t.mem(0x0400_0000) == 0x03 && t.mem(0x0400_0001) == 0x04
    ensures forall a: nat :: !(0x0400_0000 <= a < 0x0400_0002) && !(0x0600_0000 <= a < 0x0601_2C00) ==>
              t.mem(a) == s.mem(a)
  {
    t := PaintsRedAndHalts(s);
    forall x, y | 0 <= x < 240 && 0 <= y < 160
      ensures Pixel(t.mem, x, y) == 0x1F
    {
      var n := 240 * y + x;
      WordIsPixels(t.mem, n / 2);
      assert n == 2 * (n / 2) || n == 2 * (n / 2) + 1;
    }
  }
}
