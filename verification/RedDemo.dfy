/** The sample cart: it paints the mode-3 frame buffer red and halts. */
module RedDemo {
  import opened Common
  import opened Bytes
  import opened ArmImmediates
  import opened ArmCode
  import opened ArmMachine
  import Cart
  import RomPatcher

  const BASE := 0x0800_0000
  const CODE := 0x0800_00C0
  const IO := 0x0400_0000
  const VRAM := 0x0600_0000
  /** 240 by 160 pixels, two to a word. */
  const WORDS := 19200
  const RED_PIXEL := 0x1F
  /** DISPCNT: background 2, mode 3. */
  const BACKGROUND := 0x400
  const MODE := 3
  const ONE := 1
  /** Two red RGB555 pixels. */
  const RED: Word := 0x001F_001F

  /** The words of the listing, in order. */
  function Listed(i: nat): Option<Word>
    requires i < 12
  {
    match i
    case 0 => MovImm(0, IO, AL)
    case 1 => MovImm(1, BACKGROUND, AL)
    case 2 => OrrImm(1, 1, MODE, AL)
    case 3 => Some(StrhPost0(1, 0, AL))
    case 4 => MovImm(0, VRAM, AL)
    case 5 => MovImm(1, RED_PIXEL, AL)
    case 6 => LslInto(1, 1, 1, 16, AL)
    case 7 => MovImm(2, WORDS, AL)
    case 8 => StrPostInc(1, 0, 4, AL)
    case 9 => SubsImm(2, 2, ONE, AL)
    case 10 => Some(BneBack(2))
    case _ => Some(BSelf())
  }

  /** What they mean. */
  function Meaning(i: nat): Instr
    requires i < 12
  {
    match i
    case 0 => DataImm(AL, 13, false, 0, 0, IO)
    case 1 => DataImm(AL, 13, false, 0, 1, BACKGROUND)
    case 2 => DataImm(AL, 12, false, 1, 1, MODE)
    case 3 => Extra(AL, true, true, true, false, false, 0, 1, 1, 0)
    case 4 => DataImm(AL, 13, false, 0, 0, VRAM)
    case 5 => DataImm(AL, 13, false, 0, 1, RED_PIXEL)
    case 6 => DataShift(AL, 12, false, 1, 1, 16, 0, 1)
    case 7 => DataImm(AL, 13, false, 0, 2, WORDS)
    case 8 => Single(AL, false, true, false, false, false, 0, 1, 4)
    case 9 => DataImm(AL, 2, true, 2, 2, ONE)
    case 10 => Branch(NE, false, 0xFF_FFFC)
    case _ => Branch(AL, false, 0xFF_FFFE)
  }

  ghost predicate Means(i: nat)
    requires i < 12
  {
    Listed(i).Some? && Decode(Listed(i).value) == Meaning(i)
  }

  /** A few bits turned right appear at the top. */
  lemma TopEncodes(x: nat, rot: nat, p: nat, v: nat)
    requires x < 0x100 && rot < 16 && x < Pow2(2 * rot) && Pow2(32 - 2 * rot) == p && x * p == v
    ensures CanEncode(v)
  {
    var e := rot * 0x100 + x;
    DivModUnique(e, 0x100, rot, x);
    TurnedIsRor(x, 2 * rot);
    DivModUnique(x, Pow2(2 * rot), 0, x);
    assert Decoded(e) == v;
  }

  lemma LowEncodes(x: nat)
    requires x < 0x100
    ensures CanEncode(x)
  {
    DivModUnique(x, 0x100, 0, x);
    assert Turned(x, 0) == x;
    assert Decoded(x) == x;
  }

  lemma Powers()
    ensures Pow2(6) == 0x40 && Pow2(8) == 0x100 && Pow2(10) == 0x400
    ensures Pow2(22) == 0x40_0000 && Pow2(24) == 0x100_0000 && Pow2(26) == 0x400_0000
  {
    assert Pow2(6) == 0x40;
    assert Pow2(8) == 0x100;
    assert Pow2(16) == 0x1_0000;
    PowSum(16, 6);
    PowSum(16, 8);
    PowSum(16, 10);
  }

  /** The constants of the listing can be encoded. */
  lemma LargeConstants()
    ensures CanEncode(IO) && CanEncode(BACKGROUND) && CanEncode(VRAM) && CanEncode(WORDS)
  {
    Powers();
    TopEncodes(1, 3, 0x400_0000, IO);
    TopEncodes(1, 11, 0x400, BACKGROUND);
    TopEncodes(6, 4, 0x100_0000, VRAM);
    TopEncodes(0x4B, 12, 0x100, WORDS);
  }

  lemma SmallConstants()
    ensures CanEncode(MODE) && CanEncode(RED_PIXEL) && CanEncode(ONE)
  {
    LowEncodes(MODE);
    LowEncodes(RED_PIXEL);
    LowEncodes(ONE);
  }

  lemma ImmMeans(w: Option<Word>, value: Word, opcode: Nibble, s: bool, rn: Nibble, rd: Nibble)
    requires IsDataImm(w, value, AL, opcode, s, rn, rd) && CanEncode(value)
    ensures w.Some? && Decode(w.value) == DataImm(AL, opcode, s, rn, rd, value)
  {
    DivModUnique(value, 0x1_0000_0000, 0, value);
  }

  lemma MovMeans(rd: Nibble, value: Word)
    requires CanEncode(value)
    ensures MovImm(rd, value, AL).Some? && Decode(MovImm(rd, value, AL).value) == DataImm(AL, 13, false, 0, rd, value)
  {
    MovDecodes(rd, value, AL);
    ImmMeans(MovImm(rd, value, AL), value, 13, false, 0, rd);
  }

  lemma AddressesMean()
    ensures Means(0) && Means(4)
  {
    LargeConstants();
    MovMeans(0, IO);
    MovMeans(0, VRAM);
  }

  lemma BackgroundMeans()
    ensures Means(1)
  {
    LargeConstants();
    MovMeans(1, BACKGROUND);
  }

  lemma PixelMeans()
    ensures Means(5)
  {
    SmallConstants();
    MovMeans(1, RED_PIXEL);
  }

  lemma CountMeans()
    ensures Means(7)
  {
    LargeConstants();
    MovMeans(2, WORDS);
  }

  lemma OrrMeans()
    ensures Means(2)
  {
    SmallConstants();
    OrrDecodes(1, 1, MODE, AL);
    ImmMeans(OrrImm(1, 1, MODE, AL), MODE, 12, false, 1, 1);
  }

  lemma SubsMeans()
    ensures Means(9)
  {
    SmallConstants();
    SubsDecodes(2, 2, ONE, AL);
    ImmMeans(SubsImm(2, 2, ONE, AL), ONE, 2, true, 2, 2);
  }

  lemma StoresMean()
    ensures Means(3) && Means(6) && Means(8)
  {
    StrhDecodes(1, 0, AL);
    LslDecodes(1, 1, 1, 16, AL);
    StrDecodes(1, 0, 4, AL);
  }

  lemma BranchesMean()
    ensures Means(10) && Means(11)
  {
    BranchFields(NE, -4);
    BranchFields(AL, -2);
    assert BSelf() == BranchWord(AL, -2);
  }

  /** No constant is refused, and every word decodes to its meaning. */
  lemma AllMean(i: nat)
    requires i < 12
    ensures Means(i)
  {
    if i in {0, 4} {
      AddressesMean();
    } else if i == 1 {
      BackgroundMeans();
    } else if i == 2 {
      OrrMeans();
    } else if i in {3, 6, 8} {
      StoresMean();
    } else if i == 5 {
      PixelMeans();
    } else if i == 7 {
      CountMeans();
    } else if i == 9 {
      SubsMeans();
    } else {
      BranchesMean();
    }
  }

  // ---------- running it ----------

  /** The entry branch and the code are in memory. */
  ghost predicate Loaded(m: Mem) {
    Fetch(m, BASE) == Cart.ENTRY && forall i :: 0 <= i < 12 ==> Decode(Fetch(m, CODE + 4 * i)) == Meaning(i)
  }

  lemma LoadedKept(m: Mem, l: Mem)
    requires Loaded(m) && forall x :: BASE <= x < CODE + 48 ==> m(x) == l(x)
    ensures Loaded(l)
  {
    forall i | 0 <= i < 12
      ensures Decode(Fetch(l, CODE + 4 * i)) == Meaning(i)
    {
      assert Fetch(m, CODE + 4 * i) == Fetch(l, CODE + 4 * i);
    }
  }

  /** In front of instruction `i`. */
  ghost predicate At(s: State, i: nat) {
    i < 12 && Loaded(s.mem) && s.pc == CODE + 4 * i
  }

  lemma NextIs(s: State, i: nat)
    requires At(s, i)
    ensures Next(s) == Meaning(i)
  {
  }

  /** The entry branch goes over the header. */
  lemma Enters(s: State)
    requires Loaded(s.mem) && s.pc == BASE
    ensures Reaches(s, s.(pc := CODE))
  {
    BranchFields(AL, Delta(Cart.CODE_OFFSET, 0));
    BranchStep(s, AL, Field24(46));
    ReachesOne(s, s.(pc := CODE));
  }

  lemma MovRuns(s: State, i: nat, rd: Nibble, v: Word)
    requires At(s, i) && rd < 15 && Meaning(i) == DataImm(AL, 13, false, 0, rd, v)
    ensures Reaches(s, SetReg(s, rd, v))
  {
    NextIs(s, i);
    MovStep(s, rd, v);
    ReachesOne(s, SetReg(s, rd, v));
  }

  lemma Ors()
    ensures Or(BACKGROUND, MODE) == 0x403 && Shl(RED_PIXEL, 16) == 0x1F_0000 && Or(RED_PIXEL, 0x1F_0000) == RED
  {
    assert Pow2(8) == 0x100;
    PowSum(8, 8);
    assert Or(0x200, 1) == 0x201;
    assert Or(0x400, 3) == 0x403;
    assert Or(1, 0x1_F000) == 0x1_F001;
    assert Or(3, 0x3_E000) == 0x3_E003;
    assert Or(7, 0x7_C000) == 0x7_C007;
    assert Or(0xF, 0xF_8000) == 0xF_800F;
    assert Or(0x1F, 0x1F_0000) == 0x1F_001F;
  }

  lemma OrrRuns(s: State)
    requires At(s, 2) && s.r[1] == BACKGROUND
    ensures Reaches(s, SetReg(s, 1, 0x403))
  {
    Ors();
    NextIs(s, 2);
    OrrStep(s, 1, 1, MODE);
    ReachesOne(s, SetReg(s, 1, 0x403));
  }

  lemma StrhRuns(s: State) returns (t: State)
    requires At(s, 3) && s.r[0] == IO && s.r[1] == 0x403
    ensures Reaches(s, t) && At(t, 4) && t.mem == Stored(s.mem, IO, 0x403, 2)
  {
    t := s.(mem := Stored(s.mem, IO, 0x403, 2), pc := s.pc + 4);
    NextIs(s, 3);
    StrhStep(s, 1, 0);
    ReachesOne(s, t);
    LoadedKept(s.mem, t.mem);
  }

  /** Display control is written: background 2, mode 3. */
  lemma SetsMode(s: State) returns (t: State)
    requires At(s, 0)
    ensures Reaches(s, t) && At(t, 4) && t.mem == Stored(s.mem, IO, 0x403, 2)
  {
    var a := SetReg(s, 0, IO);
    MovRuns(s, 0, 0, IO);
    var b := SetReg(a, 1, BACKGROUND);
    MovRuns(a, 1, 1, BACKGROUND);
    ReachesTwice(s, a, b);
    var c := SetReg(b, 1, 0x403);
    OrrRuns(b);
    ReachesTwice(s, b, c);
    t := StrhRuns(c);
    ReachesTwice(s, c, t);
  }

  lemma LslRuns(s: State)
    requires At(s, 6) && s.r[1] == RED_PIXEL
    ensures Reaches(s, SetReg(s, 1, RED))
  {
    Ors();
    NextIs(s, 6);
    LslStep(s, 1, 1, 1, 16);
    ReachesOne(s, SetReg(s, 1, RED));
  }

  /** The loop is prepared. */
  lemma Prepares(s: State) returns (t: State)
    requires At(s, 4)
    ensures Reaches(s, t) && At(t, 8) && t.mem == s.mem && t.r[0] == VRAM && t.r[1] == RED && t.r[2] == WORDS
  {
    var a := SetReg(s, 0, VRAM);
    MovRuns(s, 4, 0, VRAM);
    var b := SetReg(a, 1, RED_PIXEL);
    MovRuns(a, 5, 1, RED_PIXEL);
    ReachesTwice(s, a, b);
    var c := SetReg(b, 1, RED);
    LslRuns(b);
    ReachesTwice(s, b, c);
    t := SetReg(c, 2, WORDS);
    MovRuns(c, 7, 2, WORDS);
    ReachesTwice(s, c, t);
  }

  /** In the loop, `k` words to go from `a`. */
  ghost predicate Filling(s: State, a: nat, k: nat) {
    At(s, 8) && s.r[0] == a && s.r[1] == RED && s.r[2] == k && 1 <= k <= WORDS && VRAM <= a && a + 4 * k <= BASE
  }

  lemma StrRuns(s: State, a: nat, k: nat) returns (t: State)
    requires Filling(s, a, k)
    ensures Reaches(s, t) && At(t, 9) && t.mem == Stored(s.mem, a, RED, 4)
    ensures t.r[0] == a + 4 && t.r[1] == RED && t.r[2] == k
  {
    t := SetReg(s.(mem := Stored(s.mem, a, RED, 4)), 0, a + 4);
    NextIs(s, 8);
    StrStep(s, 1, 0, 4);
    ReachesOne(s, t);
    LoadedKept(s.mem, t.mem);
  }

  lemma SubsRuns(s: State) returns (t: State)
    requires At(s, 9) && 1 <= s.r[2] <= WORDS
    ensures Reaches(s, t) && At(t, 10) && t.mem == s.mem && t.z == (s.r[2] == 1)
    ensures t.r[0] == s.r[0] && t.r[1] == s.r[1] && t.r[2] == s.r[2] - 1
  {
    t := Subtracted(s, 2, s.r[2] - ONE);
    NextIs(s, 9);
    SubsStep(s, 2, 2, ONE);
    ReachesOne(s, t);
  }

  lemma BneRuns(s: State) returns (t: State)
    requires At(s, 10)
    ensures Reaches(s, t) && t == s.(pc := if s.z then CODE + 44 else CODE + 32)
  {
    NextIs(s, 10);
    if s.z {
      BranchSkips(s, 0xFF_FFFC);
    } else {
      BranchStep(s, NE, 0xFF_FFFC);
    }
    t := s.(pc := if s.z then CODE + 44 else CODE + 32);
    ReachesOne(s, t);
  }

  /** One turn: a word is stored, and the branch goes back while words are left. */
  lemma Turn(s: State, a: nat, k: nat) returns (t: State)
    requires Filling(s, a, k)
    ensures Reaches(s, t) && t.mem == Stored(s.mem, a, RED, 4)
    ensures k > 1 ==> Filling(t, a + 4, k - 1)
    ensures k == 1 ==> At(t, 11)
  {
    var b := StrRuns(s, a, k);
    var c := SubsRuns(b);
    t := BneRuns(c);
    ReachesTwice(s, b, c);
    ReachesTwice(s, c, t);
  }

  /** `k` words from `a` are red, the other bytes as in `m`. */
  ghost predicate Painted(m: Mem, l: Mem, a: nat, k: nat) {
    forall x: nat :: l(x) == if a <= x < a + 4 * k then ByteOf(RED, (x - a) % 4) else m(x)
  }

  lemma PaintedMore(m: Mem, l: Mem, n: Mem, a: nat, k: nat)
    requires l == Stored(m, a, RED, 4) && Painted(l, n, a + 4, k)
    ensures Painted(m, n, a, k + 1)
  {
    forall x: nat
      ensures n(x) == if a <= x < a + 4 * (k + 1) then ByteOf(RED, (x - a) % 4) else m(x)
    {
      if a + 4 <= x {
        ModShift(1, 4, x - (a + 4));
      }
    }
  }

  /** The loop paints the remaining words and leaves. */
  lemma {:induction false} Fills(s: State, a: nat, k: nat) returns (t: State)
    requires Filling(s, a, k)
    ensures Reaches(s, t) && At(t, 11) && Painted(s.mem, t.mem, a, k)
    decreases k
  {
    var u := Turn(s, a, k);
    if k == 1 {
      t := u;
    } else {
      t := Fills(u, a + 4, k - 1);
      ReachesTwice(s, u, t);
      PaintedMore(s.mem, u.mem, t.mem, a, k - 1);
    }
  }

  lemma Halts(s: State)
    requires At(s, 11)
    ensures Step(s) == Some(s)
  {
    NextIs(s, 11);
    BranchStep(s, AL, 0xFF_FFFE);
  }

  /**
   * From its entry point, the loaded cart sets display mode 3, paints all 240 by 160 pixels red,
   * changes nothing else in memory, and halts.
   */
  lemma PaintsRedAndHalts(s: State) returns (t: State)
    requires Loaded(s.mem) && s.pc == BASE
    ensures Reaches(s, t) && Step(t) == Some(t) && t.pc == CODE + 44
    ensures t.mem(IO) == 0x03 && t.mem(IO + 1) == 0x04
    ensures forall i :: 0 <= i < WORDS ==> Fetch(t.mem, VRAM + 4 * i) == RED
    ensures forall x: nat :: !(IO <= x < IO + 2) && !(VRAM <= x < VRAM + 4 * WORDS) ==> t.mem(x) == s.mem(x)
  {
    Enters(s);
    var a := s.(pc := CODE);
    var b := SetsMode(a);
    var c := Prepares(b);
    t := Fills(c, VRAM, WORDS);
    ReachesTwice(s, a, b);
    ReachesTwice(s, b, c);
    ReachesTwice(s, c, t);
    Halts(t);
    OnlyPainted(s.mem, c.mem, t.mem);
    forall i | 0 <= i < WORDS
      ensures Fetch(t.mem, VRAM + 4 * i) == RED
    {
      WordPainted(c.mem, t.mem, i);
    }
  }

  lemma OnlyPainted(m: Mem, c: Mem, l: Mem)
    requires c == Stored(m, IO, 0x403, 2) && Painted(c, l, VRAM, WORDS)
    ensures l(IO) == 0x03 && l(IO + 1) == 0x04
    ensures forall x: nat :: !(IO <= x < IO + 2) && !(VRAM <= x < VRAM + 4 * WORDS) ==> l(x) == m(x)
  {
    assert c(IO) == ByteOf(0x403, 0) && c(IO + 1) == ByteOf(0x403, 1);
  }

  lemma WordPainted(m: Mem, l: Mem, i: nat)
    requires Painted(m, l, VRAM, WORDS) && i < WORDS
    ensures Fetch(l, VRAM + 4 * i) == RED
  {
    var x := VRAM + 4 * i;
    assert l(x) == 0x1F && l(x + 1) == 0 && l(x + 2) == 0x1F && l(x + 3) == 0;
  }

  // ---------- from the cart image ----------

  /** The image lies at the cart's address. */
  ghost predicate Inserted(m: Mem, rom: seq<Byte>) {
    forall k :: 0 <= k < |rom| ==> m(BASE + k) == rom[k]
  }

  lemma FetchInserted(m: Mem, rom: seq<Byte>, k: nat)
    requires Inserted(m, rom) && k + 4 <= |rom|
    ensures Fetch(m, BASE + k) == Le32(rom, k)
  {
    assert m(BASE + k) == rom[k] && m(BASE + (k + 1)) == rom[k + 1];
    assert m(BASE + (k + 2)) == rom[k + 2] && m(BASE + (k + 3)) == rom[k + 3];
  }

  /** The image of the listing, with the logo and the checksum filled in, is ready to run. */
  lemma PatchedCartIsLoaded(m: Mem, title: seq<Byte>, gameId: seq<Byte>, maker: seq<Byte>, logo: seq<Byte>,
                            code: seq<Word>)
    requires |title| == 12 && |gameId| == 4 && |maker| == 2 && |logo| == RomPatcher.LOGO_LENGTH
    requires |code| == 12 && forall i :: 0 <= i < 12 ==> Listed(i) == Some(code[i])
    requires Inserted(m, RomPatcher.Patched(Cart.Image(title, gameId, maker, code), logo))
    ensures Loaded(m)
  {
    var rom := RomPatcher.Patched(Cart.Image(title, gameId, maker, code), logo);
    RomPatcher.PatchedCart(title, gameId, maker, code, logo, 0);
    FetchInserted(m, rom, 0);
    forall i | 0 <= i < 12
      ensures Decode(Fetch(m, CODE + 4 * i)) == Meaning(i)
    {
      RomPatcher.PatchedCart(title, gameId, maker, code, logo, i);
      FetchInserted(m, rom, Cart.CODE_OFFSET + 4 * i);
      AllMean(i);
    }
  }

  /** `red_demo`: no constant of the listing is refused, so the cart holds all of it. */
  method RedDemo(title: seq<Byte>, gameId: seq<Byte>, maker: seq<Byte>) returns (cart: Cart.Cart)
    requires |title| == 12 && |gameId| == 4 && |maker| == 2
    ensures fresh(cart) && cart.title == title && cart.gameId == gameId && cart.maker == maker
    ensures |cart.instructions| == 12 && forall i :: 0 <= i < 12 ==> Listed(i) == Some(cart.instructions[i])
  {
    cart := new Cart.Cart(title, gameId, maker);
    var i := 0;
    while i < 12
      invariant 0 <= i <= 12 && fresh(cart) && |cart.instructions| == i
      invariant forall k :: 0 <= k < i ==> Listed(k) == Some(cart.instructions[k])
    {
      AllMean(i);
      cart.Code([Listed(i).value]);
      i := i + 1;
    }
  }
}
