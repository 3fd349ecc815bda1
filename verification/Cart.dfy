/** The cart image of `gba_handasm.py` (GBATEK, "GBA Cartridge Header"). */
module Cart {
  import opened Common
  import opened Bytes
  import opened ArmCode

  const CODE_OFFSET := 0xC0

  /** The branch over the header. */
  const ENTRY: Word := BranchWord(AL, Delta(CODE_OFFSET, 0))

  /** The first `n` instructions, little-endian. */
  function Words(code: seq<Word>, n: nat): (b: seq<Byte>)
    requires n <= |code|
    ensures |b| == 4 * n
  {
    if n == 0 then [] else Words(code, n - 1) + Bytes32(code[n - 1])
  }

  function Header(title: seq<Byte>, gameId: seq<Byte>, maker: seq<Byte>): (h: seq<Byte>)
    requires |title| == 12 && |gameId| == 4 && |maker| == 2
    ensures |h| == CODE_OFFSET
  {
    Bytes32(ENTRY) + Zeros(0x9C) + title + gameId + maker + [0x96] + Zeros(13)
  }

  /** Room behind the code up to 256 bytes. */
  function Padding(words: nat): nat {
    if CODE_OFFSET + 4 * words < 0x100 then 0x100 - (CODE_OFFSET + 4 * words) else 0
  }

  function Image(title: seq<Byte>, gameId: seq<Byte>, maker: seq<Byte>, code: seq<Word>): seq<Byte>
    requires |title| == 12 && |gameId| == 4 && |maker| == 2
  {
    Header(title, gameId, maker) + Words(code, |code|) + Zeros(Padding(|code|))
  }

  class Cart {
    const title: seq<Byte>
    const gameId: seq<Byte>
    const maker: seq<Byte>
    var instructions: seq<Word>

    /** The texts are cut and padded to their fields by the caller. */
    constructor (title: seq<Byte>, gameId: seq<Byte>, maker: seq<Byte>)
      requires |title| == 12 && |gameId| == 4 && |maker| == 2
      ensures this.title == title && this.gameId == gameId && this.maker == maker && instructions == []
    {
      this.title, this.gameId, this.maker, instructions := title, gameId, maker, [];
    }

    method Code(more: seq<Word>)
      modifies this
      ensures instructions == old(instructions) + more
    {
      instructions := instructions + more;
    }

    method Build() returns (rom: array<Byte>)
      requires |title| == 12 && |gameId| == 4 && |maker| == 2
      ensures fresh(rom) && rom[..] == Image(title, gameId, maker, instructions)
    {
      var n := |instructions|;
      rom := new Byte[CODE_OFFSET + 4 * n + Padding(n)](i => 0);
      StoreHeader(rom);
      var code := instructions;
      var i := 0;
      ghost var h := Header(title, gameId, maker);
      while i < n
        invariant 0 <= i <= n && rom.Length == CODE_OFFSET + 4 * n + Padding(n)
        invariant rom[..] == h + Words(code, i) + Zeros(4 * (n - i) + Padding(n))
      {
        Overwrite(h + Words(code, i), Bytes32(code[i]), 4, 4 * (n - i) + Padding(n));
        Store(rom, CODE_OFFSET + i * 4, Bytes32(code[i]));
        assert h + Words(code, i + 1) == h + Words(code, i) + (Bytes32(code[i]) + Zeros(0));
        i := i + 1;
      }
    }

    method StoreHeader(rom: array<Byte>)
      requires |title| == 12 && |gameId| == 4 && |maker| == 2
      requires CODE_OFFSET <= rom.Length && rom[..] == Zeros(rom.Length)
      modifies rom
      ensures rom[..] == Header(title, gameId, maker) + Zeros(rom.Length - CODE_OFFSET)
    {
      ghost var z := rom[..];
      Store(rom, 0, Bytes32(ENTRY));
      Store(rom, 0xA0, title);
      SkipZeros(z, 0, Bytes32(ENTRY), 0x9C, title);
      ghost var a := Bytes32(ENTRY) + Zeros(0x9C) + title;
      Store(rom, 0xAC, gameId);
      SpliceTwice(z, 0, a, gameId);
      Store(rom, 0xB0, maker);
      SpliceTwice(z, 0, a + gameId, maker);
      Store(rom, 0xB2, [0x96]);
      SpliceTwice(z, 0, a + gameId + maker, [0x96]);
      assert Splice(z, 0, a + gameId + maker + [0x96]) ==
             Header(title, gameId, maker) + Zeros(rom.Length - CODE_OFFSET);
    }
  }

  lemma {:induction false} WordsAt(code: seq<Word>, n: nat, i: nat)
    requires i < n <= |code|
    ensures Words(code, n)[4 * i..4 * i + 4] == Bytes32(code[i])
  {
    if i < n - 1 {
      WordsAt(code, n - 1, i);
      assert Words(code, n)[4 * i..4 * i + 4] == Words(code, n - 1)[4 * i..4 * i + 4];
    }
  }

  lemma SliceMiddle(a: seq<Byte>, b: seq<Byte>, c: seq<Byte>, lo: nat, hi: nat)
    requires lo <= hi <= |b|
    ensures (a + b + c)[|a| + lo..|a| + hi] == b[lo..hi]
  {
  }

  /** The image holds the instructions in order, behind the header. */
  lemma ImageHolds(title: seq<Byte>, gameId: seq<Byte>, maker: seq<Byte>, code: seq<Word>, i: nat)
    requires |title| == 12 && |gameId| == 4 && |maker| == 2 && i < |code|
    ensures var rom := Image(title, gameId, maker, code);
            |rom| >= 0x100 && CODE_OFFSET + 4 * i + 4 <= |rom| && Le32(rom, CODE_OFFSET + 4 * i) == code[i]
  {
    WordsAt(code, |code|, i);
    SliceMiddle(Header(title, gameId, maker), Words(code, |code|), Zeros(Padding(|code|)), 4 * i, 4 * i + 4);
    Le32Bytes(Image(title, gameId, maker, code), CODE_OFFSET + 4 * i, code[i]);
  }

  /** Its first word branches to the first instruction. */
  lemma ImageStarts(title: seq<Byte>, gameId: seq<Byte>, maker: seq<Byte>, code: seq<Word>)
    requires |title| == 12 && |gameId| == 4 && |maker| == 2
    ensures Le32(Image(title, gameId, maker, code), 0) == ENTRY
    ensures exists field :: Decode(ENTRY) == Branch(AL, false, field) && BranchTarget(0, field) == CODE_OFFSET
  {
    var rom := Image(title, gameId, maker, code);
    assert rom[0..4] == Header(title, gameId, maker)[0..4] == Bytes32(ENTRY);
    Le32Bytes(rom, 0, ENTRY);
    BranchDecodes(CODE_OFFSET, 0, AL);
  }

  /** Every byte: the branch, room for the logo, the texts, zeros, the instructions, zeros up to 256 bytes. */
  lemma ImageBytes(title: seq<Byte>, gameId: seq<Byte>, maker: seq<Byte>, code: seq<Word>)
    requires |title| == 12 && |gameId| == 4 && |maker| == 2
    ensures var rom := Image(title, gameId, maker, code);
            && |rom| == (if |code| <= 16 then 256 else 192 + 4 * |code|)
            && rom[0..4] == [0x2E, 0x00, 0x00, 0xEA] && rom[0xA0..0xAC] == title && rom[0xAC..0xB0] == gameId
            && rom[0xB0..0xB2] == maker && rom[0xB2] == 0x96
            && forall i :: 4 <= i < 0xA0 || 0xB3 <= i < 0xC0 || 0xC0 + 4 * |code| <= i < |rom| ==> rom[i] == 0
  {
    HeaderBytes(title, gameId, maker);
    var h, w, z := Header(title, gameId, maker), Words(code, |code|), Zeros(Padding(|code|));
    var rom := Image(title, gameId, maker, code);
    assert rom == h + (w + z);
    assert rom[0..4] == h[0..4] && rom[0xA0..0xAC] == h[0xA0..0xAC] && rom[0xAC..0xB0] == h[0xAC..0xB0];
    assert rom[0xB0..0xB2] == h[0xB0..0xB2];
  }

  lemma HeaderBytes(title: seq<Byte>, gameId: seq<Byte>, maker: seq<Byte>)
    requires |title| == 12 && |gameId| == 4 && |maker| == 2
    ensures var h := Header(title, gameId, maker);
            && |h| == 192 && h[0..4] == [0x2E, 0x00, 0x00, 0xEA]
            && h[0xA0..0xAC] == title && h[0xAC..0xB0] == gameId && h[0xB0..0xB2] == maker && h[0xB2] == 0x96
            && forall i :: 4 <= i < 0xA0 || 0xB3 <= i < 0xC0 ==> h[i] == 0
  {
    assert ENTRY == 0xEA00_002E;
    assert Bytes32(ENTRY) == [0x2E, 0x00, 0x00, 0xEA];
  }
}
