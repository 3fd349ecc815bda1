/** Filling in the logo and the checksum of a cart (GBATEK, "GBA Cartridge Header"). */
module RomPatcher {
  import opened Common
  import opened Bytes
  import ArmCode
  import Cart

  const LOGO_OFFSET := 0x04
  const LOGO_LENGTH := 0x9C
  const CHECKSUM_OFFSET := 0xBD
  const PREFIX: seq<Byte> := [0x24, 0xFF, 0xAE, 0x51, 0x69, 0x9A]

  /** The prefix stands at `i`, with room for the whole logo. */
  predicate LogoAt(bios: seq<Byte>, i: nat) {
    i + LOGO_LENGTH <= |bios| && bios[i..i + 6] == PREFIX
  }

  /** The first logo from `i` on. */
  function FirstLogo(bios: seq<Byte>, i: nat): Option<nat>
    decreases |bios| - i
  {
    if i + LOGO_LENGTH > |bios| then None
    else if LogoAt(bios, i) then Some(i)
    else FirstLogo(bios, i + 1)
  }

  lemma {:induction false} FirstLogoIs(bios: seq<Byte>, i: nat)
    ensures var r := FirstLogo(bios, i);
            && (r.Some? ==> i <= r.value && LogoAt(bios, r.value))
            && forall k :: i <= k && (r.Some? ==> k < r.value) ==> !LogoAt(bios, k)
    decreases |bios| - i
  {
    if i + LOGO_LENGTH <= |bios| && !LogoAt(bios, i) {
      FirstLogoIs(bios, i + 1);
    }
  }

  method ExtractLogoFromBios(bios: array<Byte>) returns (logo: Option<seq<Byte>>)
    ensures logo == match FirstLogo(bios[..], 0)
                    case None => None
                    case Some(i) => (FirstLogoIs(bios[..], 0); Some(bios[..][i..i + LOGO_LENGTH]))
  {
    FirstLogoIs(bios[..], 0);
    logo := None;
    var i := 0;
    while logo.None? && i + LOGO_LENGTH <= bios.Length
      invariant 0 <= i
      invariant logo.None? ==> FirstLogo(bios[..], 0) == FirstLogo(bios[..], i)
      invariant logo.Some? ==> i + LOGO_LENGTH <= bios.Length
      invariant logo.Some? ==> FirstLogo(bios[..], 0) == Some(i) && logo.value == bios[..][i..i + LOGO_LENGTH]
      decreases bios.Length - i, logo.None?
    {
      var found := Matches(bios, i);
      if found {
        logo := Some(bios[i..i + LOGO_LENGTH]);
      } else {
        i := i + 1;
      }
    }
  }

  /** The inner loop of the search. */
  method Matches(bios: array<Byte>, i: nat) returns (m: bool)
    requires i + LOGO_LENGTH <= bios.Length
    ensures m == LogoAt(bios[..], i)
  {
    m := true;
    var j := 0;
    while m && j < 6
      invariant 0 <= j <= 6
      invariant m ==> forall k :: 0 <= k < j ==> bios[i + k] == PREFIX[k]
      invariant !m ==> exists k :: 0 <= k < 6 && bios[i + k] != PREFIX[k]
    {
      if bios[i + j] != PREFIX[j] {
        m := false;
      }
      j := j + 1;
    }
    if !m {
      ghost var k :| 0 <= k < 6 && bios[i + k] != PREFIX[k];
      assert bios[..][i..i + 6][k] != PREFIX[k];
    }
  }

  // ---------- the patch ----------

  function Sum(rom: seq<Byte>, lo: nat, hi: nat): nat
    requires lo <= hi <= |rom|
  {
    if lo == hi then 0 else Sum(rom, lo, hi - 1) + rom[hi - 1]
  }

  /** The complement the header asks for. */
  function Checksum(rom: seq<Byte>): Byte
    requires |rom| >= 0xC0
  {
    (0 - Sum(rom, 0xA0, CHECKSUM_OFFSET) - 0x19) % 0x100
  }

  function WithLogo(rom: seq<Byte>, logo: seq<Byte>): seq<Byte>
    requires |rom| >= 0xC0 && |logo| == LOGO_LENGTH
  {
    Splice(rom, LOGO_OFFSET, logo)
  }

  function Patched(rom: seq<Byte>, logo: seq<Byte>): seq<Byte>
    requires |rom| >= 0xC0 && |logo| == LOGO_LENGTH
  {
    WithLogo(rom, logo)[CHECKSUM_OFFSET := Checksum(WithLogo(rom, logo))]
  }

  /** The cart as it is left: small carts and carts without a logo to copy are not touched. */
  function Result(rom: seq<Byte>, bios: seq<Byte>): seq<Byte> {
    FirstLogoIs(bios, 0);
    var at := FirstLogo(bios, 0);
    if |rom| < 0xC0 || at.None? then rom else Patched(rom, bios[at.value..at.value + LOGO_LENGTH])
  }

  method EnsureValidLogoAndChecksum(cartRom: array<Byte>, bios: array<Byte>) returns (changed: bool)
    modifies cartRom
    ensures cartRom[..] == Result(old(cartRom[..]), old(bios[..]))
    ensures changed <==> cartRom[..] != old(cartRom[..])
  {
    FirstLogoIs(bios[..], 0);
    if cartRom.Length < 0xC0 {
      return false;
    }
    var canonical := ExtractLogoFromBios(bios);
    if canonical.None? {
      return false;
    }
    ghost var rom := cartRom[..];
    changed := PatchLogo(cartRom, canonical.value);
    var patched := PatchChecksum(cartRom);
    PatchChanges(rom, canonical.value);
    changed := changed || patched;
  }

  method PatchLogo(cartRom: array<Byte>, canonical: seq<Byte>) returns (changed: bool)
    requires cartRom.Length >= 0xC0 && |canonical| == LOGO_LENGTH
    modifies cartRom
    ensures cartRom[..] == WithLogo(old(cartRom[..]), canonical)
    ensures changed <==> cartRom[..] != old(cartRom[..])
  {
    changed := false;
    var i := 0;
    ghost var rom := cartRom[..];
    while i < LOGO_LENGTH
      invariant 0 <= i <= LOGO_LENGTH
      invariant forall x :: 0 <= x < cartRom.Length ==>
                  cartRom[x] == if LOGO_OFFSET <= x < LOGO_OFFSET + i then canonical[x - LOGO_OFFSET] else rom[x]
      invariant changed <==> exists x :: LOGO_OFFSET <= x < LOGO_OFFSET + i && canonical[x - LOGO_OFFSET] != rom[x]
    {
      if cartRom[LOGO_OFFSET + i] != canonical[i] {
        cartRom[LOGO_OFFSET + i] := canonical[i];
        changed := true;
      }
      i := i + 1;
    }
    if changed {
      ghost var x :| LOGO_OFFSET <= x < LOGO_OFFSET + i && canonical[x - LOGO_OFFSET] != rom[x];
      assert cartRom[..][x] != rom[x];
    }
  }

  method PatchChecksum(cartRom: array<Byte>) returns (changed: bool)
    requires cartRom.Length >= 0xC0
    modifies cartRom
    ensures cartRom[..] == old(cartRom[..])[CHECKSUM_OFFSET := Checksum(old(cartRom[..]))]
    ensures changed <==> old(cartRom[CHECKSUM_OFFSET]) != Checksum(old(cartRom[..]))
  {
    var sum: nat := 0;
    var i := 0xA0;
    while i <= 0xBC
      invariant 0xA0 <= i <= 0xBD
      invariant sum == Sum(cartRom[..], 0xA0, i)
    {
      sum := sum + cartRom[i];
      i := i + 1;
    }
    var chk := (0 - sum - 0x19) % 0x100;
    changed := cartRom[CHECKSUM_OFFSET] != chk;
    if changed {
      cartRom[CHECKSUM_OFFSET] := chk;
    }
  }

  /** The whole patch changes something exactly when one of its two parts does. */
  lemma PatchChanges(rom: seq<Byte>, logo: seq<Byte>)
    requires |rom| >= 0xC0 && |logo| == LOGO_LENGTH
    ensures Patched(rom, logo) != rom <==>
            WithLogo(rom, logo) != rom || WithLogo(rom, logo)[CHECKSUM_OFFSET] != Checksum(WithLogo(rom, logo))
  {
    var w, p := WithLogo(rom, logo), Patched(rom, logo);
    if w != rom {
      var x :| 0 <= x < |rom| && w[x] != rom[x];
      assert p[x] != rom[x];
    }
  }

  // ---------- what the patch achieves ----------

  lemma {:induction false} SumSame(s: seq<Byte>, t: seq<Byte>, lo: nat, hi: nat)
    requires lo <= hi <= |s| && |s| == |t| && forall x :: lo <= x < hi ==> s[x] == t[x]
    ensures Sum(s, lo, hi) == Sum(t, lo, hi)
  {
    if lo < hi {
      SumSame(s, t, lo, hi - 1);
    }
  }

  /** The sum is what adding up the bytes one after the other gives. */
  lemma {:induction false} SumAddsUp(s: seq<Byte>, lo: nat, hi: nat) returns (t: seq<nat>)
    requires lo <= hi <= |s|
    ensures |t| == hi - lo + 1 && t[0] == 0 && t[hi - lo] == Sum(s, lo, hi)
    ensures forall i :: 0 <= i < hi - lo ==> t[i + 1] == t[i] + s[lo + i] as nat
  {
    if lo == hi {
      t := [0];
    } else {
      t := SumAddsUp(s, lo, hi - 1);
      t := t + [t[hi - 1 - lo] + s[hi - 1] as nat];
    }
  }

  /** Only the logo and the checksum change; the header then sums to zero. */
  lemma PatchedHeader(rom: seq<Byte>, logo: seq<Byte>)
    requires |rom| >= 0xC0 && |logo| == LOGO_LENGTH
    ensures var p := Patched(rom, logo);
            && |p| == |rom|
            && p[0x04..0xA0] == logo
            && (Sum(p, 0xA0, 0xBD) + 0x19 + p[0xBD] as nat) % 0x100 == 0
            && forall x :: 0 <= x < |rom| && !(0x04 <= x < 0xA0) && x != 0xBD ==> p[x] == rom[x]
  {
    var w, p := WithLogo(rom, logo), Patched(rom, logo);
    SumSame(w, p, 0xA0, CHECKSUM_OFFSET);
    assert p[LOGO_OFFSET..LOGO_OFFSET + LOGO_LENGTH] == logo;
    var sum := Sum(p, 0xA0, CHECKSUM_OFFSET) + 0x19;
    Complement(sum);
  }

  lemma Complement(sum: int)
    ensures (sum + (0 - sum) % 0x100) % 0x100 == 0
  {
    var q, m := (0 - sum) / 0x100, (0 - sum) % 0x100;
    assert 0 - sum == 0x100 * q + m;
    assert sum + m == (0 - q) * 0x100 + 0;
    ModShift(0 - q, 0x100, 0);
  }

  /** The BIOS has the first six bytes of the logo at `i`, with room for all 156. */
  ghost predicate Begins(bios: seq<Byte>, i: nat) {
    && i + 156 <= |bios| && bios[i] == 0x24 && bios[i + 1] == 0xFF && bios[i + 2] == 0xAE
    && bios[i + 3] == 0x51 && bios[i + 4] == 0x69 && bios[i + 5] == 0x9A
  }

  lemma BeginsIffLogo(bios: seq<Byte>, i: nat)
    ensures Begins(bios, i) <==> LogoAt(bios, i)
  {
    if i + 6 <= |bios| {
      var b := bios[i..i + 6];
      assert b[0] == bios[i] && b[1] == bios[i + 1] && b[2] == bios[i + 2];
      assert b[3] == bios[i + 3] && b[4] == bios[i + 4] && b[5] == bios[i + 5];
    }
  }

  /** A cart that is too small, or a BIOS without a logo: nothing is changed. */
  lemma LeftAlone(rom: seq<Byte>, bios: seq<Byte>)
    ensures |rom| < 192 || (forall i :: !Begins(bios, i)) ==> Result(rom, bios) == rom
  {
    FirstLogoIs(bios, 0);
    if FirstLogo(bios, 0).Some? {
      BeginsIffLogo(bios, FirstLogo(bios, 0).value);
    }
  }

  /** Patching a patched cart changes nothing. */
  lemma PatchedTwice(rom: seq<Byte>, bios: seq<Byte>)
    ensures Result(Result(rom, bios), bios) == Result(rom, bios)
  {
    FirstLogoIs(bios, 0);
    if |rom| >= 0xC0 && FirstLogo(bios, 0).Some? {
      var at := FirstLogo(bios, 0).value;
      var logo := bios[at..at + LOGO_LENGTH];
      var w, p := WithLogo(rom, logo), Patched(rom, logo);
      PatchedHeader(rom, logo);
      assert WithLogo(p, logo) == p;
      SumSame(w, p, 0xA0, CHECKSUM_OFFSET);
      assert Checksum(p) == Checksum(w);
    }
  }

  /** The logo copied is that of the first match, and there is one whenever the BIOS has any. */
  lemma CopiesFirstMatch(rom: seq<Byte>, bios: seq<Byte>, i: nat)
    requires |rom| >= 192 && Begins(bios, i)
    ensures exists k :: 0 <= k <= i && Begins(bios, k) && (forall j :: 0 <= j < k ==> !Begins(bios, j))
              && Result(rom, bios) == Patched(rom, bios[k..k + 156])
  {
    FirstLogoIs(bios, 0);
    BeginsIffLogo(bios, i);
    var k := FirstLogo(bios, 0).value;
    BeginsIffLogo(bios, k);
    forall j | 0 <= j < k
      ensures !Begins(bios, j)
    {
      BeginsIffLogo(bios, j);
    }
  }

  /** A patched cart image keeps its entry branch, its texts and its instructions. */
  lemma PatchedCart(title: seq<Byte>, gameId: seq<Byte>, maker: seq<Byte>, code: seq<ArmCode.Word>, logo: seq<Byte>,
                    i: nat)
    requires |title| == 12 && |gameId| == 4 && |maker| == 2 && |logo| == LOGO_LENGTH && i < |code|
    ensures var rom := Cart.Image(title, gameId, maker, code);
            var p := Patched(rom, logo);
            && Cart.CODE_OFFSET + 4 * i + 4 <= |p|
            && Le32(p, 0) == Cart.ENTRY && Le32(p, Cart.CODE_OFFSET + 4 * i) == code[i]
            && p[0xA0..0xB2] == title + gameId + maker && p[0xB2] == 0x96
  {
    var rom := Cart.Image(title, gameId, maker, code);
    var p := Patched(rom, logo);
    Cart.ImageHolds(title, gameId, maker, code, i);
    Cart.ImageStarts(title, gameId, maker, code);
    PatchedHeader(rom, logo);
    assert rom[0xA0..0xB2] == title + gameId + maker;
    assert p[0xA0..0xB2] == rom[0xA0..0xB2];
  }
}
