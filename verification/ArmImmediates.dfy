/** ARM modified immediates: eight bits rotated right by an even amount (ARM ARM A5.2.4). */
module ArmImmediates {
  import opened Common

  function Times(a: nat, b: nat): nat {
    a * b
  }

  /** `x` is `hi * p + lo`; they change places, with `q` in the place of `p`. */
  function Swapped(x: nat, p: nat, q: nat): nat
    requires 0 < p
  {
    x / p + Times(x % p, q)
  }

  /** The low `n` bits of `x` go to the top of the word. */
  function Ror(x: nat, n: nat): nat
    requires n <= 32
  {
    Swapped(x, Pow2(n), Pow2(32 - n))
  }

  function Rol(x: nat, n: nat): nat
    requires n <= 32
  {
    Swapped(x, Pow2(32 - n), Pow2(n))
  }

  lemma {:induction false} PowSum(a: nat, b: nat)
    ensures Pow2(a + b) == Times(Pow2(a), Pow2(b))
  {
    if b > 0 {
      PowSum(a, b - 1);
      assert Pow2(a + b) == 2 * Pow2(a + b - 1);
    }
  }

  lemma WordSize()
    ensures Pow2(32) == 0x1_0000_0000
  {
    assert Pow2(8) == 256;
    PowSum(8, 8);
    assert Pow2(16) == 0x1_0000;
    PowSum(16, 16);
  }

  lemma TimesGrows(a: nat, b: nat, c: nat)
    requires a <= b
    ensures Times(a, c) <= Times(b, c)
  {
  }

  /** Quotient, remainder, and the bound of the quotient. */
  lemma Parts(x: nat, p: nat, q: nat)
    requires 0 < p && x < Times(p, q)
    ensures x == Times(x / p, p) + x % p && x / p < q
  {
    var d := x / p;
    assert x == Times(d, p) + x % p;
    if q <= d {
      TimesGrows(q, d, p);
    }
  }

  lemma NextTimes(a: nat, b: nat)
    ensures Times(a + 1, b) == Times(a, b) + b
  {
  }

  lemma SwapsBack(x: nat, p: nat, q: nat)
    requires 0 < p && 0 < q && x < Times(p, q)
    ensures Swapped(x, p, q) < Times(p, q) && Swapped(Swapped(x, p, q), q, p) == x
  {
    Parts(x, p, q);
    var hi, lo := x / p, x % p;
    DivModUnique(Swapped(x, p, q), q, lo, hi);
    NextTimes(lo, q);
    TimesGrows(lo + 1, p, q);
  }

  /** Rotating left undoes rotating right, and the other way round. */
  lemma RotatesBack(x: nat, n: nat)
    requires n <= 32 && x < 0x1_0000_0000
    ensures Ror(x, n) < 0x1_0000_0000 && Rol(Ror(x, n), n) == x
    ensures Rol(x, n) < 0x1_0000_0000 && Ror(Rol(x, n), n) == x
  {
    WordSize();
    PowSum(n, 32 - n);
    PowSum(32 - n, n);
    SwapsBack(x, Pow2(n), Pow2(32 - n));
    SwapsBack(x, Pow2(32 - n), Pow2(n));
  }

  function Over(x: nat, p: nat): nat
    requires 0 < p
  {
    x / p
  }

  function Shr(x: nat, n: nat): nat {
    Over(x, Pow2(n))
  }

  /** Shifted left in 32 bits. */
  function Shl(x: nat, n: nat): nat {
    Times(x, Pow2(n)) % 0x1_0000_0000
  }

  /** The shifts and the mask of the source; the two parts have no bit in common. */
  function Rotated(imm8: nat, rotation: nat): nat
    requires rotation < 32
  {
    if rotation == 0 then imm8 else Shr(imm8, rotation) + Shl(imm8, 32 - rotation)
  }

  /** Shifting left by `q` within `p * q` keeps the low part only. */
  lemma ShiftedOut(x: nat, p: nat, q: nat)
    requires 0 < p && 0 < q && x < Times(p, q)
    ensures 0 < Times(p, q) && Times(x, q) % Times(p, q) == Times(x % p, q)
  {
    Parts(x, p, q);
    var hi, lo := x / p, x % p;
    assert Times(x, q) == hi * Times(p, q) + Times(lo, q) by {
      assert Times(x, q) == (hi * p + lo) * q == (hi * p) * q + lo * q;
      MulAssociative(hi, p, q);
    }
    NextTimes(lo, q);
    TimesGrows(lo + 1, p, q);
    DivModUnique(Times(x, q), Times(p, q), hi, Times(lo, q));
  }

  lemma RotatedIsRor(x: nat, n: nat)
    requires n < 32 && x < 0x1_0000_0000
    ensures Rotated(x, n) == Ror(x, n)
  {
    if n > 0 {
      WordSize();
      PowSum(n, 32 - n);
      ShiftedOut(x, Pow2(n), Pow2(32 - n));
    }
  }

  // ---------- the operand an encoding stands for ----------

  /** One bit to the right, the lowest to the top. */
  function TurnedOnce(x: nat): nat {
    x / 2 + x % 2 * 0x8000_0000
  }

  function Turned(x: nat, n: nat): nat {
    if n == 0 then x else TurnedOnce(Turned(x, n - 1))
  }

  /** Eight bits rotated right by twice the rotation field. */
  function Decoded(imm12: nat): nat {
    Turned(imm12 % 0x100, imm12 / 0x100 * 2)
  }

  /** `x` is `hi * 2p + b * p + lo`; turning once more moves `b`. */
  lemma OneMore(x: nat, p: nat, q: nat)
    requires 0 < p && 0 < q && Times(p, q) == 0x8000_0000 && x < 0x1_0000_0000
    ensures Swapped(x, 2 * p, q) == TurnedOnce(Swapped(x, p, 2 * q))
  {
    var c, lo := x / p, x % p;
    var hi, b := c / 2, c % 2;
    Parts2(x, p);
    var y := Swapped(x, p, 2 * q);
    assert y == 2 * (hi + Times(lo, q)) + b by {
      assert Times(lo, 2 * q) == 2 * Times(lo, q);
    }
    DivModUnique(y, 2, hi + Times(lo, q), b);
    assert Times(lo + b * p, q) == Times(lo, q) + b * Times(p, q);
  }

  lemma Parts2(x: nat, p: nat)
    requires 0 < p
    ensures x / (2 * p) == x / p / 2 && x % (2 * p) == x % p + x / p % 2 * p
  {
    var c, lo := x / p, x % p;
    var hi, b := c / 2, c % 2;
    assert x == p * c + lo && c == 2 * hi + b;
    assert p * c == hi * (2 * p) + b * p;
    assert 0 <= lo + b * p < 2 * p;
    DivModUnique(x, 2 * p, hi, lo + b * p);
  }

  /** Turning `n` times is rotating by `n`. */
  lemma {:induction false} TurnedIsRor(x: nat, n: nat)
    requires n < 32 && x < 0x1_0000_0000
    ensures Turned(x, n) == Ror(x, n)
  {
    if n > 0 {
      TurnedIsRor(x, n - 1);
      HalfWord(n);
      OneMore(x, Pow2(n - 1), Pow2(32 - n));
    }
  }

  lemma HalfWord(n: nat)
    requires 0 < n < 32
    ensures Times(Pow2(n - 1), Pow2(32 - n)) == 0x8000_0000
    ensures Pow2(n) == 2 * Pow2(n - 1) && Pow2(33 - n) == 2 * Pow2(32 - n)
  {
    WordSize();
    PowSum(n - 1, 32 - n);
    assert Pow2(32) == 2 * Pow2(31);
  }

  /** An eight-bit immediate with this rotation exists exactly when the value rotated back has eight bits. */
  lemma OnlyRotation(value: nat, rot: nat, imm8: nat)
    requires value < 0x1_0000_0000 && rot < 16 && imm8 < 0x100
    ensures Rotated(imm8, rot * 2) == value <==> imm8 == Rol(value, rot * 2)
  {
    RotatedIsRor(imm8, rot * 2);
    RotatesBack(imm8, rot * 2);
    RotatesBack(value, rot * 2);
  }

  /** The encoding with the smallest rotation from `rot` on. */
  function Smallest(v: nat, rot: nat): (r: Option<nat>)
    requires rot <= 16
    ensures r.Some? ==> r.value < 0x1000
    decreases v, 16 - rot
  {
    if rot == 16 then None
    else if Rol(v, rot * 2) < 0x100 then Some(rot * 0x100 + Rol(v, rot * 2))
    else Smallest(v, rot + 1)
  }

  function Imm12(value: int): (r: Option<nat>)
    ensures r.Some? ==> r.value < 0x1000
  {
    Smallest(value % 0x1_0000_0000, 0)
  }

  method FindImm12(value: int) returns (r: Option<nat>)
    ensures r == Imm12(value)
  {
    var v := value % 0x1_0000_0000;
    r := None;
    var rot := 0;
    while r.None? && rot < 16
      invariant 0 <= rot <= 16
      invariant Imm12(value) == if r.None? then Smallest(v, rot) else r
      decreases 16 - rot, r.None?
    {
      var imm8 := FindImm8(v, rot);
      if imm8.Some? {
        r := Some(rot * 0x100 + imm8.value);
      } else {
        rot := rot + 1;
      }
    }
  }

  /** The inner loop. */
  method FindImm8(v: nat, rot: nat) returns (r: Option<nat>)
    requires v < 0x1_0000_0000 && rot < 16
    ensures r == if Rol(v, rot * 2) < 0x100 then Some(Rol(v, rot * 2)) else None
  {
    var rotation := rot * 2 % 32;
    ghost var back := Rol(v, rot * 2);
    assert rotation == rot * 2;
    r := None;
    var imm8 := 0;
    while r.None? && imm8 < 0x100
      invariant 0 <= imm8 <= 0x100
      invariant r.None? ==> !(0 <= back < imm8)
      invariant r.Some? ==> imm8 < 0x100 && r.value == imm8 == back
      decreases 0x100 - imm8, r.None?
    {
      OnlyRotation(v, rot, imm8);
      if Rotated(imm8, rotation) == v {
        r := Some(imm8);
      } else {
        imm8 := imm8 + 1;
      }
    }
  }

  lemma {:induction false} SmallestIs(v: nat, rot: nat)
    requires rot <= 16
    ensures var r := Smallest(v, rot);
            && (r.None? <==> forall k :: rot <= k < 16 ==> Rol(v, k * 2) >= 0x100)
            && (r.Some? ==> r.value < 0x1000 && rot <= r.value / 0x100)
            && (r.Some? ==> r.value % 0x100 == Rol(v, r.value / 0x100 * 2))
            && (r.Some? ==> forall k :: rot <= k < r.value / 0x100 ==> Rol(v, k * 2) >= 0x100)
    decreases 16 - rot
  {
    if rot < 16 {
      var imm8 := Rol(v, rot * 2);
      if imm8 >= 0x100 {
        SmallestIs(v, rot + 1);
      } else {
        DivModUnique(rot * 0x100 + imm8, 0x100, rot, imm8);
      }
    }
  }

  /**
   * An encoding that is found decodes to the value, and no other encoding of it has a smaller
   * rotation; one is found for every value that has any.
   */
  lemma Imm12Correct(value: int)
    ensures var v := value % 0x1_0000_0000;
            var r := Imm12(value);
            && (r.Some? ==> r.value < 0x1000 && Decoded(r.value) == v)
            && (r.Some? ==> forall e :: 0 <= e < 0x1000 && Decoded(e) == v ==> r.value / 0x100 <= e / 0x100)
            && (r.None? ==> forall e :: 0 <= e < 0x1000 ==> Decoded(e) != v)
  {
    var v := value % 0x1_0000_0000;
    var r := Imm12(value);
    SmallestIs(v, 0);
    if r.Some? {
      RotatesBack(v, r.value / 0x100 * 2);
      TurnedIsRor(r.value % 0x100, r.value / 0x100 * 2);
    }
    forall e | 0 <= e < 0x1000 && Decoded(e) == v
      ensures r.Some? && r.value / 0x100 <= e / 0x100
    {
      TurnedIsRor(e % 0x100, e / 0x100 * 2);
      RotatesBack(e % 0x100, e / 0x100 * 2);
      assert Rol(v, e / 0x100 * 2) == e % 0x100;
    }
  }
}
