/** 12-bit entries packed two to three bytes. */
module Fat12 {
  import opened Common
  import opened Bytes

  /** First of the two bytes holding the entry of `c`. */
  function Position(c: nat): nat {
    c * 3 / 2
  }

  /** The entry as the FAT specification reads it (FAT Data Structure). */
  function Entry(f: seq<Byte>, c: nat): (v: nat)
    requires Position(c) + 1 < |f|
  {
    var word := Le16(f, Position(c));
    if c % 2 == 1 then word / 0x10 else word % 0x1000
  }

  /** The masks and shifts of the source, as quotients and remainders. */
  function WithEntry(f: seq<Byte>, c: nat, v: nat): (r: seq<Byte>)
    requires Position(c) + 1 < |f|
    ensures |r| == |f|
  {
    var p := Position(c);
    if c % 2 == 1
    then f[p := f[p] % 0x10 + v % 0x10 * 0x10][p + 1 := v / 0x10 % 0x100]
    else f[p := v % 0x100][p + 1 := f[p + 1] / 0x10 * 0x10 + v / 0x100 % 0x10]
  }

  method SetFat12Entry(fat: array<Byte>, cluster: nat, value: nat)
    requires Position(cluster) + 1 < fat.Length
    modifies fat
    ensures fat[..] == WithEntry(old(fat[..]), cluster, value)
  {
    var bytePos := cluster * 3 / 2;
    if cluster % 2 == 1 {
      fat[bytePos] := fat[bytePos] % 0x10 + value % 0x10 * 0x10;
      fat[bytePos + 1] := value / 0x10 % 0x100;
    } else {
      fat[bytePos] := value % 0x100;
      fat[bytePos + 1] := fat[bytePos + 1] / 0x10 * 0x10 + value / 0x100 % 0x10;
    }
  }

  /** Entries by the bytes and half bytes they occupy. */
  lemma EntryBytes(f: seq<Byte>, c: nat)
    requires Position(c) + 1 < |f|
    ensures c % 2 == 1 ==> Entry(f, c) == f[Position(c)] as nat / 0x10 + 0x10 * f[Position(c) + 1] as nat
    ensures c % 2 == 0 ==> Entry(f, c) == f[Position(c)] as nat + 0x100 * (f[Position(c) + 1] as nat % 0x10)
  {
    WordParts(f[Position(c)], f[Position(c) + 1]);
  }

  lemma WordParts(a: int, b: int)
    requires 0 <= a < 0x100 && 0 <= b
    ensures (a + 0x100 * b) / 0x10 == a / 0x10 + 0x10 * b
    ensures (a + 0x100 * b) % 0x1000 == a + 0x100 * (b % 0x10)
  {
    DivModUnique(a + 0x100 * b, 0x10, a / 0x10 + 0x10 * b, a % 0x10);
    DivModUnique(a + 0x100 * b, 0x1000, b / 0x10, a + 0x100 * (b % 0x10));
  }

  lemma HalfBytes(x: Byte, y: nat)
    requires y < 0x10
    ensures (x % 0x10 + y * 0x10) / 0x10 == y && (x % 0x10 + y * 0x10) % 0x10 == x % 0x10
    ensures (x / 0x10 * 0x10 + y) / 0x10 == x / 0x10 && (x / 0x10 * 0x10 + y) % 0x10 == y
  {
  }

  lemma SplitValue(v: nat)
    ensures v % 0x100 + 0x100 * (v / 0x100 % 0x10) == v % 0x1000
    ensures v % 0x10 + 0x10 * (v / 0x10 % 0x100) == v % 0x1000
  {
    var a, b := v % 0x100, v / 0x100;
    DivModUnique(v, 0x1000, b / 0x10, a + 0x100 * (b % 0x10));
    var x, y := v % 0x10, v / 0x10;
    DivModUnique(v, 0x1000, y / 0x100, x + 0x10 * (y % 0x100));
  }

  lemma PositionIs(c: nat)
    ensures Position(c) == c + c / 2
  {
    DivModUnique(c * 3, 2, c + c / 2, c % 2);
  }

  lemma Positions(c: nat, d: nat)
    ensures c < d ==> Position(c) < Position(d)
    ensures c < d && (c % 2 == 1 || c + 1 < d) ==> Position(c) + 1 < Position(d)
    ensures c + 1 == d && c % 2 == 0 ==> Position(c) + 1 == Position(d)
  {
    PositionIs(c);
    PositionIs(d);
  }

  /** The entry reads back, and every other one, also the one sharing a byte, is unchanged. */
  lemma EntryAfter(f: seq<Byte>, c: nat, v: nat, d: nat)
    requires Position(c) + 1 < |f| && Position(d) + 1 < |f|
    ensures Entry(WithEntry(f, c, v), d) == if d == c then v % 0x1000 else Entry(f, d)
  {
    if d == c {
      EntrySame(f, c, v);
    } else {
      EntryOther(f, c, v, d);
    }
  }

  lemma EntrySame(f: seq<Byte>, c: nat, v: nat)
    requires Position(c) + 1 < |f|
    ensures Entry(WithEntry(f, c, v), c) == v % 0x1000
  {
    EntryBytes(WithEntry(f, c, v), c);
    SplitValue(v);
    HalfBytes(f[Position(c)], v % 0x10);
    HalfBytes(f[Position(c) + 1], v / 0x100 % 0x10);
  }

  lemma EntryOther(f: seq<Byte>, c: nat, v: nat, d: nat)
    requires Position(c) + 1 < |f| && Position(d) + 1 < |f| && c != d
    ensures Entry(WithEntry(f, c, v), d) == Entry(f, d)
  {
    EntryBytes(f, d);
    EntryBytes(WithEntry(f, c, v), d);
    Positions(c, d);
    Positions(d, c);
    if c % 2 == 1 {
      HalfBytes(f[Position(c)], v % 0x10);
    } else {
      HalfBytes(f[Position(c) + 1], v / 0x100 % 0x10);
    }
  }

  /** Any sequence of writes: a table with the last value written to each entry. */
  function Table(f: seq<Byte>, w: seq<(nat, nat)>): (r: seq<Byte>)
    requires forall i :: 0 <= i < |w| ==> Position(w[i].0) + 1 < |f|
    ensures |r| == |f|
  {
    if w == [] then f else WithEntry(Table(f, w[..|w| - 1]), w[|w| - 1].0, w[|w| - 1].1)
  }

  function Last(w: seq<(nat, nat)>, d: nat, v: nat): nat {
    if w == [] then v else if w[|w| - 1].0 == d then w[|w| - 1].1 % 0x1000 else Last(w[..|w| - 1], d, v)
  }

  lemma {:induction false} TableIsMap(f: seq<Byte>, w: seq<(nat, nat)>, d: nat)
    requires forall i :: 0 <= i < |w| ==> Position(w[i].0) + 1 < |f|
    requires Position(d) + 1 < |f|
    ensures Entry(Table(f, w), d) == Last(w, d, Entry(f, d))
  {
    if w != [] {
      TableIsMap(f, w[..|w| - 1], d);
      EntryAfter(Table(f, w[..|w| - 1]), w[|w| - 1].0, w[|w| - 1].1, d);
    }
  }
}
