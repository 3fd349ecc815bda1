/** The regions of a 1.44 MB floppy image and the ways their bytes are written. */
module Floppy {
  import opened Common
  import opened Bytes

  const BPS := 512
  const RESERVED_SECTORS := 1
  const NUM_FATS := 2
  const ROOT_ENTRIES := 224
  const TOTAL_SECTORS := 2880
  const SEC_PER_FAT := 9
  const ROOT_SECTORS := ROOT_ENTRIES * 32 / BPS
  const DATA_START_SEC := RESERVED_SECTORS + NUM_FATS * SEC_PER_FAT + ROOT_SECTORS
  const MAX_CLUSTERS := TOTAL_SECTORS - DATA_START_SEC
  const IMG_BYTES := TOTAL_SECTORS * BPS

  /** An 8.3 name without the dot. */
  type Name = n: seq<Byte> | |n| == 11 witness [0, 0, 0, 0, 0, 0, 0, 0, 0, 0, 0]

  datatype File = File(name: Name, data: seq<Byte>)

  // ---------- directory entries ----------

  /** The 32 bytes of a directory entry (FAT Directory Structure). */
  function Dirent(name: Name, attr: Byte, time: nat, date: nat, cluster: nat, size: nat): (d: seq<Byte>)
    ensures |d| == 32
  {
    name + [attr] + Zeros(10) + Bytes16(time) + Bytes16(date) + Bytes16(cluster) + Bytes32(size)
  }

  method StoreDirent(root: array<Byte>, off: nat, name: Name, attr: Byte, time: nat, date: nat, cluster: nat, size: nat)
    requires off + 32 <= root.Length && root[off..off + 32] == Zeros(32)
    modifies root
    ensures root[..] == Splice(old(root[..]), off, Dirent(name, attr, time, date, cluster, size))
  {
    ghost var s := root[..];
    StoreHead(root, off, name, attr);
    ghost var head := name + [attr];
    ZerosBehind(s, off, 12, 10);
    SkipZeros(s, off, head, 10, Bytes16(time));
    Store(root, off + 22, Bytes16(time));
    ghost var timed := head + Zeros(10) + Bytes16(time);
    Store(root, off + 24, Bytes16(date));
    SpliceTwice(s, off, timed, Bytes16(date));
    Store(root, off + 26, Bytes16(cluster));
    SpliceTwice(s, off, timed + Bytes16(date), Bytes16(cluster));
    Store(root, off + 28, Bytes32(size));
    SpliceTwice(s, off, timed + Bytes16(date) + Bytes16(cluster), Bytes32(size));
  }

  /** The name and the attribute byte behind it. */
  method StoreHead(root: array<Byte>, off: nat, name: Name, attr: Byte)
    requires off + 32 <= root.Length
    modifies root
    ensures root[..] == Splice(old(root[..]), off, name + [attr])
  {
    ghost var s := root[..];
    Store(root, off, name);
    Store(root, off + 11, [attr]);
    SpliceTwice(s, off, name, [attr]);
  }

  lemma ZerosBehind(s: seq<Byte>, off: nat, lo: nat, n: nat)
    requires lo + n <= 32 && off + 32 <= |s| && s[off..off + 32] == Zeros(32)
    ensures forall x :: off + lo <= x < off + lo + n ==> s[x] == 0
  {
    forall x | off + lo <= x < off + lo + n
      ensures s[x] == 0
    {
      assert s[x] == s[off..off + 32][x - off];
    }
  }
}
