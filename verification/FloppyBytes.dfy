/** The bytes of a floppy image, at the offsets and with the values of a 1.44 MB disk. */
module FloppyBytes {
  import opened Common
  import opened Bytes
  import opened Fat12
  import opened Floppy
  import opened FloppyBuilder
  import opened FloppyRoundTrip

  // ---------- directory entries ----------

  /** The low byte first. */
  ghost predicate WordIs(s: seq<Byte>, i: nat, v: nat) {
    i + 2 <= |s| && s[i] as nat == v % 0x100 && s[i + 1] as nat == v / 0x100 % 0x100
  }

  /** The fields of the entry at `off`. */
  ghost predicate EntryIs(s: seq<Byte>, off: nat, name: Name, attr: Byte, now: Stamp, cluster: nat, size: nat) {
    && off + 32 <= |s|
    && s[off..off + 11] == name && s[off + 11] == attr && (forall i :: off + 12 <= i < off + 22 ==> s[i] == 0)
    && WordIs(s, off + 22, now.time) && WordIs(s, off + 24, now.date) && WordIs(s, off + 26, cluster)
    && WordIs(s, off + 28, size) && WordIs(s, off + 30, size / 0x1_0000)
  }

  lemma DirentBytes(name: Name, attr: Byte, now: Stamp, cluster: nat, size: nat)
    ensures EntryIs(Dirent(name, attr, now.time, now.date, cluster, size), 0, name, attr, now, cluster, size)
  {
  }

  lemma EntryMoves(d: seq<Byte>, s: seq<Byte>, off: nat, name: Name, attr: Byte, now: Stamp, cluster: nat, size: nat)
    requires EntryIs(d, 0, name, attr, now, cluster, size)
    requires |d| == 32 && off + 32 <= |s| && s[off..off + 32] == d
    ensures EntryIs(s, off, name, attr, now, cluster, size)
  {
    assert s[off..off + 11] == s[off..off + 32][..11];
    assert forall i :: 0 <= i < 32 ==> s[off + i] == d[i];
    assert s[off + 11] == d[11] && s[off + 22] == d[22] && s[off + 23] == d[23];
    forall i | off + 12 <= i < off + 22
      ensures s[i] == 0
    {
      assert s[off + (i - off)] == d[i - off];
    }
  }

  // ---------- the image ----------

  /** Clusters are counted from 2; a file takes the least number of 512 bytes, but one at least. */
  lemma StartsAre(files: seq<File>, k: nat, n: nat)
    requires k < |files|
    ensures Start(files, 0) == 2
    ensures var taken := Start(files, k + 1) - Start(files, k);
            && 1 <= taken && |files[k].data| <= 512 * taken
            && (1 <= n && |files[k].data| <= 512 * n ==> taken <= n)
  {
  }

  /** 2: some file does not fit in the 2847 clusters; 3: not that, but there are more than 223 files. */
  lemma ExitCodes(files: seq<File>)
    ensures ExitCode(files) == 0 <==> |files| <= 223 && Start(files, |files|) <= 2849
    ensures ExitCode(files) == 2 <==> exists k :: 0 <= k <= |files| && k <= 224 && Start(files, k) > 2849
    ensures ExitCode(files) == 3 <==> |files| >= 224 && Start(files, 224) <= 2849
  {
    var n := if |files| < 224 then |files| else 224;
    assert ExitCode(files) == 2 <==> Start(files, n) > 2849;
    forall k | 0 <= k <= n
      ensures Start(files, k) <= Start(files, n)
    {
      StartsGrow(files, k, n);
    }
  }

  /** The regions, by their offsets: two equal FATs, which begin with the media byte. */
  lemma ImageRegions(img: seq<Byte>, boot: seq<Byte>, title: Name, files: seq<File>, now: Stamp)
    requires ExitCode(files) == 0 && Image(img, boot, title, files, now)
    ensures |img| == 1474560 && img[..512] == boot && img[512..5120] == img[5120..9728]
    ensures img[512] == 0xF0 && img[513] == 0xFF && img[514] == 0xFF
  {
    var fat := img[512..5120];
    FirstEntries(files, |files|);
    EntryBytes(fat, 0);
    EntryBytes(fat, 1);
    assert img[512] == fat[0] && img[513] == fat[1] && img[514] == fat[2];
  }

  lemma {:induction false} FirstEntries(files: seq<File>, k: nat)
    requires k <= |files|
    ensures Expected(files, k, 0) == 0xFF0 && Expected(files, k, 1) == 0xFFF
  {
    if k > 0 {
      FirstEntries(files, k - 1);
    }
  }

  /** Entry `j` of the root directory, at `off`: the label, then the files in order, then free entries. */
  lemma ImageDirectory(img: seq<Byte>, boot: seq<Byte>, title: Name, files: seq<File>, now: Stamp, j: nat, off: nat)
    requires ExitCode(files) == 0 && Image(img, boot, title, files, now)
    requires j < 224 && off == 9728 + 32 * j
    ensures j == 0 ==> EntryIs(img, off, title, 0x08, now, 0, 0)
    ensures 0 < j <= |files| ==>
              EntryIs(img, off, files[j - 1].name, 0x20, now, Start(files, j - 1), |files[j - 1].data|)
    ensures |files| < j ==> forall i :: off <= i < off + 32 ==> img[i] == 0
  {
    var root := img[9728..16896];
    if j == 0 {
      LabelEntry(img, root, title, files, now);
    } else if j <= |files| {
      FileEntry(img, root, title, files, now, j, off);
    } else {
      FreeEntries(img, root, title, files, now, j);
    }
  }

  lemma LabelEntry(img: seq<Byte>, root: seq<Byte>, title: Name, files: seq<File>, now: Stamp)
    requires |img| == 1474560 && root == img[9728..16896] && |files| < 224
    requires root == RootWith(title, files, |files|, now)
    ensures EntryIs(img, 9728, title, 0x08, now, 0, 0)
  {
    assert root[0..32] == Dirent(title, 0x08, now.time, now.date, 0, 0);
    EntryIn(img, root, 0, title, 0x08, now, 0, 0);
  }

  lemma FileEntry(img: seq<Byte>, root: seq<Byte>, title: Name, files: seq<File>, now: Stamp, j: nat, off: nat)
    requires |img| == 1474560 && root == img[9728..16896] && |files| < 224
    requires 0 < j <= |files| && off == 9728 + 32 * j
    requires root == RootWith(title, files, |files|, now)
    ensures EntryIs(img, off, files[j - 1].name, 0x20, now, Start(files, j - 1), |files[j - 1].data|)
  {
    RootSlice(root, title, files, now, j - 1, off - 9728);
    EntryIn(img, root, off - 9728, files[j - 1].name, 0x20, now, Start(files, j - 1), |files[j - 1].data|);
  }

  lemma RootSlice(root: seq<Byte>, title: Name, files: seq<File>, now: Stamp, j: nat, off: nat)
    requires |files| < 224 && j < |files| && root == RootWith(title, files, |files|, now) && off == 32 * (j + 1)
    ensures root[off..off + 32]
            == Dirent(files[j].name, 0x20, now.time, now.date, Start(files, j), |files[j].data|)
  {
    RootAt(title, files, |files|, now, j);
  }

  lemma EntryIn(img: seq<Byte>, root: seq<Byte>, off: nat, name: Name, attr: Byte, now: Stamp, cluster: nat, size: nat)
    requires |img| == 1474560 && root == img[9728..16896] && off + 32 <= 7168
    requires root[off..off + 32] == Dirent(name, attr, now.time, now.date, cluster, size)
    ensures EntryIs(img, 9728 + off, name, attr, now, cluster, size)
  {
    DirentBytes(name, attr, now, cluster, size);
    SliceOfSlice(img, 9728, 16896, off, 32);
    EntryMoves(root[off..off + 32], img, 9728 + off, name, attr, now, cluster, size);
  }

  lemma SliceOfSlice(s: seq<Byte>, lo: nat, hi: nat, off: nat, n: nat)
    requires lo <= hi <= |s| && lo + off + n <= hi
    ensures s[lo + off..lo + off + n] == s[lo..hi][off..off + n]
  {
    var a, b := s[lo + off..lo + off + n], s[lo..hi][off..off + n];
    forall i | 0 <= i < n
      ensures a[i] == b[i]
    {
      assert a[i] == s[lo + off + i] == s[lo..hi][off + i];
    }
  }

  lemma FreeEntries(img: seq<Byte>, root: seq<Byte>, title: Name, files: seq<File>, now: Stamp, j: nat)
    requires |img| == 1474560 && root == img[9728..16896] && |files| < j < 224
    requires root == RootWith(title, files, |files|, now)
    ensures forall i :: 9728 + 32 * j <= i < 9728 + 32 * j + 32 ==> img[i] == 0
  {
    var head := Dirent(title, 0x08, now.time, now.date, 0, 0) + Records(files, |files|, now);
    forall i | 9728 + 32 * j <= i < 9728 + 32 * j + 32
      ensures img[i] == 0
    {
      assert img[i] == root[i - 9728] == Zeros(32 * (223 - |files|))[i - 9728 - |head|];
    }
  }

  /** The contents of file `j` stand in its clusters, each of 512 bytes, from 16896 on. */
  lemma ImageContents(img: seq<Byte>, boot: seq<Byte>, title: Name, files: seq<File>, now: Stamp, j: nat)
    requires ExitCode(files) == 0 && Image(img, boot, title, files, now) && j < |files|
    ensures var off := 16896 + (Start(files, j) - 2) * 512;
            off + |files[j].data| <= |img| && img[off..off + |files[j].data|] == files[j].data
  {
    ImageData(img, boot, title, files, now);
    FileStands(img[16896..], files, j);
    HoldsBehind16896(img, (Start(files, j) - 2) * 512, files[j].data);
  }

  lemma ImageData(img: seq<Byte>, boot: seq<Byte>, title: Name, files: seq<File>, now: Stamp)
    requires ExitCode(files) == 0 && Image(img, boot, title, files, now)
    ensures |img| == 1474560 && DataIs(img[16896..], files)
  {
  }

  lemma HoldsBehind16896(img: seq<Byte>, off: nat, d: seq<Byte>)
    requires |img| >= 16896 && Holds(img[16896..], off, d)
    ensures 16896 + off + |d| <= |img| && img[16896 + off..16896 + off + |d|] == d
  {
    SliceOfSlice(img, 16896, |img|, off, |d|);
  }

  // ---------- the boot sector ----------

  /** The bytes up to the geometry, and from there to the label. */
  const BOOT_FIRST: seq<Byte> := [
    0xEB, 0x3C, 0x90, 0x41, 0x50, 0x52, 0x50, 0x43, 0x31, 0x2E, 0x30, 0x00, 0x02, 0x01, 0x01, 0x00, 0x02, 0xE0, 0x00,
    0x40, 0x0B, 0xF0, 0x09, 0x00]
  const BOOT_LAST: seq<Byte> := [
    0x12, 0x00, 0x02, 0x00, 0x00, 0x00, 0x00, 0x00, 0x00, 0x00, 0x00, 0x00, 0x00, 0x00, 0x29, 0xBE, 0xBA, 0xFE, 0xCA]

  lemma FieldsAre(title: Name)
    ensures [0xEB, 0x3C, 0x90] + FirstFields() + LastFields(title)
            == BOOT_FIRST + BOOT_LAST + title + [0x46, 0x41, 0x54, 0x31, 0x32, 0x20, 0x20, 0x20]
  {
    FirstAre();
    LastAre(title);
  }

  lemma FirstAre()
    ensures [0xEB, 0x3C, 0x90] + FirstFields() == BOOT_FIRST
  {
    assert Bytes16(512) == [0x00, 0x02] && Bytes16(1) == [0x01, 0x00] && Bytes16(224) == [0xE0, 0x00];
    assert Bytes16(2880) == [0x40, 0x0B] && Bytes16(9) == [0x09, 0x00];
  }

  lemma LastAre(title: Name)
    ensures LastFields(title) == BOOT_LAST + title + [0x46, 0x41, 0x54, 0x31, 0x32, 0x20, 0x20, 0x20]
  {
    assert Bytes32(0xCAFEBABE) == [0xBE, 0xBA, 0xFE, 0xCA];
    assert Bytes32(0) == [0, 0, 0, 0];
  }

  lemma BootBytes(title: Name, code: seq<Byte>, message: seq<Byte>)
    requires |code| <= 0x32 && |message| <= 510 - 0x70
    ensures var b := BootSector(title, code, message);
            && |b| == 512 && b[..43] == BOOT_FIRST + BOOT_LAST && b[43..54] == title
            && b[54..62] == [0x46, 0x41, 0x54, 0x31, 0x32, 0x20, 0x20, 0x20]
            && b[0x3E..0x3E + |code|] == code && b[0x70..0x70 + |message|] == message
            && (forall i :: 0x3E + |code| <= i < 0x70 || 0x70 + |message| <= i < 510 ==> b[i] == 0)
            && b[510] == 0x55 && b[511] == 0xAA
  {
    var b := BootSector(title, code, message);
    var f := BOOT_FIRST + BOOT_LAST + title + [0x46, 0x41, 0x54, 0x31, 0x32, 0x20, 0x20, 0x20];
    FieldsAre(title);
    BootParts(f, code, message);
  }

  lemma BootParts(f: seq<Byte>, code: seq<Byte>, message: seq<Byte>)
    requires |f| == 0x3E && |code| <= 0x32 && |message| <= 510 - 0x70
    ensures var b := f + (code + Zeros(0x32 - |code|)) + (message + Zeros(510 - 0x70 - |message|)) + [0x55, 0xAA];
            && |b| == 512 && b[..43] == f[..43] && b[43..54] == f[43..54] && b[54..62] == f[54..62]
            && b[0x3E..0x3E + |code|] == code && b[0x70..0x70 + |message|] == message
            && (forall i :: 0x3E + |code| <= i < 0x70 || 0x70 + |message| <= i < 510 ==> b[i] == 0)
            && b[510] == 0x55 && b[511] == 0xAA
  {
  }
}
