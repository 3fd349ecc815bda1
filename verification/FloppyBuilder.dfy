/** `make_fat12_floppy.py`: files laid out one after the other, and the image around them. */
module FloppyBuilder {
  import opened Common
  import opened Bytes
  import opened Fat12
  import opened Floppy
  import opened FloppyReader

  // ---------- what the image holds ----------

  /** An empty file takes a cluster too. */
  function ClustersOf(bytes: nat): (n: nat)
    ensures 1 <= n && bytes <= n * BPS
    ensures n == 1 || (n - 1) * BPS < bytes
  {
    if (bytes + BPS - 1) / BPS >= 1 then (bytes + BPS - 1) / BPS else 1
  }

  /** The first cluster of file `k`. */
  function Start(files: seq<File>, k: nat): (c: nat)
    requires k <= |files|
    ensures c >= 2 + k
  {
    if k == 0 then 2 else Start(files, k - 1) + ClustersOf(|files[k - 1].data|)
  }

  /** The entry of cluster `c` when the first `k` files are laid out. */
  function Expected(files: seq<File>, k: nat, c: nat): nat
    requires k <= |files|
  {
    if k == 0 then (if c == 0 then 0xFF0 else if c == 1 then 0xFFF else 0)
    else if Start(files, k - 1) <= c < Start(files, k) then (if c + 1 == Start(files, k) then 0xFFF else c + 1)
    else Expected(files, k - 1, c)
  }

  ghost predicate FatIs(fat: seq<Byte>, files: seq<File>, k: nat)
    requires k <= |files|
  {
    |fat| == SEC_PER_FAT * BPS && forall c :: 0 <= c < 3072 ==> Entry(fat, c) == Expected(files, k, c)
  }

  function Padded(data: seq<Byte>): seq<Byte> {
    data + Zeros(ClustersOf(|data|) * BPS - |data|)
  }

  /** The data area: every file fills up its last cluster with zeros. */
  function Flat(files: seq<File>, k: nat): (d: seq<Byte>)
    requires k <= |files|
    ensures |d| == (Start(files, k) - 2) * BPS
  {
    if k == 0 then [] else Flat(files, k - 1) + Padded(files[k - 1].data)
  }

  /** Date and time are those of the build. */
  datatype Stamp = Stamp(time: nat, date: nat)

  function Record(files: seq<File>, k: nat, now: Stamp): (r: seq<Byte>)
    requires k < |files|
    ensures |r| == 32
  {
    Dirent(files[k].name, 0x20, now.time, now.date, Start(files, k), |files[k].data|)
  }

  function Records(files: seq<File>, k: nat, now: Stamp): (r: seq<Byte>)
    requires k <= |files|
    ensures |r| == 32 * k
  {
    if k == 0 then [] else Records(files, k - 1, now) + Record(files, k - 1, now)
  }

  /** The label, the files, and free entries. */
  function RootWith(title: Name, files: seq<File>, k: nat, now: Stamp): (r: seq<Byte>)
    requires k <= |files| && k < ROOT_ENTRIES
    ensures |r| == ROOT_SECTORS * BPS
  {
    Dirent(title, 0x08, now.time, now.date, 0, 0) + Records(files, k, now) + Zeros(32 * (ROOT_ENTRIES - 1 - k))
  }

  const FAT1 := RESERVED_SECTORS * BPS
  const FAT2 := FAT1 + SEC_PER_FAT * BPS
  const ROOT := FAT2 + SEC_PER_FAT * BPS
  const DATA := DATA_START_SEC * BPS

  ghost predicate Image(img: seq<Byte>, boot: seq<Byte>, title: Name, files: seq<File>, now: Stamp)
    requires |files| < ROOT_ENTRIES && Start(files, |files|) <= MAX_CLUSTERS + 2
  {
    && |img| == IMG_BYTES
    && img[..FAT1] == boot
    && FatIs(img[FAT1..FAT2], files, |files|)
    && img[FAT2..ROOT] == img[FAT1..FAT2]
    && img[ROOT..DATA] == RootWith(title, files, |files|, now)
    && img[DATA..] == Flat(files, |files|) + Zeros((MAX_CLUSTERS + 2 - Start(files, |files|)) * BPS)
  }

  /** 2: the clusters run out first; 3: the directory entries do. */
  function ExitCode(files: seq<File>): nat {
    if |files| < ROOT_ENTRIES then (if Start(files, |files|) <= MAX_CLUSTERS + 2 then 0 else 2)
    else if Start(files, ROOT_ENTRIES) <= MAX_CLUSTERS + 2 then 3 else 2
  }

  lemma {:induction false} StartsGrow(files: seq<File>, j: nat, k: nat)
    requires j <= k <= |files|
    ensures Start(files, j) + (k - j) <= Start(files, k)
  {
    if j < k {
      StartsGrow(files, j, k - 1);
    }
  }

  // ---------- the steps of `main` ----------

  lemma EntriesAfter(f: seq<Byte>, c: nat, v: nat)
    requires |f| == SEC_PER_FAT * BPS && c < 3072
    ensures forall d :: 0 <= d < 3072 ==> Entry(WithEntry(f, c, v), d) == if d == c then v % 0x1000 else Entry(f, d)
  {
    forall d | 0 <= d < 3072
      ensures Entry(WithEntry(f, c, v), d) == if d == c then v % 0x1000 else Entry(f, d)
    {
      EntryAfter(f, c, v, d);
    }
  }

  method SetOne(fat: array<Byte>, c: nat, v: nat)
    requires fat.Length == SEC_PER_FAT * BPS && c < 3072 && v < 0x1000
    modifies fat
    ensures forall d :: 0 <= d < 3072 ==> Entry(fat[..], d) == if d == c then v else Entry(old(fat[..]), d)
  {
    EntriesAfter(fat[..], c, v);
    SetFat12Entry(fat, c, v);
  }

  function Chained(fat: seq<Byte>, first: nat, n: nat, d: nat): nat
    requires Position(d) + 1 < |fat|
  {
    if first <= d < first + n then (if d + 1 == first + n then 0xFFF else d + 1) else Entry(fat, d)
  }

  /** Chains the clusters from `first` and ends the chain. */
  method ChainClusters(fat: array<Byte>, first: nat, n: nat)
    requires fat.Length == SEC_PER_FAT * BPS && 1 <= n && first + n <= 3072
    modifies fat
    ensures forall d :: 0 <= d < 3072 ==> Entry(fat[..], d) == Chained(old(fat[..]), first, n, d)
  {
    var c := first;
    while c < first + n - 1
      invariant first <= c <= first + n - 1
      invariant forall d :: 0 <= d < 3072 ==>
                  Entry(fat[..], d) == if first <= d < c then d + 1 else Entry(old(fat[..]), d)
    {
      SetOne(fat, c, c + 1);
      c := c + 1;
    }
    SetOne(fat, c, 0xFFF);
  }

  /** One cluster at a time; the last one may be short. */
  method WriteData(img: array<Byte>, first: nat, data: seq<Byte>)
    requires 2 <= first && DATA + (first - 2 + ClustersOf(|data|)) * BPS <= img.Length
    modifies img
    ensures img[..] == Splice(old(img[..]), DATA + (first - 2) * BPS, data)
  {
    var n := ClustersOf(|data|);
    var i := 0;
    ghost var s := img[..];
    while i < n
      invariant 0 <= i <= n
      invariant img[..] == Splice(s, DATA + (first - 2) * BPS, data[..Upto(data, i)])
    {
      WriteCluster(img, first, data, i, s);
      i := i + 1;
    }
    assert data[..|data|] == data;
  }

  /** Slices stop at the end of the data. */
  function Upto(data: seq<Byte>, i: nat): (n: nat)
    ensures n <= |data|
  {
    if i * BPS < |data| then i * BPS else |data|
  }

  method WriteCluster(img: array<Byte>, first: nat, data: seq<Byte>, i: nat, ghost s: seq<Byte>)
    requires 2 <= first && DATA + (first - 2 + ClustersOf(|data|)) * BPS <= img.Length == |s|
    requires i < ClustersOf(|data|)
    requires img[..] == Splice(s, DATA + (first - 2) * BPS, data[..Upto(data, i)])
    modifies img
    ensures img[..] == Splice(s, DATA + (first - 2) * BPS, data[..Upto(data, i + 1)])
  {
    var c := first + i;
    var lo, hi := Upto(data, i), Upto(data, i + 1);
    Store(img, (DATA_START_SEC + (c - 2)) * BPS, data[lo..hi]);
    SpliceMore(s, DATA + (first - 2) * BPS, data, lo, hi);
  }

  lemma SpliceMore(s: seq<Byte>, off: nat, data: seq<Byte>, lo: nat, hi: nat)
    requires lo <= hi <= |data| && off + hi <= |s|
    ensures Splice(Splice(s, off, data[..lo]), off + lo, data[lo..hi]) == Splice(s, off, data[..hi])
  {
    SpliceTwice(s, off, data[..lo], data[lo..hi]);
    assert data[..lo] + data[lo..hi] == data[..hi];
  }

  /** The image before FATs and root are placed. */
  function DataOnly(boot: seq<Byte>, files: seq<File>, k: nat): (img: seq<Byte>)
    requires |boot| == BPS && k <= |files| && Start(files, k) <= MAX_CLUSTERS + 2
    ensures |img| == IMG_BYTES
  {
    boot + Zeros(DATA - BPS) + Flat(files, k) + Zeros((MAX_CLUSTERS + 2 - Start(files, k)) * BPS)
  }

  /** The free space shrinks by the clusters of the file. */
  lemma RoomLeft(files: seq<File>, k: nat)
    requires k < |files| && Start(files, k + 1) <= MAX_CLUSTERS + 2
    ensures var room, n := (MAX_CLUSTERS + 2 - Start(files, k)) * BPS, ClustersOf(|files[k].data|) * BPS;
            n <= room && room - n == (MAX_CLUSTERS + 2 - Start(files, k + 1)) * BPS
  {
  }

  lemma InsideImage(files: seq<File>, k: nat)
    requires k < |files| && Start(files, k + 1) <= MAX_CLUSTERS + 2
    ensures DATA + (Start(files, k) - 2 + ClustersOf(|files[k].data|)) * BPS <= IMG_BYTES
  {
  }

  /** Laying out one file extends the data area by its padded contents. */
  lemma FlatGrows(boot: seq<Byte>, files: seq<File>, k: nat)
    requires |boot| == BPS && k < |files| && Start(files, k + 1) <= MAX_CLUSTERS + 2
    ensures Splice(DataOnly(boot, files, k), DATA + (Start(files, k) - 2) * BPS, files[k].data)
            == DataOnly(boot, files, k + 1)
  {
    var head := boot + Zeros(DATA - BPS);
    var room, n := (MAX_CLUSTERS + 2 - Start(files, k)) * BPS, ClustersOf(|files[k].data|) * BPS;
    RoomLeft(files, k);
    GrownFlat(head, Flat(files, k), files[k].data, n, room);
    assert Flat(files, k + 1) == Flat(files, k) + Padded(files[k].data);
  }

  lemma GrownFlat(head: seq<Byte>, flat: seq<Byte>, data: seq<Byte>, n: nat, room: nat)
    requires |data| <= n <= room
    ensures Splice(head + flat + Zeros(room), |head| + |flat|, data)
            == head + (flat + (data + Zeros(n - |data|))) + Zeros(room - n)
  {
    Overwrite(head + flat, data, n, room);
    Regrouped(head, flat, data + Zeros(n - |data|), Zeros(room - n));
  }

  lemma Regrouped(a: seq<Byte>, b: seq<Byte>, c: seq<Byte>, d: seq<Byte>)
    ensures a + b + c + d == a + (b + c) + d
  {
    assert a + b + c == a + (b + c);
  }

  lemma RootGrows(title: Name, files: seq<File>, k: nat, now: Stamp)
    requires k < |files| && k + 1 < ROOT_ENTRIES
    ensures var root := RootWith(title, files, k, now);
            && root[32 * (k + 1)..32 * (k + 1) + 32] == Zeros(32)
            && Splice(root, 32 * (k + 1), Record(files, k, now)) == RootWith(title, files, k + 1, now)
  {
    var head := Dirent(title, 0x08, now.time, now.date, 0, 0) + Records(files, k, now);
    var rest := 32 * (ROOT_ENTRIES - 1 - k);
    Overwrite(head, Record(files, k, now), 32, rest);
    assert Record(files, k, now) + Zeros(0) == Record(files, k, now);
    assert head + Record(files, k, now)
        == Dirent(title, 0x08, now.time, now.date, 0, 0) + Records(files, k + 1, now);
    assert Zeros(rest)[..32] == Zeros(32);
  }

  /** What the three buffers hold when the first `k` files are laid out; FATs and root are not in the image yet. */
  ghost predicate Laid(img: seq<Byte>, fat: seq<Byte>, root: seq<Byte>,
                       boot: seq<Byte>, title: Name, files: seq<File>, now: Stamp, k: nat)
    requires |boot| == BPS && k <= |files|
  {
    && Start(files, k) <= MAX_CLUSTERS + 2 && k < ROOT_ENTRIES
    && FatIs(fat, files, k)
    && root == RootWith(title, files, k, now)
    && img == DataOnly(boot, files, k)
  }

  lemma FatGrows(before: seq<Byte>, after: seq<Byte>, files: seq<File>, k: nat)
    requires k < |files| && FatIs(before, files, k) && |after| == |before|
    requires forall d :: 0 <= d < 3072 ==>
               Entry(after, d) == Chained(before, Start(files, k), ClustersOf(|files[k].data|), d)
    ensures FatIs(after, files, k + 1)
  {
  }

  method ChainFile(fat: array<Byte>, files: seq<File>, k: nat)
    requires k < |files| && FatIs(fat[..], files, k) && Start(files, k + 1) <= MAX_CLUSTERS + 2
    modifies fat
    ensures FatIs(fat[..], files, k + 1)
  {
    ghost var before := fat[..];
    ChainClusters(fat, Start(files, k), ClustersOf(|files[k].data|));
    FatGrows(before, fat[..], files, k);
  }

  /** The body of the loop over the files. */
  method LayFile(img: array<Byte>, fat: array<Byte>, root: array<Byte>, ghost boot: seq<Byte>, ghost title: Name,
                 files: seq<File>, now: Stamp, k: nat)
    requires img != fat && img != root && fat != root
    requires |boot| == BPS && k < |files| && Laid(img[..], fat[..], root[..], boot, title, files, now, k)
    requires Start(files, k + 1) <= MAX_CLUSTERS + 2 && k + 1 < ROOT_ENTRIES
    modifies img, fat, root
    ensures Laid(img[..], fat[..], root[..], boot, title, files, now, k + 1)
  {
    ChainFile(fat, files, k);
    CopyFile(img, boot, files, k);
    EnterFile(root, title, files, now, k);
  }

  method CopyFile(img: array<Byte>, ghost boot: seq<Byte>, files: seq<File>, k: nat)
    requires |boot| == BPS && k < |files| && Start(files, k + 1) <= MAX_CLUSTERS + 2
    requires img[..] == DataOnly(boot, files, k)
    modifies img
    ensures img[..] == DataOnly(boot, files, k + 1)
  {
    ghost var s := img[..];
    InsideImage(files, k);
    WriteAt(img, s, Start(files, k), files[k].data);
    FlatGrows(boot, files, k);
  }

  method WriteAt(img: array<Byte>, ghost s: seq<Byte>, first: nat, data: seq<Byte>)
    requires img[..] == s && |s| == IMG_BYTES
    requires 2 <= first && DATA + (first - 2 + ClustersOf(|data|)) * BPS <= IMG_BYTES
    modifies img
    ensures img[..] == Splice(s, DATA + (first - 2) * BPS, data)
  {
    WriteData(img, first, data);
  }

  method EnterFile(root: array<Byte>, ghost title: Name, files: seq<File>, now: Stamp, k: nat)
    requires k < |files| && k + 1 < ROOT_ENTRIES && root[..] == RootWith(title, files, k, now)
    modifies root
    ensures root[..] == RootWith(title, files, k + 1, now)
  {
    RootGrows(title, files, k, now);
    StoreDirent(root, 32 * (k + 1), files[k].name, 0x20, now.time, now.date, Start(files, k), |files[k].data|);
  }

  // ---------- the boot sector ----------

  const GEOMETRY := Bpb(BPS, 1, RESERVED_SECTORS, NUM_FATS, ROOT_ENTRIES, TOTAL_SECTORS, SEC_PER_FAT)

  /** The text `APRPC1.0`. */
  const OEM_NAME: seq<Byte> := [0x41, 0x50, 0x52, 0x50, 0x43, 0x31, 0x2E, 0x30]
  /** The text `FAT12`, padded with spaces. */
  const FILE_SYSTEM: seq<Byte> := [0x46, 0x41, 0x54, 0x31, 0x32, 0x20, 0x20, 0x20]

  /** Bytes 3 to 23: name of the maker and geometry. */
  function FirstFields(): (f: seq<Byte>)
    ensures |f| == 21
  {
    OEM_NAME + Bytes16(BPS) + [1] + Bytes16(RESERVED_SECTORS) + [NUM_FATS] + Bytes16(ROOT_ENTRIES)
    + Bytes16(TOTAL_SECTORS) + [0xF0] + Bytes16(SEC_PER_FAT)
  }

  /** Bytes 24 to 61: tracks, hidden sectors, serial number, label and file system. */
  function LastFields(title: Name): (f: seq<Byte>)
    ensures |f| == 38
  {
    Bytes16(18) + Bytes16(2) + Bytes32(0) + Bytes32(0) + [0, 0, 0x29] + Bytes32(0xCAFEBABE) + title + FILE_SYSTEM
  }

  function BootSector(title: Name, code: seq<Byte>, message: seq<Byte>): (b: seq<Byte>)
    requires |code| <= 0x32 && |message| <= 510 - 0x70
    ensures |b| == BPS
  {
    [0xEB, 0x3C, 0x90] + FirstFields() + LastFields(title) + (code + Zeros(0x32 - |code|))
    + (message + Zeros(510 - 0x70 - |message|)) + [0x55, 0xAA]
  }

  /** `build_boot_sector`, with the program and its message as parameters. */
  method BuildBootSector(title: Name, code: seq<Byte>, message: seq<Byte>) returns (bs: array<Byte>)
    requires |code| <= 0x32 && |message| <= 510 - 0x70
    ensures fresh(bs) && bs[..] == BootSector(title, code, message)
  {
    bs := new Byte[BPS](i => 0);
    ghost var front := [0xEB, 0x3C, 0x90] + FirstFields() + LastFields(title);
    StoreFields(bs, title);
    StorePadded(bs, front, 0x3E, code, 0x32, 450);
    ghost var middle := front + (code + Zeros(0x32 - |code|));
    StorePadded(bs, middle, 0x70, message, 398, 400);
    ghost var most := middle + (message + Zeros(398 - |message|));
    StoreEnd(bs, most, 510, [0x55, 0xAA]);
  }

  method StorePadded(bs: array<Byte>, ghost a: seq<Byte>, off: nat, b: seq<Byte>, ghost n: nat, ghost m: nat)
    requires |b| <= n <= m && |a| == off && bs[..] == a + Zeros(m)
    modifies bs
    ensures bs[..] == a + (b + Zeros(n - |b|)) + Zeros(m - n)
  {
    Overwrite(a, b, n, m);
    Store(bs, off, b);
  }

  method StoreEnd(bs: array<Byte>, ghost a: seq<Byte>, off: nat, b: seq<Byte>)
    requires |a| == off && bs[..] == a + Zeros(|b|)
    modifies bs
    ensures bs[..] == a + b
  {
    StorePadded(bs, a, off, b, |b|, |b|);
  }

  method StoreFields(bs: array<Byte>, title: Name)
    requires bs.Length == BPS && bs[..] == Zeros(BPS)
    modifies bs
    ensures bs[..] == [0xEB, 0x3C, 0x90] + FirstFields() + LastFields(title) + Zeros(450)
  {
    ghost var z := bs[..];
    Store(bs, 0, [0xEB, 0x3C, 0x90]);
    Store(bs, 3, FirstFields());
    SpliceTwice(z, 0, [0xEB, 0x3C, 0x90], FirstFields());
    Store(bs, 24, LastFields(title));
    SpliceTwice(z, 0, [0xEB, 0x3C, 0x90] + FirstFields(), LastFields(title));
  }

  /** A reader finds the geometry in the sector. */
  lemma BootGeometry(title: Name, code: seq<Byte>, message: seq<Byte>)
    requires |code| <= 0x32 && |message| <= 510 - 0x70
    ensures ReadBpb(BootSector(title, code, message)) == GEOMETRY
  {
    var b := BootSector(title, code, message);
    assert b[3..24] == FirstFields();
    assert forall i :: 3 <= i < 24 ==> b[i] == FirstFields()[i - 3];
  }

  // ---------- the whole program ----------

  /** Entries 0 and 1 are reserved. */
  method NewFat() returns (fat: array<Byte>)
    ensures fresh(fat) && FatIs(fat[..], [], 0)
  {
    fat := new Byte[SEC_PER_FAT * BPS](i => 0);
    forall d | 0 <= d < 3072
      ensures Entry(fat[..], d) == 0
    {
      EntryBytes(fat[..], d);
    }
    SetOne(fat, 0, 0xF00 + 0xF0);
    SetOne(fat, 1, 0xFFF);
  }

  method NewRoot(title: Name, now: Stamp) returns (root: array<Byte>)
    ensures fresh(root) && root[..] == RootWith(title, [], 0, now)
  {
    root := new Byte[ROOT_SECTORS * BPS](i => 0);
    assert root[0..32] == Zeros(32);
    StoreDirent(root, 0, title, 0x08, now.time, now.date, 0, 0);
  }

  /** FATs and root go into the space the files left free. */
  method Place(img: array<Byte>, fat: array<Byte>, root: array<Byte>, ghost boot: seq<Byte>, ghost data: seq<Byte>)
    requires img != fat && img != root
    requires |boot| == BPS && fat.Length == SEC_PER_FAT * BPS && root.Length == ROOT_SECTORS * BPS
    requires img[..] == boot + Zeros(DATA - BPS) + data
    modifies img
    ensures img[..] == boot + (fat[..] + fat[..] + root[..]) + data
  {
    ghost var z := Zeros(DATA - BPS);
    ghost var s := boot + z + data;
    Store(img, FAT1, fat[..]);
    Store(img, FAT2, fat[..]);
    SpliceTwice(s, FAT1, fat[..], fat[..]);
    Store(img, ROOT, root[..]);
    SpliceTwice(s, FAT1, fat[..] + fat[..], root[..]);
    SpliceMiddle(boot, z, data, fat[..] + fat[..] + root[..]);
  }

  lemma SpliceMiddle(a: seq<Byte>, z: seq<Byte>, c: seq<Byte>, b: seq<Byte>)
    requires |b| == |z|
    ensures Splice(a + z + c, |a|, b) == a + b + c
  {
  }

  /** The slices of an image put together from its regions. */
  lemma Regions(boot: seq<Byte>, fat: seq<Byte>, root: seq<Byte>, data: seq<Byte>)
    requires |boot| == BPS && |fat| == SEC_PER_FAT * BPS && |root| == ROOT_SECTORS * BPS
    ensures var img := boot + (fat + fat + root) + data;
            && img[..FAT1] == boot && img[FAT1..FAT2] == fat && img[FAT2..ROOT] == fat
            && img[ROOT..DATA] == root && img[DATA..] == data
  {
  }

  /** The loop over the files, up to the first one that does not fit. */
  method LayFiles(img: array<Byte>, fat: array<Byte>, root: array<Byte>, ghost boot: seq<Byte>, ghost title: Name,
                  files: seq<File>, now: Stamp) returns (code: nat)
    requires img != fat && img != root && fat != root
    requires |boot| == BPS && Laid(img[..], fat[..], root[..], boot, title, files, now, 0)
    modifies img, fat, root
    ensures code == ExitCode(files)
    ensures code == 0 ==> Laid(img[..], fat[..], root[..], boot, title, files, now, |files|)
  {
    code := 0;
    var k := 0;
    while code == 0 && k < |files|
      invariant 0 <= k <= |files|
      invariant Laid(img[..], fat[..], root[..], boot, title, files, now, k)
      invariant code != 0 ==> code == ExitCode(files)
      decreases |files| - k, code == 0
    {
      code := Verdict(files, k);
      if code == 0 {
        LayFile(img, fat, root, boot, title, files, now, k);
        k := k + 1;
      }
    }
  }

  /** The two tests in front of a file. */
  method Verdict(files: seq<File>, k: nat) returns (code: nat)
    requires k < |files| && k < ROOT_ENTRIES && Start(files, k) <= MAX_CLUSTERS + 2
    ensures code == 0 <==> Start(files, k + 1) <= MAX_CLUSTERS + 2 && k + 1 < ROOT_ENTRIES
    ensures code != 0 ==> code == ExitCode(files)
  {
    if Start(files, k) + ClustersOf(|files[k].data|) - 1 > MAX_CLUSTERS + 1 {
      StartsGrow(files, k + 1, if |files| < ROOT_ENTRIES then |files| else ROOT_ENTRIES);
      code := 2;
    } else if k + 1 >= ROOT_ENTRIES {
      code := 3;
    } else {
      code := 0;
    }
  }

  /** A fresh image with the boot sector in place. */
  method NewImage(boot: seq<Byte>) returns (img: array<Byte>)
    requires |boot| == BPS
    ensures fresh(img) && img[..] == boot + Zeros(DATA - BPS) + [] + Zeros(MAX_CLUSTERS * BPS)
  {
    img := new Byte[IMG_BYTES](i => 0);
    Store(img, 0, boot);
  }

  method Build(boot: seq<Byte>, title: Name, files: seq<File>, now: Stamp) returns (code: nat, img: array<Byte>)
    requires |boot| == BPS
    ensures code == ExitCode(files)
    ensures code == 0 ==> Image(img[..], boot, title, files, now)
  {
    img := NewImage(boot);
    var fat := NewFat();
    var root := NewRoot(title, now);
    code := LayFiles(img, fat, root, boot, title, files, now);
    if code == 0 {
      Finish(img, fat, root, boot, title, files, now);
    }
  }

  method Finish(img: array<Byte>, fat: array<Byte>, root: array<Byte>, ghost boot: seq<Byte>, ghost title: Name,
                ghost files: seq<File>, ghost now: Stamp)
    requires img != fat && img != root
    requires |boot| == BPS && Laid(img[..], fat[..], root[..], boot, title, files, now, |files|)
    modifies img
    ensures Image(img[..], boot, title, files, now)
  {
    ghost var data := Flat(files, |files|) + Zeros((MAX_CLUSTERS + 2 - Start(files, |files|)) * BPS);
    assert img[..] == boot + Zeros(DATA - BPS) + data;
    Place(img, fat, root, boot, data);
    Regions(boot, fat[..], root[..], data);
  }
}
