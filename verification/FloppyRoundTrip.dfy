/** The reader gets back the files the builder was given. */
module FloppyRoundTrip {
  import opened Common
  import opened Bytes
  import opened Fat12
  import opened Floppy
  import opened FloppyBuilder
  import opened FloppyReader

  const LAST := MAX_CLUSTERS + 1

  // ---------- chains ----------

  lemma {:induction false} ExpectedInside(files: seq<File>, n: nat, j: nat, c: nat)
    requires j < n <= |files| && Start(files, j) <= c < Start(files, j + 1)
    ensures Expected(files, n, c) == if c + 1 == Start(files, j + 1) then 0xFFF else c + 1
  {
    if j < n - 1 {
      StartsGrow(files, j + 1, n - 1);
      ExpectedInside(files, n - 1, j, c);
    }
  }

  /** The clusters behind the last file are free. */
  lemma {:induction false} FreeBehind(files: seq<File>, n: nat, c: nat)
    requires n <= |files| && Start(files, n) <= c
    ensures Expected(files, n, c) == 0
  {
    if n > 0 {
      FreeBehind(files, n - 1, c);
    }
  }

  function Range(a: nat, b: nat): (r: seq<nat>)
    requires a <= b
    ensures |r| == b - a
  {
    seq(b - a, i => a + i)
  }

  /** The entry of a cluster of file `j`. */
  lemma NextOf(fat: seq<Byte>, files: seq<File>, j: nat, c: nat)
    requires FatIs(fat, files, |files|) && Start(files, |files|) <= LAST + 1
    requires j < |files| && Start(files, j) <= c < Start(files, j + 1)
    ensures 2 <= c <= LAST && Position(c) + 1 < |fat|
    ensures Entry(fat, c) == if c + 1 == Start(files, j + 1) then 0xFFF else c + 1
  {
    StartsGrow(files, j + 1, |files|);
    ExpectedInside(files, |files|, j, c);
  }

  /** Every cluster from `first` on leads to the next one, and the one before `next` ends the chain. */
  ghost predicate Linked(fat: seq<Byte>, first: nat, next: nat) {
    forall c: nat :: first <= c < next ==> IsLink(fat, c, next)
  }

  predicate IsLink(fat: seq<Byte>, c: nat, next: nat) {
    2 <= c <= LAST && Position(c) + 1 < |fat| && Entry(fat, c) == if c + 1 == next then 0xFFF else c + 1
  }

  /** From any cluster of file `j`, the chain is the rest of its clusters. */
  lemma ChainIs(fat: seq<Byte>, files: seq<File>, j: nat, c: nat, fuel: nat)
    requires FatIs(fat, files, |files|) && Start(files, |files|) <= LAST + 1
    requires j < |files| && Start(files, j) <= c < Start(files, j + 1)
    requires Start(files, j + 1) - c <= fuel
    ensures Chain(fat, LAST, c, fuel) == Some(Range(c, Start(files, j + 1)))
  {
    var first, next := Start(files, j), Start(files, j + 1);
    forall d | first <= d < next
      ensures IsLink(fat, d, next)
    {
      NextOf(fat, files, j, d);
    }
    ChainLinked(fat, first, next, c, fuel);
  }

  lemma {:induction false} ChainLinked(fat: seq<Byte>, first: nat, next: nat, c: nat, fuel: nat)
    requires Linked(fat, first, next) && first <= c < next && next - c <= fuel
    ensures Chain(fat, LAST, c, fuel) == Some(Range(c, next))
    decreases fuel
  {
    assert IsLink(fat, c, next);
    if c + 1 < next {
      ChainLinked(fat, first, next, c + 1, fuel - 1);
      ChainStep(fat, c, fuel, Range(c + 1, next));
      assert [c] + Range(c + 1, next) == Range(c, next);
    } else {
      assert [c] == Range(c, next);
    }
  }

  lemma ChainStep(fat: seq<Byte>, c: nat, fuel: nat, rest: seq<nat>)
    requires fuel > 0 && 2 <= c <= LAST && Position(c) + 1 < |fat| && Entry(fat, c) == c + 1
    requires Chain(fat, LAST, c + 1, fuel - 1) == Some(rest)
    ensures Chain(fat, LAST, c, fuel) == Some([c] + rest)
  {
  }

  predicate Owns(files: seq<File>, j: nat, c: nat)
    requires j < |files|
  {
    c in Range(Start(files, j), Start(files, j + 1))
  }

  ghost predicate OnlyOwner(files: seq<File>, j: nat, c: nat) {
    forall k :: 0 <= k < |files| && Owns(files, k, c) ==> k == j
  }

  ghost predicate OwnedOnce(files: seq<File>, c: nat) {
    exists j :: 0 <= j < |files| && Owns(files, j, c) && OnlyOwner(files, j, c)
  }

  /** Every cluster in use belongs to a file. */
  lemma {:induction false} Owner(files: seq<File>, n: nat, c: nat) returns (j: nat)
    requires n <= |files| && 2 <= c < Start(files, n)
    ensures j < n && Start(files, j) <= c < Start(files, j + 1)
  {
    if Start(files, n - 1) <= c {
      j := n - 1;
    } else {
      j := Owner(files, n - 1, c);
    }
  }

  lemma SameOwner(files: seq<File>, j: nat, k: nat, c: nat)
    requires j < |files| && k < |files| && Owns(files, j, c) && Owns(files, k, c)
    ensures j == k
  {
    if k < j {
      StartsGrow(files, k + 1, j);
    } else if j < k {
      StartsGrow(files, j + 1, k);
    }
  }

  // ---------- contents ----------

  lemma {:induction false} ContentsAre(data: seq<Byte>, a: nat, b: nat, n: nat)
    requires 2 <= a <= b && n <= b - a && (b - 2) * BPS <= |data|
    ensures Contents(data, BPS, Range(a, b), n) == Some(data[(a - 2) * BPS..(a - 2 + n) * BPS])
  {
    if n > 0 {
      ContentsAre(data, a, b, n - 1);
      var m := (a - 2 + n - 1) * BPS;
      var c := Range(a, b)[n - 1];
      assert c == a + n - 1 && (c - 2) * BPS == m;
      assert m + BPS == (a - 2 + n) * BPS <= (b - 2) * BPS;
      assert data[(a - 2) * BPS..m] + data[m..m + BPS] == data[(a - 2) * BPS..m + BPS];
    } else {
      assert data[(a - 2) * BPS..(a - 2 + n) * BPS] == [];
    }
  }

  lemma FlatAt(files: seq<File>, n: nat, j: nat)
    requires j < n <= |files|
    ensures Holds(Flat(files, n), (Start(files, j) - 2) * BPS, files[j].data)
  {
    FlatPrefix(files, j + 1, n);
    FlatLast(files, j);
    HoldsBehind(Flat(files, j + 1), Flat(files, n), (Start(files, j) - 2) * BPS, files[j].data);
  }

  /** The bytes `d` stand at `off`. */
  predicate Holds(s: seq<Byte>, off: nat, d: seq<Byte>) {
    off + |d| <= |s| && s[off..off + |d|] == d
  }

  lemma HoldsBehind(a: seq<Byte>, b: seq<Byte>, off: nat, d: seq<Byte>)
    requires a <= b && Holds(a, off, d)
    ensures Holds(b, off, d)
  {
  }

  lemma {:induction false} FlatPrefix(files: seq<File>, j: nat, n: nat)
    requires j <= n <= |files|
    ensures Flat(files, j) <= Flat(files, n)
    decreases n
  {
    if j < n {
      FlatPrefix(files, j, n - 1);
      assert Flat(files, n - 1) <= Flat(files, n);
    }
  }

  lemma FlatLast(files: seq<File>, j: nat)
    requires j < |files|
    ensures Holds(Flat(files, j + 1), (Start(files, j) - 2) * BPS, files[j].data)
  {
    var d := files[j].data;
    SliceRight(Flat(files, j), d, Zeros(ClustersOf(|d|) * BPS - |d|));
  }

  lemma SliceLeft(a: seq<Byte>, b: seq<Byte>, off: nat, n: nat)
    requires off + n <= |a|
    ensures (a + b)[off..off + n] == a[off..off + n]
  {
  }

  lemma SliceFront(a: seq<Byte>, off: nat, end: nat, n: nat)
    requires off + n <= end <= |a|
    ensures a[off..end][..n] == a[off..off + n]
  {
  }

  lemma SliceRight(a: seq<Byte>, b: seq<Byte>, c: seq<Byte>)
    ensures (a + (b + c))[|a|..|a| + |b|] == b
  {
  }

  // ---------- directory ----------

  lemma DirentFields(name: Name, attr: Byte, now: Stamp, cluster: nat, size: nat)
    requires cluster < 0x1_0000 && size < 0x1_0000_0000
    ensures var d := Dirent(name, attr, now.time, now.date, cluster, size);
            && d[..11] == name && d[11] == attr && Le16(d, 26) == cluster && Le32(d, 28) == size
  {
    var d := Dirent(name, attr, now.time, now.date, cluster, size);
    assert d[26..28] == Bytes16(cluster);
    assert d[28..32] == Bytes32(size);
    Le16Bytes(d, 26, cluster);
    Le32Bytes(d, 28, size);
  }

  lemma {:induction false} RecordAt(files: seq<File>, k: nat, j: nat, now: Stamp)
    requires j < k <= |files|
    ensures Records(files, k, now)[32 * j..32 * j + 32] == Record(files, j, now)
  {
    if j < k - 1 {
      RecordAt(files, k - 1, j, now);
      assert Records(files, k, now)[32 * j..32 * j + 32] == Records(files, k - 1, now)[32 * j..32 * j + 32];
    }
  }

  lemma RootAt(title: Name, files: seq<File>, k: nat, now: Stamp, j: nat)
    requires j < k <= |files| && k < ROOT_ENTRIES
    ensures RootWith(title, files, k, now)[32 * (j + 1)..32 * (j + 1) + 32] == Record(files, j, now)
  {
    RecordAt(files, k, j, now);
    var root := RootWith(title, files, k, now);
    assert root[32..32 + 32 * k] == Records(files, k, now);
    assert root[32 * (j + 1)..32 * (j + 1) + 32] == root[32..32 + 32 * k][32 * j..32 * j + 32];
  }

  /** A name DOS would list: not free, not deleted. */
  predicate Visible(name: Name) {
    name[0] != 0 && name[0] != 0xE5
  }

  ghost predicate DataIs(data: seq<Byte>, files: seq<File>) {
    Start(files, |files|) <= LAST + 1
    && data == Flat(files, |files|) + Zeros((LAST + 1 - Start(files, |files|)) * BPS)
  }

  /** The clusters of file `j` begin with its data. */
  lemma FileData(data: seq<Byte>, files: seq<File>, j: nat)
    requires j < |files| && DataIs(data, files)
    ensures var off, end := (Start(files, j) - 2) * BPS, (Start(files, j + 1) - 2) * BPS;
            && |files[j].data| <= end - off && end <= |data|
            && data[off..end][..|files[j].data|] == files[j].data
  {
    var off, end := (Start(files, j) - 2) * BPS, (Start(files, j + 1) - 2) * BPS;
    var n := |files[j].data|;
    StartsGrow(files, j + 1, |files|);
    FlatAt(files, |files|, j);
    SliceLeft(Flat(files, |files|), Zeros((LAST + 1 - Start(files, |files|)) * BPS), off, n);
    SliceFront(data, off, end, n);
  }

  lemma FileStands(data: seq<Byte>, files: seq<File>, j: nat)
    requires j < |files| && DataIs(data, files)
    ensures Holds(data, (Start(files, j) - 2) * BPS, files[j].data)
  {
    FlatAt(files, |files|, j);
    HoldsBehind(Flat(files, |files|), data, (Start(files, j) - 2) * BPS, files[j].data);
  }

  lemma FileReads(fat: seq<Byte>, data: seq<Byte>, files: seq<File>, now: Stamp, j: nat)
    requires j < |files| && FatIs(fat, files, |files|) && DataIs(data, files)
    ensures ReadFile(fat, data, BPS, LAST, Record(files, j, now)) == Some(files[j])
  {
    var first, next := Start(files, j), Start(files, j + 1);
    var bytes := FileContents(fat, data, files, j);
    DirentFields(files[j].name, 0x20, now, first, |files[j].data|);
    ReadsAs(fat, data, Record(files, j, now), files[j], Range(first, next), bytes);
  }

  /** The chain of file `j`, and its bytes. */
  lemma FileContents(fat: seq<Byte>, data: seq<Byte>, files: seq<File>, j: nat) returns (bytes: seq<Byte>)
    requires j < |files| && FatIs(fat, files, |files|) && DataIs(data, files)
    ensures Start(files, j) <= LAST && |files[j].data| <= |bytes| <= LAST * BPS
    ensures bytes[..|files[j].data|] == files[j].data
    ensures var chain := Range(Start(files, j), Start(files, j + 1));
            && Chain(fat, LAST, Start(files, j), LAST) == Some(chain)
            && Contents(data, BPS, chain, |chain|) == Some(bytes)
  {
    StartsGrow(files, j + 1, |files|);
    ChainIs(fat, files, j, Start(files, j), LAST);
    bytes := ContentsOf(data, files, j);
  }

  lemma ContentsOf(data: seq<Byte>, files: seq<File>, j: nat) returns (bytes: seq<Byte>)
    requires j < |files| && DataIs(data, files)
    ensures |files[j].data| <= |bytes| <= LAST * BPS && bytes[..|files[j].data|] == files[j].data
    ensures var chain := Range(Start(files, j), Start(files, j + 1));
            Contents(data, BPS, chain, |chain|) == Some(bytes)
  {
    var first, next := Start(files, j), Start(files, j + 1);
    FileData(data, files, j);
    DataSize(data, files);
    ContentsAre(data, first, next, next - first);
    bytes := data[(first - 2) * BPS..(next - 2) * BPS];
  }

  lemma ReadsAs(fat: seq<Byte>, data: seq<Byte>, entry: seq<Byte>, file: File, chain: seq<nat>, bytes: seq<Byte>)
    requires |entry| == 32 && entry[..11] == file.name && Le32(entry, 28) == |file.data| <= |bytes|
    requires Chain(fat, LAST, Le16(entry, 26), LAST) == Some(chain)
    requires Contents(data, BPS, chain, |chain|) == Some(bytes) && bytes[..|file.data|] == file.data
    ensures ReadFile(fat, data, BPS, LAST, entry) == Some(file)
  {
  }

  /** The reader lists `file` for this directory entry. */
  predicate Shows(fat: seq<Byte>, data: seq<Byte>, entry: seq<Byte>, file: File) {
    && |entry| == 32 && entry[0] != 0 && entry[0] != 0xE5 && entry[11] / 8 % 2 == 0
    && ReadFile(fat, data, BPS, LAST, entry) == Some(file)
  }

  lemma EntryShows(fat: seq<Byte>, data: seq<Byte>, files: seq<File>, now: Stamp, j: nat)
    requires j < |files| && FatIs(fat, files, |files|) && DataIs(data, files) && Visible(files[j].name)
    ensures Shows(fat, data, Record(files, j, now), files[j])
  {
    FileReads(fat, data, files, now, j);
    RecordShown(data, files, j, now);
  }

  /** Behind the label, the directory lists `files` and nothing else. */
  ghost predicate Lists(fat: seq<Byte>, root: seq<Byte>, data: seq<Byte>, files: seq<File>) {
    && 32 * (|files| + 1) <= |root|
    && (forall j :: 0 <= j < |files| ==> Shows(fat, data, root[32 * (j + 1)..32 * (j + 1) + 32], files[j]))
    && (32 * (|files| + 1) + 32 > |root| || root[32 * (|files| + 1)] == 0)
  }

  lemma RootLists(fat: seq<Byte>, root: seq<Byte>, data: seq<Byte>, title: Name, files: seq<File>, now: Stamp)
    requires |files| < ROOT_ENTRIES && FatIs(fat, files, |files|) && DataIs(data, files)
    requires root == RootWith(title, files, |files|, now)
    requires forall i :: 0 <= i < |files| ==> Visible(files[i].name)
    ensures Lists(fat, root, data, files)
  {
    forall j | 0 <= j < |files|
      ensures Shows(fat, data, root[32 * (j + 1)..32 * (j + 1) + 32], files[j])
    {
      EntryShows(fat, data, files, now, j);
      RootAt(title, files, |files|, now, j);
    }
    RootEnds(title, files, now);
  }

  lemma {:induction false} DirReads(fat: seq<Byte>, root: seq<Byte>, data: seq<Byte>, files: seq<File>, j: nat)
    requires j <= |files| && Lists(fat, root, data, files)
    ensures ReadDir(fat, root, data, BPS, LAST, j + 1) == Some(files[j..])
    decreases |files| - j
  {
    if j < |files| {
      DirReads(fat, root, data, files, j + 1);
      DirStep(fat, root, data, j + 1, root[32 * (j + 1)..32 * (j + 1) + 32], files[j], files[j + 1..]);
      assert [files[j]] + files[j + 1..] == files[j..];
    } else {
      assert files[j..] == [];
    }
  }

  /** One entry that the reader does not skip. */
  lemma DirStep(fat: seq<Byte>, root: seq<Byte>, data: seq<Byte>, i: nat, entry: seq<Byte>, file: File, rest: seq<File>)
    requires 32 * i + 32 <= |root| && root[32 * i..32 * i + 32] == entry
    requires Shows(fat, data, entry, file)
    requires ReadDir(fat, root, data, BPS, LAST, i + 1) == Some(rest)
    ensures ReadDir(fat, root, data, BPS, LAST, i) == Some([file] + rest)
  {
    assert root[32 * i] == entry[0];
  }

  /** Behind the last file the directory is free or full. */
  lemma RootEnds(title: Name, files: seq<File>, now: Stamp)
    requires |files| < ROOT_ENTRIES
    ensures var root, i := RootWith(title, files, |files|, now), |files| + 1;
            32 * i + 32 > |root| || root[32 * i] == 0
  {
    var root, i := RootWith(title, files, |files|, now), |files| + 1;
    if i < ROOT_ENTRIES {
      assert root[32 * i] == Zeros(32 * (ROOT_ENTRIES - i))[0];
    }
  }

  /** The reader does not skip the entry of a visible file. */
  lemma RecordShown(data: seq<Byte>, files: seq<File>, j: nat, now: Stamp)
    requires j < |files| && DataIs(data, files) && Visible(files[j].name)
    ensures var entry := Record(files, j, now);
            entry[0] != 0 && entry[0] != 0xE5 && entry[11] / 8 % 2 == 0
  {
    FileData(data, files, j);
    StartsGrow(files, j + 1, |files|);
    DirentFields(files[j].name, 0x20, now, Start(files, j), |files[j].data|);
    assert Record(files, j, now)[0] == Record(files, j, now)[..11][0];
  }

  // ---------- the round trip ----------

  lemma RegionsRead(img: seq<Byte>, boot: seq<Byte>, title: Name, files: seq<File>, now: Stamp)
    requires |boot| == BPS && ReadBpb(boot) == GEOMETRY && ExitCode(files) == 0
    requires Image(img, boot, title, files, now)
    ensures ReadImage(img) == ReadRegions(img[FAT1..FAT2], img[ROOT..DATA], img[DATA..], BPS)
  {
    assert img[DATA..] == img[DATA..IMG_BYTES];
  }

  /** For every list of files the builder accepts, reading the image returns the list. */
  lemma RoundTrip(img: seq<Byte>, boot: seq<Byte>, title: Name, files: seq<File>, now: Stamp)
    requires |boot| == BPS && ReadBpb(boot) == GEOMETRY && ExitCode(files) == 0
    requires Image(img, boot, title, files, now)
    requires title[0] != 0 && forall i :: 0 <= i < |files| ==> Visible(files[i].name)
    ensures ReadImage(img) == Some(files)
  {
    RegionsRead(img, boot, title, files, now);
    RegionsReadBack(img[FAT1..FAT2], img[ROOT..DATA], img[DATA..], title, files, now);
  }

  lemma RegionsReadBack(fat: seq<Byte>, root: seq<Byte>, data: seq<Byte>, title: Name, files: seq<File>, now: Stamp)
    requires |files| < ROOT_ENTRIES && FatIs(fat, files, |files|) && DataIs(data, files)
    requires root == RootWith(title, files, |files|, now)
    requires title[0] != 0 && forall i :: 0 <= i < |files| ==> Visible(files[i].name)
    ensures ReadRegions(fat, root, data, BPS) == Some(files)
  {
    RootLists(fat, root, data, title, files, now);
    LabelShown(root, title, files, now);
    DataSize(data, files);
    LabelSkipped(fat, root, data, files);
  }

  lemma DataSize(data: seq<Byte>, files: seq<File>)
    requires DataIs(data, files)
    ensures |data| == (LAST - 1) * BPS
  {
  }

  lemma LabelSkipped(fat: seq<Byte>, root: seq<Byte>, data: seq<Byte>, files: seq<File>)
    requires 32 <= |root| && root[0] != 0 && root[0..32][11] == 0x08 && |data| == (LAST - 1) * BPS
    requires Lists(fat, root, data, files)
    ensures ReadRegions(fat, root, data, BPS) == Some(files)
  {
    DirReads(fat, root, data, files, 0);
    assert files[0..] == files;
    assert |data| / BPS + 1 == LAST;
  }

  lemma LabelShown(root: seq<Byte>, title: Name, files: seq<File>, now: Stamp)
    requires |files| < ROOT_ENTRIES && root == RootWith(title, files, |files|, now) && title[0] != 0
    ensures 32 <= |root| && root[0] != 0 && root[0..32][11] == 0x08
  {
    var d := Dirent(title, 0x08, now.time, now.date, 0, 0);
    assert root[0..32] == d;
    assert root[0] == d[0] == title[0];
  }

  /** In an image: file `j` owns one chain, of consecutive clusters; clusters no file owns are free. */
  lemma ChainsPartition(fat: seq<Byte>, files: seq<File>)
    requires FatIs(fat, files, |files|) && ExitCode(files) == 0
    ensures forall j :: 0 <= j < |files| ==>
              Chain(fat, LAST, Start(files, j), LAST) == Some(Range(Start(files, j), Start(files, j + 1)))
    ensures forall c :: 2 <= c < Start(files, |files|) ==> OwnedOnce(files, c)
    ensures forall c :: Start(files, |files|) <= c <= LAST ==> Entry(fat, c) == 0
  {
    forall j | 0 <= j < |files|
      ensures Chain(fat, LAST, Start(files, j), LAST) == Some(Range(Start(files, j), Start(files, j + 1)))
    {
      StartsGrow(files, j + 1, |files|);
      ChainIs(fat, files, j, Start(files, j), LAST);
    }
    forall c | 2 <= c < Start(files, |files|)
      ensures OwnedOnce(files, c)
    {
      OwnerIs(files, c);
    }
    forall c | Start(files, |files|) <= c <= LAST
      ensures Entry(fat, c) == 0
    {
      FreeBehind(files, |files|, c);
    }
  }

  lemma OwnerIs(files: seq<File>, c: nat)
    requires 2 <= c < Start(files, |files|)
    ensures OwnedOnce(files, c)
  {
    var j := Owner(files, |files|, c);
    assert Range(Start(files, j), Start(files, j + 1))[c - Start(files, j)] == c;
    forall k | 0 <= k < |files| && Owns(files, k, c)
      ensures k == j
    {
      SameOwner(files, j, k, c);
    }
    assert Owns(files, j, c) && OnlyOwner(files, j, c);
  }

  /** The whole program: what it writes reads back, or it ends with the error code. */
  method BuildFloppy(bootTitle: Name, code: seq<Byte>, message: seq<Byte>, title: Name, files: seq<File>, now: Stamp)
    returns (exit: nat, img: array<Byte>)
    requires |code| <= 0x32 && |message| <= 510 - 0x70
    requires title[0] != 0 && forall i :: 0 <= i < |files| ==> Visible(files[i].name)
    ensures exit == ExitCode(files)
    ensures exit == 0 ==> ReadImage(img[..]) == Some(files)
  {
    var boot := BuildBootSector(bootTitle, code, message);
    BootGeometry(bootTitle, code, message);
    ghost var sector := boot[..];
    exit, img := Build(boot[..], title, files, now);
    if exit == 0 {
      RoundTrip(img[..], sector, title, files, now);
    }
  }
}
