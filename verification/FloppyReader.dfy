/** A reader of FAT12 images: boot parameters, root directory scan, cluster chains. */
module FloppyReader {
  import opened Common
  import opened Bytes
  import opened Fat12
  import opened Floppy

  /** The fields of the BIOS parameter block a reader needs (Boot Sector and BPB). */
  datatype Bpb = Bpb(bytesPerSector: nat, sectorsPerCluster: nat, reserved: nat, fats: nat,
                     rootEntries: nat, sectors: nat, sectorsPerFat: nat)
  {
    function FatStart(): nat { reserved * bytesPerSector }
    function FatBytes(): nat { sectorsPerFat * bytesPerSector }
    function RootStart(): nat { FatStart() + fats * FatBytes() }
    function RootBytes(): nat { rootEntries * 32 }
    function DataStart(): nat { RootStart() + RootBytes() }
    function ClusterBytes(): nat { sectorsPerCluster * bytesPerSector }
  }

  function ReadBpb(boot: seq<Byte>): Bpb
    requires |boot| == 512
  {
    Bpb(Le16(boot, 11), boot[13], Le16(boot, 14), boot[16], Le16(boot, 17), Le16(boot, 19), Le16(boot, 22))
  }

  /** The clusters from `c` to the end-of-chain mark; none when the chain leaves the volume or never ends. */
  function Chain(fat: seq<Byte>, last: nat, c: nat, fuel: nat): Option<seq<nat>>
    decreases fuel
  {
    if fuel == 0 || c < 2 || c > last || Position(c) + 1 >= |fat| then None
    else
      var next := Entry(fat, c);
      if next >= 0xFF8 then Some([c])
      else
        var rest := Chain(fat, last, next, fuel - 1);
        if rest.None? then None else Some([c] + rest.value)
  }

  /** The bytes of the first `n` clusters of a chain. */
  function Contents(data: seq<Byte>, size: nat, chain: seq<nat>, n: nat): Option<seq<Byte>>
    requires n <= |chain|
  {
    if n == 0 then Some([])
    else
      var before := Contents(data, size, chain, n - 1);
      var c := chain[n - 1];
      if before.None? || c < 2 || (c - 2) * size + size > |data| then None
      else Some(before.value + data[(c - 2) * size..(c - 2) * size + size])
  }

  function ReadFile(fat: seq<Byte>, data: seq<Byte>, size: nat, last: nat, entry: seq<Byte>): Option<File>
    requires |entry| == 32
  {
    var chain := Chain(fat, last, Le16(entry, 26), last);
    if chain.None? then None
    else
      var bytes := Contents(data, size, chain.value, |chain.value|);
      if bytes.None? || Le32(entry, 28) > |bytes.value| then None
      else Some(File(entry[..11], bytes.value[..Le32(entry, 28)]))
  }

  /** The files of the root directory from entry `i` on; deleted entries and labels are skipped. */
  function ReadDir(fat: seq<Byte>, root: seq<Byte>, data: seq<Byte>, size: nat, last: nat, i: nat): Option<seq<File>>
    decreases |root| - 32 * i
  {
    if 32 * i + 32 > |root| || root[32 * i] == 0 then Some([])
    else
      var entry := root[32 * i..32 * i + 32];
      var rest := ReadDir(fat, root, data, size, last, i + 1);
      if rest.None? then None
      else if entry[0] == 0xE5 || entry[11] / 8 % 2 == 1 then rest
      else
        var file := ReadFile(fat, data, size, last, entry);
        if file.None? then None else Some([file.value] + rest.value)
  }

  /** The regions lie in the image one after the other, as the parameter block says. */
  predicate Fits(b: Bpb, img: seq<Byte>) {
    && b.ClusterBytes() > 0
    && b.FatStart() + b.FatBytes() <= |img|
    && b.DataStart() <= b.sectors * b.bytesPerSector <= |img|
  }

  function FatOf(b: Bpb, img: seq<Byte>): seq<Byte>
    requires Fits(b, img)
  {
    img[b.FatStart()..b.FatStart() + b.FatBytes()]
  }

  function RootOf(b: Bpb, img: seq<Byte>): seq<Byte>
    requires Fits(b, img)
  {
    img[b.RootStart()..b.DataStart()]
  }

  function DataOf(b: Bpb, img: seq<Byte>): seq<Byte>
    requires Fits(b, img)
  {
    img[b.DataStart()..b.sectors * b.bytesPerSector]
  }

  /** All files of an image, in directory order. */
  function ReadImage(img: seq<Byte>): Option<seq<File>>
  {
    if |img| < 512 then None
    else
      var b := ReadBpb(img[..512]);
      if !Fits(b, img) then None
      else ReadRegions(FatOf(b, img), RootOf(b, img), DataOf(b, img), b.ClusterBytes())
  }

  function ReadRegions(fat: seq<Byte>, root: seq<Byte>, data: seq<Byte>, size: nat): Option<seq<File>>
    requires size > 0
  {
    ReadDir(fat, root, data, size, |data| / size + 1, 0)
  }
}
