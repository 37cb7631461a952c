/** The filesystem image: what mkfs writes, what mounting reads back, and where everything lies in it. */
module Images {
  import opened Bytes
  import opened Directory
  import opened Errno
  import opened Fat
  import opened FileSystems
  import opened Meaning
  import opened OpenTable
  import opened Store
  import opened Volumes

  // ---- geometry ----

  /** The block size for a configuration byte; 0 for none. */
  function BlockSize(config: int): nat {
    match config
    case 0 => 256
    case 1 => 512
    case 2 => 1024
    case 3 => 2048
    case 4 => 4096
    case _ => 0
  }

  function Pow2(n: nat): nat {
    if n == 0 then 1 else 2 * Pow2(n - 1)
  }

  /** The smallest block has 256 bytes, and each step of the configuration doubles it. */
  lemma BlockSizeIs(config: nat)
    requires config <= 4
    ensures BlockSize(config) == 0x100 * Pow2(config)
  {
    assert Pow2(0) == 1 && Pow2(1) == 2 && Pow2(2) == 4;
    assert Pow2(3) == 8 && Pow2(4) == 16;
  }

  predicate Geometry(config: int, blocks: int) {
    0 <= config <= 4 && 1 <= blocks <= 32
  }

  function FatSize(config: int, blocks: int): nat
    requires Geometry(config, blocks)
  {
    BlockSize(config) * blocks
  }

  function Cells(config: int, blocks: int): nat
    requires Geometry(config, blocks)
  {
    FatSize(config, blocks) / 2
  }

  /** One block for every cell but the first; the cell 0xFFFF has no block either. */
  function DataSize(config: int, blocks: int): nat
    requires Geometry(config, blocks)
  {
    var n := Cells(config, blocks);
    if n == 0x1_0000 then BlockSize(config) * (n - 1) - BlockSize(config) else BlockSize(config) * (n - 1)
  }

  function ImageSize(config: int, blocks: int): nat
    requires Geometry(config, blocks)
  {
    FatSize(config, blocks) + DataSize(config, blocks)
  }

  /** Where byte `o` of block `b` lies in the image. */
  function HostAddr(config: int, blocks: int, b: nat, o: nat): nat
    requires Geometry(config, blocks) && b >= 1
  {
    FatSize(config, blocks) + Addr(BlockSize(config), b, o)
  }

  lemma GeometryFacts(config: int, blocks: int)
    requires Geometry(config, blocks)
    ensures var bs, n := BlockSize(config), Cells(config, blocks);
            && bs % ENTRY_SIZE == 0 && 256 <= bs <= 4096 && 128 <= n <= 0x1_0000
               && FatSize(config, blocks) == 2 * n <= 0x2_0000
            && DataSize(config, blocks) == bs * (Min(n, EOF) - 1) <= 4096 * 0xFFFE
  {
    var bs, n := BlockSize(config), Cells(config, blocks);
    MulMono(bs, 1, blocks);
    MulMono(bs, blocks, 32);
    assert bs % 2 == 0;
    EvenProduct(bs / 2, blocks);
    MulStep(bs, n - 1);
    MulMono(bs, Min(n, EOF) - 1, 0xFFFE);
    assert bs * (Min(n, EOF) - 1) <= bs * 0xFFFE;
  }

  lemma EvenProduct(h: nat, k: nat)
    ensures 2 * h * k / 2 == h * k && 2 * h * k % 2 == 0
  {
    assert 2 * h * k == 2 * (h * k);
  }

  /**
   * In every geometry a byte of a block lies behind the table, inside the image, below 2^31, and nowhere
   * else than any other byte of any block.
   */
  lemma AddressesApart(config: int, blocks: int, b: nat, o: nat, b': nat, o': nat)
    requires Geometry(config, blocks)
    requires 1 <= b < Min(Cells(config, blocks), EOF) && o < BlockSize(config)
    requires 1 <= b' < Min(Cells(config, blocks), EOF) && o' < BlockSize(config)
    ensures FatSize(config, blocks) <= HostAddr(config, blocks, b, o) < ImageSize(config, blocks) < 0x8000_0000
    ensures HostAddr(config, blocks, b, o) == HostAddr(config, blocks, b', o') ==> b == b' && o == o'
  {
    var bs := BlockSize(config);
    GeometryFacts(config, blocks);
    MulMono(bs, b, Min(Cells(config, blocks), EOF) - 1);
    MulStep(bs, b);
    DivUnique(bs, b - 1, o);
    DivUnique(bs, b' - 1, o');
  }

  // ---- mkfs and mount ----

  /** The image of an empty filesystem: the header, which is also cells 0 and 1 of the table, and zeros. */
  function EmptyImage(config: int, blocks: int): seq<byte>
    requires Geometry(config, blocks)
  {
    [config, blocks, 0xFF, 0xFF] + Zeros(Max(0, ImageSize(config, blocks) - 4))
  }

  /** mkfs, up to the host file: no image for a geometry out of range. */
  method MkFs(blocks: int, config: int) returns (ok: bool, image: seq<byte>)
    ensures ok <==> Geometry(config, blocks)
    ensures ok ==> image == EmptyImage(config, blocks) && |image| == ImageSize(config, blocks)
    ensures ok <==> 0 <= config <= 4 && 1 <= blocks <= 32
    ensures ok ==>
              var bs := 0x100 * Pow2(config);
              var cells := bs * blocks / 2;
              && |image| == bs * blocks + bs * (if cells == 0x1_0000 then cells - 2 else cells - 1) > 4
              && image[..4] == [config, blocks, 0xFF, 0xFF] && forall i :: 4 <= i < |image| ==> image[i] == 0
  {
    if !(0 < blocks < 33) { return false, []; }
    var blockSize := BlockSize(config);
    if blockSize == 0 { return false, []; }
    GeometryFacts(config, blocks);
    BlockSizeIs(config);
    var nEntries := blockSize * blocks / 2;
    var fatSize := blockSize * blocks;
    var dataSize := blockSize * (nEntries - 1);
    MulMono(blockSize, 1, nEntries - 1);
    MulStep(blockSize, nEntries - 1);
    if nEntries == 0x1_0000 { dataSize := dataSize - blockSize; }
    var header: seq<byte> := [config, blocks, 0xFF, 0xFF];
    return true, header + Zeros(fatSize + dataSize - 4);
  }

  /** The table an image holds. */
  function TableOf(image: seq<byte>, n: nat): (r: seq<u16>)
    requires 2 * n <= |image|
    ensures |r| == n
  {
    seq(n, i requires 0 <= i < n => Dec16(image[2 * i..2 * i + 2]))
  }

  /**
   * fs_mount: the geometry comes from the first two bytes. `ch` and `files` say what the image is meant to hold;
   * the code knows nothing of them.
   */
  method Mount(image: seq<byte>, ghost ch: seq<seq<nat>>, ghost files: seq<seq<byte>>) returns (fs: FileSystem?,
      errno: int)
    requires |image| >= 2 && Geometry(image[0], image[1]) ==> |image| >= ImageSize(image[0], image[1])
    ensures fs == null <==> |image| < 2 || !Geometry(image[0], image[1])
    ensures fs == null ==> errno == PEBADFS == 1003
    ensures fs != null <==> |image| >= 2 && image[0] <= 4 && 1 <= image[1] <= 32
    ensures fs != null ==>
              var bs := 0x100 * Pow2(image[0]);
              var cells := bs * image[1] / 2;
              && fs.vol.blockSize == bs && fs.vol.fat.Length == cells
              && fs.vol.data.Length == bs * (if cells == 0x1_0000 then cells - 2 else cells - 1)
    ensures fs != null ==>
              && fresh(fs) && fresh(fs.vol) && fresh(fs.vol.fat) && fresh(fs.vol.data) && fresh(fs.openFiles)
              && fs.vol.blockSize == BlockSize(image[0]) && fs.vol.ch == ch && fs.vol.files == files
              && FatSize(image[0], image[1]) <= ImageSize(image[0], image[1]) <= |image|
                 && 2 * Cells(image[0], image[1]) <= |image|
              && fs.vol.fat[..] == TableOf(image, Cells(image[0], image[1]))
              && fs.vol.fat.Length > 0 && fs.vol.header == fs.vol.fat[0]
              && fs.vol.data[..] == image[FatSize(image[0], image[1])..ImageSize(image[0], image[1])]
              && fs.openedCount == 0 && fs.openFiles.Length == 4 && fs.vol.fat as object != fs.vol.data
              && fs.openFiles as object != fs.vol.data && fs.openFiles as object != fs.vol.fat
  {
    hide Pow2;
    fs, errno := null, PEBADFS;
    if |image| < 2 { return; }
    if image[1] == 0 || image[1] > 32 { return; }
    var blockSize := BlockSize(image[0]);
    if blockSize == 0 { return; }
    GeometryFacts(image[0], image[1]);
    BlockSizeIs(image[0]);
    var nEntries := blockSize * image[1] / 2;
    var fatSize := blockSize * image[1];
    var dataSize := blockSize * (nEntries - 1);
    MulMono(blockSize, 1, nEntries - 1);
    MulStep(blockSize, nEntries - 1);
    if nEntries == 0x1_0000 { dataSize := dataSize - blockSize; }
    var fat := new u16[nEntries](i requires 0 <= i < nEntries => Dec16(image[2 * i..2 * i + 2]));
    var data := new byte[dataSize](i requires 0 <= i < dataSize => image[fatSize + i]);
    var vol := new Volume(blockSize, fat, data, ch, files);
    fs := new FileSystem(vol);
    errno := 0;
  }

  // ---- the state a fresh filesystem starts in ----

  ghost function FreshChains(bs: nat): seq<seq<nat>> {
    [[1]] + seq(bs / ENTRY_SIZE, _ => [])
  }

  ghost function FreshFiles(bs: nat): seq<seq<byte>> {
    [Zeros(bs)] + seq(bs / ENTRY_SIZE, _ => [])
  }

  lemma FreshTable(config: int, blocks: int)
    requires Geometry(config, blocks)
    ensures 2 * Cells(config, blocks) <= |EmptyImage(config, blocks)|
            && ImageSize(config, blocks) == |EmptyImage(config, blocks)|
    ensures EmptyImage(config, blocks)[0] == config && EmptyImage(config, blocks)[1] == blocks
    ensures var fat := TableOf(EmptyImage(config, blocks), Cells(config, blocks));
            |fat| == Cells(config, blocks) && fat[0] == config + 0x100 * blocks && fat[1] == EOF
            && forall i :: 2 <= i < |fat| ==> fat[i] == FREE
  {
    GeometryFacts(config, blocks);
  }

  lemma FreshWellFormed(fat: seq<u16>, bs: nat)
    requires 3 <= |fat| <= 0x1_0000 && fat[1] == EOF && forall i :: 2 <= i < |fat| ==> fat[i] == FREE
    ensures WellFormed(fat, FreshChains(bs))
  {
    var ch := FreshChains(bs);
    assert ch[0][0] == 1;
    assert forall j :: 1 <= j < |ch| ==> ch[j] == [];
    assert Owned(ch, 1);
  }

  lemma FreshRepresents(data: seq<byte>, bs: nat)
    requires bs <= |data| && forall p :: 0 <= p < bs ==> data[p] == 0
    ensures Represents(data, bs, FreshChains(bs), FreshFiles(bs))
  {
    var ch, files := FreshChains(bs), FreshFiles(bs);
    forall j | 0 <= j < |ch|
      ensures HasBlocks(data, bs, ch[j]) && files[j] == Gather(data, bs, ch[j])
    {
      if j == 0 {
        assert ch[0] == [1] && HasBlock(data, bs, 1);
        assert Gather(data, bs, [1]) == Block(data, bs, 1) + Gather(data, bs, []);
        assert Block(data, bs, 1) == Zeros(bs);
      } else {
        assert ch[j] == [] && files[j] == [];
      }
    }
  }

  lemma FreshDirectory(bs: nat)
    requires bs > 0 && bs % ENTRY_SIZE == 0
    ensures DirOK(Zeros(bs), FreshChains(bs)) && Slots(Zeros(bs)) == bs / ENTRY_SIZE
            && bs == ENTRY_SIZE * (bs / ENTRY_SIZE)
    ensures forall k :: 0 <= k < Slots(Zeros(bs)) ==> Mark(Entry(Zeros(bs), k)) == 0
    ensures |FreshChains(bs)| == |FreshFiles(bs)| == 1 + bs / ENTRY_SIZE && FreshChains(bs)[0] == [1]
            && FreshFiles(bs)[0] == Zeros(bs)
  {
    var d, ch := Zeros(bs), FreshChains(bs);
    forall k | 0 <= k < Slots(d)
      ensures Mark(Entry(d, k)) == 0 && ch[k + 1] == []
    {
    }
  }

  lemma FreshCatalog(files: seq<seq<byte>>)
    requires 0 < |files| && |files| == 1 + Slots(files[0]) && UniqueNames(files[0])
    requires forall k :: 0 <= k < Slots(files[0]) ==> Mark(Entry(files[0], k)) == 0
    ensures Catalog(files) == map[]
  {}

  /** No name, not even one of a deleted entry, comes up with an entry. */
  ghost predicate FindsNothing(files: seq<seq<byte>>) {
    files != [] && forall name: cstring :: FindSlot(files[0], name, 0) == -1
  }

  /** All blocks but the root directory's are free. */
  lemma FreshFree(fat: seq<u16>)
    requires 3 <= |fat| <= 0x1_0000 && fat[1] == EOF && forall i :: 2 <= i < |fat| ==> fat[i] == FREE
    ensures |FreeSet(fat)| == Limit(fat) - 2
  {
    FreshWellFormed(fat, 0);
    Conservation(fat, FreshChains(0));
  }

  /** mkfs, then mount: an empty filesystem in working order, in each of the 160 geometries. */
  method Format(blocks: int, config: int) returns (fs: FileSystem?)
    ensures fs != null <==> Geometry(config, blocks)
    ensures fs != null ==>
              && fresh(fs) && fresh(fs.vol) && fresh(fs.vol.fat) && fresh(fs.vol.data) && fresh(fs.openFiles)
              && fs.Valid() && fs.Handles() == [] && Catalog(fs.vol.files) == map[] && FindsNothing(fs.vol.files)
              && OfGeometry(fs.vol, config, blocks)
              && fs.vol.blockSize == 0x100 * Pow2(config)
              && fs.vol.Free() == Min(fs.vol.blockSize * blocks / 2, 0xFFFF) - 2
              && fs.vol.Free() == Limit(fs.vol.fat[..]) - 2
              && Sized(fs.vol.files, fs.vol.ch) && Tight(fs.vol.files, fs.vol.ch, fs.vol.blockSize)
  {
    hide Rep, TableOf, EmptyImage, FatSize, ImageSize, DataSize, EntriesOK, EndsOnce, UniqueNames, Entry, Catalog,
        FreshChains, FreshFiles;
    var ok, image := MkFs(blocks, config);
    if !ok { return null; }
    BlockSizeIs(config);
    ghost var bs := BlockSize(config);
    var errno;
    GeometryFacts(config, blocks);
    FreshTable(config, blocks);
    fs, errno := Mount(image, FreshChains(bs), FreshFiles(bs));
    FreshRep(config, blocks, fs.vol.fat[..], fs.vol.data[..]);
    FreshDirectory(bs);
    FreshCatalog(fs.vol.files);
    assert FindsNothing(fs.vol.files);
    assert fs.Handles() == [];
  }

  lemma FreshRep(config: int, blocks: int, fat: seq<u16>, data: seq<byte>)
    requires Geometry(config, blocks) && 2 * Cells(config, blocks) <= |EmptyImage(config, blocks)|
    requires fat == TableOf(EmptyImage(config, blocks), Cells(config, blocks))
    requires FatSize(config, blocks) <= ImageSize(config, blocks) <= |EmptyImage(config, blocks)|
    requires data == EmptyImage(config, blocks)[FatSize(config, blocks)..ImageSize(config, blocks)]
    ensures Rep(BlockSize(config), fat, data, FreshChains(BlockSize(config)), FreshFiles(BlockSize(config)))
    ensures |FreeSet(fat)| == Limit(fat) - 2
  {
    var bs := BlockSize(config);
    GeometryFacts(config, blocks);
    FreshTable(config, blocks);
    MulMono(bs, 1, Min(Cells(config, blocks), EOF) - 1);
    FreshWellFormed(fat, bs);
    FreshFree(fat);
    FreshRepresents(data, bs);
  }

  // ---- unmount and mount again ----

  /** The volume has this geometry, and the header of its image says so. */
  ghost predicate OfGeometry(vol: Volume, config: int, blocks: int) {
    && Geometry(config, blocks) && vol.blockSize == BlockSize(config) && vol.fat.Length == Cells(config, blocks)
    && vol.header as int == config + 0x100 * blocks
  }

  function TableBytes(fat: seq<u16>): (r: seq<byte>)
    ensures |r| == 2 * |fat|
  {
    seq(2 * |fat|, i requires 0 <= i < 2 * |fat| => Enc16(fat[i / 2])[i % 2])
  }

  /** What fs_unmount leaves in the host file: table and data region are mapped onto it, shared. */
  function HostFile(vol: Volume): seq<byte>
    reads vol.fat, vol.data
  {
    TableBytes(vol.fat[..]) + vol.data[..]
  }

  lemma TableRestored(fat: seq<u16>, rest: seq<byte>)
    ensures TableOf(TableBytes(fat) + rest, |fat|) == fat
    ensures fat != [] ==> (TableBytes(fat) + rest)[..2] == Enc16(fat[0])
  {
    var b := TableBytes(fat) + rest;
    forall i | 0 <= i < |fat|
      ensures b[2 * i..2 * i + 2] == Enc16(fat[i])
    {
      assert b[2 * i] == Enc16(fat[i])[0] && b[2 * i + 1] == Enc16(fat[i])[1];
    }
  }

  /**
   * Whatever has been done to a filesystem, mounting its host file again gives the same files, with the same bytes in
   * the same blocks; only the handles are gone.
   */
  method Remount(fs: FileSystem, ghost config: int, ghost blocks: int) returns (again: FileSystem)
    requires fs.Valid() && OfGeometry(fs.vol, config, blocks)
    ensures again.Valid() && again.Handles() == [] && OfGeometry(again.vol, config, blocks)
    ensures again.vol.files == fs.vol.files && again.vol.ch == fs.vol.ch
    ensures again.vol.fat[..] == fs.vol.fat[..] && again.vol.data[..] == fs.vol.data[..]
    ensures fresh(again) && fresh(again.vol) && fresh(again.vol.fat) && fresh(again.vol.data) && fresh(again.openFiles)
  {
    hide Rep, TableOf, DirOK, Entry, Slots, TableBytes;
    var image := HostFile(fs.vol);
    GeometryFacts(config, blocks);
    TableRestored(fs.vol.fat[..], fs.vol.data[..]);
    DataFits(fs);
    HeaderBytes(config, blocks, fs.vol.header);
    assert image[0] == image[..2][0] && image[1] == image[..2][1];
    assert image[|TableBytes(fs.vol.fat[..])|..] == fs.vol.data[..];
    assert image[FatSize(config, blocks)..ImageSize(config, blocks)] == fs.vol.data[..];
    var mounted, errno := Mount(image, fs.vol.ch, fs.vol.files);
    again := mounted;
    assert again.Handles() == [];
  }

  lemma DataFits(fs: FileSystem)
    requires fs.Valid()
    ensures fs.vol.data.Length == fs.vol.blockSize * (Limit(fs.vol.fat[..]) - 1)
  {
    hide DirOK, Entry, Slots, TableOK;
  }

  /** The header read back. */
  lemma HeaderBytes(config: int, blocks: int, header: u16)
    requires Geometry(config, blocks) && header as int == config + 0x100 * blocks
    ensures Enc16(header) == [config, blocks]
  {}

  // ---- what lies where in the host file ----

  /** The byte at `i`, -1 outside. */
  function ByteAt(s: seq<byte>, i: int): int {
    if 0 <= i < |s| then s[i] else -1
  }

  /** Byte `o` of the i-th block of a chain lies in that block, block 1 being the first one behind the table. */
  lemma FileOnDisk(fs: FileSystem, config: nat, blocks: nat, j: nat, i: nat, o: nat)
    requires fs.Valid() && OfGeometry(fs.vol, config, blocks) && j < |fs.vol.ch| && i < |fs.vol.ch[j]|
    requires o < 0x100 * Pow2(config)
    ensures |fs.vol.files| == |fs.vol.ch|
    ensures var bs, b := 0x100 * Pow2(config), fs.vol.ch[j][i];
            && |fs.vol.files[j]| == bs * |fs.vol.ch[j]|
            && ByteAt(HostFile(fs.vol), bs * blocks + bs * (b - 1) + o) == ByteAt(fs.vol.files[j], bs * i + o) != -1
  {
    hide Rep, DirOK, TableOK, Entry, Slots, TableBytes, FileSystem.Base, FileSystem.Valid, Pow2;
    BlockSizeIs(config);
    GeometryFacts(config, blocks);
    Shape(fs);
    fs.vol.SizeOf(j);
    fs.vol.ReadableAt(j, i, o, 1);
    var bs, b := fs.vol.blockSize, fs.vol.ch[j][i];
    assert fs.vol.files[j][At(bs, i, o)..At(bs, i, o) + 1][0] == fs.vol.data[Addr(bs, b, o)];
    BehindTable(TableBytes(fs.vol.fat[..]), fs.vol.data[..], Addr(bs, b, o));
  }

  lemma Shape(fs: FileSystem)
    requires fs.Valid()
    ensures fs.vol.Shape() && |fs.vol.files| == |fs.vol.ch|
  {
    hide Rep, DirOK, TableOK, Entry, Slots;
  }

  lemma BehindTable(a: seq<byte>, b: seq<byte>, i: nat)
    requires i < |b|
    ensures (a + b)[|a| + i] == b[i]
  {}

  /** The cell of a block, two bytes at twice its number, the low one first, names the next block, or 0xFFFF. */
  lemma ChainOnDisk(fs: FileSystem, j: nat, i: nat)
    requires fs.Valid() && j < |fs.vol.ch| && i < |fs.vol.ch[j]|
    ensures var c, image := fs.vol.ch[j], HostFile(fs.vol);
            && 0 < 2 * c[i] + 1 < |image|
            && (image[2 * c[i]] as int) + 0x100 * (image[2 * c[i] + 1] as int)
               == if i + 1 < |c| then c[i + 1] else 0xFFFF
    ensures fs.vol.ch[0] != [] && fs.vol.ch[0][0] == 1
  {
    hide Rep, DirOK, TableOK, Entry, Slots;
    fs.vol.NextBlock(j, i);
    var b, fat := fs.vol.ch[j][i], fs.vol.fat[..];
    assert TableBytes(fat)[2 * b] == Enc16(fat[b])[0] && TableBytes(fat)[2 * b + 1] == Enc16(fat[b])[1];
  }
}
