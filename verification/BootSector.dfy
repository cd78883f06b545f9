/** The boot sector of a FAT volume and the geometry that the FAT code derives from it. */
module BootSectors {
  import opened Bytes
  import opened DeviceWrappers
  import opened Partitions
  import opened FatCodec
  import opened Volumes

  /** How the constructor of the FAT code ends; `DivisionByZero` stands for undefined behaviour of the program. */
  datatype Mount = NoFileSystem | DivisionByZero | ExFat | BadSectorSize | Mounted(g: Geometry)

  function U32(x: int): (r: nat)
    ensures r < TWO32
    ensures 0 <= x < TWO32 ==> r == x
  {
    x % TWO32
  }

  /** The fields of the boot sector that are looked at. */
  datatype Bpb = Bpb(bytesPerSector: nat, sectorsPerCluster: nat, reserved: nat, numFats: nat, rootEntries: nat,
                     totalSectors: nat, fatSize16: nat, fatSize: nat, rootCluster: nat, fsInfo: nat)

  function Fields(b: seq<byte>): Bpb
    requires |b| == 512
  {
    Bpb(Le16(b, 11), b[13], Le16(b, 14), b[16], Le16(b, 17),
        if Le16(b, 19) != 0 then Le16(b, 19) else Le32(b, 32),
        Le16(b, 22), if Le16(b, 22) != 0 then Le16(b, 22) else Le32(b, 36),
        Le32(b, 44), Le16(b, 48))
  }

  function RootSectors(p: Bpb): nat
    requires p.bytesPerSector > 0
  {
    (p.rootEntries * 32 + p.bytesPerSector - 1) / p.bytesPerSector
  }

  function CountOfClusters(p: Bpb): nat
    requires p.bytesPerSector > 0 && p.sectorsPerCluster > 0
  {
    U32(p.totalSectors - (p.reserved + p.numFats * p.fatSize + RootSectors(p))) / p.sectorsPerCluster
  }

  /** Section 3.5 of the Microsoft FAT specification: the number of clusters alone decides the type. */
  function KindOf(count: nat): FatKind {
    if count < 4085 then FAT12 else if count < 65525 then FAT16 else FAT32
  }

  /** All offsets are computed in 32 bits. */
  function GeometryOf(p: Bpb): Geometry
    requires p.bytesPerSector > 0 && p.sectorsPerCluster > 0
  {
    var count := CountOfClusters(p);
    var kind := KindOf(count);
    var first := p.reserved * p.bytesPerSector;
    var rootSector := p.reserved + p.numFats * p.fatSize16;
    var clusterOffset :=
      if kind.FAT32? then U32(first + p.numFats * p.fatSize * p.bytesPerSector)
      else U32((rootSector + RootSectors(p)) * p.bytesPerSector);
    Geometry(
      kind, p.bytesPerSector, p.fatSize,
      seq(p.numFats, i requires 0 <= i < p.numFats => U32(first + i * p.fatSize * p.bytesPerSector)),
      p.sectorsPerCluster * p.bytesPerSector, clusterOffset, count,
      if kind.FAT32? then clusterOffset else U32(rootSector * p.bytesPerSector), clusterOffset,
      p.rootCluster,
      if kind.FAT32? then p.fsInfo else 0)
  }

  /** The constructor of the FAT code, step by step. */
  function Parse(b: seq<byte>): Mount
    requires |b| == 512
  {
    var p := Fields(b);
    if b[510] != 0x55 || b[511] != 0xAA then NoFileSystem
    else if p.bytesPerSector == 0 then DivisionByZero        // the root directory sectors are computed first
    else if p.sectorsPerCluster == 0 then DivisionByZero
    else if p.bytesPerSector == 0 then ExFat
    else if p.bytesPerSector % 4 != 0 then BadSectorSize
    else Mounted(GeometryOf(p))
  }

  /** The check for exFAT comes too late: a zero sector size has been divided by before it is looked at. */
  lemma ExFatIsNotReported(b: seq<byte>)
    requires |b| == 512
    ensures Parse(b) != ExFat
    ensures b[510] == 0x55 && b[511] == 0xAA && Le16(b, 11) == 0 ==> Parse(b) == DivisionByZero
  {
    hide GeometryOf, Le16, Le32;
  }

  /** Opens a partition and reads its boot sector. Nothing a reader of the device sees changes. */
  method Probe(dw: DeviceWrapper, partStart: nat, partLen: nat) returns (ok: bool, part: Partition, m: Mount)
    requires dw.Valid()
    modifies dw`cache, dw.file`pos
    ensures part.Valid() && fresh(part) && part.dw == dw && part.partStart == partStart && part.partLen == partLen
    ensures forall o: nat :: dw.At(o) == old(dw.At(o)) == part.outside(o)
    ensures forall i | 0 <= i < partLen :: part.image[i] == old(dw.At(partStart + i))
    ensures ok ==> partLen >= 512 && m == Parse(part.image[..512])
    ensures part.Dependable() && partLen >= 512 ==> ok
  {
    hide *;
    part := new Partition(dw, partStart, partLen);
    var data;
    ok, data := part.Read(512);
    m := if ok then Parse(data) else NoFileSystem;
    assert ok ==> part.image[..512] == part.image[0..512];
    forall o: nat ensures dw.At(o) == old(dw.At(o)) == part.outside(o) {
      part.View(o);
    }
  }
}
