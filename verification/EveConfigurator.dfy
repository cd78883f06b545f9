/** Finding the configuration partition and writing a run of files into it. */
module EveConfigurators {
  import opened Bytes
  import opened Options
  import opened DeviceWrappers
  import opened Partitions
  import opened Volumes
  import opened FsInfos
  import opened Names
  import opened Directories
  import opened Layouts
  import opened WriteSteps
  import opened HiddenSteps
  import opened BootSectors
  import opened PartitionTables
  import opened FatPartitions
  import opened Clients

  datatype File = File(name: Name, contents: seq<byte>)

  // ----- a run of writes -----

  /** The contents last written to the file `name` of the root directory, in any letter case. */
  function LastWritten(cs: Charset, files: seq<File>, name: Name): Option<seq<byte>> {
    if files == [] then None
    else
      var f := files[|files| - 1];
      if cs.lower(name) == cs.lower(Target(f.name)) then Some(f.contents)
      else LastWritten(cs, files[..|files| - 1], name)
  }

  /** What is read under `name` after the run. */
  ghost function MapAfter(cs: Charset, v: Volume, l: Layout, files: seq<File>, name: Name): seq<byte>
    requires Keyed(l)
  {
    match LastWritten(cs, files, name)
    case Some(contents) => contents
    case None => FileMap(cs, v, l, name)
  }

  /** How many clusters the file has after the run. */
  ghost function LengthAfter(cs: Charset, g: Geometry, l: Layout, files: seq<File>, name: Name): nat
    requires g.bytesPerCluster > 0
  {
    match LastWritten(cs, files, name)
    case Some(contents) => ClustersNeeded(g, |contents|)
    case None => ChainLength(cs, l, name)
  }

  /** On FAT12 no write of the run makes a file shorter without emptying it. */
  ghost predicate NeverShortens(cs: Charset, g: Geometry, l: Layout, files: seq<File>)
    requires g.bytesPerCluster > 0
  {
    g.kind.FAT12? ==>
      forall k | 0 <= k < |files| ::
        !(0 < ClustersNeeded(g, |files[k].contents|) < LengthAfter(cs, g, l, files[..k], Target(files[k].name)))
  }

  lemma {:induction false} LastStep(cs: Charset, files: seq<File>, k: nat, name: Name)
    requires k < |files|
    ensures LastWritten(cs, files[..k + 1], name)
            == if cs.lower(name) == cs.lower(Target(files[k].name)) then Some(files[k].contents)
               else LastWritten(cs, files[..k], name)
  {
    assert files[..k + 1][..k] == files[..k];
  }

  /** How many clusters the files of the run take that were too short when they were written. */
  ghost function TakenBy(cs: Charset, g: Geometry, l: Layout, files: seq<File>): nat
    requires g.bytesPerCluster > 0
  {
    if files == [] then 0
    else
      var before, f := files[..|files| - 1], files[|files| - 1];
      TakenBy(cs, g, l, before)
      + Missing(ClustersNeeded(g, |f.contents|), LengthAfter(cs, g, l, before, Target(f.name)))
  }

  /** The states of a run: after its first `k` writes. */
  ghost predicate Ran(cs: Charset, g: Geometry, v: Volume, l: Layout, v': Volume, l': Layout, files: seq<File>) {
    && WellFormed(g, v, l) && WellFormed(g, v', l')
    && |l.root| <= |l'.root| && CountKept(g, v, v', Missing(|l'.root|, |l.root|) + TakenBy(cs, g, l, files))
    && (forall q: Name :: FileMap(cs, v', l', q) == MapAfter(cs, v, l, files, q))
    && (forall q: Name :: ChainLength(cs, l', q) == LengthAfter(cs, g, l, files, q))
  }

  lemma {:induction false} RanSelf(cs: Charset, g: Geometry, v: Volume, l: Layout)
    requires WellFormed(g, v, l) && InfoFits(g, v)
    ensures Ran(cs, g, v, l, v, l, [])
  {
    SteadyIsKeyed(g, v, l);
    hide FileMap, ChainLength, Steady, Consistent, Shaped;
    assert |v.fats| > 0 by { ShapedTables(g, v); }
  }

  lemma ShapedTables(g: Geometry, v: Volume)
    requires Shaped(g, v)
    ensures |v.fats| > 0
  {
  }

  lemma {:induction false} RanStep(cs: Charset, g: Geometry, v: Volume, l: Layout, v1: Volume, l1: Layout, v2: Volume,
                                   l2: Layout, files: seq<File>, k: nat)
    requires k < |files| && Ran(cs, g, v, l, v1, l1, files[..k])
    requires FileWritten(cs, g, v1, l1, v2, l2, Target(files[k].name), files[k].contents)
    ensures Ran(cs, g, v, l, v2, l2, files[..k + 1])
  {
    hide *;
    var name, contents := Target(files[k].name), files[k].contents;
    RanAre(cs, g, v, l, v1, l1, files[..k]);
    WrittenParts(cs, g, v1, l1, v2, l2, name, contents);
    TakenIs(cs, g, l, l1, l2, files, k);
    CountKeptTransitive(g, v, v1, v2, Missing(|l1.root|, |l.root|) + TakenBy(cs, g, l, files[..k]),
                        ClustersTaken(cs, g, l1, l2, name, contents));
    forall q: Name
      ensures FileMap(cs, v2, l2, q) == MapAfter(cs, v, l, files[..k + 1], q)
      ensures ChainLength(cs, l2, q) == LengthAfter(cs, g, l, files[..k + 1], q)
    {
      AfterStep(cs, g, v, l, files, k, q);
    }
    RanIs(cs, g, v, l, v2, l2, files[..k + 1]);
  }

  /** One more write in the run. */
  lemma AfterStep(cs: Charset, g: Geometry, v: Volume, l: Layout, files: seq<File>, k: nat, q: Name)
    requires k < |files| && g.bytesPerCluster > 0 && Keyed(l)
    ensures MapAfter(cs, v, l, files[..k + 1], q)
            == if cs.lower(q) == cs.lower(Target(files[k].name)) then files[k].contents
               else MapAfter(cs, v, l, files[..k], q)
    ensures LengthAfter(cs, g, l, files[..k + 1], q)
            == if cs.lower(q) == cs.lower(Target(files[k].name)) then ClustersNeeded(g, |files[k].contents|)
               else LengthAfter(cs, g, l, files[..k], q)
  {
    LastStep(cs, files, k, q);
    hide LastWritten, FileMap, ChainLength, ClustersNeeded, Target;
  }

  lemma RanAre(cs: Charset, g: Geometry, v: Volume, l: Layout, v': Volume, l': Layout, files: seq<File>)
    requires Ran(cs, g, v, l, v', l', files)
    ensures WellFormed(g, v, l) && WellFormed(g, v', l') && Keyed(l) && Keyed(l') && g.bytesPerCluster > 0
    ensures |l.root| <= |l'.root| && CountKept(g, v, v', Missing(|l'.root|, |l.root|) + TakenBy(cs, g, l, files))
    ensures forall q: Name :: FileMap(cs, v', l', q) == MapAfter(cs, v, l, files, q)
    ensures forall q: Name :: ChainLength(cs, l', q) == LengthAfter(cs, g, l, files, q)
  {
    WellFormedKeyed(g, v, l);
    WellFormedKeyed(g, v', l');
    hide WellFormed, CountKept, FileMap, MapAfter, ChainLength, LengthAfter, TakenBy, Keyed;
  }

  lemma RanIs(cs: Charset, g: Geometry, v: Volume, l: Layout, v': Volume, l': Layout, files: seq<File>)
    requires WellFormed(g, v, l) && WellFormed(g, v', l') && Keyed(l) && Keyed(l') && g.bytesPerCluster > 0
    requires |l.root| <= |l'.root| && CountKept(g, v, v', Missing(|l'.root|, |l.root|) + TakenBy(cs, g, l, files))
    requires forall q: Name :: FileMap(cs, v', l', q) == MapAfter(cs, v, l, files, q)
    requires forall q: Name :: ChainLength(cs, l', q) == LengthAfter(cs, g, l, files, q)
    ensures Ran(cs, g, v, l, v', l', files)
  {
    hide WellFormed, CountKept, FileMap, MapAfter, ChainLength, LengthAfter, TakenBy;
  }

  lemma TakenIs(cs: Charset, g: Geometry, l: Layout, l1: Layout, l2: Layout, files: seq<File>, k: nat)
    requires k < |files| && g.bytesPerCluster > 0 && |l.root| <= |l1.root| <= |l2.root|
    requires ChainLength(cs, l1, Target(files[k].name)) == LengthAfter(cs, g, l, files[..k], Target(files[k].name))
    ensures Missing(|l2.root|, |l.root|) + TakenBy(cs, g, l, files[..k + 1])
            == Missing(|l1.root|, |l.root|) + TakenBy(cs, g, l, files[..k])
               + ClustersTaken(cs, g, l1, l2, Target(files[k].name), files[k].contents)
  {
    assert files[..k + 1][..k] == files[..k];
    hide ChainLength, LengthAfter, ClustersNeeded, Target;
  }

  lemma RanParts(cs: Charset, g: Geometry, v: Volume, l: Layout, v1: Volume, l1: Layout, files: seq<File>, k: nat)
    requires k < |files| && Ran(cs, g, v, l, v1, l1, files[..k])
    requires g.bytesPerCluster > 0 && NeverShortens(cs, g, l, files)
    ensures WellFormed(g, v1, l1) && !ShortensOnFat12(cs, g, l1, Target(files[k].name), files[k].contents)
  {
    hide FileMap, ChainLength, Steady, Consistent, CountKept, LastWritten, ClustersNeeded;
  }

  /** On a reliable device, the directory and the volume have room for the file, and its directory is there. */
  ghost predicate CanWrite(fat: FatPartition, f: File)
    reads fat`vol, fat`lay
  {
    && fat.part.Dependable() && f.name != [] && fat.DirRoom(Target(f.name), true)
    && HasRoom(fat.cs, fat.g, fat.vol, fat.lay, Target(f.name), f.contents)
    && (SLASH !in f.name || fat.HasDirectory(f.name))
  }

  lemma CanWriteIs(fat: FatPartition, f: File)
    requires CanWrite(fat, f)
    ensures fat.part.Dependable() && f.name != [] && fat.DirRoom(Target(f.name), true)
    ensures HasRoom(fat.cs, fat.g, fat.vol, fat.lay, Target(f.name), f.contents)
    ensures SLASH !in f.name || fat.HasDirectory(f.name)
  {
    hide FatPartition.DirRoom, HasRoom, FatPartition.HasDirectory, Target;
  }

  /** The writes of `apply`, one file after the other; the first error ends the run. */
  method WriteFiles(fat: FatPartition, files: seq<File>, date: nat, time: nat) returns (ok: bool)
    requires fat.Valid() && WellFormed(fat.g, fat.vol, fat.lay) && fat.g.bytesPerCluster > 0
    requires forall k | 0 <= k < |files| :: Storable(Target(files[k].name))
    requires NeverShortens(fat.cs, fat.g, fat.lay, files)
    modifies fat, fat.part, fat.part.dw, fat.part.dw.file`pos
    ensures fat.Valid()
    ensures ok ==> Ran(fat.cs, fat.g, old(fat.vol), old(fat.lay), fat.vol, fat.lay, files)
    ensures files == [] || (|files| == 1 && old(CanWrite(fat, files[0]))) ==> ok
  {
    hide *;
    ghost var v, l, alone := fat.vol, fat.lay, |files| == 1 && CanWrite(fat, files[0]);
    fat.Facts();
    RanSelf(fat.cs, fat.g, v, l);
    var k := 0;
    assert files[..0] == [] && files[..|files|] == files;
    while k < |files|
      invariant 0 <= k <= |files| && fat.Valid() && Ran(fat.cs, fat.g, v, l, fat.vol, fat.lay, files[..k])
      invariant k == 0 && alone ==> |files| == 1 && CanWrite(fat, files[0])
    {
      if alone {
        CanWriteIs(fat, files[0]);
      }
      ghost var v1, l1 := fat.vol, fat.lay;
      RanParts(fat.cs, fat.g, v, l, v1, l1, files, k);
      StorableNeverHides(fat.cs, l1, Target(files[k].name));
      ok := fat.WriteFile(files[k].name, files[k].contents, date, time);
      if !ok {
        return;
      }
      RanStep(fat.cs, fat.g, v, l, v1, l1, fat.vol, fat.lay, files, k);
      k := k + 1;
    }
    return true;
  }

  // ----- the whole of `apply` -----

  /** The partition at this place is taken for a FAT volume. */
  ghost predicate Mountable(view: View, start: nat, len: nat) {
    len >= 512 && Parse(Window(view, start, len)[..512]).Mounted?
  }

  /** The partition holds a well-formed volume that the files can be written to. */
  ghost predicate Ready(cs: Charset, view: View, start: nat, len: nat, l: Layout, files: seq<File>) {
    var s := Window(view, start, len);
    && Mountable(view, start, len)
    && var g := Parse(s[..512]).g;
       Sane(g, len) && g.bytesPerCluster > 0 && WellFormed(g, Abs(g, s), l) && NeverShortens(cs, g, l, files)
  }

  /** The volume in the partition after the run. */
  ghost predicate Applied(cs: Charset, view: View, start: nat, len: nat, l: Layout, files: seq<File>, s': seq<byte>,
                          l': Layout) {
    && Ready(cs, view, start, len, l, files) && |s'| == len
    && var g := Parse(Window(view, start, len)[..512]).g;
       Ran(cs, g, Abs(g, Window(view, start, len)), l, Abs(g, s'), l', files)
  }

  lemma SameWindow(view: View, start: nat, len: nat, s: seq<byte>)
    requires |s| == len && forall i | 0 <= i < len :: s[i] == view(start + i)
    ensures s == Window(view, start, len)
  {
  }

  lemma ReadyParts(cs: Charset, view: View, start: nat, len: nat, l: Layout, files: seq<File>, s: seq<byte>,
                   g: Geometry)
    requires Ready(cs, view, start, len, l, files) && s == Window(view, start, len) && |s| == len
    requires len >= 512 && Parse(s[..512]) == Mounted(g)
    ensures Sane(g, |s|) && g.bytesPerCluster > 0 && WellFormed(g, Abs(g, s), l) && NeverShortens(cs, g, l, files)
  {
    hide NeverShortens, WellFormed, Abs, Sane, Parse, Window;
  }

  lemma MountableIs(view: View, start: nat, len: nat, s: seq<byte>)
    requires s == Window(view, start, len) && len >= 512 && |s| == len
    ensures Mountable(view, start, len) <==> Parse(s[..512]).Mounted?
  {
  }

  lemma AppliedIs(cs: Charset, view: View, start: nat, len: nat, l: Layout, files: seq<File>, s: seq<byte>, g: Geometry,
                  s': seq<byte>, l': Layout)
    requires Ready(cs, view, start, len, l, files) && s == Window(view, start, len) && |s| == len && |s'| == len
    requires len >= 512 && Parse(s[..512]) == Mounted(g) && Sane(g, len)
    requires Ran(cs, g, Abs(g, s), l, Abs(g, s'), l', files)
    ensures Applied(cs, view, start, len, l, files, s', l')
  {
    hide NeverShortens, WellFormed, Abs, Sane, Parse, Window, Ran;
  }

  lemma OutsideView(part: Partition, view: View)
    requires part.Valid() && forall o: nat :: part.outside(o) == view(o)
    ensures part.dw.Valid() && |part.image| == part.partLen
    ensures forall o: nat | !(part.partStart <= o < part.partStart + part.partLen) :: part.dw.At(o) == view(o)
    ensures forall k | 0 <= k < part.partLen :: part.image[k] == part.dw.At(part.partStart + k)
  {
    part.View(0);
    forall o: nat ensures part.dw.At(o) == if part.partStart <= o < part.partStart + part.partLen
                                           then part.image[o - part.partStart] else view(o) {
      part.View(o);
    }
    hide *;
  }

  lemma FatParts(fat: FatPartition)
    requires fat.Valid()
    ensures fat.part.Valid() && |fat.part.image| == fat.part.partLen && Sane(fat.g, fat.part.partLen)
    ensures fat.vol == Abs(fat.g, fat.part.image)
  {
  }

  /**
   * What happens in the configuration partition: files are written to a volume that is well formed, or anything at all
   * that code can do through the cursor of the partition, whatever the partition holds.
   */
  datatype Work =
    | Files(cs: Charset, files: seq<File>, date: nat, time: nat)
    | Anything(client: Client, steps: nat)

  /** Nothing is asked of the partition unless the result of the writes is to be known. */
  ghost predicate Prepared(work: Work, view: View, l: Layout) {
    work.Files? ==>
      && (forall k | 0 <= k < |work.files| :: Storable(Target(work.files[k].name)))
      && forall i |
        FirstConfig(view, i) && Mountable(view, EntryStart(EntryAt(view, i)), EntryLength(EntryAt(view, i))) ::
        Ready(work.cs, view, EntryStart(EntryAt(view, i)), EntryLength(EntryAt(view, i)), l, work.files)
  }

  lemma PreparedIs(work: Work, view: View, l: Layout)
    requires work.Files? && Prepared(work, view, l)
    ensures forall k | 0 <= k < |work.files| :: Storable(Target(work.files[k].name))
    ensures forall i |
      FirstConfig(view, i) && Mountable(view, EntryStart(EntryAt(view, i)), EntryLength(EntryAt(view, i))) ::
      Ready(work.cs, view, EntryStart(EntryAt(view, i)), EntryLength(EntryAt(view, i)), l, work.files)
  {
    hide Ready, FirstConfig, Mountable, EntryAt, Storable, Target;
  }

  lemma FirstOrNone(view: View)
    ensures forall i | FirstConfig(view, i) :: !NoConfig(view)
  {
    hide IsConfig, EntryAt, IsGpt, Le32, Header;
  }

  /**
   * Finds the configuration partition and does the work. Whatever happens and whatever the partition holds, also when
   * an error ends it midway, no byte outside the partition changes; without such a partition nothing changes at all.
   */
  method Apply(dw: DeviceWrapper, work: Work, ghost view: View, ghost l: Layout)
    returns (ok: bool, applied: bool, start: nat, len: nat, ghost i: nat, ghost s': seq<byte>, ghost l': Layout)
    requires dw.Valid() && forall o: nat :: dw.At(o) == view(o)
    requires Prepared(work, view, l)
    modifies dw, dw.file`pos
    ensures dw.Valid()
    ensures forall o: nat | !(start <= o < start + len) :: dw.At(o) == view(o)
    ensures len > 0 ==>
      FirstConfig(view, i) && start == EntryStart(EntryAt(view, i)) && len == EntryLength(EntryAt(view, i))
    ensures ok && !applied ==> len == 0 && NoConfig(view)
    ensures ok && applied && work.Files? ==>
      && Applied(work.cs, view, start, len, l, work.files, s', l')
      && forall k | 0 <= k < len :: s'[k] == dw.At(start + k)
    ensures dw.file.reliable && TableWithin(view, |dw.file.content|) ==>
      (applied <==> !NoConfig(view)) && (!applied ==> ok)
  {
    hide *;
    FirstOrNone(view);
    s', l' := [], l;
    ok, applied, start, len, i := FindConfigPartition(dw, view);
    if !ok || !applied {
      return ok, false, 0, 0, i, s', l';
    }
    match work
    case Files(cs, files, date, time) =>
      PreparedIs(work, view, l);
      ok, s', l' := ApplyFiles(dw, cs, files, date, time, view, l, start, len);
    case Anything(client, steps) =>
      var part := new Partition(dw, start, len);
      var answers := Drive(part, client, steps);
      ok := *;
  }

  /** The writes of `apply` in the partition at this place. */
  method ApplyFiles(dw: DeviceWrapper, cs: Charset, files: seq<File>, date: nat, time: nat, ghost view: View,
                    ghost l: Layout, start: nat, len: nat)
    returns (ok: bool, ghost s': seq<byte>, ghost l': Layout)
    requires dw.Valid() && forall o: nat :: dw.At(o) == view(o)
    requires forall k | 0 <= k < |files| :: Storable(Target(files[k].name))
    requires Mountable(view, start, len) ==> Ready(cs, view, start, len, l, files)
    modifies dw, dw.file`pos
    ensures dw.Valid()
    ensures forall o: nat | !(start <= o < start + len) :: dw.At(o) == view(o)
    ensures ok ==>
      && Applied(cs, view, start, len, l, files, s', l')
      && forall k | 0 <= k < len :: s'[k] == dw.At(start + k)
  {
    hide *;
    s', l' := [], l;
    var part, m;
    ok, part, m := Probe(dw, start, len);
    OutsideView(part, view);
    ghost var s := part.image;
    SameWindow(view, start, len, s);
    if !ok || !m.Mounted? {
      return false, s', l';
    }
    MountableIs(view, start, len, s);
    ReadyParts(cs, view, start, len, l, files, s, m.g);
    var fat := new FatPartition(cs, m.g, part);
    fat.lay := l;
    FatParts(fat);
    ok := WriteFiles(fat, files, date, time);
    FatParts(fat);
    OutsideView(part, view);
    if ok {
      s', l' := part.image, fat.lay;
      AppliedIs(cs, view, start, len, l, files, s, m.g, s', l');
    }
  }
}
