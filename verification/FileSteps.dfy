/** The steps of creating and writing a file, at the level of the volume and its layout. */
module FileSteps {
  import opened Arith
  import opened Bytes
  import opened Options
  import opened FatCodec
  import opened Volumes
  import opened Chains
  import opened FsInfos
  import opened Names
  import opened Directories
  import opened Layouts
  import opened DirSteps

  // ----- creating an entry -----

  /** The layout after the entries of a new, empty file were written; one that reads as deleted has no chain. */
  ghost function WithNew(l: Layout, root: seq<nat>, name: Name, short: seq<byte>, date: nat, time: nat): Layout
    requires |short| == 11
  {
    var j := |l.entries| + FragmentCount(name);
    if short[0] == DELETED then l.(root := root, entries := l.entries + NewEntries(name, short, date, time))
    else Layout(root, l.entries + NewEntries(name, short, date, time), l.firsts[j := 0], l.chains[j := []])
  }

  lemma OrdinalNotZero(i: nat, n: nat)
    requires 1 <= i <= n <= 256
    ensures Ordinal(i, n) != 0
  {
  }

  /** What the new entries look like: fragments that are no end markers, then one live entry. */
  lemma NewEntriesShape(a: seq<Entry>, name: Name, short: seq<byte>, date: nat, time: nat)
    requires |short| == 11 && FragmentCount(name) <= 256
    ensures var b, n := a + NewEntries(name, short, date, time), FragmentCount(name);
            && |b| == |a| + n + 1
            && (forall j | |a| <= j < |a| + n :: IsFragment(b[j]) && b[j][0] != 0)
            && b[|a| + n] == ShortEntry(short, date, time)
            && b[|a| + n][0] == short[0]
  {
    var b, n, sum := a + NewEntries(name, short, date, time), FragmentCount(name), Checksum(short);
    var e := ShortEntry(short, date, time);
    assert ShortBytes(e)[0] == e[0];
    hide ShortEntry, FragmentCount, Checksum, Ordinal;
    forall j | |a| <= j < |a| + n ensures IsFragment(b[j]) && b[j][0] != 0 {
      FragmentsAt(name, sum, n, j - |a|);
      OrdinalNotZero(n - (j - |a|), n);
      assert b[j] == Fragments(name, sum, n)[j - |a|];
    }
  }

  lemma NewKeyed(l: Layout, root: seq<nat>, name: Name, short: seq<byte>, date: nat, time: nat)
    requires Keyed(l) && |short| == 11 && FragmentCount(name) <= 256
    ensures Keyed(WithNew(l, root, name, short, date, time))
  {
    NewEntriesShape(l.entries, name, short, date, time);
    var l' := WithNew(l, root, name, short, date, time);
    hide FragmentCount, NewEntries;
    forall k ensures k in l'.chains <==> 0 <= k < |l'.entries| && IsLive(l'.entries[k]) {
      if 0 <= k < |l.entries| {
        assert l'.entries[k] == l.entries[k];
      }
    }
  }

  /** A file without clusters joins the family. */
  lemma NewSound(g: Geometry, v: Volume, l: Layout, name: Name, short: seq<byte>, date: nat, time: nat)
    requires Sound(g, v, l) && |short| == 11 && FragmentCount(name) <= 256
    ensures Sound(g, v, WithNew(l, l.root, name, short, date, time))
  {
    NewKeyed(l, l.root, name, short, date, time);
    var l' := WithNew(l, l.root, name, short, date, time);
    var j := |l.entries| + FragmentCount(name);
    hide NewEntries, FragmentCount, FreeAddressable, Shaped, Family, Addressable;
    if short[0] == DELETED {
      assert AllChains(l') == AllChains(l) && AllFirsts(g, l') == AllFirsts(g, l);
    } else {
      assert AllChains(l') == AllChains(l)[j := []];
      assert AllFirsts(g, l') == AllFirsts(g, l)[j := 0];
      EmptyJoins(g.kind, v.fats[0], AllFirsts(g, l), AllChains(l), j);
    }
  }

  lemma EmptyJoins(kind: FatKind, fat: seq<nat>, firsts: map<int, nat>, chains: map<int, seq<nat>>, j: int)
    requires Family(kind, fat, firsts, chains) && j !in chains
    ensures Family(kind, fat, firsts[j := 0], chains[j := []])
  {
    assert Chain(kind, fat, 0, []);
    hide Chain;
  }

  lemma NewConsistent(g: Geometry, l: Layout, root: seq<nat>, name: Name, short: seq<byte>, date: nat, time: nat)
    requires g.bytesPerCluster > 0 && Keyed(l) && Consistent(g, l)
    requires |short| == 11 && FragmentCount(name) <= 256 && !Taken(l.entries, short)
    ensures Keyed(WithNew(l, root, name, short, date, time))
    ensures Consistent(g, WithNew(l, root, name, short, date, time))
  {
    NewKeyed(l, root, name, short, date, time);
    NewEntriesShape(l.entries, name, short, date, time);
    UniqueCreate(l.entries, name, short, date, time);
    var l' := WithNew(l, root, name, short, date, time);
    var j, e := |l.entries| + FragmentCount(name), ShortEntry(short, date, time);
    assert First(g.kind, e) == 0 && FileSize(e) == 0;
    assert ClustersNeeded(g, 0) == 0;
    hide NewEntries, FragmentCount, UniqueShort, ShortEntry, ClustersNeeded, FileSize, First;
    forall k | k in l'.chains
      ensures l'.firsts[k] == First(g.kind, l'.entries[k])
      ensures || |l'.chains[k]| == ClustersNeeded(g, FileSize(l'.entries[k]))
              || (IsDirectory(l'.entries[k]) && FileSize(l'.entries[k]) == 0)
    {
      if k != j {
        assert k in l.chains && l'.entries[k] == l.entries[k];
      }
    }
  }

  lemma NewListed(g: Geometry, v: Volume, l: Layout, root: seq<nat>, name: Name, short: seq<byte>, date: nat, time: nat)
    requires (forall i | 0 <= i < |l.entries| :: l.entries[i][0] != 0) && |short| == 11 && short[0] != 0
    requires FragmentCount(name) <= 256
    requires DirHolds(g, v, root, l.entries + NewEntries(name, short, date, time) + [END])
    ensures Listed(g, v, WithNew(l, root, name, short, date, time))
  {
    NewEntriesShape(l.entries, name, short, date, time);
    var b := l.entries + NewEntries(name, short, date, time);
    var all := b + [END];
    hide NewEntries, FragmentCount, RootInside, SlotCount, SlotAt;
    assert all[|b|] == END;
    forall i | 0 <= i < |b| ensures b[i][0] != 0 && all[i] == b[i] {
      if i < |l.entries| {
        assert b[i] == l.entries[i];
      }
    }
  }

  /** Creating a file keeps the volume well formed and every other file as it was. */
  lemma Created(g: Geometry, v: Volume, l: Layout, v1: Volume, l1: Layout, name: Name, short: seq<byte>, date: nat,
                time: nat)
    requires WellFormed(g, v, l) && Writable(name) && Pick(l.entries, name) == Some(short)
    requires Sound(g, v1, l1) && DirGrown(g, v, l, v1, l1) && |short| == 11
    requires DirHolds(g, v1, l1.root, l.entries + NewEntries(name, short, date, time) + [END])
    ensures WellFormed(g, v1, WithNew(l, l1.root, name, short, date, time))
  {
    hide *;
    CreatedParts(g, v, l, v1, l1, name, short);
    NewSound(g, v1, l1, name, short, date, time);
    NewConsistent(g, l, l1.root, name, short, date, time);
    NewListed(g, v1, l, l1.root, name, short, date, time);
    CreatedIs(g, v1, l, l1, name, short, date, time);
  }

  lemma CreatedParts(g: Geometry, v: Volume, l: Layout, v1: Volume, l1: Layout, name: Name, short: seq<byte>)
    requires WellFormed(g, v, l) && Writable(name) && Pick(l.entries, name) == Some(short) && |short| == 11
    requires DirGrown(g, v, l, v1, l1)
    ensures short[0] != 0 && (short[0] == DELETED <==> IsHidden(name))
    ensures !Taken(l.entries, short) && FragmentCount(name) <= 256
    ensures Keyed(l) && g.bytesPerCluster > 0 && Consistent(g, l)
    ensures forall i | 0 <= i < |l.entries| :: l.entries[i][0] != 0
    ensures l1.entries == l.entries && l1.firsts == l.firsts && l1.chains == l.chains
  {
    ShortIsLive(name);
    hide Sound, SpaceGrown, BaseShort, PickFrom, Taken;
  }

  lemma CreatedIs(g: Geometry, v: Volume, l: Layout, l1: Layout, name: Name, short: seq<byte>, date: nat, time: nat)
    requires |short| == 11 && l1.entries == l.entries && l1.firsts == l.firsts && l1.chains == l.chains
    requires Sound(g, v, WithNew(l1, l1.root, name, short, date, time))
    requires var l' := WithNew(l, l1.root, name, short, date, time);
      Listed(g, v, l') && g.bytesPerCluster > 0 && Keyed(l') && Consistent(g, l')
    ensures WellFormed(g, v, WithNew(l, l1.root, name, short, date, time))
  {
    hide *;
    SameNew(l, l1, name, short, date, time);
    WellFormedIs(g, v, WithNew(l, l1.root, name, short, date, time));
  }

  lemma SameNew(l: Layout, l1: Layout, name: Name, short: seq<byte>, date: nat, time: nat)
    requires |short| == 11 && l1.entries == l.entries && l1.firsts == l.firsts && l1.chains == l.chains
    ensures WithNew(l1, l1.root, name, short, date, time) == WithNew(l, l1.root, name, short, date, time)
  {
    hide NewEntries, FragmentCount;
  }

  lemma WellFormedIs(g: Geometry, v: Volume, l: Layout)
    requires Sound(g, v, l) && Listed(g, v, l) && g.bytesPerCluster > 0 && Keyed(l) && Consistent(g, l)
    ensures WellFormed(g, v, l)
  {
    hide Sound, Listed, Consistent, Keyed;
  }

  // ----- overwriting an entry -----

  lemma SlotPosPrefix(g: Geometry, root: seq<nat>, root': seq<nat>, i: nat)
    requires g.kind.FAT32? ==> g.bytesPerCluster >= 32 && g.bytesPerCluster % 32 == 0
    requires root <= root' && (g.kind.FAT32? ==> i < |root| * SlotsPerCluster(g))
    ensures g.kind.FAT32? ==> i < |root'| * SlotsPerCluster(g)
    ensures SlotPos(g, root', i) == SlotPos(g, root, i)
  {
    MulLe(|root|, |root'|, SlotsPerCluster(g));
    if g.kind.FAT32? {
      SlotPlace(g, root, i);
    }
  }

  /**
   * The layout with `e` in slot `i`; when it reads as deleted, the file there is gone, and its clusters stay in use.
   */
  ghost function Overwritten(l: Layout, i: nat, e: Entry): Layout
    requires i < |l.entries|
  {
    if e[0] == DELETED then Layout(l.root, l.entries[i := e], l.firsts - {i}, l.chains - {i})
    else l.(entries := l.entries[i := e])
  }

  /** Overwriting the entry of a slot with one that compares equal to it. */
  lemma UpdateSteady(g: Geometry, s: seq<byte>, v: Volume, l: Layout, l1: Layout, i: nat, e: Entry)
    requires Sane(g, |s|) && InfoFits(g, Abs(g, s)) && Scanned(g, v, l, Abs(g, s), l1)
    requires i < |l.entries| && !IsFragment(e) && UpdatesAt(l.entries, i, e)
    ensures (g.kind.FAT32? ==>
      g.bytesPerCluster >= 32 && g.bytesPerCluster % 32 == 0 && i < |l1.root| * SlotsPerCluster(g))
    ensures 0 <= SlotPos(g, l1.root, i) && SlotPos(g, l1.root, i) + 32 <= |s|
    ensures var w, l' := Abs(g, Splice(s, SlotPos(g, l1.root, i), e)), Overwritten(l1, i, e);
            Steady(g, w, l') && SpaceGrown(g, v, l.root, w, l'.root)
  {
    var v1 := Abs(g, s);
    RootInTable(g, v1, l1);
    SlotWriteImage(g, s, l1.root, i, e);
    SlotWriteSound(g, v1, l1, i, e);
    DirGrownTransitive(g, v, l, v1, l1, WithSlot(g, v1, l1.root, i, e), l1);
    UpdateListed(g, v1, l1, i, e);
    UpdateSound(g, WithSlot(g, v1, l1.root, i, e), l1, i, e);
    hide Sound, SpaceGrown, Listed, WithSlot, Abs, SlotPos;
  }

  lemma UpdateSound(g: Geometry, v: Volume, l: Layout, i: nat, e: Entry)
    requires Sound(g, v, l) && i < |l.entries| && !IsFragment(e) && UpdatesAt(l.entries, i, e)
    ensures Sound(g, v, Overwritten(l, i, e))
  {
    assert e[0] == ShortBytes(e)[0] && l.entries[i][0] == ShortBytes(l.entries[i])[0];
    var l' := Overwritten(l, i, e);
    if e[0] == DELETED {
      SoundWithout(g, v, l, i, l');
    } else {
      hide Family, Inside, FreeAddressable, Shaped;
      assert AllChains(l') == AllChains(l) && AllFirsts(g, l') == AllFirsts(g, l);
    }
  }

  /** A file that is forgotten leaves its clusters in use, which harms no other chain. */
  lemma SoundWithout(g: Geometry, v: Volume, l: Layout, i: int, l': Layout)
    requires Sound(g, v, l) && Keyed(l') && i != ROOT
    requires l'.root == l.root && l'.firsts == l.firsts - {i} && l'.chains == l.chains - {i}
    ensures Sound(g, v, l')
  {
    hide FreeAddressable, Shaped, Chain;
    assert AllChains(l') == AllChains(l) - {i} && AllFirsts(g, l') == AllFirsts(g, l) - {i};
  }

  lemma UpdateListed(g: Geometry, v: Volume, l: Layout, i: nat, e: Entry)
    requires Steady(g, v, l) && i < |l.entries| && UpdatesAt(l.entries, i, e) && i < SlotCount(g, v, l.root)
    requires RootInside(g, v, l.root) && Distinct(l.root)
    ensures Listed(g, WithSlot(g, v, l.root, i, e), Overwritten(l, i, e))
  {
    assert e[0] == ShortBytes(e)[0] && l.entries[i][0] == ShortBytes(l.entries[i])[0];
    var w := WithSlot(g, v, l.root, i, e);
    hide Sound, RootInside, SlotAt;
    assert SlotCount(g, w, l.root) == SlotCount(g, v, l.root);
    forall j | 0 <= j < SlotCount(g, v, l.root)
      ensures SlotAt(g, w, l.root, j) == if j == i then e else SlotAt(g, v, l.root, j)
    {
      SlotWritten(g, v, l.root, i, e, j);
    }
  }

  /** Slots with entries were there from the start, so that a growing directory does not move them. */
  lemma SlotStays(g: Geometry, len: nat, v: Volume, l: Layout, v': Volume, l': Layout, i: nat)
    requires Sane(g, len) && Steady(g, v, l) && Scanned(g, v, l, v', l') && i < |l.entries|
    ensures g.kind.FAT32? ==> g.bytesPerCluster >= 32 && g.bytesPerCluster % 32 == 0
    ensures g.kind.FAT32? ==> i < |l.root| * SlotsPerCluster(g) && i < |l'.root| * SlotsPerCluster(g)
    ensures SlotPos(g, l'.root, i) == SlotPos(g, l.root, i)
  {
    SlotPosPrefix(g, l.root, l'.root, i);
  }

  // ----- contents -----

  lemma {:induction false} GatherConcat(data: seq<seq<byte>>, a: seq<nat>, b: seq<nat>)
    ensures Gather(data, a + b) == Gather(data, a) + Gather(data, b)
  {
    if a == [] {
      assert a + b == b;
    } else {
      assert (a + b)[1..] == a[1..] + b;
      GatherConcat(data, a[1..], b);
    }
  }

  lemma {:induction false} GatherTake(data: seq<seq<byte>>, chain: seq<nat>, k: nat)
    requires k < |chain| && chain[k] < |data|
    ensures Gather(data, chain[..k + 1]) == Gather(data, chain[..k]) + data[chain[k]]
  {
    assert chain[..k + 1] == chain[..k] + [chain[k]];
    GatherConcat(data, chain[..k], [chain[k]]);
    assert Gather(data, [chain[k]]) == data[chain[k]] + Gather(data, []);
  }

  lemma {:induction false} GatherSize(g: Geometry, data: seq<seq<byte>>, chain: seq<nat>)
    requires forall k | 0 <= k < |chain| :: chain[k] < |data| && |data[chain[k]]| == g.bytesPerCluster
    ensures |Gather(data, chain)| == |chain| * g.bytesPerCluster
  {
    if chain != [] {
      GatherSize(g, data, chain[1..]);
      MulStep(|chain| - 1, g.bytesPerCluster);
    }
  }

  /** The first clusters of a chain hold the first bytes. */
  lemma GatherPrefix(data: seq<seq<byte>>, chain: seq<nat>, k: nat)
    requires k <= |chain|
    ensures Gather(data, chain[..k]) <= Gather(data, chain)
  {
    assert chain == chain[..k] + chain[k..];
    GatherConcat(data, chain[..k], chain[k..]);
  }

  /** The number of clusters that `size` bytes need, as a bound on positions. */
  lemma NeededBounds(g: Geometry, size: nat)
    requires g.bytesPerCluster > 0
    ensures var n := ClustersNeeded(g, size);
            && n * g.bytesPerCluster >= size
            && (n > 0 ==> (n - 1) * g.bytesPerCluster < size) && (n == 0 <==> size == 0)
  {
    var m := g.bytesPerCluster;
    DivMulLe(size + m - 1, m);
    var n := ClustersNeeded(g, size);
    if n > 0 {
      MulStep(n - 1, m);
    }
  }

  /** What the chain of the file in slot `i` looks like. */
  lemma FileChain(g: Geometry, v: Volume, l: Layout, i: nat)
    requires WellFormed(g, v, l) && i in l.chains
    ensures i < |l.entries| && l.firsts[i] == First(g.kind, l.entries[i])
    ensures Chain(g.kind, v.fats[0], First(g.kind, l.entries[i]), l.chains[i])
    ensures forall k | 0 <= k < |l.chains[i]| ::
      && 2 <= l.chains[i][k] < |v.data| && InTable(g.kind, v.fats[0], l.chains[i][k])
      && |v.data[l.chains[i][k]]| == g.bytesPerCluster
    ensures FileSize(l.entries[i]) > 0 ==> |l.chains[i]| == ClustersNeeded(g, FileSize(l.entries[i]))
  {
    var all, chain := AllChains(l), l.chains[i];
    assert i in all && all[i] == chain;
    assert Chain(g.kind, v.fats[0], AllFirsts(g, l)[i], all[i]);
    forall k | 0 <= k < |chain| ensures 2 <= chain[k] < |v.data| && InTable(g.kind, v.fats[0], chain[k]) {
      assert InTable(g.kind, v.fats[0], chain[k]);
      assert chain[k] in all[i];
    }
  }

  /** The chain in slot `i`, whatever the entry there records. */
  lemma SoundChain(g: Geometry, v: Volume, l: Layout, i: int)
    requires Sound(g, v, l) && i in l.chains
    ensures |v.fats| > 0 && i in l.firsts && Chain(g.kind, v.fats[0], l.firsts[i], l.chains[i])
  {
    var all := AllChains(l);
    assert i in all && all[i] == l.chains[i];
    assert Chain(g.kind, v.fats[0], AllFirsts(g, l)[i], all[i]);
    hide Chain, FreeAddressable, Inside;
  }

  /** One step of reading a file cluster by cluster. */
  lemma ReadStep(g: Geometry, data: seq<seq<byte>>, chain: seq<nat>, k: nat, size: nat, got: seq<byte>,
                 piece: seq<byte>)
    requires g.bytesPerCluster > 0 && k < |chain|
    requires forall k | 0 <= k < |chain| :: chain[k] < |data| && |data[chain[k]]| == g.bytesPerCluster
    requires got == Gather(data, chain[..k]) && |got| == k * g.bytesPerCluster < size
    requires var n := if g.bytesPerCluster < size - |got| then g.bytesPerCluster else size - |got|;
             piece == data[chain[k]][..n]
    ensures |got + piece| < size ==>
      got + piece == Gather(data, chain[..k + 1]) && |got + piece| == (k + 1) * g.bytesPerCluster
    ensures |got + piece| >= size ==> got + piece == Prefix(Gather(data, chain), size)
  {
    GatherTake(data, chain, k);
    GatherPrefix(data, chain, k + 1);
    MulStep(k, g.bytesPerCluster);
    if g.bytesPerCluster < size - |got| {
      assert piece == data[chain[k]];
    } else {
      assert got + data[chain[k]][..size - |got|] == (got + data[chain[k]])[..size];
      assert Gather(data, chain)[..size] == Gather(data, chain[..k + 1])[..size];
    }
  }

  /** What a successful lookup says about the file: its chain is sound, long enough, and holds its contents. */
  lemma FoundFile(cs: Charset, g: Geometry, v: Volume, l: Layout, v': Volume, l': Layout, name: Name)
    requires WellFormed(g, v, l) && Scanned(g, v, l, v', l') && Find(cs, l.entries, name) < |l.entries|
    ensures var i, e := Find(cs, l.entries, name), l.entries[Find(cs, l.entries, name)];
      && l'.entries == l.entries && i in l'.chains && WellFormed(g, v', l')
      && FileMap(cs, v, l, name) == Prefix(Gather(v'.data, l'.chains[i]), FileSize(e))
      && Chain(g.kind, v'.fats[0], First(g.kind, e), l'.chains[i])
      && (FileSize(e) > 0 ==> |l'.chains[i]| == ClustersNeeded(g, FileSize(e)) > 0)
      && g.bytesPerCluster > 0
      && (forall k | 0 <= k < |l'.chains[i]| ::
            2 <= l'.chains[i][k] < |v'.data| && |v'.data[l'.chains[i][k]]| == g.bytesPerCluster)
  {
    var i := Find(cs, l.entries, name);
    assert MatchesAt(cs, l.entries, i, name);
    DirGrownSameFiles(g, v, l, v', l');
    SameFilesSameMap(cs, v, l, v', l', name);
    ScannedWellFormed(g, v, l, v', l');
    FileChain(g, v', l', i);
    NeededBounds(g, FileSize(l.entries[i]));
    hide Scanned, DirGrown, SpaceGrown, Chain, Matches, WellFormed, FindFrom;
  }

  /** A scan keeps the volume well formed. */
  lemma ScannedWellFormed(g: Geometry, v: Volume, l: Layout, v': Volume, l': Layout)
    requires WellFormed(g, v, l) && Scanned(g, v, l, v', l')
    ensures WellFormed(g, v', l')
  {
  }
}
