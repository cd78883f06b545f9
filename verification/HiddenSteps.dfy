/**
 * Writing a new file whose short name reads as deleted: its clusters are filled, but no entry that can be found records
 * them, and the entry that is overwritten in the end may be that of another file.
 */
module HiddenSteps {
  import opened Bytes
  import opened Options
  import opened Volumes
  import opened Chains
  import opened FsInfos
  import opened Names
  import opened Directories
  import opened Layouts
  import opened DirSteps
  import opened FileSteps
  import opened WriteSteps

  /** The write creates a file that cannot be found. */
  ghost predicate Hides(cs: Charset, l: Layout, name: Name) {
    IsHidden(name) && Find(cs, l.entries, name) == |l.entries|
  }

  /**
   * The slot that such a write overwrites, unless it is the new one: the first that agrees in ten bytes of the name.
   */
  ghost function Victim(l: Layout, name: Name): (r: nat)
    ensures r <= |l.entries|
  {
    match Pick(l.entries, name)
    case Some(short) => FindUpdate(l.entries, 0, ShortEntry(short, 0, 0))
    case None => |l.entries|
  }

  /** The name finds a file other than the one that is overwritten, or none. */
  ghost predicate Spared(cs: Charset, l: Layout, name: Name, q: Name) {
    Victim(l, name) == |l.entries| || Find(cs, l.entries, q) != Victim(l, name)
  }

  /**
   * What writing such a file means: the volume is well formed, every name that did not find the overwritten slot reads
   * as before, also the written one, which has no contents; no name finds that slot any more, when it was not the new
   * one. The clusters with the contents stay in use without a file.
   */
  ghost predicate FileHidden(cs: Charset, g: Geometry, v: Volume, l: Layout, v': Volume, l': Layout, name: Name,
                             contents: seq<byte>) {
    && WellFormed(g, v, l) && WellFormed(g, v', l')
    && (forall q: Name | Spared(cs, l, name, q) ::
          FileMap(cs, v', l', q) == FileMap(cs, v, l, q) && ChainLength(cs, l', q) == ChainLength(cs, l, q))
    && (Victim(l, name) < |l.entries| ==> forall q: Name :: Find(cs, l'.entries, q) != Victim(l, name))
    && |l.root| <= |l'.root| && CountKept(g, v, v', ClustersTaken(cs, g, l, l', name, contents))
    && Keeps(v, v', Touched(cs, l, name))
  }

  // ----- creating -----

  /** The state after its entries were written. */
  ghost predicate Tucked(cs: Charset, g: Geometry, v: Volume, l: Layout, v1: Volume, l1: Layout, name: Name,
                         entry: Entry) {
    && Hides(cs, l, name) && WellFormed(g, v, l) && WellFormed(g, v1, l1) && SpaceGrown(g, v, l.root, v1, l1.root)
    && l1.firsts == l.firsts && l1.chains == l.chains
    && (forall q: Name ::
          FileMap(cs, v1, l1, q) == FileMap(cs, v, l, q) && ChainLength(cs, l1, q) == ChainLength(cs, l, q))
    && (forall q: Name ::
          Find(cs, l1.entries, q)
          == if Find(cs, l.entries, q) < |l.entries| then Find(cs, l.entries, q) else |l1.entries|)
    && !IsFragment(entry) && entry[0] == DELETED && First(g.kind, entry) == 0
    && Victim(l, name) <= |l.entries| < |l1.entries|
    && FindUpdate(l1.entries, 0, entry) < |l1.entries|
    && (Victim(l, name) < |l.entries| ==> FindUpdate(l1.entries, 0, entry) == Victim(l, name))
    && (Victim(l, name) == |l.entries| ==> FindUpdate(l1.entries, 0, entry) == |l1.entries| - 1)
  }

  lemma TuckedCreated(cs: Charset, g: Geometry, v: Volume, l: Layout, v1: Volume, l1: Layout, name: Name,
                      short: seq<byte>, date: nat, time: nat)
    requires WellFormed(g, v, l) && Writable(name) && Hides(cs, l, name)
    requires |short| == 11 && Pick(l.entries, name) == Some(short) && SpaceGrown(g, v, l.root, v1, l1.root)
    requires l1 == WithNew(l, l1.root, name, short, date, time) && WellFormed(g, v1, l1)
    ensures Tucked(cs, g, v, l, v1, l1, name, ShortEntry(short, date, time))
  {
    hide *;
    HidesIs(cs, l, name);
    WritableParts(l.entries, name, short);
    WellFormedKeyed(g, v, l);
    WellFormedKeyed(g, v1, l1);
    NewIs(l, l1.root, name, short, date, time);
    NewFirsts(l, l1.root, name, short, date, time);
    VictimIs(l, name, short, date, time);
    NewEntryIs(g, short, date, time);
    forall q: Name
      ensures FileMap(cs, v1, l1, q) == FileMap(cs, v, l, q) && ChainLength(cs, l1, q) == ChainLength(cs, l, q)
      ensures Find(cs, l1.entries, q)
              == if Find(cs, l.entries, q) < |l.entries| then Find(cs, l.entries, q) else |l1.entries|
    {
      CreatedMap(cs, g, v, l, v1, l1.root, name, short, date, time, q);
      assert Find(cs, l.entries, q) <= |l.entries|;
    }
    TuckedIs(cs, g, v, l, v1, l1, name, ShortEntry(short, date, time));
  }

  lemma TuckedIs(cs: Charset, g: Geometry, v: Volume, l: Layout, v1: Volume, l1: Layout, name: Name, entry: Entry)
    requires Hides(cs, l, name) && WellFormed(g, v, l) && WellFormed(g, v1, l1) && Keyed(l) && Keyed(l1)
    requires SpaceGrown(g, v, l.root, v1, l1.root) && l1.firsts == l.firsts && l1.chains == l.chains
    requires forall q: Name ::
      FileMap(cs, v1, l1, q) == FileMap(cs, v, l, q) && ChainLength(cs, l1, q) == ChainLength(cs, l, q)
    requires forall q: Name ::
      Find(cs, l1.entries, q)
      == if Find(cs, l.entries, q) < |l.entries| then Find(cs, l.entries, q) else |l1.entries|
    requires !IsFragment(entry) && entry[0] == DELETED && First(g.kind, entry) == 0
    requires Victim(l, name) <= |l.entries| < |l1.entries|
    requires FindUpdate(l1.entries, 0, entry)
             == if Victim(l, name) < |l.entries| then Victim(l, name) else |l1.entries| - 1
    ensures Tucked(cs, g, v, l, v1, l1, name, entry)
  {
    hide WellFormed, SpaceGrown, FileMap, ChainLength, Find, Victim, FindUpdate, First;
  }

  lemma HidesIs(cs: Charset, l: Layout, name: Name)
    ensures Hides(cs, l, name) <==> IsHidden(name) && Find(cs, l.entries, name) == |l.entries|
  {
    hide Find;
  }

  lemma StorableNeverHides(cs: Charset, l: Layout, name: Name)
    requires Storable(name)
    ensures Writable(name) && !Hides(cs, l, name)
  {
    hide Find;
  }

  lemma NewFirsts(l: Layout, root: seq<nat>, name: Name, short: seq<byte>, date: nat, time: nat)
    requires |short| == 11 && short[0] == DELETED
    ensures var l1 := WithNew(l, root, name, short, date, time); l1.firsts == l.firsts && l1.chains == l.chains
  {
    hide NewEntries;
  }

  lemma NewEntryIs(g: Geometry, short: seq<byte>, date: nat, time: nat)
    requires |short| == 11 && short[0] == DELETED
    ensures var e := ShortEntry(short, date, time); !IsFragment(e) && e[0] == DELETED && First(g.kind, e) == 0
  {
    ShortFirst(short, date, time);
  }

  lemma VictimIs(l: Layout, name: Name, short: seq<byte>, date: nat, time: nat)
    requires |short| == 11 && short[0] == DELETED && Pick(l.entries, name) == Some(short)
    ensures FindUpdate(l.entries + NewEntries(name, short, date, time), 0, ShortEntry(short, date, time))
            == if Victim(l, name) < |l.entries| then Victim(l, name) else |l.entries| + FragmentCount(name)
  {
    var e := ShortEntry(short, date, time);
    assert Victim(l, name) == FindUpdate(l.entries, 0, ShortEntry(short, 0, 0));
    hide *;
    ShortFirst(short, date, time);
    ShortFirst(short, 0, 0);
    HiddenUpdate(l.entries, name, short, date, time, e);
    FindUpdateSame(l.entries, ShortEntry(short, 0, 0), e);
  }

  /**
   * A file whose name differs from the new one in the first unit only, and got its plain short name, is overwritten.
   */
  lemma TwinIsVictim(l: Layout, i: nat, x: Unit, rest: Name)
    requires x != DOT && i < |l.entries| && !IsFragment(l.entries[i])
    requires ShortBytes(l.entries[i]) == BaseShort([x] + rest) && !Taken(l.entries, BaseShort([DELETED] + rest))
    ensures Victim(l, [DELETED] + rest) <= i
  {
    var short := BaseShort([DELETED] + rest);
    assert Pick(l.entries, [DELETED] + rest) == Some(short);
    hide BaseShort, Taken, FindUpdate, PickFrom;
    ShortFirst(short, 0, 0);
    TwinIsOverwritten(l.entries, i, x, rest, ShortEntry(short, 0, 0));
  }

  // ----- the chain without an entry -----

  /** A slot behind the entries, for a chain that no entry records. */
  ghost function Spare(l: Layout): Layout {
    var n := |l.entries|;
    Layout(l.root, l.entries + [END], l.firsts[n := 0], l.chains[n := []])
  }

  lemma SpareSound(g: Geometry, v: Volume, l: Layout)
    requires Sound(g, v, l)
    ensures Sound(g, v, Spare(l)) && |l.entries| in Spare(l).chains && |l.entries| in Spare(l).firsts
    ensures Spare(l).chains[|l.entries|] == [] && Spare(l).firsts[|l.entries|] == 0 && Spare(l).root == l.root
  {
    var n, s := |l.entries|, Spare(l);
    assert Keyed(s) by {
      hide Family, FreeAddressable, Shaped, Inside;
      forall k ensures k in s.chains <==> 0 <= k < |s.entries| && IsLive(s.entries[k]) {
        if 0 <= k < n {
          assert s.entries[k] == l.entries[k];
        }
      }
    }
    assert |v.fats| > 0;
    hide FreeAddressable, Shaped, Family, Addressable, IsLive;
    assert AllChains(s) == AllChains(l)[n := []];
    assert AllFirsts(g, s) == AllFirsts(g, l)[n := 0];
    EmptyJoins(g.kind, v.fats[0], AllFirsts(g, l), AllChains(l), n);
  }

  /** The spare chain was resized and filled: forgetting it leaves a directory that can be scanned. */
  lemma Forgotten(g: Geometry, v: Volume, l: Layout, first: nat, list: seq<nat>, v': Volume)
    requires Steady(g, v, l) && Reworked(g, v, [], v', list)
    requires TablesSound(g, v', WithChain(Spare(l), |l.entries|, first, list))
    ensures Steady(g, v', l)
  {
    hide *;
    SteadyParts(g, v, l);
    ForgottenTables(g, v, l, first, list, v');
    ForgottenInside(g, v, l, v', list);
    RootUsed(g, v, l);
    RootInTable(g, v', l);
    ForgottenListed(g, v, l, v', list);
    SteadyIs(g, v', l);
  }

  lemma RootUsed(g: Geometry, v: Volume, l: Layout)
    requires Sound(g, v, l)
    ensures RootInside(g, v, l.root) && |v.fats| > 0
    ensures forall k | 0 <= k < |l.root| :: l.root[k] < |v.data| && l.root[k] < |v.fats[0]| && v.fats[0][l.root[k]] != 0
  {
    RootInTable(g, v, l);
    hide Family, FreeAddressable, Keyed, RootInside, IsEof;
  }

  lemma SteadyParts(g: Geometry, v: Volume, l: Layout)
    requires Steady(g, v, l)
    ensures Sound(g, v, l) && Listed(g, v, l) && Keyed(l)
  {
    hide Listed, Family, Shaped, FreeAddressable, Inside;
  }

  lemma SteadyIs(g: Geometry, v: Volume, l: Layout)
    requires Sound(g, v, l) && Listed(g, v, l)
    ensures Steady(g, v, l)
  {
    hide Sound, Listed;
  }

  lemma ForgottenTables(g: Geometry, v: Volume, l: Layout, first: nat, list: seq<nat>, v': Volume)
    requires Keyed(l) && TablesSound(g, v', WithChain(Spare(l), |l.entries|, first, list))
    ensures TablesSound(g, v', l)
  {
    var n, s := |l.entries|, WithChain(Spare(l), |l.entries|, first, list);
    assert n !in l.chains && n !in l.firsts;
    hide Keyed, FreeAddressable, Shaped, Chain;
    forall k | k in AllChains(l)
      ensures k in AllChains(s) && AllChains(s)[k] == AllChains(l)[k]
      ensures k in AllFirsts(g, l) ==> k in AllFirsts(g, s) && AllFirsts(g, s)[k] == AllFirsts(g, l)[k]
    {
    }
    assert AllFirsts(g, l).Keys == AllChains(l).Keys by {
      KeyedKeys(l);
    }
  }

  lemma KeyedKeys(l: Layout)
    requires Keyed(l)
    ensures l.firsts.Keys == l.chains.Keys
  {
  }

  lemma ForgottenInside(g: Geometry, v: Volume, l: Layout, v': Volume, list: seq<nat>)
    requires Sound(g, v, l) && TablesSound(g, v', l) && Reworked(g, v, [], v', list)
    ensures Sound(g, v', l)
  {
    hide TablesSound, CountKept;
  }

  lemma ForgottenListed(g: Geometry, v: Volume, l: Layout, v': Volume, list: seq<nat>)
    requires Listed(g, v, l) && Reworked(g, v, [], v', list) && RootInside(g, v, l.root) && RootInside(g, v', l.root)
    requires forall k | 0 <= k < |l.root| ::
      l.root[k] < |v.data| && l.root[k] < |v.fats[0]| && v.fats[0][l.root[k]] != 0
    ensures Listed(g, v', l)
  {
    hide CountKept, SlotsPerCluster, RootInside, SlotAt;
    assert forall k | 0 <= k < |l.root| :: v'.data[l.root[k]] == v.data[l.root[k]];
    forall j | 0 <= j < SlotCount(g, v, l.root) ensures SlotAt(g, v', l.root, j) == SlotAt(g, v, l.root, j) {
      SlotSame(g, v, v', l.root, j);
    }
  }

  /** The state in front of the update of the entry: the contents are in clusters that no file has. */
  lemma HiddenFilled(g: Geometry, len: nat, v: Volume, l: Layout, v1: Volume, l1: Layout, list: seq<nat>,
                     contents: seq<byte>, v2: Volume)
    requires Steady(g, v, l) && Resized(g, v, Spare(l), |l.entries|, v1, l1, list) && InfoFits(g, v1) && Shaped(g, v2)
    requires Filling(g, len, v1, list, contents, v2, |list|)
    ensures Steady(g, v2, l) && Reworked(g, v, [], v2, list) && |list| == ClustersNeeded(g, |contents|)
  {
    hide *;
    var n := |l.entries|;
    SteadyParts(g, v, l);
    SpareSound(g, v, l);
    ResizedParts(g, v, Spare(l), n, v1, l1, list);
    FillingLength(g, len, v1, list, contents, v2, |list|);
    FillingParts(g, len, v1, list, contents, v2);
    FilledReworked(g, v1, v2, list, Stored(g, contents));
    ReworkedTransitive(g, v, [], v1, list, v2, list);
    SameTables(g, v1, l1, v2);
    Forgotten(g, v, l, l1.firsts[n], list, v2);
  }

  lemma ResizedParts(g: Geometry, v: Volume, l: Layout, i: int, v1: Volume, l1: Layout, list: seq<nat>)
    requires Resized(g, v, l, i, v1, l1, list)
    ensures TablesSound(g, v1, l1) && i in l1.firsts && i in l.chains && Reworked(g, v, l.chains[i], v1, list)
    ensures l1 == WithChain(l, i, l1.firsts[i], list) && |v1.fats| > 0 && i in l1.chains && list == l1.chains[i]
  {
    hide TablesSound, Seekable, CountKept;
  }

  lemma FillingParts(g: Geometry, len: nat, v: Volume, list: seq<nat>, contents: seq<byte>, v': Volume)
    requires Filling(g, len, v, list, contents, v', |list|)
    ensures Filled(g, v, v', list, Stored(g, contents), |list|) && v'.fats == v.fats
    ensures |Stored(g, contents)| == Start(g, |list|)
  {
  }

  lemma ListInTable(g: Geometry, v: Volume, l: Layout, i: int, list: seq<nat>)
    requires TablesSound(g, v, l) && i in l.chains && list == l.chains[i]
    ensures list != [] ==> !IsEof(g.kind, list[0])
  {
    ChainInTable(g, v, l, i);
    hide TablesSound, IsEof;
  }

  lemma ReworkedSlots(g: Geometry, v: Volume, root: seq<nat>, chain: seq<nat>, v': Volume, chain': seq<nat>)
    requires Reworked(g, v, chain, v', chain')
    ensures SlotCount(g, v', root) == SlotCount(g, v, root)
  {
  }

  /** Creating the entry takes no free cluster, unless the directory grows. */
  lemma HiddenRoom(cs: Charset, g: Geometry, v: Volume, l: Layout, v1: Volume, l1: Layout, name: Name,
                   contents: seq<byte>)
    requires Keyed(l) && Find(cs, l.entries, name) == |l.entries| && SpaceGrown(g, v, l.root, v1, l1.root)
    requires g.bytesPerCluster > 0
    ensures l1.root == l.root && HasRoom(cs, g, v, l, name, contents) ==>
      Roomy(g, v1, Missing(ClustersNeeded(g, |contents|), 0))
  {
    assert |l.entries| !in l.chains;
    hide Find, ClustersNeeded, IsLive, Signed, CountKept, Free;
  }

  // ----- the whole write -----

  /** The whole write, from the volume before it to the volume after its last step. */
  lemma HiddenDone(cs: Charset, g: Geometry, v: Volume, l: Layout, name: Name, v1: Volume, l1: Layout, entry: Entry,
                   list: seq<nat>, contents: seq<byte>, v2: Volume, e: Entry, v3: Volume, l3: Layout)
    requires Tucked(cs, g, v, l, v1, l1, name, entry) && Reworked(g, v1, [], v2, list) && Steady(g, v2, l1)
    requires g.bytesPerCluster > 0 && |list| == ClustersNeeded(g, |contents|) && ShortBytes(e) == ShortBytes(entry)
    requires !IsFragment(e) && FindUpdate(l1.entries, 0, e) < |l1.entries|
    requires l3 == Overwritten(l1, FindUpdate(l1.entries, 0, e), e).(root := l3.root)
    requires Steady(g, v3, l3) && SpaceGrown(g, v2, l1.root, v3, l3.root)
    ensures FileHidden(cs, g, v, l, v3, l3, name, contents)
  {
    hide *;
    var j := FindUpdate(l1.entries, 0, e);
    TuckedParts(cs, g, v, l, v1, l1, name, entry);
    FindUpdateSame(l1.entries, e, entry);
    SteadyIsKeyed(g, v3, l3);
    UpdateSlot(l1.entries, e, entry);
    OverwrittenIs(l1, j, e, l3);
    HiddenWellFormed(g, v1, l1, j, e, v3, l3);
    HiddenKeeps(cs, g, v, l, v1, l1, name, entry, list, contents, v2, v3, l3);
    forall q: Name
      ensures Spared(cs, l, name, q) ==>
        FileMap(cs, v3, l3, q) == FileMap(cs, v, l, q) && ChainLength(cs, l3, q) == ChainLength(cs, l, q)
      ensures Victim(l, name) < |l.entries| ==> Find(cs, l3.entries, q) != Victim(l, name)
    {
      HideFind(cs, l1.entries, j, e, q);
      if Spared(cs, l, name, q) {
        SparedFinds(cs, g, v, l, v1, l1, name, entry, q);
        HiddenMap(cs, g, v1, l1, j, e, list, v2, v3, l3, q);
      }
    }
    FileHiddenIs(cs, g, v, l, v3, l3, name, contents);
  }

  lemma FileHiddenIs(cs: Charset, g: Geometry, v: Volume, l: Layout, v': Volume, l': Layout, name: Name,
                     contents: seq<byte>)
    requires WellFormed(g, v, l) && WellFormed(g, v', l') && Keyed(l) && Keyed(l') && g.bytesPerCluster > 0
    requires forall q: Name | Spared(cs, l, name, q) ::
      FileMap(cs, v', l', q) == FileMap(cs, v, l, q) && ChainLength(cs, l', q) == ChainLength(cs, l, q)
    requires Victim(l, name) < |l.entries| ==> forall q: Name :: Find(cs, l'.entries, q) != Victim(l, name)
    requires |l.root| <= |l'.root| && CountKept(g, v, v', ClustersTaken(cs, g, l, l', name, contents))
    requires Keeps(v, v', Touched(cs, l, name))
    ensures FileHidden(cs, g, v, l, v', l', name, contents)
  {
    hide WellFormed, FileMap, ChainLength, CountKept, Keeps, Touched, ClustersTaken, Victim, Find, Spared;
  }

  lemma TuckedParts(cs: Charset, g: Geometry, v: Volume, l: Layout, v1: Volume, l1: Layout, name: Name, entry: Entry)
    requires Tucked(cs, g, v, l, v1, l1, name, entry)
    ensures WellFormed(g, v, l) && WellFormed(g, v1, l1) && Keyed(l) && Keyed(l1) && Steady(g, v1, l1)
    ensures SpaceGrown(g, v, l.root, v1, l1.root) && Sound(g, v1, l1) && g.bytesPerCluster > 0 && Hides(cs, l, name)
    ensures forall q: Name ::
      FileMap(cs, v1, l1, q) == FileMap(cs, v, l, q) && ChainLength(cs, l1, q) == ChainLength(cs, l, q)
    ensures !IsFragment(entry) && entry[0] == DELETED && First(g.kind, entry) == 0 && |l.entries| < |l1.entries|
    ensures FindUpdate(l1.entries, 0, entry) < |l1.entries|
    ensures Victim(l, name) < |l.entries| ==> FindUpdate(l1.entries, 0, entry) == Victim(l, name)
  {
    WellFormedKeyed(g, v, l);
    WellFormedKeyed(g, v1, l1);
    WellFormedParts(g, v1, l1);
    hide WellFormed, SpaceGrown, FileMap, ChainLength, Find, Victim, FindUpdate, First, Sound, Hides;
  }

  lemma UpdateSlot(a: seq<Entry>, e: Entry, entry: Entry)
    requires ShortBytes(e) == ShortBytes(entry) && entry[0] == DELETED && FindUpdate(a, 0, e) < |a|
    ensures e[0] == DELETED && !IsFragment(a[FindUpdate(a, 0, e)])
  {
    assert e[0] == ShortBytes(e)[0] && entry[0] == ShortBytes(entry)[0];
    assert UpdatesAt(a, FindUpdate(a, 0, e), e);
    hide FindUpdate;
  }

  lemma OverwrittenIs(l: Layout, j: nat, e: Entry, l': Layout)
    requires j < |l.entries| && e[0] == DELETED && l' == Overwritten(l, j, e).(root := l'.root)
    ensures l'.entries == l.entries[j := e] && l'.firsts == l.firsts - {j} && l'.chains == l.chains - {j}
  {
  }

  lemma HiddenWellFormed(g: Geometry, v: Volume, l: Layout, j: nat, e: Entry, v': Volume, l': Layout)
    requires WellFormed(g, v, l) && j < |l.entries| && e[0] == DELETED && Steady(g, v', l') && Keyed(l')
    requires g.bytesPerCluster > 0
    requires l'.entries == l.entries[j := e] && l'.firsts == l.firsts - {j} && l'.chains == l.chains - {j}
    ensures WellFormed(g, v', l')
  {
    hide Steady, First, ClustersNeeded, FileSize, IsDirectory, ShortBytes;
    assert !IsLive(e);
    forall k | k in l'.chains
      ensures l'.firsts[k] == First(g.kind, l'.entries[k])
      ensures || |l'.chains[k]| == ClustersNeeded(g, FileSize(l'.entries[k]))
              || (IsDirectory(l'.entries[k]) && FileSize(l'.entries[k]) == 0)
    {
      assert k != j && k in l.chains && l'.entries[k] == l.entries[k];
    }
    assert UniqueShort(l'.entries);
  }

  lemma HiddenKeeps(cs: Charset, g: Geometry, v: Volume, l: Layout, v1: Volume, l1: Layout, name: Name, entry: Entry,
                    list: seq<nat>, contents: seq<byte>, v2: Volume, v3: Volume, l3: Layout)
    requires Tucked(cs, g, v, l, v1, l1, name, entry) && Reworked(g, v1, [], v2, list) && Keyed(l)
    requires g.bytesPerCluster > 0 && |list| == ClustersNeeded(g, |contents|)
    requires SpaceGrown(g, v2, l1.root, v3, l3.root)
    ensures Keeps(v, v3, Touched(cs, l, name))
    ensures |l.root| <= |l3.root| && CountKept(g, v, v3, ClustersTaken(cs, g, l, l3, name, contents))
  {
    HiddenCounts(cs, g, v, l, v1, l1, name, entry, list, contents, v2, v3, l3);
    assert SpaceGrown(g, v, l.root, v1, l1.root);
    hide WellFormed, FileMap, Find, CountKept, ClustersNeeded, Tucked;
    forall c | 0 <= c < |v.fats[0]| && v.fats[0][c] != 0 && c !in Touched(cs, l, name)
      ensures v3.fats[0][c] == v.fats[0][c] && (c < |v.data| ==> v3.data[c] == v.data[c])
    {
      assert c !in l.root && c !in l1.root;
    }
  }

  lemma HiddenCounts(cs: Charset, g: Geometry, v: Volume, l: Layout, v1: Volume, l1: Layout, name: Name, entry: Entry,
                     list: seq<nat>, contents: seq<byte>, v2: Volume, v3: Volume, l3: Layout)
    requires Tucked(cs, g, v, l, v1, l1, name, entry) && Reworked(g, v1, [], v2, list) && Keyed(l)
    requires g.bytesPerCluster > 0 && |list| == ClustersNeeded(g, |contents|)
    requires SpaceGrown(g, v2, l1.root, v3, l3.root)
    ensures |l.root| <= |l3.root| && CountKept(g, v, v3, ClustersTaken(cs, g, l, l3, name, contents))
  {
    assert SpaceGrown(g, v, l.root, v1, l1.root) && Find(cs, l.entries, name) == |l.entries|;
    assert |l.entries| !in l.chains && ChainLength(cs, l, name) == 0;
    var a, b, c := |l1.root| - |l.root|, |list|, |l3.root| - |l1.root|;
    assert CountKept(g, v, v1, a) && CountKept(g, v1, v2, b) && CountKept(g, v2, v3, c);
    hide CountKept, Tucked, Reworked, SpaceGrown, ClustersNeeded, ChainLength, Find;
    CountKeptTransitive(g, v, v1, v2, a, b);
    CountKeptTransitive(g, v, v2, v3, a + b, c);
  }

  /** A spared name finds, after the entries were written, a slot other than the one that is overwritten. */
  lemma SparedFinds(cs: Charset, g: Geometry, v: Volume, l: Layout, v1: Volume, l1: Layout, name: Name, entry: Entry,
                    q: Name)
    requires Tucked(cs, g, v, l, v1, l1, name, entry) && Spared(cs, l, name, q)
    ensures Find(cs, l1.entries, q) != FindUpdate(l1.entries, 0, entry)
  {
    hide WellFormed, SpaceGrown, FileMap, ChainLength, Find, FindUpdate, Victim, First;
  }

  /** A name that does not find the overwritten slot reads as before. */
  lemma HiddenMap(cs: Charset, g: Geometry, v1: Volume, l1: Layout, j: nat, e: Entry, list: seq<nat>, v2: Volume,
                  v3: Volume, l3: Layout, q: Name)
    requires Sound(g, v1, l1) && Keyed(l1) && Reworked(g, v1, [], v2, list) && Steady(g, v2, l1) && Keyed(l3)
    requires SpaceGrown(g, v2, l1.root, v3, l3.root) && j < |l1.entries|
    requires l3.entries == l1.entries[j := e] && l3.chains == l1.chains - {j}
    requires Find(cs, l1.entries, q) != j && Find(cs, l3.entries, q) == Find(cs, l1.entries, q)
    ensures FileMap(cs, v3, l3, q) == FileMap(cs, v1, l1, q) && ChainLength(cs, l3, q) == ChainLength(cs, l1, q)
  {
    hide *;
    var k := Find(cs, l1.entries, q);
    FileMapIs(cs, v1, l1, q);
    FileMapIs(cs, v3, l3, q);
    LengthIs(cs, l1, q);
    LengthIs(cs, l3, q);
    KeysBelow(l1);
    KeysBelow(l3);
    if k < |l1.entries| {
      FoundKey(cs, l1, q);
      SteadyParts(g, v2, l1);
      UsedContents(g, v1, l1, v2, list, k);
      GrownContents(g, v2, l1, v3, l3.root, k);
    }
  }

  lemma UsedContents(g: Geometry, v: Volume, l: Layout, v': Volume, list: seq<nat>, k: int)
    requires Sound(g, v, l) && k in l.chains && Reworked(g, v, [], v', list)
    ensures Gather(v'.data, l.chains[k]) == Gather(v.data, l.chains[k])
  {
    ChainInTable(g, v, l, k);
    SoundInside(g, v, l, k);
    hide Sound, Gather, CountKept, IsEof, Chain;
    forall x | x in l.chains[k] ensures x < |v'.data| && v'.data[x] == v.data[x] {
    }
    GatherSame(v.data, v'.data, l.chains[k]);
  }

  /** A scan and then such a write is such a write. */
  lemma ScannedThenHidden(cs: Charset, g: Geometry, v: Volume, l: Layout, v1: Volume, l1: Layout, v2: Volume,
                          l2: Layout, name: Name, contents: seq<byte>)
    requires WellFormed(g, v, l) && Scanned(g, v, l, v1, l1) && FileHidden(cs, g, v1, l1, v2, l2, name, contents)
    ensures FileHidden(cs, g, v, l, v2, l2, name, contents) && (Hides(cs, l1, name) <==> Hides(cs, l, name))
  {
    hide *;
    ScannedParts(cs, g, v, l, v1, l1);
    ScannedEntries(g, v, l, v1, l1);
    HiddenParts(cs, g, v1, l1, v2, l2, name, contents);
    WellFormedKeyed(g, v, l);
    ScannedKeeps(cs, g, v, l, v1, l1, v2, name);
    ScannedTaken(cs, g, v, l, v1, l1, v2, l2, name, contents);
    SameEntries(cs, l, l1, name);
    FileHiddenIs(cs, g, v, l, v2, l2, name, contents);
  }

  lemma SameEntries(cs: Charset, l: Layout, l1: Layout, name: Name)
    requires l1.entries == l.entries
    ensures Victim(l1, name) == Victim(l, name) && (Hides(cs, l1, name) <==> Hides(cs, l, name))
    ensures forall q: Name :: Spared(cs, l1, name, q) <==> Spared(cs, l, name, q)
  {
    hide Find, FindUpdate, Pick;
  }

  lemma HiddenParts(cs: Charset, g: Geometry, v: Volume, l: Layout, v': Volume, l': Layout, name: Name,
                    contents: seq<byte>)
    requires FileHidden(cs, g, v, l, v', l', name, contents)
    ensures WellFormed(g, v, l) && WellFormed(g, v', l') && Keyed(l) && Keyed(l') && g.bytesPerCluster > 0
    ensures forall q: Name | Spared(cs, l, name, q) ::
      FileMap(cs, v', l', q) == FileMap(cs, v, l, q) && ChainLength(cs, l', q) == ChainLength(cs, l, q)
    ensures Victim(l, name) < |l.entries| ==> forall q: Name :: Find(cs, l'.entries, q) != Victim(l, name)
    ensures |l.root| <= |l'.root| && CountKept(g, v, v', ClustersTaken(cs, g, l, l', name, contents))
    ensures Keeps(v, v', Touched(cs, l, name))
  {
    WellFormedKeyed(g, v, l);
    WellFormedKeyed(g, v', l');
    hide WellFormed, FileMap, ChainLength, CountKept, Keeps, Touched, ClustersTaken, Victim, Find, Spared;
  }

  /** The written name itself is among those spared: it had no file, and has none. */
  lemma HiddenIsSpared(cs: Charset, l: Layout, name: Name)
    requires Hides(cs, l, name)
    ensures Spared(cs, l, name, name)
  {
    hide Find, Victim;
  }
}
