/** The steps that change the directory: writing a slot, clearing a directory cluster, adding a directory cluster. */
module DirSteps {
  import opened Arith
  import opened Bytes
  import opened FatCodec
  import opened Volumes
  import opened FatTables
  import opened Chains
  import opened FsInfos
  import opened Names
  import opened Layouts

  /** Where slot `i` of the directory starts. */
  function SlotPos(g: Geometry, root: seq<nat>, i: nat): int
    requires g.kind.FAT32? ==> g.bytesPerCluster >= 32 && i < |root| * SlotsPerCluster(g) && g.bytesPerCluster % 32 == 0
  {
    if g.kind.FAT32? then
      SlotPlace(g, root, i);
      ClusterPos(g, root[i / SlotsPerCluster(g)]) + 32 * (i % SlotsPerCluster(g))
    else g.rootStart + 32 * i
  }

  /**
   * A step that touches nothing but the directory: clusters in use outside the directory keep their table entry and
   * their bytes, new directory clusters were free, and the free count is still right.
   */
  ghost predicate SpaceGrown(g: Geometry, v: Volume, root: seq<nat>, v': Volume, root': seq<nat>) {
    && |v'.data| == |v.data| && |v'.fats| == |v.fats| > 0 && |v'.fats[0]| == |v.fats[0]| && root <= root'
    && |v'.root| == |v.root| && (root' == root ==> v'.fats == v.fats && v'.head == v.head)
    && CountKept(g, v, v', |root'| - |root|)
    && (forall x | x in root' :: x in root || (x < |v.fats[0]| && v.fats[0][x] == 0))
    && (forall c | 0 <= c < |v.fats[0]| && v.fats[0][c] != 0 && c !in root :: v'.fats[0][c] == v.fats[0][c])
    && (forall c | 0 <= c < |v.fats[0]| && c < |v.data| && v.fats[0][c] != 0 && c !in root :: v'.data[c] == v.data[c])
  }

  /** Such a step with the same files listed. */
  ghost predicate DirGrown(g: Geometry, v: Volume, l: Layout, v': Volume, l': Layout) {
    && SpaceGrown(g, v, l.root, v', l'.root)
    && l'.entries == l.entries && l'.firsts == l.firsts && l'.chains == l.chains
  }

  lemma DirGrownTransitive(g: Geometry, v: Volume, l: Layout, v1: Volume, l1: Layout, v2: Volume, l2: Layout)
    requires DirGrown(g, v, l, v1, l1) && DirGrown(g, v1, l1, v2, l2)
    ensures DirGrown(g, v, l, v2, l2)
  {
    CountKeptTransitive(g, v, v1, v2, |l1.root| - |l.root|, |l2.root| - |l1.root|);
    hide CountKept;
    forall c | 0 <= c < |v.fats[0]| && v.fats[0][c] != 0 && c !in l.root ensures c !in l1.root {
    }
  }

  lemma DirGrownSelf(g: Geometry, v: Volume, l: Layout)
    requires InfoFits(g, v) && |v.fats| > 0
    ensures DirGrown(g, v, l, v, l)
  {
  }

  /** Such a step leaves the files alone. */
  lemma DirGrownSameFiles(g: Geometry, v: Volume, l: Layout, v': Volume, l': Layout)
    requires Sound(g, v, l) && DirGrown(g, v, l, v', l')
    ensures SameFiles(v, l, v', l')
  {
    var all, firsts := AllChains(l), AllFirsts(g, l);
    assert ROOT in all && all[ROOT] == l.root;
    forall k, x | k in l.chains && x in l.chains[k] && x < |v.data| ensures v'.data[x] == v.data[x] {
      var i :| 0 <= i < |l.chains[k]| && l.chains[k][i] == x;
      assert k in all && all[k] == l.chains[k];
      ChainUsed(g.kind, v.fats[0], firsts[k], all[k], i);
      assert InTable(g.kind, v.fats[0], all[k][i]);
      assert k != ROOT && x in all[k] && x !in all[ROOT];
    }
  }

  /** Soundness looks at the tables, and at the sizes of the clusters only. */
  lemma SoundSameTables(g: Geometry, v: Volume, l: Layout, v': Volume)
    requires Sound(g, v, l) && Shaped(g, v') && v'.fats == v.fats && |v'.data| == |v.data|
    ensures Sound(g, v', l)
  {
  }

  // ----- writing a slot -----

  ghost function WithCluster(v: Volume, c: nat, d: seq<byte>): (r: Volume)
    requires c < |v.data|
    ensures r.head == v.head && r.fats == v.fats && r.root == v.root && |r.data| == |v.data|
  {
    v.(data := v.data[c := d])
  }

  ghost function WithSlot(g: Geometry, v: Volume, root: seq<nat>, i: nat, e: Entry): (r: Volume)
    requires RootInside(g, v, root) && i < SlotCount(g, v, root)
    ensures r.head == v.head && r.fats == v.fats && |r.data| == |v.data| && |r.root| == |v.root|
    ensures RootInside(g, r, root)
  {
    if g.kind.FAT32? then
      SlotPlace(g, root, i);
      var c := root[i / SlotsPerCluster(g)];
      WithCluster(v, c, Splice(v.data[c], 32 * (i % SlotsPerCluster(g)), e))
    else v.(root := Splice(v.root, 32 * i, e))
  }

  lemma SlotRanges(p: nat, q: nat, s: seq<byte>, e: Entry)
    requires 32 * p + 32 <= |s| && 32 * q + 32 <= |s|
    ensures Splice(s, 32 * p, e)[32 * q..32 * q + 32] == if p == q then e else s[32 * q..32 * q + 32]
  {
    if p == q {
      SpliceWritten(s, 32 * p, e);
    } else {
      SpliceApart(s, 32 * p, e, 32 * q, 32 * q + 32);
    }
  }

  lemma SameSlot(i: nat, j: nat, n: nat)
    requires n > 0
    ensures i == j <==> i / n == j / n && i % n == j % n
  {
    assert i == i / n * n + i % n && j == j / n * n + j % n;
  }

  /** The written slot holds the entry; every other slot is as it was. */
  lemma SlotWritten(g: Geometry, v: Volume, root: seq<nat>, i: nat, e: Entry, j: nat)
    requires RootInside(g, v, root) && Distinct(root) && i < SlotCount(g, v, root) && j < SlotCount(g, v, root)
    ensures SlotAt(g, WithSlot(g, v, root, i, e), root, j) == if j == i then e else SlotAt(g, v, root, j)
  {
    hide *;
    if g.kind.FAT32? {
      var n := SlotsPerCluster(g);
      SlotIndex(g, v, root, i);
      SlotIndex(g, v, root, j);
      DistinctAt(root, i / n, j / n);
      SlotWritten32(g, v, root, i, e, j, root[i / n], i % n, root[j / n], j % n);
      SameSlot(i, j, n);
    } else {
      FixedSlot(g, v, root, i, e);
      FixedSlot(g, v, root, j, e);
      FixedSlot(g, WithSlot(g, v, root, i, e), root, j, e);
      SlotRanges(i, j, v.root, e);
    }
  }

  lemma SlotIndex(g: Geometry, v: Volume, root: seq<nat>, i: nat)
    requires g.kind.FAT32? && RootInside(g, v, root) && i < SlotCount(g, v, root)
    ensures SlotsPerCluster(g) > 0 && i / SlotsPerCluster(g) < |root|
  {
    SlotPlace(g, root, i);
  }

  lemma FixedSlot(g: Geometry, v: Volume, root: seq<nat>, i: nat, e: Entry)
    requires !g.kind.FAT32? && RootInside(g, v, root) && i < SlotCount(g, v, root)
    ensures 32 * i + 32 <= |v.root| && SlotAt(g, v, root, i) == v.root[32 * i..32 * i + 32]
    ensures WithSlot(g, v, root, i, e) == v.(root := Splice(v.root, 32 * i, e))
    ensures SlotPos(g, root, i) == g.rootStart + 32 * i
    ensures SlotCount(g, WithSlot(g, v, root, i, e), root) == SlotCount(g, v, root)
  {
  }

  lemma DistinctAt(s: seq<nat>, i: nat, j: nat)
    requires Distinct(s) && i < |s| && j < |s|
    ensures s[i] == s[j] <==> i == j
  {
  }

  lemma SlotWritten32(g: Geometry, v: Volume, root: seq<nat>, i: nat, e: Entry, j: nat, ci: nat, p: nat, cj: nat,
                      q: nat)
    requires RootInside(g, v, root) && g.kind.FAT32? && SlotsPerCluster(g) > 0
    requires i < SlotCount(g, v, root) && i / SlotsPerCluster(g) < |root|
    requires j < SlotCount(g, v, root) && j / SlotsPerCluster(g) < |root|
    requires ci == root[i / SlotsPerCluster(g)] && p == i % SlotsPerCluster(g)
    requires cj == root[j / SlotsPerCluster(g)] && q == j % SlotsPerCluster(g)
    ensures SlotAt(g, WithSlot(g, v, root, i, e), root, j)
            == if ci == cj && p == q then e else SlotAt(g, v, root, j)
  {
    SlotIn(g, v, root, i, ci, p);
    SlotIn(g, v, root, j, cj, q);
    var w := WithSlot(g, v, root, i, e);
    assert w.data == v.data[ci := Splice(v.data[ci], 32 * p, e)];
    SlotIn(g, w, root, j, cj, q);
    hide WithSlot, SlotAt, SlotCount, RootInside, SlotsPerCluster;
    if ci == cj {
      SlotRanges(p, q, v.data[ci], e);
    }
  }

  lemma SlotIn(g: Geometry, v: Volume, root: seq<nat>, i: nat, c: nat, p: nat)
    requires RootInside(g, v, root) && i < SlotCount(g, v, root) && g.kind.FAT32? && SlotsPerCluster(g) > 0
    requires i / SlotsPerCluster(g) < |root| && c == root[i / SlotsPerCluster(g)] && p == i % SlotsPerCluster(g)
    ensures 2 <= c < |v.data| && 32 * p + 32 <= |v.data[c]|
    ensures SlotAt(g, v, root, i) == v.data[c][32 * p..32 * p + 32]
  {
    SlotPlace(g, root, i);
  }

  lemma SlotWriteSound(g: Geometry, v: Volume, l: Layout, i: nat, e: Entry)
    requires Sound(g, v, l) && RootInside(g, v, l.root) && InfoFits(g, v) && i < SlotCount(g, v, l.root)
    ensures var v' := WithSlot(g, v, l.root, i, e);
            Sound(g, v', l) && DirGrown(g, v, l, v', l)
  {
    hide *;
    SoundShape(g, v, l);
    SlotWriteShape(g, v, l.root, i, e);
    var v' := WithSlot(g, v, l.root, i, e);
    SoundSameTables(g, v, l, v');
    DirWritten(g, v, l, v');
  }

  lemma SoundShape(g: Geometry, v: Volume, l: Layout)
    requires Sound(g, v, l)
    ensures Shaped(g, v) && |v.fats| > 0
  {
  }

  lemma SlotWriteShape(g: Geometry, v: Volume, root: seq<nat>, i: nat, e: Entry)
    requires Shaped(g, v) && RootInside(g, v, root) && i < SlotCount(g, v, root)
    ensures var v' := WithSlot(g, v, root, i, e);
            Shaped(g, v') && forall c | 0 <= c < |v.data| && c !in root :: v'.data[c] == v.data[c]
  {
    if g.kind.FAT32? {
      var c, d := SlotWrites(g, v, root, i, e);
      hide WithSlot, SlotCount, RootInside;
    }
  }

  lemma SlotWrites(g: Geometry, v: Volume, root: seq<nat>, i: nat, e: Entry) returns (c: nat, d: seq<byte>)
    requires g.kind.FAT32? && RootInside(g, v, root) && i < SlotCount(g, v, root)
    ensures c in root && c < |v.data| && |d| == |v.data[c]| && WithSlot(g, v, root, i, e) == WithCluster(v, c, d)
  {
    SlotPlace(g, root, i);
    c := root[i / SlotsPerCluster(g)];
    d := Splice(v.data[c], 32 * (i % SlotsPerCluster(g)), e);
  }

  /** A change of nothing but bytes of directory clusters or of the fixed directory. */
  lemma DirWritten(g: Geometry, v: Volume, l: Layout, v': Volume)
    requires InfoFits(g, v) && |v.fats| > 0 && v'.fats == v.fats && v'.head == v.head && |v'.data| == |v.data|
    requires |v'.root| == |v.root|
    requires forall c | 0 <= c < |v.data| && c !in l.root :: v'.data[c] == v.data[c]
    ensures DirGrown(g, v, l, v', l)
  {
  }

  /** The first slots hold one entry more after it was written behind them. */
  lemma DirHoldsWrite(g: Geometry, v: Volume, root: seq<nat>, written: seq<Entry>, e: Entry)
    requires DirHolds(g, v, root, written) && Distinct(root) && |written| < SlotCount(g, v, root)
    ensures DirHolds(g, WithSlot(g, v, root, |written|, e), root, written + [e])
  {
    var w := WithSlot(g, v, root, |written|, e);
    assert SlotCount(g, w, root) == SlotCount(g, v, root);
    forall j | 0 <= j < |written| + 1 ensures SlotAt(g, w, root, j) == (written + [e])[j] {
      SlotWritten(g, v, root, |written|, e, j);
    }
  }

  /** Changing bytes that hold none of the first slots leaves them. */
  lemma DirHoldsFrame(g: Geometry, v: Volume, root: seq<nat>, v': Volume, root': seq<nat>, written: seq<Entry>, k: nat)
    requires DirHolds(g, v, root, written) && RootInside(g, v', root') && g.kind.FAT32?
    requires k <= |root| && root[..k] <= root' && |written| <= k * SlotsPerCluster(g)
    requires forall i | 0 <= i < k :: root[i] < |v'.data| && v'.data[root[i]] == v.data[root[i]]
    ensures DirHolds(g, v', root', written)
  {
    MulLe(k, |root'|, SlotsPerCluster(g));
    forall j | 0 <= j < |written| ensures SlotAt(g, v', root', j) == written[j] {
      SlotPlace(g, root, j);
      SlotPlace(g, root[..k], j);
      var n := SlotsPerCluster(g);
      assert root[..k][j / n] == root[j / n] == root'[j / n];
    }
  }

  // ----- adding a directory cluster -----

  /** The volume after a free cluster was linked behind the last directory cluster and cleared. */
  ghost function RootExtended(g: Geometry, v: Volume, root: seq<nat>, c: nat): Volume
    requires InfoFits(g, v) && root != [] && c < |v.data|
    requires forall n | 0 <= n < |v.fats| :: c < |v.fats[n]| && root[|root| - 1] < |v.fats[n]|
  {
    WithCluster(AllocatedAfter(g, v, root[|root| - 1], c), c, Zeroes(g.bytesPerCluster))
  }

  /** When all free entries can be allocated, the scan stops at the first one of the table, and nothing is truncated. */
  lemma ScanIsFirstFree(g: Geometry, fat: seq<nat>)
    requires FreeAddressable(g, fat)
    ensures HasFree(fat) ==> CanStop(g.kind, fat)
    ensures forall c: nat | ScanStops(g.kind, fat, c) ::
              FirstFree(fat, c) && Narrow(g.kind, c) == Mask(g.kind, c) == c && c > 0
  {
    if HasFree(fat) {
      var c :| 0 <= c < |fat| && fat[c] == 0;
      assert Addressable(g, c);
    }
    forall c: nat | ScanStops(g.kind, fat, c)
      ensures FirstFree(fat, c) && Narrow(g.kind, c) == Mask(g.kind, c) == c && c > 0
    {
      assert Addressable(g, c);
      AddressableFits(g, c);
      hide Mask;
    }
  }

  lemma AllocatedAfterIs(g: Geometry, v: Volume, p: nat, c: nat)
    requires InfoFits(g, v) && |v.fats| > 0 && forall n | 0 <= n < |v.fats| :: |v.fats[n]| == |v.fats[0]|
    requires FreeAddressable(g, v.fats[0]) && ScanStops(g.kind, v.fats[0], c) && p < |v.fats[0]|
    ensures FirstFree(v.fats[0], c) && c < |v.fats[0]| && Narrow(g.kind, c) == c
    ensures AllocatedAfter(g, v, p, c)
            == if p == 0 then Allocated(g, v, c) else WithEntry(Allocated(g, v, c), p, Mask(g.kind, c))
  {
    ScanIsFirstFree(g, v.fats[0]);
    hide FreeAddressable, CanStop, HasFree, FirstFree, Mask, Narrow;
  }

  lemma EndMarkIs(kind: FatKind)
    ensures Mask(kind, EofMark(kind)) == EofMark(kind)
  {
  }

  /** All copies of the table after an allocation behind `chain`. */
  lemma AllocatedTables(g: Geometry, v: Volume, chain: seq<nat>, c: nat)
    requires InfoFits(g, v) && |v.fats| > 0 && forall m | 0 <= m < |v.fats| :: v.fats[m] == v.fats[0]
    requires c < |v.fats[0]| && forall i | 0 <= i < |chain| :: 2 <= chain[i] < |v.fats[0]|
    ensures var last := if chain == [] then 0 else chain[|chain| - 1];
            && (forall n | 0 <= n < |v.fats| :: c < |v.fats[n]| && last < |v.fats[n]|)
            && var w := AllocatedAfter(g, v, last, c);
               |w.fats| == |v.fats| && forall m | 0 <= m < |w.fats| :: w.fats[m] == Linked(g.kind, v.fats[0], chain, c)
  {
    var last := if chain == [] then 0 else chain[|chain| - 1];
    forall n | 0 <= n < |v.fats| ensures c < |v.fats[n]| && last < |v.fats[n]| {
      assert v.fats[n] == v.fats[0];
    }
    var w := AllocatedAfter(g, v, last, c);
    forall m | 0 <= m < |w.fats| ensures w.fats[m] == Linked(g.kind, v.fats[0], chain, c) {
      assert v.fats[m] == v.fats[0];
    }
  }

  /** Allocating frees nothing, so free entries stay addressable. */
  lemma LinkedAddressable(g: Geometry, fat: seq<nat>, chain: seq<nat>, c: nat)
    requires FreeAddressable(g, fat) && 2 <= c < |fat| && forall i | 0 <= i < |chain| :: chain[i] < |fat|
    ensures FreeAddressable(g, Linked(g.kind, fat, chain, c))
  {
    hide Addressable;
    var fat' := Linked(g.kind, fat, chain, c);
    forall d | 0 <= d < |fat'| && fat'[d] == 0 ensures fat[d] == 0 {
    }
  }

  /** Adding a cleared directory cluster keeps the volume sound. */
  lemma RootGrowSound(g: Geometry, v: Volume, l: Layout, c: nat)
    requires Sound(g, v, l) && g.kind.FAT32? && InfoFits(g, v)
    requires FirstFree(v.fats[0], c) && c < |v.data|
    ensures forall n | 0 <= n < |v.fats| :: c < |v.fats[n]| && l.root[|l.root| - 1] < |v.fats[n]|
    ensures Sound(g, RootExtended(g, v, l.root, c), l.(root := l.root + [c]))
  {
    RootInTable(g, v, l);
    AllocatedTables(g, v, l.root, c);
    LinkedAddressable(g, v.fats[0], l.root, c);
    RootGrowFamily(g, v, l, c);
    hide Family, FreeAddressable, Linked, AllocatedAfter, AllFirsts, Addressable, AllChains, Inside, RootInside,
         InTable;
  }

  lemma RootGrowFamily(g: Geometry, v: Volume, l: Layout, c: nat)
    requires Sound(g, v, l) && g.kind.FAT32? && FirstFree(v.fats[0], c) && c < |v.data|
    ensures c < |v.fats[0]| && forall i | 0 <= i < |l.root| :: l.root[i] < |v.fats[0]|
    ensures var l' := l.(root := l.root + [c]);
            && Keyed(l') && Inside(AllChains(l'), |v.data|) && Addressable(g, c)
            && Family(g.kind, Linked(g.kind, v.fats[0], l.root, c), AllFirsts(g, l'), AllChains(l'))
  {
    var fat, firsts, all := v.fats[0], AllFirsts(g, l), AllChains(l);
    assert ROOT in all && all[ROOT] == l.root;
    assert Addressable(g, c);
    RootInTable(g, v, l);
    FamilyGrow(g.kind, fat, firsts, all, ROOT, c);
    var l' := l.(root := l.root + [c]);
    assert AllChains(l') == all[ROOT := l.root + [c]];
    assert AllFirsts(g, l') == firsts[ROOT := firsts[ROOT]];
    hide Family, Linked, AllFirsts, Addressable, InTable;
  }

  /** The clusters of the directory have entries and lie in the partition. */
  lemma RootInTable(g: Geometry, v: Volume, l: Layout)
    requires Sound(g, v, l)
    ensures forall i | 0 <= i < |l.root| ::
      InTable(g.kind, v.fats[0], l.root[i]) && 2 <= l.root[i] < |v.data| && v.fats[0][l.root[i]] != 0
    ensures Distinct(l.root) && RootInside(g, v, l.root)
  {
    var all, firsts := AllChains(l), AllFirsts(g, l);
    assert ROOT in all && all[ROOT] == l.root;
    assert Chain(g.kind, v.fats[0], firsts[ROOT], l.root);
    forall i | 0 <= i < |l.root|
      ensures InTable(g.kind, v.fats[0], l.root[i]) && 2 <= l.root[i] < |v.data| && v.fats[0][l.root[i]] != 0
    {
      ChainUsed(g.kind, v.fats[0], firsts[ROOT], l.root, i);
      assert InTable(g.kind, v.fats[0], l.root[i]);
      assert l.root[i] in all[ROOT];
    }
  }

  lemma RootGrowStep(g: Geometry, v: Volume, l: Layout, c: nat)
    requires Sound(g, v, l) && g.kind.FAT32? && InfoFits(g, v)
    requires FirstFree(v.fats[0], c) && c < |v.data|
    ensures forall n | 0 <= n < |v.fats| :: c < |v.fats[n]| && l.root[|l.root| - 1] < |v.fats[n]|
    ensures DirGrown(g, v, l, RootExtended(g, v, l.root, c), l.(root := l.root + [c]))
  {
    hide *;
    RootInTable(g, v, l);
    FreeBehindRoot(g, v, l, c);
    AllocatedTables(g, v, l.root, c);
    AllocatedAfterCounted(g, v, l.root[|l.root| - 1], c);
    ExtendedSpace(g, v, l.root, c);
    DirGrownIs(g, v, l, RootExtended(g, v, l.root, c), l.(root := l.root + [c]));
  }

  lemma FreeBehindRoot(g: Geometry, v: Volume, l: Layout, c: nat)
    requires Sound(g, v, l) && g.kind.FAT32? && FirstFree(v.fats[0], c)
    ensures |v.fats| > 0 && c < |v.fats[0]| && v.fats[0][c] == 0 && c != 0 && l.root != []
    ensures forall m | 0 <= m < |v.fats| :: v.fats[m] == v.fats[0]
    ensures forall i | 0 <= i < |l.root| :: 2 <= l.root[i] < |v.fats[0]|
  {
    RootInTable(g, v, l);
    assert Addressable(g, c);
    hide FirstFree, Family, Distinct;
    assert c < |v.fats[0]| && v.fats[0][c] == 0 by { FirstFreeHas(v.fats[0], c); }
  }

  lemma FirstFreeHas(fat: seq<nat>, c: nat)
    requires FirstFree(fat, c)
    ensures c < |fat| && fat[c] == 0
  {
  }

  lemma ExtendedSpace(g: Geometry, v: Volume, root: seq<nat>, c: nat)
    requires InfoFits(g, v) && |v.fats| > 0 && root != [] && c < |v.data| && c < |v.fats[0]| && v.fats[0][c] == 0
    requires forall n | 0 <= n < |v.fats| :: c < |v.fats[n]| && root[|root| - 1] < |v.fats[n]|
    requires var w := AllocatedAfter(g, v, root[|root| - 1], c);
      CountKept(g, v, w, 1) && |w.fats| == |v.fats| && w.fats[0] == Linked(g.kind, v.fats[0], root, c)
    ensures SpaceGrown(g, v, root, RootExtended(g, v, root, c), root + [c])
  {
    hide AllocatedAfter, Zeroes;
  }

  lemma DirGrownIs(g: Geometry, v: Volume, l: Layout, v': Volume, l': Layout)
    requires SpaceGrown(g, v, l.root, v', l'.root) && l' == l.(root := l'.root)
    ensures DirGrown(g, v, l, v', l')
  {
    hide SpaceGrown;
  }

  /** After the directory grew, the old slots are the same and the new ones are clear. */
  lemma RootGrowSlots(g: Geometry, v: Volume, l: Layout, c: nat, written: seq<Entry>)
    requires Sound(g, v, l) && g.kind.FAT32? && InfoFits(g, v)
    requires FirstFree(v.fats[0], c) && c < |v.data| && DirHolds(g, v, l.root, written)
    ensures forall n | 0 <= n < |v.fats| :: c < |v.fats[n]| && l.root[|l.root| - 1] < |v.fats[n]|
    ensures var v', root' := RootExtended(g, v, l.root, c), l.root + [c];
            && DirHolds(g, v', root', written)
            && SlotCount(g, v', root') == SlotCount(g, v, l.root) + SlotsPerCluster(g)
            && forall j | SlotCount(g, v, l.root) <= j < SlotCount(g, v', root') :: SlotAt(g, v', root', j)[0] == 0
  {
    RootInTable(g, v, l);
    AllocatedTables(g, v, l.root, c);
    assert Addressable(g, c);
    var v', root' := RootExtended(g, v, l.root, c), l.root + [c];
    assert c !in l.root;
    assert RootInside(g, v', root');
    DirHoldsFrame(g, v, l.root, v', root', written, |l.root|);
    MulStep(|l.root|, SlotsPerCluster(g));
    NewSlots(g, v', root', c);
  }

  lemma NewSlots(g: Geometry, v: Volume, root: seq<nat>, c: nat)
    requires g.kind.FAT32? && RootInside(g, v, root) && root != [] && root[|root| - 1] == c
    requires v.data[c] == Zeroes(g.bytesPerCluster)
    ensures forall j | (|root| - 1) * SlotsPerCluster(g) <= j < SlotCount(g, v, root) :: SlotAt(g, v, root, j)[0] == 0
  {
    var n := SlotsPerCluster(g);
    forall j | (|root| - 1) * n <= j < SlotCount(g, v, root) ensures SlotAt(g, v, root, j)[0] == 0 {
      SlotPlace(g, root, j);
      LastQuotient(|root|, j, n);
    }
  }

  lemma LastQuotient(k: nat, j: nat, n: nat)
    requires k > 0 && n > 0 && (k - 1) * n <= j < k * n
    ensures j / n == k - 1
  {
    MulStep(k - 1, n);
    DivModUnique(k - 1, j - (k - 1) * n, n);
  }

  // ----- slots in the image -----

  /** Reading a slot in the image. */
  lemma SlotRead(g: Geometry, s: seq<byte>, root: seq<nat>, i: nat)
    requires Sane(g, |s|) && RootInside(g, Abs(g, s), root) && i < SlotCount(g, Abs(g, s), root)
    ensures 0 <= SlotPos(g, root, i) && SlotPos(g, root, i) + 32 <= |s|
    ensures s[SlotPos(g, root, i)..SlotPos(g, root, i) + 32] == SlotAt(g, Abs(g, s), root, i)
  {
    hide *;
    var v := Abs(g, s);
    if g.kind.FAT32? {
      var c, at := ClusterSlot(g, v, root, i);
      ClusterOf(g, s, c);
      SliceOfSlice(s, ClusterPos(g, c), ClusterPos(g, c) + g.bytesPerCluster, at, 32);
    } else {
      FixedSlot(g, v, root, i, Zeroes(32));
      RootLimits(g, |s|);
      RootOf(g, s);
      SliceOfSlice(s, g.rootStart, g.rootEnd, 32 * i, 32);
    }
  }

  lemma ClusterSlot(g: Geometry, v: Volume, root: seq<nat>, i: nat) returns (c: nat, at: nat)
    requires g.kind.FAT32? && RootInside(g, v, root) && i < SlotCount(g, v, root)
    ensures 2 <= c < |v.data| && at + 32 <= g.bytesPerCluster && |v.data[c]| == g.bytesPerCluster
    ensures SlotPos(g, root, i) == ClusterPos(g, c) + at && SlotAt(g, v, root, i) == v.data[c][at..at + 32]
  {
    SlotPlace(g, root, i);
    c, at := root[i / SlotsPerCluster(g)], 32 * (i % SlotsPerCluster(g));
    hide ClusterPos;
  }

  lemma ClusterOf(g: Geometry, s: seq<byte>, c: nat)
    requires Sane(g, |s|) && 2 <= c < |Abs(g, s).data|
    ensures 0 <= ClusterPos(g, c) && ClusterPos(g, c) + g.bytesPerCluster <= |s|
    ensures Abs(g, s).data[c] == s[ClusterPos(g, c)..ClusterPos(g, c) + g.bytesPerCluster]
  {
    ClusterInside(g, |s|, c);
    hide ClusterPos, ClusterLimit, Entries;
  }

  lemma RootOf(g: Geometry, s: seq<byte>)
    requires Sane(g, |s|)
    ensures g.rootStart <= g.rootEnd <= |s| && Abs(g, s).root == s[g.rootStart..g.rootEnd]
  {
    hide ClusterLimit, Entries;
  }

  /** Writing a slot in the image. */
  lemma SlotWriteImage(g: Geometry, s: seq<byte>, root: seq<nat>, i: nat, e: Entry)
    requires Sane(g, |s|) && RootInside(g, Abs(g, s), root) && i < SlotCount(g, Abs(g, s), root)
    ensures 0 <= SlotPos(g, root, i) && SlotPos(g, root, i) + 32 <= |s|
    ensures Abs(g, Splice(s, SlotPos(g, root, i), e)) == WithSlot(g, Abs(g, s), root, i, e)
  {
    hide *;
    if g.kind.FAT32? {
      var c, at := SlotPlaced(g, s, root, i, e);
      DataWritten(g, s, c, at, e);
    } else {
      FixedSlot(g, Abs(g, s), root, i, e);
      RootLimits(g, |s|);
      RootWritten(g, s, g.rootStart + 32 * i, e);
    }
  }

  lemma RootLimits(g: Geometry, len: nat)
    requires Sane(g, len)
    ensures g.rootStart <= g.rootEnd <= len
  {
  }

  lemma SlotPlaced(g: Geometry, s: seq<byte>, root: seq<nat>, i: nat, e: Entry) returns (c: nat, at: nat)
    requires Sane(g, |s|) && g.kind.FAT32? && RootInside(g, Abs(g, s), root) && i < SlotCount(g, Abs(g, s), root)
    ensures 2 <= c < ClusterLimit(g, |s|) && at + 32 <= g.bytesPerCluster
    ensures var v := Abs(g, s);
      && SlotPos(g, root, i) == ClusterPos(g, c) + at && c < |v.data| && at + 32 <= |v.data[c]|
      && WithSlot(g, v, root, i, e) == v.(data := v.data[c := Splice(v.data[c], at, e)])
  {
    SlotPlace(g, root, i);
    c, at := root[i / SlotsPerCluster(g)], 32 * (i % SlotsPerCluster(g));
    hide Abs;
  }

  /** The boundary test of the code says whether the next slot is in the next cluster. */
  lemma SlotNext(g: Geometry, root: seq<nat>, i: nat)
    requires g.kind.FAT32? && g.bytesPerCluster >= 32 && g.bytesPerCluster % 32 == 0 && i < |root| * SlotsPerCluster(g)
    ensures SlotsPerCluster(g) > 0 && i / SlotsPerCluster(g) < |root|
    ensures (SlotPos(g, root, i) + 32 - g.clusterOffset) % g.bytesPerCluster == 0 <==>
            (i + 1) % SlotsPerCluster(g) == 0
    ensures (i + 1) % SlotsPerCluster(g) != 0 ==>
      (i + 1) / SlotsPerCluster(g) == i / SlotsPerCluster(g) && i + 1 < |root| * SlotsPerCluster(g)
      && SlotPos(g, root, i + 1) == SlotPos(g, root, i) + 32
    ensures (i + 1) % SlotsPerCluster(g) == 0 ==> (i + 1) / SlotsPerCluster(g) == i / SlotsPerCluster(g) + 1
  {
    SlotPlace(g, root, i);
    var n := SlotsPerCluster(g);
    NextSlot(i, n, |root|);
    assert g.bytesPerCluster == 32 * n;
    var c: int := root[i / n] as int - 2;
    BoundaryTest(g.bytesPerCluster, c, 32 * (i % n) + 32);
    assert SlotPos(g, root, i) + 32 - g.clusterOffset == c * g.bytesPerCluster + (32 * (i % n) + 32);
  }

  /**
   * Slots in which entries fit without the directory being extended: behind the last slot of a FAT32 directory a
   * cluster is added at once.
   */
  predicate Fitting(g: Geometry, v: Volume, root: seq<nat>, n: nat) {
    if g.kind.FAT32? then n < SlotCount(g, v, root) else n <= SlotCount(g, v, root)
  }

  lemma FittingIs(g: Geometry, v: Volume, root: seq<nat>, n: nat)
    ensures g.kind.FAT32? ==> (Fitting(g, v, root, n) <==> n < SlotCount(g, v, root))
    ensures !g.kind.FAT32? ==> (Fitting(g, v, root, n) <==> n <= SlotCount(g, v, root))
    ensures forall m: nat | m <= n && Fitting(g, v, root, n) :: Fitting(g, v, root, m)
  {
    hide SlotCount;
  }

  predicate PutAt(before: seq<byte>, at: nat, e: Entry, now: seq<byte>) {
    at + 32 <= |before| && now == Splice(before, at, e)
  }

  lemma PutAtIs(s: seq<byte>, at: nat, e: Entry)
    ensures at + 32 <= |s| ==> PutAt(s, at, e, Splice(s, at, e))
  {
  }

  lemma PutAtShows(s: seq<byte>, at: nat, e: Entry, now: seq<byte>)
    requires PutAt(s, at, e, now)
    ensures at + 32 <= |now| && now[at..at + 32] == e
  {
    SpliceWritten(s, at, e);
  }

  /** Behind the last slot of a fixed root directory the clusters begin. */
  lemma FixedEnd(g: Geometry, s: seq<byte>, dir: seq<byte>, root: seq<nat>)
    requires Sane(g, |s|) && !g.kind.FAT32? && dir == Abs(g, s).root
    ensures SlotPos(g, root, |dir| / 32) == g.rootEnd == g.clusterOffset && |dir| == g.rootEnd - g.rootStart
  {
    hide ClusterLimit, Entries, FatBytes, EntryOffset, EntryWidth;
  }

  lemma SlotNextFixed(g: Geometry, root: seq<nat>, i: nat)
    requires !g.kind.FAT32?
    ensures SlotPos(g, root, 0) == g.rootStart && SlotPos(g, root, i + 1) == SlotPos(g, root, i) + 32
  {
  }

  lemma NextSlot(i: nat, n: nat, k: nat)
    requires n > 0 && i / n < k
    ensures (i + 1) % n == 0 <==> i % n == n - 1
    ensures (i + 1) % n != 0 ==> (i + 1) / n == i / n && (i + 1) % n == i % n + 1 && i + 1 < k * n
    ensures (i + 1) % n == 0 ==> (i + 1) / n == i / n + 1
  {
    var q, r := i / n, i % n;
    assert i == q * n + r;
    MulStep(q, n);
    if r == n - 1 {
      DivModUnique(q + 1, 0, n);
    } else {
      DivModUnique(q, r + 1, n);
      MulLe(q + 1, k, n);
    }
  }

  lemma BoundaryTest(m: nat, c: int, at: nat)
    requires m > 0 && 0 < at <= m
    ensures (c * m + at) % m == 0 <==> at == m
  {
    var x := c * m + at;
    assert x == x / m * m + x % m;
    if at == m {
      assert x == (c + 1) * m by { MulStep(c, m); }
      MultipleMod(c + 1, m);
    } else {
      RemainderIs(c, at, m);
    }
  }

  lemma RemainderIs(q: int, r: nat, m: nat)
    requires r < m
    ensures (q * m + r) % m == r
  {
    var x := q * m + r;
    var d := x / m - q;
    assert x == x / m * m + x % m;
    assert d * m == r - x % m by {
      assert d * m == x / m * m - q * m;
    }
    if d >= 1 {
      MulLe(1, d, m);
    } else if d <= -1 {
      MulLe(d, -1, m);
    }
  }

  lemma MultipleMod(q: int, m: nat)
    requires m > 0
    ensures q * m % m == 0
  {
    RemainderIs(q, 0, m);
  }

  /** A full directory can still be scanned when a cleared cluster is added behind it. */
  lemma RootGrowSteady(g: Geometry, v: Volume, l: Layout, c: nat)
    requires Steady(g, v, l) && g.kind.FAT32? && InfoFits(g, v)
    requires FirstFree(v.fats[0], c) && c < |v.data| && |l.entries| == SlotCount(g, v, l.root)
    ensures forall n | 0 <= n < |v.fats| :: c < |v.fats[n]| && l.root[|l.root| - 1] < |v.fats[n]|
    ensures Steady(g, RootExtended(g, v, l.root, c), l.(root := l.root + [c]))
  {
    RootGrowSound(g, v, l, c);
    RootGrowSlots(g, v, l, c, l.entries);
    hide Sound, SlotAt, RootExtended, FirstFree;
  }

  /** The link of a directory cluster: the next one, or an end mark at the last. */
  lemma RootLink(g: Geometry, s: seq<byte>, l: Layout, q: nat)
    requires Sane(g, |s|) && Sound(g, Abs(g, s), l) && q < |l.root|
    ensures EntryInRange(g.kind, g, |s|, 0, l.root[q])
    ensures q + 1 < |l.root| ==> Link(g, s, l.root[q]) == l.root[q + 1] && !IsEof(g.kind, l.root[q + 1])
    ensures q + 1 == |l.root| ==> IsEof(g.kind, Link(g, s, l.root[q]))
    ensures l.root[q] < |Abs(g, s).fats[0]| && (g.kind.FAT16? ==> l.root[q] < TWO16)
  {
    var v := Abs(g, s);
    var all, firsts := AllChains(l), AllFirsts(g, l);
    assert ROOT in all && all[ROOT] == l.root;
    assert Chain(g.kind, v.fats[0], firsts[ROOT], l.root);
    assert InTable(g.kind, v.fats[0], l.root[q]);
    LinkIsEntry(g, s, l.root[q]);
    hide Sound, Abs, Sane, Link, EntryInRange;
    if q + 1 < |l.root| {
      assert InTable(g.kind, v.fats[0], l.root[q + 1]);
    }
  }

  lemma RootNotEmpty(g: Geometry, v: Volume, l: Layout)
    requires Sound(g, v, l) && g.kind.FAT32?
    ensures l.root != []
  {
  }

  lemma FreeIsAddressable(g: Geometry, fat: seq<nat>, c: nat)
    requires FreeAddressable(g, fat) && c < |fat| && fat[c] == 0
    ensures Addressable(g, c) && 2 <= c
  {
  }

  lemma SteadyIsSound(g: Geometry, v: Volume, l: Layout)
    requires Steady(g, v, l)
    ensures Sound(g, v, l)
  {
  }

  /** An entry in the last slot of the last cluster means that the directory has no end marker. */
  lemma FullAtEnd(g: Geometry, v: Volume, l: Layout, i: nat)
    requires Steady(g, v, l) && g.kind.FAT32? && i < |l.entries| && SlotsPerCluster(g) > 0
    requires (i + 1) % SlotsPerCluster(g) == 0
    ensures i / SlotsPerCluster(g) < |l.root|
    ensures (i / SlotsPerCluster(g) + 1) * SlotsPerCluster(g) == i + 1
    ensures i / SlotsPerCluster(g) + 1 == |l.root| ==> |l.entries| == SlotCount(g, v, l.root)
  {
    SlotPlace(g, l.root, i);
    NextSlot(i, SlotsPerCluster(g), |l.root|);
    hide Sound;
    assert i + 1 == (i + 1) / SlotsPerCluster(g) * SlotsPerCluster(g);
  }

  /** The bytes at `pos` are entry `i`, or an end marker behind the entries. */
  ghost predicate Shows(s: seq<byte>, pos: int, entries: seq<Entry>, i: nat) {
    && 0 <= pos && pos + 32 <= |s| && i <= |entries|
    && (s[pos] == 0 <==> i == |entries|)
    && (i < |entries| ==> s[pos..pos + 32] == entries[i])
  }

  lemma ShowsEntry(s: seq<byte>, pos: int, entries: seq<Entry>, i: nat, e: Entry)
    requires Shows(s, pos, entries, i) && 0 <= pos && pos + 32 <= |s| && e == s[pos..pos + 32]
    ensures (e[0] == 0 <==> i == |entries|) && (i < |entries| ==> e == entries[i])
  {
  }

  lemma ShowsInside(s: seq<byte>, pos: int, entries: seq<Entry>, i: nat)
    requires Shows(s, pos, entries, i)
    ensures 0 <= pos && pos + 32 <= |s|
  {
  }

  /** What the image holds at slot `i`, for a scan that has not passed the end of the listed entries. */
  lemma SlotToRead(g: Geometry, s: seq<byte>, l: Layout, i: nat)
    requires Sane(g, |s|) && Steady(g, Abs(g, s), l) && i <= |l.entries|
    requires g.kind.FAT32? ==> i < SlotCount(g, Abs(g, s), l.root)
    ensures 0 <= SlotPos(g, l.root, i) <= |s| && |l.entries| <= SlotCount(g, Abs(g, s), l.root)
    ensures i < SlotCount(g, Abs(g, s), l.root) ==> Shows(s, SlotPos(g, l.root, i), l.entries, i)
    ensures !g.kind.FAT32? ==> (i < SlotCount(g, Abs(g, s), l.root) <==> SlotPos(g, l.root, i) + 32 <= g.rootEnd)
  {
    var v := Abs(g, s);
    hide Sound;
    if i < SlotCount(g, v, l.root) {
      SlotRead(g, s, l.root, i);
    }
  }

  /**
   * What a scan of the directory does to the volume: it can be scanned again, nothing but the directory can grow, and
   * with an end marker nothing changes at all.
   */
  ghost predicate Scanned(g: Geometry, v: Volume, l: Layout, v': Volume, l': Layout) {
    && Steady(g, v', l')
    && DirGrown(g, v, l, v', l')
    && (|l.entries| < SlotCount(g, v, l.root) ==> v' == v && l' == l)
  }

  lemma ScannedSelf(g: Geometry, v: Volume, l: Layout)
    requires Steady(g, v, l) && InfoFits(g, v)
    ensures Scanned(g, v, l, v, l)
  {
    DirGrownSelf(g, v, l);
    hide DirGrown;
  }

  lemma ScannedStep(g: Geometry, v: Volume, l: Layout, v1: Volume, l1: Layout, v2: Volume, l2: Layout)
    requires Scanned(g, v, l, v1, l1) && Scanned(g, v1, l1, v2, l2)
    ensures Scanned(g, v, l, v2, l2)
  {
    DirGrownTransitive(g, v, l, v1, l1, v2, l2);
    hide DirGrown, Steady;
  }

  lemma ScannedEntries(g: Geometry, v: Volume, l: Layout, v': Volume, l': Layout)
    requires Scanned(g, v, l, v', l')
    ensures Steady(g, v', l') && Sound(g, v', l')
    ensures l'.entries == l.entries && l'.firsts == l.firsts && l'.chains == l.chains
  {
  }

  lemma ScannedRoot(g: Geometry, v: Volume, l: Layout, v': Volume, l': Layout)
    requires Scanned(g, v, l, v', l')
    ensures |l.entries| < SlotCount(g, v, l.root) ==> v' == v && l' == l
  {
  }

  lemma MarkedStays(g: Geometry, v: Volume, l: Layout, v': Volume, l': Layout)
    requires Scanned(g, v, l, v', l')
    ensures |l.entries| < SlotCount(g, v, l.root) ==> |l'.entries| < SlotCount(g, v', l'.root)
  {
  }

  /** A free cluster is not a directory cluster. */
  lemma FreshCluster(g: Geometry, v: Volume, l: Layout, c: nat)
    requires Sound(g, v, l) && c < |v.fats[0]| && v.fats[0][c] == 0
    ensures c !in l.root
  {
    RootInTable(g, v, l);
  }

  lemma RootExtendedIs(g: Geometry, v: Volume, root: seq<nat>, c: nat)
    requires InfoFits(g, v) && root != [] && c < |v.data|
    requires forall n | 0 <= n < |v.fats| :: c < |v.fats[n]| && root[|root| - 1] < |v.fats[n]|
    ensures WithCluster(AllocatedAfter(g, v, root[|root| - 1], c), c, Zeroes(g.bytesPerCluster))
            == RootExtended(g, v, root, c)
  {
  }

  /** Clearing a directory cluster behind the written slots. */
  lemma ClearStep(g: Geometry, v: Volume, l: Layout, q: nat, written: seq<Entry>)
    requires Sound(g, v, l) && g.kind.FAT32? && InfoFits(g, v) && DirHolds(g, v, l.root, written)
    requires q < |l.root| && |written| <= q * SlotsPerCluster(g)
    ensures l.root[q] < |v.data|
    ensures var v' := WithCluster(v, l.root[q], Zeroes(g.bytesPerCluster));
            Sound(g, v', l) && DirHolds(g, v', l.root, written) && DirGrown(g, v, l, v', l)
  {
    RootInTable(g, v, l);
    var v' := WithCluster(v, l.root[q], Zeroes(g.bytesPerCluster));
    assert Shaped(g, v') && RootInside(g, v', l.root);
    SoundSameTables(g, v, l, v');
    DirWritten(g, v, l, v');
    hide Sound, DirGrown, Shaped, RootInside;
    DirHoldsFrame(g, v, l.root, v', l.root, written, q);
  }

  lemma QuotientOf(i: nat, n: nat)
    requires n > 0 && i % n == 0
    ensures i == i / n * n
  {
  }

  /** A fixed directory ends at its last slot; a slot of a cluster chain is one of its slots. */
  lemma SlotLimits(g: Geometry, len: nat, v: Volume, root: seq<nat>, i: nat)
    requires Sane(g, len) && |v.root| == g.rootEnd - g.rootStart
    ensures !g.kind.FAT32? ==> (i < SlotCount(g, v, root) <==> SlotPos(g, root, i) + 32 <= g.rootEnd)
    ensures g.kind.FAT32? ==> SlotCount(g, v, root) == |root| * SlotsPerCluster(g)
  {
  }

  /** Writing an entry behind the written slots, in the image and in its parts. */
  lemma SlotWriteAll(g: Geometry, s: seq<byte>, v: Volume, l: Layout, l1: Layout, written: seq<Entry>, e: Entry)
    requires Sane(g, |s|) && InfoFits(g, Abs(g, s)) && Sound(g, Abs(g, s), l1)
    requires DirHolds(g, Abs(g, s), l1.root, written)
    requires DirGrown(g, v, l, Abs(g, s), l1) && |written| < SlotCount(g, Abs(g, s), l1.root)
    ensures 0 <= SlotPos(g, l1.root, |written|) && SlotPos(g, l1.root, |written|) + 32 <= |s|
    ensures var w := Abs(g, Splice(s, SlotPos(g, l1.root, |written|), e));
            Sound(g, w, l1) && DirHolds(g, w, l1.root, written + [e]) && DirGrown(g, v, l, w, l1)
  {
    var v1 := Abs(g, s);
    RootInTable(g, v1, l1);
    SlotWriteImage(g, s, l1.root, |written|, e);
    SlotWriteSound(g, v1, l1, |written|, e);
    DirHoldsWrite(g, v1, l1.root, written, e);
    DirGrownTransitive(g, v, l, v1, l1, WithSlot(g, v1, l1.root, |written|, e), l1);
    hide *;
  }

  lemma DirGrownSpace(g: Geometry, v: Volume, l: Layout, v': Volume, l': Layout)
    requires DirGrown(g, v, l, v', l')
    ensures SpaceGrown(g, v, l.root, v', l'.root)
  {
  }

  lemma RootEnds(g: Geometry, len: nat)
    requires Sane(g, len)
    ensures g.rootEnd <= len
  {
  }

  /** A slot that ends a cluster, other than the last one, is followed by another cluster. */
  lemma NextCluster(i: nat, n: nat, k: nat)
    requires n > 0 && (i + 1) % n == 0 && i / n < k
    ensures (i / n + 1) * n == i + 1
    ensures i + 1 < k * n ==> i / n + 1 < k
  {
    NextSlot(i, n, k);
    QuotientOf(i + 1, n);
  }

  /** A directory that grew has at least the slots it had. */
  lemma SlotsKept(g: Geometry, v: Volume, root: seq<nat>, v': Volume, root': seq<nat>)
    requires SpaceGrown(g, v, root, v', root')
    ensures SlotCount(g, v, root) <= SlotCount(g, v', root')
  {
    MulLe(|root|, |root'|, SlotsPerCluster(g));
    hide CountKept;
  }

  lemma SteadyHolds(g: Geometry, v: Volume, l: Layout, v': Volume, l': Layout)
    requires Scanned(g, v, l, v', l')
    ensures Sound(g, v', l') && DirHolds(g, v', l'.root, l.entries) && DirGrown(g, v, l, v', l')
  {
  }
}
