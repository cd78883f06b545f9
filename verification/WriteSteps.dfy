/** The steps of rewriting a file: its chain grows or is cut, its clusters are filled, and everything else stays. */
module WriteSteps {
  import opened Arith
  import opened Bytes
  import opened Options
  import opened FatCodec
  import opened Volumes
  import opened FatTables
  import opened Chains
  import opened ChainWalks
  import opened FsInfos
  import opened Names
  import opened Directories
  import opened Layouts
  import opened DirSteps
  import opened FileSteps

  /** The layout with another chain for the file in slot `i`. */
  ghost function WithChain(l: Layout, i: int, first: nat, chain: seq<nat>): Layout {
    l.(firsts := l.firsts[i := first], chains := l.chains[i := chain])
  }

  /** The clusters that must be allocated for a chain of `n` out of one of `have`. */
  function Missing(n: nat, have: nat): nat {
    if n > have then n - have else 0
  }

  /**
   * A step that touches nothing but one chain: clusters in use outside it keep their table entry and their bytes, its
   * new clusters were free, and the free count is still right.
   */
  ghost predicate Reworked(g: Geometry, v: Volume, chain: seq<nat>, v': Volume, chain': seq<nat>) {
    && |v'.data| == |v.data| && |v'.fats| == |v.fats| > 0 && |v'.fats[0]| == |v.fats[0]| && v'.root == v.root
    && CountKept(g, v, v', Missing(|chain'|, |chain|))
    && (forall x | x in chain' :: x in chain || (x < |v.fats[0]| && v.fats[0][x] == 0))
    && (forall c | 0 <= c < |v.fats[0]| && v.fats[0][c] != 0 && c !in chain :: v'.fats[0][c] == v.fats[0][c])
    && (forall c | 0 <= c < |v.fats[0]| && c < |v.data| && v.fats[0][c] != 0 && c !in chain :: v'.data[c] == v.data[c])
  }

  lemma ReworkedSelf(g: Geometry, v: Volume, chain: seq<nat>)
    requires InfoFits(g, v) && |v.fats| > 0
    ensures Reworked(g, v, chain, v, chain)
  {
  }

  lemma ReworkedTransitive(g: Geometry, v: Volume, c: seq<nat>, v1: Volume, c1: seq<nat>, v2: Volume, c2: seq<nat>)
    requires Reworked(g, v, c, v1, c1) && Reworked(g, v1, c1, v2, c2)
    requires |c| <= |c1| <= |c2| || |c1| == |c2|
    ensures Reworked(g, v, c, v2, c2)
  {
    CountKeptTransitive(g, v, v1, v2, Missing(|c1|, |c|), Missing(|c2|, |c1|));
    hide CountKept;
    forall x | 0 <= x < |v.fats[0]| && v.fats[0][x] != 0 && x !in c ensures x !in c1 {
    }
  }

  // ----- growing -----

  /** Clusters that can be reached: their 32-bit offset is right. */
  ghost predicate Seekable(g: Geometry, limit: nat, chain: seq<nat>) {
    forall k | 0 <= k < |chain| :: 2 <= chain[k] && (Addressable(g, chain[k]) || chain[k] < limit)
  }

  function Last(chain: seq<nat>): nat {
    if chain == [] then 0 else chain[|chain| - 1]
  }

  function FirstOf(first: nat, chain: seq<nat>, c: nat): nat {
    if chain == [] then c else first
  }

  /** The chain of a file lies in the table, and its last cluster can be passed to the setter. */
  lemma ChainInTable(g: Geometry, v: Volume, l: Layout, i: int)
    requires TablesSound(g, v, l) && i in l.chains
    ensures i != ROOT && i in l.firsts
    ensures Chain(g.kind, v.fats[0], l.firsts[i], l.chains[i])
    ensures forall k | 0 <= k < |l.chains[i]| ::
      && 2 <= l.chains[i][k] < |v.fats[0]| && v.fats[0][l.chains[i][k]] != 0 && !IsEof(g.kind, l.chains[i][k])
  {
    var all, firsts := AllChains(l), AllFirsts(g, l);
    assert i in all && all[i] == l.chains[i] && firsts[i] == l.firsts[i];
    assert Chain(g.kind, v.fats[0], firsts[i], all[i]);
    forall k | 0 <= k < |l.chains[i]|
      ensures 2 <= l.chains[i][k] < |v.fats[0]| && v.fats[0][l.chains[i][k]] != 0 && !IsEof(g.kind, l.chains[i][k])
    {
      ChainUsed(g.kind, v.fats[0], firsts[i], all[i], k);
      assert InTable(g.kind, v.fats[0], all[i][k]);
    }
  }

  lemma WithChainAll(g: Geometry, l: Layout, i: int, first: nat, chain: seq<nat>)
    requires Keyed(l) && i in l.chains
    ensures i in l.firsts && i in AllChains(l) && AllChains(l)[i] == l.chains[i]
    ensures i in AllFirsts(g, l) && AllFirsts(g, l)[i] == l.firsts[i]
    ensures var l' := WithChain(l, i, first, chain);
            && Keyed(l') && AllChains(l') == AllChains(l)[i := chain] && AllFirsts(g, l') == AllFirsts(g, l)[i := first]
  {
  }

  /** Allocating one more cluster for a file keeps the tables sound. */
  lemma GrowSound(g: Geometry, v: Volume, l: Layout, i: int, c: nat)
    requires TablesSound(g, v, l) && InfoFits(g, v) && i in l.chains && FirstFree(v.fats[0], c)
    ensures i in l.firsts && Addressable(g, c)
    ensures forall n | 0 <= n < |v.fats| :: c < |v.fats[n]| && Last(l.chains[i]) < |v.fats[n]|
    ensures TablesSound(g, AllocatedAfter(g, v, Last(l.chains[i]), c),
                        WithChain(l, i, FirstOf(l.firsts[i], l.chains[i], c), l.chains[i] + [c]))
  {
    ChainInTable(g, v, l, i);
    AllocatedTables(g, v, l.chains[i], c);
    LinkedAddressable(g, v.fats[0], l.chains[i], c);
    GrowFamily(g, v, l, i, c);
    hide Family, FreeAddressable, Linked, AllocatedAfter, AllFirsts, Addressable, AllChains, InTable;
  }

  lemma GrowFamily(g: Geometry, v: Volume, l: Layout, i: int, c: nat)
    requires TablesSound(g, v, l) && i in l.chains && FirstFree(v.fats[0], c)
    ensures i in l.firsts && (l.chains[i] != [] ==> Last(l.chains[i]) < |v.fats[0]|) && Addressable(g, c)
    ensures var l' := WithChain(l, i, FirstOf(l.firsts[i], l.chains[i], c), l.chains[i] + [c]);
            && Keyed(l')
            && Family(g.kind, Linked(g.kind, v.fats[0], l.chains[i], c), AllFirsts(g, l'), AllChains(l'))
  {
    var fat, firsts, all := v.fats[0], AllFirsts(g, l), AllChains(l);
    WithChainAll(g, l, i, FirstOf(l.firsts[i], l.chains[i], c), l.chains[i] + [c]);
    assert Addressable(g, c) && InTable(g.kind, fat, c) && Family(g.kind, fat, firsts, all);
    hide Family, Linked, AllFirsts, AllChains, Addressable, InTable, Keyed, TablesSound, WithChain;
    FamilyGrow(g.kind, fat, firsts, all, i, c);
  }

  lemma GrowStep(g: Geometry, v: Volume, l: Layout, i: int, c: nat)
    requires TablesSound(g, v, l) && InfoFits(g, v) && i in l.chains && FirstFree(v.fats[0], c)
    ensures forall n | 0 <= n < |v.fats| :: c < |v.fats[n]| && Last(l.chains[i]) < |v.fats[n]|
    ensures Reworked(g, v, l.chains[i], AllocatedAfter(g, v, Last(l.chains[i]), c), l.chains[i] + [c])
  {
    ChainInTable(g, v, l, i);
    var chain := l.chains[i];
    AllocatedTables(g, v, chain, c);
    assert Addressable(g, c);
    AllocatedAfterCounted(g, v, Last(chain), c);
    var v' := AllocatedAfter(g, v, Last(chain), c);
    assert v'.fats[0] == Linked(g.kind, v.fats[0], chain, c);
    assert chain != [] ==> Last(chain) in chain;
    hide TablesSound, AllocatedAfter, Addressable, CountKept;
  }

  lemma WithChainSame(l: Layout, i: int)
    requires i in l.chains && i in l.firsts
    ensures WithChain(l, i, l.firsts[i], l.chains[i]) == l
  {
    assert l.firsts[i := l.firsts[i]] == l.firsts && l.chains[i := l.chains[i]] == l.chains;
  }

  lemma WithChainTwice(l: Layout, i: int, f: nat, a: seq<nat>, h: nat, b: seq<nat>)
    ensures WithChain(WithChain(l, i, f, a), i, h, b) == WithChain(l, i, h, b)
  {
    assert l.firsts[i := f][i := h] == l.firsts[i := h] && l.chains[i := a][i := b] == l.chains[i := b];
  }

  lemma NoClusters(kind: FatKind, fat: seq<nat>, chain: seq<nat>)
    requires Chain(kind, fat, 0, chain)
    ensures chain == []
  {
    assert chain != [] ==> InTable(kind, fat, chain[0]);
  }

  // ----- when growing succeeds -----

  /** There are `k` free clusters, all free ones lie in the partition, and the free count can be updated. */
  ghost predicate Roomy(g: Geometry, v: Volume, k: nat) {
    && InfoUsable(g, v) && |v.fats| > 0
    && (forall c | 0 <= c < |v.fats[0]| && v.fats[0][c] == 0 :: c < |v.data|)
    && Free(v.fats[0]) >= k
  }

  lemma {:induction false} FreeHas(fat: seq<nat>)
    requires Free(fat) > 0
    ensures HasFree(fat)
  {
    var n := |fat| - 1;
    if fat[n] != 0 {
      FreeHas(fat[..n]);
      var c :| 0 <= c < n && fat[..n][c] == 0;
      assert fat[c] == 0;
    }
  }

  lemma RoomyFree(g: Geometry, v: Volume, k: nat)
    requires Roomy(g, v, k) && k > 0
    ensures InfoUsable(g, v) && HasFree(v.fats[0])
  {
    FreeHas(v.fats[0]);
  }

  /** An allocation behind a used cluster takes one. */
  lemma RoomyStep(g: Geometry, v: Volume, chain: seq<nat>, c: nat, k: nat)
    requires Roomy(g, v, k + 1) && InfoFits(g, v) && FirstFree(v.fats[0], c) && c != 0
    requires forall m | 0 <= m < |v.fats| :: v.fats[m] == v.fats[0]
    requires forall i | 0 <= i < |chain| :: 2 <= chain[i] < |v.fats[0]| && v.fats[0][chain[i]] != 0
    ensures forall n | 0 <= n < |v.fats| :: c < |v.fats[n]| && Last(chain) < |v.fats[n]|
    ensures c < |v.data| && Roomy(g, AllocatedAfter(g, v, Last(chain), c), k)
  {
    AllocatedTables(g, v, chain, c);
    var w, mark := AllocatedAfter(g, v, Last(chain), c), EofMark(g.kind);
    FreeUpdate(v.fats[0], c, mark);
    var fat := v.fats[0][c := mark];
    if chain != [] {
      FreeUpdate(fat, Last(chain), c);
    }
    assert w.fats[0] == Linked(g.kind, v.fats[0], chain, c);
    if g.fsInfoSector != 0 {
      var u := WithEntry(v, c, mark);
      assert InfoOf(g, u) == InfoOf(g, v);
      CountAfter(g, u, -1, c);
      assert w.head == Allocated(g, v, c).head;
      assert InfoOf(g, w) == InfoOf(g, Allocated(g, v, c));
    }
    hide AllocatedAfter, Signed, InfoOf, Free;
  }

  /** What the allocator needs to know before it adds a cluster to the chain of a file. */
  lemma GrowFrom(g: Geometry, v: Volume, l: Layout, i: int, k: nat)
    requires TablesSound(g, v, l) && InfoFits(g, v) && i in l.chains
    ensures |v.fats| > 0 && FreeAddressable(g, v.fats[0]) && g.bytesPerSector > 0 && |v.fats[0]| == Entries(g)
    ensures l.chains[i] != [] ==>
      2 <= Last(l.chains[i]) < |v.fats[0]| && (g.kind.FAT16? ==> Last(l.chains[i]) < TWO16)
    ensures l.chains[i] == [] ==> Last(l.chains[i]) == 0
    ensures k > 0 && Roomy(g, v, k) ==> InfoUsable(g, v) && HasFree(v.fats[0])
  {
    ChainInTable(g, v, l, i);
    if k > 0 && Roomy(g, v, k) {
      RoomyFree(g, v, k);
    }
    hide InfoUsable, HasFree, Family, FreeAddressable, Addressable;
  }

  /** A chain is being grown: `c0` was the chain of the file, `list` is the chain now. */
  ghost predicate Growing(g: Geometry, v: Volume, l: Layout, i: int, c0: seq<nat>, v1: Volume, l1: Layout,
                          list: seq<nat>) {
    && TablesSound(g, v1, l1) && i in l1.chains && i in l1.firsts && list == l1.chains[i]
    && l1 == WithChain(l, i, l1.firsts[i], list) && c0 <= list
    && Reworked(g, v, c0, v1, list) && Seekable(g, |v1.data|, list)
  }

  lemma GrowingSelf(g: Geometry, v: Volume, l: Layout, i: int)
    requires TablesSound(g, v, l) && InfoFits(g, v) && i in l.chains && Seekable(g, |v.data|, l.chains[i])
    ensures Growing(g, v, l, i, l.chains[i], v, l, l.chains[i])
  {
    ChainInTable(g, v, l, i);
    ReworkedSelf(g, v, l.chains[i]);
    WithChainSame(l, i);
    hide Family, FreeAddressable, Seekable, Reworked;
  }

  ghost function Grown(l: Layout, i: int, c: nat): Layout
    requires i in l.firsts && i in l.chains
  {
    WithChain(l, i, FirstOf(l.firsts[i], l.chains[i], c), l.chains[i] + [c])
  }

  /** The state after one more allocation. */
  lemma GrowTo(g: Geometry, v: Volume, l: Layout, i: int, c0: seq<nat>, v1: Volume, l1: Layout, list: seq<nat>, c: nat,
               k: nat)
    requires Growing(g, v, l, i, c0, v1, l1, list) && InfoFits(g, v1) && FirstFree(v1.fats[0], c)
    ensures i in l1.chains && i in l1.firsts
    ensures forall n | 0 <= n < |v1.fats| :: c < |v1.fats[n]| && Last(list) < |v1.fats[n]|
    ensures var w := AllocatedAfter(g, v1, Last(list), c);
      && Growing(g, v, l, i, c0, w, Grown(l1, i, c), list + [c])
      && (Roomy(g, v1, k + 1) ==> Roomy(g, w, k) && c < |w.data|)
    ensures Last(list + [c]) == c
  {
    hide *;
    GrowingParts(g, v, l, i, c0, v1, l1, list);
    GrowSound(g, v1, l1, i, c);
    GrowStep(g, v1, l1, i, c);
    var w, f := AllocatedAfter(g, v1, Last(list), c), FirstOf(l1.firsts[i], list, c);
    if Roomy(g, v1, k + 1) {
      GrowRoomy(g, v1, l1, i, c, k);
    }
    LastIs(list, c);
    assert c0 <= list + [c];
    ReworkedTransitive(g, v, c0, v1, list, w, list + [c]);
    WithChainTwice(l, i, l1.firsts[i], list, f, list + [c]);
    GrownIs(g, v, l, i, c0, w, l1, list, c);
  }

  lemma LastIs(list: seq<nat>, c: nat)
    ensures Last(list + [c]) == c
  {
  }

  lemma GrowingParts(g: Geometry, v: Volume, l: Layout, i: int, c0: seq<nat>, v1: Volume, l1: Layout, list: seq<nat>)
    requires Growing(g, v, l, i, c0, v1, l1, list)
    ensures TablesSound(g, v1, l1) && i in l1.chains && i in l1.firsts && list == l1.chains[i] && c0 <= list
    ensures l1 == WithChain(l, i, l1.firsts[i], list)
    ensures Reworked(g, v, c0, v1, list) && Seekable(g, |v1.data|, list) && |v1.fats| > 0
  {
  }

  lemma GrowRoomy(g: Geometry, v: Volume, l: Layout, i: int, c: nat, k: nat)
    requires TablesSound(g, v, l) && InfoFits(g, v) && i in l.chains && FirstFree(v.fats[0], c) && Addressable(g, c)
    requires Roomy(g, v, k + 1)
    ensures forall n | 0 <= n < |v.fats| :: c < |v.fats[n]| && Last(l.chains[i]) < |v.fats[n]|
    ensures c < |v.data| && Roomy(g, AllocatedAfter(g, v, Last(l.chains[i]), c), k)
  {
    ChainInTable(g, v, l, i);
    RoomyStep(g, v, l.chains[i], c, k);
    hide Family, FreeAddressable, Roomy;
  }

  lemma GrownIs(g: Geometry, v: Volume, l: Layout, i: int, c0: seq<nat>, w: Volume, l1: Layout, list: seq<nat>, c: nat)
    requires i in l1.firsts && i in l1.chains && list == l1.chains[i] && c0 <= list + [c] && Addressable(g, c)
    requires var f := FirstOf(l1.firsts[i], list, c);
      && TablesSound(g, w, WithChain(l1, i, f, list + [c]))
      && WithChain(l1, i, f, list + [c]) == WithChain(l, i, f, list + [c])
    requires Reworked(g, v, c0, w, list + [c]) && Seekable(g, |w.data|, list)
    ensures Growing(g, v, l, i, c0, w, Grown(l1, i, c), list + [c])
  {
    hide TablesSound, Reworked, Addressable;
    assert 2 <= c by { AddressableMin(g, c); }
  }

  lemma AddressableMin(g: Geometry, c: nat)
    requires Addressable(g, c)
    ensures 2 <= c
  {
  }

  lemma MissingIs(g: Geometry, v: Volume, n: nat, have: nat)
    ensures n > have ==> Missing(n, have) == n - have
    ensures Roomy(g, v, Missing(n, have)) ==> InfoUsable(g, v)
  {
  }

  // ----- cutting -----

  /** The clusters of `chain` from position `k` on were overwritten with zeroes and freed in every copy of the table. */
  ghost predicate Freed(g: Geometry, v: Volume, v': Volume, chain: seq<nat>, k: nat)
    requires |v.fats| > 0 && k <= |chain|
    requires forall j | 0 <= j < |chain| :: chain[j] < |v.fats[0]| && chain[j] < |v.data|
  {
    && v'.head == v.head && v'.root == v.root && |v'.data| == |v.data|
    && |v'.fats| == |v.fats| && |v'.fats[0]| == |v.fats[0]|
    && (forall m | 0 <= m < |v'.fats| :: v'.fats[m] == v'.fats[0])
    && (forall j | k <= j < |chain| :: v'.fats[0][chain[j]] == 0 && v'.data[chain[j]] == Zeroes(g.bytesPerCluster))
    && (forall c | 0 <= c < |v.fats[0]| && c !in chain[k..] :: v'.fats[0][c] == v.fats[0][c])
    && (forall c | 0 <= c < |v.data| && c !in chain[k..] :: v'.data[c] == v.data[c])
    && Free(v'.fats[0]) == Free(v.fats[0]) + |chain| - k
  }

  lemma FreedStep(g: Geometry, v: Volume, v': Volume, chain: seq<nat>, k: nat)
    requires |v.fats| > 0 && k < |chain| && Distinct(chain)
    requires forall j | 0 <= j < |chain| :: chain[j] < |v.fats[0]| && chain[j] < |v.data| && v.fats[0][chain[j]] != 0
    requires Freed(g, v, v', chain, k + 1)
    ensures forall n | 0 <= n < |v'.fats| :: chain[k] < |v'.fats[n]|
    ensures Freed(g, v, WithEntry(WithCluster(v', chain[k], Zeroes(g.bytesPerCluster)), chain[k], 0), chain, k)
  {
    var c := chain[k];
    assert chain[k..] == [c] + chain[k + 1..];
    assert c !in chain[k + 1..];
    forall n | 0 <= n < |v'.fats| ensures c < |v'.fats[n]| {
      assert v'.fats[n] == v'.fats[0];
    }
    FreeUpdate(v'.fats[0], c, 0);
    var w := WithEntry(WithCluster(v', c, Zeroes(g.bytesPerCluster)), c, 0);
    assert w.fats[0] == v'.fats[0][c := 0];
    forall m | 0 <= m < |w.fats| ensures w.fats[m] == w.fats[0] {
      assert v'.fats[m] == v'.fats[0];
    }
    hide Zeroes, Free;
  }

  /** The volume after the last kept entry got its end mark and the free count grew. */
  ghost function Closed(g: Geometry, v: Volume, chain: seq<nat>, n: nat, hint: nat): Volume
    requires InfoFits(g, v) && n <= |chain|
    requires forall m, j | 0 <= m < |v.fats| && 0 <= j < |chain| :: chain[j] < |v.fats[m]|
  {
    var w := WithInfo(g, v, |chain| - n, hint);
    if n == 0 then w else WithEntry(w, chain[n - 1], EofMark(g.kind))
  }

  /** What cutting a chain starts from. */
  ghost predicate Cutting(g: Geometry, len: nat, v: Volume, l: Layout, i: int, v': Volume, n: nat) {
    && Sane(g, len) && |v.data| == ClusterLimit(g, len)
    && Sound(g, v, l) && InfoFits(g, v) && i in l.chains && i in l.firsts && n < |l.chains[i]|
    && (forall j | 0 <= j < |l.chains[i]| ::
          l.chains[i][j] < |v.fats[0]| && l.chains[i][j] < |v.data| && v.fats[0][l.chains[i][j]] != 0)
    && Distinct(l.chains[i])
    && Freed(g, v, v', l.chains[i], n) && Shaped(g, v') && InfoFits(g, v')
    && (forall m, j | 0 <= m < |v'.fats| && 0 <= j < |l.chains[i]| :: l.chains[i][j] < |v'.fats[m]|)
  }

  /** Cutting the chain of a file keeps the tables sound. */
  lemma CutSound(g: Geometry, len: nat, v: Volume, l: Layout, i: int, v': Volume, n: nat, hint: nat, first: nat)
    requires Cutting(g, len, v, l, i, v', n)
    requires if n > 0 then first == l.firsts[i] else first == 0 || IsEof(g.kind, first)
    ensures TablesSound(g, Closed(g, v', l.chains[i], n, hint), WithChain(l, i, first, l.chains[i][..n]))
  {
    var chain, w, l' := l.chains[i], Closed(g, v', l.chains[i], n, hint), WithChain(l, i, first, l.chains[i][..n]);
    assert Shaped(g, w);
    ClosedTables(g, v', chain, n, hint);
    assert if g.kind.FAT32? then l'.root != [] else l'.root == [];
    hide Family, FreeAddressable, AllFirsts, AllChains, Closed, Inside, Shaped, Addressable, Free, Zeroes, Keyed,
         WithChain;
    CutTables(g, v, v', chain, n, w);
    CutAddressable(g, len, v, l, i, w, n);
    CutFamily(g, v, l, i, w, n, first);
  }

  /** Cutting the chain of a file touches nothing else. */
  lemma CutStep(g: Geometry, len: nat, v: Volume, l: Layout, i: int, v': Volume, n: nat, hint: nat)
    requires Cutting(g, len, v, l, i, v', n)
    ensures Reworked(g, v, l.chains[i], Closed(g, v', l.chains[i], n, hint), l.chains[i][..n])
  {
    var chain, w := l.chains[i], Closed(g, v', l.chains[i], n, hint);
    ClosedTables(g, v', chain, n, hint);
    CutTables(g, v, v', chain, n, w);
    CutCount(g, v, v', chain, n, hint);
    hide Closed, Inside, Shaped, Free, Zeroes, Sound, Sane, CountKept, Keyed;
    forall c | c in chain[n..] ensures c in chain {
    }
    forall c | c in chain[..n] ensures c in chain {
    }
  }

  lemma ClosedTables(g: Geometry, v: Volume, chain: seq<nat>, n: nat, hint: nat)
    requires InfoFits(g, v) && n <= |chain| && |v.fats| > 0 && forall m | 0 <= m < |v.fats| :: v.fats[m] == v.fats[0]
    requires forall m, j | 0 <= m < |v.fats| && 0 <= j < |chain| :: chain[j] < |v.fats[m]|
    ensures var w := Closed(g, v, chain, n, hint);
            && w.root == v.root && w.data == v.data && |w.fats| == |v.fats|
            && (forall m | 0 <= m < |w.fats| :: w.fats[m] == w.fats[0])
            && w.fats[0] == (if n == 0 then v.fats[0] else Update(v.fats[0], chain[n - 1], EofMark(g.kind)))
  {
  }

  lemma CutTables(g: Geometry, v: Volume, v': Volume, chain: seq<nat>, n: nat, w: Volume)
    requires |v.fats| > 0 && |w.fats| > 0 && n < |chain| && Distinct(chain)
    requires forall j | 0 <= j < |chain| :: chain[j] < |v.fats[0]| && chain[j] < |v.data|
    requires Freed(g, v, v', chain, n)
    requires w.fats[0] == (if n == 0 then v'.fats[0] else Update(v'.fats[0], chain[n - 1], EofMark(g.kind)))
    ensures CutTable(g.kind, v.fats[0], w.fats[0], chain, n)
  {
    forall c | c in chain[n..] ensures c in chain {
    }
    forall j | 0 <= j < n ensures chain[j] !in chain[n..] {
    }
    hide Free, Zeroes;
  }

  lemma CutAddressable(g: Geometry, len: nat, v: Volume, l: Layout, i: int, w: Volume, n: nat)
    requires Sane(g, len) && |v.data| == ClusterLimit(g, len)
    requires TablesSound(g, v, l) && i in l.chains && |w.fats| > 0 && n <= |l.chains[i]|
    requires forall j | 0 <= j < |l.chains[i]| :: l.chains[i][j] < |v.fats[0]| && l.chains[i][j] < |v.data|
    requires CutTable(g.kind, v.fats[0], w.fats[0], l.chains[i], n)
    ensures FreeAddressable(g, w.fats[0])
  {
    ChainInTable(g, v, l, i);
    var chain := l.chains[i];
    assert FreeAddressable(g, v.fats[0]);
    hide Addressable, TablesSound, Sane;
    forall c | 0 <= c < |w.fats[0]| && w.fats[0][c] == 0 ensures Addressable(g, c) {
      if c in chain {
        InsideAddressable(g, len, c);
      }
    }
  }

  lemma CutFamily(g: Geometry, v: Volume, l: Layout, i: int, w: Volume, n: nat, first: nat)
    requires TablesSound(g, v, l) && i in l.chains && i in l.firsts && |w.fats| > 0 && n <= |l.chains[i]|
    requires forall j | 0 <= j < |l.chains[i]| :: l.chains[i][j] < |v.fats[0]|
    requires CutTable(g.kind, v.fats[0], w.fats[0], l.chains[i], n)
    requires if n > 0 then first == l.firsts[i] else first == 0 || IsEof(g.kind, first)
    ensures var l' := WithChain(l, i, first, l.chains[i][..n]);
            Keyed(l') && Family(g.kind, w.fats[0], AllFirsts(g, l'), AllChains(l'))
  {
    var fat, firsts, all := v.fats[0], AllFirsts(g, l), AllChains(l);
    WithChainAll(g, l, i, first, l.chains[i][..n]);
    assert Family(g.kind, fat, firsts, all);
    hide *;
    FamilyCut(g.kind, fat, w.fats[0], firsts, all, i, n, first);
  }

  /** The free count grows by the number of freed clusters. */
  lemma CutCount(g: Geometry, v: Volume, v': Volume, chain: seq<nat>, n: nat, hint: nat)
    requires |v.fats| > 0 && InfoFits(g, v) && n < |chain| && Distinct(chain) && InfoFits(g, v')
    requires forall j | 0 <= j < |chain| :: chain[j] < |v.fats[0]| && chain[j] < |v.data| && v.fats[0][chain[j]] != 0
    requires Freed(g, v, v', chain, n)
    requires forall m, j | 0 <= m < |v'.fats| && 0 <= j < |chain| :: chain[j] < |v'.fats[m]|
    ensures CountKept(g, v, Closed(g, v', chain, n, hint), 0)
  {
    var w := WithInfo(g, v', |chain| - n, hint);
    assert CountKept(g, v, w, 0) by {
      if g.fsInfoSector != 0 {
        assert InfoOf(g, v') == InfoOf(g, v);
        CountAfter(g, v', |chain| - n, hint);
        hide WithInfo, InfoOf;
        FreedCount(g, v, w, |chain| - n);
      }
    }
    if n > 0 {
      assert chain[n - 1] !in chain[n..];
      LinkCounted(g, w, chain[n - 1], EofMark(g.kind));
      CountKeptTransitive(g, v, w, Closed(g, v', chain, n, hint), 0, 0);
    }
  }

  lemma FreedCount(g: Geometry, v: Volume, w: Volume, k: nat)
    requires InfoFits(g, v) && InfoFits(g, w) && g.fsInfoSector != 0 && |v.fats| > 0 && |w.fats| > 0
    requires |w.fats[0]| == |v.fats[0]| && Free(w.fats[0]) == Free(v.fats[0]) + k && k > 0
    requires FreeCount(g, w) == NewCount(FreeCount(g, v), k)
    ensures CountKept(g, v, w, 0)
  {
    assert Free(w.fats[0]) <= |w.fats[0]|;
    hide Free, FreeCount, InfoFits, NewCount;
    CountGrown(FreeCount(g, v), k);
  }

  lemma CountGrown(count: nat, k: nat)
    requires 0 < k && count < TWO32
    ensures count == UNKNOWN ==> NewCount(count, k) == UNKNOWN
    ensures count != UNKNOWN ==> NewCount(count, k) == (count + k) % TWO32
    ensures count != UNKNOWN && count + k < TWO32 ==> NewCount(count, k) == count + k
    ensures count != UNKNOWN && count + k >= TWO32 && k < TWO32 ==> NewCount(count, k) == count + k - TWO32
  {
    if count + k < TWO32 {
      Truncated(0, count + k);
    } else if k < TWO32 {
      Truncated(1, count + k - TWO32);
    }
  }

  lemma Truncated(q: nat, r: nat)
    requires r < TWO32
    ensures (TWO32 * q + r) % TWO32 == r
  {
  }

  /** A known count grows by the number of freed clusters exactly when the sum fits into its 32 bits. */
  lemma FreedIsExact(g: Geometry, v: Volume, w: Volume, k: nat)
    requires InfoFits(g, v) && InfoFits(g, w) && g.fsInfoSector != 0 && |v.fats| > 0 && |w.fats| > 0
    requires Free(w.fats[0]) == Free(v.fats[0]) + k && 0 < k < TWO32 && Known(g, v)
    requires FreeCount(g, w) == NewCount(FreeCount(g, v), k)
    ensures Difference(g, w) == Difference(g, v) <==> FreeCount(g, v) + k < TWO32
    ensures Known(g, w) <==> FreeCount(g, v) + k != UNKNOWN
  {
    hide Free, FreeCount, InfoFits, NewCount;
    CountGrown(FreeCount(g, v), k);
  }

  /** Cutting a chain keeps the difference, and the count known, exactly when the grown count does not overflow. */
  lemma CutIsExact(g: Geometry, v: Volume, v': Volume, chain: seq<nat>, n: nat, hint: nat)
    requires |v.fats| > 0 && InfoFits(g, v) && n < |chain| < TWO32 && Distinct(chain) && InfoFits(g, v')
    requires forall j | 0 <= j < |chain| :: chain[j] < |v.fats[0]| && chain[j] < |v.data| && v.fats[0][chain[j]] != 0
    requires Freed(g, v, v', chain, n) && g.fsInfoSector != 0 && Known(g, v)
    requires forall m, j | 0 <= m < |v'.fats| && 0 <= j < |chain| :: chain[j] < |v'.fats[m]|
    ensures var w := Closed(g, v', chain, n, hint);
      && InfoFits(g, w) && |w.fats| > 0
      && (Difference(g, w) == Difference(g, v) <==> FreeCount(g, v) + |chain| - n < TWO32)
      && (Known(g, w) <==> FreeCount(g, v) + |chain| - n != UNKNOWN)
  {
    hide *;
    var u := WithInfo(g, v', |chain| - n, hint);
    FreedKeepsInfo(g, v, v', chain, n);
    CountAfter(g, v', |chain| - n, hint);
    FreedIsExact(g, v, u, |chain| - n);
    if n > 0 {
      LastStays(g, v, v', chain, n);
    }
    ClosedKeepsCount(g, v', chain, n, hint);
  }

  lemma FreedKeepsInfo(g: Geometry, v: Volume, v': Volume, chain: seq<nat>, n: nat)
    requires |v.fats| > 0 && InfoFits(g, v) && InfoFits(g, v') && n <= |chain| && g.fsInfoSector != 0
    requires forall j | 0 <= j < |chain| :: chain[j] < |v.fats[0]| && chain[j] < |v.data|
    requires Freed(g, v, v', chain, n)
    ensures FreeCount(g, v') == FreeCount(g, v) && |v'.fats| > 0
    ensures Free(v'.fats[0]) == Free(v.fats[0]) + |chain| - n
  {
    hide Free;
  }

  /** The last cluster that is kept is still in use. */
  lemma LastStays(g: Geometry, v: Volume, v': Volume, chain: seq<nat>, n: nat)
    requires |v.fats| > 0 && 0 < n < |chain| && Distinct(chain)
    requires forall j | 0 <= j < |chain| :: chain[j] < |v.fats[0]| && chain[j] < |v.data| && v.fats[0][chain[j]] != 0
    requires Freed(g, v, v', chain, n)
    ensures |v'.fats| > 0 && chain[n - 1] < |v'.fats[0]| && v'.fats[0][chain[n - 1]] != 0
  {
    assert chain[n - 1] !in chain[n..];
    hide Free;
  }

  /** Writing the new end mark changes neither the recorded count nor the number of free entries. */
  lemma ClosedKeepsCount(g: Geometry, v: Volume, chain: seq<nat>, n: nat, hint: nat)
    requires InfoFits(g, v) && n <= |chain| && |v.fats| > 0 && g.fsInfoSector != 0
    requires forall m, j | 0 <= m < |v.fats| && 0 <= j < |chain| :: chain[j] < |v.fats[m]|
    requires n > 0 ==> v.fats[0][chain[n - 1]] != 0
    ensures var u, w := WithInfo(g, v, |chain| - n, hint), Closed(g, v, chain, n, hint);
      && InfoFits(g, w) && |w.fats| > 0 && u.fats == v.fats
      && (Difference(g, w) == FreeCount(g, u) - Free(v.fats[0]) == Difference(g, u))
      && (Known(g, w) <==> Known(g, u))
  {
    var u, w := WithInfo(g, v, |chain| - n, hint), Closed(g, v, chain, n, hint);
    assert InfoOf(g, w) == InfoOf(g, u);
    if n > 0 {
      assert w.fats[0] == u.fats[0][chain[n - 1] := EofMark(g.kind)];
      FreeUpdate(u.fats[0], chain[n - 1], EofMark(g.kind));
    }
    hide WithInfo, InfoOf, Free;
  }

  /** What the loop that frees clusters needs to know about the chain. */
  lemma FreeingFrom(g: Geometry, len: nat, v: Volume, l: Layout, i: int)
    requires Sane(g, len) && |v.data| == ClusterLimit(g, len) && Sound(g, v, l) && InfoFits(g, v) && i in l.chains
    ensures |v.fats| > 0 && g.bytesPerSector > 0 && Distinct(l.chains[i]) && |v.fats[0]| == Entries(g) && i in l.firsts
    ensures forall j | 0 <= j < |l.chains[i]| ::
      && 2 <= l.chains[i][j] < |v.fats[0]| && l.chains[i][j] < |v.data| && v.fats[0][l.chains[i][j]] != 0
      && (g.kind.FAT16? ==> l.chains[i][j] < TWO16)
    ensures Freed(g, v, v, l.chains[i], |l.chains[i]|)
  {
    ChainInTable(g, v, l, i);
    SoundInside(g, v, l, i);
    var chain := l.chains[i];
    assert Distinct(chain) by {
      assert Chain(g.kind, v.fats[0], l.firsts[i], chain);
    }
    assert forall m | 0 <= m < |v.fats| :: v.fats[m] == v.fats[0];
    hide Sound, Zeroes, Free, Freed, InfoFits, Chain, Sane, IsEof;
    forall j | 0 <= j < |chain|
      ensures 2 <= chain[j] < |v.fats[0]| && chain[j] < |v.data| && v.fats[0][chain[j]] != 0
      ensures g.kind.FAT16? ==> chain[j] < TWO16
    {
      assert chain[j] in chain;
      EofBound(g.kind, chain[j]);
    }
    FreedSelf(g, v, chain);
  }

  lemma EofBound(kind: FatKind, c: nat)
    requires !IsEof(kind, c)
    ensures kind.FAT16? ==> c < TWO16
  {
  }

  lemma FreedSizes(g: Geometry, v: Volume, v': Volume, chain: seq<nat>, k: nat)
    requires |v.fats| > 0 && k <= |chain|
    requires forall j | 0 <= j < |chain| :: chain[j] < |v.fats[0]| && chain[j] < |v.data|
    requires Freed(g, v, v', chain, k)
    ensures |v'.data| == |v.data|
  {
  }

  lemma FreedSelf(g: Geometry, v: Volume, chain: seq<nat>)
    requires |v.fats| > 0 && forall m | 0 <= m < |v.fats| :: v.fats[m] == v.fats[0]
    requires forall j | 0 <= j < |chain| :: chain[j] < |v.fats[0]| && chain[j] < |v.data|
    ensures Freed(g, v, v, chain, |chain|)
  {
  }

  /** The clusters of the file in slot `i` from position `k` on have been freed. */
  ghost predicate Freeing(g: Geometry, len: nat, v: Volume, l: Layout, i: int, v': Volume, k: nat) {
    && Sane(g, len) && |v.data| == ClusterLimit(g, len) && Sound(g, v, l) && InfoFits(g, v)
    && i in l.chains && k <= |l.chains[i]| && |v.fats| > 0
    && (forall j | 0 <= j < |l.chains[i]| :: l.chains[i][j] < |v.fats[0]| && l.chains[i][j] < |v.data|)
    && Freed(g, v, v', l.chains[i], k)
  }

  lemma FreeingNext(g: Geometry, len: nat, v: Volume, l: Layout, i: int, v': Volume, k: nat)
    requires Freeing(g, len, v, l, i, v', k + 1)
    ensures i in l.chains && k < |l.chains[i]| && g.bytesPerSector > 0
    ensures var c := l.chains[i][k];
      && 2 <= c < |v'.data| && c < Entries(g) && (g.kind.FAT16? ==> c < TWO16)
      && (forall n | 0 <= n < |v'.fats| :: c < |v'.fats[n]|)
      && Freeing(g, len, v, l, i, WithEntry(WithCluster(v', c, Zeroes(g.bytesPerCluster)), c, 0), k)
    ensures Mask(g.kind, 0) == 0
  {
    var chain := l.chains[i];
    FreeingFrom(g, len, v, l, i);
    FreedSizes(g, v, v', chain, k + 1);
    hide Sound, InfoFits, Shaped, Zeroes, Freed, WithEntry, WithCluster, Entries, Sane;
    FreedStep(g, v, v', chain, k);
  }

  lemma CuttingIs(g: Geometry, len: nat, v: Volume, l: Layout, i: int, v': Volume, n: nat)
    requires Sane(g, len) && |v.data| == ClusterLimit(g, len) && Sound(g, v, l) && InfoFits(g, v) && i in l.chains
    requires n < |l.chains[i]| && Shaped(g, v') && InfoFits(g, v')
    requires |v.fats| > 0
    requires forall j | 0 <= j < |l.chains[i]| :: l.chains[i][j] < |v.fats[0]| && l.chains[i][j] < |v.data|
    requires Freed(g, v, v', l.chains[i], n)
    ensures Cutting(g, len, v, l, i, v', n)
  {
    FreeingFrom(g, len, v, l, i);
    forall m, j | 0 <= m < |v'.fats| && 0 <= j < |l.chains[i]| ensures l.chains[i][j] < |v'.fats[m]| {
      assert v'.fats[m] == v'.fats[0];
    }
    hide Sound, Zeroes, Free, Shaped, Sane;
  }

  /** Without an end mark the kept clusters are no chain: the last one still links to a freed cluster. */
  lemma NotCut(g: Geometry, len: nat, v: Volume, l: Layout, i: int, v': Volume, n: nat, w: Volume)
    requires Cutting(g, len, v, l, i, v', n) && n > 0 && |w.fats| > 0
    requires l.chains[i][n - 1] < |w.fats[0]| && w.fats[0][l.chains[i][n - 1]] == v'.fats[0][l.chains[i][n - 1]]
    ensures !Chain(g.kind, w.fats[0], l.firsts[i], l.chains[i][..n])
  {
    var chain := l.chains[i];
    ChainInTable(g, v, l, i);
    assert v'.fats[0][chain[n - 1]] == v.fats[0][chain[n - 1]] by {
      assert chain[n - 1] !in chain[n..];
      hide Free, Sound, Zeroes, Shaped, Sane;
    }
    assert chain[n] == v.fats[0][chain[n - 1]];
    assert chain[..n][n - 1] == chain[n - 1];
    hide Cutting, IsEof, InTable;
  }

  /** What closing the chain needs to know. */
  lemma ClosingFrom(g: Geometry, len: nat, v: Volume, l: Layout, i: int, v': Volume, n: nat)
    requires Cutting(g, len, v, l, i, v', n)
    ensures |v'.fats| > 0 && g.bytesPerSector > 0 && InfoFits(g, v') && n < |l.chains[i]|
    ensures forall m, j | 0 <= m < |v'.fats| && 0 <= j < |l.chains[i]| :: l.chains[i][j] < |v'.fats[m]|
    ensures n > 0 ==>
      && 2 <= l.chains[i][n - 1] < Entries(g) && l.chains[i][n - 1] < |v'.data|
      && (g.kind.FAT16? ==> l.chains[i][n - 1] < TWO16)
    ensures InfoUsable(g, v) ==> InfoUsable(g, v')
  {
    FreeingFrom(g, len, v, l, i);
    assert v'.head == v.head && |v'.data| == |v.data| && |v'.fats[0]| == |v.fats[0]|;
    hide Freed, Sound, Shaped, Sane;
  }

  /** `w` is `v` with the chain closed; on FAT12 with a cluster kept, only the link of that cluster is known. */
  ghost predicate Ended(g: Geometry, v: Volume, chain: seq<nat>, n: nat, hint: nat, w: Volume)
    requires n < |chain|
  {
    if g.kind.FAT12? && n > 0 then
      && |w.fats| > 0 && |v.fats| > 0 && chain[n - 1] < |w.fats[0]| && chain[n - 1] < |v.fats[0]|
      && w.fats[0][chain[n - 1]] == v.fats[0][chain[n - 1]]
    else
      && InfoFits(g, v) && (forall m, j | 0 <= m < |v.fats| && 0 <= j < |chain| :: chain[j] < |v.fats[m]|)
      && w == Closed(g, v, chain, n, hint)
  }

  lemma EndedIs(g: Geometry, v: Volume, chain: seq<nat>, n: nat, hint: nat, w: Volume)
    requires InfoFits(g, v) && n < |chain| && |v.fats| > 0 && |w.fats| > 0
    requires forall m, j | 0 <= m < |v.fats| && 0 <= j < |chain| :: chain[j] < |v.fats[m]|
    requires n == 0 ==> w == WithInfo(g, v, |chain| - n, hint)
    requires n > 0 && !g.kind.FAT12?
             ==> w == WithEntry(WithInfo(g, v, |chain| - n, hint), chain[n - 1], EofMark(g.kind))
    requires n > 0 && g.kind.FAT12? ==>
      && chain[n - 1] < |w.fats[0]|
      && w.fats[0][chain[n - 1]] == WithInfo(g, v, |chain| - n, hint).fats[0][chain[n - 1]]
    ensures Ended(g, v, chain, n, hint, w)
  {
  }

  // ----- filling -----

  /** Where the `k`-th cluster of a file starts in its contents. */
  function Start(g: Geometry, k: nat): nat {
    k * g.bytesPerCluster
  }

  lemma StartStep(g: Geometry, k: nat)
    ensures Start(g, 0) == 0 && Start(g, k + 1) == Start(g, k) + g.bytesPerCluster
  {
    MulStep(k, g.bytesPerCluster);
  }

  lemma StartUpTo(g: Geometry, k: nat, n: nat)
    requires k <= n
    ensures Start(g, k) <= Start(g, n)
  {
    MulLe(k, n, g.bytesPerCluster);
  }

  /** The bytes of the clusters of a file: its contents, filled up with zeroes. */
  function Stored(g: Geometry, contents: seq<byte>): (r: seq<byte>)
    requires g.bytesPerCluster > 0
    ensures |r| == Start(g, ClustersNeeded(g, |contents|)) && contents <= r
  {
    NeededBounds(g, |contents|);
    contents + Zeroes(Start(g, ClustersNeeded(g, |contents|)) - |contents|)
  }

  ghost function Piece(g: Geometry, s: seq<byte>, k: nat): (r: seq<byte>)
    requires Start(g, k) + g.bytesPerCluster <= |s|
    ensures |r| == g.bytesPerCluster
  {
    s[Start(g, k)..Start(g, k) + g.bytesPerCluster]
  }

  lemma PieceInside(g: Geometry, s: seq<byte>, n: nat, k: nat)
    requires |s| == Start(g, n) && k < n
    ensures Start(g, k) + g.bytesPerCluster <= |s|
  {
    StartStep(g, k);
    StartUpTo(g, k + 1, n);
  }

  /** The first `k` clusters of the chain hold the first bytes of `s`, and nothing else changed. */
  ghost predicate Filled(g: Geometry, v: Volume, v': Volume, chain: seq<nat>, s: seq<byte>, k: nat)
    requires k <= |chain| && |s| == Start(g, |chain|)
  {
    && v'.head == v.head && v'.fats == v.fats && v'.root == v.root && |v'.data| == |v.data|
    && (forall j | 0 <= j < k ::
          chain[j] < |v.data| && (PieceInside(g, s, |chain|, j); v'.data[chain[j]] == Piece(g, s, j)))
    && (forall c | 0 <= c < |v.data| && c !in chain[..k] :: v'.data[c] == v.data[c])
  }

  lemma FilledStep(g: Geometry, v: Volume, v': Volume, chain: seq<nat>, s: seq<byte>, k: nat)
    requires k < |chain| && |s| == Start(g, |chain|) && Distinct(chain)
    requires Filled(g, v, v', chain, s, k) && chain[k] < |v.data|
    ensures Start(g, k) + g.bytesPerCluster <= |s|
    ensures Filled(g, v, WithCluster(v', chain[k], Piece(g, s, k)), chain, s, k + 1)
  {
    PieceInside(g, s, |chain|, k);
    assert chain[..k + 1] == chain[..k] + [chain[k]];
    hide Piece, Start;
  }

  lemma {:induction false} FilledGather(g: Geometry, v: Volume, v': Volume, chain: seq<nat>, s: seq<byte>, k: nat)
    requires k <= |chain| && |s| == Start(g, |chain|)
    requires Filled(g, v, v', chain, s, |chain|)
    ensures Start(g, k) <= |s| && Gather(v'.data, chain[..k]) == s[..Start(g, k)]
  {
    StartUpTo(g, k, |chain|);
    if k == 0 {
      StartStep(g, 0);
    } else {
      FilledGather(g, v, v', chain, s, k - 1);
      GatherTake(v'.data, chain, k - 1);
      PieceInside(g, s, |chain|, k - 1);
      PieceJoins(g, s, k - 1);
      hide *;
    }
  }

  lemma PieceJoins(g: Geometry, s: seq<byte>, k: nat)
    requires Start(g, k + 1) <= |s|
    ensures Start(g, k) + g.bytesPerCluster <= |s|
    ensures s[..Start(g, k)] + Piece(g, s, k) == s[..Start(g, k + 1)]
  {
    StartStep(g, k);
    hide Start;
  }

  lemma FilledReworked(g: Geometry, v: Volume, v': Volume, chain: seq<nat>, s: seq<byte>)
    requires |s| == Start(g, |chain|) && InfoFits(g, v) && |v.fats| > 0
    requires Filled(g, v, v', chain, s, |chain|)
    ensures Reworked(g, v, chain, v', chain)
  {
    assert chain[..|chain|] == chain;
    hide Piece;
  }

  /** The clusters of `list` are being filled with `contents`: the first `k` are done. */
  ghost predicate Filling(g: Geometry, len: nat, v: Volume, list: seq<nat>, contents: seq<byte>, v': Volume, k: nat) {
    && Sane(g, len) && |v.data| == ClusterLimit(g, len) && |list| == ClustersNeeded(g, |contents|)
    && Distinct(list) && Seekable(g, |v.data|, list) && k <= |list|
    && Filled(g, v, v', list, Stored(g, contents), k)
  }

  lemma FillingSelf(g: Geometry, len: nat, v: Volume, l: Layout, i: int, contents: seq<byte>)
    requires Sane(g, len) && |v.data| == ClusterLimit(g, len) && TablesSound(g, v, l) && i in l.chains
    requires |l.chains[i]| == ClustersNeeded(g, |contents|) && Seekable(g, |v.data|, l.chains[i])
    ensures Filling(g, len, v, l.chains[i], contents, v, 0)
  {
    ChainInTable(g, v, l, i);
    assert Chain(g.kind, v.fats[0], l.firsts[i], l.chains[i]);
    hide TablesSound, Sane, Stored, ClustersNeeded;
  }

  lemma FillingLength(g: Geometry, len: nat, v: Volume, list: seq<nat>, contents: seq<byte>, v': Volume, k: nat)
    requires Filling(g, len, v, list, contents, v', k)
    ensures |list| == ClustersNeeded(g, |contents|) && Sane(g, len) && len < TWO32
  {
  }

  /** The start of the `k`-th cluster compared with the end of the contents. */
  lemma FillingBounds(g: Geometry, contents: seq<byte>, k: nat)
    requires g.bytesPerCluster > 0
    ensures var m, n := g.bytesPerCluster, ClustersNeeded(g, |contents|);
      && Start(g, 0) == 0 && Start(g, k + 1) == Start(g, k) + m
      && (k < n <==> Start(g, k) < |contents|)
      && (k + 1 == n ==> (|contents| % m == 0 <==> Start(g, k + 1) == |contents|))
      && (k + 1 == n && |contents| % m != 0 ==> |contents| - Start(g, k) == |contents| % m)
      && (n == 0 <==> contents == [])
  {
    var m, n := g.bytesPerCluster, ClustersNeeded(g, |contents|);
    NeededBounds(g, |contents|);
    MulStep(k, m);
    if k < n {
      MulLe(k, n - 1, m);
    } else {
      MulLe(n, k, m);
    }
    if k + 1 == n {
      if |contents| == (k + 1) * m {
        MultipleMod(k + 1, m);
      } else {
        RemainderIs(k, |contents| - k * m, m);
        assert |contents| == k * m + (|contents| - k * m);
      }
    }
    hide ClustersNeeded;
  }

  /** The seek to a cluster of the chain goes where the cluster is. */
  lemma FillingSeek(g: Geometry, len: nat, v: Volume, list: seq<nat>, contents: seq<byte>, v': Volume, k: nat)
    requires Filling(g, len, v, list, contents, v', k) && k < |list|
    ensures 2 <= list[k]
    ensures SeekTarget(g, list[k]) == ClusterPos(g, list[k]) >= 0
    ensures list[k] < |v.data| ==> ClusterPos(g, list[k]) + g.bytesPerCluster <= len
  {
    var c := list[k];
    if c < |v.data| {
      InsideAddressable(g, len, c);
    } else {
      assert Addressable(g, c);
      AddressableFits(g, c);
      MulLe(0, c - 2, g.bytesPerCluster);
    }
    hide Filled, Stored, ClustersNeeded, Sane, Addressable;
  }

  /** Writing a piece of the stored bytes into the next cluster. */
  lemma FillingWritten(g: Geometry, s: seq<byte>, v: Volume, list: seq<nat>, contents: seq<byte>, k: nat, d: seq<byte>)
    requires Sane(g, |s|) && Filling(g, |s|, v, list, contents, Abs(g, s), k) && k < |list|
    requires 0 <= ClusterPos(g, list[k]) && ClusterPos(g, list[k]) + g.bytesPerCluster <= |s|
    requires Start(g, k) + g.bytesPerCluster <= |Stored(g, contents)| && d == Piece(g, Stored(g, contents), k)
    ensures Filling(g, |s|, v, list, contents, Abs(g, Splice(s, ClusterPos(g, list[k]), d)), k + 1)
    ensures list[k] < |v.data|
  {
    hide *;
    var c := list[k];
    FillingParts(g, |s|, v, list, contents, Abs(g, s), k);
    FitsInside(g, |s|, c);
    DataWritten(g, s, c, 0, d);
    FilledStep(g, v, Abs(g, s), list, Stored(g, contents), k);
    SpliceAll(Abs(g, s).data[c], d);
    FillingIs(g, |s|, v, list, contents, WithCluster(Abs(g, s), c, d), k + 1);
    WithClusterIs(Abs(g, s), c, d);
  }

  lemma SpliceAll(s: seq<byte>, d: seq<byte>)
    requires |s| == |d|
    ensures Splice(s, 0, d) == d
  {
  }

  lemma WithClusterIs(v: Volume, c: nat, d: seq<byte>)
    requires c < |v.data|
    ensures WithCluster(v, c, d) == v.(data := v.data[c := d])
  {
  }

  lemma FillingParts(g: Geometry, len: nat, v: Volume, list: seq<nat>, contents: seq<byte>, v': Volume, k: nat)
    requires Filling(g, len, v, list, contents, v', k)
    ensures Sane(g, len) && |v.data| == ClusterLimit(g, len) && |v'.data| == |v.data| && g.bytesPerCluster > 0
    ensures |list| == ClustersNeeded(g, |contents|) && Distinct(list) && Seekable(g, |v.data|, list) && k <= |list|
    ensures |Stored(g, contents)| == Start(g, |list|) && Filled(g, v, v', list, Stored(g, contents), k)
    ensures forall j | 0 <= j < |list| :: 2 <= list[j]
  {
  }

  lemma FillingIs(g: Geometry, len: nat, v: Volume, list: seq<nat>, contents: seq<byte>, v': Volume, k: nat)
    requires Sane(g, len) && |v.data| == ClusterLimit(g, len) && g.bytesPerCluster > 0
    requires |list| == ClustersNeeded(g, |contents|) && Distinct(list) && Seekable(g, |v.data|, list) && k <= |list|
    requires Filled(g, v, v', list, Stored(g, contents), k)
    ensures Filling(g, len, v, list, contents, v', k)
  {
  }

  lemma SpliceTwice(s: seq<byte>, off: nat, a: seq<byte>, b: seq<byte>)
    requires off + |a| + |b| <= |s|
    ensures Splice(Splice(s, off, a), off + |a|, b) == Splice(s, off, a + b)
  {
  }

  lemma StoredPiece(g: Geometry, contents: seq<byte>, k: nat)
    requires g.bytesPerCluster > 0 && k < ClustersNeeded(g, |contents|)
    ensures Start(g, k) + g.bytesPerCluster <= |Stored(g, contents)|
    ensures Start(g, k) <= |contents|
    ensures var m, at := g.bytesPerCluster, Start(g, k);
      && (at + m <= |contents| ==> contents[at..at + m] == Piece(g, Stored(g, contents), k))
      && (at + m > |contents| ==> contents[at..] + Zeroes(at + m - |contents|) == Piece(g, Stored(g, contents), k))
  {
    FillingBounds(g, contents, k);
    PieceInside(g, Stored(g, contents), ClustersNeeded(g, |contents|), k);
    hide Start, ClustersNeeded;
  }

  /** A piece that fills the whole cluster was written. */
  lemma FillingWhole(g: Geometry, s: seq<byte>, v: Volume, list: seq<nat>, contents: seq<byte>, k: nat)
    requires Sane(g, |s|) && Filling(g, |s|, v, list, contents, Abs(g, s), k) && k < |list| && g.bytesPerCluster > 0
    requires Start(g, k) + g.bytesPerCluster <= |contents|
    requires 0 <= ClusterPos(g, list[k]) && ClusterPos(g, list[k]) + g.bytesPerCluster <= |s|
    ensures var t := Splice(s, ClusterPos(g, list[k]), contents[Start(g, k)..Start(g, k) + g.bytesPerCluster]);
            Filling(g, |s|, v, list, contents, Abs(g, t), k + 1) && list[k] < |v.data|
  {
    hide *;
    FillingLength(g, |s|, v, list, contents, Abs(g, s), k);
    StoredPiece(g, contents, k);
    FillingWritten(g, s, v, list, contents, k, Piece(g, Stored(g, contents), k));
  }

  /** The last piece was written, and then the rest of its cluster was filled with zeroes. */
  lemma FillingTip(g: Geometry, s: seq<byte>, s1: seq<byte>, s2: seq<byte>, v: Volume, list: seq<nat>,
                   contents: seq<byte>,
                   k: nat)
    requires Sane(g, |s|) && Filling(g, |s|, v, list, contents, Abs(g, s), k) && k < |list| && g.bytesPerCluster > 0
    requires Start(g, k) <= |contents| < Start(g, k) + g.bytesPerCluster
    requires 0 <= ClusterPos(g, list[k]) && ClusterPos(g, list[k]) + g.bytesPerCluster <= |s|
    requires s1 == Splice(s, ClusterPos(g, list[k]), contents[Start(g, k)..])
    requires s2 == Splice(s1, ClusterPos(g, list[k]) + |contents| - Start(g, k),
                          Zeroes(Start(g, k) + g.bytesPerCluster - |contents|))
    ensures |s2| == |s| && Filling(g, |s|, v, list, contents, Abs(g, s2), k + 1) && list[k] < |v.data|
  {
    hide *;
    FillingLength(g, |s|, v, list, contents, Abs(g, s), k);
    StoredPiece(g, contents, k);
    var a, z := contents[Start(g, k)..], Zeroes(Start(g, k) + g.bytesPerCluster - |contents|);
    SpliceTwice(s, ClusterPos(g, list[k]), a, z);
    FillingWritten(g, s, v, list, contents, k, Piece(g, Stored(g, contents), k));
  }

  /** A file whose clusters lie in the partition has fewer bytes than the partition. */
  lemma ChainFits(g: Geometry, len: nat, chain: seq<nat>)
    requires Sane(g, len) && Distinct(chain) && forall k | 0 <= k < |chain| :: 2 <= chain[k] < ClusterLimit(g, len)
    ensures Start(g, |chain|) <= len
  {
    hide *;
    var room := DataRoom(g, len);
    var m := g.bytesPerCluster;
    DivMulLe(room, m);
    ShiftedPigeonhole(chain, room / m);
    StartUpTo(g, |chain|, room / m);
    StartIs(g, room / m);
  }

  lemma DataRoom(g: Geometry, len: nat) returns (room: nat)
    requires Sane(g, len)
    ensures g.bytesPerCluster > 0 && ClusterLimit(g, len) == room / g.bytesPerCluster + 2 && room <= len
  {
    room := len - g.clusterOffset;
  }

  lemma StartIs(g: Geometry, k: nat)
    ensures Start(g, k) == k * g.bytesPerCluster
  {
  }

  lemma ShiftedPigeonhole(chain: seq<nat>, bound: nat)
    requires Distinct(chain) && forall k | 0 <= k < |chain| :: 2 <= chain[k] < bound + 2
    ensures |chain| <= bound
  {
    Pigeonhole(seq(|chain|, k requires 0 <= k < |chain| => chain[k] - 2), bound);
  }

  // ----- the new entry -----

  /** The first cluster recorded for a file: an end mark when it has none. */
  function FirstRecorded(kind: FatKind, chain: seq<nat>): nat {
    if chain != [] then chain[0] else if kind.FAT16? then 0xFFFF else 0xFFF_FFFF
  }

  /** The entry with a new first cluster, size and dates. */
  function WithContents(e: Entry, first: nat, size: nat, date: nat, time: nat): (r: Entry)
    ensures r[..12] == e[..12]
  {
    var r := e[..18] + Put16(date) + Put16(first / TWO16) + Put16(time) + Put16(date) + Put16(first % TWO16)
             + Put32(size);
    assert r[..18] == e[..18];
    assert r[..18][..12] == r[..12] && e[..18][..12] == e[..12];
    r
  }

  lemma RecordedFields(kind: FatKind, e: Entry, first: nat, size: nat, date: nat, time: nat)
    requires first < TWO32 && size < TWO32
    ensures var r := WithContents(e, first, size, date, time);
            First(kind, r) == (if kind.FAT32? then first else first % TWO16) && FileSize(r) == size
  {
    var r, hi, lo := WithContents(e, first, size, date, time), first / TWO16, first % TWO16;
    hide *;
    ContentsFields(e, first, size, date, time);
    FieldAt(kind, r);
    FieldRoundTrip(hi);
    FieldRoundTrip(lo);
    FieldRoundTrip(size);
    Halves(first);
    SmallMod(size);
  }

  lemma Halves(v: nat)
    requires v < TWO32
    ensures v / TWO16 % TWO16 == v / TWO16 && v % TWO16 % TWO16 == v % TWO16
    ensures v % TWO16 + TWO16 * (v / TWO16) == v
  {
  }

  lemma SmallMod(v: nat)
    requires v < TWO32
    ensures v % TWO32 == v
  {
  }

  lemma ContentsFields(e: Entry, first: nat, size: nat, date: nat, time: nat)
    ensures var r := WithContents(e, first, size, date, time);
      r[20..22] == Put16(first / TWO16) && r[26..28] == Put16(first % TWO16) && r[28..32] == Put32(size)
  {
    hide Put16, Put32;
  }

  lemma FieldAt(kind: FatKind, r: Entry)
    ensures First(kind, r) == Le16(r[26..28], 0) + if kind.FAT32? then TWO16 * Le16(r[20..22], 0) else 0
    ensures FileSize(r) == Le32(r[28..32], 0)
  {
  }

  // ----- the whole write -----

  /** The directory is outside the reworked chain. */
  lemma ReworkedSteady(g: Geometry, v: Volume, l: Layout, i: int, first: nat, chain: seq<nat>, v': Volume)
    requires Steady(g, v, l) && i in l.chains && Reworked(g, v, l.chains[i], v', chain)
    requires TablesSound(g, v', WithChain(l, i, first, chain))
    requires forall k | 0 <= k < |chain| :: chain[k] < |v.data|
    ensures Steady(g, v', WithChain(l, i, first, chain))
  {
    var l' := WithChain(l, i, first, chain);
    assert Inside(AllChains(l'), |v'.data|) by {
      var all := AllChains(l);
      WithChainAll(g, l, i, first, chain);
      assert Inside(all, |v.data|);
      hide AllChains, Sound, TablesSound, Listed, Reworked, WithChain, Keyed;
    }
    RootInTable(g, v, l);
    RootInTable(g, v', l');
    RootUntouched(g, v, l, i);
    assert Listed(g, v, l);
    hide Sound, TablesSound, CountKept, SlotsPerCluster, RootInside, Inside, AllChains;
    forall j | 0 <= j < SlotCount(g, v, l.root) ensures SlotAt(g, v', l.root, j) == SlotAt(g, v, l.root, j) {
      SlotSame(g, v, v', l.root, j);
    }
  }

  lemma RootUntouched(g: Geometry, v: Volume, l: Layout, i: int)
    requires Sound(g, v, l) && i in l.chains
    ensures forall k | 0 <= k < |l.root| :: l.root[k] !in l.chains[i]
  {
    var all := AllChains(l);
    assert ROOT in all && all[ROOT] == l.root && i in all && all[i] == l.chains[i] && i != ROOT;
    assert DisjointChains(all);
    forall k | 0 <= k < |l.root| ensures l.root[k] !in l.chains[i] {
      assert l.root[k] in all[ROOT];
    }
  }

  lemma SlotSame(g: Geometry, v: Volume, v': Volume, root: seq<nat>, j: nat)
    requires RootInside(g, v, root) && RootInside(g, v', root) && v'.root == v.root && |v'.data| == |v.data|
    requires forall k | 0 <= k < |root| :: v'.data[root[k]] == v.data[root[k]]
    requires j < SlotCount(g, v, root)
    ensures SlotAt(g, v', root, j) == SlotAt(g, v, root, j)
  {
    if g.kind.FAT32? {
      SlotPlace(g, root, j);
    }
  }

  /** The state between filling the clusters of the file in slot `i` and writing its entry. */
  ghost predicate Refilled(g: Geometry, v: Volume, l: Layout, i: nat, chain: seq<nat>, first: nat, v': Volume,
                           l': Layout,
                           contents: seq<byte>) {
    && WellFormed(g, v, l) && i in l.chains
    && l' == WithChain(l, i, first, chain) && Steady(g, v', l') && Reworked(g, v, l.chains[i], v', chain)
    && |chain| == ClustersNeeded(g, |contents|) && Gather(v'.data, chain) == Stored(g, contents)
  }

  /** Writing the entry completes the file: the volume is well formed again. */
  lemma RewrittenWellFormed(g: Geometry, v: Volume, l: Layout, i: nat, chain: seq<nat>, e: Entry, v1: Volume,
                            l1: Layout,
                            v2: Volume, l2: Layout, contents: seq<byte>)
    requires Refilled(g, v, l, i, chain, First(g.kind, e), v1, l1, contents)
    requires i < |l.entries| && e[..12] == l.entries[i][..12] && FileSize(e) == |contents|
    requires l2 == l1.(root := l2.root, entries := l1.entries[i := e]) && Steady(g, v2, l2)
    ensures WellFormed(g, v2, l2)
  {
    assert Keyed(l) && IsLive(l.entries[i]);
    UniqueUpdate(l.entries, i, e);
    hide Steady, Reworked, UniqueShort, ClustersNeeded, First, FileSize, Gather, Stored, IsDirectory, IsLive;
    forall k | k in l2.chains
      ensures l2.firsts[k] == First(g.kind, l2.entries[k])
      ensures || |l2.chains[k]| == ClustersNeeded(g, FileSize(l2.entries[k]))
              || (IsDirectory(l2.entries[k]) && FileSize(l2.entries[k]) == 0)
    {
      if k != i {
        assert k in l.chains && l2.entries[k] == l.entries[k];
      }
    }
    assert Keyed(l2) by {
      assert Steady(g, v2, l2);
      SteadyIsKeyed(g, v2, l2);
    }
  }

  lemma SteadyIsKeyed(g: Geometry, v: Volume, l: Layout)
    requires Steady(g, v, l)
    ensures Keyed(l) && Sound(g, v, l) && Shaped(g, v)
  {
  }

  /** Contents of files other than the rewritten one. */
  lemma OtherContents(g: Geometry, v: Volume, l: Layout, i: nat, chain: seq<nat>, first: nat, v1: Volume, l1: Layout,
                      v2: Volume, root: seq<nat>, contents: seq<byte>, k: nat)
    requires Refilled(g, v, l, i, chain, first, v1, l1, contents) && SpaceGrown(g, v1, l1.root, v2, root)
    requires k in l.chains
    ensures Gather(v2.data, l1.chains[k]) == if k == i then Stored(g, contents) else Gather(v.data, l.chains[k])
  {
    hide *;
    RefilledParts(g, v, l, i, chain, first, v1, l1, contents);
    GrownContents(g, v1, l1, v2, root, k);
    if k != i {
      ReworkedContents(g, v, l, i, v1, chain, k);
    }
  }

  lemma RefilledParts(g: Geometry, v: Volume, l: Layout, i: nat, chain: seq<nat>, first: nat, v1: Volume, l1: Layout,
                      contents: seq<byte>)
    requires Refilled(g, v, l, i, chain, first, v1, l1, contents)
    ensures i in l.chains && Sound(g, v, l) && Sound(g, v1, l1) && Reworked(g, v, l.chains[i], v1, chain)
    ensures l1.chains == l.chains[i := chain] && l1.root == l.root && Gather(v1.data, chain) == Stored(g, contents)
  {
    hide Sound, Reworked, Gather, Stored, Listed, Consistent;
  }

  lemma ReworkedContents(g: Geometry, v: Volume, l: Layout, i: int, v1: Volume, chain: seq<nat>, k: int)
    requires Sound(g, v, l) && i in l.chains && k in l.chains && k != i && Reworked(g, v, l.chains[i], v1, chain)
    ensures Gather(v1.data, l.chains[k]) == Gather(v.data, l.chains[k])
  {
    ChainInTable(g, v, l, k);
    ChainsApart(g, v, l, i, k);
    SoundInside(g, v, l, k);
    hide Sound, Gather, CountKept, IsEof, Chain;
    forall x | x in l.chains[k] ensures x < |v1.data| && v1.data[x] == v.data[x] {
    }
    GatherSame(v.data, v1.data, l.chains[k]);
  }

  lemma SoundInside(g: Geometry, v: Volume, l: Layout, k: int)
    requires Sound(g, v, l) && k in l.chains
    ensures forall x | x in l.chains[k] :: x < |v.data|
  {
    assert k in AllChains(l) && AllChains(l)[k] == l.chains[k];
  }

  lemma ChainsApart(g: Geometry, v: Volume, l: Layout, i: int, k: int)
    requires Sound(g, v, l) && i in l.chains && k in l.chains && k != i
    ensures forall x | x in l.chains[k] :: x !in l.chains[i]
  {
    var all := AllChains(l);
    assert i in all && all[i] == l.chains[i] && k in all && all[k] == l.chains[k];
    assert DisjointChains(all);
  }

  /** Names that fold to the same string find the same entry, and only they do. */
  lemma {:induction false} FindSame(cs: Charset, a: seq<Entry>, name: Name, other: Name)
    requires Find(cs, a, name) < |a|
    ensures Find(cs, a, other) == Find(cs, a, name) <==> cs.lower(other) == cs.lower(name)
  {
    var i, j := Find(cs, a, name), Find(cs, a, other);
    assert MatchesAt(cs, a, i, name);
    if cs.lower(other) == cs.lower(name) {
      forall k | 0 <= k < |a| ensures MatchesAt(cs, a, k, other) == MatchesAt(cs, a, k, name) {
        hide ScanAt, NameOf;
      }
      hide MatchesAt;
      FindIs(cs, a, other, i);
    }
  }

  /** Rewriting changes the contents of one file: what is read under its name, in any letter case. */
  lemma RewrittenMap(cs: Charset, g: Geometry, v: Volume, l: Layout, name: Name, chain: seq<nat>, e: Entry,
                     v1: Volume, l1: Layout, v2: Volume, l2: Layout, contents: seq<byte>, other: Name)
    requires Find(cs, l.entries, name) < |l.entries|
    requires Refilled(g, v, l, Find(cs, l.entries, name), chain, First(g.kind, e), v1, l1, contents)
    requires e[..12] == l.entries[Find(cs, l.entries, name)][..12] && FileSize(e) == |contents|
    requires l2 == l1.(root := l2.root, entries := l1.entries[Find(cs, l.entries, name) := e])
    requires Steady(g, v2, l2) && SpaceGrown(g, v1, l1.root, v2, l2.root)
    ensures Keyed(l) && Keyed(l2)
    ensures FileMap(cs, v2, l2, other)
            == if cs.lower(other) == cs.lower(name) then contents else FileMap(cs, v, l, other)
  {
    hide *;
    var i, j := Find(cs, l.entries, name), Find(cs, l.entries, other);
    SteadyIsKeyed(g, v2, l2);
    RefilledKeyed(g, v, l, i, chain, First(g.kind, e), v1, l1, contents);
    FindSame(cs, l.entries, name, other);
    FoundKey(cs, l, name);
    UpdateFind(cs, l.entries, i, e, other);
    FileMapIs(cs, v, l, other);
    FileMapIs(cs, v2, l2, other);
    if j < |l.entries| {
      FoundKey(cs, l, other);
      OtherContents(g, v, l, i, chain, First(g.kind, e), v1, l1, v2, l2.root, contents, j);
      StoredPrefix(g, contents);
    }
  }

  lemma RefilledKeyed(g: Geometry, v: Volume, l: Layout, i: nat, chain: seq<nat>, first: nat, v1: Volume, l1: Layout,
                      contents: seq<byte>)
    requires Refilled(g, v, l, i, chain, first, v1, l1, contents)
    ensures Keyed(l) && l1.entries == l.entries && l1.root == l.root && l1.chains.Keys == l.chains.Keys
    ensures g.bytesPerCluster > 0
  {
    hide SpaceGrown, Reworked, Gather;
  }

  lemma FoundKey(cs: Charset, l: Layout, name: Name)
    requires Keyed(l) && Find(cs, l.entries, name) < |l.entries|
    ensures Find(cs, l.entries, name) in l.chains && !IsFragment(l.entries[Find(cs, l.entries, name)])
  {
    assert MatchesAt(cs, l.entries, Find(cs, l.entries, name), name);
  }

  lemma FileMapIs(cs: Charset, v: Volume, l: Layout, name: Name)
    requires Keyed(l)
    ensures var i := Find(cs, l.entries, name);
      FileMap(cs, v, l, name) ==
        if i < |l.entries| && i in l.chains then Prefix(Gather(v.data, l.chains[i]), FileSize(l.entries[i])) else []
  {
    var i := Find(cs, l.entries, name);
    assert i < |l.entries| ==> MatchesAt(cs, l.entries, i, name);
  }

  lemma StoredPrefix(g: Geometry, contents: seq<byte>)
    requires g.bytesPerCluster > 0
    ensures Prefix(Stored(g, contents), |contents|) == contents
  {
  }

  /** A new file is empty, so that creating it changes no contents, and it is found. */
  lemma CreatedMap(cs: Charset, g: Geometry, v: Volume, l: Layout, v1: Volume, root: seq<nat>, name: Name,
                   short: seq<byte>,
                   date: nat, time: nat, other: Name)
    requires WellFormed(g, v, l) && Writable(name) && |short| == 11 && Pick(l.entries, name) == Some(short)
    requires Find(cs, l.entries, name) == |l.entries| && SpaceGrown(g, v, l.root, v1, root)
    ensures var l1 := WithNew(l, root, name, short, date, time);
            && Keyed(l) && Keyed(l1) && FileMap(cs, v1, l1, other) == FileMap(cs, v, l, other)
            && ChainLength(cs, l1, other) == ChainLength(cs, l, other)
            && (Find(cs, l.entries, other) < |l.entries| ==>
                  Find(cs, l1.entries, other) == Find(cs, l.entries, other))
            && (IsHidden(name) && Find(cs, l.entries, other) == |l.entries| ==>
                  Find(cs, l1.entries, other) == |l1.entries|)
            && Find(cs, l1.entries, name) == |l.entries| + FragmentCount(name) + if IsHidden(name) then 1 else 0
  {
    hide *;
    var l1 := WithNew(l, root, name, short, date, time);
    var i, j := |l.entries| + FragmentCount(name), Find(cs, l.entries, other);
    WellFormedParts(g, v, l);
    WritableParts(l.entries, name, short);
    NewKeyed(l, root, name, short, date, time);
    NewIs(l, root, name, short, date, time);
    CreateFind(cs, l.entries, name, short, date, time, other);
    CreateFind(cs, l.entries, name, short, date, time, name);
    FileMapIs(cs, v, l, other);
    FileMapIs(cs, v1, l1, other);
    LengthIs(cs, l, other);
    LengthIs(cs, l1, other);
    KeysBelow(l);
    if j < |l.entries| {
      FoundKey(cs, l, other);
      GrownContents(g, v, l, v1, root, j);
    }
  }

  lemma WellFormedParts(g: Geometry, v: Volume, l: Layout)
    requires WellFormed(g, v, l)
    ensures Steady(g, v, l) && Keyed(l) && Sound(g, v, l) && Shaped(g, v)
  {
  }

  lemma KeysBelow(l: Layout)
    requires Keyed(l)
    ensures forall k | k in l.chains :: 0 <= k < |l.entries|
  {
  }

  lemma WritableParts(a: seq<Entry>, name: Name, short: seq<byte>)
    requires Writable(name) && |short| == 11 && Pick(a, name) == Some(short)
    ensures name != [] && 0 !in name && FragmentCount(name) <= 256 && (short[0] == DELETED <==> IsHidden(name))
  {
    ShortIsLive(name);
  }

  lemma NewIs(l: Layout, root: seq<nat>, name: Name, short: seq<byte>, date: nat, time: nat)
    requires |short| == 11
    ensures var l1, i := WithNew(l, root, name, short, date, time), |l.entries| + FragmentCount(name);
      && l1.entries == l.entries + NewEntries(name, short, date, time) && |l1.entries| == i + 1
      && (forall k | 0 <= k < |l.entries| :: l1.entries[k] == l.entries[k])
      && l1.entries[i] == ShortEntry(short, date, time) && FileSize(l1.entries[i]) == 0
      && l1.chains == (if short[0] == DELETED then l.chains else l.chains[i := []])
      && (short[0] != DELETED ==>
            i in l1.chains && forall d :: Prefix(Gather(d, l1.chains[i]), FileSize(l1.entries[i])) == [])
  {
    hide NewEntries, FragmentCount, ShortEntry;
    assert FileSize(ShortEntry(short, date, time)) == 0;
  }

  lemma GrownContents(g: Geometry, v: Volume, l: Layout, v1: Volume, root: seq<nat>, j: int)
    requires Sound(g, v, l) && SpaceGrown(g, v, l.root, v1, root) && j in l.chains
    ensures Gather(v1.data, l.chains[j]) == Gather(v.data, l.chains[j])
  {
    hide Sound, SpaceGrown, Gather;
    DirGrownSameFiles(g, v, l, v1, l.(root := root)) by {
      assert DirGrown(g, v, l, v1, l.(root := root));
    }
    GatherSame(v.data, v1.data, l.chains[j]);
  }

  /** The number of clusters of the file found under `name`. */
  ghost function ChainLength(cs: Charset, l: Layout, name: Name): nat {
    var i := Find(cs, l.entries, name);
    if i in l.chains then |l.chains[i]| else 0
  }

  lemma RewrittenLength(cs: Charset, g: Geometry, v: Volume, l: Layout, name: Name, chain: seq<nat>, e: Entry,
                        v1: Volume, l1: Layout, root: seq<nat>, contents: seq<byte>, other: Name)
    requires Find(cs, l.entries, name) < |l.entries|
    requires Refilled(g, v, l, Find(cs, l.entries, name), chain, First(g.kind, e), v1, l1, contents)
    requires e[..12] == l.entries[Find(cs, l.entries, name)][..12]
    ensures g.bytesPerCluster > 0
    ensures ChainLength(cs, l1.(root := root, entries := l1.entries[Find(cs, l.entries, name) := e]), other)
            == if cs.lower(other) == cs.lower(name) then ClustersNeeded(g, |contents|) else ChainLength(cs, l, other)
  {
    hide *;
    var i := Find(cs, l.entries, name);
    RefilledKeyed(g, v, l, i, chain, First(g.kind, e), v1, l1, contents);
    RefilledParts(g, v, l, i, chain, First(g.kind, e), v1, l1, contents);
    FindSame(cs, l.entries, name, other);
    FoundKey(cs, l, name);
    UpdateFind(cs, l.entries, i, e, other);
    LengthIs(cs, l, other);
    LengthIs(cs, l1.(root := root, entries := l1.entries[i := e]), other);
    RefilledLength(g, v, l, i, chain, First(g.kind, e), v1, l1, contents);
  }

  lemma RefilledLength(g: Geometry, v: Volume, l: Layout, i: nat, chain: seq<nat>, first: nat, v1: Volume, l1: Layout,
                       contents: seq<byte>)
    requires Refilled(g, v, l, i, chain, first, v1, l1, contents)
    ensures g.bytesPerCluster > 0 && |chain| == ClustersNeeded(g, |contents|)
  {
    RefilledKeyed(g, v, l, i, chain, first, v1, l1, contents);
    hide WellFormed, Steady, Reworked, Gather, Stored, ClustersNeeded;
  }

  lemma LengthIs(cs: Charset, l: Layout, name: Name)
    ensures var i := Find(cs, l.entries, name); ChainLength(cs, l, name) == if i in l.chains then |l.chains[i]| else 0
  {
    hide Find;
  }

  /** The clusters a write to `name` may touch: those of the directory and of the file. */
  ghost function Touched(cs: Charset, l: Layout, name: Name): set<nat> {
    var i := Find(cs, l.entries, name);
    (set x | x in l.root) + if i in l.chains then set x | x in l.chains[i] else {}
  }

  /** How many clusters a write to `name` takes: those the directory grew by, and those its file had too few. */
  ghost function ClustersTaken(cs: Charset, g: Geometry, l: Layout, l': Layout, name: Name, contents: seq<byte>): nat
    requires g.bytesPerCluster > 0
  {
    Missing(|l'.root|, |l.root|) + Missing(ClustersNeeded(g, |contents|), ChainLength(cs, l, name))
  }

  /**
   * What writing a file means: the volume is well formed, the file map has the new contents under `name` in any letter
   * case and is otherwise the same, the file has as many clusters as its size needs, the free count is still right, and
   * clusters in use that belong neither to the directory nor to the file are untouched.
   */
  ghost predicate FileWritten(cs: Charset, g: Geometry, v: Volume, l: Layout, v': Volume, l': Layout, name: Name,
                              contents: seq<byte>) {
    && WellFormed(g, v, l) && WellFormed(g, v', l')
    && (forall q: Name ::
          FileMap(cs, v', l', q) == if cs.lower(q) == cs.lower(name) then contents else FileMap(cs, v, l, q))
    && (forall q: Name ::
          ChainLength(cs, l', q)
          == if cs.lower(q) == cs.lower(name) then ClustersNeeded(g, |contents|) else ChainLength(cs, l, q))
    && |l.root| <= |l'.root| && CountKept(g, v, v', ClustersTaken(cs, g, l, l', name, contents))
    && Keeps(v, v', Touched(cs, l, name))
  }

  // ----- the phases of a write -----

  /** The file was found or created: nothing is read differently, and its entry is the one a lookup finds. */
  ghost predicate Located(cs: Charset, g: Geometry, v: Volume, l: Layout, v1: Volume, l1: Layout, name: Name) {
    && WellFormed(g, v, l) && WellFormed(g, v1, l1) && SpaceGrown(g, v, l.root, v1, l1.root)
    && (forall q: Name ::
          FileMap(cs, v1, l1, q) == FileMap(cs, v, l, q) && ChainLength(cs, l1, q) == ChainLength(cs, l, q))
    && var i, j := Find(cs, l1.entries, name), Find(cs, l.entries, name);
       && i < |l1.entries| && IsLive(l1.entries[i]) && i in l1.chains
       && if j in l.chains then l1.chains[i] == l.chains[j] else l1.chains[i] == []
  }

  lemma LocatedFound(cs: Charset, g: Geometry, v: Volume, l: Layout, v1: Volume, l1: Layout, name: Name)
    requires WellFormed(g, v, l) && Scanned(g, v, l, v1, l1) && Find(cs, l.entries, name) < |l.entries|
    ensures Located(cs, g, v, l, v1, l1, name)
  {
    ScannedWellFormed(g, v, l, v1, l1);
    assert DirGrown(g, v, l, v1, l1) && Keyed(l);
    DirGrownSameFiles(g, v, l, v1, l1);
    assert MatchesAt(cs, l.entries, Find(cs, l.entries, name), name);
    assert l1.entries == l.entries && l1.chains == l.chains;
    hide Steady, Consistent, SameFiles, SpaceGrown, Find, FileMap, Matches, ScanAt;
    forall q: Name
      ensures FileMap(cs, v1, l1, q) == FileMap(cs, v, l, q) && ChainLength(cs, l1, q) == ChainLength(cs, l, q)
    {
      SameFilesSameMap(cs, v, l, v1, l1, q);
    }
  }

  lemma LocatedCreated(cs: Charset, g: Geometry, v: Volume, l: Layout, v1: Volume, l1: Layout, name: Name,
                       short: seq<byte>,
                       date: nat, time: nat)
    requires WellFormed(g, v, l) && Storable(name) && |short| == 11 && Pick(l.entries, name) == Some(short)
    requires Find(cs, l.entries, name) == |l.entries| && SpaceGrown(g, v, l.root, v1, l1.root)
    requires l1 == WithNew(l, l1.root, name, short, date, time) && WellFormed(g, v1, l1)
    ensures Located(cs, g, v, l, v1, l1, name)
    ensures l1.entries[Find(cs, l1.entries, name)] == ShortEntry(short, date, time)
  {
    CreatedMap(cs, g, v, l, v1, l1.root, name, short, date, time, name);
    WritableParts(l.entries, name, short);
    var i := |l.entries| + FragmentCount(name);
    assert l1.chains[i] == [] && l1.entries[i] == ShortEntry(short, date, time) && i in l1.chains;
    assert Keyed(l1) && Keyed(l);
    assert IsLive(l1.entries[i]) && |l.entries| !in l.chains;
    hide Steady, Consistent, SpaceGrown, Find, FileMap, Storable, Pick, ShortEntry, NewEntries, FragmentCount, IsLive,
         Keyed;
    forall q: Name
      ensures FileMap(cs, v1, l1, q) == FileMap(cs, v, l, q) && ChainLength(cs, l1, q) == ChainLength(cs, l, q)
    {
      CreatedMap(cs, g, v, l, v1, l1.root, name, short, date, time, q);
    }
  }

  /** The chain of the file in slot `i` has its new length. */
  ghost predicate Resized(g: Geometry, v: Volume, l: Layout, i: int, v1: Volume, l1: Layout, list: seq<nat>) {
    && TablesSound(g, v1, l1) && i in l1.chains && i in l1.firsts && list == l1.chains[i] && i in l.chains
    && l1 == WithChain(l, i, l1.firsts[i], list)
    && Reworked(g, v, l.chains[i], v1, list) && Seekable(g, |v1.data|, list)
  }

  /** A file without clusters can record any end mark as its first one. */
  lemma EmptyFirst(g: Geometry, v: Volume, l: Layout, i: int, first: nat)
    requires TablesSound(g, v, l) && i in l.chains && l.chains[i] == [] && IsEof(g.kind, first)
    ensures TablesSound(g, v, WithChain(l, i, first, []))
  {
    WithChainAll(g, l, i, first, []);
    hide FreeAddressable, Shaped, IsEof, AllChains, AllFirsts;
  }

  lemma SameTables(g: Geometry, v: Volume, l: Layout, v': Volume)
    requires TablesSound(g, v, l) && v'.fats == v.fats && Shaped(g, v')
    ensures TablesSound(g, v', l)
  {
  }

  /** After the fill, with the first cluster that the entry will record. */
  lemma FillDone(g: Geometry, len: nat, v: Volume, l: Layout, i: nat, v1: Volume, l1: Layout, list: seq<nat>,
                 contents: seq<byte>, v2: Volume, first: nat)
    requires WellFormed(g, v, l) && Resized(g, v, l, i, v1, l1, list) && InfoFits(g, v1) && Shaped(g, v2)
    requires Filling(g, len, v1, list, contents, v2, |list|) && forall k | 0 <= k < |list| :: list[k] < |v1.data|
    requires if list == [] then IsEof(g.kind, first) else first == list[0]
    ensures Refilled(g, v, l, i, list, first, v2, WithChain(l1, i, first, list), contents)
    ensures |contents| < TWO32
  {
    FillingLength(g, len, v1, list, contents, v2, |list|);
    FilledGather(g, v1, v2, list, Stored(g, contents), |list|);
    assert list[..|list|] == list;
    ContentsFit(g, len, v1, list, contents, v2);
    FilledReworked(g, v1, v2, list, Stored(g, contents));
    assert Gather(v2.data, list) == Stored(g, contents);
    FillTables(g, len, v, l, i, v1, l1, list, contents, v2, first);
    assert |v2.data| == |v1.data| == |v.data|;
    hide Stored, Filling, TablesSound, Reworked, ClustersNeeded, Gather, Seekable, Consistent, Shaped, IsEof;
    ReworkedTransitive(g, v, l.chains[i], v1, list, v2, list);
    WithChainTwice(l, i, l1.firsts[i], list, first, list);
    ReworkedSteady(g, v, l, i, first, list, v2);
  }

  lemma ContentsFit(g: Geometry, len: nat, v1: Volume, list: seq<nat>, contents: seq<byte>, v2: Volume)
    requires Filling(g, len, v1, list, contents, v2, |list|) && forall k | 0 <= k < |list| :: list[k] < |v1.data|
    ensures |contents| < TWO32
  {
    assert forall k | 0 <= k < |list| :: 2 <= list[k];
    assert contents <= Stored(g, contents);
    hide Stored, ClusterLimit, Start, ClustersNeeded, Seekable, Filled;
    ChainFits(g, len, list);
  }

  lemma FillTables(g: Geometry, len: nat, v: Volume, l: Layout, i: nat, v1: Volume, l1: Layout, list: seq<nat>,
                   contents: seq<byte>, v2: Volume, first: nat)
    requires Resized(g, v, l, i, v1, l1, list) && Shaped(g, v2)
    requires Filling(g, len, v1, list, contents, v2, |list|)
    requires if list == [] then IsEof(g.kind, first) else first == list[0]
    ensures TablesSound(g, v2, WithChain(l1, i, first, list))
  {
    ChainInTable(g, v1, l1, i);
    assert list != [] ==> first == l1.firsts[i];
    assert v2.fats == v1.fats;
    hide TablesSound, Shaped, Filling, IsEof, Chain, Reworked, Seekable, WithChain;
    SameTables(g, v1, l1, v2);
    if list == [] {
      EmptyFirst(g, v2, l1, i, first);
    } else {
      WithChainSame(l1, i);
    }
  }

  /** The whole write, from the volume before it to the volume after its last step. */
  lemma WriteDone(cs: Charset, g: Geometry, v: Volume, l: Layout, name: Name, v1: Volume, l1: Layout, list: seq<nat>,
                  e: Entry,
                  v2: Volume, l2: Layout, v3: Volume, l3: Layout, contents: seq<byte>)
    requires Located(cs, g, v, l, v1, l1, name)
    requires var i := Find(cs, l1.entries, name);
      && Refilled(g, v1, l1, i, list, First(g.kind, e), v2, l2, contents)
      && e[..12] == l1.entries[i][..12] && FileSize(e) == |contents|
      && l3 == l2.(root := l3.root, entries := l2.entries[i := e])
    requires Steady(g, v3, l3) && SpaceGrown(g, v2, l2.root, v3, l3.root)
    ensures FileWritten(cs, g, v, l, v3, l3, name, contents)
  {
    hide *;
    var i := Find(cs, l1.entries, name);
    LocatedParts(cs, g, v, l, v1, l1, name);
    SteadyIsKeyed(g, v3, l3);
    RewrittenWellFormed(g, v1, l1, i, list, e, v2, l2, v3, l3, contents);
    WriteKeeps(cs, g, v, l, name, v1, l1, list, First(g.kind, e), v2, l2, v3, l3, contents);
    RefilledLength(g, v1, l1, i, list, First(g.kind, e), v2, l2, contents);
    forall q: Name
      ensures FileMap(cs, v3, l3, q) == if cs.lower(q) == cs.lower(name) then contents else FileMap(cs, v, l, q)
      ensures ChainLength(cs, l3, q)
              == if cs.lower(q) == cs.lower(name) then ClustersNeeded(g, |contents|) else ChainLength(cs, l, q)
    {
      RewrittenMap(cs, g, v1, l1, name, list, e, v2, l2, v3, l3, contents, q);
      RewrittenLength(cs, g, v1, l1, name, list, e, v2, l2, l3.root, contents, q);
      assert FileMap(cs, v1, l1, q) == FileMap(cs, v, l, q);
    }
    FileWrittenIs(cs, g, v, l, v3, l3, name, contents);
  }

  lemma LocatedParts(cs: Charset, g: Geometry, v: Volume, l: Layout, v1: Volume, l1: Layout, name: Name)
    requires Located(cs, g, v, l, v1, l1, name)
    ensures WellFormed(g, v, l) && Keyed(l) && Keyed(l1) && Find(cs, l1.entries, name) < |l1.entries|
    ensures forall q: Name :: FileMap(cs, v1, l1, q) == FileMap(cs, v, l, q)
    ensures forall q: Name :: ChainLength(cs, l1, q) == ChainLength(cs, l, q)
  {
    hide FileMap, ChainLength, Find, SpaceGrown, Consistent, Listed;
  }

  lemma FileWrittenIs(cs: Charset, g: Geometry, v: Volume, l: Layout, v': Volume, l': Layout, name: Name,
                      contents: seq<byte>)
    requires WellFormed(g, v, l) && WellFormed(g, v', l') && Keyed(l) && Keyed(l') && g.bytesPerCluster > 0
    requires forall q: Name ::
      FileMap(cs, v', l', q) == if cs.lower(q) == cs.lower(name) then contents else FileMap(cs, v, l, q)
    requires forall q: Name ::
      ChainLength(cs, l', q)
      == if cs.lower(q) == cs.lower(name) then ClustersNeeded(g, |contents|) else ChainLength(cs, l, q)
    requires |l.root| <= |l'.root| && CountKept(g, v, v', ClustersTaken(cs, g, l, l', name, contents))
    requires Keeps(v, v', Touched(cs, l, name))
    ensures FileWritten(cs, g, v, l, v', l', name, contents)
  {
    hide WellFormed, FileMap, ChainLength, CountKept, Keeps, Touched, ClustersNeeded, ClustersTaken;
  }

  /** A scan changes nothing that a write depends on. */
  lemma ScannedSame(cs: Charset, g: Geometry, v: Volume, l: Layout, v1: Volume, l1: Layout, name: Name,
                    contents: seq<byte>)
    requires WellFormed(g, v, l) && Scanned(g, v, l, v1, l1)
    ensures WellFormed(g, v1, l1) && l1.entries == l.entries
    ensures ShortensOnFat12(cs, g, l1, name, contents) <==> ShortensOnFat12(cs, g, l, name, contents)
    ensures |l.entries| < SlotCount(g, v, l.root) ==> v1 == v && l1 == l
  {
    ScannedWellFormed(g, v, l, v1, l1);
    hide WellFormed, Find, ClustersNeeded, SpaceGrown, Steady;
  }

  /** A scan and then a write is a write. */
  lemma ScannedThenWritten(cs: Charset, g: Geometry, v: Volume, l: Layout, v1: Volume, l1: Layout, v2: Volume,
                           l2: Layout, name: Name, contents: seq<byte>)
    requires WellFormed(g, v, l) && Scanned(g, v, l, v1, l1) && FileWritten(cs, g, v1, l1, v2, l2, name, contents)
    ensures FileWritten(cs, g, v, l, v2, l2, name, contents)
  {
    hide *;
    ScannedParts(cs, g, v, l, v1, l1);
    WrittenParts(cs, g, v1, l1, v2, l2, name, contents);
    WellFormedKeyed(g, v, l);
    ScannedKeeps(cs, g, v, l, v1, l1, v2, name);
    ScannedTaken(cs, g, v, l, v1, l1, v2, l2, name, contents);
    FileWrittenIs(cs, g, v, l, v2, l2, name, contents);
  }

  lemma WellFormedKeyed(g: Geometry, v: Volume, l: Layout)
    requires WellFormed(g, v, l)
    ensures Keyed(l) && g.bytesPerCluster > 0
  {
  }

  lemma ScannedParts(cs: Charset, g: Geometry, v: Volume, l: Layout, v1: Volume, l1: Layout)
    requires WellFormed(g, v, l) && Scanned(g, v, l, v1, l1)
    ensures Keyed(l) && Keyed(l1) && forall q: Name :: FileMap(cs, v1, l1, q) == FileMap(cs, v, l, q)
    ensures forall q: Name :: ChainLength(cs, l1, q) == ChainLength(cs, l, q)
  {
    ScannedWellFormed(g, v, l, v1, l1);
    WellFormedKeyed(g, v, l);
    WellFormedKeyed(g, v1, l1);
    DirGrownSameFiles(g, v, l, v1, l1);
    assert l1.entries == l.entries && l1.chains == l.chains;
    hide FileMap, SameFiles, WellFormed, Scanned, Find;
    forall q: Name ensures FileMap(cs, v1, l1, q) == FileMap(cs, v, l, q) {
      SameFilesSameMap(cs, v, l, v1, l1, q);
    }
  }

  lemma WrittenParts(cs: Charset, g: Geometry, v: Volume, l: Layout, v': Volume, l': Layout, name: Name,
                     contents: seq<byte>)
    requires FileWritten(cs, g, v, l, v', l', name, contents)
    ensures WellFormed(g, v, l) && WellFormed(g, v', l') && Keyed(l) && Keyed(l') && g.bytesPerCluster > 0
    ensures forall q: Name ::
      FileMap(cs, v', l', q) == if cs.lower(q) == cs.lower(name) then contents else FileMap(cs, v, l, q)
    ensures forall q: Name ::
      ChainLength(cs, l', q)
      == if cs.lower(q) == cs.lower(name) then ClustersNeeded(g, |contents|) else ChainLength(cs, l, q)
    ensures |l.root| <= |l'.root| && CountKept(g, v, v', ClustersTaken(cs, g, l, l', name, contents))
    ensures Keeps(v, v', Touched(cs, l, name))
  {
    WellFormedKeyed(g, v, l);
    WellFormedKeyed(g, v', l');
    hide WellFormed, FileMap, ChainLength, CountKept, Keeps, Touched, ClustersNeeded, ClustersTaken;
  }

  lemma ScannedKeeps(cs: Charset, g: Geometry, v: Volume, l: Layout, v1: Volume, l1: Layout, v2: Volume, name: Name)
    requires Scanned(g, v, l, v1, l1) && Keeps(v1, v2, Touched(cs, l1, name))
    ensures Keeps(v, v2, Touched(cs, l, name))
  {
    assert SpaceGrown(g, v, l.root, v1, l1.root);
    hide Find, Steady, CountKept, SlotCount;
    forall c | 0 <= c < |v.fats[0]| && v.fats[0][c] != 0 && c !in Touched(cs, l, name)
      ensures v2.fats[0][c] == v.fats[0][c] && (c < |v.data| ==> v2.data[c] == v.data[c])
    {
      assert c !in l.root && c !in l1.root;
    }
  }

  lemma ScannedTaken(cs: Charset, g: Geometry, v: Volume, l: Layout, v1: Volume, l1: Layout, v2: Volume, l2: Layout,
                     name: Name, contents: seq<byte>)
    requires g.bytesPerCluster > 0 && Scanned(g, v, l, v1, l1) && |l1.root| <= |l2.root|
    requires ChainLength(cs, l1, name) == ChainLength(cs, l, name)
    requires CountKept(g, v1, v2, ClustersTaken(cs, g, l1, l2, name, contents))
    ensures |l.root| <= |l2.root| && CountKept(g, v, v2, ClustersTaken(cs, g, l, l2, name, contents))
  {
    assert SpaceGrown(g, v, l.root, v1, l1.root);
    assert |l.root| <= |l1.root| && CountKept(g, v, v1, |l1.root| - |l.root|);
    hide CountKept, ChainLength, ClustersNeeded, SpaceGrown, Scanned;
    CountKeptTransitive(g, v, v1, v2, |l1.root| - |l.root|, ClustersTaken(cs, g, l1, l2, name, contents));
  }

  lemma WriteKeeps(cs: Charset, g: Geometry, v: Volume, l: Layout, name: Name, v1: Volume, l1: Layout, list: seq<nat>,
                   first: nat, v2: Volume, l2: Layout, v3: Volume, l3: Layout, contents: seq<byte>)
    requires g.bytesPerCluster > 0 && Located(cs, g, v, l, v1, l1, name)
    requires Refilled(g, v1, l1, Find(cs, l1.entries, name), list, first, v2, l2, contents)
    requires SpaceGrown(g, v2, l2.root, v3, l3.root)
    ensures Keeps(v, v3, Touched(cs, l, name))
    ensures |l.root| <= |l3.root| && CountKept(g, v, v3, ClustersTaken(cs, g, l, l3, name, contents))
  {
    var i, j := Find(cs, l1.entries, name), Find(cs, l.entries, name);
    assert l2.root == l1.root;
    WriteCounts(cs, g, v, l, name, v1, l1, list, first, v2, l2, v3, l3, contents);
    hide WellFormed, FileMap, Find, CountKept, Steady, Stored, Gather, ClustersNeeded, IsLive;
    forall c | 0 <= c < |v.fats[0]| && v.fats[0][c] != 0 && c !in Touched(cs, l, name)
      ensures v3.fats[0][c] == v.fats[0][c] && (c < |v.data| ==> v3.data[c] == v.data[c])
    {
      assert c !in l.root;
      assert c !in l1.chains[i];
      assert c !in l1.root;
    }
  }

  lemma WriteCounts(cs: Charset, g: Geometry, v: Volume, l: Layout, name: Name, v1: Volume, l1: Layout, list: seq<nat>,
                    first: nat, v2: Volume, l2: Layout, v3: Volume, l3: Layout, contents: seq<byte>)
    requires g.bytesPerCluster > 0 && Located(cs, g, v, l, v1, l1, name)
    requires Refilled(g, v1, l1, Find(cs, l1.entries, name), list, first, v2, l2, contents)
    requires SpaceGrown(g, v2, l2.root, v3, l3.root)
    ensures |l.root| <= |l3.root| && CountKept(g, v, v3, ClustersTaken(cs, g, l, l3, name, contents))
  {
    var i := Find(cs, l1.entries, name);
    assert l2.root == l1.root;
    assert |list| == ClustersNeeded(g, |contents|) && |l1.chains[i]| == ChainLength(cs, l, name);
    var a, b, c := |l1.root| - |l.root|, Missing(|list|, |l1.chains[i]|), |l3.root| - |l1.root|;
    assert CountKept(g, v, v1, a) && CountKept(g, v1, v2, b) && CountKept(g, v2, v3, c);
    hide CountKept, Located, Refilled, SpaceGrown, ClustersNeeded, ChainLength;
    CountKeptTransitive(g, v, v1, v2, a, b);
    CountKeptTransitive(g, v, v2, v3, a + b, c);
  }

  /** What the new entry records: the chain's first cluster or an end mark, and the size. */
  lemma EntryRecorded(g: Geometry, e: Entry, list: seq<nat>, size: nat, date: nat, time: nat)
    requires size < TWO32 && (list != [] ==> !IsEof(g.kind, list[0]))
    ensures FirstRecorded(g.kind, list) < TWO32
    ensures var r := WithContents(e, FirstRecorded(g.kind, list), size, date, time);
      && FileSize(r) == size && r[..12] == e[..12]
      && if list == [] then IsEof(g.kind, First(g.kind, r)) else First(g.kind, r) == list[0]
  {
    RecordedFields(g.kind, e, FirstRecorded(g.kind, list), size, date, time);
    hide WithContents, FileSize, First;
  }

  /** An entry with the same name and attributes is the one an update overwrites. */
  lemma UpdatesSlot(a: seq<Entry>, i: nat, e: Entry)
    requires i < |a| && IsLive(a[i]) && UniqueShort(a) && e[..12] == a[i][..12]
    ensures IsLive(e) && FindUpdate(a, 0, e) == i
  {
    assert e[11] == e[..12][11] && a[i][11] == a[i][..12][11];
    assert e[..11] == e[..12][..11] && a[i][..11] == a[i][..12][..11];
    assert e[0] == e[..12][0] && a[i][0] == a[i][..12][0];
    FindUpdateUnique(a, i, e);
    hide UniqueShort, FindUpdate;
  }

  /** A file on FAT12 that would become shorter, but not empty. */
  ghost predicate ShortensOnFat12(cs: Charset, g: Geometry, l: Layout, name: Name, contents: seq<byte>) {
    g.kind.FAT12? && g.bytesPerCluster > 0 && 0 < ClustersNeeded(g, |contents|) < ChainLength(cs, l, name)
  }

  /** There are enough free clusters for the new contents of the file. */
  ghost predicate HasRoom(cs: Charset, g: Geometry, v: Volume, l: Layout, name: Name, contents: seq<byte>) {
    && g.bytesPerCluster > 0
    && var i, n := Find(cs, l.entries, name), ClustersNeeded(g, |contents|);
       Roomy(g, v, Missing(n, if i in l.chains then |l.chains[i]| else 0))
  }

  /** Finding or creating the file takes no free cluster, unless the directory grows. */
  lemma LocatedRoom(cs: Charset, g: Geometry, v: Volume, l: Layout, v1: Volume, l1: Layout, name: Name,
                    contents: seq<byte>)
    requires Located(cs, g, v, l, v1, l1, name) && g.bytesPerCluster > 0
    ensures Find(cs, l1.entries, name) in l1.chains
    ensures l1.root == l.root && HasRoom(cs, g, v, l, name, contents) ==>
      Roomy(g, v1, Missing(ClustersNeeded(g, |contents|), |l1.chains[Find(cs, l1.entries, name)]|))
  {
    hide WellFormed, FileMap, Find, ClustersNeeded, IsLive, Signed, CountKept, Free;
  }

  lemma LocatedLength(cs: Charset, g: Geometry, v: Volume, l: Layout, v1: Volume, l1: Layout, name: Name,
                      contents: seq<byte>)
    requires Located(cs, g, v, l, v1, l1, name) && !ShortensOnFat12(cs, g, l, name, contents) && g.bytesPerCluster > 0
    ensures Find(cs, l1.entries, name) in l1.chains
    ensures g.kind.FAT12? ==>
      var n := ClustersNeeded(g, |contents|); n == 0 || n >= |l1.chains[Find(cs, l1.entries, name)]|
  {
    hide WellFormed, SpaceGrown, FileMap, Find, ClustersNeeded, IsLive;
  }

  lemma GrownIsResized(g: Geometry, v: Volume, l: Layout, i: int, c0: seq<nat>, v1: Volume, l1: Layout, list: seq<nat>)
    requires i in l.chains && c0 == l.chains[i] && Growing(g, v, l, i, c0, v1, l1, list)
    ensures Resized(g, v, l, i, v1, l1, list) && |v1.data| == |v.data|
    ensures forall k | 0 <= k < |c0| && k < |list| :: list[k] == c0[k]
  {
  }

  lemma CutIsResized(g: Geometry, v: Volume, l: Layout, i: int, v1: Volume, l1: Layout, n: nat, first: nat)
    requires Sound(g, v, l) && i in l.chains && n <= |l.chains[i]| && l1 == WithChain(l, i, first, l.chains[i][..n])
    requires TablesSound(g, v1, l1) && Reworked(g, v, l.chains[i], v1, l.chains[i][..n])
    ensures Resized(g, v, l, i, v1, l1, l.chains[i][..n]) && |v1.data| == |v.data|
  {
    SoundInside(g, v, l, i);
    ChainInTable(g, v1, l1, i);
    var list := l.chains[i][..n];
    hide TablesSound, Addressable, Sound, Chain, IsEof;
    assert Seekable(g, |v1.data|, list) by {
      forall k | 0 <= k < |list| ensures 2 <= list[k] && list[k] < |v1.data| {
        assert list[k] == l.chains[i][k];
      }
    }
  }

  // ----- an end mark of the wrong width -----

  /** A cluster in the partition is at least 32 bytes for each number away from the first. */
  lemma ClusterFar(g: Geometry, len: nat, c: nat)
    requires Sane(g, len) && 2 <= c < ClusterLimit(g, len)
    ensures g.clusterOffset + 32 * (c - 2) + 32 <= len
  {
    ClusterInside(g, len, c);
    var at, m := ClusterPos(g, c), g.bytesPerCluster;
    assert at == g.clusterOffset + (c - 2) * m && m >= 32;
    hide *;
    Product(c - 2, m);
  }

  lemma Product(a: nat, m: nat)
    requires m >= 32
    ensures a * m >= 32 * a
  {
  }

  /** A 32-bit table offset computed for a cluster in the partition does not wrap. */
  lemma WideOffset(g: Geometry, len: nat, m: nat, c: nat)
    requires Sane(g, len) && g.kind.FAT12? && m < |g.fatStarts| && 2 <= c < ClusterLimit(g, len)
    ensures EntryPos(FAT32, g, m, c) == g.fatStarts[m] + 4 * c
  {
    ClusterFar(g, len, c);
    var start := g.fatStarts[m];
    assert start <= start + FatBytes(g) <= g.rootStart <= g.clusterOffset;
    assert len < TWO32 && EntryOffset(FAT32, c) == 4 * c;
    hide *;
    assert start + 4 * c < TWO32;
    SmallOffset(g, m, c);
  }

  lemma SmallOffset(g: Geometry, m: nat, c: nat)
    requires m < |g.fatStarts| && g.fatStarts[m] + 4 * c < TWO32
    ensures EntryPos(FAT32, g, m, c) == g.fatStarts[m] + 4 * c
  {
  }

  /** Bytes in front of the first copy's 32-bit slot for `c` survive a 32-bit write for `c` to all copies. */
  lemma {:induction false} WideWriteBelow(g: Geometry, s: seq<byte>, m: nat, c: nat, v: nat)
    requires Sane(g, |s|) && g.kind.FAT12? && m <= |g.fatStarts| && 2 <= c < ClusterLimit(g, |s|)
    requires RangeFrom(FAT32, g, |s|, m, c)
    ensures g.fatStarts[0] + 4 * c <= |s|
    ensures SetFrom(FAT32, g, s, m, c, v)[..g.fatStarts[0] + 4 * c] == s[..g.fatStarts[0] + 4 * c]
    decreases |g.fatStarts| - m
  {
    hide *;
    WideInside(g, |s|, c);
    if m == |g.fatStarts| {
      SetFromEnd(g, s, c, v);
    } else {
      SetFromStep(g, s, m, c, v);
      WideStep(g, s, m, c, v);
      WideWriteBelow(g, SetEntry(FAT32, g, s, m, c, v), m + 1, c, Carry(FAT32, g, s, m, c, v));
    }
  }

  lemma SetFromEnd(g: Geometry, s: seq<byte>, c: nat, v: nat)
    ensures RangeFrom(FAT32, g, |s|, |g.fatStarts|, c) && SetFrom(FAT32, g, s, |g.fatStarts|, c, v) == s
  {
  }

  lemma WideStep(g: Geometry, s: seq<byte>, m: nat, c: nat, v: nat)
    requires Sane(g, |s|) && g.kind.FAT12? && m < |g.fatStarts| && 2 <= c < ClusterLimit(g, |s|)
    requires EntryInRange(FAT32, g, |s|, m, c) && g.fatStarts[0] + 4 * c <= |s|
    ensures SetEntry(FAT32, g, s, m, c, v)[..g.fatStarts[0] + 4 * c] == s[..g.fatStarts[0] + 4 * c]
  {
    assert g.fatStarts[0] <= g.fatStarts[m];
    hide *;
    WideOffset(g, |s|, m, c);
    SetEntryDef(FAT32, g, s, m, c, v);
    var o, lo := EntryPos(FAT32, g, m, c), g.fatStarts[0] + 4 * c;
    var d := Encode(FAT32, c, s[o..o + 4], v);
    SpliceApart(s, o, d, 0, lo);
    assert Splice(s, o, d)[0..lo] == Splice(s, o, d)[..lo] && s[0..lo] == s[..lo];
  }

  lemma {:induction false} SetFromStep(g: Geometry, s: seq<byte>, m: nat, c: nat, v: nat)
    requires m < |g.fatStarts| && RangeFrom(FAT32, g, |s|, m, c)
    ensures RangeFrom(FAT32, g, |s|, m + 1, c)
    ensures EntryInRange(FAT32, g, |s|, m, c)
    ensures SetFrom(FAT32, g, s, m, c, v)
            == SetFrom(FAT32, g, SetEntry(FAT32, g, s, m, c, v), m + 1, c, Carry(FAT32, g, s, m, c, v))
  {
  }

  lemma WideInside(g: Geometry, len: nat, c: nat)
    requires Sane(g, len) && g.kind.FAT12? && 2 <= c < ClusterLimit(g, len)
    ensures g.fatStarts[0] + 4 * c <= len
  {
    ClusterFar(g, len, c);
    assert g.fatStarts[0] <= g.fatStarts[0] + FatBytes(g) <= g.rootStart <= g.clusterOffset;
    hide *;
  }

  /** On FAT12 the 32-bit end mark misses the entry: the link of the cluster stays as it was. */
  lemma WideMarkMisses(g: Geometry, s: seq<byte>, c: nat, v: nat)
    requires Sane(g, |s|) && g.kind.FAT12? && 2 <= c < ClusterLimit(g, |s|) && c < Entries(g)
    requires RangeFrom(FAT32, g, |s|, 0, c)
    ensures Abs(g, SetFrom(FAT32, g, s, 0, c, v)).fats[0][c] == Abs(g, s).fats[0][c]
  {
    hide *;
    NarrowPlace(g, |s|, c);
    var t, lo, o := SetFrom(FAT32, g, s, 0, c, v), g.fatStarts[0] + 4 * c, EntryPos(FAT12, g, 0, c);
    WideWriteBelow(g, s, 0, c, v);
    LinkIsEntry(g, s, c);
    LinkIsEntry(g, t, c);
    LinkAt(g, s, c);
    LinkAt(g, t, c);
    SameBelow(s, t, lo, o);
  }

  lemma NarrowPlace(g: Geometry, len: nat, c: nat)
    requires Sane(g, len) && g.kind.FAT12? && 2 <= c < ClusterLimit(g, len)
    ensures |g.fatStarts| > 0 && EntryPos(FAT12, g, 0, c) + 2 <= g.fatStarts[0] + 4 * c <= len
  {
    WideInside(g, len, c);
  }

  lemma SameBelow(s: seq<byte>, t: seq<byte>, lo: nat, o: nat)
    requires |t| == |s| && o + 2 <= lo <= |s| && t[..lo] == s[..lo]
    ensures t[o..o + 2] == s[o..o + 2]
  {
    assert t[o..o + 2] == t[..lo][o..o + 2] && s[o..o + 2] == s[..lo][o..o + 2];
  }

  lemma LinkAt(g: Geometry, s: seq<byte>, c: nat)
    requires g.kind.FAT12? && |g.fatStarts| > 0 && EntryInRange(FAT12, g, |s|, 0, c)
    ensures EntryPos(FAT12, g, 0, c) + 2 <= |s|
    ensures Link(g, s, c) == Decode(FAT12, c, s[EntryPos(FAT12, g, 0, c)..EntryPos(FAT12, g, 0, c) + 2])
  {
  }
}
