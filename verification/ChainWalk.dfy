/** What `getClusterChain` computes on any table content, and why it agrees with the chains of a sound volume. */
module ChainWalks {
  import opened Bytes
  import opened Volumes
  import opened FatTables
  import opened Chains

  /** The clusters met after `|list|` steps from `first`, the next number being `next`. */
  ghost predicate Partial(g: Geometry, s: seq<byte>, first: nat, list: seq<nat>, next: nat)
    requires |g.fatStarts| > 0
  {
    && (forall i | 0 <= i < |list| :: !IsEof(g.kind, list[i]) && EntryInRange(g.kind, g, |s|, 0, list[i]))
    && (forall i | 0 <= i < |list| - 1 :: Link(g, s, list[i]) == list[i + 1])
    && Distinct(list)
    && (if list == [] then next == first else list[0] == first && Link(g, s, list[|list| - 1]) == next)
  }

  /** `list` is the whole chain: duplicate-free, linked by table entries, and the last entry is an end mark. */
  ghost predicate Walk(g: Geometry, s: seq<byte>, first: nat, list: seq<nat>)
    requires |g.fatStarts| > 0
  {
    exists next :: Partial(g, s, first, list, next) && IsEof(g.kind, next)
  }

  lemma PartialStep(g: Geometry, s: seq<byte>, first: nat, list: seq<nat>, next: nat)
    requires |g.fatStarts| > 0 && Partial(g, s, first, list, next)
    requires !IsEof(g.kind, next) && next !in list && EntryInRange(g.kind, g, |s|, 0, next)
    ensures Partial(g, s, first, list + [next], Link(g, s, next))
  {
    hide Link, EntryInRange, IsEof;
  }

  ghost function Below(n: nat): (r: set<nat>)
    ensures |r| == n && forall x: nat :: x in r <==> x < n
  {
    if n == 0 then {} else Below(n - 1) + {n - 1}
  }

  ghost function Members(list: seq<nat>): (r: set<nat>)
    ensures forall x: nat :: x in r <==> x in list
  {
    set x | x in list
  }

  /** Duplicate-free lists of numbers below a bound are not longer than the bound. */
  lemma Pigeonhole(list: seq<nat>, bound: nat)
    requires Distinct(list) && forall i | 0 <= i < |list| :: list[i] < bound
    ensures |list| <= bound
  {
    DistinctCard(list);
    SubsetCard(Members(list), Below(bound));
  }

  lemma {:induction false} DistinctCard(list: seq<nat>)
    requires Distinct(list)
    ensures |Members(list)| == |list|
  {
    if list != [] {
      var n := |list| - 1;
      DistinctCard(list[..n]);
      assert list == list[..n] + [list[n]];
      assert Members(list) == Members(list[..n]) + {list[n]};
    }
  }

  lemma SubsetCard<T>(a: set<T>, b: set<T>)
    requires a <= b
    ensures |a| <= |b|
  {
    assert b == a + (b - a);
  }

  /** A whole chain extends every partial walk from the same cluster. */
  lemma {:induction false} WalkExtends(g: Geometry, s: seq<byte>, first: nat, list: seq<nat>, next: nat,
                                       whole: seq<nat>, end: nat)
    requires |g.fatStarts| > 0 && Partial(g, s, first, list, next)
    requires Partial(g, s, first, whole, end) && IsEof(g.kind, end)
    ensures |list| <= |whole| && whole[..|list|] == list
    ensures forall i | 0 <= i < |list| :: whole[i] == list[i]
    ensures next == if |list| < |whole| then whole[|list|] else end
  {
    hide Link, EntryInRange, IsEof;
    if list != [] {
      var n := |list| - 1;
      assert Partial(g, s, first, list[..n], list[n]);
      WalkExtends(g, s, first, list[..n], list[n], whole, end);
      assert whole[..n] == list[..n];
      assert n < |whole| && whole[n] == list[n];
      assert whole[..n + 1] == list[..n] + [list[n]] == list;
    }
  }

  /** Meeting a cluster again means that there is no whole chain. */
  lemma CircularHasNoWalk(g: Geometry, s: seq<byte>, first: nat, list: seq<nat>, next: nat)
    requires |g.fatStarts| > 0 && Partial(g, s, first, list, next)
    requires !IsEof(g.kind, next) && (next in list || !EntryInRange(g.kind, g, |s|, 0, next))
    ensures forall whole :: !Walk(g, s, first, whole)
  {
    forall whole ensures !Walk(g, s, first, whole) {
      if Walk(g, s, first, whole) {
        var end :| Partial(g, s, first, whole, end) && IsEof(g.kind, end);
        WalkExtends(g, s, first, list, next, whole, end);
        assert false;
      }
    }
  }

  /** On a sound table the walk from the first cluster of a chain is that chain. */
  lemma WalkIsChain(g: Geometry, s: seq<byte>, first: nat, list: seq<nat>, chain: seq<nat>)
    requires Sane(g, |s|) && Walk(g, s, first, list)
    requires first != 0 && Chain(g.kind, Abs(g, s).fats[0], first, chain)
    ensures list == chain
  {
    var next := ChainIsPartial(g, s, first, chain);
    var end :| Partial(g, s, first, list, end) && IsEof(g.kind, end);
    WalkExtends(g, s, first, list, end, chain, next);
    WalkExtends(g, s, first, chain, next, list, end);
  }

  lemma ChainIsPartial(g: Geometry, s: seq<byte>, first: nat, chain: seq<nat>) returns (next: nat)
    requires Sane(g, |s|)
    requires first != 0 && Chain(g.kind, Abs(g, s).fats[0], first, chain)
    ensures Partial(g, s, first, chain, next) && IsEof(g.kind, next)
  {
    var fat := Abs(g, s).fats[0];
    forall i | 0 <= i < |chain|
      ensures InTable(g.kind, fat, chain[i]) && EntryInRange(g.kind, g, |s|, 0, chain[i])
              && Link(g, s, chain[i]) == fat[chain[i]]
    {
      assert InTable(g.kind, fat, chain[i]);
      LinkIsEntry(g, s, chain[i]);
    }
    hide Link, EntryInRange, Abs, Sane;
    next := if chain == [] then first else fat[chain[|chain| - 1]];
  }

  /** A chain of a sound volume can be walked. */
  lemma ChainHasWalk(g: Geometry, s: seq<byte>, first: nat, chain: seq<nat>)
    requires Sane(g, |s|)
    requires first != 0 && Chain(g.kind, Abs(g, s).fats[0], first, chain)
    ensures Walk(g, s, first, chain)
  {
    var next := ChainIsPartial(g, s, first, chain);
  }
}
