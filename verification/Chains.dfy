/** Cluster chains in a table, and families of chains that share no cluster. */
module Chains {
  import opened FatCodec

  predicate IsEof(kind: FatKind, v: nat) {
    v >= EofMin(kind)
  }

  predicate Distinct<T(==)>(s: seq<T>) {
    forall i, j | 0 <= i < j < |s| :: s[i] != s[j]
  }

  /** Numbers that a chain may hold: clusters that the table has an entry for and that do not read as an end mark. */
  predicate InTable(kind: FatKind, fat: seq<nat>, c: nat) {
    2 <= c < |fat| && !IsEof(kind, c)
  }

  /** `chain` is the whole list of clusters that starts with `first`; no cluster at all for zero or an end mark. */
  ghost predicate Chain(kind: FatKind, fat: seq<nat>, first: nat, chain: seq<nat>) {
    if chain == [] then first == 0 || IsEof(kind, first)
    else
      && chain[0] == first
      && (forall i | 0 <= i < |chain| :: InTable(kind, fat, chain[i]))
      && (forall i | 0 <= i < |chain| - 1 :: fat[chain[i]] == chain[i + 1])
      && IsEof(kind, fat[chain[|chain| - 1]])
      && Distinct(chain)
  }

  /** Each key has its chain, and no cluster is in two of them. */
  ghost predicate Family(kind: FatKind, fat: seq<nat>, firsts: map<int, nat>, chains: map<int, seq<nat>>) {
    && firsts.Keys == chains.Keys
    && (forall k | k in chains :: Chain(kind, fat, firsts[k], chains[k]))
    && DisjointChains(chains)
  }

  ghost predicate DisjointChains(chains: map<int, seq<nat>>) {
    forall k, l, x | k in chains && l in chains && x in chains[k] && x in chains[l] :: k == l
  }

  /** No entry on a chain is free. */
  lemma ChainUsed(kind: FatKind, fat: seq<nat>, first: nat, chain: seq<nat>, i: nat)
    requires Chain(kind, fat, first, chain) && i < |chain|
    ensures fat[chain[i]] != 0
  {
    if i < |chain| - 1 {
      assert InTable(kind, fat, chain[i + 1]);
    }
  }

  /** Only the entries on a chain matter to it. */
  lemma ChainFrame(kind: FatKind, fat: seq<nat>, fat': seq<nat>, first: nat, chain: seq<nat>)
    requires Chain(kind, fat, first, chain) && |fat'| == |fat|
    requires forall i | 0 <= i < |chain| :: fat'[chain[i]] == fat[chain[i]]
    ensures Chain(kind, fat', first, chain)
  {
    forall i | 0 <= i < |chain| ensures InTable(kind, fat', chain[i]) {
      assert InTable(kind, fat, chain[i]);
    }
  }

  /** The entries of the table after cluster `c` was allocated and linked behind the last cluster of `chain`. */
  function Linked(kind: FatKind, fat: seq<nat>, chain: seq<nat>, c: nat): (r: seq<nat>)
    requires c < |fat| && (chain != [] ==> chain[|chain| - 1] < |fat|)
    ensures |r| == |fat|
  {
    var marked := fat[c := EofMark(kind)];
    if chain == [] then marked else marked[chain[|chain| - 1] := c]
  }

  lemma Append(kind: FatKind, fat: seq<nat>, first: nat, chain: seq<nat>, c: nat)
    requires Chain(kind, fat, first, chain)
    requires InTable(kind, fat, c) && fat[c] == 0
    ensures chain != [] ==> chain[|chain| - 1] < |fat|
    ensures Chain(kind, Linked(kind, fat, chain, c), if chain == [] then c else first, chain + [c])
  {
    forall i | 0 <= i < |chain| ensures chain[i] != c && chain[i] < |fat| {
      ChainUsed(kind, fat, first, chain, i);
      assert InTable(kind, fat, chain[i]);
    }
    var fat' := Linked(kind, fat, chain, c);
    var chain' := chain + [c];
    forall i | 0 <= i < |chain'| ensures InTable(kind, fat', chain'[i]) {
      if i < |chain| {
        assert InTable(kind, fat, chain[i]);
      }
    }
  }

  /** Allocating a free cluster for one chain of a family keeps the family. */
  lemma FamilyGrow(kind: FatKind, fat: seq<nat>, firsts: map<int, nat>, chains: map<int, seq<nat>>, k: int, c: nat)
    requires Family(kind, fat, firsts, chains) && k in chains
    requires InTable(kind, fat, c) && fat[c] == 0
    ensures chains[k] != [] ==> chains[k][|chains[k]| - 1] < |fat|
    ensures Family(kind, Linked(kind, fat, chains[k], c),
                   firsts[k := if chains[k] == [] then c else firsts[k]], chains[k := chains[k] + [c]])
  {
    Append(kind, fat, firsts[k], chains[k], c);
    var fat', chain' := Linked(kind, fat, chains[k], c), chains[k] + [c];
    forall l, i | l in chains && 0 <= i < |chains[l]| ensures chains[l][i] != c {
      ChainUsed(kind, fat, firsts[l], chains[l], i);
    }
    forall x | x in chain' ensures x in chains[k] || x == c {
    }
    forall x | 0 <= x < |fat| && x !in chain' ensures fat'[x] == fat[x] {
      if chains[k] != [] {
        assert chain'[|chains[k]| - 1] in chain';
      }
    }
    hide Linked, Chain;
    FamilyReplace(kind, fat, fat', firsts, chains, k, if chains[k] == [] then c else firsts[k], chain');
  }

  /** One chain of a family is replaced by one that takes no cluster from the others, whose entries do not change. */
  lemma FamilyReplace(kind: FatKind, fat: seq<nat>, fat': seq<nat>, firsts: map<int, nat>, chains: map<int, seq<nat>>,
                      k: int, first': nat, chain': seq<nat>)
    requires Family(kind, fat, firsts, chains) && k in chains && |fat'| == |fat|
    requires Chain(kind, fat', first', chain')
    requires forall x | x in chain' ::
               x in chains[k] || forall l, i | l in chains && 0 <= i < |chains[l]| :: chains[l][i] != x
    requires forall x | 0 <= x < |fat| && x !in chain' && x !in chains[k] :: fat'[x] == fat[x]
    ensures Family(kind, fat', firsts[k := first'], chains[k := chain'])
  {
    forall l | l in chains && l != k
      ensures Chain(kind, fat', firsts[l], chains[l]) && forall x | x in chains[l] :: x !in chain'
    {
      FamilyApart(kind, fat, firsts, chains, k, l);
      forall i | 0 <= i < |chains[l]| ensures fat'[chains[l][i]] == fat[chains[l][i]] {
        assert chains[l][i] in chains[l];
      }
      hide Chain, DisjointChains;
      ChainFrame(kind, fat, fat', firsts[l], chains[l]);
    }
    hide Chain;
  }

  lemma FamilyApart(kind: FatKind, fat: seq<nat>, firsts: map<int, nat>, chains: map<int, seq<nat>>, k: int, l: int)
    requires Family(kind, fat, firsts, chains) && k in chains && l in chains && k != l
    ensures Chain(kind, fat, firsts[l], chains[l])
    ensures forall x | x in chains[l] :: x !in chains[k] && x < |fat|
  {
    forall x | x in chains[l] ensures x < |fat| {
      var i :| 0 <= i < |chains[l]| && chains[l][i] == x;
      assert InTable(kind, fat, chains[l][i]);
    }
  }

  /** The table after the clusters of `chain` from position `n` on were freed and the one before them ends the chain. */
  ghost predicate CutTable(kind: FatKind, fat: seq<nat>, fat': seq<nat>, chain: seq<nat>, n: nat)
    requires n <= |chain| && forall i | 0 <= i < |chain| :: chain[i] < |fat|
  {
    && |fat'| == |fat|
    && (forall i | n <= i < |chain| :: fat'[chain[i]] == 0)
    && (n > 0 ==> IsEof(kind, fat'[chain[n - 1]]))
    && (forall c | 0 <= c < |fat| && c !in chain :: fat'[c] == fat[c])
    && (forall i | 0 <= i < n - 1 :: fat'[chain[i]] == fat[chain[i]])
  }

  /** Cutting one chain of a family keeps the family. */
  lemma FamilyCut(kind: FatKind, fat: seq<nat>, fat': seq<nat>, firsts: map<int, nat>, chains: map<int, seq<nat>>,
                  k: int, n: nat, first': nat)
    requires Family(kind, fat, firsts, chains) && k in chains && n <= |chains[k]|
    requires forall i | 0 <= i < |chains[k]| :: chains[k][i] < |fat|
    requires CutTable(kind, fat, fat', chains[k], n)
    requires if n > 0 then first' == firsts[k] else first' == 0 || IsEof(kind, first')
    ensures Family(kind, fat', firsts[k := first'], chains[k := chains[k][..n]])
  {
    var chain := chains[k];
    forall i | 0 <= i < n ensures InTable(kind, fat', chain[i]) {
      assert InTable(kind, fat, chain[i]);
    }
    assert Chain(kind, fat', first', chain[..n]);
    forall x | x in chain[..n] ensures x in chain {
    }
    hide Chain, Family;
    FamilyReplace(kind, fat, fat', firsts, chains, k, first', chain[..n]);
  }

  /** The number of free entries. */
  function Free(fat: seq<nat>): (r: nat)
    ensures r <= |fat|
  {
    if fat == [] then 0 else Free(fat[..|fat| - 1]) + if fat[|fat| - 1] == 0 then 1 else 0
  }

  /** Changing one entry changes the number of free entries by what that entry gained or lost. */
  lemma {:induction false} FreeUpdate(fat: seq<nat>, c: nat, v: nat)
    requires c < |fat|
    ensures Free(fat[c := v]) + (if fat[c] == 0 then 1 else 0) == Free(fat) + if v == 0 then 1 else 0
  {
    var n := |fat| - 1;
    if c == n {
      assert fat[c := v][..n] == fat[..n];
    } else {
      assert fat[c := v][..n] == fat[..n][c := v];
      FreeUpdate(fat[..n], c, v);
    }
  }

  lemma {:induction false} FreeSome(fat: seq<nat>, c: nat)
    requires c < |fat| && fat[c] == 0
    ensures Free(fat) > 0
  {
    FreeUpdate(fat, c, 1);
  }
}
