/** Cluster chains in the FAT array. */
module Chains {
  import opened Bytes
  import opened Counting

  const END: u32 := 0xFFFF_FFFF
  const ALLOCATED := 0x8000_0000

  /** The entry of a cluster that is followed by cluster `c`: `0x80000000|c`. */
  function Link(c: nat): u32 {
    ALLOCATED + c % ALLOCATED
  }

  /** GetFatTableNextIndexData: the entry with its top bit cleared, unless it ends the chain. */
  function Masked(entry: u32): (v: u32) {
    if entry == END then END else entry % ALLOCATED
  }

  predicate Free(entry: u32) {
    entry < ALLOCATED
  }

  /** `cs` is the whole chain of clusters below `n` that starts with `cs[0]`. */
  ghost predicate IsChain(fat: seq<u32>, n: nat, cs: seq<nat>) {
    && n <= |fat| < 0x7FFF_FFFF && cs != []
    && (forall i :: 0 <= i < |cs| ==> cs[i] < n)
    && (forall i :: 0 <= i < |cs| - 1 ==> fat[cs[i]] == Link(cs[i + 1]))
    && fat[cs[|cs| - 1]] == END
  }

  /** In numbers: each entry of a chain is the next cluster with the top bit set, and the last one has all bits set. */
  lemma ChainInNumbers(fat: seq<u32>, n: nat, cs: seq<nat>)
    requires n <= |fat| < 0x7FFF_FFFF && cs != [] && forall i :: 0 <= i < |cs| ==> cs[i] < n
    ensures IsChain(fat, n, cs) <==>
              (forall i :: 0 <= i < |cs| - 1 ==> fat[cs[i]] == 0x8000_0000 + cs[i + 1]) && fat[cs[|cs| - 1]] == 0xFFFF_FFFF
  {
    assert forall c: nat :: c < n ==> Link(c) == 0x8000_0000 + c;
    if (forall i :: 0 <= i < |cs| - 1 ==> fat[cs[i]] == 0x8000_0000 + cs[i + 1]) && fat[cs[|cs| - 1]] == 0xFFFF_FFFF {
      assert forall i :: 0 <= i < |cs| - 1 ==> fat[cs[i]] == Link(cs[i + 1]);
    }
  }

  /** A chain is determined by its first cluster. */
  lemma {:induction false} ChainUnique(fat: seq<u32>, n: nat, cs: seq<nat>, ds: seq<nat>)
    requires IsChain(fat, n, cs) && IsChain(fat, n, ds) && cs[0] == ds[0]
    ensures cs == ds
  {
    if |cs| == 1 || |ds| == 1 {
      assert |cs| > 1 ==> fat[cs[0]] == Link(cs[1]);
      assert |ds| > 1 ==> fat[ds[0]] == Link(ds[1]);
    } else {
      TailIsChain(fat, n, cs);
      TailIsChain(fat, n, ds);
      assert fat[cs[0]] == Link(cs[1]) && fat[ds[0]] == Link(ds[1]);
      ChainUnique(fat, n, cs[1..], ds[1..]);
      assert cs == [cs[0]] + cs[1..] && ds == [ds[0]] + ds[1..];
    }
  }

  lemma TailIsChain(fat: seq<u32>, n: nat, cs: seq<nat>)
    requires IsChain(fat, n, cs) && |cs| > 1
    ensures IsChain(fat, n, cs[1..])
  {
    var t := cs[1..];
    forall i | 0 <= i < |t| - 1
      ensures fat[t[i]] == Link(t[i + 1])
    {
      assert fat[cs[i + 1]] == Link(cs[i + 1 + 1]);
    }
  }

  lemma {:induction false} SuffixIsChain(fat: seq<u32>, n: nat, cs: seq<nat>, k: nat)
    requires IsChain(fat, n, cs) && k < |cs|
    ensures IsChain(fat, n, cs[k..])
  {
    if k == 0 {
      assert cs[0..] == cs;
    } else {
      TailIsChain(fat, n, cs);
      SuffixIsChain(fat, n, cs[1..], k - 1);
      assert cs[1..][k - 1..] == cs[k..];
    }
  }

  /** Chains are acyclic. */
  lemma ChainNoDup(fat: seq<u32>, n: nat, cs: seq<nat>)
    requires IsChain(fat, n, cs)
    ensures NoDup(cs) && |cs| <= n
  {
    forall i, j | 0 <= i < j < |cs|
      ensures cs[i] != cs[j]
    {
      SuffixIsChain(fat, n, cs, i);
      SuffixIsChain(fat, n, cs, j);
      if cs[i] == cs[j] {
        ChainUnique(fat, n, cs[i..], cs[j..]);
      }
    }
    Pigeonhole(cs, n);
  }

  ghost predicate Disjoint(cs: seq<nat>, ds: seq<nat>) {
    forall i, j :: 0 <= i < |cs| && 0 <= j < |ds| ==> cs[i] != ds[j]
  }

  /** A chain only ever visits allocated clusters. */
  lemma ChainAllocated(fat: seq<u32>, n: nat, cs: seq<nat>, i: nat)
    requires IsChain(fat, n, cs) && i < |cs|
    ensures !Free(fat[cs[i]])
  {
    assert i < |cs| - 1 ==> fat[cs[i]] == Link(cs[i + 1]);
  }

  /** The FAT after a cluster `added` is hooked behind the last cluster of a chain. */
  function Appended(fat: seq<u32>, last: nat, added: nat): seq<u32>
    requires last < |fat| && added < |fat| < 0x7FFF_FFFF
  {
    fat[last := Link(added)][added := END]
  }

  lemma AppendExtends(fat: seq<u32>, n: nat, cs: seq<nat>, added: nat)
    requires IsChain(fat, n, cs) && added < n && Free(fat[added])
    ensures IsChain(Appended(fat, cs[|cs| - 1], added), n, cs + [added])
    ensures added !in cs
  {
    ChainNoDup(fat, n, cs);
    var last := |cs| - 1;
    forall i | 0 <= i < |cs|
      ensures cs[i] != added
    {
      ChainAllocated(fat, n, cs, i);
    }
    var fat', ds := Appended(fat, cs[last], added), cs + [added];
    forall i | 0 <= i < |ds| - 1
      ensures fat'[ds[i]] == Link(ds[i + 1])
    {
      if i < last {
        assert fat[cs[i]] == Link(cs[i + 1]);
      }
    }
  }

  lemma AppendKeepsOthers(fat: seq<u32>, n: nat, cs: seq<nat>, added: nat, ds: seq<nat>)
    requires IsChain(fat, n, cs) && IsChain(fat, n, ds) && Disjoint(cs, ds)
    requires added < n && Free(fat[added])
    ensures IsChain(Appended(fat, cs[|cs| - 1], added), n, ds)
    ensures Disjoint(cs + [added], ds)
  {
    var last := |cs| - 1;
    forall j | 0 <= j < |ds|
      ensures ds[j] != added && ds[j] != cs[last]
    {
      ChainAllocated(fat, n, ds, j);
    }
    var fat' := Appended(fat, cs[last], added);
    forall j | 0 <= j < |ds| - 1
      ensures fat'[ds[j]] == Link(ds[j + 1])
    {
      assert fat[ds[j]] == Link(ds[j + 1]);
    }
  }

  /** The first entry with the top bit clear, or the size of the FAT. */
  function FirstFree(fat: seq<u32>): (i: nat)
    ensures i <= |fat| && (i < |fat| ==> Free(fat[i]))
    ensures forall k :: 0 <= k < i ==> !Free(fat[k])
  {
    if fat == [] || Free(fat[0]) then 0 else 1 + FirstFree(fat[1..])
  }
}
