/**
 Cluster chains as values: the FAT is a sequence of entries, a chain is the path of clusters that its
 links spell out, and the contents of a chain are its clusters laid end to end.
 */
module Chains {
  import opened Bytes
  import opened FatDisk

  /** path follows the links of the FAT from its first cluster to an end mark. */
  ghost predicate IsChain(fat: seq<u32>, limit: nat, path: seq<nat>) {
    && path != []
    && (forall i :: 0 <= i < |path| ==> 2 <= path[i] < limit <= |fat|)
    && (forall i :: 0 <= i < |path| - 1 ==> fat[path[i]] == path[i + 1])
    && fat[path[|path| - 1]] >= EOC
  }

  /**
   A chain as the FAT Specification has it (section 4): an entry is its low 28 bits, each names the next cluster, and the
   last lies in the end range, from 0x0FFFFFF8 to 0x0FFFFFFF.
   */
  ghost predicate SpecChain(fat: seq<u32>, limit: nat, path: seq<nat>) {
    && path != []
    && (forall i :: 0 <= i < |path| ==> 2 <= path[i] < limit <= |fat|)
    && (forall i :: 0 <= i < |path| - 1 ==> fat[path[i]] % 0x1000_0000 == path[i + 1])
    && 0x0fff_fff8 <= fat[path[|path| - 1]] % 0x1000_0000 <= 0x0fff_ffff
  }

  /** The top four bits of every entry are zero. */
  ghost predicate TopClear(fat: seq<u32>) {
    forall e :: 0 <= e < |fat| ==> fat[e] < 0x1000_0000
  }

  /**
   What the driver takes for a chain, against the Specification. It compares whole entries, so it sees a chain of the
   volume if and only if the entries before the last have their top bits clear; what it sees is a chain of the volume if
   and only if the last entry's low 28 bits are in the end range. With all top bits clear the two are the same.
   */
  lemma SpecChainIsChain(fat: seq<u32>, limit: nat, path: seq<nat>)
    requires limit <= 0x0fff_fff8
    ensures SpecChain(fat, limit, path) ==>
      (IsChain(fat, limit, path) <==> forall i :: 0 <= i < |path| - 1 ==> fat[path[i]] < 0x1000_0000)
    ensures IsChain(fat, limit, path) ==>
      (SpecChain(fat, limit, path) <==> 0x0fff_fff8 <= fat[path[|path| - 1]] % 0x1000_0000)
    ensures TopClear(fat) ==> (IsChain(fat, limit, path) <==> SpecChain(fat, limit, path))
  {
    if SpecChain(fat, limit, path) && IsChain(fat, limit, path) {
      forall i | 0 <= i < |path| - 1
        ensures fat[path[i]] < 0x1000_0000
      {
        assert fat[path[i]] == path[i + 1];
      }
    }
  }

  /** Every entry is what it was, or names a cluster of the volume, or is an end mark of the Specification. */
  ghost predicate Relinked(fat: seq<u32>, fat': seq<u32>, limit: nat) {
    && |fat'| == |fat|
    && forall e :: 0 <= e < |fat| ==> fat'[e] == fat[e] || fat'[e] < limit || 0x0fff_fff8 <= fat'[e] <= 0x0fff_ffff
  }

  lemma RelinkedTrans(fat: seq<u32>, fat1: seq<u32>, fat2: seq<u32>, limit: nat)
    requires Relinked(fat, fat1, limit) && Relinked(fat1, fat2, limit)
    ensures Relinked(fat, fat2, limit)
  {
  }

  /** What the driver writes into a FAT are cluster numbers and end marks of the Specification. */
  lemma LinkedIsRelinked(fat: seq<u32>, last: nat, n: u32, limit: nat)
    requires last < |fat| && n < |fat| && n < limit
    ensures Relinked(fat, Linked(fat, last, n), limit) && Relinked(fat, fat[n := EOC], limit)
  {
  }

  /** Then every chain of the driver is one of the Specification, if the top bits were clear before. */
  lemma RelinkedKeepsFormat(v: Volume, v': Volume)
    requires v.Ok() && v'.Ok() && |v'.data| == |v.data| && TopClear(v.fat) && Relinked(v.fat, v'.fat, |v.data|)
    ensures TopClear(v'.fat) && AllSpec(v')
  {
    AllAreSpec(v');
  }

  /** Every chain of the volume is one of the Specification. */
  ghost predicate AllSpec(v: Volume) {
    forall k :: k in v.files ==> SpecChain(v.fat, |v.data|, v.files[k])
  }

  lemma AllAreSpec(v: Volume)
    requires v.Ok() && TopClear(v.fat)
    ensures AllSpec(v)
  {
    forall k | k in v.files
      ensures SpecChain(v.fat, |v.data|, v.files[k])
    {
      SpecChainIsChain(v.fat, |v.data|, v.files[k]);
    }
  }

  ghost predicate Disjoint(p: seq<nat>, q: seq<nat>) {
    forall c :: c in p ==> c !in q
  }

  /** Two positions of chains that hold the same cluster are followed by the same clusters. */
  lemma {:induction false} ChainsMerge(fat: seq<u32>, limit: nat, p: seq<nat>, i: nat, q: seq<nat>, j: nat)
    requires IsChain(fat, limit, p) && IsChain(fat, limit, q) && limit <= EOC
    requires i < |p| && j < |q| && p[i] == q[j]
    ensures p[i..] == q[j..]
    decreases |p| - i
  {
    if i + 1 < |p| { assert fat[p[i]] == p[i + 1]; }
    if j + 1 < |q| { assert fat[q[j]] == q[j + 1]; }
    if i + 1 < |p| && j + 1 < |q| {
      ChainsMerge(fat, limit, p, i + 1, q, j + 1);
      assert p[i..] == [p[i]] + p[i + 1..] && q[j..] == [q[j]] + q[j + 1..];
    }
  }

  /** A chain never visits a cluster twice. */
  lemma ChainIsAcyclic(fat: seq<u32>, limit: nat, path: seq<nat>)
    requires IsChain(fat, limit, path) && limit <= EOC
    ensures forall i, j :: 0 <= i < j < |path| ==> path[i] != path[j]
  {
    forall i, j | 0 <= i < j < |path|
      ensures path[i] != path[j]
    {
      if path[i] == path[j] {
        ChainsMerge(fat, limit, path, i, path, j);
        assert false;
      }
    }
  }

  /** The first cluster determines the chain. */
  lemma ChainIsUnique(fat: seq<u32>, limit: nat, p: seq<nat>, q: seq<nat>)
    requires IsChain(fat, limit, p) && IsChain(fat, limit, q) && limit <= EOC && p[0] == q[0]
    ensures p == q
  {
    ChainsMerge(fat, limit, p, 0, q, 0);
    assert p[0..] == p && q[0..] == q;
  }

  /** Every file and directory, named by its first cluster, owns a chain, and no two chains meet. */
  ghost predicate Chained(fat: seq<u32>, limit: nat, files: map<nat, seq<nat>>) {
    && (forall h :: h in files ==> IsChain(fat, limit, files[h]) && files[h][0] == h)
    && (forall h, k :: h in files && k in files && h != k ==> Disjoint(files[h], files[k]))
  }

  /** Linking a free cluster behind the last one of chain h: the FAT, entry by entry. */
  function Linked(fat: seq<u32>, last: nat, n: u32): (r: seq<u32>)
    requires last < |fat| && n < |fat|
    ensures |r| == |fat|
  {
    fat[last := n][n := EOC]
  }

  /** No chain holds a free cluster. */
  lemma FreeIsUnowned(fat: seq<u32>, limit: nat, path: seq<nat>, n: nat)
    requires IsChain(fat, limit, path) && IsFree(fat, n)
    ensures n !in path
  {
    forall i | 0 <= i < |path|
      ensures path[i] != n
    {
      if i < |path| - 1 { assert fat[path[i]] == path[i + 1]; }
    }
  }

  /** A chain with a cluster linked behind its last one is a chain if it did not hold that cluster. */
  lemma LongerIsChain(fat: seq<u32>, limit: nat, path: seq<nat>, n: nat)
    requires IsChain(fat, limit, path) && limit <= EOC && 2 <= n < limit && n !in path
    ensures IsChain(Linked(fat, path[|path| - 1], n), limit, path + [n])
  {
    var path', fat' := path + [n], Linked(fat, path[|path| - 1], n);
    ChainIsAcyclic(fat, limit, path);
    forall i | 0 <= i < |path|
      ensures fat'[path'[i]] == path'[i + 1]
    {
    }
  }

  /** A chain is not affected by entries of clusters it does not hold. */
  lemma OtherIsChain(fat: seq<u32>, limit: nat, path: seq<nat>, last: nat, n: nat)
    requires IsChain(fat, limit, path) && last < |fat| && n < |fat| && n <= 0xffff_ffff && n !in path && last !in path
    ensures IsChain(Linked(fat, last, n), limit, path)
  {
    var fat' := Linked(fat, last, n);
    forall i | 0 <= i < |path|
      ensures fat'[path[i]] == fat[path[i]]
    {
    }
  }

  lemma LongerIsDisjoint(files: map<nat, seq<nat>>, h: nat, n: nat)
    requires h in files && forall k :: k in files ==> n !in files[k]
    requires forall i, j :: i in files && j in files && i != j ==> Disjoint(files[i], files[j])
    ensures var files' := files[h := files[h] + [n]];
      forall i, j :: i in files' && j in files' && i != j ==> Disjoint(files'[i], files'[j])
  {
    var files' := files[h := files[h] + [n]];
    forall i, j | i in files' && j in files' && i != j
      ensures Disjoint(files'[i], files'[j])
    {
      assert Disjoint(files[i], files[j]);
    }
  }

  /** Extending one chain by a cluster that no chain holds keeps every chain a chain, and all of them disjoint. */
  lemma UnownedKeepsChained(fat: seq<u32>, limit: nat, files: map<nat, seq<nat>>, h: nat, n: nat)
    requires Chained(fat, limit, files) && limit <= EOC && h in files && 2 <= n < limit <= |fat|
    requires forall k :: k in files ==> n !in files[k]
    ensures Chained(Linked(fat, files[h][|files[h]| - 1], n), limit, files[h := files[h] + [n]])
  {
    hide IsChain, Linked;
    HasLast(fat, limit, files[h]);
    var last := files[h][|files[h]| - 1];
    var fat', files' := Linked(fat, last, n), files[h := files[h] + [n]];
    LongerIsChain(fat, limit, files[h], n);
    LongerIsDisjoint(files, h, n);
    forall k | k in files'
      ensures files'[k] != [] && files'[k][0] == k && IsChain(fat', limit, files'[k])
    {
      HasLast(fat, limit, files[k]);
      if k != h {
        assert Disjoint(files[h], files[k]);
        OtherIsChain(fat, limit, files[k], last, n);
      }
    }
  }

  lemma HasLast(fat: seq<u32>, limit: nat, path: seq<nat>)
    requires IsChain(fat, limit, path)
    ensures path != [] && path[|path| - 1] < |fat|
  {
  }

  lemma RepeatIsNoChain(fat: seq<u32>, limit: nat, path: seq<nat>, i: nat, j: nat)
    requires i < j < |path| && path[i] == path[j] && limit <= EOC
    ensures !IsChain(fat, limit, path)
  {
    if IsChain(fat, limit, path) {
      ChainIsAcyclic(fat, limit, path);
    }
  }

  lemma OwnedBreaks(fat: seq<u32>, limit: nat, files: map<nat, seq<nat>>, h: nat, k: nat, n: nat)
    requires Chained(fat, limit, files) && limit <= EOC && h in files && 2 <= n < limit <= |fat|
    requires k in files && n in files[k]
    ensures !Chained(Linked(fat, files[h][|files[h]| - 1], n), limit, files[h := files[h] + [n]])
  {
    var fat', path' := Linked(fat, files[h][|files[h]| - 1], n), files[h] + [n];
    var files' := files[h := path'];
    assert n in path';
    if k == h {
      var i :| 0 <= i < |files[h]| && files[h][i] == n;
      RepeatIsNoChain(fat', limit, path', i, |files[h]|);
    }
    assert k != h ==> files'[k] == files[k] && !Disjoint(files'[h], files'[k]);
  }

  /**
   Exactly what linking cluster n behind chain h does to the volume: the chains stay chains and disjoint if and only if
   no chain held n.
   */
  lemma ExtendKeepsChainedExactly(fat: seq<u32>, limit: nat, files: map<nat, seq<nat>>, h: nat, n: nat)
    requires Chained(fat, limit, files) && limit <= EOC && h in files && 2 <= n < limit <= |fat|
    ensures Chained(Linked(fat, files[h][|files[h]| - 1], n), limit, files[h := files[h] + [n]]) <==>
            forall k :: k in files ==> n !in files[k]
  {
    hide IsChain, Linked;
    HasLast(fat, limit, files[h]);
    if forall k :: k in files ==> n !in files[k] {
      UnownedKeepsChained(fat, limit, files, h, n);
    } else {
      var k :| k in files && n in files[k];
      OwnedBreaks(fat, limit, files, h, k, n);
    }
  }

  /** Extending one chain by a free cluster keeps every chain a chain, and all of them disjoint. */
  lemma ExtendKeepsChained(fat: seq<u32>, limit: nat, files: map<nat, seq<nat>>, h: nat, n: nat)
    requires Chained(fat, limit, files) && limit <= EOC && h in files
    requires IsFree(fat, n) && n < limit <= |fat|
    ensures Chained(Linked(fat, files[h][|files[h]| - 1], n), limit, files[h := files[h] + [n]])
  {
    hide IsChain, Linked;
    forall k | k in files
      ensures n !in files[k]
    {
      FreeIsUnowned(fat, limit, files[k], n);
    }
    UnownedKeepsChained(fat, limit, files, h, n);
  }

  /** Marking a free cluster as an end starts a new one-cluster chain. */
  lemma NewKeepsChained(fat: seq<u32>, limit: nat, files: map<nat, seq<nat>>, n: nat)
    requires Chained(fat, limit, files)
    requires IsFree(fat, n) && n < limit <= |fat|
    ensures n !in files && Chained(fat[n := EOC], limit, files[n := [n]])
  {
    var fat', files' := fat[n := EOC], files[n := [n]];
    forall k | k in files
      ensures n !in files[k] && IsChain(fat', limit, files[k])
    {
      FreeIsUnowned(fat, limit, files[k], n);
    }
    forall i, j | i in files' && j in files' && i != j
      ensures Disjoint(files'[i], files'[j])
    {
    }
  }

  /** The clusters of a path, laid end to end. */
  ghost function Flat(data: seq<seq<u8>>, path: seq<nat>): (bytes: seq<u8>)
    requires forall i :: 0 <= i < |path| ==> path[i] < |data|
    decreases |path|
  {
    if path == [] then [] else Flat(data, path[..|path| - 1]) + data[path[|path| - 1]]
  }

  /** The contents of a path's first j clusters are a prefix of the contents of the path. */
  lemma {:induction false} FlatPrefix(data: seq<seq<u8>>, path: seq<nat>, j: nat)
    requires forall i :: 0 <= i < |path| ==> path[i] < |data|
    requires j <= |path|
    ensures Flat(data, path[..j]) <= Flat(data, path)
    decreases |path|
  {
    if j < |path| {
      FlatPrefix(data, path[..|path| - 1], j);
      assert path[..|path| - 1][..j] == path[..j];
    } else {
      assert path[..j] == path;
    }
  }

  lemma {:induction false} FlatStep(data: seq<seq<u8>>, path: seq<nat>, j: nat)
    requires forall i :: 0 <= i < |path| ==> path[i] < |data|
    requires j < |path|
    ensures Flat(data, path[..j + 1]) == Flat(data, path[..j]) + data[path[j]]
    ensures Flat(data, path[..j]) + data[path[j]] <= Flat(data, path)
  {
    var front := path[..j + 1];
    assert front[..|front| - 1] == path[..j];
    FlatPrefix(data, path, j + 1);
  }

  /** Contents depend only on the clusters of the path. */
  lemma {:induction false} FlatFrame(data: seq<seq<u8>>, data': seq<seq<u8>>, path: seq<nat>)
    requires |data'| == |data| && forall i :: 0 <= i < |path| ==> path[i] < |data|
    requires forall i :: 0 <= i < |path| ==> data'[path[i]] == data[path[i]]
    ensures Flat(data', path) == Flat(data, path)
    decreases |path|
  {
    if path != [] {
      FlatFrame(data, data', path[..|path| - 1]);
    }
  }

  lemma {:induction false} FlatLength(data: seq<seq<u8>>, path: seq<nat>, clsz: nat)
    requires forall i :: 0 <= i < |path| ==> path[i] < |data| && |data[path[i]]| == clsz
    ensures |Flat(data, path)| == |path| * clsz
    decreases |path|
  {
    if path != [] {
      FlatLength(data, path[..|path| - 1], clsz);
      assert |path| * clsz == (|path| - 1) * clsz + clsz;
    }
  }

  /** All of a volume that its users can tell: the FAT, the clusters, and the chains by first cluster. */
  datatype Volume = Volume(fat: seq<u32>, data: seq<seq<u8>>, files: map<nat, seq<nat>>, clsz: nat) {
    ghost predicate Ok() {
      && 0 < clsz && clsz % 64 == 0 && |data| <= EOC
      && Chained(fat, |data|, files)
      && forall c :: 2 <= c < |data| ==> |data[c]| == clsz
    }

    ghost function Contents(h: nat): seq<u8>
      requires Ok() && h in files
    {
      Flat(data, files[h])
    }

    /** The bytes of file h: those of its chain, or none if it has no chain. */
    ghost function Stored(h: nat): seq<u8>
      requires Ok()
    {
      if h in files then Contents(h) else []
    }
  }

  /** Of the chains other than h, none changed, and only one that holds cluster dir may have other contents. */
  ghost predicate OthersKept(v: Volume, v': Volume, h: nat, dir: nat)
    requires v.Ok() && v'.Ok()
  {
    && v'.files.Keys == v.files.Keys
    && forall k :: k in v.files && k != h ==>
         v'.files[k] == v.files[k] && (dir !in v.files[k] ==> v'.Contents(k) == v.Contents(k))
  }

  /** If only clusters of chain h and cluster dir changed, the other chains kept their contents. */
  lemma FrameKeepsOthers(v: Volume, v': Volume, h: nat, dir: nat)
    requires v.Ok() && v'.Ok() && h in v.files && v'.files.Keys == v.files.Keys && |v'.data| == |v.data|
    requires forall k :: k in v.files && k != h ==> v'.files[k] == v.files[k]
    requires forall c :: 0 <= c < |v.data| && c !in v'.files[h] && c != dir ==> v'.data[c] == v.data[c]
    ensures OthersKept(v, v', h, dir)
  {
    forall k | k in v.files && k != h && dir !in v.files[k]
      ensures v'.Contents(k) == v.Contents(k)
    {
      assert Disjoint(v'.files[k], v'.files[h]);
      FlatFrame(v.data, v'.data, v.files[k]);
    }
  }
}
