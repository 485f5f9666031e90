/** What creating files, and closing written ones, does to directory listings. */
module FatListing {
  import opened Bytes
  import opened FatDisk
  import opened Chains
  import opened FatFile
  import opened FatDir
  import opened DirTheory
  import opened FatCreate

  /** A directory depends only on its own clusters. */
  lemma DirFrame(data: seq<seq<u8>>, data': seq<seq<u8>>, path: seq<nat>)
    requires InData(data, path) && InData(data', path)
    requires forall i :: 0 <= i < |path| ==> data'[path[i]] == data[path[i]]
    ensures ScanChain(data', path, |path|) == ScanChain(data, path, |path|)
    ensures DirOk(data', path) <==> DirOk(data, path)
  {
    forall n: nat | n <= |path|
      ensures ScanChain(data', path, n) == ScanChain(data, path, n)
    {
      ScanChainFrame(data, data', path, path, n);
    }
    forall m: nat, s: nat
      ensures PairAt(data', path, m, s) <==> PairAt(data, path, m, s)
      ensures PairAt(data, path, m, s) ==> (QuietFrom(data', path, m, s) <==> QuietFrom(data, path, m, s))
      ensures PairAt(data, path, m, s) ==> ScanTo(data', path, m, s) == ScanTo(data, path, m, s)
    {
    }
  }

  /** A zeroed cluster behind a full directory lists nothing more and is in order. */
  lemma ZeroClusterKeepsOrder(data: seq<seq<u8>>, path: seq<nat>, c: nat, clsz: nat)
    requires InData(data, path) && 2 <= c < |data| && c !in path
    requires DirOk(data, path) && !HasPair(data, path)
    ensures var data', path' := data[c := Zeros(clsz)], path + [c];
      && ScanChain(data', path', |path'|) == ScanChain(data, path, |path|)
      && DirOk(data', path')
  {
    hide ScanChain;
    var data', path', n := data[c := Zeros(clsz)], path + [c], |path|;
    ScanChainFrame(data, data', path, path', n);
    assert QuietFrom(data', path', n, 0);
    var end := ScanChain(data', path', n);
    ScanNone(end, data'[c], c);
    QuietChain(data', path', n, 0, n + 1);
    forall m: nat, s: nat | PairAt(data', path', m, s)
      ensures QuietFrom(data', path', m, s) && !ScanTo(data', path', m, s).fld
    {
      var earlier := PairAt(data, path, m, s);
      assert m < n ==> earlier;
      assert m == n;
      QuietScan(end, data'[c], c, 0, s);
    }
  }

  /** A fresh zeroed directory lists nothing and is in order. */
  lemma ZeroDirectory(data: seq<seq<u8>>, c: nat, clsz: nat)
    requires c < |data| && data[c] == Zeros(clsz)
    ensures ScanChain(data, [c], 1) == Scan([], false)
    ensures DirOk(data, [c])
  {
    var start := ScanChain(data, [c], 0);
    ScanNone(start, data[c], c);
    forall s: nat | 32 * s <= clsz
      ensures ScanSlots(start, data[c], c, s) == start
    {
      QuietScan(start, data[c], c, 0, s);
    }
    assert ScanChain(data, [c], 1) == ScanSlots(start, data[c], c, clsz / 32);
  }

  /** The listing of directory h is the old one followed by the new entry. */
  ghost predicate ListedLast(v: Volume, v': Volume, h: nat, e: Entry)
    requires v.Ok() && v'.Ok() && h in v.files && h in v'.files
  {
    DirList(v', h) == DirList(v, h) + [e] && DirOk(v'.data, v'.files[h])
  }

  /** Directory h of the volume is in order. */
  ghost predicate Orderly(v: Volume, h: nat)
    requires v.Ok()
  {
    h in v.files && InData(v.data, v.files[h]) && DirOk(v.data, v.files[h])
  }

  /** Preparing the cluster changes no listing. */
  lemma PreparedListing(v: Volume, h: nat, cl: u32)
    requires Indexed(v, h) && cl < |v.data| <= |v.fat| && Last(v.files[h]) < |v.fat|
    requires DirOk(v.data, v.files[h])
    requires cl !in v.files[h] ==> !HasPair(v.data, v.files[h]) && IsFree(v.fat, cl)
    ensures var v1 := Prepared(v, h, cl);
      && Indexed(v1, h)
      && ScanChain(v1.data, v1.files[h], |v1.files[h]|) == ScanChain(v.data, v.files[h], |v.files[h]|)
      && DirOk(v1.data, v1.files[h])
  {
    hide ScanChain, DirOk;
    if cl !in v.files[h] {
      PreparedOffers(v, h, cl);
      ZeroClusterKeepsOrder(v.data, v.files[h], cl, v.clsz);
    }
  }

  lemma NewChainIsFresh(v1: Volume, fcl: nat)
    requires v1.Ok() && IsFree(v1.fat, fcl)
    ensures fcl !in v1.files && forall k :: k in v1.files ==> fcl !in v1.files[k]
  {
    forall k | k in v1.files
      ensures fcl !in v1.files[k] && k != fcl
    {
      FreeIsUnowned(v1.fat, |v1.data|, v1.files[k], fcl);
      assert v1.files[k][0] == k;
    }
  }

  lemma EntryPutListing(v1: Volume, v': Volume, h: nat, m: nat, s: nat, fn: seq<u8>, tp: u32, fcl: u32)
    requires Indexed(v1, h) && v'.Ok() && EntryPut(v1, v', h, m, s, fn, tp, fcl)
    requires DirOk(v1.data, v1.files[h]) && forall k :: 0 <= k < |fn| ==> fn[k] != 0
    ensures h in v'.files && v'.files[h] == v1.files[h]
    ensures ListedLast(v1, v', h, NewEntry(fn, tp, fcl, v1.files[h][m], s))
  {
    hide ScanChain, DirOk, NewEntry, NoPairBefore;
    var path := v1.files[h];
    var data := DataWith(v1.data, path, m, s, fn, tp, fcl);
    NewChainIsFresh(v1, fcl);
    ChainIsAcyclic(v1.fat, |v1.data|, path);
    EntryAdded(v1.data, path, m, s, fn, tp, fcl);
    EntryKeepsOrder(v1.data, path, m, s, fn, tp, fcl);
    DirFrame(data, v'.data, path);
  }

  lemma EntryPutChain(v1: Volume, v': Volume, h: nat, m: nat, s: nat, fn: seq<u8>, tp: u32, fcl: u32)
    requires Indexed(v1, h) && v'.Ok() && EntryPut(v1, v', h, m, s, fn, tp, fcl)
    ensures v'.files[fcl] == [fcl] && v'.Contents(fcl) == Zeros(v1.clsz)
    ensures DirList(v', fcl) == [] && DirOk(v'.data, v'.files[fcl])
  {
    hide ScanChain, DirOk, NoPairBefore, PairAt, DataWith;
    ZeroDirectory(v'.data, fcl, v1.clsz);
    assert [fcl][..0] == [];
    assert Flat(v'.data, [fcl]) == Flat(v'.data, []) + v'.data[fcl];
  }

  lemma OtherChainKept(v1: Volume, v': Volume, h: nat, k: nat, m: nat, s: nat, fn: seq<u8>, tp: u32, fcl: u32)
    requires Indexed(v1, h) && v'.Ok() && EntryPut(v1, v', h, m, s, fn, tp, fcl)
    requires k in v1.files && k != h
    ensures k in v'.files && v'.files[k] == v1.files[k]
    ensures v'.Contents(k) == v1.Contents(k) && DirList(v', k) == DirList(v1, k) && (Orderly(v', k) <==> Orderly(v1, k))
  {
    hide ScanChain, DirOk, NoPairBefore, WithEntry;
    NewChainIsFresh(v1, fcl);
    assert Disjoint(v1.files[h], v1.files[k]) && v1.files[h][m] in v1.files[h];
    FlatFrame(v1.data, v'.data, v1.files[k]);
    DirFrame(v1.data, v'.data, v1.files[k]);
  }

  lemma OtherChainPrepared(v: Volume, h: nat, k: nat, cl: u32)
    requires Indexed(v, h) && cl < |v.data| <= |v.fat| && Last(v.files[h]) < |v.fat|
    requires cl !in v.files[h] ==> IsFree(v.fat, cl)
    requires k in v.files && k != h
    ensures var v1 := Prepared(v, h, cl);
      Indexed(v1, h) ==>
        && k in v1.files && v1.files[k] == v.files[k]
        && v1.Contents(k) == v.Contents(k) && DirList(v1, k) == DirList(v, k) && (Orderly(v1, k) <==> Orderly(v, k))
  {
    hide ScanChain, DirOk;
    var v1 := Prepared(v, h, cl);
    if cl !in v.files[h] && Indexed(v1, h) {
      FreeIsUnowned(v.fat, |v.data|, v.files[k], cl);
      FlatFrame(v.data, v1.data, v.files[k]);
      DirFrame(v.data, v1.data, v.files[k]);
    }
  }

  /**
   Creating a file or directory in an orderly directory: it is listed last, under the first twelve
   characters of its name, with its type, its first cluster and size 10; the directory stays orderly; the
   new chain is one zeroed cluster that no chain held; every other chain is what it was, and
   every other directory that was in order still is.
   */
  lemma CreatedIsListed(v: Volume, v': Volume, h: nat, fn: seq<u8>, tp: u32, cl: u32, i: nat, fcl: u32)
    requires AddEffect(v, v', h, fn, tp, cl, i, fcl)
    requires DirOk(v.data, v.files[h]) && forall k :: 0 <= k < |fn| ==> fn[k] != 0
    ensures h in v'.files && v.files[h] <= v'.files[h]
    ensures ListedLast(v, v', h, NewEntry(fn, tp, fcl, cl, i / 32))
    ensures fcl !in v.files && v'.files.Keys == v.files.Keys + {fcl}
    ensures v'.Contents(fcl) == Zeros(v.clsz) && DirList(v', fcl) == [] && DirOk(v'.data, v'.files[fcl])
    ensures forall k :: k in v.files && k != h ==>
      && v'.files[k] == v.files[k] && v'.Contents(k) == v.Contents(k)
      && DirList(v', k) == DirList(v, k) && (Orderly(v', k) <==> Orderly(v, k))
  {
    hide ScanChain, DirOk, NewEntry, EntryPut, Flat, Chained, IsFree, HasPair, Orderly;
    var v1 := Prepared(v, h, cl);
    PreparedListing(v, h, cl);
    var m: nat :| m < |v1.files[h]| && v1.files[h][m] == cl && EntryPut(v1, v', h, m, i / 32, fn, tp, fcl);
    assert IsFree(v1.fat, fcl) && v'.files == v1.files[fcl := [fcl]] by { EntryPutParts(v1, v', h, m, i / 32, fn, tp, fcl); }
    NewChainIsFresh(v1, fcl);
    EntryPutListing(v1, v', h, m, i / 32, fn, tp, fcl);
    EntryPutChain(v1, v', h, m, i / 32, fn, tp, fcl);
    forall k | k in v.files && k != h
      ensures v'.files[k] == v.files[k] && v'.Contents(k) == v.Contents(k) && DirList(v', k) == DirList(v, k)
      ensures Orderly(v', k) <==> Orderly(v, k)
    {
      OtherChainPrepared(v, h, k, cl);
      OtherChainKept(v1, v', h, k, m, i / 32, fn, tp, fcl);
    }
  }

  lemma EntryPutParts(v1: Volume, v': Volume, h: nat, m: nat, s: nat, fn: seq<u8>, tp: u32, fcl: u32)
    requires Indexed(v1, h) && EntryPut(v1, v', h, m, s, fn, tp, fcl)
    ensures IsFree(v1.fat, fcl) && v'.files == v1.files[fcl := [fcl]]
  {
  }
}
