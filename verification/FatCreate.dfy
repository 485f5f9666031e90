/** Creating a file: a directory entry is added on disk and a zeroed first cluster is given to it. */
module FatCreate {
  import opened Bytes
  import opened FatDisk
  import opened Chains
  import opened FsTypes
  import opened FatFile
  import opened FatDir
  import opened DirTheory

  ghost predicate HasPair(data: seq<seq<u8>>, path: seq<nat>)
    requires InData(data, path)
  {
    exists m: nat, s: nat :: PairAt(data, path, m, s)
  }

  /** Find the first two unused slots of directory h. At the end of the chain cl is an end mark and pcl the last cluster. */
  method FindSlots(fs: FatFs, h: nat, buf: array<u8>) returns (cl: u32, i: nat, pcl: nat, ghost m: nat)
    requires fs.Valid() && h in fs.files && fs.Outside(buf) && buf.Length == fs.dev.g.Clsz()
    modifies fs.dev, fs.dev.cbuf, buf
    ensures fs.Valid()
    ensures var data, path := fs.dev.Data(), fs.files[h];
      && InData(data, path)
      && (cl < EOC ==>
            && m < |path| && cl == path[m] && i % 32 == 0 && buf[..] == data[cl]
            && PairAt(data, path, m, i / 32) && NoPairBefore(data, path, m, i / 32))
      && (cl >= EOC ==> i == 0 && pcl == Last(path) && !HasPair(data, path))
  {
    hide Fat.Valid, Fat.Coherent, Fat.Mirrored, FatOf, DataOf, CopyOf, Flat, Chained, IsChain, Geometry.Clsz, Geometry.Valid;
    hide Fat.OnDisk, Geometry.Lba, Geometry.ClusterLba, Geometry.CopyLba, Geometry.Stc, Geometry.Size, Fat.Copy, NoPairBefore;
    var clsz := fs.dev.g.Clsz();
    ghost var data, path, s, n := fs.dev.Data(), fs.files[h], 0, clsz / 32;
    WholeSlots(fs, h);
    assert NoPairBefore(data, path, 0, 0) by { NoPairStart(data, path); }
    m := 0;
    cl := h;
    fs.dev.ReadCluster(cl, buf);
    i := 0;
    pcl := cl;
    while cl < EOC
      invariant fs.Valid() && m < |path| && cl == path[m] && buf[..] == data[cl]
      invariant s <= n && i == 32 * s
      invariant NoPairBefore(data, path, m, s)
      decreases |path| - m, n - s
    {
      NoPairStep(data, path, m, s);
      if i >= clsz {
        pcl := cl;
        cl := NextCluster(fs, cl, buf, h, m);
        i := 0;
        if cl >= EOC {
          break;
        }
        m, s := m + 1, 0;
        NoPairStep(data, path, m, s);
      }
      if i + 64 <= clsz && buf[i] == 0 && buf[i + 32] == 0 {
        break;
      }
      i, s := i + 32, s + 1;
    }
  }

  /** Position of the first dot of a name, or its length if there is none. */
  method FindDot(fn: seq<u8>) returns (d: nat)
    ensures d == DotAt(fn)
  {
    d := 0;
    while d < |fn| && fn[d] != '.' as u8
      invariant d <= |fn| && DotAt(fn) == d + DotAt(fn[d..])
    {
      d := d + 1;
    }
  }

  /** Write the short name at a: the extension, if there is a dot, then the first eight characters before it. */
  method PutShortName(buf: array<u8>, a: nat, fn: seq<u8>)
    requires a + 32 <= buf.Length
    modifies buf
    ensures buf[..] == Splice(old(buf[..]), a, ShortName(old(buf[a..a + 32]), fn))
  {
    ghost var prev := buf[a..a + 32];
    ghost var name := ShortName(prev, fn);
    var d := FindDot(fn);
    if d < |fn| {
      for j := 0 to 3
        invariant forall k :: 0 <= k < buf.Length ==>
          buf[k] == if a + 8 <= k < a + 8 + j then name[k - a] else old(buf[k])
      {
        buf[a + 8 + j] := if d + 1 + j < |fn| then fn[d + 1 + j] else ' ' as u8;
      }
    }
    assert forall k :: 8 <= k < 11 ==> buf[a + k] == name[k];
    for j := 0 to 8
      invariant forall k :: 0 <= k < buf.Length ==>
        buf[k] == if a <= k < a + j || a + 8 <= k < a + 11 then name[k - a] else old(buf[k])
    {
      buf[a + j] := if j < d then fn[j] else ' ' as u8;
    }
  }

  /** The name in two-byte characters: its own, an end mark, and padding. */
  method WidenName(ntmp: array<u8>, fn: seq<u8>)
    requires ntmp.Length == 26
    modifies ntmp
    ensures ntmp[..] == WideName(fn)
  {
    ghost var w, n := WideName(fn), Min(NAME_MAX, |fn|);
    var j := 0;
    while j < 12 && j < |fn|
      invariant j <= n && forall k :: 0 <= k < 2 * j ==> ntmp[k] == w[k]
    {
      ntmp[2 * j], ntmp[2 * j + 1] := fn[j], 0;
      j := j + 1;
    }
    ntmp[2 * j], ntmp[2 * j + 1] := 0, 0;
    j := j + 1;
    while j < 13
      invariant n < j <= 13 && forall k :: 0 <= k < 2 * j ==> ntmp[k] == w[k]
    {
      ntmp[2 * j], ntmp[2 * j + 1] := 0xff, 0xff;
      j := j + 1;
    }
  }

  /** Write the name characters of a long slot at a. */
  method PutLongName(buf: array<u8>, a: nat, fn: seq<u8>)
    requires a + 32 <= buf.Length
    modifies buf
    ensures forall k :: 0 <= k < buf.Length ==> buf[k] == LongField(WideName(fn), a, 26, k, old(buf[k]))
  {
    hide WideName;
    var ntmp := new u8[26];
    WidenName(ntmp, fn);
    ghost var w := WideName(fn);
    for q := 0 to 26
      invariant ntmp[..] == w
      invariant forall k :: 0 <= k < buf.Length ==> buf[k] == LongField(w, a, q, k, old(buf[k]))
    {
      if q < 10 {
        buf[a + 1 + q] := ntmp[q];
      } else if q < 22 {
        buf[a + 14 + q - 10] := ntmp[q];
      } else {
        buf[a + 28 + q - 22] := ntmp[q];
      }
    }
  }

  /** Store the bytes t at a. */
  method PutBytes(buf: array<u8>, a: nat, t: seq<u8>)
    requires a + |t| <= buf.Length
    modifies buf
    ensures buf[..] == Splice(old(buf[..]), a, t)
  {
    forall k | 0 <= k < |t| {
      buf[a + k] := t[k];
    }
  }

  /** Fill in the rest of the two slots at i. */
  method PutAttributes(buf: array<u8>, i: nat, tp: u32, fcl: u32)
    requires i + 64 <= buf.Length
    modifies buf
    ensures buf[..] == Attributed(old(buf[..]), i, tp, fcl)
  {
    PutBytes(buf, i + 43, ShortTail(tp, fcl));
    PutBytes(buf, i, [0x41]);
    PutBytes(buf, i + 11, [ATTR_LFN, 0, 0]);
    PutBytes(buf, i + 26, [0, 0]);
  }

  /** The bytes b1 with the attributes of the two slots at i filled in. */
  function Attributed(b1: seq<u8>, i: nat, tp: u32, fcl: u32): (b2: seq<u8>)
    requires i + 64 <= |b1|
    ensures |b2| == |b1|
  {
    Splice(Splice(Splice(Splice(b1, i + 43, ShortTail(tp, fcl)), i, [0x41]), i + 11, [ATTR_LFN, 0, 0]), i + 26, [0, 0])
  }

  lemma AttributedByte(b1: seq<u8>, i: nat, tp: u32, fcl: u32, k: nat)
    requires i + 64 <= |b1| && k < |b1|
    ensures Attributed(b1, i, tp, fcl)[k] ==
            if k == i then 0x41
            else if i + 11 <= k < i + 14 then (if k == i + 11 then ATTR_LFN else 0)
            else if i + 26 <= k < i + 28 then 0
            else if i + 43 <= k < i + 64 then ShortTail(tp, fcl)[k - i - 43]
            else b1[k]
  {
    hide ShortTail;
  }

  /** Names and attributes together make exactly the long and the short slot. */
  lemma SlotsComplete(b: seq<u8>, b1: seq<u8>, i: nat, fn: seq<u8>, tp: u32, fcl: u32)
    requires i + 64 <= |b| == |b1| && i % 32 == 0
    requires forall k :: 0 <= k < |b| ==>
      b1[k] == LongField(WideName(fn), i, 26, k, Splice(b, i + 32, ShortName(b[i + 32..i + 64], fn))[k])
    ensures Attributed(b1, i, tp, fcl) == WithEntry(b, i / 32, fn, tp, fcl)
  {
    hide ShortName, WideName, ShortTail, Attributed;
    var s := i / 32;
    var prev, b2 := SlotAt(b, s + 1), Attributed(b1, i, tp, fcl);
    assert prev == b[i + 32..i + 64];
    forall k | 0 <= k < |b|
      ensures b2[k] == WithEntry(b, s, fn, tp, fcl)[k]
    {
      AttributedByte(b1, i, tp, fcl, k);
      assert i <= k < i + 32 ==> LongField(WideName(fn), i, 26, k, 0) == LongField(WideName(fn), 0, 26, k - i, 0);
    }
  }

  ghost predicate Indexed(v: Volume, h: nat) {
    v.Ok() && h in v.files && InData(v.data, v.files[h]) && v.files[h] != []
  }

  /** The volume with room for the entry: unchanged, or with a zeroed cluster cl linked behind directory h. */
  ghost function Prepared(v: Volume, h: nat, cl: u32): Volume
    requires Indexed(v, h) && cl < |v.data| <= |v.fat| && Last(v.files[h]) < |v.fat|
  {
    if cl in v.files[h] then v
    else Volume(Linked(v.fat, Last(v.files[h]), cl), v.data[cl := Zeros(v.clsz)], v.files[h := v.files[h] + [cl]], v.clsz)
  }

  /** v' is v1 with an entry in slots s and s + 1 of cluster m of directory h, and a zeroed new chain fcl. */
  ghost predicate EntryPut(v1: Volume, v': Volume, h: nat, m: nat, s: nat, fn: seq<u8>, tp: u32, fcl: u32)
    requires Indexed(v1, h)
  {
    var path := v1.files[h];
    && PairAt(v1.data, path, m, s) && NoPairBefore(v1.data, path, m, s)
    && 2 <= fcl < |v1.data| <= |v1.fat| && IsFree(v1.fat, fcl)
    && v'.fat == v1.fat[fcl := EOC]
    && v'.data == DataWith(v1.data, path, m, s, fn, tp, fcl)[fcl := Zeros(v1.clsz)]
    && v'.files == v1.files[fcl := [fcl]]
    && v'.clsz == v1.clsz
  }

  /** A freshly linked zeroed cluster offers its first two slots, and no earlier ones were on offer. */
  lemma PreparedOffers(v: Volume, h: nat, cl: u32)
    requires Indexed(v, h) && !HasPair(v.data, v.files[h])
    requires cl < |v.data| <= |v.fat| && IsFree(v.fat, cl)
    ensures Last(v.files[h]) < |v.fat| && cl !in v.files[h]
    ensures var v1 := Prepared(v, h, cl);
      && Indexed(v1, h)
      && PairAt(v1.data, v1.files[h], |v.files[h]|, 0)
      && NoPairBefore(v1.data, v1.files[h], |v.files[h]|, 0)
  {
    hide Volume.Contents;
    var path := v.files[h];
    FreeIsUnowned(v.fat, |v.data|, path, cl);
    ExtendKeepsChained(v.fat, |v.data|, v.files, h, cl);
    var v1 := Prepared(v, h, cl);
    forall j: nat, k: nat | PairAt(v1.data, v1.files[h], j, k)
      ensures j >= |path|
    {
      var earlier := PairAt(v.data, path, j, k);
      assert j < |path| ==> earlier;
    }
  }

  /** What adding a directory entry does to a volume. */
  ghost predicate AddEffect(v: Volume, v': Volume, h: nat, fn: seq<u8>, tp: u32, cl: u32, i: nat, fcl: u32) {
    && Indexed(v, h) && v'.Ok() && cl < |v.data| <= |v.fat| && Last(v.files[h]) < |v.fat|
    && (cl !in v.files[h] ==> !HasPair(v.data, v.files[h]) && IsFree(v.fat, cl))
    && var v1 := Prepared(v, h, cl);
      && Indexed(v1, h)
      && i % 32 == 0
      && exists m: nat :: m < |v1.files[h]| && v1.files[h][m] == cl && EntryPut(v1, v', h, m, i / 32, fn, tp, fcl)
  }

  method ClearAll(buf: array<u8>)
    modifies buf
    ensures buf[..] == Zeros(buf.Length)
  {
    for k := 0 to buf.Length
      invariant forall j :: 0 <= j < k ==> buf[j] == 0
    {
      buf[k] := 0;
    }
  }

  /** Find, or link, the cluster the entry goes to; its bytes are in buf, at i two slots are unused. */
  method ClaimSlots(fs: FatFs, h: nat, buf: array<u8>) returns (cl: u32, i: nat, ghost m: nat)
    requires fs.Valid() && h in fs.files && fs.Outside(buf) && buf.Length == fs.dev.g.Clsz()
    requires Indexed(fs.Vol(), h) && CanGrow(fs.dev.Fat(), fs.dev.g.limit, Last(fs.files[h]), if HasPair(fs.dev.Data(), fs.files[h]) then 1 else 2)
    modifies fs, fs.dev, fs.dev.cbuf, fs.dev.disk, buf
    ensures fs.Valid() && h in fs.files && fs.dev.Data() == old(fs.dev.Data())
    ensures 2 <= cl < fs.dev.g.limit <= |old(fs.dev.Fat())| && old(Last(fs.files[h])) < |old(fs.dev.Fat())|
    ensures cl !in old(fs.files)[h] ==> old(!HasPair(fs.dev.Data(), fs.files[h])) && IsFree(old(fs.dev.Fat()), cl)
    ensures var v1 := Prepared(old(fs.Vol()), h, cl);
      && Indexed(v1, h) && v1.fat == fs.dev.Fat() && v1.files == fs.files
      && m < |v1.files[h]| && v1.files[h][m] == cl && i % 32 == 0
      && PairAt(v1.data, v1.files[h], m, i / 32) && NoPairBefore(v1.data, v1.files[h], m, i / 32)
      && buf[..] == v1.data[cl] && i + 64 <= buf.Length
    ensures CanGrow(fs.dev.Fat(), fs.dev.g.limit, Last(fs.files[h]), 1)
  {
    hide Geometry.ClusterLba, Geometry.CopyLba, Geometry.Stc, Geometry.Size, Fat.Coherent, Fat.Mirrored, Fat.Copy;
    hide FatOf, DataOf, CopyOf, Flat, Chained, Geometry.Clsz, Geometry.Valid, CanGrow, NoPairBefore;
    ghost var v, pair := fs.Vol(), HasPair(fs.dev.Data(), fs.files[h]);
    var pcl;
    cl, i, pcl, m := FindSlots(fs, h, buf);
    fs.ChainFacts(h);
    if cl >= EOC {
      m := |fs.files[h]|;
      cl := fs.Extend(h, pcl, 2);
      PreparedOffers(v, h, cl);
      ClearAll(buf);
    } else {
      assert pair;
    }
  }

  /** The entry's cluster, written over whatever the disk held there. */
  lemma EntryPutHolds(v: Volume, v': Volume, h: nat, cl: u32, m: nat, s: nat, fn: seq<u8>, tp: u32, fcl: u32)
    requires Indexed(v, h) && cl < |v.data| <= |v.fat| && Last(v.files[h]) < |v.fat|
    requires var v1 := Prepared(v, h, cl);
      && Indexed(v1, h) && m < |v1.files[h]| && v1.files[h][m] == cl
      && PairAt(v1.data, v1.files[h], m, s) && NoPairBefore(v1.data, v1.files[h], m, s)
      && 2 <= fcl < |v1.data| <= |v1.fat| && IsFree(v1.fat, fcl)
      && v' == Volume(v1.fat[fcl := EOC], v.data[cl := WithEntry(v1.data[cl], s, fn, tp, fcl)][fcl := Zeros(v.clsz)],
                      v1.files[fcl := [fcl]], v.clsz)
    ensures EntryPut(Prepared(v, h, cl), v', h, m, s, fn, tp, fcl)
  {
    hide Volume.Ok, NoPairBefore, WithEntry, IsFree;
    var v1 := Prepared(v, h, cl);
    assert DataWith(v1.data, v1.files[h], m, s, fn, tp, fcl) == v.data[cl := WithEntry(v1.data[cl], s, fn, tp, fcl)];
  }

  /** Write the directory cluster c back and zero the new first cluster f. */
  method CommitEntry(fs: FatFs, c: nat, f: nat, buf: array<u8>)
    requires fs.Valid() && 2 <= c < fs.dev.g.limit && 2 <= f < fs.dev.g.limit
    requires fs.Outside(buf) && buf.Length == fs.dev.g.Clsz()
    modifies fs.dev.disk, buf
    ensures fs.Valid() && fs.dev.Fat() == old(fs.dev.Fat())
    ensures fs.dev.Data() == old(fs.dev.Data())[c := old(buf[..])][f := Zeros(buf.Length)]
  {
    hide Geometry.ClusterLba, Geometry.CopyLba, Geometry.Stc, Geometry.Size, Fat.Coherent, Fat.Mirrored, Fat.Copy;
    hide FatOf, DataOf, CopyOf, Chained, Geometry.Clsz, Geometry.Valid;
    assert buf[..buf.Length] == buf[..];
    fs.dev.WriteCluster(c, buf);
    ClearAll(buf);
    assert buf[..buf.Length] == buf[..];
    fs.dev.WriteCluster(f, buf);
  }

  /** Write both names of an entry at i. */
  method PutNames(buf: array<u8>, i: nat, fn: seq<u8>)
    requires i + 64 <= buf.Length
    modifies buf
    ensures var b := old(buf[..]);
      forall k :: 0 <= k < buf.Length ==>
        buf[..][k] == LongField(WideName(fn), i, 26, k, Splice(b, i + 32, ShortName(b[i + 32..i + 64], fn))[k])
  {
    hide LongField, ShortName, WideName;
    PutShortName(buf, i + 32, fn);
    PutLongName(buf, i, fn);
  }

  /** Add an entry for fn to directory h and give it a zeroed first cluster. */
  method PlaceEntry(fs: FatFs, h: nat, fn: seq<u8>, tp: u32) returns (cl: u32, i: nat, fcl: u32)
    requires fs.Valid() && h in fs.files && Indexed(fs.Vol(), h)
    requires CanGrow(fs.dev.Fat(), fs.dev.g.limit, Last(fs.files[h]), if HasPair(fs.dev.Data(), fs.files[h]) then 1 else 2)
    modifies fs, fs.dev, fs.dev.cbuf, fs.dev.disk
    ensures fs.Valid() && AddEffect(old(fs.Vol()), fs.Vol(), h, fn, tp, cl, i, fcl)
  {
    hide Geometry.ClusterLba, Geometry.CopyLba, Geometry.Stc, Geometry.Size, Fat.Coherent, Fat.Mirrored, Fat.Copy;
    hide FatOf, DataOf, CopyOf, Flat, Chained, Geometry.Clsz, Geometry.Valid, CanGrow, NoPairBefore, WithEntry, HasPair;
    hide EntryPut, IsChain, PairAt, IsFree, LongField, Attributed, ShortName, WideName, ShortTail, Splice;
    ghost var v := fs.Vol();
    var buf := new u8[fs.dev.g.Clsz()];
    ghost var m;
    cl, i, m := ClaimSlots(fs, h, buf);
    ghost var bytes := buf[..];
    PutNames(buf, i, fn);
    ghost var named := buf[..];
    fcl := fs.NewChain(Last(fs.files[h]));
    PutAttributes(buf, i, tp, fcl);
    SlotsComplete(bytes, named, i, fn, tp, fcl);
    CommitEntry(fs, cl, fcl, buf);
    EntryPutHolds(v, fs.Vol(), h, cl, m, i / 32, fn, tp, fcl);
  }

  /** Add an entry and note in the new node where it is. The place noted is the long slot's. */
  method AddDirent(fs: FatFs, h: nat, fn: seq<u8>, tp: u32, d: FsNode)
    requires fs.Valid() && h in fs.files && Indexed(fs.Vol(), h)
    requires CanGrow(fs.dev.Fat(), fs.dev.g.limit, Last(fs.files[h]), if HasPair(fs.dev.Data(), fs.files[h]) then 1 else 2)
    modifies fs, fs.dev, fs.dev.cbuf, fs.dev.disk, d
    ensures fs.Valid() && d.implCl < 0x1_0000_0000 && d.inode < 0x1_0000_0000
    ensures AddEffect(old(fs.Vol()), fs.Vol(), h, fn, tp, d.implCl, d.implOff, d.inode)
    ensures unchanged(d`mask, d`len, d`ptr, d`first, d`filled)
  {
    hide CanGrow, HasPair, AddEffect, Fat.Valid, Chained, Geometry.Valid;
    d.implCl, d.implOff, d.inode := PlaceEntry(fs, h, fn, tp);
  }
}
