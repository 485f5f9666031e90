/** A file from its path to its bytes: found, written and closed, then found again in directories read afresh, and read. */
module EndToEnd {
  import opened Wrappers
  import opened Bytes
  import opened FatDisk
  import opened Chains
  import opened FsTypes
  import opened FatFile
  import opened FatDir
  import opened FatSize
  import opened FileIo
  import opened FatSession
  import opened FatListing
  import opened FatRuns
  import opened Paths
  import opened Vfs

  /** A tree of directories: closed, and no directory is listed as a file as well. */
  ghost predicate TreeOk(v: Volume, dirs: set<nat>)
    requires v.Ok()
  {
    Closed(v, dirs) && forall d :: d in dirs ==> ListsFiles(DirList(v, d), dirs)
  }

  ghost predicate ListsFiles(l: seq<Entry>, dirs: set<nat>) {
    forall i :: 0 <= i < |l| ==> IsNoDir(l[i].node, dirs)
  }

  ghost predicate IsNoDir(o: Option<NodeInfo>, dirs: set<nat>) {
    o.Some? && o.value.mask % 2 == 1 ==> o.value.inode !in dirs
  }

  // ---- Lookup finds what is listed

  lemma {:induction false} FirstNamedIsListed(l: seq<Entry>, name: seq<u8>) returns (k: nat)
    requires FirstNamed(l, name).Some?
    ensures k < |l| && l[k].node == FirstNamed(l, name)
  {
    if l[0].name == name {
      k := 0;
    } else {
      k := FirstNamedIsListed(l[1..], name);
      k := k + 1;
    }
  }

  /** What a path leads to is an entry of some directory of the tree. */
  lemma {:induction false} FoldIsListed(v: Volume, dirs: set<nat>, p: NodeInfo, parts: seq<seq<u8>>) returns (d: nat, k: nat)
    requires v.Ok() && Closed(v, dirs) && (p.mask % 2 == 0 ==> p.inode in dirs) && parts != []
    requires Fold(v, Some(p), parts).Some?
    ensures d in dirs && d in v.files && k < |DirList(v, d)| && DirList(v, d)[k].node == Fold(v, Some(p), parts)
    decreases |parts|
  {
    hide DirList, Closed;
    FoldFirst(v, p, parts);
    var o := Lookup(v, p, parts[0]);
    assert o.Some?;
    ClosedHas(v, dirs, p.inode);
    d := p.inode;
    k := FirstNamedIsListed(DirList(v, d), parts[0]);
    if parts[1..] != [] {
      d, k := FoldIsListed(v, dirs, o.value, parts[1..]);
    }
  }

  lemma ClosedHas(v: Volume, dirs: set<nat>, d: nat)
    requires v.Ok() && Closed(v, dirs) && d in dirs
    ensures d in v.files
    ensures forall k :: 0 <= k < |DirList(v, d)| ==> Inside(DirList(v, d)[k].node, dirs)
  {
  }

  // ---- Lookup after a store

  /** A node after len was stored at a place. */
  function After(o: Option<NodeInfo>, cl: nat, off: nat, len: u32): Option<NodeInfo> {
    if o.Some? && o.value.cl == cl && o.value.off == off then Some(o.value.(len := len)) else o
  }

  lemma {:induction false} FirstNamedAfter(l: seq<Entry>, name: seq<u8>, cl: nat, off: nat, len: u32)
    ensures FirstNamed(WithLen(l, cl, off, len), name) == After(FirstNamed(l, name), cl, off, len)
  {
    if l != [] {
      FirstNamedAfter(l[1..], name, cl, off, len);
      assert WithLen(l, cl, off, len)[1..] == WithLen(l[1..], cl, off, len);
    }
  }

  /** The volumes before and after a store through a listed node: every directory lists the same with the new length at that place. */
  ghost predicate Relisted(v: Volume, v': Volume, dirs: set<nat>, cl: nat, off: nat, len: u32)
    requires v.Ok() && v'.Ok()
  {
    forall d :: d in dirs ==> d in v.files && d in v'.files && DirList(v', d) == WithLen(DirList(v, d), cl, off, len)
  }

  lemma StoreRelists(v: Volume, v': Volume, dirs: set<nat>, h: nat, d: nat, k: nat, w: seq<u8>, len: u32)
    requires v.Ok() && v'.Ok() && TreeOk(v, dirs) && d in dirs && d in v.files && h !in dirs
    requires k < |DirList(v, d)| && DirList(v, d)[k].node.Some?
    requires var info := DirList(v, d)[k].node.value; StoreEffect(v, v', h, info.cl, info.off, w, len)
    ensures var info := DirList(v, d)[k].node.value; Relisted(v, v', dirs, info.cl, info.off, len)
  {
    hide DirList, StoreEffect, Orderly, WithLen, Closed, ListsFiles;
    var info := DirList(v, d)[k].node.value;
    forall e | e in dirs
      ensures e in v.files && e in v'.files && DirList(v', e) == WithLen(DirList(v, e), info.cl, info.off, len)
    {
      ClosedHas(v, dirs, e);
      DirectoryRelisted(v, v', h, d, k, e, w, len);
    }
  }

  lemma DirectoryRelisted(v: Volume, v': Volume, h: nat, d: nat, k: nat, e: nat, w: seq<u8>, len: u32)
    requires v.Ok() && v'.Ok() && d in v.files && e in v.files && h != d && h != e
    requires k < |DirList(v, d)| && DirList(v, d)[k].node.Some?
    requires var info := DirList(v, d)[k].node.value; StoreEffect(v, v', h, info.cl, info.off, w, len)
    ensures var info := DirList(v, d)[k].node.value;
      e in v'.files && DirList(v', e) == WithLen(DirList(v, e), info.cl, info.off, len)
  {
    hide DirList, StoreEffect, Orderly, PlacesApart;
    var info := DirList(v, d)[k].node.value;
    var m, s := ListedPlace(v, d, k);
    PlaceOfInfo(SlotAt(v.data[v.files[d][m]], s), v.files[d][m], 32 * s);
    StoresIn(v, v', h, info.cl, info.off, w, len);
    if e == d {
      StoredLengthIsListed(v, v', h, d, k, w, len);
      WithLenOfOne(DirList(v, d), k, len);
    } else {
      ApartFrom(v, e, d, m);
      OtherDirectory(v, v', h, e, info.cl, info.off, w, len);
      NoneListedAt(v, e, info.cl, info.off, len);
    }
  }

  /** No entry of a directory is in a cluster that the directory does not have. */
  lemma NoneListedAt(v: Volume, e: nat, cl: nat, off: nat, len: u32)
    requires v.Ok() && e in v.files && cl !in v.files[e]
    ensures WithLen(DirList(v, e), cl, off, len) == DirList(v, e)
  {
    hide DirList, PlacesApart;
    var list := DirList(v, e);
    forall i | 0 <= i < |list|
      ensures Resized(list[i], cl, off, len) == list[i]
    {
      if list[i].node.Some? {
        var m, s := ListedPlace(v, e, i);
        PlaceOfInfo(SlotAt(v.data[v.files[e][m]], s), v.files[e][m], 32 * s);
      }
    }
  }

  lemma {:induction false} FoldAfter(v: Volume, v': Volume, dirs: set<nat>, cl: nat, off: nat, len: u32, p: NodeInfo, p': NodeInfo, parts: seq<seq<u8>>)
    requires v.Ok() && v'.Ok() && Closed(v, dirs) && Relisted(v, v', dirs, cl, off, len) && parts != []
    requires p'.mask == p.mask && p'.inode == p.inode && (p.mask % 2 == 0 ==> p.inode in dirs)
    ensures Fold(v', Some(p'), parts) == After(Fold(v, Some(p), parts), cl, off, len)
    decreases |parts|
  {
    hide DirList, WithLen;
    FoldFirst(v, p, parts);
    FoldFirst(v', p', parts);
    var o, o' := Lookup(v, p, parts[0]), Lookup(v', p', parts[0]);
    if p.mask % 2 == 0 {
      FirstNamedAfter(DirList(v, p.inode), parts[0], cl, off, len);
    }
    assert o' == After(o, cl, off, len);
    if o.Some? && parts[1..] != [] {
      var k := FirstNamedIsListed(DirList(v, p.inode), parts[0]);
      ClosedHas(v, dirs, p.inode);
      FoldAfter(v, v', dirs, cl, off, len, o.value, o'.value, parts[1..]);
    }
  }

  lemma StaysClosed(v: Volume, v': Volume, dirs: set<nat>, cl: nat, off: nat, len: u32)
    requires v.Ok() && v'.Ok() && Closed(v, dirs) && Relisted(v, v', dirs, cl, off, len)
    ensures Closed(v', dirs)
  {
    hide DirList;
    forall d | d in dirs
      ensures d in v'.files && ListsOnly(DirList(v', d), dirs)
    {
      var l := DirList(v, d);
      forall i | 0 <= i < |l|
        ensures Inside(DirList(v', d)[i].node, dirs)
      {
        assert DirList(v', d)[i] == Resized(l[i], cl, off, len) && Inside(l[i].node, dirs);
      }
    }
  }

  function Root(rc: u32): NodeInfo { NodeInfo(0, rc, 0, 0, 0) }

  /** After a store through the node a path leads to, the same path leads to the same node with the new length. */
  lemma StoreThenResolve(v: Volume, v': Volume, dirs: set<nat>, rc: u32, path: seq<u8>, w: seq<u8>, len: u32)
    requires v.Ok() && v'.Ok() && TreeOk(v, dirs) && rc in dirs && path != []
    requires Resolve(v, Root(rc), path).Some? && Resolve(v, Root(rc), path).value.mask % 2 == 1
    requires var info := Resolve(v, Root(rc), path).value; StoreEffect(v, v', info.inode, info.cl, info.off, w, len)
    ensures Closed(v', dirs)
    ensures Resolve(v', Root(rc), path) == Some(Resolve(v, Root(rc), path).value.(len := len))
  {
    hide DirList, StoreEffect, Closed, WithLen, Relisted, Parts;
    var info := Resolve(v, Root(rc), path).value;
    var d, k := FoldIsListed(v, dirs, Root(rc), Parts(path));
    assert IsNoDir(DirList(v, d)[k].node, dirs);
    StoreRelists(v, v', dirs, info.inode, d, k, w, len);
    StaysClosed(v, v', dirs, info.cl, info.off, len);
    FoldAfter(v, v', dirs, info.cl, info.off, len, Root(rc), Root(rc), Parts(path));
  }

  /** The file a path leads to has a directory entry, in a chain other than its own. */
  lemma ResolvedHasEntry(v: Volume, dirs: set<nat>, rc: u32, path: seq<u8>)
    requires v.Ok() && TreeOk(v, dirs) && rc in dirs && path != []
    requires Resolve(v, Root(rc), path).Some? && Resolve(v, Root(rc), path).value.mask % 2 == 1
    ensures var info := Resolve(v, Root(rc), path).value;
      && info.off + 32 <= v.clsz
      && exists dir :: dir in v.files && dir != info.inode && info.cl in v.files[dir]
  {
    hide DirList, Closed, Parts;
    var info := Resolve(v, Root(rc), path).value;
    var d, k := FoldIsListed(v, dirs, Root(rc), Parts(path));
    assert IsNoDir(DirList(v, d)[k].node, dirs);
    var m, s := ListedPlace(v, d, k);
    PlaceOfInfo(SlotAt(v.data[v.files[d][m]], s), v.files[d][m], 32 * s);
    PathFacts(v, d);
    assert info.cl in v.files[d];
  }

  /** Mount, and read the root directory. */
  method Mount(fs: FatFs, rc: u32, ghost dirs: set<nat>) returns (tree: Vfs)
    requires fs.Valid() && Closed(fs.Vol(), dirs) && rc in dirs
    modifies fs.dev, fs.dev.cbuf
    ensures fresh(tree) && tree.Valid() && tree.fs == fs && fs.Valid() && fs.Vol() == old(fs.Vol())
    ensures fresh(tree.nameBuf) && fresh(tree.place.Keys)
    ensures tree.root in tree.place && tree.place[tree.root] == Root(rc)
  {
    hide Fat.Valid, FatFs.Formed, FatFs.Vol, Closed, Vfs.NodesOk;
    tree := new Vfs(fs, rc, dirs);
    ghost var keys := tree.place.Keys;
    tree.ReadRoot();
    assert tree.place.Keys == keys + (tree.place.Keys - keys);
  }

  /** Mount, so that every directory is read afresh, and find a path. */
  method MountAndFind(fs: FatFs, rc: u32, ghost dirs: set<nat>, path: seq<u8>) returns (n: FsNode?)
    requires fs.Valid() && Closed(fs.Vol(), dirs) && rc in dirs
    requires 0 !in path && ShortParts(Parts(path))
    modifies fs.dev, fs.dev.cbuf
    ensures fs.Valid() && fs.Vol() == old(fs.Vol())
    ensures var o := Resolve(fs.Vol(), Root(rc), path);
      && (n == null <==> o == None)
      && (n != null ==> fresh(n) && (o.value.mask != 0 ==> Describes(n, o.value)))
  {
    hide Fat.Valid, FatFs.Formed, FatFs.Vol, Closed, Resolve, Describes, Vfs.NodesOk, Parts;
    var tree := Mount(fs, rc, dirs);
    n := tree.FindDirPath(tree.root, path);
  }

  /** The entry of a node, seen from the volume. */
  ghost predicate EntryElsewhere(v: Volume, info: NodeInfo)
    requires v.Ok()
  {
    && info.off + 32 <= v.clsz
    && exists dir :: dir in v.files && dir != info.inode && info.cl in v.files[dir]
  }

  /** The file has a chain with room for the chunks, and the write calls will claim what they write. */
  ghost predicate Storable(v: Volume, info: NodeInfo, chunks: seq<seq<u8>>, counts: seq<u32>, spare: nat)
    requires v.Ok()
  {
    && info.inode in v.files && HasRoom(v, info.inode, |Concat(chunks)|, spare) && |Concat(chunks)| < 0x1_0000_0000
    && |counts| == |chunks| && forall i :: 0 <= i < |chunks| ==> |chunks[i]| == counts[i]
  }

  lemma StorableFits(v: Volume, info: NodeInfo, chunks: seq<seq<u8>>, counts: seq<u32>, spare: nat)
    requires v.Ok() && Storable(v, info, chunks, counts, spare)
    ensures |Concat(chunks)| < 0x1_0000_0000
  {
  }

  /** Store through a node that is what the disk says it is. */
  method WriteAt(fs: FatFs, n: FsNode, ghost info: NodeInfo, chunks: seq<seq<u8>>, counts: seq<u32>, ghost spare: nat)
    requires fs.Valid() && Describes(n, info) && info.mask % 2 == 1 && EntryElsewhere(fs.Vol(), info)
    requires Storable(fs.Vol(), info, chunks, counts, spare)
    modifies fs, n, fs.dev, fs.dev.cbuf, fs.dev.disk
    ensures fs.Valid() && info.inode in fs.Vol().files && Concat(chunks) <= fs.Vol().Contents(info.inode)
    ensures StoreEffect(old(fs.Vol()), fs.Vol(), info.inode, info.cl, info.off, Concat(chunks), |Concat(chunks)|)
    ensures Describes(n, info.(len := |Concat(chunks)|)) && unchanged(n`ptr, n`first, n`filled)
  {
    hide Fat.Valid, StoreEffect, HasRoom, FatFs.Contents, Concat, Sum, Chained, FatOf, DataOf, CopyOf;
    HonestSum(chunks, counts);
    ghost var v := fs.Vol();
    Store(fs, n, chunks, counts, spare);
    assert n.len == |Concat(chunks)|;
    StoreHolds(v, fs.Vol(), info.inode, info.cl, info.off, Concat(chunks), |Concat(chunks)|);
  }

  // ---- The same tree again

  /** No other node of the tree stands for the same directory slot. */
  ghost predicate Alone(tree: Vfs, n: FsNode)
    requires n in tree.place
    reads tree
  {
    forall m :: m in tree.place && m != n && tree.place[m].mask != 0 ==> !SameSlot(tree.place[m], tree.place[n])
  }

  predicate SameSlot(a: NodeInfo, b: NodeInfo) {
    a.cl == b.cl && a.off == b.off
  }

  /** A listing that was true goes on being true when the length of n changes on disk and in n, if n alone has that slot. */
  lemma ShowsAfter(first: seq<Dirent>, list: seq<Entry>, place: map<FsNode, NodeInfo>, n: FsNode, len: u32)
    requires ShowsAll(first, list, place) && n in place
    requires forall i :: 0 <= i < |list| && list[i].node.Some? ==> list[i].node.value.mask != 0
    requires forall m :: m in place && m != n && place[m].mask != 0 ==> !SameSlot(place[m], place[n])
    ensures ShowsAll(first, WithLen(list, place[n].cl, place[n].off, len), place[n := place[n].(len := len)])
  {
    var list', place' := WithLen(list, place[n].cl, place[n].off, len), place[n := place[n].(len := len)];
    forall i | 0 <= i < |list|
      ensures Shows(first[i], list'[i], place')
    {
      assert Shows(first[i], list[i], place) && list'[i] == Resized(list[i], place[n].cl, place[n].off, len);
    }
  }

  /** Every listed node is marked as a file or as a directory. */
  lemma ListedMask(v: Volume, d: nat)
    requires v.Ok() && d in v.files
    ensures forall i :: 0 <= i < |DirList(v, d)| && DirList(v, d)[i].node.Some? ==> DirList(v, d)[i].node.value.mask != 0
  {
    hide DirList;
    forall i | 0 <= i < |DirList(v, d)| && DirList(v, d)[i].node.Some?
      ensures DirList(v, d)[i].node.value.mask != 0
    {
      var m, s := ListedPlace(v, d, i);
    }
  }

  /** Every node of the tree but n is as the volume v has it. */
  ghost predicate NodesBut(tree: Vfs, n: FsNode, v: Volume)
    requires v.Ok()
    reads tree, tree.place.Keys
  {
    Closed(v, tree.dirs) && tree.root in tree.place && forall m :: m in tree.place && m != n ==> tree.NodeOk(m, v)
  }

  /** A file's node is no mount point and has no listing. */
  lemma FileNode(tree: Vfs, n: FsNode, v: Volume)
    requires v.Ok() && tree.NodesOk(v) && n in tree.place && tree.place[n].mask % 2 == 1
    ensures Describes(n, tree.place[n]) && n.ptr == null && n.first == [] && !n.filled && NodesBut(tree, n, v)
  {
    assert tree.NodeOk(n, v);
  }

  /** The store itself: no other node of the tree is touched. */
  method StoreNode(tree: Vfs, n: FsNode, ghost v: Volume, chunks: seq<seq<u8>>, counts: seq<u32>, ghost spare: nat)
    requires tree.Valid() && n in tree.place && v == tree.fs.Vol()
    requires var info := tree.place[n];
      && info.mask % 2 == 1 && Storable(v, info, chunks, counts, spare) && EntryElsewhere(v, info)
    modifies tree.fs, n, tree.fs.dev, tree.fs.dev.cbuf, tree.fs.dev.disk
    ensures tree.fs.Valid() && tree.nameBuf.Length == 128 && tree.fs.Outside(tree.nameBuf) && NodesBut(tree, n, v)
    ensures Describes(n, tree.place[n].(len := |Concat(chunks)|)) && n.ptr == null && n.first == [] && !n.filled
    ensures var info := tree.place[n]; StoreEffect(v, tree.fs.Vol(), info.inode, info.cl, info.off, Concat(chunks), |Concat(chunks)|)
  {
    hide Fat.Valid, StoreEffect, HasRoom, FatFs.Contents, Concat, FatFs.Vol, FatFs.Formed, Closed, DirList, EntryElsewhere, Inside, ShowsAll;
    hide Describes, Vfs.Filled, Volume.Ok, Vfs.NodesOk;
    FileNode(tree, n, v);
    WriteAt(tree.fs, n, tree.place[n], chunks, counts, spare);
    forall m | m in tree.place && m != n
      ensures tree.NodeOk(m, v)
    {
      assert old(tree.NodeOk(m, v));
    }
  }

  /** The tree learns the new length of n. */
  ghost method Learn(tree: Vfs, n: FsNode, v: Volume, v': Volume, len: u32)
    requires v.Ok() && v'.Ok() && NodesBut(tree, n, v) && n in tree.place && Alone(tree, n) && tree.place[n].mask % 2 == 1
    requires Describes(n, tree.place[n].(len := len)) && n.ptr == null && n.first == [] && !n.filled
    requires Relisted(v, v', tree.dirs, tree.place[n].cl, tree.place[n].off, len)
    modifies tree`place
    ensures tree.NodesOk(v') && tree.place == old(tree.place)[n := old(tree.place[n]).(len := len)]
  {
    hide DirList, ShowsAll;
    var was, info := tree.place, tree.place[n];
    StaysClosed(v, v', tree.dirs, info.cl, info.off, len);
    tree.place := was[n := info.(len := len)];
    forall m | m in tree.place
      ensures tree.NodeOk(m, v')
    {
      if m != n {
        assert old(tree.NodeOk(m, v));
        if m.ptr == null && (m.first != [] || m.filled) {
          ListedMask(v, was[m].inode);
          ShowsAfter(m.first, DirList(v, was[m].inode), was, n, len);
        }
      }
    }
  }

  /** Store through a node of the tree that stands for entry k of directory d: the tree stays what the disk says, with the new length. */
  method StoreInTree(tree: Vfs, n: FsNode, ghost d: nat, ghost k: nat, chunks: seq<seq<u8>>, counts: seq<u32>, ghost spare: nat)
    requires tree.Valid() && n in tree.place && Alone(tree, n) && TreeOk(tree.fs.Vol(), tree.dirs)
    requires d in tree.dirs && d in tree.fs.files && k < |DirList(tree.fs.Vol(), d)|
    requires var info := tree.place[n];
      && DirList(tree.fs.Vol(), d)[k].node == Some(info) && info.mask % 2 == 1
      && Storable(tree.fs.Vol(), info, chunks, counts, spare) && EntryElsewhere(tree.fs.Vol(), info)
    modifies tree`place, tree.fs, n, tree.fs.dev, tree.fs.dev.cbuf, tree.fs.dev.disk
    ensures tree.Valid() && tree.place == old(tree.place)[n := old(tree.place[n]).(len := |Concat(chunks)|)]
    ensures var info := old(tree.place[n]);
      StoreEffect(old(tree.fs.Vol()), tree.fs.Vol(), info.inode, info.cl, info.off, Concat(chunks), |Concat(chunks)|)
  {
    hide Fat.Valid, StoreEffect, HasRoom, FatFs.Contents, Concat, FatFs.Vol, FatFs.Formed, Closed, DirList, Relisted, EntryElsewhere, Vfs.NodesOk, NodesBut;
    hide ListsFiles, Describes;
    ghost var v, info := tree.fs.Vol(), tree.place[n];
    assert info.inode !in tree.dirs by { NoDirAt(v, tree.dirs, d, k); }
    StoreNode(tree, n, v, chunks, counts, spare);
    StoreRelists(v, tree.fs.Vol(), tree.dirs, info.inode, d, k, Concat(chunks), |Concat(chunks)|);
    Learn(tree, n, v, tree.fs.Vol(), |Concat(chunks)|);
  }

  lemma NoDirAt(v: Volume, dirs: set<nat>, d: nat, k: nat)
    requires v.Ok() && TreeOk(v, dirs) && d in dirs && d in v.files && k < |DirList(v, d)|
    requires DirList(v, d)[k].node.Some? && DirList(v, d)[k].node.value.mask % 2 == 1
    ensures DirList(v, d)[k].node.value.inode !in dirs
  {
    hide DirList, Closed;
    assert IsNoDir(DirList(v, d)[k].node, dirs);
  }

  /** Read through a node that is what the disk says it is. */
  method ReadAt(fs: FatFs, n: FsNode, ghost info: NodeInfo, ghost w: seq<u8>, sizes: seq<u32>) returns (out: seq<u8>)
    requires fs.Valid() && Describes(n, info) && info.mask % 2 == 1 && info.inode in fs.Vol().files
    requires w <= fs.Vol().Contents(info.inode) && info.len == |w|
    modifies fs.dev, fs.dev.cbuf
    ensures fs.Valid() && out == w[..Min(Sum(sizes), |w|)]
  {
    hide Fat.Valid, Sum, FatFs.Formed, Flat;
    fs.CacheApart();
    ReadBack(w, fs.Stored(info.inode), |w|, Sum(sizes));
    out := Load(fs, n, sizes);
  }

  /** Where the file a path leads to is listed. */
  lemma ListedAt(v: Volume, dirs: set<nat>, rc: u32, path: seq<u8>) returns (d: nat, k: nat)
    requires v.Ok() && TreeOk(v, dirs) && rc in dirs && path != [] && Resolve(v, Root(rc), path).Some?
    ensures d in dirs && d in v.files && k < |DirList(v, d)| && DirList(v, d)[k].node == Resolve(v, Root(rc), path)
  {
    hide DirList, Closed, Parts;
    d, k := FoldIsListed(v, dirs, Root(rc), Parts(path));
  }

  /** n alone stands for info, the file that the path leads to from the tree's root, whose directory starts at cluster rc. */
  ghost predicate Reached(tree: Vfs, n: FsNode, info: NodeInfo, rc: u32, path: seq<u8>, v: Volume)
    requires v.Ok()
    reads tree
  {
    && TreeOk(v, tree.dirs) && rc in tree.dirs && tree.root in tree.place && tree.place[tree.root] == Root(rc)
    && n in tree.place && Alone(tree, n) && tree.place[n] == info && info.mask % 2 == 1
    && Resolve(v, Root(rc), path) == Some(info)
  }

  lemma ReachedIs(tree: Vfs, n: FsNode, info: NodeInfo, rc: u32, path: seq<u8>)
    requires tree.Valid() && Reached(tree, n, info, rc, path, tree.fs.Vol())
    ensures tree.fs.Formed() && n in tree.place && info.mask % 2 == 1
  {
  }

  /** Store through the node that a path led to: the path leads to that place, with the new length. */
  method StoreReached(tree: Vfs, n: FsNode, ghost info: NodeInfo, ghost rc: u32, ghost path: seq<u8>, chunks: seq<seq<u8>>, counts: seq<u32>, ghost spare: nat)
    requires tree.Valid() && path != [] && Reached(tree, n, info, rc, path, tree.fs.Vol())
    requires Storable(tree.fs.Vol(), info, chunks, counts, spare)
    modifies tree`place, n, tree.fs, tree.fs.dev, tree.fs.dev.cbuf, tree.fs.dev.disk
    ensures tree.Valid() && tree.place == old(tree.place)[n := info.(len := |Concat(chunks)|)] && Alone(tree, n)
    ensures tree.root in tree.place && tree.place[tree.root] == Root(rc)
    ensures Resolve(tree.fs.Vol(), Root(rc), path) == Some(info.(len := |Concat(chunks)|))
    ensures info.inode in tree.fs.Vol().files && Concat(chunks) <= tree.fs.Vol().Contents(info.inode)
  {
    hide Fat.Valid, FatFs.Formed, FatFs.Vol, Closed, TreeOk, Resolve, StoreEffect, HasRoom, FatFs.Contents, Concat, DirList;
    hide Volume.Ok, Volume.Contents, Vfs.NodesOk, EntryElsewhere;
    ghost var v, len := tree.fs.Vol(), |Concat(chunks)|;
    Stages(v, tree.dirs, rc, path);
    ghost var d, k := ListedAt(v, tree.dirs, rc, path);
    StoreInTree(tree, n, d, k, chunks, counts, spare);
    StoreThenResolve(v, tree.fs.Vol(), tree.dirs, rc, path, Concat(chunks), len);
    StoreHolds(v, tree.fs.Vol(), info.inode, info.cl, info.off, Concat(chunks), len);
  }

  /** Find a path that leads to the place of n. */
  method FindAgain(tree: Vfs, n: FsNode, ghost info: NodeInfo, ghost rc: u32, path: seq<u8>) returns (r: FsNode?)
    requires tree.Valid() && 0 !in path && ShortParts(Parts(path)) && tree.root in tree.place && tree.place[tree.root] == Root(rc)
    requires n in tree.place && tree.place[n] == info && info.mask != 0 && Alone(tree, n)
    requires Resolve(tree.fs.Vol(), Root(rc), path) == Some(info)
    modifies tree`place, tree.place.Keys, tree.nameBuf, tree.fs.dev, tree.fs.dev.cbuf
    ensures tree.Valid() && tree.fs.Vol() == old(tree.fs.Vol())
    ensures r != null && (r == n || fresh(r)) && Describes(r, info)
  {
    hide Fat.Valid, FatFs.Formed, FatFs.Vol, Resolve, Parts, Describes, Vfs.NodesOk;
    r := tree.FindDirPath(tree.root, path);
  }

  /** Reading leaves the tree as it was. */
  method ReadInTree(tree: Vfs, n: FsNode, ghost info: NodeInfo, ghost w: seq<u8>, sizes: seq<u32>) returns (out: seq<u8>)
    requires tree.Valid() && Describes(n, info) && info.mask % 2 == 1 && info.inode in tree.fs.Vol().files
    requires w <= tree.fs.Vol().Contents(info.inode) && info.len == |w|
    modifies tree.fs.dev, tree.fs.dev.cbuf
    ensures tree.Valid() && out == w[..Min(Sum(sizes), |w|)]
  {
    hide Fat.Valid, FatFs.Formed, FatFs.Vol, Volume.Contents, Volume.Ok, Vfs.NodesOk, Sum;
    tree.fs.CacheApart();
    out := ReadAt(tree.fs, n, info, w, sizes);
  }

  /**
   Store through the node that a path led to, and find the path again in the same tree, with what was read of it before: the
   path leads to the same node, or to one just made, which has the new length.
   */
  method StoreAndFindAgain(tree: Vfs, n: FsNode, ghost info: NodeInfo, ghost rc: u32, path: seq<u8>, chunks: seq<seq<u8>>, counts: seq<u32>, ghost spare: nat)
    returns (r: FsNode?)
    requires tree.Valid() && path != [] && 0 !in path && ShortParts(Parts(path)) && Reached(tree, n, info, rc, path, tree.fs.Vol())
    requires Storable(tree.fs.Vol(), info, chunks, counts, spare)
    modifies tree`place, tree.place.Keys, tree.nameBuf, tree.fs, tree.fs.dev, tree.fs.dev.cbuf, tree.fs.dev.disk
    ensures tree.Valid() && r != null && (r == n || fresh(r)) && Describes(r, info.(len := |Concat(chunks)|))
    ensures info.inode in tree.fs.Vol().files && Concat(chunks) <= tree.fs.Vol().Contents(info.inode)
  {
    hide *;
    ReachedIs(tree, n, info, rc, path);
    ghost var len := |Concat(chunks)|;
    StoreReached(tree, n, info, rc, path, chunks, counts, spare);
    r := FindAgain(tree, n, info.(len := len), rc, path);
  }

  /** The round trip in one tree: what is read through the node found again is what was written. */
  method WriteThenReadInTree(tree: Vfs, n: FsNode, ghost info: NodeInfo, ghost rc: u32, path: seq<u8>, chunks: seq<seq<u8>>, counts: seq<u32>,
                             sizes: seq<u32>, ghost spare: nat)
    returns (r: FsNode?, out: seq<u8>)
    requires tree.Valid() && path != [] && 0 !in path && ShortParts(Parts(path)) && Reached(tree, n, info, rc, path, tree.fs.Vol())
    requires Storable(tree.fs.Vol(), info, chunks, counts, spare)
    modifies tree`place, tree.place.Keys, tree.nameBuf, tree.fs, tree.fs.dev, tree.fs.dev.cbuf, tree.fs.dev.disk
    ensures tree.Valid() && r != null && (r == n || fresh(r))
    ensures out == Concat(chunks)[..Min(Sum(sizes), |Concat(chunks)|)]
  {
    hide *;
    ReachedIs(tree, n, info, rc, path);
    StorableFits(tree.fs.Vol(), info, chunks, counts, spare);
    r := StoreAndFindAgain(tree, n, info, rc, path, chunks, counts, spare);
    out := ReadInTree(tree, r, info.(len := |Concat(chunks)|), Concat(chunks), sizes);
  }

  /** What is found at a path before a store, and after it. */
  lemma Stages(v: Volume, dirs: set<nat>, rc: u32, path: seq<u8>)
    requires v.Ok() && TreeOk(v, dirs) && rc in dirs && path != []
    ensures Closed(v, dirs)
    ensures var o := Resolve(v, Root(rc), path);
      && (o.Some? ==> o.value.mask in {FS_FILE, FS_DIR})
      && (o.Some? && o.value.mask % 2 == 1 ==> EntryElsewhere(v, o.value))
  {
    hide Closed, Resolve;
    TreeIsClosed(v, dirs);
    if Resolve(v, Root(rc), path).Some? {
      ResolvedMask(v, dirs, rc, path);
      if Resolve(v, Root(rc), path).value.mask % 2 == 1 {
        ResolvedHasEntry(v, dirs, rc, path);
      }
    }
  }

  /**
   Find the file a path leads to and, if it has a first cluster, write it in any pieces and close it; then mount again, so that every directory is read
   afresh, find the path again and read in any pieces: what comes back is what was written.
   */
  method WriteThenRead(fs: FatFs, rc: u32, ghost dirs: set<nat>, path: seq<u8>, chunks: seq<seq<u8>>, counts: seq<u32>,
                       sizes: seq<u32>, ghost spare: nat)
    returns (found: bool, out: seq<u8>)
    requires fs.Valid() && TreeOk(fs.Vol(), dirs) && rc in dirs
    requires path != [] && 0 !in path && ShortParts(Parts(path))
    requires var o := Resolve(fs.Vol(), Root(rc), path);
      o.Some? && o.value.mask % 2 == 1 && 2 <= o.value.inode ==> Storable(fs.Vol(), o.value, chunks, counts, spare)
    modifies fs, fs.dev, fs.dev.cbuf, fs.dev.disk
    ensures fs.Valid()
    ensures var o := old(Resolve(fs.Vol(), Root(rc), path)); found <==> o.Some? && o.value.mask % 2 == 1 && 2 <= o.value.inode
    ensures found ==> out == Concat(chunks)[..Min(Sum(sizes), |Concat(chunks)|)]
  {
    hide Fat.Valid, FatFs.Formed, FatFs.Vol, Closed, TreeOk, Resolve, Parts, StoreEffect, HasRoom, FatFs.Contents, Concat, Sum;
    hide Volume.Ok, Root, Volume.Contents;
    found, out := false, [];
    ghost var v, o := fs.Vol(), Resolve(fs.Vol(), Root(rc), path);
    Stages(v, dirs, rc, path);
    var n := MountAndFind(fs, rc, dirs, path);
    if n != null && n.mask % 2 == 1 && 2 <= n.inode {
      WriteAt(fs, n, o.value, chunks, counts, spare);
      ghost var info := o.value.(len := |Concat(chunks)|);
      StoreThenResolve(v, fs.Vol(), dirs, rc, path, Concat(chunks), |Concat(chunks)|);
      n := MountAndFind(fs, rc, dirs, path);
      found := true;
      out := ReadAt(fs, n, info, Concat(chunks), sizes);
    }
  }

  /** Whatever a path leads to is marked as a file or as a directory. */
  lemma ResolvedMask(v: Volume, dirs: set<nat>, rc: u32, path: seq<u8>)
    requires v.Ok() && Closed(v, dirs) && rc in dirs && path != [] && Resolve(v, Root(rc), path).Some?
    ensures Resolve(v, Root(rc), path).value.mask in {FS_FILE, FS_DIR}
  {
    hide DirList, Closed, Parts;
    var d, k := FoldIsListed(v, dirs, Root(rc), Parts(path));
    var m, s := ListedPlace(v, d, k);
  }

  lemma TreeIsClosed(v: Volume, dirs: set<nat>)
    requires v.Ok() && TreeOk(v, dirs)
    ensures Closed(v, dirs)
  {
  }
}
