/** Whole sessions on a tree of directories: it stays a tree, and every path goes on leading where it led. */
module Trees {
  import opened Wrappers
  import opened Bytes
  import opened Chains
  import opened FsTypes
  import opened FatDir
  import opened DirTheory
  import opened FatListing
  import opened FatSize
  import opened FileIo
  import opened FatRuns
  import opened Paths
  import opened Vfs
  import opened EndToEnd

  // ---- What a tree is

  /** A listed node is a directory of the tree if it is marked as one, and no directory otherwise; it has a chain or no cluster. */
  predicate Fits(o: Option<NodeInfo>, dirs: set<nat>, files: set<nat>) {
    o.Some? ==>
      && (o.value.mask % 2 == 0 <==> o.value.inode in dirs)
      && (o.value.inode < 2 || o.value.inode in files)
  }

  ghost predicate AllFit(l: seq<Entry>, dirs: set<nat>, files: set<nat>) {
    forall i :: 0 <= i < |l| ==> Fits(l[i].node, dirs, files)
  }

  ghost predicate Tree(v: Volume, dirs: set<nat>)
    requires v.Ok()
  {
    InOrder(v, dirs) && forall d :: d in dirs ==> d in v.files && AllFit(DirList(v, d), dirs, v.files.Keys)
  }

  lemma TreeHas(v: Volume, dirs: set<nat>, d: nat)
    requires v.Ok() && Tree(v, dirs) && d in dirs
    ensures d in v.files && Orderly(v, d) && AllFit(DirList(v, d), dirs, v.files.Keys)
  {
    hide DirList, Orderly, AllFit;
  }

  /** A tree is closed, and lists no directory as a file. */
  lemma TreeIsOk(v: Volume, dirs: set<nat>)
    requires v.Ok() && Tree(v, dirs)
    ensures TreeOk(v, dirs)
  {
    hide DirList, Tree;
    forall d | d in dirs
      ensures d in v.files && ListsOnly(DirList(v, d), dirs) && ListsFiles(DirList(v, d), dirs)
    {
      TreeHas(v, dirs, d);
      forall i | 0 <= i < |DirList(v, d)|
        ensures Inside(DirList(v, d)[i].node, dirs) && IsNoDir(DirList(v, d)[i].node, dirs)
      {
        assert Fits(DirList(v, d)[i].node, dirs, v.files.Keys);
      }
    }
  }

  /** A root directory of one zeroed cluster is a tree: it lists nothing. */
  lemma ZeroedRootIsTree(v: Volume, rc: nat)
    requires v.Ok() && rc in v.files && v.files[rc] == [rc] && rc < |v.data| && v.data[rc] == Zeros(v.clsz)
    ensures DirList(v, rc) == [] && Tree(v, {rc})
  {
    ZeroDirectory(v.data, rc, v.clsz);
  }

  /** There is such a volume: cluster 2 is the root directory, the others are unused. */
  lemma FormattedIsTree(clusters: nat, clsz: nat)
    requires 3 <= clusters <= 0x0fff_fff8 && 0 < clsz && clsz % 64 == 0
    ensures var fat := seq(clusters, i => if i < 3 then 0x0fff_fff8 else 0);
      var v := Volume(fat, seq(clusters, _ => Zeros(clsz)), map[2 := [2]], clsz);
      v.Ok() && Tree(v, {2})
  {
    hide Tree;
    var fat: seq<u32> := seq(clusters, i => if i < 3 then 0x0fff_fff8 else 0);
    var v := Volume(fat, seq(clusters, _ => Zeros(clsz)), map[2 := [2]], clsz);
    ZeroedRootIsTree(v, 2);
  }

  // ---- One act

  lemma FitsMore(o: Option<NodeInfo>, dirs: set<nat>, files: set<nat>, fcl: nat)
    requires Fits(o, dirs, files) && fcl !in files && fcl >= 2
    ensures Fits(o, dirs, files + {fcl}) && Fits(o, dirs + {fcl}, files + {fcl})
  {
  }

  lemma NewEntryFits(fn: seq<u8>, tp: u32, fcl: u32, cl: nat, s: nat, dirs: set<nat>, files: set<nat>)
    requires fcl !in dirs
    ensures Fits(NewEntry(fn, tp, fcl, cl, s).node, if tp == FS_DIR then dirs + {fcl} else dirs, files + {fcl})
  {
  }

  lemma HeadIsCluster(v: Volume, h: nat)
    requires v.Ok() && h in v.files
    ensures h >= 2
  {
  }

  lemma CreatingKeepsTree(v: Volume, a: Act, v': Volume, dirs: set<nat>)
    requires v.Ok() && v'.Ok() && Tree(v, dirs) && a.Create? && Does(v, a, v', dirs)
    ensures forall d :: d in DirsAfter(dirs, a) ==> d in v'.files && AllFit(DirList(v', d), DirsAfter(dirs, a), v'.files.Keys)
  {
    hide DirList, Tree, DirOk, FatCreate.AddEffect, NewEntry, Volume.Ok, Volume.Contents, Fits;
    var after, fcl := DirsAfter(dirs, a), a.fcl;
    TreeHas(v, dirs, a.h);
    CreatedIsListed(v, v', a.h, a.fn, a.tp, a.cl, a.i, fcl);
    HeadIsCluster(v', fcl);
    forall d | d in after
      ensures d in v'.files && AllFit(DirList(v', d), after, v'.files.Keys)
    {
      if d in dirs {
        TreeHas(v, dirs, d);
        var l := DirList(v', d);
        forall i | 0 <= i < |l|
          ensures Fits(l[i].node, after, v'.files.Keys)
        {
          if i < |DirList(v, d)| {
            assert l[i] == DirList(v, d)[i];
            FitsMore(l[i].node, dirs, v.files.Keys, fcl);
          } else {
            if fcl in dirs { TreeHas(v, dirs, fcl); }
            NewEntryFits(a.fn, a.tp, fcl, a.cl, a.i / 32, dirs, v.files.Keys);
          }
        }
      }
    }
  }

  lemma WritingKeepsTree(v: Volume, a: Act, v': Volume, dirs: set<nat>)
    requires v.Ok() && v'.Ok() && Tree(v, dirs) && a.Write? && Does(v, a, v', dirs)
    ensures forall d :: d in dirs ==> d in v'.files && AllFit(DirList(v', d), dirs, v'.files.Keys)
  {
    hide DirList, Tree, TreeOk, StoreEffect, Volume.Ok, WithLen;
    TreeIsOk(v, dirs);
    var info := DirList(v, a.d)[a.k].node.value;
    StoreRelists(v, v', dirs, a.h, a.d, a.k, a.w, a.len);
    StoresIn(v, v', a.h, info.cl, info.off, a.w, a.len);
    forall d | d in dirs
      ensures d in v'.files && AllFit(DirList(v', d), dirs, v'.files.Keys)
    {
      TreeHas(v, dirs, d);
      ResizedFit(DirList(v, d), info.cl, info.off, a.len, dirs, v.files.Keys);
    }
  }

  lemma ResizedFit(l: seq<Entry>, cl: nat, off: nat, len: u32, dirs: set<nat>, files: set<nat>)
    requires AllFit(l, dirs, files)
    ensures AllFit(WithLen(l, cl, off, len), dirs, files)
  {
    forall i | 0 <= i < |l|
      ensures Fits(WithLen(l, cl, off, len)[i].node, dirs, files)
    {
      assert Fits(l[i].node, dirs, files) && WithLen(l, cl, off, len)[i] == Resized(l[i], cl, off, len);
    }
  }

  /** Creating a file or a directory, or writing a file, leaves a tree, of one directory more if one was made. */
  lemma ActKeepsTree(v: Volume, a: Act, v': Volume, dirs: set<nat>)
    requires v.Ok() && v'.Ok() && Tree(v, dirs) && Does(v, a, v', dirs)
    ensures Tree(v', DirsAfter(dirs, a))
  {
    hide DirList, Orderly, Does, Volume.Ok, AllFit;
    ActKeepsOrder(v, a, v', dirs);
    if a.Create? {
      CreatingKeepsTree(v, a, v', dirs);
    } else {
      WritingKeepsTree(v, a, v', dirs);
    }
  }

  // ---- Sessions

  /** Over every session of creations and writes the tree stays a tree. */
  lemma {:induction false} SessionKeepsTree(vs: seq<Volume>, acts: seq<Act>, dirs: set<nat>)
    requires Session(vs, acts, dirs) && Tree(vs[0], dirs)
    ensures vs[|acts|].Ok() && Tree(vs[|acts|], AllDirs(dirs, acts))
    decreases |acts|
  {
    hide Does, Volume.Ok, Tree;
    if acts != [] {
      ActKeepsTree(vs[0], acts[0], vs[1], dirs);
      SessionKeepsTree(vs[1..], acts[1..], DirsAfter(dirs, acts[0]));
    }
  }

  /** The same node but for its size. */
  predicate SameNode(o: Option<NodeInfo>, o': Option<NodeInfo>) {
    (o.Some? <==> o'.Some?) && (o.Some? ==> o'.value == o.value.(len := o'.value.len))
  }

  /** Adding entries behind the old ones does not change what an old name stands for. */
  lemma {:induction false} NameStays(l: seq<Entry>, l': seq<Entry>, name: seq<u8>)
    requires Continues(l, l') && FirstNamed(l, name).Some?
    ensures SameNode(FirstNamed(l, name), FirstNamed(l', name))
  {
    assert SameFile(l[0], l'[0]);
    if l[0].name != name {
      assert forall k :: 0 <= k < |l[1..]| ==> SameFile(l[k + 1], l'[k + 1]) && l[1..][k] == l[k + 1] && l'[1..][k] == l'[k + 1];
      NameStays(l[1..], l'[1..], name);
    }
  }

  ghost predicate AllContinue(v: Volume, v': Volume, dirs: set<nat>)
    requires v.Ok() && v'.Ok()
  {
    forall d :: d in dirs ==> d in v.files && d in v'.files && Continues(DirList(v, d), DirList(v', d))
  }

  lemma {:induction false} PathStays(v: Volume, v': Volume, dirs: set<nat>, p: NodeInfo, p': NodeInfo, parts: seq<seq<u8>>)
    requires v.Ok() && v'.Ok() && Closed(v, dirs) && AllContinue(v, v', dirs)
    requires SameNode(Some(p), Some(p')) && (p.mask % 2 == 0 ==> p.inode in dirs)
    requires Fold(v, Some(p), parts).Some?
    ensures SameNode(Fold(v, Some(p), parts), Fold(v', Some(p'), parts))
    decreases |parts|
  {
    hide DirList, Closed, Continues, FirstNamed;
    if parts != [] {
      FoldFirst(v, p, parts);
      FoldFirst(v', p', parts);
      var o, o' := Lookup(v, p, parts[0]), Lookup(v', p', parts[0]);
      assert o.Some?;
      NameStays(DirList(v, p.inode), DirList(v', p.inode), parts[0]);
      var k := FirstNamedIsListed(DirList(v, p.inode), parts[0]);
      ClosedHas(v, dirs, p.inode);
      PathStays(v, v', dirs, o.value, o'.value, parts[1..]);
    }
  }

  predicate NotWritten(acts: seq<Act>, f: nat) {
    forall i :: 0 <= i < |acts| && acts[i].Write? ==> acts[i].h != f
  }

  /**
   Over every session on a tree: a path that led to a file or a directory leads to the same one at the end, and only its
   size may be another; and if it led to a file that was not written, that file has the same bytes.
   */
  lemma SessionKeepsPaths(vs: seq<Volume>, acts: seq<Act>, dirs: set<nat>, rc: u32, path: seq<u8>)
    requires Session(vs, acts, dirs) && Tree(vs[0], dirs) && rc in dirs
    requires Resolve(vs[0], Root(rc), path).Some?
    ensures vs[|acts|].Ok() && SameNode(Resolve(vs[0], Root(rc), path), Resolve(vs[|acts|], Root(rc), path))
    ensures var info := Resolve(vs[0], Root(rc), path).value;
      info.mask % 2 == 1 && info.inode in vs[0].files && NotWritten(acts, info.inode) ==>
        info.inode in vs[|acts|].files && vs[|acts|].Contents(info.inode) == vs[0].Contents(info.inode)
  {
    hide DirList, Does, Volume.Ok, Volume.Contents, Continues, Parts, Orderly, AllFit, Closed, TreeOk;
    SessionKeepsDirectories(vs, acts, dirs);
    var v, v', info := vs[0], vs[|acts|], Resolve(vs[0], Root(rc), path).value;
    TreeIsOk(v, dirs);
    TreeIsClosed(v, dirs);
    if path != [] {
      PathStays(v, v', dirs, Root(rc), Root(rc), Parts(path));
    }
    if info.mask % 2 == 1 && info.inode in v.files && NotWritten(acts, info.inode) {
      var d, k := FoldIsListed(v, dirs, Root(rc), Parts(path));
      TreeHas(v, dirs, d);
      ListedFits(DirList(v, d), k, dirs, v.files.Keys);
      SessionKeepsFiles(vs, acts, dirs, info.inode);
    }
  }

  lemma ListedFits(l: seq<Entry>, k: nat, dirs: set<nat>, files: set<nat>)
    requires AllFit(l, dirs, files) && k < |l|
    ensures Fits(l[k].node, dirs, files)
  {
  }
}
