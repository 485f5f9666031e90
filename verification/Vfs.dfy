/**
 The node layer: nodes are made when their directory is first looked into, mount points are followed, and a path
 is resolved one component at a time through a fixed 128-byte name buffer.
 */
module Vfs {
  import opened Wrappers
  import opened Bytes
  import opened FatDisk
  import opened Chains
  import opened FsTypes
  import opened FatFile
  import opened FatDir
  import opened Paths

  const NAME_BUF: nat := 128

  /** The fields of a node that the disk determines. */
  ghost predicate Describes(n: FsNode, info: NodeInfo)
    reads n`mask, n`inode, n`len, n`implCl, n`implOff
  {
    n.mask == info.mask && n.inode == info.inode && n.len == info.len && n.implCl == info.cl && n.implOff == info.off
  }

  /** A cached listing shows entry e as d. */
  ghost predicate Shows(d: Dirent, e: Entry, place: map<FsNode, NodeInfo>) {
    && d.name == e.name
    && (if d.node == null then e.node == None else d.node in place && e.node == Some(place[d.node]))
  }

  ghost predicate ShowsAll(first: seq<Dirent>, list: seq<Entry>, place: map<FsNode, NodeInfo>) {
    |first| == |list| && forall i :: 0 <= i < |list| ==> Shows(first[i], list[i], place)
  }

  /** A listing goes on showing its entries when more nodes are known. */
  lemma ShowsMore(first: seq<Dirent>, list: seq<Entry>, was: map<FsNode, NodeInfo>, place: map<FsNode, NodeInfo>)
    requires ShowsAll(first, list, was)
    requires forall m :: m in was ==> m in place && place[m] == was[m]
    ensures ShowsAll(first, list, place)
  {
    forall i | 0 <= i < |list|
      ensures Shows(first[i], list[i], place)
    {
      assert Shows(first[i], list[i], was);
    }
  }

  /** The directories of the tree: each is a chain, and what it lists as a directory is one too. */
  ghost predicate Closed(v: Volume, dirs: set<nat>)
    requires v.Ok()
  {
    forall h :: h in dirs ==> h in v.files && ListsOnly(DirList(v, h), dirs)
  }

  ghost predicate ListsOnly(l: seq<Entry>, dirs: set<nat>) {
    forall i :: 0 <= i < |l| ==> Inside(l[i].node, dirs)
  }

  ghost predicate Inside(o: Option<NodeInfo>, dirs: set<nat>) {
    o.Some? && o.value.mask % 2 == 0 ==> o.value.inode in dirs
  }

  ghost predicate Made(n: FsNode, info: NodeInfo, list: seq<Entry>)
    reads n
  {
    && Describes(n, info) && n.ptr == null && n.first == [] && !n.filled
    && exists i :: 0 <= i < |list| && list[i].node == Some(info)
  }

  lemma MadeIsInside(n: FsNode, info: NodeInfo, list: seq<Entry>, dirs: set<nat>)
    requires Made(n, info, list) && ListsOnly(list, dirs)
    ensures Inside(Some(info), dirs)
  {
  }

  lemma FoldFirst(v: Volume, p: NodeInfo, l: seq<seq<u8>>)
    requires v.Ok() && l != []
    ensures Fold(v, Some(p), l) == Fold(v, Lookup(v, p, l[0]), l[1..])
    ensures Fold(v, None, l) == None
    ensures forall o :: Fold(v, o, []) == o
  {
  }

  ghost predicate ShortParts(l: seq<seq<u8>>) {
    forall i :: 0 <= i < |l| ==> |l[i]| < 128
  }

  /** The parts of a path, cut after the first. */
  lemma PartsCut(s: seq<u8>, p: seq<u8>, l: nat)
    requires p == SkipSlashes(s) && l == UpToSlash(p) && ShortParts(Parts(s))
    ensures l < 128 && l <= |p| && ShortParts(Parts(p[l..])) && (l < |p| ==> |p[l..]| < |p|)
    ensures Parts(s) == [p[..l]] + (if l < |p| then Parts(p[l..]) else [])
  {
    assert p[..|p|] == p;
    assert |Parts(s)[0]| == l;
    if l < |p| {
      assert forall i :: 0 <= i < |Parts(p[l..])| ==> Parts(p[l..])[i] == Parts(s)[i + 1];
    } else {
      PartsOfNothing();
    }
  }

  class Vfs {
    const fs: FatFs
    const root: FsNode
    const nameBuf: array<u8>
    ghost var dirs: set<nat>
    ghost var place: map<FsNode, NodeInfo>

    /** What one node's fields must say. Only a directory's listing is ever filled. Only a volume's root, with mask 0, is mounted. */
    ghost predicate NodeOk(n: FsNode, v: Volume)
      requires v.Ok() && n in place
      reads this, place.Keys
    {
      && Inside(Some(place[n]), dirs)
      && (n.ptr != null ==> n.ptr in place && place[n.ptr] == place[n] && n.ptr.hops < n.hops && place[n].mask == 0)
      && (n.ptr == null ==> Describes(n, place[n]) && (n.first != [] || n.filled ==> Filled(n, v)))
    }

    ghost predicate Filled(n: FsNode, v: Volume)
      requires v.Ok() && n in place
      reads this, n`first
    {
      place[n].mask % 2 == 0 && place[n].inode in v.files && ShowsAll(n.first, DirList(v, place[n].inode), place)
    }

    ghost predicate NodesOk(v: Volume)
      requires v.Ok()
      reads this, place.Keys
    {
      Closed(v, dirs) && root in place && forall n :: n in place ==> NodeOk(n, v)
    }

    ghost predicate Valid()
      reads this, nameBuf, fs, fs.dev, fs.dev.disk, fs.dev.cbuf, place.Keys
    {
      && fs.Valid() && nameBuf.Length == 128 && fs.Outside(nameBuf)
      && NodesOk(fs.Vol())
    }

    /** Everything known before is still known, and what is new was made since. */
    twostate predicate Grew()
      reads this
    {
      dirs == old(dirs) && old(place.Keys) <= place.Keys && fresh(place.Keys - old(place.Keys)) &&
      forall n :: n in old(place) ==> place[n] == old(place[n])
    }

    /** Mount a volume: the root node points to a node for the volume's root directory. */
    constructor (fs: FatFs, rc: u32, ghost dirs: set<nat>)
      requires fs.Valid() && Closed(fs.Vol(), dirs) && rc in dirs
      ensures Valid() && this.fs == fs && this.dirs == dirs && fresh(nameBuf)
      ensures root in place && place[root] == NodeInfo(0, rc, 0, 0, 0) && fresh(place.Keys)
      ensures root.ptr != null && fresh(root.ptr) && root.ptr.ptr == null && root.ptr.first == []
    {
      hide NodesOk, Fat.Valid, Chained, FatOf, DataOf, CopyOf, DirList, Closed;
      this.fs := fs;
      this.dirs := dirs;
      var r := new FsNode();
      var nroot := new FsNode();
      nameBuf := new u8[NAME_BUF];
      root := r;
      place := map[r := NodeInfo(0, rc, 0, 0, 0), nroot := NodeInfo(0, rc, 0, 0, 0)];
      new;
      r.mask, r.ptr, r.hops := 755, nroot, 1;
      nroot.inode := rc;
      RootsOk(r, nroot, fs.Vol());
    }

    /** The volume's root directory is read when it is mounted. */
    method ReadRoot()
      requires Valid() && root.ptr != null && root.ptr.ptr == null && root.ptr.first == []
      modifies this`place, fs.dev, fs.dev.cbuf, root.ptr`first
      ensures Valid() && Grew() && fs.Vol() == old(fs.Vol())
      ensures root.ptr == old(root.ptr) && root.ptr != null && root.ptr in place && Filled(root.ptr, fs.Vol())
    {
      assert NodeOk(root, fs.Vol());
      hide NodesOk, Filled, Fat.Valid, FatFs.Formed, FatFs.Vol, DirList;
      Decode(root.ptr);
    }

    lemma RootsOk(r: FsNode, nroot: FsNode, v: Volume)
      requires v.Ok() && Closed(v, dirs) && place.Keys == {r, nroot} && place[r] == place[nroot] && root == r && place[r].mask == 0
      requires r.ptr == nroot && nroot.ptr == null && nroot.hops < r.hops && nroot.first == [] && !nroot.filled
      requires Describes(nroot, place[nroot]) && place[nroot].inode in dirs
      ensures NodesOk(v)
    {
    }

    /** Follow mount pointers. */
    method Follow(n: FsNode) returns (r: FsNode)
      requires fs.Formed() && n in place && NodesOk(fs.Vol())
      ensures r in place && r.ptr == null && place[r] == place[n]
    {
      r := n;
      while r.ptr != null
        invariant r in place && place[r] == place[n]
        decreases r.hops
      {
        assert NodeOk(r, fs.Vol());
        r := r.ptr;
      }
    }

    /** One new node for every entry that has one. */
    static method MakeEntries(list: seq<Entry>) returns (first: seq<Dirent>, ghost made: map<FsNode, NodeInfo>)
      ensures fresh(made.Keys) && ShowsAll(first, list, made)
      ensures forall n :: n in made ==> Made(n, made[n], list)
    {
      first, made := [], map[];
      for i := 0 to |list|
        invariant fresh(made.Keys) && ShowsAll(first, list[..i], made)
        invariant forall n :: n in made ==> Made(n, made[n], list)
      {
        var e := list[i];
        if e.node == None {
          first := first + [Dirent(e.name, null)];
        } else {
          var info := e.node.value;
          var n := new FsNode();
          n.mask, n.inode, n.len, n.implCl, n.implOff := info.mask, info.inode, info.len, info.cl, info.off;
          first := first + [Dirent(e.name, n)];
          made := made[n := info];
        }
      }
      assert list[..|list|] == list;
    }

    /** Store a directory's decoded listing in its node. */
    method Attach(n: FsNode, list: seq<Entry>, ghost v: Volume)
      requires v.Ok() && NodesOk(v) && n in place && n.ptr == null && place[n].mask % 2 == 0 && n.first == []
      requires place[n].inode in v.files && list == DirList(v, place[n].inode)
      modifies this`place, n`first
      ensures NodesOk(v) && Grew() && Filled(n, v)
    {
      hide DirList, ShowsAll, ListsOnly, Inside, Describes;
      ghost var was := place;
      IsDirectory(n, v);
      assert NodeOk(n, v);
      var first;
      ghost var made;
      first, made := MakeEntries(list);
      n.first := first;
      place := place + made;
      ShowsMore(first, list, made, place);
      forall m | m in place
        ensures NodeOk(m, v)
      {
        if m in made {
          MadeIsInside(m, made[m], list, dirs);
        } else {
          assert old(NodeOk(m, v));
          if m != n && m.ptr == null && (m.first != [] || m.filled) {
            ShowsMore(m.first, DirList(v, was[m].inode), was, place);
          }
        }
      }
    }

    /** Reading a directory changes no more than the driver's cache. */
    method Load(n: FsNode) returns (list: seq<Entry>)
      requires Valid() && n in place && n.ptr == null && place[n].mask % 2 == 0
      modifies fs.dev, fs.dev.cbuf
      ensures Valid() && fs.Vol() == old(fs.Vol())
      ensures place[n].inode in fs.Vol().files && list == DirList(fs.Vol(), place[n].inode)
    {
      hide NodesOk, Fat.Valid, FatFs.Formed, FatFs.Vol, DirList, ListsOnly;
      fs.CacheApart();
      IsDirectory(n, fs.Vol());
      list := ReadDir(fs, n.inode);
    }

    /** Read a directory from the disk into its node's listing. */
    method Decode(n: FsNode)
      requires Valid() && n in place && n.ptr == null && place[n].mask % 2 == 0 && n.first == []
      modifies this`place, fs.dev, fs.dev.cbuf, n`first
      ensures Valid() && Grew() && fs.Vol() == old(fs.Vol())
      ensures Filled(n, fs.Vol())
    {
      hide NodesOk, Filled, Fat.Valid, FatFs.Formed, FatFs.Vol, DirList, Volume.Ok;
      var list := Load(n);
      Attach(n, list, fs.Vol());
    }

    lemma IsDirectory(n: FsNode, v: Volume)
      requires v.Ok() && NodesOk(v) && n in place && n.ptr == null && place[n].mask % 2 == 0
      ensures n.inode == place[n].inode && place[n].inode in v.files && ListsOnly(DirList(v, place[n].inode), dirs)
    {
      assert NodeOk(n, v);
    }

    /** What a lookup returns: no node, or the node that stands for the entry found. */
    ghost predicate Found(r: FsNode?, o: Option<NodeInfo>)
      reads this
    {
      if r == null then o == None else r in place && o == Some(place[r])
    }

    /** The node of a file or directory has the fields that the disk says, its length included. */
    ghost predicate Told(r: FsNode?)
      reads this, r
    {
      r != null && r in place && place[r].mask != 0 ==> Describes(r, place[r])
    }

    lemma AllTold(r: FsNode?, v: Volume)
      requires v.Ok() && NodesOk(v)
      ensures Told(r)
    {
      assert r != null && r in place ==> NodeOk(r, v);
    }

    /** Fill a directory, once. */
    method FillDir(n: FsNode)
      requires Valid() && n in place && n.ptr == null && place[n].mask % 2 == 0
      modifies this`place, fs.dev, fs.dev.cbuf, n`first, n`filled
      ensures Valid() && Grew() && fs.Vol() == old(fs.Vol())
      ensures Filled(n, fs.Vol())
    {
      hide NodesOk, Filled, Fat.Valid, FatFs.Formed, FatFs.Vol, DirList;
      Facts(n, [], fs.Vol());
      if n.first == [] {
        Decode(n);
      }
      Mark(n, fs.Vol());
    }

    method Mark(n: FsNode, ghost v: Volume)
      requires v.Ok() && NodesOk(v) && n in place && Filled(n, v)
      modifies n`filled
      ensures NodesOk(v) && Filled(n, v)
    {
      hide ShowsAll, Describes, Closed, DirList;
      n.filled := true;
      forall m | m in place
        ensures NodeOk(m, v)
      {
        assert old(NodeOk(m, v));
      }
    }

    /** Fill a directory unless somebody has. */
    method FillOnce(d: FsNode)
      requires Valid() && d in place && d.ptr == null && place[d].mask % 2 == 0
      modifies this`place, fs.dev, fs.dev.cbuf, d`first, d`filled
      ensures Valid() && Grew() && fs.Vol() == old(fs.Vol())
      ensures Filled(d, fs.Vol())
    {
      hide Fat.Valid, FatFs.Formed, FatFs.Vol, DirList, NodesOk, Filled, Lookup;
      Facts(d, [], fs.Vol());
      if d.first == [] && !d.filled {
        FillDir(d);
      }
    }

    /** Find a name in a directory, filling the directory first if nobody has. */
    method FindDir(n: FsNode, s: seq<u8>) returns (r: FsNode?)
      requires Valid() && n in place
      modifies this`place, fs.dev, fs.dev.cbuf, place.Keys
      ensures Valid() && Grew() && fs.Vol() == old(fs.Vol())
      ensures Found(r, Lookup(fs.Vol(), old(place[n]), s)) && Told(r)
    {
      hide Fat.Valid, FatFs.Formed, FatFs.Vol, DirList, Closed, ShowsAll, NodesOk, Filled, Lookup, Volume.Ok, Geometry.Valid;
      var d := Follow(n);
      Facts(d, s, fs.Vol());
      if d.mask % 2 == 1 {
        return null;
      }
      FillOnce(d);
      r := Search(d, s, fs.Vol());
      AllTold(r, fs.Vol());
    }

    lemma Facts(d: FsNode, s: seq<u8>, v: Volume)
      requires v.Ok() && NodesOk(v) && d in place && d.ptr == null
      ensures place[d].mask % 2 == 1 ==> Lookup(v, place[d], s) == None
      ensures d.mask == place[d].mask && (d.first != [] || d.filled ==> Filled(d, v))
    {
      assert NodeOk(d, v);
    }

    /** Walk the listing to the first entry with the name. */
    method Search(d: FsNode, s: seq<u8>, ghost v: Volume) returns (r: FsNode?)
      requires v.Ok() && d in place && Filled(d, v)
      ensures Found(r, Lookup(v, place[d], s))
    {
      ghost var list := DirList(v, place[d].inode);
      var i := 0;
      while i < |d.first| && d.first[i].name != s
        invariant 0 <= i <= |list| && FirstNamed(list, s) == FirstNamed(list[i..], s)
      {
        assert Shows(d.first[i], list[i], place);
        assert list[i..][1..] == list[i + 1..];
        i := i + 1;
      }
      if i == |d.first| {
        return null;
      }
      assert Shows(d.first[i], list[i], place);
      r := d.first[i].node;
    }

    /** Copy a name to the name buffer, with its end mark. */
    method Isolate(p: seq<u8>, l: nat) returns (name: seq<u8>)
      requires nameBuf.Length == 128 && l < 128 && l <= |p| && 0 !in p
      modifies nameBuf
      ensures name == p[..l]
    {
      for i := 0 to l
        invariant nameBuf[..i] == p[..i]
      {
        nameBuf[i] := p[i];
      }
      nameBuf[l] := 0;
      assert nameBuf[..l] == p[..l] && nameBuf[..][..l] == p[..l];
      CStringIs(nameBuf[..], p[..l]);
      name := CString(nameBuf[..]);
    }

    /** Cut the first component off a path and copy it to the name buffer. */
    method Component(s: seq<u8>) returns (name: seq<u8>, rest: seq<u8>, more: bool)
      requires nameBuf.Length == 128 && 0 !in s && ShortParts(Parts(s))
      modifies nameBuf
      ensures Parts(s) == [name] + (if more then Parts(rest) else [])
      ensures 0 !in rest && ShortParts(Parts(rest)) && (more ==> |rest| < |s|)
    {
      var p := s;
      while p != [] && p[0] == SLASH
        invariant SkipSlashes(p) == SkipSlashes(s) && 0 !in p && |p| <= |s|
        decreases |p|
      {
        p := p[1..];
      }
      var l := UpToSlash(p);
      PartsCut(s, p, l);
      name := Isolate(p, l);
      rest, more := p[l..], l < |p|;
    }

    /** One component of a path. */
    method FindNext(n: FsNode, s: seq<u8>) returns (r: FsNode?, rest: seq<u8>, more: bool)
      requires Valid() && n in place && 0 !in s && ShortParts(Parts(s))
      modifies this`place, fs.dev, fs.dev.cbuf, place.Keys, nameBuf
      ensures Valid() && Grew() && fs.Vol() == old(fs.Vol())
      ensures 0 !in rest && ShortParts(Parts(rest)) && (more ==> |rest| < |s|)
      ensures r != null ==> r in place
      ensures Fold(fs.Vol(), Some(old(place[n])), Parts(s)) ==
              (if r == null then None else if more then Fold(fs.Vol(), Some(place[r]), Parts(rest)) else Some(place[r]))
    {
      hide Fat.Valid, FatFs.Formed, FatFs.Vol, DirList, NodesOk, Lookup, Parts;
      var d := Follow(n);
      var name;
      name, rest, more := Component(s);
      FoldFirst(fs.Vol(), place[d], Parts(s));
      r := FindDir(d, name);
    }

    /** Resolve a path, component by component. The answer depends on the disk alone and not on what was filled before. */
    method FindDirPath(n: FsNode, s: seq<u8>) returns (r: FsNode?)
      requires Valid() && n in place && 0 !in s && ShortParts(Parts(s))
      modifies this`place, fs.dev, fs.dev.cbuf, place.Keys, nameBuf
      ensures Valid() && Grew() && fs.Vol() == old(fs.Vol())
      ensures Found(r, Resolve(fs.Vol(), old(place[n]), s)) && Told(r)
    {
      hide Fat.Valid, FatFs.Formed, FatFs.Vol, DirList, NodesOk, Lookup, Parts;
      if s == [] {
        r := Follow(n);
        AllTold(r, fs.Vol());
        return;
      }
      ghost var v := fs.Vol();
      var np: FsNode?, p, more := n, s, true;
      while more && np != null
        invariant Valid() && Grew() && fs.Vol() == v
        invariant np != null ==> np in place
        invariant 0 !in p && ShortParts(Parts(p))
        invariant Resolve(v, old(place[n]), s) ==
          (if np == null then None else if more then Fold(v, Some(place[np]), Parts(p)) else Some(place[np]))
        decreases more, |p|
      {
        np, p, more := FindNext(np, p);
      }
      r := np;
      AllTold(r, fs.Vol());
    }

    /** How opening a file finds its node: only paths that start at the root are understood. */
    method FindRooted(p: seq<u8>) returns (r: FsNode?)
      requires Valid() && 0 !in p && (p != [] ==> ShortParts(Parts(p[1..])))
      modifies this`place, fs.dev, fs.dev.cbuf, place.Keys, nameBuf
      ensures Valid() && Grew() && fs.Vol() == old(fs.Vol())
      ensures Found(r, if p != [] && p[0] == '/' as u8 then Resolve(fs.Vol(), old(place[root]), p[1..]) else None) && Told(r)
    {
      hide Fat.Valid, FatFs.Formed, FatFs.Vol, DirList, Lookup, Parts, Resolve;
      if p == [] || p[0] != SLASH {
        return null;
      }
      r := FindDirPath(root, p[1..]);
    }
  }
}
