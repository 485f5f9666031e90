/** Whole sessions on a volume: files created and written in any order keep every directory in order and every old entry. */
module FatRuns {
  import opened Bytes
  import opened Chains
  import opened FsTypes
  import opened FatDir
  import opened DirTheory
  import opened FatCreate
  import opened FatListing
  import opened FatSize
  import opened FileIo
  import opened FatSession

  // ---- What directory order depends on

  /** The same first byte and the same attribute in every slot. */
  ghost predicate SameMarks(b: seq<u8>, b': seq<u8>) {
    |b'| == |b| && forall k: nat :: 32 * k + 32 <= |b| ==> b'[32 * k] == b[32 * k] && b'[32 * k + 11] == b[32 * k + 11]
  }

  ghost predicate MarksKept(data: seq<seq<u8>>, data': seq<seq<u8>>, path: seq<nat>)
    requires InData(data, path) && InData(data', path)
  {
    forall i :: 0 <= i < |path| ==> SameMarks(data[path[i]], data'[path[i]])
  }

  /** A walk waits for a short slot exactly after a long slot. */
  lemma SlotsWait(st: Scan, bytes: seq<u8>, cl: nat, n: nat)
    requires st.Ok() && 32 * n <= |bytes|
    ensures ScanSlots(st, bytes, cl, n).fld == if n == 0 then st.fld else bytes[32 * (n - 1) + 11] == ATTR_LFN
  {
    if n > 0 {
      assert SlotAt(bytes, n - 1)[11] == bytes[32 * (n - 1) + 11];
    }
  }

  lemma SameWait(st: Scan, st': Scan, b: seq<u8>, b': seq<u8>, cl: nat, n: nat)
    requires st.Ok() && st'.Ok() && st'.fld == st.fld && SameMarks(b, b') && 32 * n <= |b|
    ensures ScanSlots(st', b', cl, n).fld == ScanSlots(st, b, cl, n).fld
  {
    SlotsWait(st, b, cl, n);
    SlotsWait(st', b', cl, n);
    assert n > 0 ==> 32 * (n - 1) + 32 <= |b|;
  }

  lemma {:induction false} ChainsWait(data: seq<seq<u8>>, data': seq<seq<u8>>, path: seq<nat>, m: nat)
    requires InData(data, path) && InData(data', path) && MarksKept(data, data', path) && m <= |path|
    ensures ScanChain(data', path, m).fld == ScanChain(data, path, m).fld
    decreases m
  {
    if m > 0 {
      var c := path[m - 1];
      ChainsWait(data, data', path, m - 1);
      assert SameMarks(data[c], data'[c]);
      SameWait(ScanChain(data, path, m - 1), ScanChain(data', path, m - 1), data[c], data'[c], c, |data[c]| / 32);
    }
  }

  lemma PairsKept(data: seq<seq<u8>>, data': seq<seq<u8>>, path: seq<nat>, m: nat, s: nat)
    requires InData(data, path) && InData(data', path) && MarksKept(data, data', path)
    ensures PairAt(data', path, m, s) <==> PairAt(data, path, m, s)
    ensures PairAt(data, path, m, s) && QuietFrom(data, path, m, s) ==> QuietFrom(data', path, m, s)
    ensures PairAt(data, path, m, s) ==> ScanTo(data', path, m, s).fld == ScanTo(data, path, m, s).fld
  {
    if m < |path| {
      var b, b' := data[path[m]], data'[path[m]];
      assert SameMarks(b, b');
      if 32 * s + 64 <= |b| {
        assert b'[32 * (s + 1)] == b[32 * (s + 1)] && b'[32 * s] == b[32 * s];
        ChainsWait(data, data', path, m);
        SameWait(ScanChain(data, path, m), ScanChain(data', path, m), b, b', path[m], s);
      }
    }
  }

  /** Order depends on the marks alone. */
  lemma MarksKeepOrder(data: seq<seq<u8>>, data': seq<seq<u8>>, path: seq<nat>)
    requires InData(data, path) && InData(data', path) && MarksKept(data, data', path) && DirOk(data, path)
    ensures DirOk(data', path)
  {
    hide QuietFrom, ScanTo, ScanChain;
    ChainsWait(data, data', path, |path|);
    forall m: nat, s: nat | PairAt(data', path, m, s)
      ensures QuietFrom(data', path, m, s) && !ScanTo(data', path, m, s).fld
    {
      PairsKept(data, data', path, m, s);
    }
  }

  lemma StoreKeepsMarks(b: seq<u8>, s: nat, len: u32)
    requires 32 * s + 32 <= |b|
    ensures SameMarks(b, Splice(b, 32 * s + 28, Le32(len)))
  {
  }

  // ---- One store

  /** The cluster stored to is in directory d or in no cluster of it. */
  lemma OtherDirectory(v: Volume, v': Volume, h: nat, d: nat, c: nat, off: nat, w: seq<u8>, len: u32)
    requires v.Ok() && v'.Ok() && StoreEffect(v, v', h, c, off, w, len) && d in v.files && d != h && c !in v.files[d]
    ensures d in v'.files && DirList(v', d) == DirList(v, d) && (Orderly(v', d) <==> Orderly(v, d))
  {
    PathFacts(v, d);
    PathFacts(v', d);
    hide Flat, Splice, Chained, ScanChain, DirOk;
    var path := v.files[d];
    assert v'.files[d] == path && Disjoint(path, v'.files[h]);
    forall i | 0 <= i < |path|
      ensures v'.data[path[i]] == v.data[path[i]]
    {
      assert path[i] in path;
    }
    DirFrame(v.data, v'.data, path);
  }

  /** Storing a file keeps every other directory in order, whichever kind of slot its node remembers. */
  lemma StoringKeepsOrder(v: Volume, v': Volume, h: nat, d: nat, c: nat, s: nat, w: seq<u8>, len: u32)
    requires v.Ok() && v'.Ok() && StoreEffect(v, v', h, c, 32 * s, w, len) && d != h && Orderly(v, d)
    ensures Orderly(v', d)
  {
    hide Flat, Splice, Chained, ScanChain, DirOk, StoreEffect;
    StoresIn(v, v', h, c, 32 * s, w, len);
    if c in v.files[d] {
      var m :| 0 <= m < |v.files[d]| && v.files[d][m] == c;
      DirectoryFrame(v, v', h, d, m, s, w, len);
      StoreKeepsMarks(v.data[c], s, len);
      MarksKeepOrder(v.data, v'.data, v.files[d]);
    } else {
      OtherDirectory(v, v', h, d, c, 32 * s, w, len);
    }
  }

  lemma StoresIn(v: Volume, v': Volume, h: nat, c: nat, off: nat, w: seq<u8>, len: u32)
    requires v.Ok() && v'.Ok() && StoreEffect(v, v', h, c, off, w, len)
    ensures h in v.files && 2 <= c < |v.data|
    ensures v'.files.Keys == v.files.Keys
  {
  }

  // ---- Sessions

  ghost predicate InOrder(v: Volume, dirs: set<nat>)
    requires v.Ok()
  {
    forall d :: d in dirs ==> Orderly(v, d)
  }

  /** A file is created in directory h, or file h is written through the node of entry k of directory d. */
  datatype Act =
    | Create(h: nat, fn: seq<u8>, tp: u32, cl: u32, i: nat, fcl: u32)
    | Write(h: nat, d: nat, k: nat, w: seq<u8>, len: u32)

  ghost predicate Does(v: Volume, a: Act, v': Volume, dirs: set<nat>)
    requires v.Ok() && v'.Ok()
  {
    match a
    case Create(h, fn, tp, cl, i, fcl) =>
      h in dirs && AddEffect(v, v', h, fn, tp, cl, i, fcl) && forall k :: 0 <= k < |fn| ==> fn[k] != 0
    case Write(h, d, k, w, len) =>
      && h in v.files && h !in dirs && d in dirs && d in v.files
      && k < |DirList(v, d)| && DirList(v, d)[k].node.Some?
      && var info := DirList(v, d)[k].node.value;
        info.inode == h && StoreEffect(v, v', h, info.cl, info.off, w, len)
  }

  /** The directories after an act. */
  function DirsAfter(dirs: set<nat>, a: Act): set<nat> {
    if a.Create? && a.tp == FS_DIR then dirs + {a.fcl} else dirs
  }

  ghost predicate Session(vs: seq<Volume>, acts: seq<Act>, dirs: set<nat>)
    decreases |acts|
  {
    && |vs| == |acts| + 1 && vs[0].Ok()
    && (acts != [] ==> vs[1].Ok() && Does(vs[0], acts[0], vs[1], dirs) && Session(vs[1..], acts[1..], DirsAfter(dirs, acts[0])))
  }

  /** The same entry but for its size. */
  predicate SameFile(e: Entry, e': Entry) {
    && e'.name == e.name && (e.node.Some? <==> e'.node.Some?)
    && (e.node.Some? ==> e'.node.value == e.node.value.(len := e'.node.value.len))
  }

  /** The old entries first, in their order, with their names, types and clusters. */
  ghost predicate Continues(list: seq<Entry>, list': seq<Entry>) {
    |list| <= |list'| && forall k :: 0 <= k < |list| ==> SameFile(list[k], list'[k])
  }

  lemma ContinuesTrans(a: seq<Entry>, b: seq<Entry>, c: seq<Entry>)
    requires Continues(a, b) && Continues(b, c)
    ensures Continues(a, c)
  {
    forall k | 0 <= k < |a|
      ensures SameFile(a[k], c[k])
    {
      assert SameFile(a[k], b[k]) && SameFile(b[k], c[k]);
    }
  }

  /** What one act does to directory d. */
  lemma ActKeeps(v: Volume, a: Act, v': Volume, dirs: set<nat>, d: nat)
    requires v.Ok() && v'.Ok() && InOrder(v, dirs) && Does(v, a, v', dirs) && d in dirs
    ensures d in v.files && Orderly(v', d) && Continues(DirList(v, d), DirList(v', d))
  {
    hide ScanChain, DirOk, AddEffect, StoreEffect, Chained, NewEntry;
    assert Orderly(v, d);
    match a
    case Create(h, fn, tp, cl, i, fcl) =>
      assert Orderly(v, h);
      CreatedIsListed(v, v', h, fn, tp, cl, i, fcl);
      CreatedInData(v', h);
    case Write(h, e, k, w, len) =>
      var info := DirList(v, e)[k].node.value;
      var m, s := ListedPlace(v, e, k);
      PlaceOfInfo(SlotAt(v.data[v.files[e][m]], s), v.files[e][m], 32 * s);
      StoringKeepsOrder(v, v', h, d, info.cl, s, w, len);
      if d == e {
        StoredLengthIsListed(v, v', h, d, k, w, len);
      } else {
        ApartFrom(v, d, e, m);
        OtherDirectory(v, v', h, d, info.cl, info.off, w, len);
      }
  }

  lemma CreatedInData(v: Volume, h: nat)
    requires v.Ok() && h in v.files
    ensures InData(v.data, v.files[h])
  {
  }

  lemma ApartFrom(v: Volume, d: nat, e: nat, m: nat)
    requires v.Ok() && d in v.files && e in v.files && d != e && m < |v.files[e]|
    ensures v.files[e][m] !in v.files[d]
  {
    assert Disjoint(v.files[e], v.files[d]) && v.files[e][m] in v.files[e];
  }

  lemma ActKeepsOrder(v: Volume, a: Act, v': Volume, dirs: set<nat>)
    requires v.Ok() && v'.Ok() && InOrder(v, dirs) && Does(v, a, v', dirs)
    ensures InOrder(v', DirsAfter(dirs, a))
  {
    hide ScanChain, DirOk, AddEffect, StoreEffect, Chained, NewEntry;
    forall d | d in DirsAfter(dirs, a)
      ensures Orderly(v', d)
    {
      if d in dirs {
        ActKeeps(v, a, v', dirs, d);
      } else {
        assert Orderly(v, a.h);
        CreatedIsListed(v, v', a.h, a.fn, a.tp, a.cl, a.i, a.fcl);
        CreatedInData(v', d);
      }
    }
  }

  function AllDirs(dirs: set<nat>, acts: seq<Act>): set<nat>
    decreases |acts|
  {
    if acts == [] then dirs else AllDirs(DirsAfter(dirs, acts[0]), acts[1..])
  }

  /**
   Over every session of creations and writes: all directories, the new ones included, stay in order, and each directory
   goes on listing its old entries first, with their names, types and clusters.
   */
  lemma {:induction false} SessionKeepsDirectories(vs: seq<Volume>, acts: seq<Act>, dirs: set<nat>)
    requires Session(vs, acts, dirs) && InOrder(vs[0], dirs)
    ensures vs[|acts|].Ok() && InOrder(vs[|acts|], AllDirs(dirs, acts))
    ensures forall d :: d in dirs ==> d in vs[0].files && d in vs[|acts|].files && Continues(DirList(vs[0], d), DirList(vs[|acts|], d))
    decreases |acts|
  {
    hide DirList, Orderly, Does, Volume.Ok;
    if acts != [] {
      ActKeepsOrder(vs[0], acts[0], vs[1], dirs);
      SessionKeepsDirectories(vs[1..], acts[1..], DirsAfter(dirs, acts[0]));
      forall d | d in dirs
        ensures d in vs[0].files && d in vs[|acts|].files && Continues(DirList(vs[0], d), DirList(vs[|acts|], d))
      {
        ActKeeps(vs[0], acts[0], vs[1], dirs, d);
        ContinuesTrans(DirList(vs[0], d), DirList(vs[1], d), DirList(vs[|acts|], d));
      }
    } else {
      OrderlyIsThere(vs[0], dirs);
    }
  }

  lemma OrderlyIsThere(v: Volume, dirs: set<nat>)
    requires v.Ok() && InOrder(v, dirs)
    ensures forall d :: d in dirs ==> d in v.files
  {
  }

  /** Over every session, a file that is neither a directory nor written keeps its contents. */
  lemma {:induction false} SessionKeepsFiles(vs: seq<Volume>, acts: seq<Act>, dirs: set<nat>, f: nat)
    requires Session(vs, acts, dirs) && InOrder(vs[0], dirs) && f in vs[0].files && f !in dirs
    requires forall i :: 0 <= i < |acts| && acts[i].Write? ==> acts[i].h != f
    ensures vs[|acts|].Ok() && f in vs[|acts|].files && vs[|acts|].Contents(f) == vs[0].Contents(f)
    decreases |acts|
  {
    hide DirList, Orderly, Does, Volume.Ok, Volume.Contents;
    if acts != [] {
      ActKeepsOrder(vs[0], acts[0], vs[1], dirs);
      ActKeepsFile(vs[0], acts[0], vs[1], dirs, f);
      SessionKeepsFiles(vs[1..], acts[1..], DirsAfter(dirs, acts[0]), f);
    }
  }

  lemma ActKeepsFile(v: Volume, a: Act, v': Volume, dirs: set<nat>, f: nat)
    requires v.Ok() && v'.Ok() && InOrder(v, dirs) && Does(v, a, v', dirs)
    requires f in v.files && f !in dirs && (a.Write? ==> a.h != f)
    ensures f in v'.files && f !in DirsAfter(dirs, a) && v'.Contents(f) == v.Contents(f)
  {
    hide ScanChain, DirOk, AddEffect, Chained, NewEntry, Flat;
    match a
    case Create(h, fn, tp, cl, i, fcl) =>
      assert Orderly(v, h);
      CreatedIsListed(v, v', h, fn, tp, cl, i, fcl);
    case Write(h, e, k, w, len) =>
      var m, s := ListedPlace(v, e, k);
      PlaceOfInfo(SlotAt(v.data[v.files[e][m]], s), v.files[e][m], 32 * s);
      ApartFrom(v, f, e, m);
  }
}
