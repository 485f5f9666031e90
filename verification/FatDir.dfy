/**
 Directories as the driver stores them: a long slot with the name, then a short slot with the attributes,
 first cluster and size. Decoding walks the slots of a directory's chain; encoding looks for the first
 two neighbouring slots of a cluster that are unused.
 */
module FatDir {
  import opened Wrappers
  import opened Bytes
  import opened FatDisk
  import opened Chains
  import opened FsTypes
  import opened FatFile

  const ATTR_LFN: u8 := 0x0f
  const ATTR_DIR: u8 := 0x10

  /** What a short slot says of a file, and where the slot is. */
  datatype NodeInfo = NodeInfo(mask: u32, inode: u32, len: u32, cl: nat, off: nat)

  datatype Entry = Entry(name: seq<u8>, node: Option<NodeInfo>)

  /** A directory walk: the entries so far, and whether the last one still waits for its short slot. */
  datatype Scan = Scan(list: seq<Entry>, fld: bool) {
    predicate Ok() {
      fld ==> list != []
    }
  }

  type Slot = s: seq<u8> | |s| == 32 witness seq(32, _ => 0)

  /** The part of a C string before its end mark. */
  function CString(s: seq<u8>): (r: seq<u8>) {
    if s == [] || s[0] == 0 then [] else [s[0]] + CString(s[1..])
  }

  lemma {:induction false} CStringStops(s: seq<u8>, n: nat)
    requires n < |s| && s[n] == 0 && forall i :: 0 <= i < n ==> s[i] != 0
    ensures CString(s) == s[..n]
    decreases n
  {
    if n > 0 {
      CStringStops(s[1..], n - 1);
      assert s[..n] == [s[0]] + s[1..][..n - 1];
    }
  }

  /** What a C string is, exactly: what comes before the first zero. */
  lemma {:induction false} CStringIs(s: seq<u8>, t: seq<u8>)
    requires 0 !in t && |t| <= |s|
    ensures CString(s) == t <==> s[..|t|] == t && (|t| < |s| ==> s[|t|] == 0)
  {
    if t != [] && s[0] == t[0] {
      CStringIs(s[1..], t[1..]);
      assert s[..|t|] == [s[0]] + s[1..][..|t| - 1] && t == [t[0]] + t[1..];
    } else if t != [] {
      assert s[..|t|][0] != t[0];
    }
  }

  /** The thirteen name characters of a long slot, each the low byte of a pair. */
  function LongChars(s: Slot): (r: seq<u8>)
    ensures |r| == 13
  {
    [s[1], s[3], s[5], s[7], s[9], s[14], s[16], s[18], s[20], s[22], s[24], s[28], s[30]]
  }

  function InfoOf(s: Slot, cl: nat, off: nat): NodeInfo {
    NodeInfo(
      if s[11] / 0x10 % 2 == 1 then FS_DIR else FS_FILE,
      (s[20] as int + s[21] as int * 0x100) * 0x1_0000 + s[26] as int + s[27] as int * 0x100,
      Word(s, 28), cl, off)
  }

  /** One step of the walk. */
  function ScanSlot(st: Scan, s: Slot, cl: nat, off: nat): (r: Scan)
    requires st.Ok()
    ensures r.Ok()
  {
    if s[11] == ATTR_LFN then Scan(st.list + [Entry(CString(LongChars(s)), None)], true)
    else if st.fld then
      var last := |st.list| - 1;
      Scan(st.list[last := st.list[last].(node := Some(InfoOf(s, cl, off)))], false)
    else st
  }

  function SlotAt(bytes: seq<u8>, k: nat): Slot
    requires 32 * k + 32 <= |bytes|
  {
    bytes[32 * k..32 * k + 32]
  }

  /** The walk over the first n slots of a cluster. */
  function ScanSlots(st: Scan, bytes: seq<u8>, cl: nat, n: nat): (r: Scan)
    requires st.Ok() && 32 * n <= |bytes|
    ensures r.Ok()
  {
    if n == 0 then st else ScanSlot(ScanSlots(st, bytes, cl, n - 1), SlotAt(bytes, n - 1), cl, 32 * (n - 1))
  }

  ghost predicate InData(data: seq<seq<u8>>, path: seq<nat>) {
    forall i :: 0 <= i < |path| ==> path[i] < |data|
  }

  /** The walk over the first m clusters of a chain. */
  ghost function ScanChain(data: seq<seq<u8>>, path: seq<nat>, m: nat): (r: Scan)
    requires InData(data, path) && m <= |path|
    ensures r.Ok()
  {
    if m == 0 then Scan([], false)
    else
      var c := path[m - 1];
      ScanSlots(ScanChain(data, path, m - 1), data[c], c, |data[c]| / 32)
  }

  /** The walk up to slot s of cluster m. */
  ghost function ScanTo(data: seq<seq<u8>>, path: seq<nat>, m: nat, s: nat): (r: Scan)
    requires InData(data, path) && m < |path| && 32 * s <= |data[path[m]]|
    ensures r.Ok()
  {
    ScanSlots(ScanChain(data, path, m), data[path[m]], path[m], s)
  }

  lemma ScanStart(data: seq<seq<u8>>, path: seq<nat>)
    requires InData(data, path) && path != []
    ensures ScanTo(data, path, 0, 0) == Scan([], false)
  {
  }

  lemma ScanNext(data: seq<seq<u8>>, path: seq<nat>, m: nat, s: nat)
    requires InData(data, path) && m < |path| && 32 * s <= |data[path[m]]|
    ensures 32 * s + 32 <= |data[path[m]]| ==>
      ScanTo(data, path, m, s + 1) == ScanSlot(ScanTo(data, path, m, s), SlotAt(data[path[m]], s), path[m], 32 * s)
    ensures 32 * s == |data[path[m]]| ==> ScanChain(data, path, m + 1) == ScanTo(data, path, m, s)
    ensures m + 1 < |path| && 32 * s == |data[path[m]]| ==> ScanTo(data, path, m + 1, 0) == ScanTo(data, path, m, s)
  {
  }

  /** The listing of directory h. */
  ghost function DirList(v: Volume, h: nat): seq<Entry>
    requires v.Ok() && h in v.files
  {
    ScanChain(v.data, v.files[h], |v.files[h]|).list
  }

  /** Decode directory h. */
  method ReadDir(fs: FatFs, h: nat) returns (list: seq<Entry>)
    requires fs.Valid() && h in fs.files
    modifies fs.dev, fs.dev.cbuf
    ensures fs.Valid() && list == DirList(fs.Vol(), h)
  {
    hide Fat.Valid, Fat.Coherent, Fat.Mirrored, FatOf, DataOf, CopyOf, Flat, Chained, IsChain, Geometry.Clsz, Geometry.Valid;
    hide Fat.OnDisk, Geometry.Lba, Geometry.ClusterLba, Geometry.CopyLba, Geometry.Stc, Geometry.Size, Fat.Copy;
    hide ScanSlot, ScanSlots, ScanTo, ScanChain;
    var clsz := fs.dev.g.Clsz();
    var buf := new u8[clsz];
    ghost var data, path, k, s, n := fs.dev.Data(), fs.files[h], 0, 0, clsz / 32;
    WholeSlots(fs, h);
    ScanStart(data, path);
    var cl := h;
    fs.dev.ReadCluster(cl, buf);
    var i, st := 0, Scan([], false);
    while cl < EOC
      invariant fs.Valid() && k < |path| && cl == path[k] && buf[..] == data[cl]
      invariant s <= n && i == 32 * s
      invariant st == ScanTo(data, path, k, s)
      decreases |path| - k, n - s
    {
      ScanNext(data, path, k, s);
      if i >= clsz {
        cl := NextCluster(fs, cl, buf, h, k);
        i := 0;
        if cl >= EOC {
          break;
        }
        k, s := k + 1, 0;
        ScanNext(data, path, k, s);
      }
      assert buf[i..i + 32] == SlotAt(data[cl], s);
      st := ScanOne(st, buf[i..i + 32], cl, i);
      i, s := i + 32, s + 1;
    }
    list := st.list;
  }

  /** A directory's clusters are whole numbers of slots. */
  lemma WholeSlots(fs: FatFs, h: nat)
    requires fs.Valid() && h in fs.files
    ensures var n, path := fs.dev.g.Clsz() / 32, fs.files[h];
      && fs.dev.g.Clsz() == 32 * n && 0 < n
      && path != [] && path[0] == h
      && InData(fs.dev.Data(), path)
      && forall i :: 0 <= i < |path| ==> 2 <= path[i] < fs.dev.g.limit <= EOC && |fs.dev.Data()[path[i]]| == fs.dev.g.Clsz()
  {
    hide Geometry.Clsz, Fat.Coherent, Fat.Mirrored, FatOf, DataOf, CopyOf, Flat;
    fs.ChainFacts(h);
    assert fs.dev.g.Clsz() == 32 * (fs.dev.g.Clsz() / 32) by { WholeClusters(fs.dev.g); }
  }

  lemma WholeClusters(g: Geometry)
    ensures g.Clsz() == 32 * (g.Clsz() / 32)
  {
    ClusterIsSlots(g.spc);
  }

  /** Follow the chain of h from its cluster k and read the next cluster, if there is one. */
  method NextCluster(fs: FatFs, cl: nat, buf: array<u8>, ghost h: nat, ghost k: nat) returns (next: u32)
    requires fs.Valid() && h in fs.files && k < |fs.files[h]| && cl == fs.files[h][k]
    requires fs.Outside(buf) && buf.Length == fs.dev.g.Clsz()
    modifies fs.dev, fs.dev.cbuf, buf
    ensures fs.Valid()
    ensures next >= EOC ==> k + 1 == |fs.files[h]|
    ensures next < EOC ==> k + 1 < |fs.files[h]| && next == fs.files[h][k + 1] && next < |fs.dev.Data()| && buf[..] == fs.dev.Data()[next]
  {
    hide Fat.OnDisk, Geometry.Lba, Geometry.ClusterLba, Geometry.CopyLba, Geometry.Stc, Geometry.Size, Fat.Coherent, Fat.Mirrored, Fat.Copy;
    hide FatOf, DataOf, CopyOf, Flat, Chained, Geometry.Clsz, Geometry.Valid;
    fs.ChainFacts(h);
    assert k + 1 < |fs.files[h]| ==> fs.dev.Fat()[cl] == fs.files[h][k + 1];
    next := fs.dev.ReadFatEnt(cl);
    if next < EOC {
      fs.dev.ReadCluster(next, buf);
    }
  }

  /** The walk's two branches: a long slot adds an entry, a short slot after a long one completes it. */
  method ScanOne(st: Scan, slot: Slot, cl: nat, i: nat) returns (r: Scan)
    requires st.Ok()
    ensures r == ScanSlot(st, slot, cl, i)
  {
    r := st;
    if slot[11] == ATTR_LFN {
      r := r.(fld := true);
      r := r.(list := r.list + [Entry(CString(LongChars(slot)), None)]);
    } else if r.fld {
      r := r.(fld := false);
      var last := |r.list| - 1;
      r := r.(list := r.list[last := r.list[last].(node := Some(InfoOf(slot, cl, i)))]);
    }
  }
}
