/**
 What the driver leaves on disk and makes of it, byte by byte, as the FAT Specification lays it out: where entries and
 clusters are, end marks, and the slots of a directory. Offsets and marks are written out here as the Specification has them.
 */
module FatFormat {
  import opened Wrappers
  import opened Bytes
  import opened FatDisk
  import opened Chains
  import opened FatFile
  import opened FatDir
  import opened DirTheory
  import opened FatCreate
  import opened FatListing
  import opened FatSize
  import opened FatRuns

  // ---- The FAT and the clusters

  /** A 32-bit number at byte a of an image, lowest byte first. */
  function NumberAt(image: seq<u8>, a: nat): nat
    requires a + 4 <= |image|
  {
    image[a] as int + 0x100 * image[a + 1] as int + 0x1_0000 * image[a + 2] as int + 0x100_0000 * image[a + 3] as int
  }

  /** Where entry c of FAT copy i is: four bytes behind the reserved sectors and i copies. */
  function EntryAddr(g: Geometry, i: nat, c: nat): nat {
    (g.addr + g.stf + i * g.spf) * 512 + 4 * c
  }

  lemma EntryOnDisk(g: Geometry, image: seq<u8>, i: nat, c: nat)
    requires g.Valid() && g.Size() <= |image| && i < g.nfat && c < 128 * g.spf
    ensures var a := EntryAddr(g, i, c);
      a + 4 <= |image| && FatOf(CopyOf(g, image, i))[c] == NumberAt(image, a)
  {
    CopyInside(g, image, i);
    assert g.CopyOff(i) == (g.addr + g.stf + i * g.spf) * 512;
    WordInSlice(image, g.CopyOff(i), g.CopyOff(i) + g.CopySize(), g.CopyOff(i) + 4 * c);
  }

  /** Byte k of cluster c: behind the reserved sectors, all FAT copies, and the clusters from 2 on. */
  lemma ClusterOnDisk(g: Geometry, image: seq<u8>, c: nat, k: nat)
    requires g.Valid() && g.Size() <= |image| && 2 <= c < g.limit && k < g.spc * 512
    ensures var a := (g.addr + g.stf + g.nfat * g.spf + (c - 2) * g.spc) * 512 + k;
      k < |DataOf(g, image)[c]| && a < |image| && DataOf(g, image)[c][k] == image[a]
  {
    ClusterLayout(g, c, g.limit);
    assert g.ClusterOff(c) == (g.addr + g.stf + g.nfat * g.spf + (c - 2) * g.spc) * 512;
  }

  /** The last entry of every chain is, in every FAT copy, an end mark of the Specification. */
  lemma EndOnDisk(fs: FatFs, h: nat, i: nat)
    requires fs.Valid() && TopClear(fs.dev.Fat()) && h in fs.files && i < fs.dev.g.nfat
    ensures fs.files[h] != [] && EndMarkAt(fs.dev.disk[..], EntryAddr(fs.dev.g, i, Last(fs.files[h])))
  {
    hide FatOf, DataOf, CopyOf, Flat, EndMarkAt, EntryAddr, Geometry.Valid, Geometry.Size;
    fs.ChainFacts(h);
    SpecChainIsChain(fs.dev.Fat(), fs.dev.g.limit, fs.files[h]);
    EndOfChain(fs.dev.g, fs.dev.disk[..], fs.files[h], i);
  }

  lemma EndOfChain(g: Geometry, image: seq<u8>, path: seq<nat>, i: nat)
    requires g.Valid() && g.Size() <= |image| && i < g.nfat && AllCopiesEqual(g, image)
    requires TopClear(FatOf(CopyOf(g, image, 0))) && SpecChain(FatOf(CopyOf(g, image, 0)), g.limit, path)
    ensures EndMarkAt(image, EntryAddr(g, i, Last(path)))
  {
    hide FatOf, CopyOf, EntryAddr, NumberAt, EndMarkAt, Geometry.Valid, Geometry.Size;
    EntryOnDisk(g, image, i, Last(path));
    EndBytes(image, EntryAddr(g, i, Last(path)));
  }

  /** The four bytes of an end mark, lowest byte first. */
  predicate EndMarkAt(image: seq<u8>, a: nat) {
    a + 4 <= |image| && image[a] >= 0xf8 && image[a + 1] == 0xff && image[a + 2] == 0xff && image[a + 3] == 0x0f
  }

  lemma EndBytes(image: seq<u8>, a: nat)
    requires a + 4 <= |image| && 0x0fff_fff8 <= NumberAt(image, a) <= 0x0fff_ffff
    ensures EndMarkAt(image, a)
  {
  }

  /** A write leaves every chain one of the Specification. */
  lemma WritingKeepsFormat(v: Volume, v': Volume, h: nat, size: nat, spare: nat, rest: nat)
    requires v.Ok() && v'.Ok() && Grown(v, v', h, size, spare, rest) && TopClear(v.fat)
    ensures TopClear(v'.fat) && AllSpec(v')
  {
    hide CanGrow, Chained;
    RelinkedKeepsFormat(v, v');
  }

  /** So does a creation. */
  lemma CreatingKeepsFormat(v: Volume, v': Volume, h: nat, fn: seq<u8>, tp: u32, cl: u32, i: nat, fcl: u32)
    requires AddEffect(v, v', h, fn, tp, cl, i, fcl) && TopClear(v.fat)
    ensures v.Ok() && |v'.data| == |v.data| && Relinked(v.fat, v'.fat, |v.data|)
    ensures TopClear(v'.fat) && AllSpec(v')
  {
    hide Chained, DataWith, PairAt, NoPairBefore, HasPair;
    var v1 := Prepared(v, h, cl);
    var m: nat :| m < |v1.files[h]| && v1.files[h][m] == cl && EntryPut(v1, v', h, m, i / 32, fn, tp, fcl);
    if cl !in v.files[h] {
      LinkedIsRelinked(v.fat, Last(v.files[h]), cl, |v.data|);
    }
    LinkedIsRelinked(v1.fat, fcl, fcl, |v.data|);
    RelinkedTrans(v.fat, v1.fat, v'.fat, |v.data|);
    RelinkedKeepsFormat(v, v');
  }

  /** And every session of creations and writes. */
  lemma {:induction false} SessionKeepsFormat(vs: seq<Volume>, acts: seq<Act>, dirs: set<nat>)
    requires Session(vs, acts, dirs) && TopClear(vs[0].fat)
    ensures vs[|acts|].Ok() && TopClear(vs[|acts|].fat) && AllSpec(vs[|acts|])
    decreases |acts|
  {
    hide Does, Volume.Ok;
    if acts != [] {
      ActKeepsFormat(vs[0], acts[0], vs[1], dirs);
      SessionKeepsFormat(vs[1..], acts[1..], DirsAfter(dirs, acts[0]));
    } else {
      AllAreSpec(vs[0]);
    }
  }

  lemma ActKeepsFormat(v: Volume, a: Act, v': Volume, dirs: set<nat>)
    requires v.Ok() && v'.Ok() && Does(v, a, v', dirs) && TopClear(v.fat)
    ensures TopClear(v'.fat)
  {
    hide ScanChain, AddEffect, Chained, Volume.Contents;
    match a
    case Create(h, fn, tp, cl, i, fcl) => CreatingKeepsFormat(v, v', h, fn, tp, cl, i, fcl);
    case Write(h, e, k, w, len) => RelinkedKeepsFormat(v, v');
  }

  // ---- Directory slots, decoded

  /** A slot and where it is. */
  datatype Placed = Placed(cl: nat, off: nat, bytes: Slot)

  function SlotsIn(cl: nat, bytes: seq<u8>): seq<Placed> {
    seq(|bytes| / 32, k requires 0 <= k < |bytes| / 32 => Placed(cl, 32 * k, bytes[32 * k..32 * k + 32]))
  }

  /** All slots of a directory, in order. */
  ghost function SlotsOf(data: seq<seq<u8>>, path: seq<nat>): seq<Placed>
    requires InData(data, path)
  {
    if path == [] then []
    else
      var c := path[|path| - 1];
      SlotsOf(data, path[..|path| - 1]) + SlotsIn(c, data[c])
  }

  /** A slot of a long name: its attribute byte is 0x0f. */
  predicate IsLong(s: Placed) {
    s.bytes[11] == 0x0f
  }

  /** Where character j of a long name is: five of the thirteen from byte 1 on, six from byte 14, two from byte 28. */
  function CharPos(j: nat): nat {
    if j < 5 then 1 + 2 * j else if j < 11 then 14 + 2 * (j - 5) else 28 + 2 * (j - 11)
  }

  /** The low bytes of the thirteen characters. */
  function NameChars(b: Slot): (r: seq<u8>) {
    seq(13, j requires 0 <= j < 13 => b[CharPos(j)])
  }

  /**
   What a short slot says: a directory, 2, if and only if bit 4 of byte 11 is set, a file, 1, if not; the first cluster, its
   low half in bytes 26 and 27 and its high half in bytes 20 and 21; the length in bytes 28 to 31.
   */
  predicate Says(s: Placed, info: NodeInfo) {
    var b := s.bytes;
    && info.mask == (if b[11] % 32 >= 16 then 2 else 1)
    && info.inode == b[26] as int + 0x100 * b[27] as int + 0x1_0000 * b[20] as int + 0x100_0000 * b[21] as int
    && info.len == b[28] as int + 0x100 * b[29] as int + 0x1_0000 * b[30] as int + 0x100_0000 * b[31] as int
    && info.cl == s.cl && info.off == s.off
  }

  /**
   A listing, read off the slots: one entry for each long slot, in order, with the name the slot holds; its node is what
   the very next slot says, or none if there is no next slot or that is long too.
   */
  predicate Lists(list: seq<Entry>, ls: seq<Placed>)
    decreases |ls|
  {
    if ls == [] then list == []
    else if !IsLong(ls[0]) then Lists(list, ls[1..])
    else
      && list != [] && list[0].name == CString(NameChars(ls[0].bytes))
      && (list[0].node.Some? <==> |ls| > 1 && !IsLong(ls[1]))
      && (list[0].node.Some? ==> Says(ls[1], list[0].node.value))
      && Lists(list[1..], ls[1..])
  }

  /** One more slot: a long one adds an entry, a short one behind a long one completes the last. */
  lemma {:induction false} ListsMore(list: seq<Entry>, ls: seq<Placed>, x: Placed, info: NodeInfo)
    requires Lists(list, ls) && Says(x, info)
    ensures IsLong(x) ==> Lists(list + [Entry(CString(NameChars(x.bytes)), None)], ls + [x])
    ensures !IsLong(x) && (ls == [] || !IsLong(ls[|ls| - 1])) ==> Lists(list, ls + [x])
    ensures !IsLong(x) && ls != [] && IsLong(ls[|ls| - 1]) ==>
      list != [] && Lists(list[|list| - 1 := list[|list| - 1].(node := Some(info))], ls + [x])
    decreases |ls|
  {
    hide CString, NameChars, Says;
    if ls == [] {
      assert ([x])[1..] == [] && Lists([], []);
    } else {
      var rest := if IsLong(ls[0]) then list[1..] else list;
      ListsMore(rest, ls[1..], x, info);
      assert (ls + [x])[1..] == ls[1..] + [x];
      var e := Entry(CString(NameChars(x.bytes)), None);
      if IsLong(ls[0]) {
        assert (list + [e])[1..] == rest + [e];
        if |ls| > 1 && IsLong(ls[|ls| - 1]) && !IsLong(x) {
          assert ls[1..][|ls[1..]| - 1] == ls[|ls| - 1];
          var list' := list[|list| - 1 := list[|list| - 1].(node := Some(info))];
          assert list'[1..] == rest[|rest| - 1 := rest[|rest| - 1].(node := Some(info))];
        } else if |ls| == 1 {
          assert list[1..] == [];
        } else {
          assert ls[1..][|ls[1..]| - 1] == ls[|ls| - 1];
        }
      } else if |ls| > 1 {
        assert ls[1..][|ls[1..]| - 1] == ls[|ls| - 1];
      }
    }
  }

  /** A walk that has seen the slots ls. */
  ghost predicate Sees(st: Scan, ls: seq<Placed>) {
    Lists(st.list, ls) && (st.fld <==> ls != [] && IsLong(ls[|ls| - 1]))
  }

  lemma InfoSays(s: Slot, cl: nat, off: nat)
    ensures Says(Placed(cl, off, s), InfoOf(s, cl, off))
  {
  }

  lemma CharsAre(s: Slot)
    ensures LongChars(s) == NameChars(s)
  {
  }

  lemma SeesOne(st: Scan, ls: seq<Placed>, s: Slot, cl: nat, off: nat)
    requires st.Ok() && Sees(st, ls)
    ensures Sees(ScanSlot(st, s, cl, off), ls + [Placed(cl, off, s)])
  {
    hide CString, NameChars, LongChars, InfoOf, Says, Lists;
    InfoSays(s, cl, off);
    CharsAre(s);
    ListsMore(st.list, ls, Placed(cl, off, s), InfoOf(s, cl, off));
  }

  lemma {:induction false} SeesSlots(st: Scan, ls: seq<Placed>, bytes: seq<u8>, cl: nat, n: nat)
    requires st.Ok() && Sees(st, ls) && 32 * n <= |bytes|
    ensures Sees(ScanSlots(st, bytes, cl, n), ls + SlotsIn(cl, bytes)[..n])
    decreases n
  {
    hide Sees, ScanSlot;
    var all := SlotsIn(cl, bytes);
    if n > 0 {
      SeesSlots(st, ls, bytes, cl, n - 1);
      assert all[n - 1] == Placed(cl, 32 * (n - 1), SlotAt(bytes, n - 1));
      SeesOne(ScanSlots(st, bytes, cl, n - 1), ls + all[..n - 1], SlotAt(bytes, n - 1), cl, 32 * (n - 1));
      assert ls + all[..n] == ls + all[..n - 1] + [all[n - 1]];
    } else {
      assert ls + all[..0] == ls;
    }
  }

  lemma {:induction false} SeesChain(data: seq<seq<u8>>, path: seq<nat>, m: nat)
    requires InData(data, path) && m <= |path|
    ensures Sees(ScanChain(data, path, m), SlotsOf(data, path[..m]))
    decreases m
  {
    hide ScanSlots;
    if m > 0 {
      var c := path[m - 1];
      SeesChain(data, path, m - 1);
      assert path[..m][..m - 1] == path[..m - 1];
      SeesSlots(ScanChain(data, path, m - 1), SlotsOf(data, path[..m - 1]), data[c], c, |data[c]| / 32);
      assert SlotsIn(c, data[c])[..|data[c]| / 32] == SlotsIn(c, data[c]);
    }
  }

  /** A directory's listing is what its slots, taken one behind the other over the whole chain, list. */
  lemma ListingIsOnDisk(v: Volume, h: nat)
    requires v.Ok() && h in v.files
    ensures InData(v.data, v.files[h]) && Lists(DirList(v, h), SlotsOf(v.data, v.files[h]))
  {
    hide ScanChain, Lists;
    DataHas(v, h);
    SeesChain(v.data, v.files[h], |v.files[h]|);
    assert v.files[h][..|v.files[h]|] == v.files[h];
  }

  lemma DataHas(v: Volume, h: nat)
    requires v.Ok() && h in v.files
    ensures InData(v.data, v.files[h])
  {
  }

  /** Type, first cluster and length of every listed node, from the raw bytes of the slot at its place. */
  lemma ListedSays(v: Volume, h: nat, k: nat) returns (m: nat, s: nat)
    requires v.Ok() && h in v.files && k < |DirList(v, h)| && DirList(v, h)[k].node.Some?
    ensures InData(v.data, v.files[h]) && m < |v.files[h]| && 32 * s + 32 <= |v.data[v.files[h][m]]|
    ensures var b, o := v.data[v.files[h][m]], 32 * s;
      b[o + 11] != 0x0f && Says(Placed(v.files[h][m], o, b[o..o + 32]), DirList(v, h)[k].node.value)
  {
    hide DirList, InfoOf, Says;
    m, s := ListedPlace(v, h, k);
    InfoSays(SlotAt(v.data[v.files[h][m]], s), v.files[h][m], 32 * s);
  }

  // ---- Directory slots, encoded

  ghost predicate ZerosAt(b: Slot, a: nat, n: nat) {
    a + n <= 32 && forall x :: a <= x < a + n ==> b[x] == 0
  }

  predicate FirstDot(fn: seq<u8>, d: nat) {
    d < |fn| && fn[d] == '.' as u8 && '.' as u8 !in fn[..d]
  }

  /** A long slot: ordinal, attribute, zero fields, and at most twelve characters, an end mark and padding. */
  ghost predicate LongBytes(b: Slot, fn: seq<u8>) {
    && b[0] == 0x41 && b[11] == 0x0f && ZerosAt(b, 12, 2) && ZerosAt(b, 26, 2)
    && forall j: nat :: j < 13 ==> CharAt(b, CharPos(j), fn, j)
  }

  /** The two bytes of character j of a long name. */
  predicate CharAt(b: seq<u8>, a: nat, fn: seq<u8>, j: nat) {
    && a + 2 <= |b|
    && b[a] == (if j < 12 && j < |fn| then fn[j] else if j == |fn| || (j == 12 && j <= |fn|) then 0 else 0xff)
    && b[a + 1] == (if j <= |fn| then 0 else 0xff)
  }

  /** The name in a short slot: what is before the first dot, and the three bytes behind it; without a dot the old ones stay. */
  ghost predicate ShortNameBytes(prev: Slot, b: Slot, fn: seq<u8>) {
    && (forall k: nat :: k < 8 ==> b[k] == if k < |fn| && '.' as u8 !in fn[..k + 1] then fn[k] else ' ' as u8)
    && ('.' as u8 !in fn ==> b[8..11] == prev[8..11])
    && forall d: nat :: FirstDot(fn, d) ==> IsCharOrBlank(b[8], fn, d + 1) && IsCharOrBlank(b[9], fn, d + 2) && IsCharOrBlank(b[10], fn, d + 3)
  }

  predicate IsCharOrBlank(x: u8, fn: seq<u8>, p: nat) {
    x == if p < |fn| then fn[p] else ' ' as u8
  }

  /** The rest of a short slot: attribute, first cluster, and the length 10. */
  ghost predicate ShortBytes(b: Slot, tp: u32, fcl: u32) {
    && b[11] == (if tp == 2 then 0x10 else 0) && ZerosAt(b, 12, 8) && ZerosAt(b, 22, 4)
    && b[26] as int + 0x100 * b[27] as int + 0x1_0000 * b[20] as int + 0x100_0000 * b[21] as int == fcl
    && b[28] == 10 && ZerosAt(b, 29, 3)
  }

  lemma LongSlotBytes(fn: seq<u8>)
    ensures LongBytes(LongSlot(fn), fn)
  {
    hide WideName;
    var b := LongSlot(fn);
    forall j: nat | j < 13
      ensures CharAt(b, CharPos(j), fn, j)
    {
      WideChar(fn, j);
    }
  }

  lemma WideChar(fn: seq<u8>, j: nat)
    requires j < 13
    ensures CharAt(WideName(fn), 2 * j, fn, j)
  {
  }

  lemma {:induction false} DotIsFirst(fn: seq<u8>, k: nat)
    ensures FirstDot(fn, k) ==> DotAt(fn) == k
    ensures k < |fn| ==> (k < DotAt(fn) <==> '.' as u8 !in fn[..k + 1])
    ensures DotAt(fn) == |fn| <==> '.' as u8 !in fn
  {
    var d := DotAt(fn);
    if d < |fn| && d <= k < |fn| {
      assert fn[..k + 1][d] == '.' as u8;
    }
    assert d < k <= |fn| ==> fn[..k][d] == fn[d];
  }

  lemma ShortTailBytes(b: Slot, tp: u32, fcl: u32)
    requires b[11..] == ShortTail(tp, fcl)
    ensures ShortBytes(b, tp, fcl)
  {
    var t := ShortTail(tp, fcl);
    assert forall k :: 11 <= k < 32 ==> b[k] == t[k - 11];
    HalvesJoin(fcl);
  }

  lemma HalvesJoin(v: u32)
    ensures var h, l := v / 0x1_0000, v % 0x1_0000;
      l % 0x100 + 0x100 * (l / 0x100 % 0x100) + 0x1_0000 * (h % 0x100) + 0x100_0000 * (h / 0x100 % 0x100) == v
  {
  }

  lemma ShortNameByte(prev: Slot, fn: seq<u8>, k: nat)
    requires k < 8
    ensures ShortName(prev, fn)[k] == if k < |fn| && '.' as u8 !in fn[..k + 1] then fn[k] else ' ' as u8
  {
    hide DotAt;
    DotIsFirst(fn, k);
  }

  lemma ExtensionBytes(prev: Slot, fn: seq<u8>, d: nat)
    ensures var b := ShortName(prev, fn);
      FirstDot(fn, d) ==> IsCharOrBlank(b[8], fn, d + 1) && IsCharOrBlank(b[9], fn, d + 2) && IsCharOrBlank(b[10], fn, d + 3)
    ensures '.' as u8 !in fn ==> forall k :: 8 <= k < 11 ==> ShortName(prev, fn)[k] == prev[k]
  {
    hide DotAt;
    DotIsFirst(fn, d);
  }

  lemma ShortSlotBytes(prev: Slot, fn: seq<u8>, tp: u32, fcl: u32)
    ensures ShortNameBytes(prev, ShortSlot(prev, fn, tp, fcl), fn) && ShortBytes(ShortSlot(prev, fn, tp, fcl), tp, fcl)
  {
    hide DotAt, ShortTail, ShortName, FirstDot, IsCharOrBlank;
    var b, name := ShortSlot(prev, fn, tp, fcl), ShortName(prev, fn);
    assert b[11..] == ShortTail(tp, fcl) && forall k :: 0 <= k < 11 ==> b[k] == name[k];
    ShortTailBytes(b, tp, fcl);
    forall k: nat | k < 8
      ensures b[k] == if k < |fn| && '.' as u8 !in fn[..k + 1] then fn[k] else ' ' as u8
    {
      ShortNameByte(prev, fn, k);
    }
    forall d: nat | FirstDot(fn, d)
      ensures IsCharOrBlank(b[8], fn, d + 1) && IsCharOrBlank(b[9], fn, d + 2) && IsCharOrBlank(b[10], fn, d + 3)
    {
      ExtensionBytes(prev, fn, d);
    }
    ExtensionBytes(prev, fn, 0);
  }

  /** A new entry in slots s and s + 1 of a cluster, byte by byte. */
  lemma EntryBytes(before: seq<u8>, s: nat, fn: seq<u8>, tp: u32, fcl: u32)
    requires 32 * s + 64 <= |before|
    ensures var b, o := WithEntry(before, s, fn, tp, fcl), 32 * s;
      && LongBytes(b[o..o + 32], fn) && ShortBytes(b[o + 32..o + 64], tp, fcl)
      && ShortNameBytes(before[o + 32..o + 64], b[o + 32..o + 64], fn)
      && b[..o] == before[..o] && b[o + 64..] == before[o + 64..]
  {
    hide LongSlot, ShortSlot, LongBytes, ShortBytes, ShortNameBytes;
    var b, o, prev := WithEntry(before, s, fn, tp, fcl), 32 * s, SlotAt(before, s + 1);
    LongSlotBytes(fn);
    ShortSlotBytes(prev, fn, tp, fcl);
    assert prev == before[o + 32..o + 64];
    assert b[o..o + 32] == LongSlot(fn) && b[o + 32..o + 64] == ShortSlot(prev, fn, tp, fcl);
  }

  /** What adding an entry leaves in the two slots at byte i of cluster cl, and in the FAT. */
  lemma CreatedBytes(v: Volume, v': Volume, h: nat, fn: seq<u8>, tp: u32, cl: u32, i: nat, fcl: u32)
    requires AddEffect(v, v', h, fn, tp, cl, i, fcl)
    ensures cl < |v'.data| && i + 64 <= |v'.data[cl]| && fcl < |v'.fat| && v'.fat[fcl] == 0x0fff_fff8
    ensures LongBytes(v'.data[cl][i..i + 32], fn) && ShortBytes(v'.data[cl][i + 32..i + 64], tp, fcl)
    ensures var was := Prepared(v, h, cl).data[cl];
      i + 64 <= |was| && ShortNameBytes(was[i + 32..i + 64], v'.data[cl][i + 32..i + 64], fn)
  {
    hide Chained, PairAt, NoPairBefore, HasPair, LongBytes, ShortBytes, ShortNameBytes, WithEntry, Volume.Contents;
    var v1 := Prepared(v, h, cl);
    var m: nat :| m < |v1.files[h]| && v1.files[h][m] == cl && EntryPut(v1, v', h, m, i / 32, fn, tp, fcl);
    NewChainIsFresh(v1, fcl);
    assert fcl != cl;
    PairInside(v1, h, m, i / 32);
    EntryBytes(v1.data[cl], i / 32, fn, tp, fcl);
  }

  lemma PairInside(v: Volume, h: nat, m: nat, s: nat)
    requires Indexed(v, h) && PairAt(v.data, v.files[h], m, s)
    ensures m < |v.files[h]| && 32 * s + 64 <= |v.data[v.files[h][m]]|
  {
  }
}
