/** Closing a written file stores its length at a remembered place of a directory: what the listing then says. */
module FatSize {
  import opened Wrappers
  import opened Bytes
  import opened Chains
  import opened FatDir
  import opened DirTheory

  // ---- Where listed entries are

  /** info is what the short slot s of the path's cluster j says. */
  ghost predicate At(data: seq<seq<u8>>, path: seq<nat>, info: NodeInfo, j: nat, s: nat)
    requires InData(data, path)
  {
    && j < |path| && 32 * s + 32 <= |data[path[j]]|
    && data[path[j]][32 * s + 11] != ATTR_LFN
    && info == InfoOf(SlotAt(data[path[j]], s), path[j], 32 * s)
  }

  predicate Earlier(j: nat, s: nat, m: nat, n: nat) {
    j < m || (j == m && s < n)
  }

  /** A node that is there is what a short slot before slot n of cluster m says. */
  ghost predicate Located(data: seq<seq<u8>>, path: seq<nat>, o: Option<NodeInfo>, m: nat, n: nat)
    requires InData(data, path)
  {
    o.Some? ==> exists j: nat, s: nat :: Earlier(j, s, m, n) && At(data, path, o.value, j, s)
  }

  ghost predicate AllLocated(data: seq<seq<u8>>, path: seq<nat>, list: seq<Entry>, m: nat, n: nat)
    requires InData(data, path)
  {
    forall k :: 0 <= k < |list| ==> Located(data, path, list[k].node, m, n)
  }

  /** No two entries have the same place. */
  ghost predicate PlacesApart(list: seq<Entry>) {
    forall i, j :: 0 <= i < j < |list| ==> NodesApart(list[i].node, list[j].node)
  }

  predicate NodesApart(o: Option<NodeInfo>, o': Option<NodeInfo>) {
    o.Some? && o'.Some? ==> o.value.cl != o'.value.cl || o.value.off != o'.value.off
  }

  predicate Distinct(path: seq<nat>) {
    forall i, j :: 0 <= i < j < |path| ==> path[i] != path[j]
  }

  /** Nothing located before a slot is at that slot. */
  lemma NotYet(data: seq<seq<u8>>, path: seq<nat>, o: Option<NodeInfo>, m: nat, n: nat)
    requires InData(data, path) && Distinct(path) && m < |path| && Located(data, path, o, m, n)
    ensures o.Some? ==> o.value.cl != path[m] || o.value.off < 32 * n
  {
    if o.Some? {
      var j: nat, s: nat :| Earlier(j, s, m, n) && At(data, path, o.value, j, s);
      assert j < m ==> path[j] != path[m];
    }
  }

  lemma LocatedLater(data: seq<seq<u8>>, path: seq<nat>, o: Option<NodeInfo>, m: nat, n: nat, m': nat, n': nat)
    requires InData(data, path) && Located(data, path, o, m, n) && (m < m' || (m == m' && n <= n'))
    ensures Located(data, path, o, m', n')
  {
    if o.Some? {
      var j: nat, s: nat :| Earlier(j, s, m, n) && At(data, path, o.value, j, s);
      assert Earlier(j, s, m', n');
    }
  }

  /** One slot of the walk: an entry it completes is at that slot. */
  lemma SlotLocated(data: seq<seq<u8>>, path: seq<nat>, st: Scan, m: nat, n: nat)
    requires InData(data, path) && Distinct(path) && st.Ok() && m < |path| && 32 * n + 32 <= |data[path[m]]|
    requires AllLocated(data, path, st.list, m, n) && PlacesApart(st.list)
    ensures var r := ScanSlot(st, SlotAt(data[path[m]], n), path[m], 32 * n);
      AllLocated(data, path, r.list, m, n + 1) && PlacesApart(r.list)
  {
    hide InfoOf, CString, LongChars;
    var slot := SlotAt(data[path[m]], n);
    var r := ScanSlot(st, slot, path[m], 32 * n);
    forall k | 0 <= k < |st.list|
      ensures Located(data, path, st.list[k].node, m, n + 1)
      ensures st.list[k].node.Some? ==> st.list[k].node.value.cl != path[m] || st.list[k].node.value.off != 32 * n
    {
      LocatedLater(data, path, st.list[k].node, m, n, m, n + 1);
      NotYet(data, path, st.list[k].node, m, n);
    }
    if slot[11] != ATTR_LFN {
      var info := InfoOf(slot, path[m], 32 * n);
      PlaceOfInfo(slot, path[m], 32 * n);
      assert Earlier(m, n, m, n + 1) && At(data, path, info, m, n);
      assert Located(data, path, Some(info), m, n + 1);
    }
  }

  lemma PlaceOfInfo(slot: Slot, cl: nat, off: nat)
    ensures InfoOf(slot, cl, off).cl == cl && InfoOf(slot, cl, off).off == off
  {
  }

  lemma {:induction false} SlotsLocated(data: seq<seq<u8>>, path: seq<nat>, m: nat, n: nat)
    requires InData(data, path) && Distinct(path) && m < |path| && 32 * n <= |data[path[m]]|
    requires AllLocated(data, path, ScanChain(data, path, m).list, m, 0) && PlacesApart(ScanChain(data, path, m).list)
    ensures AllLocated(data, path, ScanTo(data, path, m, n).list, m, n) && PlacesApart(ScanTo(data, path, m, n).list)
    decreases n
  {
    hide AllLocated, PlacesApart, ScanSlot;
    if n > 0 {
      SlotsLocated(data, path, m, n - 1);
      SlotLocated(data, path, ScanTo(data, path, m, n - 1), m, n - 1);
    }
  }

  /** Every node of a listing is what a short slot of the directory's chain says, and no two have the same place. */
  lemma {:induction false} ChainLocated(data: seq<seq<u8>>, path: seq<nat>, m: nat)
    requires InData(data, path) && Distinct(path) && m <= |path|
    ensures AllLocated(data, path, ScanChain(data, path, m).list, m, 0) && PlacesApart(ScanChain(data, path, m).list)
    decreases m
  {
    if m > 0 {
      var n := |data[path[m - 1]]| / 32;
      ChainLocated(data, path, m - 1);
      SlotsLocated(data, path, m - 1, n);
      var list := ScanTo(data, path, m - 1, n).list;
      assert list == ScanChain(data, path, m).list;
      forall k | 0 <= k < |list|
        ensures Located(data, path, list[k].node, m, 0)
      {
        LocatedLater(data, path, list[k].node, m - 1, n, m, 0);
      }
    }
  }

  // ---- A length stored over a short slot

  /** The listing with len as the size of the entry whose short slot is at byte off of cluster cl. */
  function WithLen(list: seq<Entry>, cl: nat, off: nat, len: u32): (r: seq<Entry>)
    ensures |r| == |list|
  {
    seq(|list|, i requires 0 <= i < |list| => Resized(list[i], cl, off, len))
  }

  function Resized(e: Entry, cl: nat, off: nat, len: u32): Entry {
    if e.node.Some? && e.node.value.cl == cl && e.node.value.off == off then e.(node := Some(e.node.value.(len := len))) else e
  }

  /** st' is the walk that sees the new size. */
  ghost predicate Tracks(st: Scan, st': Scan, cl: nat, off: nat, len: u32) {
    st'.fld == st.fld && st'.list == WithLen(st.list, cl, off, len)
  }

  /** A slot elsewhere keeps the walks together. */
  lemma TracksOther(st: Scan, st': Scan, slot: Slot, c: nat, o: nat, cl: nat, off: nat, len: u32)
    requires st.Ok() && st'.Ok() && Tracks(st, st', cl, off, len) && (c != cl || o != off)
    ensures Tracks(ScanSlot(st, slot, c, o), ScanSlot(st', slot, c, o), cl, off, len)
  {
    hide CString, LongChars;
  }

  /** The written slot changes in its size. */
  lemma TracksTarget(st: Scan, st': Scan, slot: Slot, cl: nat, off: nat, len: u32)
    requires st.Ok() && st'.Ok() && Tracks(st, st', cl, off, len) && slot[11] != ATTR_LFN
    requires forall i :: 0 <= i < |st.list| && st.list[i].node.Some? ==> (st.list[i].node.value.cl != cl || st.list[i].node.value.off != off)
    ensures Tracks(ScanSlot(st, slot, cl, off), ScanSlot(st', Splice(slot, 28, Le32(len)), cl, off), cl, off, len)
  {
    var slot' := Splice(slot, 28, Le32(len));
    WordOfSplice(slot, 28, len, 28);
    assert slot'[11] == slot[11] && slot'[20] == slot[20] && slot'[21] == slot[21] && slot'[26] == slot[26] && slot'[27] == slot[27];
    assert InfoOf(slot', cl, off) == InfoOf(slot, cl, off).(len := len);
  }

  lemma {:induction false} TracksSlots(st: Scan, st': Scan, bytes: seq<u8>, c: nat, n: nat, cl: nat, off: nat, len: u32)
    requires st.Ok() && st'.Ok() && Tracks(st, st', cl, off, len) && 32 * n <= |bytes|
    requires c != cl || 32 * n <= off
    ensures Tracks(ScanSlots(st, bytes, c, n), ScanSlots(st', bytes, c, n), cl, off, len)
  {
    if n > 0 {
      TracksSlots(st, st', bytes, c, n - 1, cl, off, len);
      TracksOther(ScanSlots(st, bytes, c, n - 1), ScanSlots(st', bytes, c, n - 1), SlotAt(bytes, n - 1), c, 32 * (n - 1), cl, off, len);
    }
  }

  /** The data with len stored over byte 28 of slot s of the path's cluster m. */
  ghost predicate LenStored(data: seq<seq<u8>>, data': seq<seq<u8>>, path: seq<nat>, m: nat, s: nat, len: u32)
    requires InData(data, path)
  {
    && |data'| == |data| && m < |path| && 32 * s + 32 <= |data[path[m]]|
    && forall i :: 0 <= i < |path| ==>
         data'[path[i]] == if i == m then Splice(data[path[m]], 32 * s + 28, Le32(len)) else data[path[i]]
  }

  /** The walk over the cluster that was written, past the written slot s. */
  lemma {:induction false} TracksWritten(data: seq<seq<u8>>, path: seq<nat>, st': Scan, m: nat, s: nat, n: nat, len: u32)
    requires InData(data, path) && Distinct(path) && st'.Ok() && m < |path| && s < n && 32 * n <= |data[path[m]]|
    requires Tracks(ScanChain(data, path, m), st', path[m], 32 * s, len)
    requires data[path[m]][32 * s + 11] != ATTR_LFN
    ensures Tracks(ScanTo(data, path, m, n), ScanSlots(st', Splice(data[path[m]], 32 * s + 28, Le32(len)), path[m], n), path[m], 32 * s, len)
    decreases n
  {
    hide Tracks, ScanSlot, ScanChain, At;
    var st, bytes, c := ScanChain(data, path, m), data[path[m]], path[m];
    var bytes' := Splice(bytes, 32 * s + 28, Le32(len));
    if n == s + 1 {
      ScanSlotsFrame(st', bytes, bytes', c, s);
      TracksSlots(st, st', bytes, c, s, c, 32 * s, len);
      ChainLocated(data, path, m);
      SlotsLocated(data, path, m, s);
      NoneAtSlot(data, path, ScanTo(data, path, m, s).list, m, s);
      assert SlotAt(bytes', s) == Splice(SlotAt(bytes, s), 28, Le32(len));
      TracksTarget(ScanSlots(st, bytes, c, s), ScanSlots(st', bytes', c, s), SlotAt(bytes, s), c, 32 * s, len);
    } else {
      TracksWritten(data, path, st', m, s, n - 1, len);
      assert SlotAt(bytes', n - 1) == SlotAt(bytes, n - 1);
      TracksOther(ScanSlots(st, bytes, c, n - 1), ScanSlots(st', bytes', c, n - 1), SlotAt(bytes, n - 1), c, 32 * (n - 1), c, 32 * s, len);
    }
  }

  lemma NoneAtSlot(data: seq<seq<u8>>, path: seq<nat>, list: seq<Entry>, m: nat, s: nat)
    requires InData(data, path) && Distinct(path) && m < |path| && AllLocated(data, path, list, m, s)
    ensures forall i :: 0 <= i < |list| && list[i].node.Some? ==> list[i].node.value.cl != path[m] || list[i].node.value.off != 32 * s
  {
    forall i | 0 <= i < |list|
      ensures list[i].node.Some? ==> list[i].node.value.cl != path[m] || list[i].node.value.off != 32 * s
    {
      NotYet(data, path, list[i].node, m, s);
    }
  }

  lemma {:induction false} TracksChain(data: seq<seq<u8>>, data': seq<seq<u8>>, path: seq<nat>, m: nat, s: nat, n: nat, len: u32)
    requires InData(data, path) && Distinct(path) && LenStored(data, data', path, m, s, len) && n <= |path|
    requires data[path[m]][32 * s + 11] != ATTR_LFN
    ensures Tracks(ScanChain(data, path, n), ScanChain(data', path, n), path[m], 32 * s, len)
    decreases n
  {
    hide Tracks, ScanSlots, Splice;
    if n == 0 {
      TracksNothing(path[m], 32 * s, len);
    } else {
      TracksChain(data, data', path, m, s, n - 1, len);
      var c, st, st' := path[n - 1], ScanChain(data, path, n - 1), ScanChain(data', path, n - 1);
      if n - 1 == m {
        TracksWritten(data, path, st', m, s, |data[c]| / 32, len);
      } else {
        TracksSlots(st, st', data[c], c, |data[c]| / 32, path[m], 32 * s, len);
      }
    }
  }

  lemma TracksNothing(cl: nat, off: nat, len: u32)
    ensures Tracks(Scan([], false), Scan([], false), cl, off, len)
  {
  }

  // ---- A length stored over a long slot

  /** st' is the walk that sees another name in entry idx. */
  ghost predicate Renamed(st: Scan, st': Scan, idx: nat, name: seq<u8>) {
    idx < |st.list| && st'.fld == st.fld && st'.list == st.list[idx := st.list[idx].(name := name)]
  }

  lemma RenamedSlot(st: Scan, st': Scan, slot: Slot, c: nat, o: nat, idx: nat, name: seq<u8>)
    requires st.Ok() && st'.Ok() && Renamed(st, st', idx, name)
    ensures Renamed(ScanSlot(st, slot, c, o), ScanSlot(st', slot, c, o), idx, name)
  {
    hide CString, LongChars, InfoOf;
  }

  lemma {:induction false} RenamedSlots(st: Scan, st': Scan, bytes: seq<u8>, c: nat, n: nat, idx: nat, name: seq<u8>)
    requires st.Ok() && st'.Ok() && Renamed(st, st', idx, name) && 32 * n <= |bytes|
    ensures Renamed(ScanSlots(st, bytes, c, n), ScanSlots(st', bytes, c, n), idx, name)
  {
    hide Renamed, ScanSlot;
    if n > 0 {
      RenamedSlots(st, st', bytes, c, n - 1, idx, name);
      RenamedSlot(ScanSlots(st, bytes, c, n - 1), ScanSlots(st', bytes, c, n - 1), SlotAt(bytes, n - 1), c, 32 * (n - 1), idx, name);
    }
  }

  /** The name a long slot has after len is stored at its byte 28: its last two characters are bytes of len. */
  function NameOver(slot: Slot, len: u32): seq<u8> {
    CString(LongChars(Splice(slot, 28, Le32(len))))
  }

  /** The written long slot changes in its name. */
  lemma RenamedTarget(st: Scan, slot: Slot, c: nat, o: nat, len: u32)
    requires st.Ok() && slot[11] == ATTR_LFN
    ensures Renamed(ScanSlot(st, slot, c, o), ScanSlot(st, Splice(slot, 28, Le32(len)), c, o), |st.list|, NameOver(slot, len))
  {
    hide CString, LongChars, InfoOf;
    assert Splice(slot, 28, Le32(len))[11] == ATTR_LFN;
  }

  lemma {:induction false} RenamedWritten(st: Scan, bytes: seq<u8>, c: nat, s: nat, n: nat, len: u32)
    requires st.Ok() && s < n && 32 * n <= |bytes| && bytes[32 * s + 11] == ATTR_LFN
    ensures Renamed(ScanSlots(st, bytes, c, n), ScanSlots(st, Splice(bytes, 32 * s + 28, Le32(len)), c, n),
                    |ScanSlots(st, bytes, c, s).list|, NameOver(SlotAt(bytes, s), len))
    decreases n
  {
    hide ScanSlot, Renamed, NameOver;
    var bytes', idx, name := Splice(bytes, 32 * s + 28, Le32(len)), |ScanSlots(st, bytes, c, s).list|, NameOver(SlotAt(bytes, s), len);
    if n == s + 1 {
      ScanSlotsFrame(st, bytes, bytes', c, s);
      assert SlotAt(bytes', s) == Splice(SlotAt(bytes, s), 28, Le32(len));
      RenamedTarget(ScanSlots(st, bytes, c, s), SlotAt(bytes, s), c, 32 * s, len);
    } else {
      RenamedWritten(st, bytes, c, s, n - 1, len);
      assert SlotAt(bytes', n - 1) == SlotAt(bytes, n - 1);
      RenamedSlot(ScanSlots(st, bytes, c, n - 1), ScanSlots(st, bytes', c, n - 1), SlotAt(bytes, n - 1), c, 32 * (n - 1), idx, name);
    }
  }

  lemma {:induction false} RenamedChain(data: seq<seq<u8>>, data': seq<seq<u8>>, path: seq<nat>, m: nat, s: nat, n: nat, len: u32)
    requires InData(data, path) && LenStored(data, data', path, m, s, len) && m < n <= |path|
    requires data[path[m]][32 * s + 11] == ATTR_LFN
    ensures Renamed(ScanChain(data, path, n), ScanChain(data', path, n), |ScanTo(data, path, m, s).list|, NameOver(SlotAt(data[path[m]], s), len))
    decreases n
  {
    hide Renamed, ScanSlots, Splice, NameOver;
    var c := path[n - 1];
    if n - 1 == m {
      ScanChainFrame(data, data', path, path, m);
      RenamedWritten(ScanChain(data, path, m), data[c], c, s, |data[c]| / 32, len);
    } else {
      RenamedChain(data, data', path, m, s, n - 1, len);
      RenamedSlots(ScanChain(data, path, n - 1), ScanChain(data', path, n - 1), data[c], c, |data[c]| / 32,
                   |ScanTo(data, path, m, s).list|, NameOver(SlotAt(data[path[m]], s), len));
    }
  }

  // ---- Both

  /**
   A length stored at byte 28 of slot s of a directory's cluster m. If that is a short slot, the listing
   changes in exactly the size of the entry with that place. If it is a long slot, which is what the creation of a
   file notes for its node, the listing changes in exactly the name that the slot holds.
   */
  lemma SizeStored(v: Volume, v': Volume, h: nat, m: nat, s: nat, len: u32)
    requires v.Ok() && v'.Ok() && h in v.files && h in v'.files && v'.files[h] == v.files[h]
    requires InData(v.data, v.files[h]) && LenStored(v.data, v'.data, v.files[h], m, s, len)
    ensures v.data[v.files[h][m]][32 * s + 11] != ATTR_LFN ==>
      DirList(v', h) == WithLen(DirList(v, h), v.files[h][m], 32 * s, len)
    ensures v.data[v.files[h][m]][32 * s + 11] == ATTR_LFN ==>
      var idx, list := |ScanTo(v.data, v.files[h], m, s).list|, DirList(v, h);
      idx < |list| && DirList(v', h) == list[idx := list[idx].(name := NameOver(SlotAt(v.data[v.files[h][m]], s), len))]
  {
    hide ScanChain, WithLen, NameOver, Splice;
    ChainIsAcyclic(v.fat, |v.data|, v.files[h]);
    if v.data[v.files[h][m]][32 * s + 11] != ATTR_LFN {
      TracksChain(v.data, v'.data, v.files[h], m, s, |v.files[h]|, len);
    } else {
      RenamedChain(v.data, v'.data, v.files[h], m, s, |v.files[h]|, len);
    }
  }

  /** Where a listed entry is: at a short slot of the directory's chain, and no other entry is there. */
  lemma ListedPlace(v: Volume, h: nat, k: nat) returns (m: nat, s: nat)
    requires v.Ok() && h in v.files && k < |DirList(v, h)| && DirList(v, h)[k].node.Some?
    ensures InData(v.data, v.files[h]) && At(v.data, v.files[h], DirList(v, h)[k].node.value, m, s)
    ensures PlacesApart(DirList(v, h))
  {
    hide ScanChain, At;
    var path := v.files[h];
    ChainIsAcyclic(v.fat, |v.data|, path);
    ChainLocated(v.data, path, |path|);
    assert Located(v.data, path, DirList(v, h)[k].node, |path|, 0);
    m, s :| At(v.data, path, DirList(v, h)[k].node.value, m, s);
  }

  /** With places apart, resizing the place of entry k is resizing entry k. */
  lemma WithLenOfOne(list: seq<Entry>, k: nat, len: u32)
    requires PlacesApart(list) && k < |list| && list[k].node.Some?
    ensures var info := list[k].node.value;
      WithLen(list, info.cl, info.off, len) == list[k := list[k].(node := Some(info.(len := len)))]
  {
    var info := list[k].node.value;
    forall i | 0 <= i < |list| && i != k
      ensures Resized(list[i], info.cl, info.off, len) == list[i]
    {
      assert NodesApart(list[if i < k then i else k].node, list[if i < k then k else i].node);
    }
  }
}
