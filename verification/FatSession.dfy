/** What a listing says of a file after it was written: the two ways a node can remember its entry. */
module FatSession {
  import opened Wrappers
  import opened Bytes
  import opened Chains
  import opened FatFile
  import opened FatDir
  import opened DirTheory
  import opened FatCreate
  import opened FatListing
  import opened FatSize
  import opened FileIo

  lemma PathFacts(v: Volume, d: nat)
    requires v.Ok() && d in v.files
    ensures InData(v.data, v.files[d]) && Distinct(v.files[d])
    ensures forall i :: 0 <= i < |v.files[d]| ==> 2 <= v.files[d][i] && |v.data[v.files[d][i]]| == v.clsz
    ensures forall h :: h in v.files && h != d ==> Disjoint(v.files[d], v.files[h])
  {
    ChainIsAcyclic(v.fat, |v.data|, v.files[d]);
  }

  /** A store touches one directory cluster of each directory at most, and there exactly the four bytes of the length. */
  lemma DirectoryFrame(v: Volume, v': Volume, h: nat, d: nat, m: nat, s: nat, w: seq<u8>, len: u32)
    requires v.Ok() && v'.Ok() && h in v.files && d in v.files && d != h && m < |v.files[d]|
    requires StoreEffect(v, v', h, v.files[d][m], 32 * s, w, len)
    ensures h in v'.files && d in v'.files && v'.files[d] == v.files[d] && |v'.data| == |v.data|
    ensures InData(v.data, v.files[d]) && LenStored(v.data, v'.data, v.files[d], m, s, len)
  {
    hide Flat, Splice, Chained, Volume.Ok, Volume.Contents;
    PathFacts(v, d);
    StoreOpens(v, v', h, v.files[d][m], 32 * s, w, len);
    PathFacts(v', d);
    var path := v.files[d];
    assert v'.files[d] == path && Disjoint(path, v'.files[h]);
    forall i | 0 <= i < |path| && i != m
      ensures v'.data[path[i]] == v.data[path[i]]
    {
      assert path[i] in path && path[i] != path[m];
    }
    Within(path[m], 32 * s, v, v');
  }

  lemma StoreOpens(v: Volume, v': Volume, h: nat, c: nat, off: nat, w: seq<u8>, len: u32)
    requires v.Ok() && v'.Ok() && StoreEffect(v, v', h, c, off, w, len)
    ensures v'.files.Keys == v.files.Keys && forall k :: k in v.files && k != h ==> v'.files[k] == v.files[k]
  {
  }

  lemma Within(c: nat, off: nat, v: Volume, v': Volume)
    requires v.Ok() && 2 <= c < |v.data| && off + 32 <= v.clsz
    ensures off + 32 <= |v.data[c]|
  {
  }

  /**
   Storing through a node that came from a listing: the directory lists the new length in that entry, and every other
   entry, and everything else about this one, as before.
   */
  lemma StoredLengthIsListed(v: Volume, v': Volume, h: nat, d: nat, k: nat, w: seq<u8>, len: u32)
    requires v.Ok() && v'.Ok() && h in v.files && d in v.files && d != h
    requires k < |DirList(v, d)| && DirList(v, d)[k].node.Some?
    requires var info := DirList(v, d)[k].node.value; StoreEffect(v, v', h, info.cl, info.off, w, len)
    ensures d in v'.files
    ensures var e := DirList(v, d)[k];
      DirList(v', d) == DirList(v, d)[k := e.(node := Some(e.node.value.(len := len)))]
  {
    hide ScanChain, WithLen, Flat, StoreEffect, Chained, LenStored, PlacesApart;
    var m, s := ListedPlace(v, d, k);
    PlaceOfInfo(SlotAt(v.data[v.files[d][m]], s), v.files[d][m], 32 * s);
    DirectoryFrame(v, v', h, d, m, s, w, len);
    SizeStored(v, v', d, m, s, len);
    WithLenOfOne(DirList(v, d), k, len);
  }

  /** When a stored length leaves a name in a long slot as it was: by chance, or because the name ends before its last two characters. */
  predicate NameSurvives(fn: seq<u8>, len: u32) {
    || |fn| <= 10
    || (|fn| == 11 && len % 0x100 == 0)
    || (|fn| >= 12 && len % 0x100 == fn[11] && len / 0x1_0000 % 0x100 == 0)
  }

  lemma NameOverLong(fn: seq<u8>, len: u32)
    requires forall k :: 0 <= k < |fn| ==> fn[k] != 0
    ensures NameOver(LongSlot(fn), len) == fn[..Min(NAME_MAX, |fn|)] <==> NameSurvives(fn, len)
  {
    hide CString, Splice, LongSlot;
    var t, chars := fn[..Min(NAME_MAX, |fn|)], LongChars(Splice(LongSlot(fn), 28, Le32(len)));
    CharsOver(fn, len);
    CStringIs(chars, t);
    assert forall j :: 0 <= j < |t| && j < 11 ==> chars[j] == t[j];
    assert chars[..|t|] == t <==> |t| < 12 || chars[11] == fn[11];
  }

  lemma CharsOver(fn: seq<u8>, len: u32)
    ensures var chars := LongChars(Splice(LongSlot(fn), 28, Le32(len)));
      && (forall j :: 0 <= j < 11 ==> chars[j] == WideName(fn)[2 * j])
      && chars[11] == len % 0x100 && chars[12] == len / 0x1_0000 % 0x100
  {
    LongCharsAre(fn);
  }

  /**
   A node that came from a creation remembers its long slot: whatever length is stored through it, the directory goes on
   listing the file with size 10, and two bytes of the length go over the last two characters of its name. The name is
   still there exactly if it ends before them or they happen to agree. Every other entry is as it was.
   */
  lemma CreatedLengthIsLost(v: Volume, v1: Volume, v2: Volume, h: nat, fn: seq<u8>, tp: u32, cl: u32, i: nat, fcl: u32, w: seq<u8>, len: u32)
    requires AddEffect(v, v1, h, fn, tp, cl, i, fcl)
    requires DirOk(v.data, v.files[h]) && forall k :: 0 <= k < |fn| ==> fn[k] != 0
    requires v2.Ok() && StoreEffect(v1, v2, fcl, cl, i, w, len)
    ensures h in v.files && h in v2.files
    ensures var list, e := DirList(v2, h), NewEntry(fn, tp, fcl, cl, i / 32);
      && |list| == |DirList(v, h)| + 1 && list[..|list| - 1] == DirList(v, h)
      && list[|list| - 1].node == e.node
      && (list[|list| - 1].name == e.name <==> NameSurvives(fn, len))
  {
    hide ScanChain, DirOk, Flat, Prepared, PairAt, NewEntry, StoreEffect, NameOver, LenStored, EntryPut, NameSurvives, Chained;
    CreatedIsListed(v, v1, h, fn, tp, cl, i, fcl);
    var m := NewSlot(v, v1, h, fn, tp, cl, i, fcl);
    DirectoryFrame(v1, v2, fcl, h, m, i / 32, w, len);
    SizeStored(v1, v2, h, m, i / 32, len);
    NameOverLong(fn, len);
    NewEntryName(fn, tp, fcl, cl, i / 32);
  }

  lemma NewEntryName(fn: seq<u8>, tp: u32, fcl: u32, cl: nat, s: nat)
    ensures NewEntry(fn, tp, fcl, cl, s).name == fn[..Min(NAME_MAX, |fn|)]
  {
  }

  /** The long slot of a new entry: where it is, what it holds, and that the old entries are the ones listed before it. */
  lemma NewSlot(v: Volume, v1: Volume, h: nat, fn: seq<u8>, tp: u32, cl: u32, i: nat, fcl: u32) returns (m: nat)
    requires AddEffect(v, v1, h, fn, tp, cl, i, fcl)
    requires DirOk(v.data, v.files[h]) && forall k :: 0 <= k < |fn| ==> fn[k] != 0
    ensures h in v1.files && h != fcl && InData(v1.data, v1.files[h]) && m < |v1.files[h]| && v1.files[h][m] == cl
    ensures var s, data, path := i / 32, v1.data, v1.files[h];
      && i == 32 * s && 32 * s + 64 <= |data[cl]| && SlotAt(data[cl], s) == LongSlot(fn) && data[cl][32 * s + 11] == ATTR_LFN
      && ScanTo(data, path, m, s).list == DirList(v, h)
  {
    hide ScanChain, DirOk, Flat, Prepared, PairAt, LongSlot, EntryPut;
    var p := Prepared(v, h, cl);
    PreparedListing(v, h, cl);
    m :| m < |p.files[h]| && p.files[h][m] == cl && EntryPut(p, v1, h, m, i / 32, fn, tp, fcl);
    LongSlotPlaced(p, v1, h, m, i / 32, fn, tp, fcl);
  }

  lemma LongSlotPlaced(v1: Volume, v': Volume, h: nat, m: nat, s: nat, fn: seq<u8>, tp: u32, fcl: u32)
    requires Indexed(v1, h) && v'.Ok() && EntryPut(v1, v', h, m, s, fn, tp, fcl) && DirOk(v1.data, v1.files[h])
    requires forall k :: 0 <= k < |fn| ==> fn[k] != 0
    ensures h in v'.files && v'.files[h] == v1.files[h] && h != fcl && InData(v'.data, v'.files[h]) && m < |v'.files[h]|
    ensures var c := v'.files[h][m];
      && 32 * s + 64 <= |v'.data[c]| && SlotAt(v'.data[c], s) == LongSlot(fn) && v'.data[c][32 * s + 11] == ATTR_LFN
      && ScanTo(v'.data, v'.files[h], m, s).list == ScanChain(v1.data, v1.files[h], |v1.files[h]|).list
  {
    hide ScanChain, LongSlot, ShortSlot, ScanSlots, NoPairBefore;
    var path := v1.files[h];
    var c, data := path[m], v1.data;
    NewChainIsFresh(v1, fcl);
    PathFacts(v1, h);
    LongSlotReads(fn);
    var bytes := WithEntry(data[c], s, fn, tp, fcl);
    assert v'.data[c] == bytes && SlotAt(bytes, s) == LongSlot(fn) && bytes[32 * s + 11] == SlotAt(bytes, s)[11];
    ScanChainFrame(data, v'.data, path, path, m);
    ScanSlotsFrame(ScanChain(data, path, m), data[c], bytes, c, s);
    QuietChain(data, path, m, s, |path|);
  }
}
