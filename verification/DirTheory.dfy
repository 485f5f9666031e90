/** What adding a directory entry, and writing a file's size into one, do to the listing. */
module DirTheory {
  import opened Wrappers
  import opened Bytes
  import opened FsTypes
  import opened FatFile
  import opened FatDir

  const NAME_MAX: nat := 12

  /** The name as two-byte characters: the characters, an end mark, then padding. */
  function WideName(fn: seq<u8>): (r: seq<u8>)
    ensures |r| == 26
  {
    var n := Min(NAME_MAX, |fn|);
    seq(26, k requires 0 <= k < 26 =>
      if k / 2 < n then (if k % 2 == 0 then fn[k / 2] else 0)
      else if k / 2 == n then 0
      else 0xff)
  }

  /** Byte k of a long slot at a whose first q name bytes have been stored over prev. */
  function LongField(w: seq<u8>, a: nat, q: nat, k: nat, prev: u8): u8
    requires |w| == 26 && q <= 26
  {
    if a + 1 <= k < a + 11 && k - a - 1 < q then w[k - a - 1]
    else if a + 14 <= k < a + 26 && k - a - 4 < q then w[k - a - 4]
    else if a + 28 <= k < a + 32 && k - a - 6 < q then w[k - a - 6]
    else prev
  }

  /** Ordinal, name, attribute, and zeros elsewhere. */
  function LongSlot(fn: seq<u8>): Slot {
    seq(32, k requires 0 <= k < 32 =>
      if k == 0 then 0x41 else if k == 11 then ATTR_LFN else LongField(WideName(fn), 0, 26, k, 0))
  }

  /** Position of the first dot, or the length. */
  function DotAt(fn: seq<u8>): (d: nat)
    ensures d <= |fn| && (d < |fn| ==> fn[d] == '.' as u8)
    ensures forall k :: 0 <= k < d ==> fn[k] != '.' as u8
  {
    if fn == [] || fn[0] == '.' as u8 then 0 else 1 + DotAt(fn[1..])
  }

  /** Eight characters of name, and three of extension if there is a dot; otherwise the slot keeps its old ones. */
  function ShortName(prev: Slot, fn: seq<u8>): (r: seq<u8>)
    ensures |r| == 11
  {
    var d := DotAt(fn);
    seq(11, k requires 0 <= k < 11 =>
      if k < 8 then (if k < d then fn[k] else ' ' as u8)
      else if d == |fn| then prev[k]
      else if d + 1 + (k - 8) < |fn| then fn[d + 1 + (k - 8)]
      else ' ' as u8)
  }

  function Le16(v: nat): seq<u8> {
    [v % 0x100, v / 0x100 % 0x100]
  }

  /** Attributes, case flags, times, cluster halves and size of a short slot, from its byte 11 on. */
  function ShortTail(tp: u32, fcl: u32): (r: seq<u8>)
    ensures |r| == 21
  {
    [if tp == FS_DIR then ATTR_DIR else 0] + Zeros(8) + Le16(fcl / 0x1_0000) + Zeros(4) + Le16(fcl % 0x1_0000) + Le32(10)
  }

  function ShortSlot(prev: Slot, fn: seq<u8>, tp: u32, fcl: u32): Slot {
    ShortName(prev, fn) + ShortTail(tp, fcl)
  }

  lemma LongCharsAre(fn: seq<u8>)
    ensures forall j :: 0 <= j < 13 ==> LongChars(LongSlot(fn))[j] == WideName(fn)[2 * j]
  {
    hide WideName;
  }

  /** A long slot gives back the first twelve characters of the name. */
  lemma LongSlotReads(fn: seq<u8>)
    requires forall k :: 0 <= k < |fn| ==> fn[k] != 0
    ensures LongSlot(fn)[11] == ATTR_LFN && LongSlot(fn)[0] != 0
    ensures CString(LongChars(LongSlot(fn))) == fn[..Min(NAME_MAX, |fn|)]
  {
    hide LongChars, CString;
    var n, chars := Min(NAME_MAX, |fn|), LongChars(LongSlot(fn));
    LongCharsAre(fn);
    CStringStops(chars, n);
  }

  /** A short slot gives back type, first cluster and the size 10, and never looks unused or long. */
  lemma ShortSlotReads(prev: Slot, fn: seq<u8>, tp: u32, fcl: u32, cl: nat, off: nat)
    requires forall k :: 0 <= k < |fn| ==> fn[k] != 0
    ensures var s := ShortSlot(prev, fn, tp, fcl);
      && s[11] != ATTR_LFN && s[0] != 0
      && InfoOf(s, cl, off) == NodeInfo(if tp == FS_DIR then FS_DIR else FS_FILE, fcl, 10, cl, off)
  {
    hide Word;
    var s := ShortSlot(prev, fn, tp, fcl);
    assert s[20..22] == Le16(fcl / 0x1_0000) && s[26..28] == Le16(fcl % 0x1_0000) && s[28..32] == Le32(10);
    WordInSlice(s, 28, 32, 28);
    WordOfLe32(10);
  }

  // ---- Unused slots

  /** Slots s and s + 1 of cluster m both look unused. */
  ghost predicate PairAt(data: seq<seq<u8>>, path: seq<nat>, m: nat, s: nat)
    requires InData(data, path)
  {
    && m < |path| && 32 * s + 64 <= |data[path[m]]|
    && data[path[m]][32 * s] == 0 && data[path[m]][32 * s + 32] == 0
  }

  ghost predicate QuietSlots(bytes: seq<u8>, s: nat) {
    forall k :: s <= k && 32 * k + 32 <= |bytes| ==> bytes[32 * k + 11] != ATTR_LFN
  }

  /** No long slot from slot s of cluster m on. */
  ghost predicate QuietFrom(data: seq<seq<u8>>, path: seq<nat>, m: nat, s: nat)
    requires InData(data, path) && m < |path|
  {
    && QuietSlots(data[path[m]], s)
    && forall j :: m < j < |path| ==> QuietSlots(data[path[j]], 0)
  }

  /**
   A directory in order: where two slots look unused, no long slot follows and none waits for its short
   slot; none waits at the end either.
   */
  ghost predicate DirOk(data: seq<seq<u8>>, path: seq<nat>)
    requires InData(data, path)
  {
    && (forall m: nat, s: nat :: PairAt(data, path, m, s) ==> QuietFrom(data, path, m, s) && !ScanTo(data, path, m, s).fld)
    && !ScanChain(data, path, |path|).fld
  }

  lemma {:induction false} QuietScan(st: Scan, bytes: seq<u8>, cl: nat, s: nat, n: nat)
    requires st.Ok() && s <= n && 32 * n <= |bytes| && QuietSlots(bytes, s) && !ScanSlots(st, bytes, cl, s).fld
    ensures ScanSlots(st, bytes, cl, n) == ScanSlots(st, bytes, cl, s)
    decreases n
  {
    if s < n {
      QuietScan(st, bytes, cl, s, n - 1);
      assert SlotAt(bytes, n - 1)[11] == bytes[32 * (n - 1) + 11];
    }
  }

  /** A quiet rest of a directory adds nothing to the listing. */
  lemma {:induction false} QuietChain(data: seq<seq<u8>>, path: seq<nat>, m: nat, s: nat, n: nat)
    requires InData(data, path) && m < n <= |path| && 32 * s <= |data[path[m]]|
    requires QuietFrom(data, path, m, s) && !ScanTo(data, path, m, s).fld
    ensures ScanChain(data, path, n) == ScanTo(data, path, m, s)
    decreases n
  {
    var c := path[n - 1];
    if n - 1 == m {
      QuietScan(ScanChain(data, path, m), data[c], c, s, |data[c]| / 32);
    } else {
      QuietChain(data, path, m, s, n - 1);
      QuietScan(ScanChain(data, path, n - 1), data[c], c, 0, |data[c]| / 32);
    }
  }

  /** The walk depends only on the slots it has passed. */
  lemma {:induction false} ScanSlotsFrame(st: Scan, bytes: seq<u8>, bytes': seq<u8>, cl: nat, n: nat)
    requires st.Ok() && 32 * n <= |bytes| && 32 * n <= |bytes'| && bytes[..32 * n] == bytes'[..32 * n]
    ensures ScanSlots(st, bytes, cl, n) == ScanSlots(st, bytes', cl, n)
    decreases n
  {
    if n > 0 {
      assert bytes[..32 * n][..32 * (n - 1)] == bytes[..32 * (n - 1)];
      assert bytes'[..32 * n][..32 * (n - 1)] == bytes'[..32 * (n - 1)];
      ScanSlotsFrame(st, bytes, bytes', cl, n - 1);
      assert SlotAt(bytes, n - 1) == bytes[..32 * n][32 * (n - 1)..] == SlotAt(bytes', n - 1);
    }
  }

  lemma {:induction false} ScanChainFrame(data: seq<seq<u8>>, data': seq<seq<u8>>, path: seq<nat>, path': seq<nat>, n: nat)
    requires InData(data, path) && InData(data', path') && n <= |path| && n <= |path'|
    requires forall i :: 0 <= i < n ==> path'[i] == path[i] && data'[path[i]] == data[path[i]]
    ensures ScanChain(data', path', n) == ScanChain(data, path, n)
    decreases n
  {
    if n > 0 {
      ScanChainFrame(data, data', path, path', n - 1);
    }
  }

  /** The entry that a long and a short slot at slots s and s + 1 of cluster cl stand for. */
  function NewEntry(fn: seq<u8>, tp: u32, fcl: u32, cl: nat, s: nat): Entry {
    Entry(fn[..Min(NAME_MAX, |fn|)], Some(NodeInfo(if tp == FS_DIR then FS_DIR else FS_FILE, fcl, 10, cl, 32 * s + 32)))
  }

  /** Cluster bytes with a new entry in slots s and s + 1. */
  function WithEntry(bytes: seq<u8>, s: nat, fn: seq<u8>, tp: u32, fcl: u32): (r: seq<u8>)
    requires 32 * s + 64 <= |bytes|
    ensures |r| == |bytes|
  {
    Splice(bytes, 32 * s, LongSlot(fn) + ShortSlot(SlotAt(bytes, s + 1), fn, tp, fcl))
  }

  /** Encode, then decode: the two new slots, read after the old ones, add exactly the new entry. */
  lemma NewSlotsScan(st: Scan, bytes: seq<u8>, cl: nat, s: nat, fn: seq<u8>, tp: u32, fcl: u32)
    requires st.Ok() && 32 * s + 64 <= |bytes| && !ScanSlots(st, bytes, cl, s).fld
    requires forall k :: 0 <= k < |fn| ==> fn[k] != 0
    ensures ScanSlots(st, WithEntry(bytes, s, fn, tp, fcl), cl, s + 2) ==
            Scan(ScanSlots(st, bytes, cl, s).list + [NewEntry(fn, tp, fcl, cl, s)], false)
  {
    hide LongSlot, ShortSlot, CString, LongChars, InfoOf, Splice;
    var bytes' := WithEntry(bytes, s, fn, tp, fcl);
    ScanSlotsFrame(st, bytes, bytes', cl, s);
    LongSlotReads(fn);
    ShortSlotReads(SlotAt(bytes, s + 1), fn, tp, fcl, cl, 32 * s + 32);
    assert SlotAt(bytes', s) == LongSlot(fn);
    assert SlotAt(bytes', s + 1) == ShortSlot(SlotAt(bytes, s + 1), fn, tp, fcl);
    var before := ScanSlots(st, bytes, cl, s);
    var mid := ScanSlots(st, bytes', cl, s + 1);
    assert mid == Scan(before.list + [Entry(fn[..Min(NAME_MAX, |fn|)], None)], true);
    assert ScanSlots(st, bytes', cl, s + 2) == ScanSlot(mid, SlotAt(bytes', s + 1), cl, 32 * (s + 1));
  }

  ghost predicate NoPairBefore(data: seq<seq<u8>>, path: seq<nat>, m: nat, s: nat)
    requires InData(data, path)
  {
    forall j: nat, k: nat :: PairAt(data, path, j, k) ==> j > m || (j == m && k >= s)
  }

  lemma NoPairStart(data: seq<seq<u8>>, path: seq<nat>)
    requires InData(data, path)
    ensures NoPairBefore(data, path, 0, 0)
  {
  }

  /** The search for unused slots: past a slot that starts no pair, past a cluster, past the last cluster. */
  lemma NoPairStep(data: seq<seq<u8>>, path: seq<nat>, m: nat, s: nat)
    requires InData(data, path) && m < |path| && NoPairBefore(data, path, m, s)
    ensures !PairAt(data, path, m, s) ==> NoPairBefore(data, path, m, s + 1)
    ensures 32 * s >= |data[path[m]]| ==> NoPairBefore(data, path, m + 1, 0)
    ensures 32 * s >= |data[path[m]]| && m + 1 == |path| ==> forall j: nat, k: nat :: !PairAt(data, path, j, k)
  {
  }

  /** The directory data with a new entry in slots s and s + 1 of cluster m. */
  function DataWith(data: seq<seq<u8>>, path: seq<nat>, m: nat, s: nat, fn: seq<u8>, tp: u32, fcl: u32): (r: seq<seq<u8>>)
    requires m < |path| && path[m] < |data| && 32 * s + 64 <= |data[path[m]]|
    ensures |r| == |data| && |r[path[m]]| == |data[path[m]]|
    ensures forall c :: 0 <= c < |data| && c != path[m] ==> r[c] == data[c]
  {
    data[path[m] := WithEntry(data[path[m]], s, fn, tp, fcl)]
  }

  /** The walk right after the new entry. */
  lemma AfterEntry(data: seq<seq<u8>>, path: seq<nat>, m: nat, s: nat, fn: seq<u8>, tp: u32, fcl: u32)
    requires InData(data, path) && (forall i, j :: 0 <= i < j < |path| ==> path[i] != path[j])
    requires DirOk(data, path) && PairAt(data, path, m, s)
    requires forall k :: 0 <= k < |fn| ==> fn[k] != 0
    ensures var data' := DataWith(data, path, m, s, fn, tp, fcl);
      && QuietFrom(data', path, m, s + 2)
      && ScanTo(data', path, m, s + 2) == Scan(ScanTo(data, path, m, s).list + [NewEntry(fn, tp, fcl, path[m], s)], false)
  {
    hide LongSlot, ShortSlot, NewEntry, ScanSlots, ScanChain;
    var c, data' := path[m], DataWith(data, path, m, s, fn, tp, fcl);
    ScanChainFrame(data, data', path, path, m);
    NewSlotsScan(ScanChain(data, path, m), data[c], c, s, fn, tp, fcl);
  }

  /** Putting an entry into the first two unused slots of an orderly directory adds it at the end of the listing. */
  lemma EntryAdded(data: seq<seq<u8>>, path: seq<nat>, m: nat, s: nat, fn: seq<u8>, tp: u32, fcl: u32)
    requires InData(data, path) && (forall i, j :: 0 <= i < j < |path| ==> path[i] != path[j])
    requires DirOk(data, path) && PairAt(data, path, m, s)
    requires forall k :: 0 <= k < |fn| ==> fn[k] != 0
    ensures ScanChain(DataWith(data, path, m, s, fn, tp, fcl), path, |path|) ==
            Scan(ScanChain(data, path, |path|).list + [NewEntry(fn, tp, fcl, path[m], s)], false)
  {
    hide DataWith, NewEntry, ScanSlots, ScanChain, ScanTo;
    AfterEntry(data, path, m, s, fn, tp, fcl);
    QuietChain(data, path, m, s, |path|);
    QuietChain(DataWith(data, path, m, s, fn, tp, fcl), path, m, s + 2, |path|);
  }

  /** The directory stays orderly. */
  lemma EntryKeepsOrder(data: seq<seq<u8>>, path: seq<nat>, m: nat, s: nat, fn: seq<u8>, tp: u32, fcl: u32)
    requires InData(data, path) && (forall i, j :: 0 <= i < j < |path| ==> path[i] != path[j])
    requires DirOk(data, path) && PairAt(data, path, m, s) && NoPairBefore(data, path, m, s)
    requires forall k :: 0 <= k < |fn| ==> fn[k] != 0
    ensures DirOk(DataWith(data, path, m, s, fn, tp, fcl), path)
  {
    hide DataWith, NewEntry, ScanSlots, ScanChain, NoPairBefore;
    var data' := DataWith(data, path, m, s, fn, tp, fcl);
    AfterEntry(data, path, m, s, fn, tp, fcl);
    QuietChain(data', path, m, s + 2, |path|);
    forall j: nat, k: nat | PairAt(data', path, j, k)
      ensures QuietFrom(data', path, j, k) && !ScanTo(data', path, j, k).fld
    {
      LaterPair(data, path, m, s, fn, tp, fcl, j, k);
      if j == m {
        QuietScan(ScanChain(data', path, m), data'[path[m]], path[m], s + 2, k);
      } else {
        QuietChain(data', path, m, s + 2, j);
        ScanNone(ScanChain(data', path, j), data'[path[j]], path[j]);
        QuietScan(ScanChain(data', path, j), data'[path[j]], path[j], 0, k);
      }
    }
  }

  lemma ScanNone(st: Scan, bytes: seq<u8>, cl: nat)
    requires st.Ok()
    ensures ScanSlots(st, bytes, cl, 0) == st
  {
  }

  /** Any two unused slots that are left come after the new entry. */
  lemma LaterPair(data: seq<seq<u8>>, path: seq<nat>, m: nat, s: nat, fn: seq<u8>, tp: u32, fcl: u32, j: nat, k: nat)
    requires InData(data, path) && (forall i, j :: 0 <= i < j < |path| ==> path[i] != path[j])
    requires PairAt(data, path, m, s) && NoPairBefore(data, path, m, s)
    requires forall k :: 0 <= k < |fn| ==> fn[k] != 0
    requires PairAt(DataWith(data, path, m, s, fn, tp, fcl), path, j, k)
    ensures j > m || (j == m && k >= s + 2)
  {
    hide LongSlot, ShortSlot;
    var c, data' := path[m], DataWith(data, path, m, s, fn, tp, fcl);
    if j != m {
      assert data'[path[j]] == data[path[j]];
      assert PairAt(data, path, j, k);
    } else {
      LongSlotReads(fn);
      ShortSlotReads(SlotAt(data[c], s + 1), fn, tp, fcl, c, 0);
      assert data'[c][32 * s] == LongSlot(fn)[0];
      assert data'[c][32 * s + 32] == ShortSlot(SlotAt(data[c], s + 1), fn, tp, fcl)[0];
      var unused := PairAt(data, path, m, k);
      assert k + 1 < s ==> unused;
    }
  }
}
