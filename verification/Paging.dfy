/**
 The paging window: one page directory, page tables laid out one behind the other, and the hardware's
 cached translations. Only the 512 pages of the process window are ever remapped.
 */
module Paging {
  import opened Wrappers
  import opened Bytes

  const PAGE: nat := 0x1000
  const TABLES: nat := 0x40_0000
  const ENTRIES: nat := 0x400
  const TOP: nat := 0xffc0_0000
  const WINDOW: nat := 0x80_0000
  const WINDOW_SIZE: nat := 0x20_0000
  const WINDOW_PAGE: nat := 0x800
  const WINDOW_PAGES: nat := 0x200

  /** Present, writable, and for user code too. */
  const KERNEL: nat := 3
  const USER: nat := 7

  /** The page-aligned part of an address with flags in its low bits. */
  function Entry(a: nat, flags: nat): (e: nat)
    requires flags < PAGE
    ensures e <= a + flags
  {
    a - a % PAGE + flags
  }

  function FrameOf(e: nat): nat {
    e - e % PAGE
  }

  lemma EntryFrame(page: nat, flags: nat)
    requires flags < PAGE
    ensures Entry(page * PAGE, flags) == page * PAGE + flags
    ensures FrameOf(Entry(page * PAGE, flags)) == page * PAGE
    ensures Entry(page * PAGE, flags) % PAGE == flags
  {
    assert (page * PAGE) % PAGE == 0;
    assert (page * PAGE + flags) % PAGE == flags;
  }

  /** What the processor makes of a linear address: the physical one, and whether user code may use it and write there. */
  datatype Mapping = Mapping(phys: nat, user: bool, write: bool)

  /** Bit n of an entry. */
  function Bit(e: nat, n: nat): bool {
    e / Power(n) % 2 == 1
  }

  function Power(n: nat): (p: nat)
    ensures p > 0
  {
    if n == 0 then 1 else 2 * Power(n - 1)
  }

  /**
   The two-level walk (Intel SDM Volume 3A, section 4.3): bits 22 to 31 of the address choose the directory entry, bits 12
   to 21 the table entry, and either must have bit 0, present, set. User code needs bit 2 in both, and bit 1 in both to
   write. The tables are words of ptab, which starts at address 0x400000; what is outside them is not modelled.
   */
  function Walk(pdir: seq<u32>, ptab: seq<u32>, v: nat): Option<Mapping>
    requires |pdir| == 1024 && v < 0x1_0000_0000
  {
    var d := pdir[v / 0x40_0000];
    var k := (d / 0x1000 * 0x1000 - 0x40_0000) / 4 + v / 0x1000 % 0x400;
    if !Bit(d, 0) || d < 0x40_0000 || k >= |ptab| || !Bit(ptab[k], 0) then None
    else Some(Mapping(ptab[k] / 0x1000 * 0x1000 + v % 0x1000, Bit(d, 2) && Bit(ptab[k], 2), Bit(d, 1) && Bit(ptab[k], 1)))
  }

  /** The flags of the first two tables, which the kernel keeps to itself, and of the rest. */
  function FlagsOf(table: nat): nat {
    if table < 2 then KERNEL else USER
  }

  /** The directory points at the tables one behind the other. */
  ghost predicate DirectoryOk(pdir: seq<u32>) {
    && |pdir| == ENTRIES
    && forall i: nat :: i < ENTRIES - 1 ==> FrameOf(pdir[i]) == TABLES + i * PAGE && pdir[i] % PAGE == FlagsOf(i)
  }

  lemma FlagBits(e: nat)
    ensures e % PAGE == KERNEL ==> Bit(e, 0) && Bit(e, 1) && !Bit(e, 2)
    ensures e % PAGE == USER ==> Bit(e, 0) && Bit(e, 1) && Bit(e, 2)
    ensures FrameOf(e) == e / 0x1000 * 0x1000
  {
    assert Power(0) == 1 && Power(1) == 2 && Power(2) == 4;
    assert e == e / PAGE * PAGE + e % PAGE;
  }

  /** Entry e of page i is present, writable, and for user code unless the page is one of the kernel's. */
  predicate EntryOk(i: nat, e: nat) {
    e % PAGE == USER || (i < 2 * ENTRIES && e % PAGE == KERNEL)
  }

  /**
   With such a directory the table entry used for v is simply the one for v's page. Every address below 0xFFC00000
   translates; user code may read and write from 8 MiB on and may do neither below.
   */
  lemma WalkIsLookup(pdir: seq<u32>, ptab: seq<u32>, v: nat)
    requires DirectoryOk(pdir) && v < 0xffc0_0000 && |ptab| == ENTRIES * (ENTRIES - 1)
    requires forall i: nat :: i < |ptab| ==> EntryOk(i, ptab[i])
    ensures v / PAGE < |ptab|
    ensures Walk(pdir, ptab, v) == Some(Mapping(FrameOf(ptab[v / PAGE]) + v % PAGE, v >= 0x80_0000, true))
  {
    assert EntryOk(v / PAGE, ptab[v / PAGE]);
    var d := v / 0x40_0000;
    assert d * PAGE / 4 == d * ENTRIES;
    assert v / PAGE / ENTRIES == d;
    FlagBits(pdir[d]);
    FlagBits(ptab[v / PAGE]);
  }

  /** Where page i of the address space is while the process at mem has the window. */
  function Target(mem: nat, page: nat): nat {
    if WINDOW_PAGE <= page < WINDOW_PAGE + WINDOW_PAGES then mem + (page - WINDOW_PAGE) * PAGE else page * PAGE
  }

  class Mmu {
    const pdir: array<u32>
    const ptab: array<u32>
    var tlb: map<nat, nat>

    constructor ()
      ensures pdir.Length == ENTRIES && ptab.Length == ENTRIES * (ENTRIES - 1) && tlb == map[]
      ensures fresh(pdir) && fresh(ptab) && pdir != ptab
    {
      pdir := new u32[ENTRIES];
      ptab := new u32[ENTRIES * (ENTRIES - 1)];
      tlb := map[];
    }

    ghost predicate Enabled()
      reads pdir
    {
      pdir != ptab && ptab.Length == ENTRIES * (ENTRIES - 1) && DirectoryOk(pdir[..])
    }

    /** The tables give every page its target while the process at mem has the window, and the rights it should have. */
    ghost predicate Maps(mem: nat)
      reads ptab
    {
      forall i: nat :: i < ptab.Length ==> FrameOf(ptab[i]) == Target(mem, i) && EntryOk(i, ptab[i])
    }

    /** No cached translation differs from the tables. */
    ghost predicate NoneStale()
      reads this, ptab
    {
      forall page: nat :: page in tlb ==> page < ptab.Length && tlb[page] == FrameOf(ptab[page])
    }

    /** The physical address the processor uses for v: a cached translation if there is one, the walk's if not, or none. */
    function Access(v: nat): Option<nat>
      requires pdir.Length == 1024 && v < 0x1_0000_0000
      reads this, pdir, ptab
    {
      if v / PAGE in tlb then Some(tlb[v / PAGE] + v % PAGE)
      else
        var m := Walk(pdir[..], ptab[..], v);
        if m.None? then None else Some(m.value.phys)
    }

    /** The processor walks the tables for a page and caches what it found. */
    method Cache(page: nat, ghost mem: nat)
      requires Enabled() && Maps(mem) && page < ptab.Length
      modifies this
      ensures tlb == old(tlb)[page := FrameOf(ptab[page])] && (old(NoneStale()) ==> NoneStale())
    {
      assert page * PAGE / PAGE == page && page * PAGE % PAGE == 0;
      WalkIsLookup(pdir[..], ptab[..], page * PAGE);
      var m := Walk(pdir[..], ptab[..], page * PAGE);
      tlb := tlb[page := m.value.phys];
    }

    /** Map the whole address space to itself and switch paging on, which empties the cache. */
    method Enable()
      requires pdir.Length == ENTRIES && ptab.Length == ENTRIES * (ENTRIES - 1) && pdir != ptab
      modifies this, pdir, ptab
      ensures Enabled() && tlb == map[]
      ensures forall i: nat :: i < ptab.Length ==> ptab[i] == Entry(i * PAGE, if i < 2048 then KERNEL else USER)
      ensures Maps(WINDOW)
      ensures forall v: nat :: v < 0xffc0_0000 ==> Walk(pdir[..], ptab[..], v) == Some(Mapping(v, v >= 0x80_0000, true))
    {
      hide Entry, FrameOf, Walk;
      pdir[0] := Entry(TABLES, KERNEL);
      pdir[1] := Entry(TABLES + PAGE, KERNEL);
      for i := 2 to 1024
        invariant forall k: nat :: k < i ==> pdir[k] == Entry(TABLES + k * PAGE, if k < 2 then KERNEL else USER)
      {
        pdir[i] := Entry(TABLES + i * PAGE, USER);
      }
      for i := 0 to 2048
        invariant forall k: nat :: k < i ==> ptab[k] == Entry(k * PAGE, KERNEL)
        invariant forall k: nat :: k < 1024 ==> pdir[k] == Entry(TABLES + k * PAGE, if k < 2 then KERNEL else USER)
      {
        ptab[i] := Entry(i * PAGE, KERNEL);
      }
      for i := 2048 to 1024 * 1023
        invariant forall k: nat :: k < i ==> ptab[k] == Entry(k * PAGE, if k < 2048 then KERNEL else USER)
        invariant forall k: nat :: k < 1024 ==> pdir[k] == Entry(TABLES + k * PAGE, if k < 2 then KERNEL else USER)
      {
        ptab[i] := Entry(i * PAGE, USER);
      }
      tlb := map[];
      IdentityMaps();
    }

    /** The entries of the identity map. */
    ghost predicate Identity()
      reads pdir, ptab
    {
      && pdir.Length == ENTRIES && ptab.Length == ENTRIES * (ENTRIES - 1) && pdir != ptab
      && (forall i: nat :: i < ENTRIES ==> pdir[i] == Entry(TABLES + i * PAGE, if i < 2 then KERNEL else USER))
      && forall i: nat :: i < ptab.Length ==> ptab[i] == Entry(i * PAGE, if i < 2048 then KERNEL else USER)
    }

    lemma IdentityMaps()
      requires Identity()
      ensures Enabled() && Maps(WINDOW)
      ensures forall v: nat :: v < 0xffc0_0000 ==> Walk(pdir[..], ptab[..], v) == Some(Mapping(v, v >= 0x80_0000, true))
    {
      hide Walk;
      forall i: nat | i < ENTRIES
        ensures FrameOf(pdir[..][i]) == TABLES + i * PAGE && pdir[..][i] % PAGE == FlagsOf(i)
      {
        assert TABLES + i * PAGE == (TABLES / PAGE + i) * PAGE;
        EntryFrame(TABLES / PAGE + i, if i < 2 then KERNEL else USER);
      }
      forall i: nat | i < ptab.Length
        ensures FrameOf(ptab[i]) == i * PAGE && EntryOk(i, ptab[i])
      {
        EntryFrame(i, if i < 2048 then KERNEL else USER);
      }
      forall v: nat | v < 0xffc0_0000
        ensures Walk(pdir[..], ptab[..], v) == Some(Mapping(v, v >= 0x80_0000, true))
      {
        WalkIsLookup(pdir[..], ptab[..], v);
      }
    }

    method SetPtEntry(e: nat, p: nat)
      requires e < ptab.Length && p < 0x1_0000_0000
      modifies ptab
      ensures ptab[..] == old(ptab[..])[e := Entry(p, USER)]
    {
      ptab[e] := Entry(p, USER);
    }

    /** Map n pages from v on to the frames from p on. Cached translations stay as they are. */
    method PagingMap(v: nat, p: nat, n: nat)
      requires v / PAGE + n <= ptab.Length && p + n * PAGE <= 0x1_0000_0000
      modifies ptab
      ensures forall i: nat :: i < ptab.Length ==>
        ptab[i] == if v / PAGE <= i < v / PAGE + n then Entry(p + (i - v / PAGE) * PAGE, USER) else old(ptab[i])
    {
      var ent := v / PAGE;
      for i := 0 to n
        invariant forall k: nat :: k < ptab.Length ==>
          ptab[k] == if ent <= k < ent + i then Entry(p + (k - ent) * PAGE, USER) else old(ptab[k])
      {
        SetPtEntry(ent + i, p + i * PAGE);
      }
    }

    /** Whatever is mapped, every address goes on translating with the rights it had. */
    lemma MappingKeepsRights(before: seq<u32>, v: nat, p: nat, n: nat, a: nat)
      requires Enabled() && |before| == ptab.Length && a < 0xffc0_0000
      requires forall i: nat :: i < |before| ==> EntryOk(i, before[i])
      requires forall i: nat :: i < ptab.Length ==>
        ptab[i] == if v / PAGE <= i < v / PAGE + n then Entry(p + (i - v / PAGE) * PAGE, USER) else before[i]
      ensures a / PAGE < |before|
      ensures Walk(pdir[..], ptab[..], a) == Some(Mapping(
        (if v / PAGE <= a / PAGE < v / PAGE + n then p / PAGE * PAGE + (a / PAGE - v / PAGE) * PAGE else FrameOf(before[a / PAGE])) + a % PAGE,
        a >= 0x80_0000, true))
    {
      forall i: nat | i < ptab.Length
        ensures EntryOk(i, ptab[..][i])
        ensures v / PAGE <= i < v / PAGE + n ==> FrameOf(ptab[i]) == p / PAGE * PAGE + (i - v / PAGE) * PAGE
      {
        if v / PAGE <= i < v / PAGE + n {
          RaisedFrame(p, i - v / PAGE);
          EntryFrame(p / PAGE + (i - v / PAGE), USER);
        }
      }
      WalkIsLookup(pdir[..], ptab[..], a);
    }

    lemma RaisedFrame(p: nat, k: nat)
      ensures Entry(p + k * PAGE, USER) == Entry((p / PAGE + k) * PAGE, USER) && (p / PAGE + k) * PAGE == p / PAGE * PAGE + k * PAGE
    {
      assert (p + k * PAGE) % PAGE == p % PAGE && p == p / PAGE * PAGE + p % PAGE;
    }

    /** Empty the cache: then none of it can be stale. */
    method Invalidate()
      modifies this
      ensures tlb == map[] && NoneStale()
    {
      tlb := map[];
    }

    /**
     Why a remap is followed by a flush: when the window goes from the process at m to another at p, what was cached
     before is still right if and only if no page of the window was cached.
     */
    lemma FlushNeeded(before: seq<u32>, m: nat, p: nat)
      requires Maps(p) && m != p && |before| == ptab.Length
      requires forall i: nat :: i < |before| ==> FrameOf(before[i]) == Target(m, i)
      requires forall page: nat :: page in tlb ==> page < |before| && tlb[page] == FrameOf(before[page])
      ensures NoneStale() <==> forall page: nat :: page in tlb ==> !(WINDOW_PAGE <= page < WINDOW_PAGE + WINDOW_PAGES)
    {
      forall page: nat | page in tlb
        ensures tlb[page] == FrameOf(ptab[page]) <==> !(WINDOW_PAGE <= page < WINDOW_PAGE + WINDOW_PAGES)
      {
        assert tlb[page] == Target(m, page) && FrameOf(ptab[page]) == Target(p, page);
      }
    }

    /** What the processor sees of a page that was cached before such a remap: still the process that had the window. */
    lemma StaleSeesOld(before: seq<u32>, m: nat, v: nat)
      requires pdir.Length == 1024 && |before| == ptab.Length
      requires forall i: nat :: i < |before| ==> FrameOf(before[i]) == Target(m, i)
      requires forall page: nat :: page in tlb ==> page < |before| && tlb[page] == FrameOf(before[page])
      requires 0x80_0000 <= v < 0xa0_0000 && v / 0x1000 in tlb
      ensures Access(v) == Some(m + (v - 0x80_0000))
    {
      assert v / PAGE in tlb && v == v / PAGE * PAGE + v % PAGE;
    }

    /** Remapping the window to the process at p gives every page its target for p. */
    lemma WindowRemapped(before: seq<u32>, m: nat, p: nat)
      requires |before| == ptab.Length && p % PAGE == 0
      requires forall i: nat :: i < |before| ==> FrameOf(before[i]) == Target(m, i) && EntryOk(i, before[i])
      requires forall i: nat :: i < ptab.Length ==>
        ptab[i] == if WINDOW_PAGE <= i < WINDOW_PAGE + WINDOW_PAGES then Entry(p + (i - WINDOW_PAGE) * PAGE, USER) else before[i]
      ensures Maps(p)
    {
      forall i: nat | i < ptab.Length
        ensures FrameOf(ptab[i]) == Target(p, i) && EntryOk(i, ptab[i])
      {
        if WINDOW_PAGE <= i < WINDOW_PAGE + WINDOW_PAGES {
          EntryFrame(p / PAGE + (i - WINDOW_PAGE), USER);
          assert p == p / PAGE * PAGE;
        }
      }
    }
  }
}
