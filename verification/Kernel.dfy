/** The process list, and the exec and exit system calls on it. */
module Kernel {
  import opened Wrappers
  import opened Bytes
  import opened FatDisk
  import opened Chains
  import opened FsTypes
  import opened FatFile
  import opened Descriptors
  import opened Image
  import opened Paging
  import opened ProcessModel
  import opened FileIo

  class Proc {
    var id: nat
    var mem: nat
    var sz: nat
    var p: Proc?
    var n: Proc?
    var r: Registers

    /** A record as the heap hands it out, and where it goes. */
    constructor (id: nat, mem: nat, sz: nat, p: Proc?)
      ensures this.id == id && this.mem == mem && this.sz == sz && this.p == p && n == null
    {
      this.id, this.mem, this.sz, this.p, this.n := id, mem, sz, p, null;
    }
  }

  ghost function Records(ps: seq<Proc>): (s: seq<Record>)
    reads ps
    ensures |s| == |ps|
    ensures forall i :: 0 <= i < |ps| ==> s[i] == Record(ps[i].id, ps[i].mem, ps[i].sz, ps[i].r)
  {
    seq(|ps|, i requires 0 <= i < |ps| reads ps => Record(ps[i].id, ps[i].mem, ps[i].sz, ps[i].r))
  }

  /** Every process's memory is page-aligned, as large as the window, and below the last table. */
  ghost predicate AllFit(s: seq<Record>) {
    forall i: nat :: i < |s| ==> s[i].mem % PAGE == 0 && s[i].sz == WINDOW_SIZE && s[i].mem + WINDOW_SIZE <= TOP
  }

  /** One more process still fits if its memory ends below the last table. */
  lemma ChildFits(s: seq<Record>, junk: Registers)
    requires AllFit(s) && s != [] && s[|s| - 1].mem + 2 * WINDOW_SIZE <= TOP
    ensures AllFit(s + [Child(s, junk)]) && Child(s, junk).(sz := WINDOW_SIZE) == Child(s, junk)
  {
  }

  /** The number of free slots. */
  function FreeSlots(fds: seq<FsFile?>): nat {
    if fds == [] then 0 else FreeSlots(fds[..|fds| - 1]) + if fds[|fds| - 1] == null then 1 else 0
  }

  lemma {:induction false} SlotTaken(fds: seq<FsFile?>, i: nat, f: FsFile)
    requires i < |fds| && fds[i] == null
    ensures FreeSlots(fds[i := f]) == FreeSlots(fds) - 1
    decreases |fds|
  {
    var k := |fds| - 1;
    if i < k {
      SlotTaken(fds[..k], i, f);
      assert fds[i := f][..k] == fds[..k][i := f];
    } else {
      assert fds[i := f][..k] == fds[..k];
    }
  }

  lemma {:induction false} NoneFree(fds: seq<FsFile?>)
    ensures FreeSlots(fds) == 0 <==> forall i :: 0 <= i < |fds| ==> fds[i] != null
    decreases |fds|
  {
    if fds != [] {
      NoneFree(fds[..|fds| - 1]);
    }
  }

  /** What looking for a program and loading it came to. */
  datatype Outcome = Absent | Half | Loaded

  class Processes {
    const mmu: Mmu
    var cur: Proc?
    var frame: Registers
    ghost var procs: seq<Proc>
    ghost var window: nat

    constructor (mmu: Mmu)
      requires mmu.Enabled() && mmu.Maps(WINDOW) && mmu.tlb == map[]
      ensures Listed() && procs == [] && this.mmu == mmu && window == WINDOW
    {
      this.mmu := mmu;
      cur := null;
      procs := [];
      window := WINDOW;
    }

    /** cur is the last of the records, which are doubly linked in order. */
    ghost predicate Listed()
      reads this`cur, this`procs, procs
    {
      && (cur == null <==> procs == [])
      && (procs != [] ==> cur == procs[|procs| - 1])
      && (forall i: nat :: i < |procs| ==> LinkOk(i))
      && (forall i: nat, j: nat :: i < j < |procs| ==> procs[i] != procs[j])
    }

    ghost predicate LinkOk(i: nat)
      requires i < |procs|
      reads this`procs, procs
    {
      && procs[i].p == (if i == 0 then null else procs[i - 1])
      && procs[i].n == (if i + 1 == |procs| then null else procs[i + 1])
    }

    ghost function Stack(): (s: seq<Record>)
      reads this`procs, procs
      ensures |s| == |procs|
    {
      Records(procs)
    }

    /** The current process, as a record. */
    lemma CurIsTop()
      requires Listed() && cur != null
      ensures procs != [] && cur == procs[|procs| - 1] && Stack()[|procs| - 1] == Record(cur.id, cur.mem, cur.sz, cur.r)
      ensures Fitting() ==> cur.mem % PAGE == 0 && cur.sz == WINDOW_SIZE && cur.mem + WINDOW_SIZE <= TOP
    {
    }

    /** Push a record for a new process and make it the current one. */
    method ProcessAlloc(sz: nat) returns (pr: Proc)
      requires Listed()
      modifies this`cur, this`procs, if cur == null then {} else {cur}
      ensures Listed() && pr.p == old(cur) && fresh(pr) && procs == old(procs) + [pr] && pr == cur
      ensures Stack() == old(Stack()) + [Child(old(Stack()), pr.r).(sz := sz)]
      ensures pr.mem == if old(cur) == null then MEM_BASE else old(cur.mem + cur.sz)
    {
      if cur != null {
        pr := new Proc(cur.id + 1, cur.mem + cur.sz, sz, cur);
        cur.n := pr;
      } else {
        pr := new Proc(0, MEM_BASE, sz, null);
      }
      cur := pr;
      ghost var before := procs;
      procs := procs + [pr];
      forall i: nat | i < |procs|
        ensures LinkOk(i)
      {
        assert i < |before| ==> old(LinkOk(i));
      }
    }

    ghost predicate Fitting()
      reads this`procs, procs
    {
      AllFit(Stack())
    }

    /** The tables show the window's process, and no cached translation says otherwise. */
    ghost predicate Mapped()
      reads this, mmu, mmu.pdir, mmu.ptab
    {
      mmu.Enabled() && mmu.Maps(window) && mmu.NoneStale()
    }

    ghost predicate Valid()
      reads this, procs, mmu, mmu.pdir, mmu.ptab
    {
      Listed() && Fitting() && Mapped()
    }

    ghost function St(free: nat): State
      reads this, procs
    {
      State(Stack(), frame, window, free)
    }

    /** Give the current process the window. Cached translations are not flushed here. */
    method ProcessMap()
      requires Listed() && Fitting() && cur != null && mmu.Enabled() && mmu.Maps(window)
      modifies mmu.ptab, this`window
      ensures window == cur.mem && mmu.Enabled() && mmu.Maps(window)
    {
      ghost var before := mmu.ptab[..];
      assert procs[|procs| - 1] == cur && Stack()[|procs| - 1].mem == cur.mem;
      mmu.PagingMap(WINDOW, cur.mem, WINDOW_SIZE / PAGE);
      mmu.WindowRemapped(before, window, cur.mem);
      window := cur.mem;
    }

    /** Save the caller's frame in its record and give the window to the new process. */
    method SaveAndMap()
      requires Listed() && Fitting() && 2 <= |procs| && cur != null && mmu.Enabled() && mmu.Maps(window)
      modifies cur.p, mmu.ptab, this`window
      ensures Listed() && Fitting() && mmu.Enabled() && mmu.Maps(window) && window == cur.mem
      ensures var s, i := old(Stack()), |procs| - 2; Stack() == s[i := s[i].(r := frame)]
    {
      hide Mmu.Maps, Mmu.Enabled, AllFit, Records;
      SaveFrame();
      ProcessMap();
    }

    method SaveFrame()
      requires Listed() && 2 <= |procs| && cur != null
      modifies cur.p
      ensures Listed() && (old(Fitting()) ==> Fitting()) && cur.mem == old(cur.mem)
      ensures var s, i := old(Stack()), |procs| - 2; Stack() == s[i := s[i].(r := frame)]
    {
      ghost var i := |procs| - 2;
      assert LinkOk(i + 1) && LinkOk(i);
      if cur.p != null {
        cur.p.r := frame;
      }
      forall j: nat | j < |procs|
        ensures LinkOk(j)
      {
        assert old(LinkOk(j));
      }
    }

    /** Take the current record off the list. */
    method Unlink()
      requires Listed() && 2 <= |procs|
      modifies this`cur, this`procs, procs
      ensures Listed() && procs == old(procs)[..|old(procs)| - 1]
      ensures Stack() == old(Stack())[..|procs|] && cur != null && cur == procs[|procs| - 1]
      ensures old(Fitting()) ==> Fitting()
    {
      ghost var was, k := procs, |procs| - 2;
      assert LinkOk(k + 1) && LinkOk(k);
      cur := cur.p;
      cur.n := null;
      procs := was[..k + 1];
      forall i: nat | i < |procs|
        ensures LinkOk(i)
      {
        assert old(LinkOk(i));
        assert i < k ==> was[i] != was[k];
      }
    }

    /** Drop the current process and give its parent back its frame, with the child's ebx as the result. */
    method ProcessPop()
      requires Listed() && Fitting() && 2 <= |procs| && mmu.Enabled() && mmu.Maps(window)
      modifies this, procs, mmu.ptab
      ensures Listed() && Fitting() && mmu.Enabled() && mmu.Maps(window)
      ensures procs == old(procs)[..|old(procs)| - 1] && Stack() == old(Stack())[..|procs|]
      ensures var p := old(Stack())[|procs| - 1]; frame == p.r.(eax := old(frame.ebx)) && window == p.mem
    {
      hide Mmu.Maps, Mmu.Enabled, AllFit, Records;
      Unlink();
      ghost var p := Stack()[|procs| - 1];
      assert p == Record(cur.id, cur.mem, cur.sz, cur.r);
      var ebx := frame.ebx;
      frame := cur.r;
      frame := frame.(eax := ebx);
      ProcessMap();
    }

    /**
     Load a program into a new process. If its image does not load, the new record stays on the list and the
     caller's frame is not saved.
     */
    method ProcessLoad(o: Outcome) returns (res: int)
      requires Valid() && cur != null && cur.mem + 2 * WINDOW_SIZE <= TOP
      modifies this, cur, mmu.ptab
      ensures Listed() && Fitting() && mmu.Enabled() && mmu.Maps(window) && cur != null && frame == old(frame)
      ensures res == if o == Loaded then 0 else -1
      ensures o == Absent ==> Stack() == old(Stack())
      ensures o == Half ==> Stack() == old(Stack()) + [Child(old(Stack()), cur.r)]
      ensures o != Loaded ==> window == old(window) && mmu.ptab[..] == old(mmu.ptab[..]) && mmu.NoneStale()
      ensures o == Loaded ==>
        var s, top := old(Stack()), |old(Stack())| - 1;
        && Stack() == s[top := s[top].(r := frame)] + [Child(s, cur.r)]
        && window == s[top].mem + s[top].sz
    {
      hide Mmu.Maps, Mmu.Enabled, Records, Mmu.NoneStale, AllFit, Listed, Child, Target, DirectoryOk;
      if o == Absent {
        return -1;
      }
      CurIsTop();
      ghost var s := Stack();
      var pr := ProcessAlloc(WINDOW_SIZE);
      ChildFits(s, pr.r);
      if o == Half {
        return -1;
      }
      SaveAndMap();
      return 0;
    }

    /** Execute a program. */
    method SysExec(o: Outcome, ghost free: nat)
      requires Valid() && (o != Absent ==> 0 < free) && cur != null && cur.mem + 2 * WINDOW_SIZE <= TOP
      modifies this, cur, mmu, mmu.ptab
      ensures Valid() && cur != null
      ensures o == Absent ==> St(free) == ExecMissing(old(St(free)))
      ensures o == Half ==> St(free - 1) == ExecHalf(old(St(free)), cur.r)
      ensures o == Loaded ==> St(free - 1) == ExecOk(old(St(free)), cur.r)
    {
      hide Mmu.Maps, Mmu.Enabled, Mmu.NoneStale, Records, AllFit, Listed, Child, Target, DirectoryOk, Processes.Stack;
      HasStack();
      var res := ProcessLoad(o);
      if res < 0 {
        frame := frame.(eax := MINUS_ONE);
        return;
      }
      mmu.Invalidate();
      EnterChild();
    }

    /** The child starts at the window, with the argument pointer moved to where the parent's memory really is. */
    method EnterChild()
      requires Listed() && 2 <= |procs|
      modifies this`frame
      ensures frame == old(frame).(cs := 8, eip := WINDOW,
                                   ecx := (old(frame).ecx + (Stack()[|procs| - 2].mem - WINDOW)) % 0x1_0000_0000)
    {
      CurParent();
      frame := frame.(cs := 8);
      frame := frame.(eip := WINDOW);
      frame := frame.(ecx := (frame.ecx + (cur.p.mem - WINDOW)) % 0x1_0000_0000);
    }

    /** A state's parts. */
    lemma StIs(free: nat)
      requires Listed() && cur != null
      ensures St(free).frame == frame && St(free).window == window && St(free).free == free
      ensures St(free).stack != [] && St(free).Top().mem == cur.mem && St(free).Top().sz == cur.sz
    {
    }

    lemma HasStack()
      requires Listed() && cur != null
      ensures Stack() != []
    {
    }

    lemma CurParent()
      requires Listed() && 2 <= |procs|
      ensures cur != null && cur.p != null && Stack()[|procs| - 2].mem == cur.p.mem
    {
      assert LinkOk(|procs| - 1);
    }

    /**
     What the processor sees, cached or not: the window is the window process's memory, the rest is itself. User code may
     read and write from 8 MiB on, and may do neither below.
     */
    lemma AccessIsPhys(v: nat)
      requires Mapped() && v < 0xffc0_0000
      ensures mmu.pdir.Length == 1024 && mmu.Access(v) == Some(Phys(window, v))
      ensures Walk(mmu.pdir[..], mmu.ptab[..], v) == Some(Mapping(Phys(window, v), v >= 0x80_0000, true))
    {
      WalkIsLookup(mmu.pdir[..], mmu.ptab[..], v);
    }

    /** Bytes put at the start of the memory of the window's process are seen from the window's start. */
    lemma ImageIsVisible(before: seq<u8>, ram: seq<u8>, all: seq<u8>, k: nat)
      requires Mapped() && window + |all| <= |before| && ram == Splice(before, window, all)
      requires k < |all| && k < WINDOW_SIZE
      ensures mmu.pdir.Length == 1024 && 0x80_0000 + k < 0x1_0000_0000
      ensures var a := mmu.Access(0x80_0000 + k); a.Some? && a.value < |ram| && ram[a.value] == all[k]
    {
      AccessIsPhys(0x80_0000 + k);
      PhysIs(window, 0x80_0000 + k);
    }

    /** Exit. */
    method SysExit(ghost free: nat)
      requires Valid() && 2 <= |procs|
      modifies this, procs, mmu, mmu.ptab
      ensures Valid() && procs == old(procs)[..|old(procs)| - 1]
      ensures St(free) == Exit(old(St(free)))
    {
      hide Mmu.Maps, Mmu.Enabled, Records, AllFit, Listed;
      ProcessPop();
      mmu.Invalidate();
    }
  }

  /** n is a file, and its image fits memory at base. */
  ghost predicate Loadable(t: FdTable, n: FsNode?, mem: array<u8>, base: nat, stack: seq<u8>)
    requires t.fs.Formed() && |stack| == HEADER
    reads t.fs, t.fs.dev.disk, n
  {
    n != null ==> n.mask % 2 == 1 && Openable(t.fs, n) && base + |ImageOf(Whole(t.fs, n), stack)| <= mem.Length
  }

  /** A slot is left exactly if the count says so. */
  lemma SlotIffFree(t: FdTable)
    requires t.fds.Length == FileIo.NUM_FDS
    ensures HasSlot(t) <==> FreeSlots(t.fds[..]) > 0
  {
    NoneFree(t.fds[..]);
    assert forall i :: 0 <= i < t.fds.Length ==> t.fds[..][i] == t.fds[i];
  }

  /** Open the program file once more than it is ever closed. */
  method OpenProgram(t: FdTable, n: FsNode?) returns (fd: int)
    requires t.Valid() && ConsoleOpen(t)
    requires n != null && n.mask % 2 == 1 ==> Openable(t.fs, n)
    modifies t.fds
    ensures t.Valid() && ConsoleOpen(t)
    ensures fd < 0 <==> n == null || old(FreeSlots(t.fds[..])) == 0
    ensures fd < 0 ==> t.fds[..] == old(t.fds[..])
    ensures fd >= 0 ==> FreeSlots(t.fds[..]) == old(FreeSlots(t.fds[..])) - 1
    ensures forall b: array<u8> :: old(allocated(b)) && old(t.Foreign(b)) ==> t.Foreign(b)
  {
    hide Fat.Valid, FatFs.Stored, FatFs.ReadsAt, Chained, Geometry.Valid, IsChain, FatOf, DataOf, CopyOf, FdTable.FileOk;
    assert ModeOf(READ_MODE) == Some(MODE_R);
    ghost var fds := t.fds[..];
    SlotIffFree(t);
    fd := t.KOpen(n, READ_MODE);
    if fd >= 0 {
      SlotTaken(fds, fd, t.fds[fd]);
    }
  }

  /** The image would load: its file is there, two descriptors are, and its header is signed. */
  ghost predicate WillLoad(t: FdTable, n: FsNode?, stack: seq<u8>)
    requires t.fs.Formed() && |stack| == HEADER
    reads t.fs, t.fs.dev.disk, t.fds, n
  {
    n != null && 2 <= FreeSlots(t.fds[..]) && Signed(Head(Whole(t.fs, n), stack))
  }

  /** Whether it would, of a file of at least nine bytes: by its bytes 5 to 7, and the number of free descriptors. */
  lemma WillLoadIs(t: FdTable, n: FsNode?, stack: seq<u8>)
    requires t.fs.Formed() && |stack| == HEADER
    ensures WillLoad(t, n, stack) ==> n != null && 2 <= FreeSlots(t.fds[..])
    ensures n != null && 9 <= |Whole(t.fs, n)| ==>
      (WillLoad(t, n, stack) <==> 2 <= FreeSlots(t.fds[..]) && Whole(t.fs, n)[5..8] == [0x00, 0x41, 0x42])
  {
    hide Whole, FreeSlots;
    if n != null {
      SignedIs(Whole(t.fs, n), stack);
    }
  }

  /** Open the program file, and load its image to memory at base. The first descriptor is never closed. */
  method FetchProgram(t: FdTable, n: FsNode?, mem: array<u8>, base: nat, stack: seq<u8>) returns (o: Outcome)
    requires t.Valid() && ConsoleOpen(t) && t.Foreign(mem) && |stack| == HEADER && Loadable(t, n, mem, base, stack)
    modifies t.fds, t.fs.dev, t.fs.dev.cbuf, mem
    ensures t.Valid() && ConsoleOpen(t)
    ensures o == Absent <==> n == null || old(FreeSlots(t.fds[..])) == 0
    ensures o == Loaded <==> old(WillLoad(t, n, stack))
    ensures FreeSlots(t.fds[..]) == old(FreeSlots(t.fds[..])) - if o == Absent then 0 else 1
    ensures mem[..] == if o == Loaded then Splice(old(mem[..]), base, ImageOf(old(Whole(t.fs, n)), stack)) else old(mem[..])
  {
    hide Fat.Valid, FatFs.Stored, FatFs.ReadsAt, Chained, Geometry.Valid, IsChain, FatOf, DataOf, CopyOf, FdTable.FileOk;
    hide FreeSlots, Splice, Signed, Head, ImageOf;
    var fd := OpenProgram(t, n);
    if fd < 0 {
      return Absent;
    }
    SlotIffFree(t);
    assert Whole(t.fs, n) == old(Whole(t.fs, n));
    var res := AbinLoad(t, n, mem, base, stack);
    return if res < 0 then Half else Loaded;
  }

  ghost function Objects(p: Processes): set<object> { {p, p.mmu, p.mmu.pdir, p.mmu.ptab} }

  /** The program is fetched to the memory that the new process will have, and the process list and window change as the outcome says. */
  method FetchAndExec(p: Processes, t: FdTable, n: FsNode?, ram: array<u8>, stack: seq<u8>)
    requires p.Valid() && p.cur != null && p.cur.mem + 2 * WINDOW_SIZE <= TOP
    requires t.Valid() && ConsoleOpen(t) && t.Foreign(ram) && |stack| == HEADER && Loadable(t, n, ram, p.cur.mem + p.cur.sz, stack)
    requires Objects(p) !! {t.fds, t.fs.dev, t.fs.dev.cbuf, ram}
    modifies p, p.cur, p.mmu, p.mmu.ptab, t.fds, t.fs.dev, t.fs.dev.cbuf, ram
    ensures p.Valid() && p.cur != null
    ensures var s, s', found := old(p.St(FreeSlots(t.fds[..]))), p.St(FreeSlots(t.fds[..])), n != null && old(FreeSlots(t.fds[..])) > 0;
      s' == if !found then ExecMissing(s) else if old(WillLoad(t, n, stack)) then ExecOk(s, p.cur.r) else ExecHalf(s, p.cur.r)
    ensures ram[..] == if old(WillLoad(t, n, stack)) then Splice(old(ram[..]), old(p.cur.mem + p.cur.sz), ImageOf(old(Whole(t.fs, n)), stack)) else old(ram[..])
  {
    hide *;
    ghost var free, s := FreeSlots(t.fds[..]), p.St(FreeSlots(t.fds[..]));
    var o := FetchProgram(t, n, ram, p.cur.mem + p.cur.sz, stack);
    assert p.St(free) == s;
    ghost var image := ram[..];
    p.SysExec(o, free);
    assert ram[..] == image;
  }

  /** At address v the processor sees byte b of memory. */
  ghost predicate SeesByte(p: Processes, v: nat, ram: seq<u8>, b: u8)
    reads p, p.mmu, p.mmu.pdir, p.mmu.ptab
  {
    && p.mmu.pdir.Length == 1024 && v < 0x1_0000_0000
    && var a := p.mmu.Access(v); a.Some? && a.value < |ram| && ram[a.value] == b
  }

  /** From address v on the processor sees the file all, as far as the two megabytes of the window go. */
  ghost predicate StartsAt(p: Processes, v: nat, ram: seq<u8>, all: seq<u8>)
    reads p, p.mmu, p.mmu.pdir, p.mmu.ptab
  {
    forall k: nat :: k < |all| && k < 0x20_0000 ==> SeesByte(p, v + k, ram, all[k])
  }

  /** The trap frame and the process list after a call, from the states before and after. */
  lemma ExecSeen(p: Processes, s: State, frame: Registers, mem: nat, junk: Registers, free: nat, found: bool, loads: bool)
    requires p.Valid() && p.cur != null && s.stack != [] && s.frame == frame && s.Top().mem == mem && (found ==> s.free > 0) && (loads ==> found)
    requires p.St(free) == if !found then ExecMissing(s) else if loads then ExecOk(s, junk) else ExecHalf(s, junk)
    ensures loads ==> p.frame == frame.(cs := 8, eip := 0x80_0000, ecx := (frame.ecx + mem - 0x80_0000) % 0x1_0000_0000)
    ensures !loads ==> p.frame == frame.(eax := 0xffff_ffff)
    ensures loads ==> p.window == mem + s.Top().sz
  {
    p.StIs(free);
    if found {
      ExecFrames(s, junk);
    }
  }

  lemma StartSeen(p: Processes, before: seq<u8>, ram: seq<u8>, all: seq<u8>, stack: seq<u8>)
    requires p.Valid() && p.frame.eip == 0x80_0000 && |stack| == HEADER && 9 <= |all|
    requires p.window + |ImageOf(all, stack)| <= |before| && ram == Splice(before, p.window, ImageOf(all, stack))
    ensures StartsAt(p, p.frame.eip, ram, all)
  {
    hide Splice, ImageOf, Head, Mmu.Access;
    ImageIsFile(all, stack);
    forall k: nat | k < |all| && k < 0x20_0000
      ensures SeesByte(p, 0x80_0000 + k, ram, all[k])
    {
      p.ImageIsVisible(before, ram, all, k);
    }
  }

  /**
   The exec system call, whole. With a program that loads, which of a file of at least nine bytes its bytes 5 to 7 and the
   number of free descriptors decide, the child starts at 0x800000 in ring 0, where the processor then sees the file's first
   byte, and has the caller's other registers but for the moved argument pointer. Otherwise eax is minus one and no other
   register changes.
   */
  method Exec(p: Processes, t: FdTable, n: FsNode?, ram: array<u8>, stack: seq<u8>)
    requires p.Valid() && p.cur != null && p.cur.mem + 2 * WINDOW_SIZE <= TOP
    requires t.Valid() && ConsoleOpen(t) && t.Foreign(ram) && |stack| == HEADER && Loadable(t, n, ram, p.cur.mem + p.cur.sz, stack)
    requires Objects(p) !! {t.fds, t.fs.dev, t.fs.dev.cbuf, ram}
    modifies p, p.cur, p.mmu, p.mmu.ptab, t.fds, t.fs.dev, t.fs.dev.cbuf, ram
    ensures p.Valid() && p.cur != null
    ensures var s, s', found := old(p.St(FreeSlots(t.fds[..]))), p.St(FreeSlots(t.fds[..])), n != null && old(FreeSlots(t.fds[..])) > 0;
      s' == if !found then ExecMissing(s) else if old(WillLoad(t, n, stack)) then ExecOk(s, p.cur.r) else ExecHalf(s, p.cur.r)
    ensures ram[..] == if old(WillLoad(t, n, stack)) then Splice(old(ram[..]), old(p.cur.mem + p.cur.sz), ImageOf(old(Whole(t.fs, n)), stack)) else old(ram[..])
    ensures n != null && 9 <= |old(Whole(t.fs, n))| ==>
      (old(WillLoad(t, n, stack)) <==> 2 <= old(FreeSlots(t.fds[..])) && old(Whole(t.fs, n))[5..8] == [0x00, 0x41, 0x42])
    ensures old(WillLoad(t, n, stack)) ==>
      p.frame == old(p.frame).(cs := 8, eip := 0x80_0000, ecx := (old(p.frame.ecx) + old(p.cur.mem) - 0x80_0000) % 0x1_0000_0000)
    ensures old(WillLoad(t, n, stack)) && 9 <= |old(Whole(t.fs, n))| ==> StartsAt(p, p.frame.eip, ram[..], old(Whole(t.fs, n)))
    ensures !old(WillLoad(t, n, stack)) ==> p.frame == old(p.frame).(eax := 0xffff_ffff)
  {
    hide *;
    FormedOf(p, t);
    FitsAt(t, n, ram, p.cur.mem + p.cur.sz, stack);
    ghost var free, s, frame, mem, sz := FreeSlots(t.fds[..]), p.St(FreeSlots(t.fds[..])), p.frame, p.cur.mem, p.cur.sz;
    ghost var loads, before, junk := WillLoad(t, n, stack), ram[..], p.cur.r;
    WillLoadIs(t, n, stack);
    p.StIs(free);
    ghost var all := if n == null then [] else Whole(t.fs, n);
    FetchAndExec(p, t, n, ram, stack);
    ExecSeen(p, s, frame, mem, p.cur.r, FreeSlots(t.fds[..]), n != null && free > 0, loads);
    if loads && 9 <= |all| {
      StartSeen(p, before, ram[..], all, stack);
    }
  }

  lemma FitsAt(t: FdTable, n: FsNode?, mem: array<u8>, base: nat, stack: seq<u8>)
    requires t.fs.Formed() && |stack| == HEADER && Loadable(t, n, mem, base, stack)
    ensures n != null ==> base + |ImageOf(Whole(t.fs, n), stack)| <= |mem[..]|
  {
  }

  lemma FormedOf(p: Processes, t: FdTable)
    requires p.Valid() && t.Valid()
    ensures p.Listed() && t.fs.Formed()
  {
  }
}
