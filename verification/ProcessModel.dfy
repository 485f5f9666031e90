/** Nested processes as values: what exec and exit do to the process stack, the trap frame and the window. */
module ProcessModel {
  import opened Bytes
  import opened Paging

  const MEM_BASE: nat := WINDOW + WINDOW_SIZE

  /** The trap frame. */
  datatype Registers = Registers(
    ds: u32, edi: u32, esi: u32, ebp: u32, esp: u32, ebx: u32, edx: u32, ecx: u32, eax: u32,
    intNo: u32, errCode: u32, eip: u32, cs: u32, eflags: u32, useresp: u32, ss: u32)

  /** A process record; r is what was saved when it last executed another program. */
  datatype Record = Record(id: nat, mem: nat, sz: nat, r: Registers)

  /** window is where the process window is mapped to, free the number of free descriptors. */
  datatype State = State(stack: seq<Record>, frame: Registers, window: nat, free: nat) {
    function Top(): Record
      requires stack != []
    {
      stack[|stack| - 1]
    }
  }

  /** The record for a new process on top of the stack; its saved frame is whatever the heap held. */
  function Child(stack: seq<Record>, junk: Registers): Record {
    if stack == [] then Record(0, MEM_BASE, WINDOW_SIZE, junk)
    else var p := stack[|stack| - 1]; Record(p.id + 1, p.mem + p.sz, WINDOW_SIZE, junk)
  }

  const MINUS_ONE: u32 := 0xffff_ffff

  /** A program was found and loaded: the parent's frame is saved, the child gets the window. */
  function ExecOk(s: State, junk: Registers): State
    requires s.stack != [] && s.free > 0
  {
    var p := s.Top();
    State(s.stack[|s.stack| - 1 := p.(r := s.frame)] + [Child(s.stack, junk)],
          s.frame.(cs := 8, eip := WINDOW, ecx := (s.frame.ecx + (p.mem - WINDOW)) % 0x1_0000_0000),
          p.mem + p.sz, s.free - 1)
  }

  /** No such program, or no descriptor for it. */
  function ExecMissing(s: State): State {
    s.(frame := s.frame.(eax := MINUS_ONE))
  }

  /** The program was found but could not be loaded: its record stays on the stack. */
  function ExecHalf(s: State, junk: Registers): State
    requires s.stack != [] && s.free > 0
  {
    State(s.stack + [Child(s.stack, junk)], s.frame.(eax := MINUS_ONE), s.window, s.free - 1)
  }

  /** Back to the parent, with the child's ebx as the result. */
  function Exit(s: State): State
    requires 2 <= |s.stack|
  {
    var p := s.stack[|s.stack| - 2];
    State(s.stack[..|s.stack| - 1], p.r.(eax := s.frame.ebx), p.mem, s.free)
  }

  /**
   What the caller's trap frame becomes: a program that was loaded starts in ring 0 at the window's first byte, with the
   argument pointer moved and every other register as the caller had it; if none was, eax is minus one and nothing else changes.
   */
  lemma ExecFrames(s: State, junk: Registers)
    requires s.stack != [] && s.free > 0
    ensures ExecOk(s, junk).frame == s.frame.(cs := 8, eip := 0x80_0000, ecx := (s.frame.ecx + s.Top().mem - 0x80_0000) % 0x1_0000_0000)
    ensures ExecHalf(s, junk).frame == ExecMissing(s).frame == s.frame.(eax := 0x1_0000_0000 - 1)
  {
  }

  /** What can happen: user code computes, opens and closes files, executes programs, which can fail half way, and exits. */
  datatype Event = Compute(frame: Registers) | Open | Close | Exec(junk: Registers) | HalfExec(junk: Registers) | Missing | Leave

  predicate Enabled(s: State, e: Event) {
    match e
    case Exec(_) => s.stack != [] && 2 <= s.free
    case HalfExec(_) => s.stack != [] && 0 < s.free
    case Leave => 2 <= |s.stack|
    case Open => 0 < s.free
    case _ => true
  }

  function Step(s: State, e: Event): State
    requires Enabled(s, e)
  {
    match e
    case Compute(f) => s.(frame := f)
    case Open => s.(free := s.free - 1)
    case Close => s.(free := s.free + 1)
    case Exec(junk) => ExecOk(s, junk)
    case HalfExec(junk) => ExecHalf(s, junk)
    case Missing => ExecMissing(s)
    case Leave => Exit(s)
  }

  /** s' is reached from s by the events, the stack never being lower than n on the way. */
  ghost predicate Reaches(s: State, evs: seq<Event>, s': State, n: nat)
    decreases |evs|
  {
    && n <= |s.stack|
    && if evs == [] then s' == s
       else Enabled(s, evs[0]) && Reaches(Step(s, evs[0]), evs[1..], s', n)
  }

  /** Records stacked in order, ids counting depth, memory ranges end to end above the window. */
  ghost predicate Stacked(s: State) {
    && s.stack != []
    && forall i: nat :: i < |s.stack| ==> s.stack[i].id == i && s.stack[i].mem == MEM_BASE + i * WINDOW_SIZE && s.stack[i].sz == WINDOW_SIZE
  }

  /** Stacked, and the top process has the window. */
  ghost predicate Placed(s: State) {
    Stacked(s) && s.window == s.Top().mem
  }

  /** A run that stays above depth n leaves the records below n alone. */
  lemma {:induction false} DeepRunKeepsParents(s: State, evs: seq<Event>, s': State, n: nat)
    requires Reaches(s, evs, s', n + 1)
    ensures n < |s'.stack| && s'.stack[..n] == s.stack[..n]
    decreases |evs|
  {
    if evs != [] {
      var s1 := Step(s, evs[0]);
      DeepRunKeepsParents(s1, evs[1..], s', n);
      assert n < |s1.stack|;
      assert s1.stack[..n] == s.stack[..n];
    }
  }

  /** Records stay stacked in every run, failed execs included. */
  lemma {:induction false} RunKeepsStacked(s: State, evs: seq<Event>, s': State, n: nat)
    requires Stacked(s) && Reaches(s, evs, s', n)
    ensures Stacked(s')
    decreases |evs|
  {
    if evs != [] {
      RunKeepsStacked(Step(s, evs[0]), evs[1..], s', n);
    }
  }

  /** The top process has the window throughout every run without half-failed execs. */
  lemma {:induction false} RunKeepsPlaced(s: State, evs: seq<Event>, s': State, n: nat)
    requires Placed(s) && Reaches(s, evs, s', n) && forall i :: 0 <= i < |evs| ==> !evs[i].HalfExec?
    ensures Placed(s')
    decreases |evs|
  {
    if evs != [] {
      var s1 := Step(s, evs[0]);
      assert Placed(s1) by {
        match evs[0]
        case Leave => assert s.stack[|s.stack| - 2] == s1.Top();
        case _ =>
      }
      RunKeepsPlaced(s1, evs[1..], s', n);
    }
  }

  /**
   A child, whatever it does, including executing programs of its own: when it exits, its parent has back
   the frame it had at exec, but for eax, which is the child's ebx, and the stack it had. It has back the window
   it had exactly if that was its own memory.
   */
  lemma ExitRestoresParent(s: State, junk: Registers, evs: seq<Event>, s2: State)
    requires s.stack != [] && 2 <= s.free
    requires Reaches(ExecOk(s, junk), evs, s2, |s.stack| + 1) && |s2.stack| == |s.stack| + 1
    ensures var n, s3 := |s.stack|, Exit(s2);
      && s3.frame == s.frame.(eax := s2.frame.ebx)
      && s3.stack == s.stack[n - 1 := s.Top().(r := s.frame)]
      && s3.window == s.Top().mem
      && (Placed(s) ==> s3.window == s.window)
  {
    var s1 := ExecOk(s, junk);
    DeepRunKeepsParents(s1, evs, s2, |s.stack|);
    assert s2.stack[|s.stack| - 1] == s2.stack[..|s.stack|][|s.stack| - 1] == s1.stack[|s.stack| - 1];
    assert s1.stack[..|s.stack|] == s.stack[|s.stack| - 1 := s.Top().(r := s.frame)];
  }

  /**
   After an exec that failed half way, and any run above the record it left, the next exit at that level goes back to
   the caller itself. Stack and window are what they were. The frame is one the caller saved at an earlier exec, so all
   three come back if and only if that one agrees with the frame of this exec but for eax.
   */
  lemma HalfExecRestoresOldFrame(s: State, junk: Registers, evs: seq<Event>, s2: State)
    requires Placed(s) && 0 < s.free
    requires Reaches(ExecHalf(s, junk), evs, s2, |s.stack| + 1) && |s2.stack| == |s.stack| + 1
    ensures var s3 := Exit(s2);
      && s3.stack == s.stack && s3.window == s.window && s3.frame == s.Top().r.(eax := s2.frame.ebx)
      && (s3.frame == s.frame.(eax := s2.frame.ebx) <==> s.Top().r.(eax := 0) == s.frame.(eax := 0))
  {
    DeepRunKeepsParents(ExecHalf(s, junk), evs, s2, |s.stack|);
    assert s2.stack[..|s.stack|] == s.stack;
    assert s2.stack[|s.stack| - 1] == s2.stack[..|s.stack|][|s.stack| - 1] == s.Top();
    EaxApart(s.Top().r, s.frame, s2.frame.ebx);
  }

  lemma EaxApart(a: Registers, b: Registers, v: u32)
    ensures a.(eax := v) == b.(eax := v) <==> a.(eax := 0) == b.(eax := 0)
  {
    assert a.(eax := v).(eax := 0) == a.(eax := 0) && b.(eax := v).(eax := 0) == b.(eax := 0);
    assert a.(eax := 0).(eax := v) == a.(eax := v) && b.(eax := 0).(eax := v) == b.(eax := v);
  }

  ghost predicate Leaves(evs: seq<Event>) {
    exists i :: 0 <= i < |evs| && evs[i].Leave?
  }

  lemma LeavesFirst(evs: seq<Event>)
    ensures Leaves(evs) <==> evs != [] && (evs[0].Leave? || Leaves(evs[1..]))
  {
    if evs != [] && Leaves(evs[1..]) {
      var i :| 0 <= i < |evs[1..]| && evs[1..][i].Leave?;
      assert evs[i + 1].Leave?;
    }
    if i :| 0 < i < |evs| && evs[i].Leave? {
      assert evs[1..][i - 1].Leave?;
    }
  }

  /** What one step does to the record at n, while the stack stays above n, and to the window. */
  lemma StepAbove(s: State, e: Event, n: nat)
    requires n < |s.stack| && Enabled(s, e) && n < |Step(s, e).stack|
    ensures Step(s, e).stack[n].mem == s.stack[n].mem
    ensures |Step(s, e).stack| == n + 1 && e.Leave? ==> Step(s, e).window == s.stack[n].mem
    ensures !e.Leave? ==> |s.stack| <= |Step(s, e).stack|
    ensures |Step(s, e).stack| == |s.stack| ==> Step(s, e).window == s.window
  {
  }

  /** Who has the window when a run above depth n is back at depth n + 1: if anything was left on the way, the record there. */
  lemma {:induction false} WindowAfterRun(s: State, evs: seq<Event>, s': State, n: nat)
    requires n < |s.stack| && Reaches(s, evs, s', n + 1) && |s'.stack| == n + 1
    ensures s'.stack[n].mem == s.stack[n].mem
    ensures Leaves(evs) ==> s'.window == s.stack[n].mem
    ensures !Leaves(evs) ==> |s.stack| == n + 1 && s'.window == s.window
    decreases |evs|
  {
    if evs != [] {
      var s1 := Step(s, evs[0]);
      hide Step, Leaves;
      StepAbove(s, evs[0], n);
      LeavesFirst(evs);
      WindowAfterRun(s1, evs[1..], s', n);
    }
  }

  /**
   The record a half-failed exec leaves takes the window from its caller. Any later exec from there, at g, gives frame and
   stack back when its child exits, but the window goes to the memory of the record that was left, one window size up; that
   is the window the exec started with if and only if something had exited to that level before.
   */
  lemma LeftRecordTakesWindow(s: State, junk: Registers, evs0: seq<Event>, g: State, junk': Registers, evs: seq<Event>, s2: State)
    requires Placed(s) && 0 < s.free && 2 <= g.free
    requires Reaches(ExecHalf(s, junk), evs0, g, |s.stack| + 1) && |g.stack| == |s.stack| + 1
    requires Reaches(ExecOk(g, junk'), evs, s2, |g.stack| + 1) && |s2.stack| == |g.stack| + 1
    ensures var s3 := Exit(s2);
      && s3.frame == g.frame.(eax := s2.frame.ebx)
      && s3.stack == g.stack[|s.stack| := g.Top().(r := g.frame)]
      && s3.window == s.window + WINDOW_SIZE
      && (s3.window == g.window <==> Leaves(evs0))
  {
    WindowAfterRun(ExecHalf(s, junk), evs0, g, |s.stack|);
    ExitRestoresParent(g, junk', evs, s2);
  }

  function Count(evs: seq<Event>, which: Event -> bool): nat {
    if evs == [] then 0 else (if which(evs[0]) then 1 else 0) + Count(evs[1..], which)
  }

  /** Every exec that finds its program uses up a descriptor for good: free ones and those spent add up. */
  lemma {:induction false} ExecsSpendDescriptors(s: State, evs: seq<Event>, s': State, n: nat)
    requires Reaches(s, evs, s', n)
    ensures s'.free + Count(evs, (e: Event) => e.Exec? || e.HalfExec?) + Count(evs, (e: Event) => e.Open?) ==
            s.free + Count(evs, (e: Event) => e.Close?)
    decreases |evs|
  {
    if evs != [] {
      ExecsSpendDescriptors(Step(s, evs[0]), evs[1..], s', n);
    }
  }

  /** Unless files are closed by hand, fewer programs can be executed than descriptors were free. */
  lemma {:induction false} ExecsAreLimited(s: State, evs: seq<Event>, s': State, n: nat)
    requires Reaches(s, evs, s', n) && forall i :: 0 <= i < |evs| ==> !evs[i].Close?
    ensures Count(evs, (e: Event) => e.Exec?) == 0 || Count(evs, (e: Event) => e.Exec?) < s.free
    ensures Count(evs, (e: Event) => e.Exec? || e.HalfExec?) <= s.free
    decreases |evs|
  {
    if evs != [] {
      ExecsAreLimited(Step(s, evs[0]), evs[1..], s', n);
    }
  }

  // ---- Addresses

  /** The physical address of virtual address v while the process at mem has the window. */
  function Phys(mem: nat, v: nat): nat {
    Target(mem, v / PAGE) + v % PAGE
  }

  /** The window shows the process's memory byte for byte; everything else is where it is. */
  lemma PhysIs(mem: nat, v: nat)
    ensures Phys(mem, v) == if 0x80_0000 <= v < 0xa0_0000 then mem + (v - 0x80_0000) else v
  {
  }

  /** Process memories do not overlap each other or the window. */
  lemma MemoriesApart(s: State, i: nat, j: nat)
    requires Stacked(s) && i < j < |s.stack|
    ensures s.stack[i].mem == 0xa0_0000 + i * 0x20_0000 && s.stack[i].sz == 0x20_0000
    ensures s.stack[i].mem + s.stack[i].sz <= s.stack[j].mem
  {
    MulMono(i + 1, j, WINDOW_SIZE);
  }

  lemma Unwrapped(a: nat)
    requires a < 0x1_0000_0000
    ensures a % 0x1_0000_0000 == a
  {
  }

  lemma TopAbove(s: State)
    requires Stacked(s)
    ensures s.Top().mem >= 0xa0_0000
  {
    assert s.stack[|s.stack| - 1].mem == MEM_BASE + (|s.stack| - 1) * WINDOW_SIZE;
    MulMono(0, |s.stack| - 1, WINDOW_SIZE);
  }

  /**
   An argument pointer into the parent's window, as the child gets it, means one and the same byte of memory to every
   process that has the window later. It is the byte that the parent meant if and only if the parent, being on top, had
   the window; after a half-failed exec it is as far off as the window is from the record that was left.
   */
  lemma ArgumentStays(s: State, junk: Registers, later: nat)
    requires Stacked(s) && 2 <= s.free && s.Top().mem + WINDOW_SIZE <= 0x1_0000_0000
    requires WINDOW <= s.frame.ecx < WINDOW + WINDOW_SIZE
    ensures var v, arg := s.frame.ecx, ExecOk(s, junk).frame.ecx;
      && Phys(later, arg) == arg == Phys(s.window, v) + s.Top().mem - s.window
      && (arg == Phys(s.window, v) <==> Placed(s))
  {
    hide Phys;
    var v, arg := s.frame.ecx, ExecOk(s, junk).frame.ecx;
    TopAbove(s);
    ExecFrames(s, junk);
    Unwrapped(v + s.Top().mem - WINDOW);
    PhysIs(s.window, v);
    PhysIs(later, arg);
  }

  /** What a program started behind a half-failed exec gets: a pointer one window size too high. */
  lemma ArgumentAfterHalf(s: State, junk: Registers, evs: seq<Event>, g: State, junk': Registers)
    requires Placed(s) && 0 < s.free && 2 <= g.free && Reaches(ExecHalf(s, junk), evs, g, |s.stack| + 1)
    requires |g.stack| == |s.stack| + 1 && g.Top().mem + WINDOW_SIZE <= 0x1_0000_0000
    requires WINDOW <= g.frame.ecx < WINDOW + WINDOW_SIZE
    ensures ExecOk(g, junk').frame.ecx == Phys(g.window, g.frame.ecx) + if Leaves(evs) then 0 else WINDOW_SIZE
  {
    RunKeepsStacked(ExecHalf(s, junk), evs, g, |s.stack| + 1);
    WindowAfterRun(ExecHalf(s, junk), evs, g, |s.stack|);
    ArgumentStays(g, junk', 0);
  }
}
