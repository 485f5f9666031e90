/**
 The kernel heap. Blocks lie in flat byte memory, each behind a 16-byte header (size, available, previous,
 next) that is stored in the same memory the heap hands out. The abstract heap is the sequence of blocks.
 */
module Heap {
  import opened Bytes

  const BASE: nat := 0x10_0000
  const HDR: nat := 16

  /** The four words of a header, in the order they are stored. */
  datatype Header = Header(sz: nat, av: nat, p: nat, n: nat)

  datatype Block = Block(addr: nat, size: nat, av: bool)

  function HdrAt(m: seq<u8>, a: nat): Header
    requires a + HDR <= |m|
  {
    Header(Word(m, a), Word(m, a + 4), Word(m, a + 8), Word(m, a + 12))
  }

  /** Storing one field changes that field of that header; storing elsewhere changes no header. */
  lemma HdrOfStore(m: seq<u8>, a: nat, v: u32, b: nat)
    requires a + 4 <= |m| && b + HDR <= |m|
    requires a + 4 <= b || b + HDR <= a || a == b || a == b + 4 || a == b + 8 || a == b + 12
    ensures HdrAt(Splice(m, a, Le32(v)), b) ==
            if a == b then HdrAt(m, b).(sz := v)
            else if a == b + 4 then HdrAt(m, b).(av := v)
            else if a == b + 8 then HdrAt(m, b).(p := v)
            else if a == b + 12 then HdrAt(m, b).(n := v)
            else HdrAt(m, b)
  {
    WordOfSplice(m, a, v, b);
    WordOfSplice(m, a, v, b + 4);
    WordOfSplice(m, a, v, b + 8);
    WordOfSplice(m, a, v, b + 12);
  }

  lemma HeaderStored(m: seq<u8>, a: nat, h: Header, m': seq<u8>)
    requires a + HDR <= |m| && h.sz < 0x8000_0000 && h.av < 2 && h.p < 0x8000_0000 && h.n < 0x8000_0000
    requires m' == Splice(Splice(Splice(Splice(m, a, Le32(h.sz)), a + 4, Le32(h.av)), a + 8, Le32(h.p)), a + 12, Le32(h.n))
    ensures HdrAt(m', a) == h
    ensures forall b: nat :: b + HDR <= |m| && (b + HDR <= a || a + HDR <= b) ==> HdrAt(m', b) == HdrAt(m, b)
  {
    hide Word, Le32, Splice, HdrAt;
    var m1 := Splice(m, a, Le32(h.sz));
    var m2 := Splice(m1, a + 4, Le32(h.av));
    var m3 := Splice(m2, a + 8, Le32(h.p));
    forall b: nat | b + HDR <= |m| && (b + HDR <= a || a + HDR <= b || a == b)
      ensures HdrAt(m', b) == if a == b then h else HdrAt(m, b)
    {
      HdrOfStore(m, a, h.sz, b);
      HdrOfStore(m1, a + 4, h.av, b);
      HdrOfStore(m2, a + 8, h.p, b);
      HdrOfStore(m3, a + 12, h.n, b);
    }
  }

  // ---- The abstract heap

  /**
   Headers in increasing order, each payload in front of the next header; the head is never available; the
   last block is, and is empty.
   */
  ghost predicate Ordered(bs: seq<Block>) {
    && 2 <= |bs| && bs[0] == Block(BASE, 0, false)
    && (forall i: nat :: i + 1 < |bs| ==> InFront(bs, i))
    && bs[|bs| - 1].av && bs[|bs| - 1].size == 0
  }

  /** Block i ends before block i + 1 begins. */
  ghost predicate InFront(bs: seq<Block>, i: nat)
    requires i + 1 < |bs|
  {
    bs[i].addr + HDR + bs[i].size <= bs[i + 1].addr
  }

  /** Header order in closed form. */
  lemma {:induction false} OrderedSpread(bs: seq<Block>, i: nat, j: nat)
    requires Ordered(bs) && i < j < |bs|
    ensures BASE <= bs[i].addr && bs[i].addr + HDR + bs[i].size <= bs[j].addr
    decreases j
  {
    assert InFront(bs, j - 1);
    if i < j - 1 {
      OrderedSpread(bs, i, j - 1);
    } else if i > 0 {
      OrderedSpread(bs, 0, i);
    }
  }

  ghost predicate InPayload(b: Block, a: nat) {
    b.addr + HDR <= a < b.addr + HDR + b.size
  }

  ghost predicate InHeader(b: Block, a: nat) {
    b.addr <= a < b.addr + HDR
  }

  /** No byte of a payload is a byte of another payload, or of any header. */
  lemma PayloadsApart(bs: seq<Block>, i: nat, j: nat, a: nat)
    requires Ordered(bs) && i < |bs| && j < |bs| && InPayload(bs[i], a)
    ensures !InHeader(bs[j], a)
    ensures i != j ==> !InPayload(bs[j], a)
  {
    if i < j { OrderedSpread(bs, i, j); } else if j < i { OrderedSpread(bs, j, i); }
  }

  predicate Fits(bs: seq<Block>, i: nat, sz: nat)
    requires i < |bs|
  {
    bs[i].av && (bs[i].size >= sz || i == |bs| - 1)
  }

  /** The first block from index i on that fits. */
  function FirstFit(bs: seq<Block>, sz: nat, i: nat): (r: nat)
    requires i < |bs| && bs[|bs| - 1].av
    ensures i <= r < |bs| && Fits(bs, r, sz)
    ensures forall j :: i <= j < r ==> !Fits(bs, j, sz)
    decreases |bs| - i
  {
    if Fits(bs, i, sz) then i else FirstFit(bs, sz, i + 1)
  }

  function Alloc(bs: seq<Block>, sz: nat): seq<Block>
    requires 0 < |bs| && bs[|bs| - 1].av
  {
    var i := FirstFit(bs, sz, 0);
    var bs' := bs[i := Block(bs[i].addr, sz, false)];
    if i == |bs| - 1 then bs' + [Block(bs[i].addr + HDR + sz, 0, true)] else bs'
  }

  function Release(bs: seq<Block>, i: nat): seq<Block>
    requires i < |bs|
  {
    bs[i := bs[i].(av := true)]
  }

  lemma AllocKeepsOrder(bs: seq<Block>, sz: nat)
    requires Ordered(bs)
    ensures Ordered(Alloc(bs, sz)) && FirstFit(bs, sz, 0) > 0
  {
    var i := FirstFit(bs, sz, 0);
    var bs' := Alloc(bs, sz);
    forall j: nat | j + 1 < |bs'|
      ensures InFront(bs', j)
    {
      if j + 1 < |bs| { assert InFront(bs, j); }
    }
  }

  lemma ReleaseKeepsOrder(bs: seq<Block>, i: nat)
    requires Ordered(bs) && 0 < i < |bs|
    ensures Ordered(Release(bs, i))
  {
    var bs' := Release(bs, i);
    forall j: nat | j + 1 < |bs'|
      ensures InFront(bs', j)
    {
      assert InFront(bs, j);
    }
  }

  // ---- Runs

  /** A client's request: memory, or giving back the block at a pointer. */
  datatype Op = Malloc(sz: nat) | Free(ptr: nat)

  /** The index of the block whose payload starts at ptr, if there is one that is handed out. */
  ghost predicate LiveAt(bs: seq<Block>, ptr: nat, i: nat) {
    0 < i < |bs| && !bs[i].av && bs[i].addr + HDR == ptr
  }

  ghost predicate Legal(bs: seq<Block>, op: Op) {
    op.Free? ==> exists i :: LiveAt(bs, op.ptr, i)
  }

  ghost function Step(bs: seq<Block>, op: Op): seq<Block>
    requires Ordered(bs) && Legal(bs, op)
  {
    match op
    case Malloc(sz) => Alloc(bs, sz)
    case Free(ptr) => var i :| LiveAt(bs, ptr, i); Release(bs, i)
  }

  /** bs' comes from bs by the requests ops, and grown is what the growing ones among them added up to. */
  ghost predicate Runs(bs: seq<Block>, ops: seq<Op>, bs': seq<Block>, grown: nat)
    requires Ordered(bs)
    decreases |ops|
  {
    if ops == [] then bs' == bs && grown == 0
    else
      var op := ops[0];
      && Legal(bs, op)
      && Ordered(Step(bs, op))
      && exists rest: nat ::
           Runs(Step(bs, op), ops[1..], bs', rest) && grown == rest + Growth(bs, op)
  }

  /** What a request adds to the heap: a header and a payload if only the last block fits. */
  function Growth(bs: seq<Block>, op: Op): nat
    requires 0 < |bs| && bs[|bs| - 1].av
  {
    match op
    case Malloc(sz) => if FirstFit(bs, sz, 0) == |bs| - 1 then HDR + sz else 0
    case Free(_) => 0
  }

  const INITIAL: seq<Block> := [Block(BASE, 0, false), Block(BASE + HDR, 0, true)]

  lemma StepKeeps(bs: seq<Block>, op: Op)
    requires Ordered(bs) && Legal(bs, op)
    ensures var bs' := Step(bs, op);
      && Ordered(bs') && |bs| <= |bs'|
      && (forall i :: 0 <= i < |bs| ==> bs'[i].addr == bs[i].addr)
      && (forall i :: 0 <= i < |bs| - 1 ==> bs'[i].size <= bs[i].size)
      && bs'[|bs'| - 1].addr == bs[|bs| - 1].addr + Growth(bs, op)
  {
    match op
    case Malloc(sz) => AllocKeepsOrder(bs, sz);
    case Free(ptr) =>
      forall i | LiveAt(bs, ptr, i)
        ensures Ordered(Release(bs, i))
      {
        ReleaseKeepsOrder(bs, i);
      }
  }

  /**
   Over any run: headers stay in order, no block ever moves, no block but the last ever gets larger again,
   and the last header lies exactly as far up as the growing requests add up to.
   */
  lemma {:induction false} RunKeeps(bs: seq<Block>, ops: seq<Op>, bs': seq<Block>, grown: nat)
    requires Ordered(bs) && Runs(bs, ops, bs', grown)
    ensures Ordered(bs') && |bs| <= |bs'|
    ensures forall i :: 0 <= i < |bs| ==> bs'[i].addr == bs[i].addr
    ensures forall i :: 0 <= i < |bs| - 1 ==> bs'[i].size <= bs[i].size
    ensures bs'[|bs'| - 1].addr == bs[|bs| - 1].addr + grown
    decreases |ops|
  {
    if ops != [] {
      var mid := Step(bs, ops[0]);
      var rest: nat :| Runs(mid, ops[1..], bs', rest) && grown == rest + Growth(bs, ops[0]);
      StepKeeps(bs, ops[0]);
      RunKeeps(mid, ops[1..], bs', rest);
    }
  }

  /** From the initial heap, any run keeps every payload off every other payload and every header. */
  lemma RunIsSafe(ops: seq<Op>, bs: seq<Block>, grown: nat, i: nat, j: nat, a: nat)
    requires Runs(INITIAL, ops, bs, grown) && i < |bs| && j < |bs| && InPayload(bs[i], a)
    ensures !InHeader(bs[j], a) && (i != j ==> !InPayload(bs[j], a))
    ensures bs[|bs| - 1].addr == 0x10_0010 + grown
  {
    RunKeeps(INITIAL, ops, bs, grown);
    PayloadsApart(bs, i, j, a);
  }

  /** The block chosen is the one at the lowest address that fits; the heap grows only if none but the last does. */
  lemma FirstFitIsLowest(bs: seq<Block>, sz: nat)
    requires Ordered(bs)
    ensures var i := FirstFit(bs, sz, 0);
      && (forall j :: 0 <= j < |bs| && Fits(bs, j, sz) ==> bs[i].addr <= bs[j].addr)
      && (Growth(bs, Malloc(sz)) > 0 <==> forall j :: 0 <= j < |bs| - 1 ==> !(bs[j].av && bs[j].size >= sz))
  {
    var i := FirstFit(bs, sz, 0);
    forall j | 0 <= j < |bs| && Fits(bs, j, sz)
      ensures bs[i].addr <= bs[j].addr
    {
      if i < j { OrderedSpread(bs, i, j); }
    }
    assert forall j :: 0 <= j < |bs| - 1 ==> (bs[j].av && bs[j].size >= sz <==> Fits(bs, j, sz));
  }

  /** The request is met by block i. */
  predicate Serves(bs: seq<Block>, op: Op, i: nat)
    requires 0 < |bs| && bs[|bs| - 1].av
  {
    op.Malloc? && FirstFit(bs, op.sz, 0) == i
  }

  /** Every request of the run that block i met asked for exactly size bytes. */
  ghost predicate AskedOnly(bs: seq<Block>, ops: seq<Op>, i: nat, size: nat)
    requires Ordered(bs)
    decreases |ops|
  {
    ops != [] ==>
      && Legal(bs, ops[0]) && Ordered(Step(bs, ops[0]))
      && (Serves(bs, ops[0], i) ==> ops[0].sz == size)
      && AskedOnly(Step(bs, ops[0]), ops[1..], i, size)
  }

  lemma ServedSize(bs: seq<Block>, op: Op, i: nat)
    requires Ordered(bs) && Legal(bs, op) && i < |bs| - 1
    ensures i < |Step(bs, op)| && Step(bs, op)[i].size == if Serves(bs, op, i) then op.sz else bs[i].size
  {
  }

  /**
   What one request changes: memory is taken from a block that nobody has, which then has exactly the size asked for and is
   taken; giving back makes one taken block available; every other block stays as it was.
   */
  lemma StepChanges(bs: seq<Block>, op: Op)
    requires Ordered(bs) && Legal(bs, op)
    ensures |bs| <= |Step(bs, op)|
    ensures op.Malloc? ==>
      var k := FirstFit(bs, op.sz, 0);
      && bs[k].av && Step(bs, op)[k] == Block(bs[k].addr, op.sz, false)
      && forall i :: 0 <= i < |bs| && i != k ==> Step(bs, op)[i] == bs[i]
    ensures op.Free? ==>
      forall i :: 0 <= i < |bs| ==> Step(bs, op)[i] == if i > 0 && bs[i].addr + 16 == op.ptr then Block(bs[i].addr, bs[i].size, true) else bs[i]
  {
    if op.Free? {
      var k: nat :| LiveAt(bs, op.ptr, k);
      forall i: nat | i < |bs| && i != k
        ensures bs[i].addr != bs[k].addr && !LiveAt(bs, op.ptr, i)
      {
        if i < k { OrderedSpread(bs, i, k); } else { OrderedSpread(bs, k, i); }
      }
    }
  }

  /** Over any run a block that is not the last keeps its size if and only if every request it met asked for exactly that size. */
  lemma {:induction false} SizeKeptExactly(bs: seq<Block>, ops: seq<Op>, bs': seq<Block>, grown: nat, i: nat)
    requires Ordered(bs) && Runs(bs, ops, bs', grown) && i < |bs| - 1
    ensures i < |bs'| && (bs'[i].size == bs[i].size <==> AskedOnly(bs, ops, i, bs[i].size))
    decreases |ops|
  {
    if ops != [] {
      var mid := Step(bs, ops[0]);
      var rest: nat :| Runs(mid, ops[1..], bs', rest) && grown == rest + Growth(bs, ops[0]);
      StepKeeps(bs, ops[0]);
      ServedSize(bs, ops[0], i);
      SizeKeptExactly(mid, ops[1..], bs', rest, i);
      RunKeeps(mid, ops[1..], bs', rest);
    }
  }

  /** Head, one block with room for 100 bytes, and the last block. */
  function OneBlock(size: nat, av: bool): seq<Block> {
    [Block(BASE, 0, false), Block(BASE + HDR, size, av), Block(BASE + HDR + 116, 0, true)]
  }

  lemma OneBlockSteps(size: nat, av: bool, sz: nat)
    requires size <= 100
    ensures var bs := OneBlock(size, av);
      && Ordered(bs)
      && (av && size >= sz ==> Step(bs, Malloc(sz)) == OneBlock(sz, false) && Growth(bs, Malloc(sz)) == 0)
      && (!av ==> Legal(bs, Free(BASE + 32)) && Step(bs, Free(BASE + 32)) == OneBlock(size, true))
      && (size < sz ==> Growth(bs, Malloc(sz)) == HDR + sz)
  {
    var bs := OneBlock(size, av);
    assert !av ==> LiveAt(bs, BASE + 32, 1);
    assert FirstFit(bs, sz, 0) == FirstFit(bs, sz, 1);
  }

  /**
   A block reused for less than it had never gets the rest back: after one request for 100 bytes, one for 10
   in the same place and one for 100 again, each given back before the next, the heap has grown by 232.
   */
  lemma ReuseLosesRoom(ops: seq<Op>) returns (bs: seq<Block>)
    requires ops == [Malloc(100), Free(BASE + 32), Malloc(10), Free(BASE + 32), Malloc(100)]
    ensures Runs(INITIAL, ops, bs, 232)
  {
    assert Step(INITIAL, ops[0]) == OneBlock(100, false);
    OneBlockSteps(100, false, 10);
    OneBlockSteps(100, true, 10);
    OneBlockSteps(10, false, 100);
    OneBlockSteps(10, true, 100);
    bs := RunFour(ops, OneBlock(100, false), OneBlock(100, true), OneBlock(10, false), OneBlock(10, true));
  }

  lemma RunFour(ops: seq<Op>, b1: seq<Block>, b2: seq<Block>, b3: seq<Block>, b4: seq<Block>) returns (bs: seq<Block>)
    requires |ops| == 5 && Legal(INITIAL, ops[0]) && Step(INITIAL, ops[0]) == b1 && Growth(INITIAL, ops[0]) == 116
    requires Ordered(b1) && Ordered(b2) && Ordered(b3) && Ordered(b4)
    requires Legal(b1, ops[1]) && Step(b1, ops[1]) == b2 && Growth(b1, ops[1]) == 0
    requires Legal(b2, ops[2]) && Step(b2, ops[2]) == b3 && Growth(b2, ops[2]) == 0
    requires Legal(b3, ops[3]) && Step(b3, ops[3]) == b4 && Growth(b3, ops[3]) == 0
    requires Legal(b4, ops[4]) && Growth(b4, ops[4]) == 116
    ensures Runs(INITIAL, ops, bs, 232)
  {
    hide Step, Growth, Ordered, Legal;
    StepKeeps(b4, ops[4]);
    bs := Step(b4, ops[4]);
    assert Runs(bs, [], bs, 0) && ops[4..] == [ops[4]] && ops[4..][1..] == [];
    assert Runs(b4, ops[4..], bs, 116);
    assert ops[3..][1..] == ops[4..] && Runs(b3, ops[3..], bs, 116);
    assert ops[2..][1..] == ops[3..] && Runs(b2, ops[2..], bs, 116);
    assert ops[1..][1..] == ops[2..] && Runs(b1, ops[1..], bs, 116);
  }

  // ---- The heap in memory

  class KernelHeap {
    const mem: array<u8>
    ghost var blocks: seq<Block>

    /** What the header of block i must say. */
    static ghost function HdrOf(bs: seq<Block>, i: nat): Header
      requires i < |bs|
    {
      Header(bs[i].size, if bs[i].av then 1 else 0, if i == 0 then 0 else bs[i - 1].addr, if i + 1 == |bs| then 0 else bs[i + 1].addr)
    }

    /** Block i lies in memory, and its header says what it must. */
    static ghost predicate HeaderOk(m: seq<u8>, bs: seq<Block>, i: nat)
      requires i < |bs|
    {
      bs[i].addr + HDR + bs[i].size <= |m| && HdrAt(m, bs[i].addr) == HdrOf(bs, i)
    }

    /** The headers in memory are the doubly linked list of the blocks. */
    static ghost predicate Linked(m: seq<u8>, bs: seq<Block>) {
      && Ordered(bs) && |m| < 0x8000_0000
      && (forall i: nat :: i < |bs| ==> bs[i].addr + HDR + bs[i].size <= |m|)
      && (forall i: nat :: i < |bs| ==> HeaderOk(m, bs, i))
    }

    ghost predicate Valid()
      reads this, mem
    {
      Linked(mem[..], blocks)
    }

    /** The heap of an otherwise arbitrary memory. */
    constructor (mem: array<u8>)
      requires BASE + 2 * HDR <= mem.Length < 0x8000_0000
      modifies mem
      ensures Valid() && this.mem == mem && blocks == INITIAL
    {
      this.mem := mem;
      blocks := INITIAL;
      new;
      PutHeader(BASE, Header(0, 0, 0, BASE + HDR));
      PutHeader(BASE + HDR, Header(0, 1, BASE, 0));
    }

    /** Write a header field by field. */
    method PutHeader(a: nat, h: Header)
      requires a + HDR <= mem.Length && h.sz < 0x8000_0000 && h.av < 2 && h.p < 0x8000_0000 && h.n < 0x8000_0000
      modifies mem
      ensures HdrAt(mem[..], a) == h
      ensures forall b: nat :: b + HDR <= mem.Length && (b + HDR <= a || a + HDR <= b) ==> HdrAt(mem[..], b) == old(HdrAt(mem[..], b))
      ensures forall k :: 0 <= k < mem.Length && !(a <= k < a + HDR) ==> mem[k] == old(mem[k])
    {
      hide Word, Le32, Splice, HdrAt;
      ghost var m := mem[..];
      StoreWord(mem, a, h.sz);
      StoreWord(mem, a + 4, h.av);
      StoreWord(mem, a + 8, h.p);
      StoreWord(mem, a + 12, h.n);
      HeaderStored(m, a, h, mem[..]);
    }

    /** Storing field f of block k's header leaves every other header and every payload alone. */
    static lemma FieldStored(m: seq<u8>, bs: seq<Block>, k: nat, f: nat, v: u32)
      requires Ordered(bs) && k < |bs| && f < 4
      requires forall i: nat :: i < |bs| ==> bs[i].addr + HDR + bs[i].size <= |m|
      ensures var m', h := Splice(m, bs[k].addr + 4 * f, Le32(v)), HdrAt(m, bs[k].addr);
        && (forall i: nat :: i < |bs| && i != k ==> HdrAt(m', bs[i].addr) == HdrAt(m, bs[i].addr))
        && HdrAt(m', bs[k].addr) ==
             (if f == 0 then h.(sz := v) else if f == 1 then h.(av := v) else if f == 2 then h.(p := v) else h.(n := v))
        && forall i: nat, a: nat :: i < |bs| && InPayload(bs[i], a) ==> m'[a] == m[a]
    {
      hide Word, Le32, HdrAt;
      var m' := Splice(m, bs[k].addr + 4 * f, Le32(v));
      forall i: nat | i < |bs|
        ensures HdrAt(m', bs[i].addr) == if i != k then HdrAt(m, bs[i].addr)
                                         else var h := HdrAt(m, bs[k].addr);
                                           if f == 0 then h.(sz := v) else if f == 1 then h.(av := v) else if f == 2 then h.(p := v) else h.(n := v)
      {
        if i < k { OrderedSpread(bs, i, k); } else if k < i { OrderedSpread(bs, k, i); }
        HdrOfStore(m, bs[k].addr + 4 * f, v, bs[i].addr);
      }
      forall i: nat, a: nat | i < |bs| && InPayload(bs[i], a)
        ensures m'[a] == m[a]
      {
        PayloadsApart(bs, i, k, a);
      }
    }

    /** Walk the list from block i for one that is available and fits; the last one always does. */
    method HeapFind(b: nat, sz: nat, ghost i: nat) returns (p: nat)
      requires Valid() && i < |blocks| && b == blocks[i].addr && sz < 0x8000_0000
      ensures p == blocks[FirstFit(blocks, sz, i)].addr && p != 0
    {
      p := b;
      ghost var j := i;
      while true
        invariant i <= j < |blocks| && p == blocks[j].addr
        invariant FirstFit(blocks, sz, j) == FirstFit(blocks, sz, i)
        decreases |blocks| - j
      {
        HeaderIs(mem[..], blocks, j);
        var h := HdrAt(mem[..], p);
        if (h.sz >= sz || h.n == 0) && h.av != 0 {
          return;
        }
        p := h.n;
        j := j + 1;
      }
    }

    /** Hand out sz bytes. There is no limit check: the memory is taken to be large enough. */
    method KMalloc(sz: nat) returns (ptr: nat)
      requires Valid() && sz < 0x8000_0000
      requires FirstFit(blocks, sz, 0) == |blocks| - 1 ==> blocks[|blocks| - 1].addr + 2 * HDR + sz <= mem.Length
      modifies this, mem
      ensures Valid() && blocks == Alloc(old(blocks), sz)
      ensures ptr == old(blocks)[FirstFit(old(blocks), sz, 0)].addr + HDR
      ensures forall i: nat, a: nat :: i < |old(blocks)| && InPayload(old(blocks)[i], a) && a < mem.Length ==>
        mem[a] == old(mem[a])
    {
      hide Ordered, HdrAt, Word, Le32, Linked, FirstFit, Splice, InPayload;
      ghost var bs, m := blocks, mem[..];
      LinkedFacts(m, bs);
      ghost var k := FirstFit(bs, sz, 0);
      HeaderIs(m, bs, k);
      var b := HeapFind(BASE, sz, 0);
      FieldStored(mem[..], bs, k, 0, sz);
      StoreWord(mem, b, sz);
      FieldStored(mem[..], bs, k, 1, 0);
      StoreWord(mem, b + 4, 0);
      var n := HdrAt(mem[..], b).n;
      if n == 0 {
        FieldStored(mem[..], bs, k, 3, b + HDR + sz);
        StoreWord(mem, b + 12, b + HDR + sz);
        TailIsPast(bs, b + HDR + sz);
        PutHeader(b + HDR + sz, Header(0, 1, b, 0));
      }
      AllocLinked(m, bs, sz, mem[..]);
      blocks := Alloc(bs, sz);
      ptr := b + HDR;
    }

    /** Give back the block at ptr. */
    method KFree(ptr: nat, ghost i: nat)
      requires Valid() && 0 < i < |blocks| && ptr == blocks[i].addr + HDR
      modifies this, mem
      ensures Valid() && blocks == Release(old(blocks), i)
      ensures forall j: nat, a: nat :: j < |old(blocks)| && InPayload(old(blocks)[j], a) && a < mem.Length ==>
        mem[a] == old(mem[a])
    {
      hide Ordered, HdrAt, Word, Le32, Linked, Splice, InPayload;
      ghost var bs, m := blocks, mem[..];
      var b := ptr - HDR;
      LinkedFacts(m, bs);
      HeaderIs(m, bs, i);
      FieldStored(m, bs, i, 1, 1);
      StoreWord(mem, b + 4, 1);
      ReleaseLinked(m, bs, i, mem[..]);
      blocks := Release(bs, i);
    }

    /** A client writes a byte of memory it was handed: no header changes, and no other payload. */
    method ClientWrite(a: nat, v: u8, ghost i: nat)
      requires Valid() && i < |blocks| && !blocks[i].av && InPayload(blocks[i], a)
      requires a < mem.Length
      modifies mem
      ensures Valid() && mem[..] == old(mem[..])[a := v]
      ensures forall j: nat, c: nat :: j < |blocks| && j != i && InPayload(blocks[j], c) && c < mem.Length ==> mem[c] == old(mem[c])
    {
      ghost var m := mem[..];
      PayloadWriteLinked(m, blocks, i, a, v);
      forall j: nat | j < |blocks| && j != i
        ensures !InPayload(blocks[j], a)
      {
        PayloadsApart(blocks, i, j, a);
      }
      mem[a] := v;
    }

    /** The words of a block's header in memory: size, available, previous and next header, in the 16 bytes before the payload. */
    static lemma HeaderWords(m: seq<u8>, bs: seq<Block>, i: nat)
      requires Linked(m, bs) && i < |bs|
      ensures var a := bs[i].addr;
        && a + 16 + bs[i].size <= |m|
        && Word(m, a) == bs[i].size && Word(m, a + 4) == (if bs[i].av then 1 else 0)
        && Word(m, a + 8) == (if i == 0 then 0 else bs[i - 1].addr)
        && Word(m, a + 12) == (if i + 1 == |bs| then 0 else bs[i + 1].addr)
    {
      HeaderIs(m, bs, i);
    }

    static lemma LinkedFacts(m: seq<u8>, bs: seq<Block>)
      requires Linked(m, bs)
      ensures Ordered(bs) && |bs| > 0 && bs[0].addr == BASE && bs[|bs| - 1].av && |m| < 0x8000_0000
      ensures forall i: nat :: i < |bs| ==> bs[i].addr + HDR + bs[i].size <= |m|
    {
    }

    /** The next link of a block is null exactly at the end of the list. */
    static lemma HeaderIs(m: seq<u8>, bs: seq<Block>, k: nat)
      requires Linked(m, bs) && k < |bs|
      ensures bs[k].addr + HDR + bs[k].size <= |m| && HdrAt(m, bs[k].addr) == HdrOf(bs, k)
      ensures HdrAt(m, bs[k].addr).n == 0 <==> k + 1 == |bs|
      ensures bs[k].addr > 0
    {
      assert HeaderOk(m, bs, k);
      if k + 1 < |bs| { OrderedSpread(bs, 0, k + 1); }
      if 0 < k { OrderedSpread(bs, 0, k); }
    }

    /** Memory from the end of the last block on is no part of any block. */
    static lemma TailIsPast(bs: seq<Block>, t: nat)
      requires Ordered(bs) && bs[|bs| - 1].addr + HDR <= t
      ensures forall i: nat :: i < |bs| ==> bs[i].addr + HDR <= t
      ensures forall i: nat, a: nat :: i < |bs| && InPayload(bs[i], a) ==> a < t
    {
      forall i: nat | i < |bs|
        ensures bs[i].addr + HDR + bs[i].size <= t
      {
        if i < |bs| - 1 { OrderedSpread(bs, i, |bs| - 1); }
      }
    }

    static lemma AllocLinked(m: seq<u8>, bs: seq<Block>, sz: nat, m': seq<u8>)
      requires Linked(m, bs) && |m'| == |m|
      requires var k := FirstFit(bs, sz, 0);
        var h, t := HdrAt(m, bs[k].addr), bs[k].addr + HDR + sz;
        && (forall i: nat :: i < |bs| && i != k ==> HdrAt(m', bs[i].addr) == HdrAt(m, bs[i].addr))
        && HdrAt(m', bs[k].addr) == h.(sz := sz, av := 0, n := if k == |bs| - 1 then t else h.n)
        && (k == |bs| - 1 ==> t + HDR <= |m| && HdrAt(m', t) == Header(0, 1, bs[k].addr, 0))
      ensures Linked(m', Alloc(bs, sz))
    {
      hide HdrAt;
      AllocKeepsOrder(bs, sz);
      var bs' := Alloc(bs, sz);
      forall i: nat | i < |bs'|
        ensures bs'[i].addr + HDR + bs'[i].size <= |m'| && HeaderOk(m', bs', i)
      {
        if i < |bs| { assert HeaderOk(m, bs, i); }
      }
    }

    static lemma ReleaseLinked(m: seq<u8>, bs: seq<Block>, k: nat, m': seq<u8>)
      requires Linked(m, bs) && |m'| == |m| && 0 < k < |bs|
      requires forall i: nat :: i < |bs| && i != k ==> HdrAt(m', bs[i].addr) == HdrAt(m, bs[i].addr)
      requires HdrAt(m', bs[k].addr) == HdrAt(m, bs[k].addr).(av := 1)
      ensures Linked(m', Release(bs, k))
    {
      hide HdrAt;
      ReleaseKeepsOrder(bs, k);
      var bs' := Release(bs, k);
      forall i: nat | i < |bs'|
        ensures bs'[i].addr + HDR + bs'[i].size <= |m'| && HeaderOk(m', bs', i)
      {
        assert HeaderOk(m, bs, i);
      }
    }

    static lemma PayloadWriteLinked(m: seq<u8>, bs: seq<Block>, k: nat, a: nat, v: u8)
      requires Linked(m, bs) && k < |bs| && InPayload(bs[k], a) && a < |m|
      ensures Linked(m[a := v], bs)
    {
      hide HdrOf;
      forall i: nat | i < |bs|
        ensures bs[i].addr + HDR + bs[i].size <= |m| && HeaderOk(m[a := v], bs, i)
      {
        assert HeaderOk(m, bs, i);
        PayloadsApart(bs, k, i, a);
      }
    }
  }
}
