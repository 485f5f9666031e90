/** Readers and writers of different files taking turns on the descriptor table. */
module Turns {
  import opened Wrappers
  import opened Bytes
  import opened FatDisk
  import opened Chains
  import opened FsTypes
  import opened FatFile
  import opened FileIo
  import opened Descriptors

  /** One call: read n bytes, or write some, the driver's unset counter then holding stale. */
  datatype Turn = Get(fd: int, n: u32) | Put(fd: int, bytes: seq<u8>, stale: u32)

  function Wanted(a: Turn, fd: int): nat {
    if a.Get? && a.fd == fd then a.n else 0
  }

  function Written(a: Turn, fd: int): seq<u8> {
    if a.Put? && a.fd == fd then a.bytes else []
  }

  /** How many bytes a script asks of descriptor fd. */
  function AskedOf(script: seq<Turn>, fd: int): nat {
    if script == [] then 0 else AskedOf(script[..|script| - 1], fd) + Wanted(script[|script| - 1], fd)
  }

  /** What a script writes to descriptor fd, in order. */
  function PutTo(script: seq<Turn>, fd: int): seq<u8> {
    if script == [] then [] else PutTo(script[..|script| - 1], fd) + Written(script[|script| - 1], fd)
  }

  // ---- Room for several writers at once

  /** How many more times a volume can grow does not depend on which chain grows. */
  lemma {:induction false} AnyLast(fat: seq<u32>, fat': seq<u32>, limit: nat, last: nat, last': nat, n: nat)
    requires |fat'| == |fat| && forall i :: 0 <= i < |fat| ==> (fat'[i] == 0 <==> fat[i] == 0)
    requires last < |fat| && fat[last] != 0 && last' < |fat| && fat[last'] != 0
    requires CanGrow(fat, limit, last, n)
    ensures CanGrow(fat', limit, last', n)
    decreases n
  {
    if n > 0 {
      var p: u32 :| p < limit && LeastHit(fat, p) && IsFree(fat, p) && CanGrow(Linked(fat, last, p), limit, p, n - 1);
      assert forall q: nat :: ScanHit(fat', q) <==> ScanHit(fat, q);
      assert LeastHit(fat', p) && IsFree(fat', p);
      AnyLast(Linked(fat, last, p), Linked(fat', last', p), limit, p, p, n - 1);
    }
  }

  /** Every chain of the volume can be the one that grows n times. */
  ghost predicate Grows(v: Volume, n: nat)
    requires v.Ok()
  {
    forall h :: h in v.files ==> CanGrow(v.fat, |v.data|, Last(v.files[h]), n)
  }

  lemma GrowsAlike(v: Volume, h: nat, n: nat)
    requires v.Ok() && h in v.files && CanGrow(v.fat, |v.data|, Last(v.files[h]), n)
    ensures Grows(v, n)
  {
    hide CanGrow;
    forall k | k in v.files
      ensures CanGrow(v.fat, |v.data|, Last(v.files[k]), n)
    {
      assert IsChain(v.fat, |v.data|, v.files[h]) && IsChain(v.fat, |v.data|, v.files[k]);
      AnyLast(v.fat, v.fat, |v.data|, Last(v.files[h]), Last(v.files[k]), n);
    }
  }

  /** How many clusters file h lacks for total bytes. */
  ghost function Lacks(v: Volume, h: Option<nat>, total: nat): nat
    requires v.Ok()
  {
    if h.Some? && h.value in v.files then Max(Clusters(total, v.clsz), |v.files[h.value]|) - |v.files[h.value]| else 0
  }

  ghost function LackSum(v: Volume, hs: seq<Option<nat>>, totals: seq<nat>, n: nat): nat
    requires v.Ok() && n <= |hs| == |totals|
  {
    if n == 0 then 0 else LackSum(v, hs, totals, n - 1) + Lacks(v, hs[n - 1], totals[n - 1])
  }

  /** Different writers write different files. */
  predicate Different(hs: seq<Option<nat>>) {
    forall i, j :: 0 <= i < j < |hs| && hs[i].Some? ==> hs[j] != hs[i]
  }

  /** The volume can grow spare times, which is enough for every file hs[j] to hold totals[j] bytes; one without a chain has its buffer. */
  ghost predicate Budget(v: Volume, hs: seq<Option<nat>>, totals: seq<nat>, spare: nat)
    requires v.Ok()
  {
    && |hs| == |totals| && Different(hs) && Grows(v, spare)
    && LackSum(v, hs, totals, |hs|) <= spare
    && forall j :: 0 <= j < |hs| && hs[j].Some? && hs[j].value !in v.files ==> totals[j] <= v.clsz
  }

  lemma {:induction false} LackPart(v: Volume, hs: seq<Option<nat>>, totals: seq<nat>, n: nat, j: nat)
    requires v.Ok() && j < n <= |hs| == |totals|
    ensures Lacks(v, hs[j], totals[j]) <= LackSum(v, hs, totals, n)
  {
    if j < n - 1 {
      LackPart(v, hs, totals, n - 1, j);
    }
  }

  lemma ClustersHold(size: nat, total: nat, clsz: nat)
    requires clsz > 0 && size <= total
    ensures size <= Clusters(total, clsz) * clsz
    ensures Clusters(size, clsz) <= Clusters(total, clsz)
  {
    var c, d := Clusters(size, clsz), Clusters(total, clsz);
    assert c * clsz <= size + clsz - 1 < c * clsz + clsz && d * clsz <= total + clsz - 1 < d * clsz + clsz;
    if d < c {
      MulMono(d + 1, c, clsz);
    }
  }

  /** Within the budget there is room for what a writer has still to write. */
  lemma RoomInBudget(v: Volume, hs: seq<Option<nat>>, totals: seq<nat>, spare: nat, j: nat, size: nat)
    requires v.Ok() && Budget(v, hs, totals, spare) && j < |hs| && hs[j].Some? && hs[j].value in v.files && size <= totals[j]
    ensures HasRoom(v, hs[j].value, size, spare)
  {
    hide CanGrow, Chained;
    var n := |v.files[hs[j].value]|;
    LackPart(v, hs, totals, |hs|, j);
    ClustersHold(size, totals[j], v.clsz);
    MulMono(Clusters(totals[j], v.clsz), n + spare, v.clsz);
  }

  lemma {:induction false} LackAfter(v: Volume, v': Volume, hs: seq<Option<nat>>, totals: seq<nat>, n: nat, j: nat, h: nat, size: nat, spare: nat, rest: nat)
    requires v.Ok() && v'.Ok() && n <= |hs| == |totals| && Different(hs) && j < |hs| && hs[j] == Some(h)
    requires Grown(v, v', h, size, spare, rest) && size <= totals[j] && size <= |v'.files[h]| * v.clsz
    ensures LackSum(v', hs, totals, n) + (if j < n then spare - rest else 0) == LackSum(v, hs, totals, n)
  {
    hide CanGrow, Chained;
    if n > 0 {
      LackAfter(v, v', hs, totals, n - 1, j, h, size, spare, rest);
      if n - 1 == j {
        LengthAfter(|v.files[h]|, |v'.files[h]|, v.clsz, size);
        ClustersHold(size, totals[j], v.clsz);
      }
    }
  }

  /** A write within the budget leaves the budget for the rest. */
  lemma BudgetStep(v: Volume, v': Volume, hs: seq<Option<nat>>, totals: seq<nat>, j: nat, size: nat, spare: nat, rest: nat)
    requires v.Ok() && v'.Ok() && Budget(v, hs, totals, spare) && j < |hs| && hs[j].Some? && size <= totals[j]
    requires var h := hs[j].value;
      OnlyFile(v, v', h, size, spare, rest) && (h in v.files ==> size <= |v'.files[h]| * v.clsz)
    ensures Budget(v', hs, totals, rest)
  {
    hide CanGrow, Chained;
    var h := hs[j].value;
    if h in v.files {
      LackAfter(v, v', hs, totals, |hs|, j, h, size, spare, rest);
      GrowsAlike(v', h, rest);
    }
  }

  // ---- Write cursors as the volume has them

  /** f has been given the bytes w, on a volume v. */
  ghost predicate Has(fs: FatFs, f: FsFile, v: Volume, w: seq<u8>)
    requires v.Ok()
    reads f, f.n, f.d, if f.d == null then {} else {f.d.buf}
  {
    f.d != null && if f.n.inode in v.files then WriterAt(f.d, v.data, v.files[f.n.inode], v.clsz, w) else fs.Buffered(f.d, f.n.inode, w)
  }

  /** The same, said of the cursor's position. */
  ghost predicate HasAt(g: Geometry, h: nat, p: Position, v: Volume, w: seq<u8>)
    requires v.Ok()
  {
    if h in v.files then
      var path := v.files[h];
      && p.k < |path| && p.cl == path[p.k] && p.inCluster <= v.clsz <= |p.bytes|
      && w == Flat(v.data, path[..p.k]) + p.bytes[..p.inCluster]
    else h < 2 && g.Reachable(h) && p.cl == h && |w| == p.inCluster <= g.Clsz() <= |p.bytes| && w == p.bytes[..p.inCluster]
  }

  lemma HasIsAt(fs: FatFs, f: FsFile, v: Volume, w: seq<u8>)
    requires v.Ok() && f.d != null
    ensures Has(fs, f, v, w) <==> HasAt(fs.dev.g, f.n.inode, At(f), v, w)
  {
    hide Chained, Flat;
    assert f.d.idx <= f.d.buf.Length ==> f.d.buf[..f.d.idx] == f.d.buf[..][..f.d.idx];
  }

  lemma HasIs(fs: FatFs, f: FsFile, w: seq<u8>)
    requires fs.Formed() && f.d != null
    ensures fs.Given(f.d, f.n.inode, w) <==> Has(fs, f, fs.Vol(), w)
  {
    hide FatOf, DataOf, CopyOf, Flat, Chained;
  }

  /** A write to another file leaves a write cursor where it was. */
  lemma HasStays(fs: FatFs, f: FsFile, v: Volume, v': Volume, h: nat, size: nat, spare: nat, rest: nat, w: seq<u8>)
    requires v.Ok() && v'.Ok() && OnlyFile(v, v', h, size, spare, rest) && f.n.inode != h && Has(fs, f, v, w)
    ensures Has(fs, f, v', w)
  {
    hide CanGrow;
    var k := f.n.inode;
    if h in v.files && k in v.files {
      assert Disjoint(v'.files[k], v'.files[h]);
      FlatFrame(v.data, v'.data, v.files[k][..f.d.k]);
    }
  }

  /** The bytes a cursor was given fit its chain. */
  lemma HasFits(fs: FatFs, f: FsFile, v: Volume, w: seq<u8>)
    requires v.Ok() && Has(fs, f, v, w) && f.n.inode in v.files
    ensures |w| <= |v.files[f.n.inode]| * v.clsz
  {
    hide Flat;
    var path := v.files[f.n.inode];
    assert IsChain(v.fat, |v.data|, path);
    fs.WrittenLength(f.d, v.data, path, v.clsz, w);
    MulMono(f.d.k + 1, |path|, v.clsz);
    assert (f.d.k + 1) * v.clsz == f.d.k * v.clsz + v.clsz;
  }
  // ---- The table

  /** Which file each descriptor open for writing writes. */
  ghost function Writers(t: FdTable): (hs: seq<Option<nat>>)
    reads t.fds, t.Files(), set f | f in t.Files() :: f.n
    ensures |hs| == t.fds.Length
  {
    seq(t.fds.Length, j requires 0 <= j < t.fds.Length reads t.fds, t.Files(), set f | f in t.Files() :: f.n =>
      if t.Named(j) && t.fds[j].m == MODE_W then Some(t.fds[j].n.inode) else None)
  }

  /** Every descriptor open for writing has been given ws[j], on a volume v. */
  ghost predicate AllHave(t: FdTable, v: Volume, ws: seq<seq<u8>>)
    requires v.Ok()
    reads t, t.fds, t.fs, t.Files(), t.Cursors(), t.Buffers(), set f | f in t.Files() :: f.n
  {
    |ws| == t.fds.Length && forall j :: 0 <= j < t.fds.Length && t.Named(j) && t.fds[j].m == MODE_W ==> Has(t.fs, t.fds[j], v, ws[j])
  }

  /** No two descriptors of which one writes are open on the same file. */
  ghost predicate AllSole(t: FdTable)
    reads t.fds, t.Files(), set f | f in t.Files() :: f.n
  {
    forall j :: 0 <= j < t.fds.Length && t.Named(j) && t.fds[j].m == MODE_W ==> t.Sole(j)
  }

  /** The same for every descriptor but fd. */
  ghost predicate OthersHave(t: FdTable, fd: int, v: Volume, ws: seq<seq<u8>>)
    requires v.Ok()
    reads t, t.fds, t.fs, t.Files(), t.Cursors(), t.Buffers(), set f | f in t.Files() :: f.n
  {
    && |ws| == t.fds.Length
    && forall j :: 0 <= j < t.fds.Length && j != fd && t.Named(j) && t.fds[j].m == MODE_W ==> Has(t.fs, t.fds[j], v, ws[j])
  }

  /** The budget has room for a write. */
  lemma Affordable(t: FdTable, fd: int, c: nat, ws: seq<seq<u8>>, totals: seq<nat>, spare: nat)
    requires t.Valid() && AllSole(t) && AllHave(t, t.fs.Vol(), ws) && Budget(t.fs.Vol(), Writers(t), totals, spare)
    requires t.Named(fd) && t.fds[fd].m == MODE_W && |ws[fd]| + c <= totals[fd]
    ensures t.Sole(fd) && t.fs.Takes(t.fds[fd].d, t.fds[fd].n.inode, ws[fd], c, spare)
  {
    hide Fat.Valid, FatFs.Stored, FatFs.ReadsAt, Chained, Geometry.Valid, FileRest, IsChain, FatOf, DataOf, CopyOf;
    var v, h := t.fs.Vol(), t.fds[fd].n.inode;
    assert Writers(t)[fd] == Some(h);
    HasIs(t.fs, t.fds[fd], ws[fd]);
    if h in v.files {
      RoomInBudget(v, Writers(t), totals, spare, fd, |ws[fd]| + c);
    }
  }

  /** The bytes of a write in a buffer of their own. */
  method BufferOf(t: FdTable, bytes: seq<u8>, ghost ws: seq<seq<u8>>) returns (buf: array<u8>)
    requires t.Valid() && AllSole(t) && AllHave(t, t.fs.Vol(), ws)
    ensures fresh(buf) && buf[..] == bytes && t.Valid() && t.Foreign(buf)
    ensures AllHave(t, t.fs.Vol(), ws) && AllSole(t) && Writers(t) == old(Writers(t))
    ensures forall j: int :: t.Pending(j) == old(t.Pending(j))
  {
    hide Fat.Valid, FatFs.Stored, FatFs.ReadsAt, Chained, Geometry.Valid, FileRest, IsChain, FatOf, DataOf, CopyOf, Has;
    buf := new u8[|bytes|](i requires 0 <= i < |bytes| => bytes[i]);
  }

  /** The write call: what every other descriptor was given stays given, as the old volume had it. */
  method PutPrepared(t: FdTable, fd: int, buf: array<u8>, stale: u32, ghost ws: seq<seq<u8>>, ghost spare: nat) returns (ghost rest: nat)
    requires t.Valid() && AllSole(t) && AllHave(t, t.fs.Vol(), ws) && t.Foreign(buf) && buf.Length < 0x1_0000_0000
    requires t.Named(fd) && t.fds[fd].m == MODE_W && t.Sole(fd)
    requires t.fs.Takes(t.fds[fd].d, t.fds[fd].n.inode, ws[fd], buf.Length, spare)
    modifies t.Touched(fd), t.fs, t.fs.dev, t.fs.dev.cbuf, t.fs.dev.disk
    ensures t.Valid() && t.fds[..] == old(t.fds[..])
    ensures forall i :: 0 <= i < NUM_FDS && t.fds[i] != null ==> t.fds[i].d == old(t.fds[i].d)
    ensures forall j: int :: t.Pending(j) == old(t.Pending(j))
    ensures AllSole(t) && Writers(t) == old(Writers(t)) && OthersHave(t, fd, old(t.fs.Vol()), ws)
    ensures t.fs.Given(t.fds[fd].d, t.fds[fd].n.inode, ws[fd] + old(buf[..]))
    ensures OnlyFile(old(t.fs.Vol()), t.fs.Vol(), t.fds[fd].n.inode, |ws[fd]| + buf.Length, spare, rest)
  {
    hide Fat.Valid, FatFs.Stored, FatFs.ReadsAt, Chained, Geometry.Valid, FileRest, IsChain, FatOf, DataOf, CopyOf, Has;
    hide FatFs.Takes, FatFs.Given, FatFs.Vol, Grown, FdTable.Pending, OnlyFile, Volume.Ok, FatFs.Formed;
    var r;
    assert buf[0..0 + buf.Length] == buf[..];
    assert ToU32(ToInt(buf.Length)) == buf.Length;
    r, rest := t.KWrite(fd, buf, 0, ToInt(buf.Length), stale, ws[fd], spare);
  }

  /** What every descriptor was given, as the new volume has it. */
  lemma AfterPut(t: FdTable, fd: int, v: Volume, ws: seq<seq<u8>>, w: seq<u8>, totals: seq<nat>, spare: nat, rest: nat)
    requires t.Valid() && v.Ok() && AllSole(t) && OthersHave(t, fd, v, ws) && Budget(v, Writers(t), totals, spare)
    requires t.Named(fd) && t.fds[fd].m == MODE_W && t.fs.Given(t.fds[fd].d, t.fds[fd].n.inode, w) && |w| <= totals[fd]
    requires OnlyFile(v, t.fs.Vol(), t.fds[fd].n.inode, |w|, spare, rest)
    ensures AllHave(t, t.fs.Vol(), ws[fd := w]) && Budget(t.fs.Vol(), Writers(t), totals, rest)
  {
    hide Fat.Valid, FatFs.Stored, FatFs.ReadsAt, Chained, Geometry.Valid, FileRest, IsChain, FatOf, DataOf, CopyOf, Has, Budget;
    hide FatFs.Given, FatFs.Vol;
    var h, v' := t.fds[fd].n.inode, t.fs.Vol();
    HasIs(t.fs, t.fds[fd], w);
    forall j | 0 <= j < t.fds.Length && j != fd && t.Named(j) && t.fds[j].m == MODE_W
      ensures Has(t.fs, t.fds[j], v', ws[j])
    {
      HasStays(t.fs, t.fds[j], v, v', h, |w|, spare, rest, ws[j]);
    }
    if h in v.files {
      HasFits(t.fs, t.fds[fd], v', w);
    }
    assert Writers(t)[fd] == Some(h);
    BudgetStep(v, v', Writers(t), totals, fd, |w|, spare, rest);
  }

  lemma Sized(t: FdTable, ws: seq<seq<u8>>)
    requires t.Valid() && AllHave(t, t.fs.Vol(), ws)
    ensures t.fs.Formed() && t.fds.Length == NUM_FDS == |ws|
  {
  }

  /** One turn of one writer. */
  method PutOne(t: FdTable, fd: int, bytes: seq<u8>, stale: u32, ghost ws: seq<seq<u8>>, ghost totals: seq<nat>, ghost spare: nat)
    returns (ghost rest: nat)
    requires t.Valid() && AllSole(t) && AllHave(t, t.fs.Vol(), ws) && Budget(t.fs.Vol(), Writers(t), totals, spare)
    requires t.Named(fd) && t.fds[fd].m == MODE_W && |bytes| < 0x1_0000_0000 && |ws[fd]| + |bytes| <= totals[fd]
    modifies t.Touched(fd), t.fs, t.fs.dev, t.fs.dev.cbuf, t.fs.dev.disk
    ensures t.Valid() && t.fds[..] == old(t.fds[..])
    ensures forall i :: 0 <= i < NUM_FDS && t.fds[i] != null ==> t.fds[i].d == old(t.fds[i].d)
    ensures forall j: int :: t.Pending(j) == old(t.Pending(j))
    ensures AllSole(t) && AllHave(t, t.fs.Vol(), ws[fd := ws[fd] + bytes])
    ensures Writers(t) == old(Writers(t)) && Budget(t.fs.Vol(), Writers(t), totals, rest)
    ensures OnlyFile(old(t.fs.Vol()), t.fs.Vol(), t.fds[fd].n.inode, |ws[fd]| + |bytes|, spare, rest)
  {
    hide Fat.Valid, FatFs.Formed, FatFs.Vol, Budget, Has, OnlyFile, FdTable.Pending, FdTable.Foreign, FdTable.Valid, FatFs.Takes, FatFs.Given;
    hide AllHave, OthersHave, AllSole, FdTable.Sole;
    Sized(t, ws);
    ghost var v := t.fs.Vol();
    var buf := BufferOf(t, bytes, ws);
    Affordable(t, fd, |bytes|, ws, totals, spare);
    rest := PutPrepared(t, fd, buf, stale, ws, spare);
    AfterPut(t, fd, v, ws, ws[fd] + bytes, totals, spare, rest);
  }

  /** The read call: what every other descriptor was given stays given, and a cursor that is no reader stays where it is. */
  method GetUnseen(t: FdTable, fd: int, n: u32, ghost v: Volume, ghost ws: seq<seq<u8>>) returns (out: seq<u8>)
    requires t.Valid() && AllSole(t) && v == t.fs.Vol() && OthersHave(t, fd, v, ws)
    requires 0 <= fd < NUM_FDS && t.fds[fd] != null ==> t.Named(fd)
    modifies t.Touched(fd), t.fs.dev, t.fs.dev.cbuf
    ensures t.Valid() && t.fds[..] == old(t.fds[..])
    ensures forall i :: 0 <= i < NUM_FDS && t.fds[i] != null ==> t.fds[i].d == old(t.fds[i].d)
    ensures Served(out, old(t.Pending(fd)), t.Pending(fd), n)
    ensures forall j :: j != fd ==> t.Pending(j) == old(t.Pending(j))
    ensures t.fs.Vol() == v && AllSole(t) && OthersHave(t, fd, v, ws) && Writers(t) == old(Writers(t))
    ensures t.Named(fd) && t.fds[fd].m != MODE_R ==> At(t.fds[fd]) == old(At(t.fds[fd]))
  {
    hide Fat.Valid, FatFs.Stored, FatFs.ReadsAt, Chained, Geometry.Valid, FileRest, IsChain, FatOf, DataOf, CopyOf, Has, Served, At, FdTable.Pending;
    out := ServeOne(t, fd, n);
  }

  /** One turn of one reader, seen by the writers. */
  method GetOne(t: FdTable, fd: int, n: u32, ghost ws: seq<seq<u8>>) returns (out: seq<u8>)
    requires t.Valid() && AllSole(t) && AllHave(t, t.fs.Vol(), ws)
    requires 0 <= fd < NUM_FDS && t.fds[fd] != null ==> t.Named(fd)
    modifies t.Touched(fd), t.fs.dev, t.fs.dev.cbuf
    ensures t.Valid() && t.fds[..] == old(t.fds[..])
    ensures forall i :: 0 <= i < NUM_FDS && t.fds[i] != null ==> t.fds[i].d == old(t.fds[i].d)
    ensures Served(out, old(t.Pending(fd)), t.Pending(fd), n)
    ensures forall j :: j != fd ==> t.Pending(j) == old(t.Pending(j))
    ensures t.fs.Vol() == old(t.fs.Vol()) && AllSole(t) && AllHave(t, t.fs.Vol(), ws) && Writers(t) == old(Writers(t))
  {
    hide Fat.Valid, FatFs.Formed, FatFs.Vol, Has, HasAt, FdTable.Pending, FdTable.Valid, Served, AllSole, Writers, At;
    Sized(t, ws);
    ghost var v := t.fs.Vol();
    if t.Named(fd) && t.fds[fd].m == MODE_W {
      HasIsAt(t.fs, t.fds[fd], v, ws[fd]);
    }
    out := GetUnseen(t, fd, n, v, ws);
    if t.Named(fd) && t.fds[fd].m == MODE_W {
      HasIsAt(t.fs, t.fds[fd], v, ws[fd]);
    }
  }

  /** The files that no descriptor writes keep their contents. */
  ghost predicate Unwritten(v: Volume, v': Volume, hs: seq<Option<nat>>)
    requires v.Ok() && v'.Ok()
  {
    forall k :: k in v.files && Some(k) !in hs ==> k in v'.files && v'.Contents(k) == v.Contents(k)
  }

  lemma UnwrittenTrans(v: Volume, v1: Volume, v2: Volume, hs: seq<Option<nat>>)
    requires v.Ok() && v1.Ok() && v2.Ok() && Unwritten(v, v1, hs) && Unwritten(v1, v2, hs)
    ensures Unwritten(v, v2, hs)
  {
  }

  lemma OneWritten(v: Volume, v': Volume, hs: seq<Option<nat>>, fd: nat, h: nat, size: nat, spare: nat, rest: nat)
    requires v.Ok() && v'.Ok() && fd < |hs| && hs[fd] == Some(h) && OnlyFile(v, v', h, size, spare, rest)
    ensures Unwritten(v, v', hs)
  {
    hide CanGrow, Chained, Volume.Contents, Grown;
    forall k | k in v.files && Some(k) !in hs
      ensures k in v'.files && v'.Contents(k) == v.Contents(k)
    {
      if h in v.files {
        GrownSpares(v, v', h, k, size, spare, rest);
      }
    }
  }

  /** What every descriptor has been given after a turn. */
  function Fed(ws: seq<seq<u8>>, a: Turn): (r: seq<seq<u8>>)
    ensures |r| == |ws|
  {
    seq(|ws|, j requires 0 <= j < |ws| => ws[j] + Written(a, j))
  }

  lemma FedIs(ws: seq<seq<u8>>, a: Turn)
    requires a.Put? ==> 0 <= a.fd < |ws|
    ensures Fed(ws, a) == if a.Put? then ws[a.fd := ws[a.fd] + a.bytes] else ws
  {
    var r := if a.Put? then ws[a.fd := ws[a.fd] + a.bytes] else ws;
    forall j | 0 <= j < |ws|
      ensures Fed(ws, a)[j] == r[j]
    {
      assert ws[j] + [] == ws[j];
    }
  }

  /** What every descriptor has been given after a script. */
  function GivenAfter(ws: seq<seq<u8>>, script: seq<Turn>): (r: seq<seq<u8>>)
    ensures |r| == |ws| && forall j :: 0 <= j < |ws| ==> r[j] == ws[j] + PutTo(script, j)
  {
    if script == [] then ws else Fed(GivenAfter(ws, script[..|script| - 1]), script[|script| - 1])
  }

  lemma GivenLast(ws: seq<seq<u8>>, script: seq<Turn>)
    ensures GivenAfter(ws, script) == if script == [] then ws else Fed(GivenAfter(ws, script[..|script| - 1]), script[|script| - 1])
  {
  }

  /** A read names a reader or nobody, a write names a writer. */
  ghost predicate Playable(t: FdTable, a: Turn)
    reads t.fds, t.Files()
  {
    && (a.Get? && 0 <= a.fd < NUM_FDS && a.fd < t.fds.Length && t.fds[a.fd] != null ==> t.Named(a.fd))
    && (a.Put? ==> t.Named(a.fd) && t.fds[a.fd].m == MODE_W && |a.bytes| < 0x1_0000_0000)
  }

  lemma LastTurn(script: seq<Turn>, j: int)
    requires script != []
    ensures var front, a := script[..|script| - 1], script[|script| - 1];
      AskedOf(script, j) == AskedOf(front, j) + Wanted(a, j) && PutTo(script, j) == PutTo(front, j) + Written(a, j)
      && (j != a.fd ==> Wanted(a, j) == 0 && Written(a, j) == [])
  {
  }

  lemma FrontFits(script: seq<Turn>, ws: seq<seq<u8>>, totals: seq<nat>)
    requires script != [] && |ws| <= |totals| && forall j :: 0 <= j < |ws| ==> |ws[j]| + |PutTo(script, j)| <= totals[j]
    ensures forall j :: 0 <= j < |ws| ==> |ws[j]| + |PutTo(script[..|script| - 1], j)| <= totals[j]
  {
    forall j | 0 <= j < |ws|
      ensures |PutTo(script[..|script| - 1], j)| <= |PutTo(script, j)|
    {
      LastTurn(script, j);
    }
  }

  lemma BudgetSized(v: Volume, hs: seq<Option<nat>>, totals: seq<nat>, spare: nat)
    requires v.Ok() && Budget(v, hs, totals, spare)
    ensures |totals| == |hs|
  {
  }

  lemma PlayableSlot(t: FdTable, a: Turn)
    requires Playable(t, a)
    ensures a.Put? ==> 0 <= a.fd < t.fds.Length && |Written(a, a.fd)| == |a.bytes|
  {
  }

  /** What every descriptor has still to give. */
  ghost function Pendings(t: FdTable): (p: seq<seq<u8>>)
    requires t.Valid()
    reads t, t.fds, t.fs, t.fs.dev, t.fs.dev.disk, t.fs.dev.cbuf, t.Files(), t.Cursors(), t.Buffers()
    reads set f | f in t.Files() :: f.n
    ensures |p| == NUM_FDS && forall j :: 0 <= j < NUM_FDS ==> p[j] == t.Pending(j)
  {
    seq(NUM_FDS, j requires t.Valid()
      reads t, t.fds, t.fs, t.fs.dev, t.fs.dev.disk, t.fs.dev.cbuf, t.Files(), t.Cursors(), t.Buffers(), set f | f in t.Files() :: f.n
      => t.Pending(j))
  }

  /** Every descriptor gave the start of what it had, as long as the script asks of it, and has the rest still to give. */
  predicate AllServed(outs: seq<seq<u8>>, had: seq<seq<u8>>, has: seq<seq<u8>>, script: seq<Turn>) {
    && |outs| == |had| == |has|
    && forall j :: 0 <= j < |outs| ==> Served(outs[j], had[j], has[j], AskedOf(script, j))
  }

  lemma NoneServed(outs: seq<seq<u8>>, p: seq<seq<u8>>)
    requires |outs| == |p| && forall j :: 0 <= j < |p| ==> outs[j] == []
    ensures AllServed(outs, p, p, [])
  {
  }

  function WithOut(outs: seq<seq<u8>>, fd: int, out: seq<u8>): (r: seq<seq<u8>>)
    ensures |r| == |outs|
  {
    if 0 <= fd < |outs| then outs[fd := outs[fd] + out] else outs
  }

  lemma TurnServed(outs: seq<seq<u8>>, p0: seq<seq<u8>>, p1: seq<seq<u8>>, p2: seq<seq<u8>>, script: seq<Turn>, out: seq<u8>)
    requires script != [] && AllServed(outs, p0, p1, script[..|script| - 1]) && |p2| == |p1|
    requires var a := script[|script| - 1];
      && (forall j :: 0 <= j < |p1| && j != a.fd ==> p2[j] == p1[j])
      && (0 <= a.fd < |p1| ==> Served(out, p1[a.fd], p2[a.fd], Wanted(a, a.fd)))
    ensures AllServed(WithOut(outs, script[|script| - 1].fd, out), p0, p2, script)
  {
    hide Served, AskedOf;
    var front, a, outs' := script[..|script| - 1], script[|script| - 1], WithOut(outs, script[|script| - 1].fd, out);
    forall j | 0 <= j < |outs|
      ensures Served(outs'[j], p0[j], p2[j], AskedOf(script, j))
    {
      LastTurn(script, j);
      assert Served(outs[j], p0[j], p1[j], AskedOf(front, j));
      if j == a.fd {
        ServedMore(p0[j], outs[j], p1[j], AskedOf(front, j), out, p2[j], Wanted(a, j));
      }
    }
  }

  /** One turn. */
  method TakeTurn(t: FdTable, a: Turn, ghost ws: seq<seq<u8>>, ghost totals: seq<nat>, ghost spare: nat)
    returns (out: seq<u8>, ghost rest: nat)
    requires t.Valid() && AllSole(t) && AllHave(t, t.fs.Vol(), ws) && Budget(t.fs.Vol(), Writers(t), totals, spare)
    requires Playable(t, a) && (a.Put? ==> |ws[a.fd]| + |a.bytes| <= totals[a.fd])
    modifies t.Touched(a.fd), t.fs, t.fs.dev, t.fs.dev.cbuf, t.fs.dev.disk
    ensures t.Valid() && t.fds[..] == old(t.fds[..])
    ensures forall i :: 0 <= i < NUM_FDS && t.fds[i] != null ==> t.fds[i].d == old(t.fds[i].d)
    ensures Served(out, old(t.Pending(a.fd)), t.Pending(a.fd), Wanted(a, a.fd))
    ensures forall j: int :: j != a.fd ==> t.Pending(j) == old(t.Pending(j))
    ensures AllSole(t) && AllHave(t, t.fs.Vol(), Fed(ws, a))
    ensures forall b: Turn :: old(Playable(t, b)) ==> Playable(t, b)
    ensures forall fd: int :: t.Touched(fd) == old(t.Touched(fd))
    ensures Writers(t) == old(Writers(t)) && Budget(t.fs.Vol(), Writers(t), totals, rest)
    ensures Unwritten(old(t.fs.Vol()), t.fs.Vol(), Writers(t))
  {
    hide Fat.Valid, FatFs.Formed, FatFs.Vol, Budget, Has, OnlyFile, FdTable.Pending, FdTable.Valid, AllHave, AllSole, FdTable.Sole;
    Sized(t, ws);
    FedIs(ws, a);
    ghost var v, h := t.fs.Vol(), if a.Put? then t.fds[a.fd].n.inode else 0;
    match a
    case Get(fd, n) =>
      out := GetOne(t, fd, n, ws);
      rest := spare;
    case Put(fd, bytes, stale) =>
      assert Writers(t)[fd] == Some(h);
      rest := PutOne(t, fd, bytes, stale, ws, totals, spare);
      out := [];
      Sized(t, Fed(ws, a));
      OneWritten(v, t.fs.Vol(), Writers(t), fd, h, |ws[fd]| + |bytes|, spare, rest);
  }

  /**
   Readers and writers of different files taking turns in any order: each reader gets what it had pending, as if it were
   alone, each writer's cursor has been given all that was written to it, in order, and no other file's contents changed.
   */
  method TakeTurns(t: FdTable, script: seq<Turn>, ghost ws: seq<seq<u8>>, ghost totals: seq<nat>, ghost spare: nat)
    returns (outs: seq<seq<u8>>, ghost rest: nat)
    requires t.Valid() && AllSole(t) && AllHave(t, t.fs.Vol(), ws) && Budget(t.fs.Vol(), Writers(t), totals, spare)
    requires forall i :: 0 <= i < |script| ==> Playable(t, script[i])
    requires forall j :: 0 <= j < NUM_FDS ==> |ws[j]| + |PutTo(script, j)| <= totals[j]
    modifies t.Files(), t.Cursors(), t.Buffers(), t.fs, t.fs.dev, t.fs.dev.cbuf, t.fs.dev.disk
    ensures t.Valid() && t.fds[..] == old(t.fds[..]) && |outs| == NUM_FDS
    ensures forall j :: 0 <= j < NUM_FDS && t.fds[j] != null ==> t.fds[j].d == old(t.fds[j].d)
    ensures AllServed(outs, old(Pendings(t)), Pendings(t), script)
    ensures AllSole(t) && AllHave(t, t.fs.Vol(), GivenAfter(ws, script))
    ensures forall b: Turn :: old(Playable(t, b)) ==> Playable(t, b)
    ensures forall fd: int :: t.Touched(fd) == old(t.Touched(fd))
    ensures Writers(t) == old(Writers(t)) && Budget(t.fs.Vol(), Writers(t), totals, rest)
    ensures Unwritten(old(t.fs.Vol()), t.fs.Vol(), Writers(t))
  {
    hide *;
    Sized(t, ws);
    GivenLast(ws, script);
    if script == [] {
      outs, rest := seq(NUM_FDS, _ => []), spare;
      NoneServed(outs, Pendings(t));
      StillThere(t.fs.Vol(), Writers(t));
    } else {
      var front, a := script[..|script| - 1], script[|script| - 1];
      t.TouchedInside(a.fd);
      ghost var touched, v, ws1 := t.Touched(a.fd), t.fs.Vol(), GivenAfter(ws, front);
      LastTurn(script, a.fd);
      BudgetSized(t.fs.Vol(), Writers(t), totals, spare);
      FrontFits(script, ws, totals);
      outs, rest := TakeTurns(t, front, ws, totals, spare);
      assert t.Touched(a.fd) == touched;
      PlayableSlot(t, a);
      Sized(t, ws1);
      ghost var v1, p1 := t.fs.Vol(), Pendings(t);
      var out;
      out, rest := TakeTurn(t, a, ws1, totals, rest);
      Sized(t, Fed(ws1, a));
      UnwrittenTrans(v, v1, t.fs.Vol(), Writers(t));
      TurnServed(outs, old(Pendings(t)), p1, Pendings(t), script, out);
      outs := WithOut(outs, a.fd, out);
    }
  }

  lemma StillThere(v: Volume, hs: seq<Option<nat>>)
    requires v.Ok()
    ensures Unwritten(v, v, hs)
  {
  }
}
