/** The kernel's table of 32 open files, and any number of readers taking turns on it. */
module Descriptors {
  import opened Bytes
  import opened FatDisk
  import opened Chains
  import opened FsTypes
  import opened FatFile
  import opened Wrappers
  import opened FileIo

  /** Mode letters, or none if the string has any other character. */
  function ModeOf(m: seq<u8>): Option<u32> {
    if exists i :: 0 <= i < |m| && m[i] != 'r' as u8 && m[i] != 'w' as u8 then None
    else Some((if 'r' as u8 in m then MODE_R else 0) + (if 'w' as u8 in m then MODE_W else 0))
  }

  /** An int argument taken as unsigned, and an unsigned result taken as int. */
  function ToU32(n: int): u32
    requires -0x8000_0000 <= n < 0x8000_0000
  {
    if n < 0 then n + 0x1_0000_0000 else n
  }

  function ToInt(n: u32): int {
    if n < 0x8000_0000 then n else n - 0x1_0000_0000
  }

  /** Both keep the number modulo 2^32. */
  lemma TwosComplement(n: int, u: u32)
    requires -0x8000_0000 <= n < 0x8000_0000
    ensures ToU32(n) == n % 0x1_0000_0000
    ensures -0x8000_0000 <= ToInt(u) < 0x8000_0000 && ToInt(u) % 0x1_0000_0000 == u
  {
  }

  /** The modes that programs use, by their strings. */
  lemma ModeLetters()
    ensures ModeOf(['r' as u8]) == Some(1) && ModeOf(['w' as u8]) == Some(2) && ModeOf([]) == Some(0)
    ensures forall m: seq<u8>, i :: 0 <= i < |m| && m[i] != 'r' as u8 && m[i] != 'w' as u8 ==> ModeOf(m) == None
  {
  }

  /** All that can change of an open file and its cursor. */
  datatype Position = Position(idx: u32, cl: nat, inCluster: nat, k: nat, bytes: seq<u8>)

  ghost function At(f: FsFile): Position
    requires f.d != null
    reads f, f.d, if f.d == null then {} else {f.d.buf}
  {
    Position(f.idx, f.d.cl, f.d.idx, f.d.k, f.d.buf[..])
  }

  class FdTable {
    const fs: FatFs
    const fds: array<FsFile?>

    constructor (fs: FatFs)
      requires fs.Valid()
      ensures Valid() && this.fs == fs && fresh(fds) && forall i :: 0 <= i < NUM_FDS ==> fds[i] == null
    {
      this.fs := fs;
      fds := new FsFile?[NUM_FDS](_ => null);
    }

    ghost function Files(): set<FsFile>
      reads fds
    {
      set i | 0 <= i < fds.Length && fds[i] != null :: fds[i]
    }

    ghost function Cursors(): set<FileInfo>
      reads fds, Files()
    {
      set i | 0 <= i < fds.Length && fds[i] != null && fds[i].d != null :: fds[i].d
    }

    ghost function Buffers(): set<array<u8>>
      reads fds, Files()
    {
      set i | 0 <= i < fds.Length && fds[i] != null && fds[i].d != null :: fds[i].d.buf
    }

    /** A read cursor is where the file's index says. */
    ghost predicate FileOk(f: FsFile)
      requires fs.Formed()
      reads fs, fs.dev.disk, f, f.n, f.d, if f.d == null then {} else {f.d.buf}
    {
      f.d != null ==>
        && fs.Outside(f.d.buf)
        && (f.m == MODE_R ==> fs.ReadsAt(f.d, f.n.inode, f.idx, f.n.len))
    }

    /** Different slots share no file, cursor or buffer. */
    ghost predicate Apart()
      reads fds, Files()
    {
      forall i, j :: 0 <= i < j < fds.Length && fds[i] != null && fds[j] != null ==>
        && fds[i] != fds[j]
        && (fds[i].d != null && fds[j].d != null ==> fds[i].d != fds[j].d && fds[i].d.buf != fds[j].d.buf)
    }

    ghost predicate Valid()
      reads this, fds, fs, fs.dev, fs.dev.disk, fs.dev.cbuf, Files(), Cursors(), Buffers()
      reads set f | f in Files() :: f.n
    {
      && fds.Length == NUM_FDS && fs.Valid() && Apart()
      && forall i :: 0 <= i < fds.Length && fds[i] != null ==> FileOk(fds[i])
    }

    /** fd names an open file with a cursor. */
    ghost predicate Named(fd: int)
      reads fds, Files()
    {
      0 <= fd < fds.Length && fds[fd] != null && fds[fd].d != null
    }

    ghost function Touched(fd: int): set<object>
      reads fds, Files()
    {
      if Named(fd) then {fds[fd], fds[fd].d, fds[fd].d.buf} else {}
    }

    lemma TouchedIs(fd: int)
      ensures Named(fd) ==> Touched(fd) == {fds[fd], fds[fd].d, fds[fd].d.buf}
      ensures !Named(fd) ==> Touched(fd) == {}
    {
    }

    lemma TouchedInside(fd: int)
      ensures Touched(fd) <= Files() + Cursors() + Buffers()
      ensures Named(fd) ==> Touched(fd) == {fds[fd], fds[fd].d, fds[fd].d.buf}
      ensures !Named(fd) ==> Touched(fd) == {}
    {
      if Named(fd) {
        assert fds[fd] in Files() && fds[fd].d in Cursors() && fds[fd].d.buf in Buffers();
      }
    }

    /** buf belongs neither to the volume nor to an open file. */
    ghost predicate Foreign(buf: array<u8>)
      reads this, fds, fs, Files()
    {
      fs.Outside(buf) && forall i :: 0 <= i < fds.Length && Named(i) ==> fds[i].d.buf != buf
    }

    /** What reading fd has still to give: nothing unless it is open for reading only. */
    ghost function Pending(fd: int): seq<u8>
      requires Valid()
      reads this, fds, fs, fs.dev, fs.dev.disk, fs.dev.cbuf, Files(), Cursors(), Buffers()
      reads set f | f in Files() :: f.n
    {
      if Named(fd) && fds[fd].m == MODE_R then FileRest(fs, fds[fd]) else []
    }

    lemma NothingPending(fd: int)
      requires Valid()
      ensures fds.Length == NUM_FDS && (!Named(fd) || fds[fd].m != MODE_R ==> Pending(fd) == [])
    {
    }

    /** Read up to n bytes from descriptor fd into buf at off. */
    method KRead(fd: int, buf: array<u8>, off: nat, n: int) returns (r: int)
      requires Valid() && Foreign(buf) && -0x8000_0000 <= n < 0x8000_0000
      requires 0 <= fd < NUM_FDS && fds[fd] != null ==> Named(fd)
      requires off + Min(ToU32(n), |Pending(fd)|) <= buf.Length
      modifies Touched(fd), buf, fs.dev, fs.dev.cbuf
      ensures Valid() && fds[..] == old(fds[..])
      ensures forall i :: 0 <= i < fds.Length && fds[i] != null ==> fds[i].d == old(fds[i].d)
      ensures var t := Min(ToU32(n), |old(Pending(fd))|);
        && (Named(fd) ==> r == ToInt(t)) && (!Named(fd) ==> r == -1)
        && buf[..] == Splice(old(buf[..]), off, old(Pending(fd))[..t])
        && Pending(fd) == old(Pending(fd))[t..]
      ensures forall j :: j != fd ==> Pending(j) == old(Pending(j))
      ensures Named(fd) && fds[fd].m != MODE_R ==> At(fds[fd]) == old(At(fds[fd]))
    {
      hide Fat.Valid, Fat.Coherent, Fat.Mirrored, FatFs.Stored, FatFs.ReadsAt, Splice, Chained, Geometry.Valid, IsChain;
      hide FatFs.Vol, FatOf, DataOf, CopyOf, Flat, FileRest, OkOn, RestOn, OthersOn, FileOk, FatFs.Formed;
      if fd < 0 || fd >= NUM_FDS || fds[fd] == null {
        hide *;
        NothingPending(fd);
        fs.NoSplice(buf[..], off);
        return -1;
      }
      ghost var v := fs.Vol();
      AllOn(fd);
      var t := ReadBytes(fd, v, buf, off, ToU32(n));
      r := ToInt(t);
      TableAfterRead(fd, v);
    }

    /** The read itself: no other open file is touched. */
    method ReadBytes(fd: int, ghost v: Volume, buf: array<u8>, off: nat, c: u32) returns (t: u32)
      requires fs.Valid() && v == fs.Vol() && Named(fd) && FileOk(fds[fd]) && OthersOn(fd, v) && Foreign(buf)
      requires off + Min(c, |PendingOn(fd, v)|) <= buf.Length
      modifies Touched(fd), buf, fs.dev, fs.dev.cbuf
      ensures fs.Valid() && v == fs.Vol() && fds[..] == old(fds[..])
      ensures forall i :: 0 <= i < fds.Length && fds[i] != null ==> fds[i].d == old(fds[i].d)
      ensures FileOk(fds[fd]) && OthersOn(fd, v) && forall j: int :: j != fd ==> PendingOn(j, v) == old(PendingOn(j, v))
      ensures t == Min(c, |old(PendingOn(fd, v))|)
      ensures buf[..] == Splice(old(buf[..]), off, old(PendingOn(fd, v))[..t]) && PendingOn(fd, v) == old(PendingOn(fd, v))[t..]
      ensures fds[fd].m != MODE_R ==> At(fds[fd]) == old(At(fds[fd]))
    {
      hide Fat.Valid, Fat.Coherent, Fat.Mirrored, FatFs.Stored, FatFs.ReadsAt, Splice, Chained, Geometry.Valid, IsChain;
      hide FatFs.Vol, FatFs.Formed, FatOf, DataOf, CopyOf, Flat, FileOk, OkOn, RestOn;
      t := ReadFrom(fds[fd], v, buf, off, c);
    }

    /** Read from an open file. */
    method ReadFrom(fp: FsFile, ghost v: Volume, buf: array<u8>, off: nat, c: u32) returns (t: u32)
      requires fs.Valid() && v == fs.Vol() && fp.d != null && FileOk(fp) && fs.Outside(buf) && buf != fp.d.buf
      requires off + Min(c, |ToGive(fp, v)|) <= buf.Length
      modifies fp, fp.d, fp.d.buf, buf, fs.dev, fs.dev.cbuf
      ensures fs.Valid() && v == fs.Vol() && FileOk(fp) && fp.d == old(fp.d)
      ensures t == Min(c, |old(ToGive(fp, v))|)
      ensures buf[..] == Splice(old(buf[..]), off, old(ToGive(fp, v))[..t]) && ToGive(fp, v) == old(ToGive(fp, v))[t..]
      ensures fp.m != MODE_R ==> At(fp) == old(At(fp))
    {
      hide Fat.Valid, Fat.Coherent, Fat.Mirrored, FatFs.Stored, Splice, Chained, Geometry.Valid, IsChain;
      hide FatFs.Reading, Volume.Stored, Volume.Ok, FatOf, DataOf, CopyOf, Flat, RestAt, ReadCount;
      ghost var all := v.Stored(fp.n.inode);
      assert all == fs.Stored(fp.n.inode) by { OkIs(fp); }
      if fp.m == MODE_R {
        RestTaken(all, fp.idx, fp.n.len, c);
      } else {
        fs.NoSplice(buf[..], off);
      }
      t := FsRead(fs, fp, c, buf, off);
    }

    /** After a read of fd the table is sound and the others have the same to give. */
    lemma TableAfterRead(fd: int, v: Volume)
      requires fs.Valid() && fs.Vol() == v && v.Ok() && Named(fd) && FileOk(fds[fd]) && OthersOn(fd, v)
      ensures Valid()
      ensures forall j: int :: Pending(j) == PendingOn(j, v)
    {
      hide FatOf, DataOf, CopyOf, Flat, Chained, FatFs.Vol, Fat.Valid, FatFs.ReadsAt, FileRest, OkOn, RestOn, Apart;
      forall i | 0 <= i < fds.Length && fds[i] != null
        ensures FileOk(fds[i]) && FileRest(fs, fds[i]) == RestOn(fds[i], v)
      {
        OkIs(fds[i]);
      }
    }

    /** No other descriptor is open on the file of fd. */
    ghost predicate Sole(fd: int)
      requires Named(fd)
      reads fds, Files(), set f | f in Files() :: f.n
    {
      forall j :: 0 <= j < fds.Length && j != fd && Named(j) ==> fds[j].n.inode != fds[fd].n.inode
    }

    /** An open file as the volume v has it. */
    lemma OkIs(f: FsFile)
      requires fs.Formed()
      ensures FileOk(f) <==> (f.d != null ==> fs.Outside(f.d.buf)) && OkOn(f, fs.Vol())
      ensures FileRest(fs, f) == RestOn(f, fs.Vol()) && fs.Stored(f.n.inode) == fs.Vol().Stored(f.n.inode)
    {
      hide FatOf, DataOf, CopyOf, Flat, Chained;
    }

    /** Every open file but the one at fd is as the volume v has it, in a table that is otherwise sound. */
    ghost predicate OthersOn(fd: int, v: Volume)
      requires v.Ok()
      reads this, fds, Files(), Cursors(), Buffers(), set f | f in Files() :: f.n
    {
      && fds.Length == NUM_FDS && Apart()
      && (forall i :: 0 <= i < fds.Length && Named(i) ==> fs.Outside(fds[i].d.buf))
      && forall i :: 0 <= i < fds.Length && i != fd && Named(i) ==> OkOn(fds[i], v)
    }

    /** What reading fd has still to give on the volume v. */
    ghost function PendingOn(fd: int, v: Volume): seq<u8>
      requires v.Ok()
      reads fds, Files(), set f | f in Files() :: f.n
    {
      if Named(fd) then ToGive(fds[fd], v) else []
    }

    lemma AllOn(fd: int)
      requires Valid()
      ensures OthersOn(fd, fs.Vol())
      ensures forall j: int :: Pending(j) == PendingOn(j, fs.Vol())
    {
      hide FatOf, DataOf, CopyOf, Flat, Chained, FatFs.Vol, Fat.Valid, FatFs.ReadsAt, FileRest, OkOn, RestOn;
      forall i | 0 <= i < fds.Length && fds[i] != null
        ensures FileOk(fds[i]) && OkOn(fds[i], fs.Vol()) && FileRest(fs, fds[i]) == RestOn(fds[i], fs.Vol())
      {
        OkIs(fds[i]);
      }
    }

    /** After a write to the file of fd on the volume v, or none, the table is sound and the others have the same to give. */
    lemma TableAfter(fd: int, v: Volume, size: nat, spare: nat, rest: nat)
      requires fs.Valid() && v.Ok() && OthersOn(fd, v)
      requires if Named(fd) then fds[fd].m == MODE_W && Sole(fd) && OnlyFile(v, fs.Vol(), fds[fd].n.inode, size, spare, rest)
               else fs.Vol() == v && !(0 <= fd < NUM_FDS)
      ensures Valid()
      ensures forall j: int :: Pending(j) == PendingOn(j, v)
    {
      hide FatOf, DataOf, CopyOf, Flat, Chained, FatFs.Vol, Fat.Valid, FatFs.ReadsAt, FileRest, OkOn, RestOn, OnlyFile, Apart;
      forall i | 0 <= i < fds.Length && i != fd && fds[i] != null
        ensures FileOk(fds[i]) && (Named(i) ==> FileRest(fs, fds[i]) == RestOn(fds[i], v))
      {
        if Named(i) {
          OkIs(fds[i]);
        }
        if Named(fd) && Named(i) {
          StillOn(fds[i], v, fs.Vol(), fds[fd].n.inode, size, spare, rest);
        }
      }
      assert Named(fd) ==> FileOk(fds[fd]);
    }

    /**
     Write n bytes to descriptor fd from buf at off, where nobody else has its file open. stale is what the driver's unset
     counter holds. Every other descriptor has still to give what it had.
     */
    method KWrite(fd: int, buf: array<u8>, off: nat, n: int, stale: u32, ghost w: seq<u8>, ghost spare: nat) returns (r: int, ghost rest: nat)
      requires Valid() && Foreign(buf) && -0x8000_0000 <= n < 0x8000_0000 && off + ToU32(n) <= buf.Length
      requires 0 <= fd < NUM_FDS && fds[fd] != null ==> Named(fd)
      requires Named(fd) && fds[fd].m == MODE_W ==> Sole(fd) && fs.Takes(fds[fd].d, fds[fd].n.inode, w, ToU32(n), spare)
      modifies Touched(fd), fs, fs.dev, fs.dev.cbuf, fs.dev.disk
      ensures Valid() && fds[..] == old(fds[..]) && fs.files.Keys == old(fs.files.Keys)
      ensures forall i :: 0 <= i < fds.Length && fds[i] != null ==> fds[i].d == old(fds[i].d)
      ensures forall j: int :: Pending(j) == old(Pending(j))
      ensures !Named(fd) ==> r == -1
      ensures Named(fd) && fds[fd].m != MODE_W ==> r == 0
      ensures !Named(fd) || fds[fd].m != MODE_W ==> fs.Vol() == old(fs.Vol())
      ensures Named(fd) && fds[fd].m == MODE_W ==>
        && r == ToInt(stale) && fs.Given(fds[fd].d, fds[fd].n.inode, w + buf[off..off + ToU32(n)])
        && fds[fd].idx == (old(fds[fd].idx) + stale) % 0x1_0000_0000
        && OnlyFile(old(fs.Vol()), fs.Vol(), fds[fd].n.inode, |w| + ToU32(n), spare, rest)
    {
      hide Fat.Valid, Fat.Coherent, Fat.Mirrored, FatFs.Stored, FatFs.ReadsAt, FatFs.Takes, FatFs.Given, Chained, Geometry.Valid, IsChain;
      hide Grown, FatFs.Vol, FatOf, DataOf, CopyOf, FileRest, Flat, OkOn, Splice, OnlyFile, OthersOn, FileOk, RestOn, FatFs.Formed;
      rest := spare;
      if fd < 0 || fd >= NUM_FDS || fds[fd] == null {
        return -1, rest;
      }
      ghost var v, at := fs.Vol(), if fds[fd].m == MODE_W then fd else -1;
      AllOn(at);
      var t;
      t, rest := PutBytes(fd, at, v, buf, off, ToU32(n), stale, w, spare);
      r := ToInt(t);
      TableAfter(at, v, |w| + ToU32(n), spare, rest);
    }

    /** The write itself: no other open file is touched. */
    method PutBytes(fd: int, ghost at: int, ghost v: Volume, buf: array<u8>, off: nat, c: u32, stale: u32, ghost w: seq<u8>, ghost spare: nat)
      returns (t: u32, ghost rest: nat)
      requires fs.Valid() && v == fs.Vol() && Named(fd) && OthersOn(at, v) && Foreign(buf) && off + c <= buf.Length
      requires fds[fd].m == MODE_W ==> at == fd && fs.Takes(fds[fd].d, fds[fd].n.inode, w, c, spare)
      requires fds[fd].m != MODE_W ==> at == -1
      modifies Touched(fd), fs, fs.dev, fs.dev.cbuf, fs.dev.disk
      ensures fs.Valid() && fds[..] == old(fds[..]) && fs.files.Keys == old(fs.files.Keys)
      ensures forall i :: 0 <= i < fds.Length && fds[i] != null ==> fds[i].d == old(fds[i].d)
      ensures OthersOn(at, v) && forall j: int :: j != at ==> PendingOn(j, v) == old(PendingOn(j, v))
      ensures fds[fd].m != MODE_W ==> t == 0 && fs.Vol() == v
      ensures fds[fd].m == MODE_W ==>
        && t == stale && fs.Given(fds[fd].d, fds[fd].n.inode, w + buf[off..off + c])
        && fds[fd].idx == (old(fds[fd].idx) + stale) % 0x1_0000_0000
        && OnlyFile(v, fs.Vol(), fds[fd].n.inode, |w| + c, spare, rest)
    {
      hide Fat.Valid, Fat.Coherent, Fat.Mirrored, FatFs.Stored, FatFs.ReadsAt, FatFs.Takes, FatFs.Given, Chained, Geometry.Valid, IsChain;
      hide Grown, FatFs.Vol, FatOf, DataOf, CopyOf, Flat, OkOn, RestOn, FatFs.Formed;
      t, rest := FsWrite(fs, fds[fd], c, buf, off, stale, w, spare);
    }

    /** Take a fresh file into the least free slot; -1 for a missing node, a bad mode or a full table. */
    method KOpen(n: FsNode?, m: seq<u8>) returns (r: int)
      requires Valid() && (n != null && n.mask % 2 == 1 ==> Openable(fs, n))
      modifies fds
      ensures Valid()
      ensures r == -1 <==> n == null || ModeOf(m) == None || forall i :: 0 <= i < 32 ==> old(fds[i]) != null
      ensures r == -1 ==> fds[..] == old(fds[..])
      ensures r != -1 ==>
        && 0 <= r < 32 && old(fds[r]) == null && (forall i :: 0 <= i < r ==> old(fds[i]) != null)
        && fresh(fds[r]) && fds[..] == old(fds[..])[r := fds[r]]
        && fds[r].n == n && Some(fds[r].m) == ModeOf(m) && fds[r].idx == 0
        && (Named(r) <==> n.mask % 2 == 1) && (Named(r) ==> fresh(fds[r].d) && fresh(fds[r].d.buf))
        && (Named(r) && fds[r].m == MODE_W ==> fs.Given(fds[r].d, n.inode, []))
    {
      hide Fat.Valid, Fat.Coherent, Fat.Mirrored, FatFs.Stored, FatFs.ReadsAt, FatFs.Given, Chained, Geometry.Valid, IsChain;
      if n == null {
        return -1;
      }
      var md := ParseMode(m);
      if md == None {
        return -1;
      }
      r := 0;
      while r < NUM_FDS && fds[r] != null
        invariant 0 <= r <= NUM_FDS && forall i :: 0 <= i < r ==> fds[i] != null
      {
        r := r + 1;
      }
      if r == NUM_FDS {
        return -1;
      }
      var fp := FsOpen(fs, n, md.value);
      fds[r] := fp;
    }

    /** Closing a written file touches its node and the disk. */
    ghost function Settled(fd: int): set<object>
      reads fds, Files()
    {
      if 3 <= fd && Named(fd) && fds[fd].m == MODE_W then {fds[fd].n, fs.dev.disk} else {}
    }

    /** The directory entry of the file at fd is in no cluster of a file that is open. */
    ghost predicate EntryApart(fd: int, v: Volume)
      requires Named(fd)
      reads fds, Files(), set f | f in Files() :: f.n
    {
      && 2 <= fds[fd].n.implCl < |v.data| && fds[fd].n.implOff + 32 <= v.clsz && fds[fd].n.inode in v.files
      && forall j :: 0 <= j < fds.Length && Named(j) && fds[j].n.inode in v.files ==> fds[fd].n.implCl !in v.files[fds[j].n.inode]
    }

    /** After the file of fd was closed on the volume v, the other open files are as they were. */
    lemma OthersAfterClose(fd: int, v: Volume, w: seq<u8>, len: u32)
      requires fs.Valid() && v.Ok() && Named(fd) && Sole(fd) && OthersOn(fd, v) && EntryApart(fd, v)
      requires Settles(v, fs.Vol(), fds[fd].n.inode, fds[fd].n.implCl, fds[fd].n.implOff, w, len)
      ensures forall i :: 0 <= i < fds.Length && i != fd && fds[i] != null ==> FileOk(fds[i])
      ensures forall i :: 0 <= i < fds.Length && i != fd && Named(i) ==> FileRest(fs, fds[i]) == RestOn(fds[i], v)
    {
      hide FatOf, DataOf, CopyOf, Flat, Chained, FatFs.Vol, Fat.Valid, FatFs.ReadsAt, FileRest, OkOn, RestOn, Settles, Apart;
      forall i | 0 <= i < fds.Length && i != fd && fds[i] != null
        ensures FileOk(fds[i]) && (Named(i) ==> FileRest(fs, fds[i]) == RestOn(fds[i], v))
      {
        if Named(i) {
          OkIs(fds[i]);
          SettledOn(fds[i], v, fs.Vol(), fds[fd].n.inode, fds[fd].n.implCl, fds[fd].n.implOff, w, len);
        }
      }
    }

    /** The driver's part of closing a written file: no other open file is touched. */
    method CloseWritten(fd: int, ghost v: Volume, ghost w: seq<u8>)
      requires fs.Valid() && v == fs.Vol() && 3 <= fd && Named(fd) && fds[fd].m == MODE_W && OthersOn(fd, v)
      requires Sole(fd) && EntryApart(fd, v) && fs.Given(fds[fd].d, fds[fd].n.inode, w)
      modifies Settled(fd)
      ensures fs.Valid() && OthersOn(fd, v) && Sole(fd) && EntryApart(fd, v)
      ensures forall j: int :: j != fd ==> PendingOn(j, v) == old(PendingOn(j, v))
      ensures fds[fd].n.len == fds[fd].idx && unchanged(fds[fd].n`inode, fds[fd].n`implCl, fds[fd].n`implOff)
      ensures Settles(v, fs.Vol(), fds[fd].n.inode, fds[fd].n.implCl, fds[fd].n.implOff, w, fds[fd].idx)
    {
      hide Fat.Valid, Fat.Coherent, Fat.Mirrored, FatFs.Stored, FatFs.ReadsAt, FatFs.Given, Chained, Geometry.Valid, IsChain, FatOf, DataOf, CopyOf;
      hide OkOn, RestOn, Flat, Settles, Splice, FatFs.Vol, FatFs.Formed;
      FsClose(fs, fds[fd], w);
    }

    /**
     Close descriptor fd; the first three are never closed. A file that was written gets its length, as its index says, and
     holds the bytes its cursor was given, if nobody else has it open; every other descriptor has still to give what it had.
     */
    method KClose(fd: int, ghost w: seq<u8>)
      requires Valid()
      requires 3 <= fd && Named(fd) && fds[fd].m == MODE_W ==>
        Sole(fd) && EntryApart(fd, fs.Vol()) && fs.Given(fds[fd].d, fds[fd].n.inode, w)
      modifies fds, Settled(fd)
      ensures Valid()
      ensures fds[..] == if 3 <= fd < NUM_FDS then old(fds[..])[fd := null] else old(fds[..])
      ensures forall j: int :: j != fd ==> Pending(j) == old(Pending(j))
      ensures old(3 <= fd && Named(fd) && fds[fd].m == MODE_W) ==>
        var n, len := old(fds[fd].n), old(fds[fd].idx);
        && n.len == len && unchanged(n`inode, n`implCl, n`implOff)
        && Settles(old(fs.Vol()), fs.Vol(), n.inode, n.implCl, n.implOff, w, len)
    {
      hide Fat.Valid, Fat.Coherent, Fat.Mirrored, FatFs.Stored, FatFs.ReadsAt, FatFs.Given, Chained, Geometry.Valid, IsChain, FatOf, DataOf, CopyOf, FileRest;
      hide OkOn, RestOn, Flat, Settles, FatFs.Vol;
      if fd < 3 || fd >= NUM_FDS || fds[fd] == null {
        return;
      }
      if fds[fd].d != null && fds[fd].m == MODE_W {
        ghost var v := fs.Vol();
        AllOn(fd);
        CloseWritten(fd, v, w);
        OthersAfterClose(fd, v, w, fds[fd].idx);
      }
      fds[fd] := null;
    }
  }

  /** An open file on a volume: a read cursor is where the file's index says. */
  ghost predicate OkOn(f: FsFile, v: Volume)
    requires v.Ok()
    reads f, f.n, f.d, if f.d == null then {} else {f.d.buf}
  {
    f.d != null && f.m == MODE_R ==>
      && f.idx <= |v.Stored(f.n.inode)|
      && if f.n.inode in v.files then ReaderAt(f.d, v.data, v.files[f.n.inode], v.clsz, f.idx) else f.n.len == 0
  }

  /** The bytes of an open file from its index on, up to its length or the end of its chain. */
  ghost function RestOn(f: FsFile, v: Volume): seq<u8>
    requires v.Ok()
    reads f, f.n
  {
    RestAt(v.Stored(f.n.inode), f.idx, f.n.len)
  }

  /** What reading gives from an index on. */
  function RestAt(all: seq<u8>, idx: nat, len: nat): seq<u8> {
    if idx <= Min(len, |all|) then all[idx..Min(len, |all|)] else []
  }

  lemma RestTaken(all: seq<u8>, idx: nat, len: nat, c: nat)
    requires idx <= |all|
    ensures var t, rest := ReadCount(idx, c, len, |all|), RestAt(all, idx, len);
      t == Min(c, |rest|) && idx + t <= |all| && all[idx..idx + t] == rest[..t] && RestAt(all, idx + t, len) == rest[t..]
  {
    var t, rest := ReadCount(idx, c, len, |all|), RestAt(all, idx, len);
    var end := Min(len, |all|);
    if idx < end {
      assert all[idx..end][..t] == all[idx..idx + t] && all[idx..end][t..] == all[idx + t..end];
    } else {
      assert rest == [] && all[idx..idx] == [];
    }
  }

  ghost function ToGive(f: FsFile, v: Volume): seq<u8>
    requires v.Ok()
    reads f, f.n
  {
    if f.m == MODE_R then RestOn(f, v) else []
  }

  /** What a write to file h leaves of the volume for everybody else: only chain h may have changed. */
  ghost predicate OnlyFile(v: Volume, v': Volume, h: nat, size: nat, spare: nat, rest: nat)
    requires v.Ok() && v'.Ok()
  {
    if h in v.files then Grown(v, v', h, size, spare, rest) else v' == v && rest == spare
  }

  /** An open file that is not the one written to is where it was and has the same bytes still to give. */
  lemma StillOn(f: FsFile, v: Volume, v': Volume, h: nat, size: nat, spare: nat, rest: nat)
    requires v.Ok() && v'.Ok() && OnlyFile(v, v', h, size, spare, rest) && f.n.inode != h && OkOn(f, v)
    ensures OkOn(f, v') && RestOn(f, v') == RestOn(f, v)
  {
    hide Flat, Chained;
    var k := f.n.inode;
    if h in v.files && k in v.files {
      GrownSpares(v, v', h, k, size, spare, rest);
      if f.d != null && f.m == MODE_R {
        WritingSparesReaders(f.d, v, v', h, k, size, spare, rest, f.idx);
      }
    }
  }

  lemma SettledOn(f: FsFile, v: Volume, v': Volume, h: nat, c: nat, off: nat, w: seq<u8>, len: u32)
    requires v.Ok() && v'.Ok() && Settles(v, v', h, c, off, w, len) && f.n.inode != h && OkOn(f, v)
    requires f.n.inode in v.files ==> c !in v.files[f.n.inode]
    ensures OkOn(f, v') && RestOn(f, v') == RestOn(f, v)
  {
    var k := f.n.inode;
    if k in v.files && f.d != null && f.m == MODE_R {
      assert Disjoint(v.files[k], v.files[h]);
      FlatFrame(v.data, v'.data, v.files[k][..f.d.k]);
    }
  }

  method ParseMode(m: seq<u8>) returns (md: Option<u32>)
    ensures md == ModeOf(m)
  {
    var r, w := false, false;
    for i := 0 to |m|
      invariant r <==> 'r' as u8 in m[..i]
      invariant w <==> 'w' as u8 in m[..i]
      invariant forall k :: 0 <= k < i ==> m[k] == 'r' as u8 || m[k] == 'w' as u8
    {
      if m[i] == 'r' as u8 {
        r := true;
      } else if m[i] == 'w' as u8 {
        w := true;
      } else {
        return None;
      }
    }
    md := Some((if r then MODE_R else 0) + (if w then MODE_W else 0));
    assert m[..|m|] == m;
  }

  /** The bytes of an open file from its index on, up to its length or the end of its chain. */
  ghost function FileRest(fs: FatFs, f: FsFile): seq<u8>
    requires fs.Formed()
    reads fs, fs.dev.disk, f, f.n
  {
    RestAt(fs.Stored(f.n.inode), f.idx, f.n.len)
  }

  /** How many bytes a script of reads asks of descriptor fd. */
  function Asked(script: seq<(int, u32)>, fd: int): nat {
    if script == [] then 0
    else Asked(script[..|script| - 1], fd) + if script[|script| - 1].0 == fd then script[|script| - 1].1 else 0
  }

  lemma SpliceAtStart(before: seq<u8>, d: seq<u8>)
    requires |d| <= |before|
    ensures |Splice(before, 0, d)| == |before| && Splice(before, 0, d)[..|d|] == d
  {
  }

  /** Of the bytes p that were pending, as many as were asked for came out, or all, and the rest is pending still. */
  predicate Served(out: seq<u8>, p: seq<u8>, rest: seq<u8>, asked: nat) {
    out == p[..Min(asked, |p|)] && rest == p[Min(asked, |p|)..]
  }

  lemma ServedMore(p: seq<u8>, out: seq<u8>, rest: seq<u8>, asked: nat, out': seq<u8>, rest': seq<u8>, n: nat)
    requires Served(out, p, rest, asked) && Served(out', rest, rest', n)
    ensures Served(out + out', p, rest', asked + n)
  {
  }

  /** A buffer that no open file uses. */
  method FreshBuffer(t: FdTable, n: nat) returns (buf: array<u8>)
    requires t.Valid()
    ensures fresh(buf) && buf.Length == n && t.Valid() && t.Foreign(buf)
    ensures forall j: int :: t.Pending(j) == old(t.Pending(j))
  {
    hide Fat.Valid, FatFs.Stored, FatFs.ReadsAt, Chained, Geometry.Valid, FileRest, IsChain, FatOf, DataOf, CopyOf;
    buf := new u8[n];
  }

  /** One turn of one reader. */
  method ServeOne(t: FdTable, fd: int, n: u32) returns (out: seq<u8>)
    requires t.Valid()
    requires 0 <= fd < NUM_FDS && t.fds[fd] != null ==> t.Named(fd)
    modifies t.Touched(fd), t.fs.dev, t.fs.dev.cbuf
    ensures t.Valid() && t.fds[..] == old(t.fds[..])
    ensures forall i :: 0 <= i < NUM_FDS && t.fds[i] != null ==> t.fds[i].d == old(t.fds[i].d)
    ensures Served(out, old(t.Pending(fd)), t.Pending(fd), n)
    ensures forall j :: j != fd ==> t.Pending(j) == old(t.Pending(j))
    ensures t.Named(fd) && t.fds[fd].m != MODE_R ==> At(t.fds[fd]) == old(At(t.fds[fd]))
  {
    hide Fat.Valid, FatFs.Stored, FatFs.ReadsAt, Chained, Geometry.Valid, FileRest, IsChain, FatOf, DataOf, CopyOf;
    hide FdTable.Valid, FdTable.Pending, FdTable.Foreign, Splice;
    ghost var p, k := t.Pending(fd), Min(n, |t.Pending(fd)|);
    t.NothingPending(fd);
    assert p == p[..k] + p[k..];
    var buf := FreshBuffer(t, n);
    ghost var before := buf[..];
    assert ToU32(ToInt(n)) == n && ToU32(ToInt(k)) == k;
    var r := t.KRead(fd, buf, 0, ToInt(n));
    SpliceAtStart(before, p[..k]);
    out := if 0 <= fd < NUM_FDS && t.fds[fd] != null then buf[..ToU32(r)] else [];
    assert out == p[..k];
  }

  /**
   Readers taking turns in any order: what each descriptor hands out, put together, is the start of what
   it had pending, as long as was asked of it, whatever the other descriptors and the shared FAT cache do.
   */
  method Serve(t: FdTable, script: seq<(int, u32)>) returns (outs: seq<seq<u8>>)
    requires t.Valid()
    requires forall i :: 0 <= i < |script| && 0 <= script[i].0 < NUM_FDS && t.fds[script[i].0] != null ==> t.Named(script[i].0)
    modifies t.Files(), t.Cursors(), t.Buffers(), t.fs.dev, t.fs.dev.cbuf
    ensures t.Valid() && |outs| == NUM_FDS && t.fds[..] == old(t.fds[..])
    ensures forall j :: 0 <= j < NUM_FDS && t.fds[j] != null ==> t.fds[j].d == old(t.fds[j].d)
    ensures forall j :: 0 <= j < NUM_FDS ==> Served(outs[j], old(t.Pending(j)), t.Pending(j), Asked(script, j))
  {
    hide Fat.Valid, FatFs.Stored, FatFs.ReadsAt, Chained, Geometry.Valid, FileRest, IsChain, FatOf, DataOf, CopyOf;
    hide FdTable.Pending, FdTable.FileOk, FdTable.Apart, FdTable.Files, FdTable.Cursors, FdTable.Buffers, FdTable.Touched, Splice, Served, Volume.Ok, FatFs.Formed;
    if script == [] {
      outs := seq(NUM_FDS, _ => []);
      NothingServed(t);
    } else {
      var (fd, n) := script[|script| - 1];
      t.TouchedInside(fd);
      ghost var touched := t.Touched(fd);
      outs := Serve(t, script[..|script| - 1]);
      t.TouchedIs(fd);
      assert t.Touched(fd) == touched;
      ghost var rest := if 0 <= fd < NUM_FDS then t.Pending(fd) else [];
      var out := ServeOne(t, fd, n);
      if 0 <= fd < NUM_FDS {
        ServedMore(old(t.Pending(fd)), outs[fd], rest, Asked(script[..|script| - 1], fd), out, t.Pending(fd), n);
        outs := outs[fd := outs[fd] + out];
      }
    }
  }

  lemma NothingServed(t: FdTable)
    requires t.Valid()
    ensures forall j :: 0 <= j < NUM_FDS ==> Served([], t.Pending(j), t.Pending(j), 0)
  {
    hide FdTable.Pending, FdTable.Valid;
  }
}
