/** Loading an executable image: a nine-byte header, read and checked first, then the rest behind it. */
module Image {
  import opened Bytes
  import opened FatDisk
  import opened Chains
  import opened FsTypes
  import opened FatFile
  import opened Wrappers
  import opened FileIo
  import opened Descriptors

  const HEADER: nat := 9
  const READ_MODE: seq<u8> := ['r' as u8]

  /** The signature bytes lie behind the jump code and the entry point. */
  predicate Signed(h: seq<u8>)
    requires HEADER <= |h|
  {
    h[5] == 0 && h[6] == 'A' as u8 && h[7] == 'B' as u8
  }

  /** The console keeps the first three descriptors. */
  ghost predicate ConsoleOpen(t: FdTable)
    reads t.fds
  {
    t.fds.Length == NUM_FDS && t.fds[0] != null && t.fds[1] != null && t.fds[2] != null
  }

  /** The bytes a file can give from its start: up to its length or the end of its chain. */
  ghost function Whole(fs: FatFs, n: FsNode): seq<u8>
    requires fs.Formed()
    reads fs, fs.dev.disk, n
  {
    fs.Stored(n.inode)[..Min(n.len, |fs.Stored(n.inode)|)]
  }

  /** A free slot in the table. */
  ghost predicate HasSlot(t: FdTable)
    reads t.fds
  {
    exists i :: 0 <= i < t.fds.Length && t.fds[i] == null
  }

  /** A file just opened for reading has all its bytes pending. */
  lemma FreshPending(t: FdTable, fd: int)
    requires t.Valid() && t.Named(fd) && t.fds[fd].m == MODE_R && t.fds[fd].idx == 0
    ensures t.Pending(fd) == Whole(t.fs, t.fds[fd].n)
  {
    hide Fat.Valid, FatFs.Stored, FatFs.ReadsAt, Chained, Geometry.Valid, IsChain, FatOf, DataOf, CopyOf;
    assert t.FileOk(t.fds[fd]);
  }

  /** The header buffer after the first read: a file shorter than a header leaves the rest as the stack had it. */
  function Head(all: seq<u8>, stack: seq<u8>): (h: seq<u8>)
    requires |stack| == HEADER
    ensures |h| == HEADER
  {
    Splice(stack, 0, all[..Min(HEADER, |all|)])
  }

  /**
   Which images load, by the bytes: of a file of at least nine bytes, bytes 5 to 7 must be 0x00, 'A', 'B'. Of a shorter one,
   what the stack held stands in for what is missing.
   */
  lemma SignedIs(all: seq<u8>, stack: seq<u8>)
    requires |stack| == 9
    ensures |Head(all, stack)| == 9
    ensures 9 <= |all| ==> (Signed(Head(all, stack)) <==> all[5..8] == [0x00, 0x41, 0x42])
    ensures |all| < 9 ==> (Signed(Head(all, stack)) <==> (all + stack[|all|..])[5..8] == [0x00, 0x41, 0x42])
  {
    var h := if 9 <= |all| then all else all + stack[|all|..];
    assert forall k :: 0 <= k < 9 ==> Head(all, stack)[k] == h[k];
    assert |h[5..8]| == 3 && h[5..8][0] == h[5] && h[5..8][1] == h[6] && h[5..8][2] == h[7];
  }

  /** What is put to memory: the header buffer, then what is left of the file. */
  function ImageOf(all: seq<u8>, stack: seq<u8>): (m: seq<u8>)
    requires |stack| == HEADER
  {
    Head(all, stack) + all[Min(HEADER, |all|)..]
  }

  /** A file of nine bytes or more is loaded byte for byte, whatever the stack held; a shorter one is filled up from it. */
  lemma ImageIsFile(all: seq<u8>, stack: seq<u8>)
    requires |stack| == 9
    ensures 9 <= |all| ==> ImageOf(all, stack) == all && Head(all, stack) == all[..9]
    ensures |all| < 9 ==> ImageOf(all, stack) == Head(all, stack) == all + stack[|all|..]
  {
  }

  /** The two reads: header to a buffer of its own, and if it is signed, it and the rest to memory. */
  method LoadParts(t: FdTable, fd: int, len: u32, mem: array<u8>, base: nat, stack: seq<u8>, ghost all: seq<u8>) returns (ok: bool)
    requires t.Valid() && t.Named(fd) && t.Foreign(mem) && t.Pending(fd) == all && |stack| == HEADER
    requires |all| <= len && base + |ImageOf(all, stack)| <= mem.Length
    modifies t.Touched(fd), t.fs.dev, t.fs.dev.cbuf, mem
    ensures t.Valid() && t.fds[..] == old(t.fds[..])
    ensures ok <==> Signed(Head(all, stack))
    ensures mem[..] == if ok then Splice(old(mem[..]), base, ImageOf(all, stack)) else old(mem[..])
  {
    hide Fat.Valid, FatFs.Stored, FatFs.ReadsAt, Chained, Geometry.Valid, IsChain, FatOf, DataOf, CopyOf, FdTable.FileOk;
    hide FileRest, Splice;
    var hdr := new u8[HEADER](i requires 0 <= i < HEADER => stack[i]);
    assert hdr[..] == stack;
    var r := t.KRead(fd, hdr, 0, HEADER);
    assert hdr[..] == Head(all, stack);
    if hdr[5] != 0 || hdr[6] != 'A' as u8 || hdr[7] != 'B' as u8 {
      return false;
    }
    LoadRest(t, fd, len, mem, base, hdr, all);
    return true;
  }

  /** Copy the header buffer to memory and read the rest of the file behind it. */
  method LoadRest(t: FdTable, fd: int, len: u32, mem: array<u8>, base: nat, hdr: array<u8>, ghost all: seq<u8>)
    requires t.Valid() && t.Named(fd) && t.Foreign(mem) && hdr != mem && hdr.Length == HEADER
    requires |all| <= len && t.Pending(fd) == all[Min(HEADER, |all|)..]
    requires base + HEADER + |t.Pending(fd)| <= mem.Length
    modifies t.Touched(fd), t.fs.dev, t.fs.dev.cbuf, mem
    ensures t.Valid() && t.fds[..] == old(t.fds[..])
    ensures mem[..] == Splice(old(mem[..]), base, old(hdr[..]) + old(t.Pending(fd)))
  {
    hide Fat.Valid, FatFs.Stored, FatFs.ReadsAt, Chained, Geometry.Valid, IsChain, FatOf, DataOf, CopyOf, FdTable.FileOk;
    hide FileRest, Splice;
    ghost var h, rest, before := hdr[..], t.Pending(fd), mem[..];
    CopyHeader(hdr, mem, base);
    ghost var m := mem[..];
    var left := ToInt((len - HEADER) % 0x1_0000_0000);
    RestFits(len, |all|);
    assert rest[..|rest|] == rest;
    var r := t.KRead(fd, mem, base + HEADER, left);
    TwoSplices(before, base, h, rest);
  }

  /** The second read asks for enough, also when the length less the header wraps around. */
  lemma RestFits(len: u32, n: nat)
    requires n <= len
    ensures var left := ToInt((len - HEADER) % 0x1_0000_0000);
      -0x8000_0000 <= left < 0x8000_0000 && n - Min(HEADER, n) <= ToU32(left)
  {
  }

  lemma TwoSplices(m: seq<u8>, base: nat, h: seq<u8>, rest: seq<u8>)
    requires |h| == HEADER && base + HEADER + |rest| <= |m|
    ensures Splice(Splice(m, base, h), base + HEADER, rest) == Splice(m, base, h + rest)
  {
  }

  method CopyHeader(hdr: array<u8>, mem: array<u8>, base: nat)
    requires hdr != mem && hdr.Length == HEADER && base + HEADER <= mem.Length
    modifies mem
    ensures mem[..] == Splice(old(mem[..]), base, hdr[..])
  {
    forall k | 0 <= k < HEADER {
      mem[base + k] := hdr[k];
    }
  }

  /** Read the image from an open descriptor and close it. */
  method LoadAndClose(t: FdTable, fd: int, len: u32, mem: array<u8>, base: nat, stack: seq<u8>, ghost all: seq<u8>) returns (ok: bool)
    requires t.Valid() && 3 <= fd && t.Named(fd) && t.fds[fd].m == MODE_R && t.Foreign(mem) && t.Pending(fd) == all && |stack| == HEADER
    requires |all| <= len && base + |ImageOf(all, stack)| <= mem.Length
    modifies t.Touched(fd), t.fds, t.fs.dev, t.fs.dev.cbuf, mem
    ensures t.Valid() && t.fds[..] == old(t.fds[..])[fd := null]
    ensures ok <==> Signed(Head(all, stack))
    ensures mem[..] == if ok then Splice(old(mem[..]), base, ImageOf(all, stack)) else old(mem[..])
  {
    hide Fat.Valid, FatFs.Stored, FatFs.ReadsAt, Chained, Geometry.Valid, IsChain, FatOf, DataOf, CopyOf, Splice;
    hide FdTable.Pending, Signed, ImageOf, Head, FileRest, FdTable.FileOk, FdTable.Apart, OkOn, FdTable.Sole, FdTable.EntryApart, Settles;
    ok := LoadParts(t, fd, len, mem, base, stack, all);
    t.KClose(fd, []);
  }

  /** Load the image of n to memory at base; stack is what the header buffer held before. */
  method AbinLoad(t: FdTable, n: FsNode?, mem: array<u8>, base: nat, stack: seq<u8>) returns (res: int)
    requires t.Valid() && ConsoleOpen(t) && t.Foreign(mem) && |stack| == HEADER
    requires n != null ==> n.mask % 2 == 1 && Openable(t.fs, n) && base + |ImageOf(Whole(t.fs, n), stack)| <= mem.Length
    modifies t.fds, t.fs.dev, t.fs.dev.cbuf, mem
    ensures t.Valid() && t.fds[..] == old(t.fds[..])
    ensures res == 0 || res == -1
    ensures res == 0 <==> n != null && HasSlot(t) && Signed(Head(Whole(t.fs, n), stack))
    ensures n != null && HasSlot(t) && 9 <= |Whole(t.fs, n)| ==> (res == 0 <==> Whole(t.fs, n)[5..8] == [0x00, 0x41, 0x42])
    ensures res == 0 ==> mem[..] == Splice(old(mem[..]), base, ImageOf(Whole(t.fs, n), stack))
    ensures res == -1 ==> mem[..] == old(mem[..])
  {
    hide Fat.Valid, FatFs.Stored, FatFs.ReadsAt, Chained, Geometry.Valid, IsChain, FatOf, DataOf, CopyOf, Splice;
    hide FdTable.Pending, Signed, ImageOf, Head, FileRest, FdTable.FileOk, FdTable.Apart, OkOn, FdTable.Sole, FdTable.EntryApart, Settles;
    assert ModeOf(READ_MODE) == Some(MODE_R);
    if n != null {
      SignedIs(Whole(t.fs, n), stack);
    }
    var fd := t.KOpen(n, READ_MODE);
    if fd < 0 {
      return -1;
    }
    FreshPending(t, fd);
    var ok := LoadAndClose(t, fd, n.len, mem, base, stack, Whole(t.fs, n));
    res := if ok then 0 else -1;
  }
}
