/** Opening, using and closing a file in one go, as programs do. */
module Calls {
  import opened Bytes
  import opened FatDisk
  import opened Chains
  import opened FsTypes
  import opened FatFile
  import opened FileIo
  import opened Descriptors
  import opened Image

  /** No open file is the one at h. */
  ghost predicate Unopened(t: FdTable, h: nat)
    reads t.fds, t.Files(), set f | f in t.Files() :: f.n
  {
    forall j :: 0 <= j < t.fds.Length && t.Named(j) ==> t.fds[j].n.inode != h
  }

  /** Open for reading, which is what "r" says, read up to size bytes, and close. */
  method ReadFile(t: FdTable, n: FsNode, size: u32) returns (fd: int, out: seq<u8>)
    requires t.Valid() && ConsoleOpen(t) && n.mask % 2 == 1 && Openable(t.fs, n)
    modifies t.fds, t.fs.dev, t.fs.dev.cbuf
    ensures t.Valid() && t.fds[..] == old(t.fds[..])
    ensures fd == -1 <==> !HasSlot(t)
    ensures fd != -1 ==> out == Whole(t.fs, n)[..Min(size, |Whole(t.fs, n)|)]
  {
    hide Fat.Valid, FatFs.Given, FatFs.Stored, FatFs.ReadsAt, FatFs.Vol, Volume.Ok, Whole, Chained, Geometry.Valid, IsChain, FatOf, DataOf, CopyOf, Splice;
    hide FdTable.Pending, FileRest, FdTable.FileOk, FdTable.Apart, OkOn, FdTable.Sole, FdTable.EntryApart, Settles;
    ModeLetters();
    out := [];
    fd := t.KOpen(n, ['r' as u8]);
    if fd == -1 {
      return;
    }
    FreshPending(t, fd);
    out := ReadAndClose(t, fd, size);
  }

  method ReadAndClose(t: FdTable, fd: int, size: u32) returns (out: seq<u8>)
    requires t.Valid() && 3 <= fd && t.Named(fd) && t.fds[fd].m == MODE_R
    modifies t.Touched(fd), t.fds, t.fs.dev, t.fs.dev.cbuf
    ensures t.Valid() && t.fds[..] == old(t.fds[..])[fd := null]
    ensures out == old(t.Pending(fd))[..Min(size, |old(t.Pending(fd))|)]
  {
    hide Fat.Valid, FatFs.Stored, FatFs.ReadsAt, Chained, Geometry.Valid, IsChain, FatOf, DataOf, CopyOf, Splice;
    hide FdTable.Pending, FileRest, FdTable.FileOk, FdTable.Apart, OkOn, FdTable.Sole, FdTable.EntryApart, Settles;
    out := ServeOne(t, fd, size);
    t.KClose(fd, []);
  }

  /** The directory entry that n remembers is in a chain that no open file and not n itself has. */
  ghost predicate EntryFree(t: FdTable, n: FsNode, v: Volume)
    reads t.fds, t.Files(), set f | f in t.Files() :: f.n, n
  {
    && n.implOff + 32 <= v.clsz
    && exists dir :: dir in v.files && dir != n.inode && n.implCl in v.files[dir] && Unopened(t, dir)
  }

  /** Open for writing, which is what "w" says: a cursor at the start of the file, which nobody else has open; buf is no part of it. */
  method OpenToWrite(t: FdTable, n: FsNode, buf: array<u8>) returns (fd: int)
    requires t.Valid() && ConsoleOpen(t) && n.mask % 2 == 1 && n.inode in t.fs.files && Unopened(t, n.inode) && EntryFree(t, n, t.fs.Vol())
    requires t.Foreign(buf)
    modifies t.fds
    ensures t.Valid() && t.fs.Vol() == old(t.fs.Vol()) && t.Foreign(buf)
    ensures fd == -1 <==> !old(HasSlot(t))
    ensures fd == -1 ==> t.fds[..] == old(t.fds[..])
    ensures fd != -1 ==>
      && 3 <= fd < 32 && t.Named(fd) && fresh(t.fds[fd]) && fresh(t.fds[fd].d) && fresh(t.fds[fd].d.buf)
      && t.fds[..] == old(t.fds[..])[fd := t.fds[fd]] && old(t.fds[fd]) == null
      && t.fds[fd].n == n && t.fds[fd].m == MODE_W && t.fds[fd].idx == 0
      && t.Sole(fd) && t.fs.Given(t.fds[fd].d, n.inode, []) && EntryFree(t, n, t.fs.Vol())
  {
    hide Fat.Valid, FatFs.Stored, FatFs.ReadsAt, FatFs.Given, Chained, Geometry.Valid, IsChain, FatOf, DataOf, CopyOf, Splice;
    hide FdTable.Pending, FileRest, FdTable.FileOk, FdTable.Apart, OkOn, FdTable.EntryApart, Settles;
    ModeLetters();
    fd := t.KOpen(n, ['w' as u8]);
  }

  /** The directory entry is in no open file's cluster, also after the file has grown. */
  lemma EntryStays(t: FdTable, fd: int, n: FsNode, v: Volume, v': Volume, size: nat, spare: nat, rest: nat)
    requires v.Ok() && v'.Ok() && t.Named(fd) && t.fds[fd].n == n && n.inode in v.files
    requires EntryFree(t, n, v) && Grown(v, v', n.inode, size, spare, rest)
    ensures t.EntryApart(fd, v')
    ensures n.implCl !in v'.files[n.inode]
  {
    hide CanGrow, Relinked;
    var dir :| dir in v.files && dir != n.inode && n.implCl in v.files[dir] && Unopened(t, dir);
    forall j | 0 <= j < t.fds.Length && t.Named(j) && t.fds[j].n.inode in v'.files
      ensures n.implCl !in v'.files[t.fds[j].n.inode]
    {
      assert Disjoint(v'.files[dir], v'.files[t.fds[j].n.inode]);
    }
  }

  /** Write the whole of buf to a file just opened for it, and close. */
  method WriteAndClose(t: FdTable, fd: int, n: FsNode, buf: array<u8>, stale: u32, ghost spare: nat)
    requires t.Valid() && 3 <= fd && t.Named(fd) && t.fds[fd].n == n && t.fds[fd].m == MODE_W && t.fds[fd].idx == 0 && t.Sole(fd)
    requires n.inode in t.fs.files && t.fs.Given(t.fds[fd].d, n.inode, []) && EntryFree(t, n, t.fs.Vol())
    requires t.Foreign(buf) && buf.Length < 0x1_0000_0000 && HasRoom(t.fs.Vol(), n.inode, buf.Length, spare)
    modifies t.Touched(fd), t.fds, n, t.fs, t.fs.dev, t.fs.dev.cbuf, t.fs.dev.disk
    ensures t.Valid() && t.fds[..] == old(t.fds[..])[fd := null]
    ensures n.len == stale && n.inode == old(n.inode) && n.implCl == old(n.implCl) && n.implOff == old(n.implOff)
    ensures StoreEffect(old(t.fs.Vol()), t.fs.Vol(), n.inode, n.implCl, n.implOff, old(buf[..]), stale)
    ensures forall j: int :: j != fd ==> t.Pending(j) == old(t.Pending(j))
  {
    hide Fat.Valid, FatFs.Stored, FatFs.ReadsAt, FatFs.Given, FatFs.Takes, Chained, Geometry.Valid, IsChain, FatOf, DataOf, CopyOf, Splice, FatFs.Vol;
    hide FdTable.Pending, FileRest, FdTable.FileOk, FdTable.Apart, OkOn, FdTable.EntryApart, Settles, StoreEffect, Grown, HasRoom, Volume.Ok;
    ghost var v, w := t.fs.Vol(), buf[..];
    t.fs.RoomTakes(t.fds[fd].d, n.inode, [], buf.Length, spare);
    TwosComplement(ToInt(buf.Length), buf.Length);
    assert buf[0..0 + buf.Length] == w && [] + w == w;
    var r;
    ghost var rest;
    r, rest := t.KWrite(fd, buf, 0, ToInt(buf.Length), stale, [], spare);
    ghost var v1 := t.fs.Vol();
    EntryStays(t, fd, n, v, v1, buf.Length, spare, rest);
    t.KClose(fd, w);
    WrittenThenClosed(v, v1, t.fs.Vol(), n.inode, n.implCl, n.implOff, w, stale, spare, rest);
  }

  /**
   Open for writing, write a buffer in one call, and close: its bytes are the start of the file, whose entry gets the length that
   the unset counter claims, and every other file keeps its contents.
   */
  method WriteFile(t: FdTable, n: FsNode, buf: array<u8>, stale: u32, ghost spare: nat) returns (fd: int)
    requires t.Valid() && ConsoleOpen(t) && n.mask % 2 == 1 && n.inode in t.fs.files && Unopened(t, n.inode) && EntryFree(t, n, t.fs.Vol())
    requires t.Foreign(buf) && buf.Length < 0x1_0000_0000 && HasRoom(t.fs.Vol(), n.inode, buf.Length, spare)
    modifies t.fds, n, t.fs, t.fs.dev, t.fs.dev.cbuf, t.fs.dev.disk
    ensures t.Valid() && t.fds[..] == old(t.fds[..])
    ensures n.inode == old(n.inode) && n.implCl == old(n.implCl) && n.implOff == old(n.implOff)
    ensures fd == -1 <==> !old(HasSlot(t))
    ensures fd == -1 ==> t.fs.Vol() == old(t.fs.Vol())
    ensures fd != -1 ==>
      n.len == stale && StoreEffect(old(t.fs.Vol()), t.fs.Vol(), n.inode, n.implCl, n.implOff, old(buf[..]), stale)
  {
    hide *;
    TableFormed(t);
    fd := OpenToWrite(t, n, buf);
    if fd != -1 {
      t.TouchedIs(fd);
      WriteAndClose(t, fd, n, buf, stale, spare);
    }
  }

  lemma TableFormed(t: FdTable)
    requires t.Valid()
    ensures t.fs.Formed()
  {
  }
}
