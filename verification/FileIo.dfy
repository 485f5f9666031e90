/** Open files above the driver, and whole sessions of them: what is written is what is read back. */
module FileIo {
  import opened Bytes
  import opened FatDisk
  import opened Chains
  import opened FsTypes
  import opened FatFile

  const NUM_FDS: nat := 32

  /** Open a node; only odd masks (files, not directories) reach the driver's callback. */
  method FsOpen(fs: FatFs, n: FsNode, m: u32) returns (fp: FsFile)
    requires fs.Valid() && (n.mask % 2 == 1 ==> fs.Opens(n.inode))
    ensures fs.Valid() && fresh(fp) && fp.n == n && fp.m == m && fp.idx == 0
    ensures n.mask % 2 == 0 ==> fp.d == null
    ensures n.mask % 2 == 1 ==> fp.d != null && fresh(fp.d) && fresh(fp.d.buf)
    ensures n.mask % 2 == 1 && m == MODE_R && Openable(fs, n) ==> fs.ReadsAt(fp.d, n.inode, 0, n.len)
    ensures n.mask % 2 == 1 && m == MODE_W ==> fs.Given(fp.d, n.inode, [])
  {
    fp := new FsFile(n, m);
    if n.mask % 2 != 0 {
      fs.FatOpen(fp);
    }
  }

  /** A file that can be opened and read: its number names a chain, or is 0 or 1 and its length is 0. */
  ghost predicate Openable(fs: FatFs, n: FsNode)
    reads fs, n
  {
    fs.Opens(n.inode) && (n.inode in fs.files || n.len == 0)
  }

  method FsRead(fs: FatFs, fp: FsFile, c: u32, buf: array<u8>, off: nat) returns (r: u32)
    requires fs.Valid() && fp.d != null
    requires fs.Outside(buf) && fs.Outside(fp.d.buf) && buf != fp.d.buf
    requires fp.m == MODE_R ==>
      && fs.ReadsAt(fp.d, fp.n.inode, fp.idx, fp.n.len)
      && off + ReadCount(fp.idx, c, fp.n.len, |fs.Stored(fp.n.inode)|) <= buf.Length
    modifies fp, fp.d, fp.d.buf, buf, fs.dev, fs.dev.cbuf
    ensures fs.Valid() && fp.d == old(fp.d)
    ensures fp.m != MODE_R ==> r == 0 && buf[..] == old(buf[..]) && unchanged(fp) && unchanged(fp.d) && unchanged(fp.d.buf)
    ensures fp.m == MODE_R ==>
      && r == ReadCount(old(fp.idx), c, fp.n.len, |fs.Stored(fp.n.inode)|)
      && fp.idx == old(fp.idx) + r <= |fs.Stored(fp.n.inode)|
      && fs.ReadsAt(fp.d, fp.n.inode, fp.idx, fp.n.len)
      && buf[..] == Splice(old(buf[..]), off, fs.Stored(fp.n.inode)[old(fp.idx)..fp.idx])
  {
    hide Fat.Valid, FatFs.Stored, FatFs.ReadsAt, Splice, Chained, Geometry.Valid;
    r := fs.FatRead(fp, c, buf, off);
    assert fp.idx + r < 0x1_0000_0000;
    fp.idx := fp.idx + r;
  }

  /** Write c bytes; the cursor in the file moves by whatever the driver's unset counter held. In other modes nothing happens. */
  method FsWrite(fs: FatFs, fp: FsFile, c: u32, buf: array<u8>, off: nat, stale: u32, ghost w: seq<u8>, ghost spare: nat)
    returns (r: u32, ghost rest: nat)
    requires fs.Valid() && fp.d != null
    requires fs.Outside(buf) && fs.Outside(fp.d.buf) && buf != fp.d.buf && off + c <= buf.Length
    requires fp.m == MODE_W ==> fs.Takes(fp.d, fp.n.inode, w, c, spare)
    modifies fs, fp, fp.d, fp.d.buf, fs.dev, fs.dev.cbuf, fs.dev.disk
    ensures fs.Valid() && fp.d == old(fp.d) && fs.files.Keys == old(fs.files.Keys)
    ensures fp.m != MODE_W ==>
      r == 0 && unchanged(fp) && fs.Vol() == old(fs.Vol()) && unchanged(fp.d) && unchanged(fp.d.buf)
    ensures fp.m == MODE_W ==>
      && r == stale && fp.idx == (old(fp.idx) + stale) % 0x1_0000_0000
      && fs.Given(fp.d, fp.n.inode, w + buf[off..off + c])
      && (if fp.n.inode in fs.files then Grown(old(fs.Vol()), fs.Vol(), fp.n.inode, |w| + c, spare, rest)
          else rest == spare && fs.Vol() == old(fs.Vol()) && fs.dev.disk[..] == old(fs.dev.disk[..]))
  {
    hide Fat.Valid, FatFs.Contents, FatFs.Writing, CanGrow, Chained, Geometry.Valid, Grown, HasRoom;
    r, rest := fs.FatWrite(fp, c, buf, off, stale, w, spare);
    fp.idx := (fp.idx + r) % 0x1_0000_0000;
  }

  function Concat(chunks: seq<seq<u8>>): seq<u8> {
    if chunks == [] then [] else Concat(chunks[..|chunks| - 1]) + chunks[|chunks| - 1]
  }

  function Sum(counts: seq<u32>): nat {
    if counts == [] then 0 else Sum(counts[..|counts| - 1]) + counts[|counts| - 1]
  }

  lemma {:induction false} ConcatPrefix(chunks: seq<seq<u8>>, i: nat)
    requires i <= |chunks|
    ensures |Concat(chunks[..i])| <= |Concat(chunks)|
    decreases |chunks|
  {
    if i < |chunks| {
      ConcatPrefix(chunks[..|chunks| - 1], i);
      assert chunks[..|chunks| - 1][..i] == chunks[..i];
    } else {
      assert chunks[..i] == chunks;
    }
  }

  lemma ConcatStep(chunks: seq<seq<u8>>, i: nat)
    requires i < |chunks|
    ensures Concat(chunks[..i + 1]) == Concat(chunks[..i]) + chunks[i]
  {
    assert chunks[..i + 1][..i] == chunks[..i];
  }

  lemma SumStep(counts: seq<u32>, i: nat)
    requires i < |counts|
    ensures Sum(counts[..i + 1]) == Sum(counts[..i]) + counts[i]
  {
    assert counts[..i + 1][..i] == counts[..i];
  }

  /** Counters that tell the truth add up to the number of bytes written. */
  lemma {:induction false} HonestSum(chunks: seq<seq<u8>>, counts: seq<u32>)
    requires |counts| == |chunks| && forall i :: 0 <= i < |chunks| ==> counts[i] == |chunks[i]|
    ensures Sum(counts) == |Concat(chunks)|
    decreases |chunks|
  {
    if chunks != [] {
      HonestSum(chunks[..|chunks| - 1], counts[..|counts| - 1]);
    }
  }

  /** n is a file of the volume and remembers a directory entry that lies in another chain. */
  ghost predicate HasEntry(fs: FatFs, n: FsNode)
    requires fs.Formed()
    reads fs, fs.dev.disk, n
  {
    && n.inode in fs.files
    && n.implOff + 32 <= fs.dev.g.Clsz()
    && exists dir :: dir in fs.files && dir != n.inode && n.implCl in fs.files[dir]
  }

  /** What storing w in file h does to a volume: the entry at byte off of cluster dir gets the length len. */
  ghost predicate StoreEffect(v: Volume, v': Volume, h: nat, dir: nat, off: nat, w: seq<u8>, len: u32)
    requires v.Ok() && v'.Ok()
  {
    && OthersKept(v, v', h, dir)
    && h in v.files && w <= v'.Contents(h)
    && v.files[h] <= v'.files[h]
    && (v'.files[h] == v.files[h] || (|v'.files[h]| - 1) * v.clsz < |w|)
    && Relinked(v.fat, v'.fat, |v.data|)
    && 2 <= dir < |v.data| == |v'.data| && off + 32 <= v.clsz == v'.clsz
    && v'.data[dir] == Splice(v.data[dir], off + 28, Le32(len))
    && forall c :: 0 <= c < |v.data| && c !in v'.files[h] && c != dir ==> v'.data[c] == v.data[c]
  }

  lemma ClosedStore(v: Volume, v1: Volume, v2: Volume, h: nat, dir: nat, off: nat, w: seq<u8>, len: u32, spare: nat, rest: nat)
    requires v.Ok() && v1.Ok() && v2.Ok() && Grown(v, v1, h, |w|, spare, rest)
    requires v2.files == v1.files && v2.fat == v1.fat && |v2.data| == |v1.data| && w <= v2.Contents(h)
    requires 2 <= dir < |v1.data| && dir !in v1.files[h] && off + 32 <= v.clsz == v2.clsz
    requires v2.data[dir] == Splice(v1.data[dir], off + 28, Le32(len))
    requires forall c :: 0 <= c < |v1.data| && c !in v1.files[h] && c != dir ==> v2.data[c] == v1.data[c]
    ensures StoreEffect(v, v2, h, dir, off, w, len)
  {
    hide Chained, CanGrow, Flat;
    FrameKeepsOthers(v, v2, h, dir);
  }

  /** The clusters a file of size bytes needs; no file has fewer than one. */
  function Needed(size: nat, clsz: nat): nat
    requires clsz > 0
  {
    Max(1, Clusters(size, clsz))
  }

  /**
   How long the chain is after a store: as long as it was, or as the bytes need. Closing was meant to give back what they do
   not need, and gives back nothing: surplus clusters are left exactly when the chain had more before than the bytes need.
   */
  lemma SurplusStays(v: Volume, v': Volume, h: nat, dir: nat, off: nat, w: seq<u8>, len: u32)
    requires v.Ok() && v'.Ok() && StoreEffect(v, v', h, dir, off, w, len)
    ensures h in v.files && h in v'.files && |v'.files[h]| == Max(|v.files[h]|, Clusters(|w|, v.clsz))
    ensures |v'.files[h]| > Needed(|w|, v.clsz) <==> |v.files[h]| > Needed(|w|, v.clsz)
    ensures |v'.Contents(h)| == Max(|v.files[h]|, Clusters(|w|, v.clsz)) * v.clsz
  {
    hide Chained;
    StoreHolds(v, v', h, dir, off, w, len);
    ChainOk(v, h);
    ChainOk(v', h);
    LengthAfter(|v.files[h]|, |v'.files[h]|, v.clsz, |w|);
  }

  lemma ChainOk(v: Volume, h: nat)
    requires v.Ok() && h in v.files
    ensures v.files[h] != [] && |v.Contents(h)| == |v.files[h]| * v.clsz
  {
    FlatLength(v.data, v.files[h], v.clsz);
  }

  lemma StoreHolds(v: Volume, v': Volume, h: nat, c: nat, off: nat, w: seq<u8>, len: u32)
    requires v.Ok() && v'.Ok() && StoreEffect(v, v', h, c, off, w, len)
    ensures h in v.files && h in v'.files && w <= v'.Contents(h)
    ensures v'.clsz == v.clsz && v.files[h] <= v'.files[h]
  {
    assert h in v'.files.Keys;
  }

  /** What closing file h does to a volume: the bytes w are stored, the length is at byte off of cluster c, no chain changes. */
  ghost predicate Settles(v: Volume, v': Volume, h: nat, c: nat, off: nat, w: seq<u8>, len: u32)
    requires v.Ok() && v'.Ok()
  {
    v'.files == v.files && v'.fat == v.fat && StoreEffect(v, v', h, c, off, w, len)
  }

  lemma SettlesIs(v: Volume, v': Volume, h: nat, c: nat, off: nat, w: seq<u8>, len: u32)
    requires v.Ok() && v'.Ok() && v'.files == v.files && v'.fat == v.fat && h in v.files && v'.clsz == v.clsz && w <= v'.Contents(h)
    requires 2 <= c < |v.data| == |v'.data| && off + 32 <= v.clsz && v'.data[c] == Splice(v.data[c], off + 28, Le32(len))
    requires forall k :: 0 <= k < |v.data| && k !in v.files[h] && k != c ==> v'.data[k] == v.data[k]
    ensures Settles(v, v', h, c, off, w, len)
  {
    hide Chained, Flat;
    FrameKeepsOthers(v, v', h, c);
  }

  /** A write and the closing behind it, together. */
  lemma WrittenThenClosed(v: Volume, v1: Volume, v2: Volume, h: nat, c: nat, off: nat, w: seq<u8>, len: u32, spare: nat, rest: nat)
    requires v.Ok() && v1.Ok() && v2.Ok() && Grown(v, v1, h, |w|, spare, rest) && Settles(v1, v2, h, c, off, w, len) && c !in v1.files[h]
    ensures StoreEffect(v, v2, h, c, off, w, len)
  {
    hide Chained, CanGrow, Flat, Splice;
    ClosedStore(v, v1, v2, h, c, off, w, len, spare, rest);
  }

  /** Close a file that has a cursor. */
  method FsClose(fs: FatFs, fp: FsFile, ghost w: seq<u8>)
    requires fs.Valid() && fp.d != null && fs.Outside(fp.d.buf)
    requires fp.m == MODE_W ==>
      && fp.n.inode in fs.files && fs.Given(fp.d, fp.n.inode, w)
      && 2 <= fp.n.implCl < fs.dev.g.limit && fp.n.implCl !in fs.files[fp.n.inode] && fp.n.implOff + 32 <= fs.dev.g.Clsz()
    modifies if fp.m == MODE_W then {fp.n, fs.dev.disk} else {}
    ensures fs.Valid()
    ensures fp.m == MODE_W ==>
      && fp.n.len == fp.idx && unchanged(fp.n`inode, fp.n`mask, fp.n`ptr, fp.n`first, fp.n`filled, fp.n`implCl, fp.n`implOff)
      && Settles(old(fs.Vol()), fs.Vol(), fp.n.inode, fp.n.implCl, fp.n.implOff, w, fp.idx)
  {
    hide Fat.Valid, FatFs.Given, Chained, Geometry.Valid, IsChain, FatOf, DataOf, CopyOf, Flat, Settles, Splice;
    ghost var v := fs.Vol();
    fs.FatClose(fp, w);
    if fp.m == MODE_W {
      SettlesIs(v, fs.Vol(), fp.n.inode, fp.n.implCl, fp.n.implOff, w, fp.idx);
    }
  }

  /** Open n for writing, write the chunks one call each, close. counts are the values the calls return. */
  method Store(fs: FatFs, n: FsNode, chunks: seq<seq<u8>>, counts: seq<u32>, ghost spare: nat)
    requires fs.Valid() && n.mask % 2 == 1 && HasEntry(fs, n)
    requires |counts| == |chunks| && forall i :: 0 <= i < |chunks| ==> |chunks[i]| < 0x1_0000_0000
    requires HasRoom(fs.Vol(), n.inode, |Concat(chunks)|, spare)
    modifies fs, n, fs.dev, fs.dev.cbuf, fs.dev.disk
    ensures fs.Valid()
    ensures n.len == Sum(counts) % 0x1_0000_0000
    ensures unchanged(n`inode, n`mask, n`ptr, n`first, n`filled, n`implCl, n`implOff)
    ensures StoreEffect(old(fs.Vol()), fs.Vol(), n.inode, n.implCl, n.implOff, Concat(chunks), n.len)
    ensures n.inode in fs.files && Concat(chunks) <= fs.Contents(n.inode)
  {
    hide Fat.Valid, FatFs.Given, CanGrow, Geometry.Valid, Flat, Geometry.Clsz, OthersKept, HasRoom, FatFs.Vol, Grown;
    hide StoreEffect, IsChain, Misplaced, FatOf, DataOf, CopyOf, Splice, Chained;
    ghost var h, v := n.inode, fs.Vol();
    var fp := FsOpen(fs, n, MODE_W);
    ghost var rest := WriteAll(fs, fp, chunks, counts, spare);
    ghost var v1 := fs.Vol();
    GrownPrefix(v, v1, h, |Concat(chunks)|, spare, rest);
    EntryStaysOutside(v, v1, h, n.implCl, |Concat(chunks)|, spare, rest);
    fs.FatClose(fp, Concat(chunks));
    ClosedStore(v, v1, fs.Vol(), h, n.implCl, n.implOff, Concat(chunks), n.len, spare, rest);
  }

  lemma EntryStaysOutside(v: Volume, v1: Volume, h: nat, c: nat, size: nat, spare: nat, rest: nat)
    requires v.Ok() && v1.Ok() && Grown(v, v1, h, size, spare, rest)
    requires exists dir :: dir in v.files && dir != h && c in v.files[dir]
    ensures 2 <= c < |v1.data| && c !in v1.files[h]
  {
    var dir :| dir in v.files && dir != h && c in v.files[dir];
    assert Disjoint(v1.files[dir], v1.files[h]);
  }

  method WriteChunk(fs: FatFs, fp: FsFile, chunk: seq<u8>, count: u32, ghost w: seq<u8>, ghost spare: nat) returns (ghost rest: nat)
    requires fs.Valid() && fp.m == MODE_W && |chunk| < 0x1_0000_0000
    requires fp.d != null && fs.Outside(fp.d.buf) && fs.Takes(fp.d, fp.n.inode, w, |chunk|, spare)
    modifies fs, fp, fp.d, fp.d.buf, fs.dev, fs.dev.cbuf, fs.dev.disk
    ensures fs.Valid() && fp.d == old(fp.d) && fp.idx == (old(fp.idx) + count) % 0x1_0000_0000
    ensures fs.files.Keys == old(fs.files.Keys) && fs.Given(fp.d, fp.n.inode, w + chunk)
    ensures if fp.n.inode in fs.files then Grown(old(fs.Vol()), fs.Vol(), fp.n.inode, |w| + |chunk|, spare, rest)
            else rest == spare && fs.Vol() == old(fs.Vol()) && fs.dev.disk[..] == old(fs.dev.disk[..])
  {
    hide Fat.Valid, Fat.Coherent, Fat.Mirrored, FatFs.Takes, FatFs.Given, Grown, FatFs.Vol, Chained, FatOf, DataOf, CopyOf;
    var buf := new u8[|chunk|](j requires 0 <= j < |chunk| => chunk[j]);
    assert buf[0..0 + |chunk|] == chunk;
    var r;
    r, rest := FsWrite(fs, fp, |chunk|, buf, 0, count, w, spare);
  }

  method WriteAll(fs: FatFs, fp: FsFile, chunks: seq<seq<u8>>, counts: seq<u32>, ghost spare: nat) returns (ghost rest: nat)
    requires fs.Valid() && fp.n.inode in fs.files && fp.m == MODE_W && fp.idx == 0
    requires fp.d != null && fs.Outside(fp.d.buf) && fs.Given(fp.d, fp.n.inode, [])
    requires |counts| == |chunks| && forall i :: 0 <= i < |chunks| ==> |chunks[i]| < 0x1_0000_0000
    requires HasRoom(fs.Vol(), fp.n.inode, |Concat(chunks)|, spare)
    modifies fs, fp, fp.d, fp.d.buf, fs.dev, fs.dev.cbuf, fs.dev.disk
    ensures fs.Valid() && fp.d == old(fp.d) && fp.idx == Sum(counts) % 0x1_0000_0000
    ensures fp.n.inode in fs.files && Grown(old(fs.Vol()), fs.Vol(), fp.n.inode, |Concat(chunks)|, spare, rest)
    ensures fs.Given(fp.d, fp.n.inode, Concat(chunks))
  {
    hide Fat.Valid, Fat.Coherent, Fat.Mirrored, FatFs.Given, FatFs.Takes, CanGrow, Geometry.Valid, Flat, Geometry.Clsz;
    hide Chained, FatFs.Vol, IsChain, FatOf, DataOf, CopyOf, Grown, HasRoom, Concat, Sum;
    NothingYet();
    ghost var h, v := fp.n.inode, fs.Vol();
    GrownRefl(v, h, |Concat(chunks)|, spare);
    rest := spare;
    assert chunks[..0] == [] && counts[..0] == [];
    for i := 0 to |chunks|
      invariant fs.Valid() && fp.d == old(fp.d)
      invariant fp.idx == Sum(counts[..i]) % 0x1_0000_0000
      invariant h in fs.files && Grown(v, fs.Vol(), h, |Concat(chunks[..i])|, spare, rest)
      invariant fs.Given(fp.d, h, Concat(chunks[..i]))
    {
      ConcatStep(chunks, i);
      SumStep(counts, i);
      AddMod(Sum(counts[..i]), counts[i]);
      ConcatPrefix(chunks, i + 1);
      ghost var v1, mid := fs.Vol(), rest;
      RoomStays(v, v1, h, |Concat(chunks[..i])|, spare, mid, |Concat(chunks)|, |Concat(chunks[..i + 1])|);
      fs.RoomTakes(fp.d, h, Concat(chunks[..i]), |chunks[i]|, mid);
      rest := WriteChunk(fs, fp, chunks[i], counts[i], Concat(chunks[..i]), mid);
      GrownPrefix(v1, fs.Vol(), h, |Concat(chunks[..i + 1])|, mid, rest);
      GrownTrans(v, v1, fs.Vol(), h, |Concat(chunks[..i])|, |Concat(chunks[..i + 1])|, spare, mid, rest);
    }
    assert chunks[..|chunks|] == chunks && counts[..|counts|] == counts;
  }

  lemma NothingYet()
    ensures Concat([]) == [] && Sum([]) == 0
  {
  }

  /** Give the chunks to the cursor of a file without a chain, in whose buffer they fit. */
  method BufferAll(fs: FatFs, fp: FsFile, chunks: seq<seq<u8>>, counts: seq<u32>)
    requires fs.Valid() && fp.n.inode !in fs.files && fp.m == MODE_W && fp.idx == 0
    requires fp.d != null && fs.Outside(fp.d.buf) && fs.Given(fp.d, fp.n.inode, [])
    requires |counts| == |chunks| && forall i :: 0 <= i < |chunks| ==> |chunks[i]| < 0x1_0000_0000
    requires |Concat(chunks)| <= fs.dev.g.Clsz()
    modifies fs, fp, fp.d, fp.d.buf, fs.dev, fs.dev.cbuf, fs.dev.disk
    ensures fs.Valid() && fp.d == old(fp.d) && fp.idx == Sum(counts) % 0x1_0000_0000
    ensures fs.Vol() == old(fs.Vol()) && fs.dev.disk[..] == old(fs.dev.disk[..]) && fs.Given(fp.d, fp.n.inode, Concat(chunks))
  {
    hide Fat.Valid, Fat.Coherent, Fat.Mirrored, Geometry.Valid, Geometry.Clsz, Chained, FatFs.Vol, FatOf, DataOf, CopyOf;
    hide FatFs.Given, FatFs.Takes, Concat, Sum, Grown;
    NothingYet();
    assert chunks[..0] == [] && counts[..0] == [];
    ghost var rest;
    for i := 0 to |chunks|
      invariant fs.Valid() && fp.d == old(fp.d) && fs.Vol() == old(fs.Vol()) && fs.dev.disk[..] == old(fs.dev.disk[..])
      invariant fp.idx == Sum(counts[..i]) % 0x1_0000_0000
      invariant fs.Given(fp.d, fp.n.inode, Concat(chunks[..i]))
    {
      ConcatStep(chunks, i);
      SumStep(counts, i);
      AddMod(Sum(counts[..i]), counts[i]);
      ConcatPrefix(chunks, i + 1);
      fs.TakesMore(fp.d, fp.n.inode, Concat(chunks[..i]), |chunks[i]|);
      rest := WriteChunk(fs, fp, chunks[i], counts[i], Concat(chunks[..i]), 0);
    }
    assert chunks[..|chunks|] == chunks && counts[..|counts|] == counts;
  }

  /**
   The same session on a file whose entry says cluster 0 or 1, with no more bytes than one cluster holds: no chain and no
   cluster gets them. They go, at the front of a buffer t, over the last FAT copy; the volume is as it was, but for the
   length, if and only if there were none or t is what that part of the FAT held.
   */
  method StoreUnplaced(fs: FatFs, n: FsNode, chunks: seq<seq<u8>>, counts: seq<u32>) returns (ghost t: seq<u8>)
    requires fs.Valid() && n.mask % 2 == 1 && n.inode < 2 && fs.dev.g.Reachable(n.inode)
    requires 2 <= fs.dev.g.nfat && 2 * fs.dev.g.spc <= fs.dev.g.spf
    requires 2 <= n.implCl < fs.dev.g.limit && n.implOff + 32 <= fs.dev.g.Clsz()
    requires |counts| == |chunks| && forall i :: 0 <= i < |chunks| ==> |chunks[i]| < 0x1_0000_0000
    requires |Concat(chunks)| <= fs.dev.g.Clsz()
    modifies fs, n, fs.dev, fs.dev.cbuf, fs.dev.disk
    ensures n.len == Sum(counts) % 0x1_0000_0000
    ensures unchanged(n`inode, n`mask, n`ptr, n`first, n`filled, n`implCl, n`implOff)
    ensures fs.Formed() && fs.files == old(fs.files) && fs.dev.Fat() == old(fs.dev.Fat())
    ensures LengthStored(old(fs.dev.Data()), fs.dev.Data(), n.implCl, n.implOff, n.len)
    ensures forall k :: 0 <= k < fs.dev.g.limit && k != n.implCl ==> fs.dev.Data()[k] == old(fs.dev.Data())[k]
    ensures |t| == fs.dev.g.Clsz() && Concat(chunks) <= t
    ensures Misplaced(fs.dev.g, old(fs.dev.disk[..]), n.inode, Concat(chunks), t, fs.dev.Copy(fs.dev.g.nfat - 1), fs.dev.Fat(), fs.dev.Valid())
  {
    hide Fat.Valid, Geometry.Valid, Geometry.Clsz, Chained, FatOf, DataOf, CopyOf, FatFs.CanWrite, Misplaced, Concat, Sum, Splice;
    fs.ChainsStartHigh();
    var fp := FsOpen(fs, n, MODE_W);
    BufferAll(fs, fp, chunks, counts);
    t := fp.d.buf[..fs.dev.g.Clsz()];
    fs.FatClose(fp, Concat(chunks));
  }

  method ReadChunk(fs: FatFs, fp: FsFile, size: u32) returns (bytes: seq<u8>)
    requires fs.Valid() && fp.m == MODE_R
    requires fp.d != null && fs.Outside(fp.d.buf) && fs.ReadsAt(fp.d, fp.n.inode, fp.idx, fp.n.len)
    modifies fp, fp.d, fp.d.buf, fs.dev, fs.dev.cbuf
    ensures fs.Valid() && fp.d == old(fp.d)
    ensures fp.idx == old(fp.idx) + ReadCount(old(fp.idx), size, fp.n.len, |fs.Stored(fp.n.inode)|)
    ensures fp.idx <= |fs.Stored(fp.n.inode)| && fs.ReadsAt(fp.d, fp.n.inode, fp.idx, fp.n.len)
    ensures bytes == fs.Stored(fp.n.inode)[old(fp.idx)..fp.idx]
  {
    hide Fat.Valid, Fat.Coherent, Fat.Mirrored, FatFs.Contents, FatFs.Reading, Chained, Geometry.Valid, IsChain;
    var buf := new u8[size];
    var r := FsRead(fs, fp, size, buf, 0);
    bytes := buf[..r];
  }

  /** Open n for reading, read sizes bytes one call each, close. */
  method Load(fs: FatFs, n: FsNode, sizes: seq<u32>) returns (out: seq<u8>)
    requires fs.Valid() && n.mask % 2 == 1 && Openable(fs, n)
    modifies fs.dev, fs.dev.cbuf
    ensures fs.Valid()
    ensures out == fs.Stored(n.inode)[..Min(Sum(sizes), Min(n.len, |fs.Stored(n.inode)|))]
  {
    hide Fat.Valid, Fat.Coherent, Fat.Mirrored, FatFs.Stored, FatFs.ReadsAt, FatFs.Given, CanGrow, Chained;
    hide Geometry.Valid, FatOf, DataOf, CopyOf, IsChain, Splice;
    ghost var all := fs.Stored(n.inode);
    var fp := FsOpen(fs, n, MODE_R);
    out := [];
    assert sizes[..0] == [];
    for i := 0 to |sizes|
      invariant fs.Valid() && fp.d != null && fresh(fp.d) && fresh(fp.d.buf)
      invariant fs.ReadsAt(fp.d, n.inode, fp.idx, n.len)
      invariant fp.idx == Min(Sum(sizes[..i]), Min(n.len, |all|)) && out == all[..fp.idx]
    {
      SumStep(sizes, i);
      var bytes := ReadChunk(fs, fp, sizes[i]);
      out := out + bytes;
    }
    assert sizes[..|sizes|] == sizes;
  }

  /**
   What was stored comes back, whatever the chunking on either side. The length that counts is the one
   the write calls claimed: the contents come back whole exactly when that length, cut off at what was asked
   for and at the end of the chain, is the number of bytes written. Where the chain will end is known before the call.
   */
  method StoreThenLoad(fs: FatFs, n: FsNode, chunks: seq<seq<u8>>, counts: seq<u32>, sizes: seq<u32>, ghost spare: nat)
    returns (out: seq<u8>)
    requires fs.Valid() && n.mask % 2 == 1 && HasEntry(fs, n)
    requires |counts| == |chunks| && forall i :: 0 <= i < |chunks| ==> |chunks[i]| < 0x1_0000_0000
    requires HasRoom(fs.Vol(), n.inode, |Concat(chunks)|, spare)
    modifies fs, n, fs.dev, fs.dev.cbuf, fs.dev.disk
    ensures fs.Valid() && n.inode == old(n.inode) && n.inode in fs.files
    ensures var size, clsz, len := |Concat(chunks)|, fs.dev.g.Clsz(), Sum(counts) % 0x1_0000_0000;
      var cap := Max(old(|fs.files[n.inode]|), Clusters(size, clsz)) * clsz;
      && |fs.Contents(n.inode)| == cap
      && (out == Concat(chunks) <==> Min(Sum(sizes), Min(len, cap)) == size)
      && (len == size ==> out == Concat(chunks)[..Min(Sum(sizes), len)])
    ensures |Concat(chunks)| < 0x1_0000_0000 && Sum(sizes) >= |Concat(chunks)| &&
            (forall i :: 0 <= i < |chunks| ==> counts[i] == |chunks[i]|) ==>
              out == Concat(chunks)
  {
    hide Fat.Valid, CanGrow, Chained, Geometry.Valid, HasRoom, Sum, Concat, Flat, StoreEffect, FatFs.Vol, IsChain;
    ghost var v := fs.Vol();
    Store(fs, n, chunks, counts, spare);
    SurplusStays(v, fs.Vol(), n.inode, n.implCl, n.implOff, Concat(chunks), n.len);
    ReadBack(Concat(chunks), fs.Contents(n.inode), n.len, Sum(sizes));
    out := Load(fs, n, sizes);
    if forall i :: 0 <= i < |chunks| ==> counts[i] == |chunks[i]| {
      HonestSum(chunks, counts);
    }
  }

  /** When reading total bytes of a file of len bytes gives back w, the start of its contents. */
  lemma ReadBack(w: seq<u8>, all: seq<u8>, len: nat, total: nat)
    requires w <= all
    ensures all[..Min(total, Min(len, |all|))] == w <==> Min(total, Min(len, |all|)) == |w|
    ensures len == |w| ==> all[..Min(total, Min(len, |all|))] == w[..Min(total, len)]
    ensures len == |w| && total >= |w| ==> all[..Min(total, Min(len, |all|))] == w
  {
    assert all[..|w|] == w;
  }

  lemma AddMod(a: nat, b: nat)
    ensures (a % 0x1_0000_0000 + b) % 0x1_0000_0000 == (a + b) % 0x1_0000_0000
  {
  }
}
