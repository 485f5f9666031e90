/**
 Open files on a FAT volume: the read and write cursors that walk a cluster chain through a one-cluster
 buffer. The volume's abstract state is `files`, the chain of every file and directory by first cluster.
 */
module FatFile {
  import opened Bytes
  import opened FatDisk
  import opened Chains
  import opened FsTypes

  function Min(a: int, b: int): int {
    if a < b then a else b
  }

  function Max(a: nat, b: nat): nat {
    if a < b then b else a
  }

  function Last(path: seq<nat>): nat
    requires path != []
  {
    path[|path| - 1]
  }

  /** How many bytes a read of c at index idx returns from a file of len bytes on a chain of cap bytes. */
  function ReadCount(idx: nat, c: nat, len: nat, cap: nat): nat {
    if Min(len, cap) <= idx then 0 else Min(c, Min(len, cap) - idx)
  }

  /** d has read exactly pos bytes of the chain: its buffer holds cluster k, its index is what is left of pos. */
  ghost predicate ReaderAt(d: FileInfo, data: seq<seq<u8>>, path: seq<nat>, clsz: nat, pos: nat)
    requires forall i :: 0 <= i < |path| ==> path[i] < |data|
    reads d, d.buf
  {
    && d.k < |path| && d.cl == path[d.k]
    && d.idx <= clsz <= d.buf.Length
    && d.buf[..clsz] == data[path[d.k]]
    && pos == |Flat(data, path[..d.k])| + d.idx
  }

  /** A read cursor is inside its chain, and its next byte is the chain's next byte. */
  lemma CursorInside(d: FileInfo, data: seq<seq<u8>>, path: seq<nat>, clsz: nat, pos: nat)
    requires forall i :: 0 <= i < |path| ==> path[i] < |data| && |data[path[i]]| == clsz
    requires ReaderAt(d, data, path, clsz, pos)
    ensures pos <= |Flat(data, path)|
    ensures d.idx == clsz ==> Flat(data, path[..d.k + 1]) == Flat(data, path)[..pos]
    ensures d.idx == clsz && d.k + 1 == |path| ==> pos == |Flat(data, path)|
    ensures d.idx < clsz ==> pos < |Flat(data, path)| && Flat(data, path)[pos] == d.buf[d.idx]
  {
    FlatStep(data, path, d.k);
    assert d.k + 1 == |path| ==> path[..d.k + 1] == path;
  }

  /** d has been given exactly the bytes w: k clusters of them are on disk, the rest is in its buffer. */
  ghost predicate WriterAt(d: FileInfo, data: seq<seq<u8>>, path: seq<nat>, clsz: nat, w: seq<u8>)
    requires forall i :: 0 <= i < |path| ==> path[i] < |data|
    reads d, d.buf
  {
    && d.k < |path| && d.cl == path[d.k]
    && d.idx <= clsz <= d.buf.Length
    && w == Flat(data, path[..d.k]) + d.buf[..d.idx]
  }

  /** The number of usable free clusters below n. */
  function CountFree(fat: seq<u32>, n: nat): nat
    requires n <= |fat|
  {
    if n == 0 then 0 else CountFree(fat, n - 1) + if IsFree(fat, n - 1) then 1 else 0
  }

  lemma {:induction false} CountFreeUpdate(fat: seq<u32>, n: nat, e: nat, v: u32)
    requires n <= |fat| && e < |fat| && v != 0
    ensures CountFree(fat[e := v], n) == CountFree(fat, n) - if e < n && IsFree(fat, e) then 1 else 0
  {
    if n > 0 {
      CountFreeUpdate(fat, n - 1, e, v);
    }
  }

  lemma {:induction false} CountFreeWitness(fat: seq<u32>, n: nat) returns (p: nat)
    requires n <= |fat| && CountFree(fat, n) > 0
    ensures p < n && IsFree(fat, p)
  {
    if IsFree(fat, n - 1) {
      p := n - 1;
    } else {
      p := CountFreeWitness(fat, n - 1);
    }
  }

  /** The next n scans, each cluster found being linked behind the one before, all give out a free cluster. */
  ghost predicate CanGrow(fat: seq<u32>, limit: nat, last: nat, n: nat)
    decreases n
  {
    n == 0 || (last < |fat| && exists p: u32 ::
      p < limit && LeastHit(fat, p) && IsFree(fat, p) && CanGrow(Linked(fat, last, p), limit, p, n - 1))
  }

  lemma {:induction false} LeastHitExists(fat: seq<u32>, n: nat) returns (p: nat)
    requires exists q: nat :: q < n && ScanHit(fat, q)
    ensures p < n && LeastHit(fat, p)
  {
    if q: nat :| q < n - 1 && ScanHit(fat, q) {
      p := LeastHitExists(fat, n - 1);
    } else {
      p := n - 1;
    }
  }

  /** n free clusters with entries in the first FAT sector are enough for n scans. */
  lemma {:induction false} LowFreeCanGrow(fat: seq<u32>, limit: nat, last: nat, n: nat)
    requires 128 <= |fat| <= 0x1000_0000 && limit <= |fat| && last < |fat| && fat[last] != 0
    requires n <= CountFree(fat, Min(128, limit))
    ensures CanGrow(fat, limit, last, n)
    decreases n
  {
    if n > 0 {
      var low := Min(128, limit);
      var q := CountFreeWitness(fat, low);
      assert ScanHit(fat, q);
      var p := LeastHitExists(fat, q + 1);
      CountFreeUpdate(fat, low, last, p);
      CountFreeUpdate(fat[last := p], low, p, EOC);
      LowFreeCanGrow(Linked(fat, last, p), limit, p, n - 1);
    }
  }

  lemma {:induction false} CountFreeZero(fat: seq<u32>, n: nat)
    requires n <= |fat|
    ensures CountFree(fat, n) == 0 <==> forall p: nat :: p < n ==> !IsFree(fat, p)
  {
    if n > 0 {
      CountFreeZero(fat, n - 1);
    }
  }

  /** The first free entry behind the first FAT sector has a free entry one sector behind it, inside the volume. */
  ghost predicate OneBeyond(fat: seq<u32>, limit: nat)
    requires limit <= |fat|
  {
    exists q: nat :: FirstBeyond(fat, q) && q + 128 < limit && fat[q + 128] == 0
  }

  ghost predicate FirstBeyond(fat: seq<u32>, q: nat) {
    128 <= q < |fat| && fat[q] == 0 && forall r: nat :: 128 <= r < q ==> fat[r] != 0
  }

  lemma LeastHitIsUnique(fat: seq<u32>, p: nat, p': nat)
    requires LeastHit(fat, p) && LeastHit(fat, p')
    ensures p == p'
  {
  }

  /** With nothing free in the first sector, the scan stops one sector behind the first free entry. */
  lemma HitBeyond(fat: seq<u32>, limit: nat, p: nat)
    requires 128 <= |fat| && limit <= |fat| && p < limit && fat[0] != 0 && fat[1] != 0
    requires forall r: nat :: r < Min(128, limit) ==> !IsFree(fat, r)
    ensures LeastHit(fat, p) ==> 128 <= p && (p < 256 || FirstBeyond(fat, p - 128)) && (IsFree(fat, p) ==> 256 <= p)
    ensures 256 <= p && FirstBeyond(fat, p - 128) ==> LeastHit(fat, p)
  {
    if LeastHit(fat, p) {
      assert p < 128 ==> IsFree(fat, p);
      forall r: nat | 128 <= r < p - 128
        ensures fat[r] != 0
      {
        assert !ScanHit(fat, r + 128);
      }
      if p < 256 {
        assert IsFree(fat, p - 128);
      }
    }
    if 256 <= p && FirstBeyond(fat, p - 128) {
      forall r: nat | r < p
        ensures !ScanHit(fat, r)
      {
        assert Scanned(r) < 128 ==> !IsFree(fat, Scanned(r));
      }
    }
  }

  /** After a scan that went past the first sector, the next scan returns the same cluster, which is now in use. */
  lemma NoneAfterBeyond(fat: seq<u32>, limit: nat, last: nat, p: u32, n: nat)
    requires limit <= |fat| && 128 <= p < limit && LeastHit(fat, p) && IsFree(fat, p) && last < |fat| && fat[last] != 0
    ensures CanGrow(Linked(fat, last, p), limit, p, n) <==> n == 0
  {
    var fat' := Linked(fat, last, p);
    forall r: nat | r < p
      ensures !ScanHit(fat', r)
    {
      assert !ScanHit(fat, r);
    }
    assert LeastHit(fat', p) && !IsFree(fat', p);
  }

  /** What a volume that can grow promises of the scan. */
  lemma GrowPick(fat: seq<u32>, limit: nat, last: nat, n: nat, found: bool, p: nat)
    requires n > 0 && CanGrow(fat, limit, last, n)
    requires if found then LeastHit(fat, p) else forall q: nat :: !ScanHit(fat, q)
    ensures found && last < |fat| && 2 <= p < limit && p < |fat| && p < 0x1_0000_0000 && IsFree(fat, p)
    ensures CanGrow(Linked(fat, last, p), limit, p, n - 1)
  {
    var p': u32 :| p' < limit && LeastHit(fat, p') && IsFree(fat, p') && CanGrow(Linked(fat, last, p'), limit, p', n - 1);
    if found {
      LeastHitIsUnique(fat, p, p');
    }
  }

  lemma GrowStep(fat: seq<u32>, limit: nat, last: nat, p: u32, n: nat)
    requires limit <= |fat| && n > 0 && last < |fat| && p < limit && LeastHit(fat, p) && IsFree(fat, p)
    ensures CanGrow(fat, limit, last, n) <==> CanGrow(Linked(fat, last, p), limit, p, n - 1)
  {
    if CanGrow(fat, limit, last, n) {
      var p': u32 :| p' < limit && LeastHit(fat, p') && IsFree(fat, p') && CanGrow(Linked(fat, last, p'), limit, p', n - 1);
      LeastHitIsUnique(fat, p, p');
    }
  }

  /**
   Exactly how often the volume can grow: once for every free cluster in the first FAT sector, and once more if the first
   free entry behind that sector has a free one a sector further on.
   */
  lemma {:induction false} CanGrowExactly(fat: seq<u32>, limit: nat, last: nat, n: nat)
    requires 128 <= |fat| <= 0x1000_0000 && limit <= |fat| && fat[0] != 0 && fat[1] != 0
    requires last < |fat| && fat[last] != 0
    ensures var low := CountFree(fat, Min(128, limit));
      CanGrow(fat, limit, last, n) <==> n <= low || (n == low + 1 && OneBeyond(fat, limit))
    decreases n
  {
    if n > 0 {
      var low := Min(128, limit);
      CountFreeZero(fat, low);
      if CountFree(fat, low) > 0 {
        var p := LowHit(fat, limit);
        GrowStep(fat, limit, last, p, n);
        CountFreeUpdate(fat, low, last, p);
        CountFreeUpdate(fat[last := p], low, p, EOC);
        BeyondStays(fat, limit, last, p);
        CanGrowExactly(Linked(fat, last, p), limit, p, n - 1);
      } else {
        GrowBeyond(fat, limit, last, n);
      }
    }
  }

  lemma LowHit(fat: seq<u32>, limit: nat) returns (p: nat)
    requires 128 <= |fat| && limit <= |fat| && fat[0] != 0 && fat[1] != 0 && CountFree(fat, Min(128, limit)) > 0
    ensures p < Min(128, limit) && LeastHit(fat, p) && IsFree(fat, p)
  {
    var q := CountFreeWitness(fat, Min(128, limit));
    assert ScanHit(fat, q);
    p := LeastHitExists(fat, q + 1);
  }

  lemma BeyondStays(fat: seq<u32>, limit: nat, last: nat, p: u32)
    requires limit <= |fat| && 2 <= p < 128 && p < |fat| && last < |fat| && fat[last] != 0
    ensures OneBeyond(Linked(fat, last, p), limit) <==> OneBeyond(fat, limit)
  {
    var fat' := Linked(fat, last, p);
    assert forall r: nat :: 128 <= r < |fat| ==> (fat'[r] == 0 <==> fat[r] == 0);
    assert forall q: nat :: FirstBeyond(fat', q) <==> FirstBeyond(fat, q);
  }

  lemma GrowBeyond(fat: seq<u32>, limit: nat, last: nat, n: nat)
    requires 128 <= |fat| <= 0x1000_0000 && limit <= |fat| && fat[0] != 0 && fat[1] != 0 && n > 0
    requires last < |fat| && fat[last] != 0
    requires forall r: nat :: r < Min(128, limit) ==> !IsFree(fat, r)
    ensures CanGrow(fat, limit, last, n) <==> n == 1 && OneBeyond(fat, limit)
  {
    if OneBeyond(fat, limit) {
      var q: nat :| FirstBeyond(fat, q) && q + 128 < limit && fat[q + 128] == 0;
      HitBeyond(fat, limit, q + 128);
      GrowStep(fat, limit, last, q + 128, n);
      NoneAfterBeyond(fat, limit, last, q + 128, n - 1);
    } else {
      forall p: u32 | p < limit && LeastHit(fat, p)
        ensures !IsFree(fat, p)
      {
        HitBeyond(fat, limit, p);
        var found := 256 <= p && FirstBeyond(fat, p - 128);
        assert found ==> fat[p] != 0;
      }
    }
  }

  /** There is room for size bytes on chain h and spare more clusters, which the next scans will give out. */
  ghost predicate HasRoom(v: Volume, h: nat, size: nat, spare: nat)
    requires v.Ok() && h in v.files
  {
    && CanGrow(v.fat, |v.data|, Last(v.files[h]), spare)
    && size <= (|v.files[h]| + spare) * v.clsz
  }

  /**
   Only chain h and its clusters changed: the chain kept its clusters and gained some of the spare ones,
   no more than a file of size bytes needs. The FAT got cluster numbers and end marks.
   */
  ghost predicate Grown(v: Volume, v': Volume, h: nat, size: nat, spare: nat, rest: nat)
    requires v.Ok() && v'.Ok()
  {
    && v'.files.Keys == v.files.Keys && h in v.files && |v'.data| == |v.data| && v'.clsz == v.clsz
    && (forall k :: k in v.files && k != h ==> v'.files[k] == v.files[k])
    && v.files[h] <= v'.files[h]
    && |v'.files[h]| + rest == |v.files[h]| + spare
    && (v'.files[h] == v.files[h] || (|v'.files[h]| - 1) * v.clsz < size)
    && Relinked(v.fat, v'.fat, |v.data|)
    && CanGrow(v'.fat, |v'.data|, Last(v'.files[h]), rest)
    && forall c :: 0 <= c < |v.data| && c !in v'.files[h] ==> v'.data[c] == v.data[c]
  }

  lemma GrownTrans(v: Volume, v1: Volume, v2: Volume, h: nat, size: nat, size': nat, spare: nat, mid: nat, rest: nat)
    requires v.Ok() && v1.Ok() && v2.Ok()
    requires Grown(v, v1, h, size, spare, mid) && Grown(v1, v2, h, size', mid, rest) && size <= size'
    ensures Grown(v, v2, h, size', spare, rest)
  {
    hide Volume.Ok, CanGrow, Last;
  }

  lemma GrownRefl(v: Volume, h: nat, size: nat, spare: nat)
    requires v.Ok() && h in v.files && HasRoom(v, h, size, spare)
    ensures Grown(v, v, h, 0, spare, spare)
  {
    hide CanGrow;
  }

  /** How many clusters hold n bytes. */
  function Clusters(n: nat, clsz: nat): nat
    requires clsz > 0
  {
    (n + clsz - 1) / clsz
  }

  /** A chain that grew for size bytes, and holds them, is as long as it was or as those bytes need, whichever is longer. */
  lemma LengthAfter(was: nat, now: nat, clsz: nat, size: nat)
    requires clsz > 0 && was <= now && size <= now * clsz && (now == was || (now - 1) * clsz < size)
    ensures now == Max(was, Clusters(size, clsz))
  {
    var c := Clusters(size, clsz);
    assert c * clsz <= size + clsz - 1 < c * clsz + clsz;
    if now < c {
      MulMono(now + 1, c, clsz);
    } else if c < now {
      MulMono(c, now - 1, clsz);
    }
  }

  /** Room that was there is still there after part of it is used. */
  lemma RoomStays(v: Volume, v1: Volume, h: nat, done: nat, spare: nat, rest: nat, size: nat, n: nat)
    requires v.Ok() && v1.Ok() && h in v.files && HasRoom(v, h, size, spare)
    requires Grown(v, v1, h, done, spare, rest) && n <= size
    ensures h in v1.files && HasRoom(v1, h, n, rest)
  {
    hide Volume.Ok, CanGrow;
    assert (|v1.files[h]| + rest) * v1.clsz == (|v.files[h]| + spare) * v.clsz;
  }

  lemma GrownPrefix(v: Volume, v1: Volume, h: nat, size: nat, spare: nat, rest: nat)
    requires v.Ok() && v1.Ok() && Grown(v, v1, h, size, spare, rest)
    ensures v1.files.Keys == v.files.Keys && h in v.files && v.files[h] <= v1.files[h]
  {
  }

  /** Writing a cluster of the grown chain leaves it a grown chain. */
  lemma GrownWrite(v: Volume, v1: Volume, h: nat, size: nat, spare: nat, rest: nat, c: nat, bytes: seq<u8>)
    requires v.Ok() && v1.Ok() && Grown(v, v1, h, size, spare, rest)
    requires 2 <= c < |v1.data| && c in v1.files[h] && |bytes| == v1.clsz
    ensures var v2 := v1.(data := v1.data[c := bytes]);
      v2.Ok() && Grown(v, v2, h, size, spare, rest)
  {
    hide Chained, CanGrow;
  }

  /** Writing one file leaves the contents of every other as they were. */
  lemma GrownSpares(v: Volume, v': Volume, h: nat, k: nat, size: nat, spare: nat, rest: nat)
    requires v.Ok() && v'.Ok() && Grown(v, v', h, size, spare, rest) && k in v.files && k != h
    ensures k in v'.files && v'.files[k] == v.files[k] && v'.Contents(k) == v.Contents(k)
  {
    hide CanGrow;
    assert Disjoint(v'.files[k], v'.files[h]);
    FlatFrame(v.data, v'.data, v.files[k]);
  }

  /** Writing one file leaves every read cursor on another file where it was. */
  lemma WritingSparesReaders(d: FileInfo, v: Volume, v': Volume, h: nat, k: nat, size: nat, spare: nat, rest: nat, pos: nat)
    requires v.Ok() && v'.Ok() && Grown(v, v', h, size, spare, rest) && k in v.files && k != h
    requires ReaderAt(d, v.data, v.files[k], v.clsz, pos)
    ensures k in v'.files && v'.Contents(k) == v.Contents(k)
    ensures ReaderAt(d, v'.data, v'.files[k], v'.clsz, pos)
  {
    hide CanGrow;
    GrownSpares(v, v', h, k, size, spare, rest);
    assert Disjoint(v'.files[k], v'.files[h]);
    FlatFrame(v.data, v'.data, v.files[k][..d.k]);
  }

  /**
   Bytes w given to the file numbered h, 0 or 1, have left its buffer t for the last FAT copy of what was the image before.
   The driver's state is sound, its FAT copies equal, if and only if there was nothing to flush or the buffer holds what that
   part of the FAT held.
   */
  ghost predicate Misplaced(g: Geometry, before: seq<u8>, h: nat, w: seq<u8>, t: seq<u8>, last: seq<u8>, fat: seq<u32>, sound: bool) {
    && g.Valid() && g.Size() <= |before| && h < 2 && g.Reachable(h) && |t| == g.Clsz() <= g.CopySize() - g.LowOff(h) && 0 <= g.LowOff(h)
    && last == (if w == [] then CopyOf(g, before, g.nfat - 1) else Splice(CopyOf(g, before, g.nfat - 1), g.LowOff(h), t))
    && (2 <= g.nfat ==> fat == FatOf(CopyOf(g, before, 0)) && (sound <==> w == [] || t == PartAt(g, before, h)))
  }

  /** The slot at byte off of cluster c has the length len, and otherwise the cluster is as it was. */
  ghost predicate LengthStored(data: seq<seq<u8>>, data': seq<seq<u8>>, c: nat, off: nat, len: u32) {
    && c < |data| == |data'| && off + 32 <= |data[c]|
    && data'[c] == Splice(data[c], off + 28, Le32(len))
  }

  lemma ClusterIsSlots(spc: nat)
    ensures (spc * SECTOR) % 64 == 0 && spc * SECTOR == 32 * (spc * SECTOR / 32)
  {
    var q := 8 * spc;
    assert spc * SECTOR == 64 * q;
  }

  class FatFs {
    const dev: Fat
    ghost var files: map<nat, seq<nat>>

    constructor (dev: Fat, ghost files: map<nat, seq<nat>>)
      requires dev.Valid() && dev.g.spc <= dev.g.spf && Chained(dev.Fat(), dev.g.limit, files)
      ensures Valid() && this.dev == dev && this.files == files
    {
      this.dev := dev;
      this.files := files;
    }

    ghost predicate Valid()
      reads this, dev, dev.disk, dev.cbuf
    {
      dev.Valid() && dev.g.spc <= dev.g.spf && Formed()
    }

    /** The part of Valid() that is about the disk and not about the cache. */
    ghost predicate Formed()
      reads this, dev.disk
    {
      dev.Sound() && Chained(dev.Fat(), dev.g.limit, files)
    }

    /** The bytes of the chain that starts at cluster h. */
    ghost function Contents(h: nat): seq<u8>
      requires Formed() && h in files
      reads this, dev.disk
    {
      Flat(dev.Data(), files[h])
    }

    /** The bytes of file h: those of its chain, or none if it has no chain. */
    ghost function Stored(h: nat): seq<u8>
      requires Formed()
      reads this, dev.disk
    {
      if h in files then Contents(h) else []
    }

    ghost function Vol(): (v: Volume)
      requires Formed()
      reads this, dev.disk
      ensures v.Ok() && v.files == files && v.data == dev.Data() && v.fat == dev.Fat() && v.clsz == dev.g.Clsz()
    {
      ClusterIsSlots(dev.g.spc);
      Volume(dev.Fat(), dev.Data(), files, dev.g.Clsz())
    }

    /** A buffer that is no part of the volume's own memory. */
    ghost predicate Outside(buf: array<u8>) {
      buf != dev.disk && buf != dev.cbuf
    }

    /** The geometry's chain ids and lengths, in the form the cursor proofs use. */
    lemma ChainFacts(h: nat)
      requires Formed() && h in files
      ensures IsChain(dev.Fat(), dev.g.limit, files[h]) && files[h][0] == h
      ensures 0 < dev.g.Clsz() && dev.g.limit <= EOC && dev.g.limit <= |dev.Fat()| && |dev.Data()| == dev.g.limit
      ensures forall i :: 0 <= i < |files[h]| ==> |dev.Data()[files[h][i]]| == dev.g.Clsz()
      ensures |Contents(h)| == |files[h]| * dev.g.Clsz()
    {
      FlatLength(dev.Data(), files[h], dev.g.Clsz());
    }

    lemma CacheApart()
      requires Formed()
      ensures dev.disk != dev.cbuf
    {
    }

    /** No chain starts at cluster 0 or 1. */
    lemma ChainsStartHigh()
      requires Formed()
      ensures forall h :: h in files ==> 2 <= h
    {
    }

    /** d is a read cursor on chain h with pos bytes behind it. */
    ghost predicate Reading(d: FileInfo, h: nat, pos: nat)
      requires Formed() && h in files
      reads this, dev.disk, d, d.buf
    {
      ReaderAt(d, dev.Data(), files[h], dev.g.Clsz(), pos)
    }

    /** d is a write cursor on chain h that has been given the bytes w. */
    ghost predicate Writing(d: FileInfo, h: nat, w: seq<u8>)
      requires Formed() && h in files
      reads this, dev.disk, d, d.buf
    {
      WriterAt(d, dev.Data(), files[h], dev.g.Clsz(), w)
    }

    /** d can go on reading file h, of length len, at pos: on the file's chain, or not at all in a file without one. */
    ghost predicate ReadsAt(d: FileInfo, h: nat, pos: nat, len: nat)
      requires Formed()
      reads this, dev.disk, d, d.buf
    {
      pos <= |Stored(h)| && if h in files then Reading(d, h, pos) else len == 0
    }

    /** h names a chain, or is the number, below 2, that stands in the entry of a file without one. */
    ghost predicate Opens(h: nat)
      reads this
    {
      h in files || (h < 2 && dev.g.Reachable(h))
    }

    /** d, whose file has no chain, holds all the bytes w it was given in its buffer. */
    ghost predicate Buffered(d: FileInfo, h: nat, w: seq<u8>)
      reads d, d.buf
    {
      h < 2 && dev.g.Reachable(h) && d.cl == h && |w| == d.idx <= dev.g.Clsz() <= d.buf.Length && w == d.buf[..d.idx]
    }

    /** A write cursor that can take c more bytes: on a chain with room for them, or in its first buffer. */
    ghost predicate Takes(d: FileInfo, h: nat, w: seq<u8>, c: nat, spare: nat)
      requires Formed()
      reads this, dev.disk, d, d.buf
    {
      if h in files then CanWrite(d, h, w, c, spare) else Buffered(d, h, w) && |w| + c <= dev.g.Clsz()
    }

    /** A write cursor, on its chain or in its first buffer, that has been given w. */
    ghost predicate Given(d: FileInfo, h: nat, w: seq<u8>)
      requires Formed()
      reads this, dev.disk, d, d.buf
    {
      if h in files then Writing(d, h, w) else Buffered(d, h, w)
    }

    /** A write cursor whose chain has room for c more bytes. */
    ghost predicate CanWrite(d: FileInfo, h: nat, w: seq<u8>, c: nat, spare: nat)
      requires Formed() && h in files
      reads this, dev.disk, d, d.buf
    {
      Writing(d, h, w) && HasRoom(Vol(), h, |w| + c, spare)
    }

    lemma RoomTakes(d: FileInfo, h: nat, w: seq<u8>, c: nat, spare: nat)
      requires Formed() && h in files && Given(d, h, w) && HasRoom(Vol(), h, |w| + c, spare)
      ensures Takes(d, h, w, c, spare)
    {
    }

    lemma TakesMore(d: FileInfo, h: nat, w: seq<u8>, c: nat)
      requires Formed() && h !in files && Given(d, h, w) && |w| + c <= dev.g.Clsz()
      ensures Takes(d, h, w, c, 0)
    {
    }

    /** Take the next byte under a read cursor, moving to the next cluster first if this one is used up. */
    method NextByte(inf: FileInfo, ghost h: nat, ghost pos: nat) returns (more: bool, b: u8)
      requires Valid() && h in files && Outside(inf.buf) && Reading(inf, h, pos)
      modifies inf, inf.buf, dev, dev.cbuf
      ensures Valid()
      ensures more <==> pos < |Contents(h)|
      ensures more ==> b == Contents(h)[pos] && Reading(inf, h, pos + 1)
      ensures !more ==> pos == |Contents(h)| && Reading(inf, h, pos)
    {
      hide Geometry.ClusterLba, Geometry.CopyLba, Geometry.Stc, Geometry.Size, Fat.Coherent, Fat.Mirrored, Fat.Copy;
      hide Fat.OnDisk, Geometry.Lba, FatOf, DataOf, CopyOf, Flat, Chained, Geometry.Valid, Fat.Valid;
      ghost var data, path := dev.Data(), files[h];
      ChainFacts(h);
      CursorInside(inf, data, path, dev.g.Clsz(), pos);
      if inf.idx >= dev.g.Clsz() {
        assert inf.k + 1 < |path| ==> dev.Fat()[path[inf.k]] == path[inf.k + 1];
        var cl := dev.ReadFatEnt(inf.cl);
        if cl >= EOC {
          return false, 0;
        }
        dev.ReadCluster(cl, inf.buf);
        inf.cl := cl;
        inf.idx := 0;
        inf.k := inf.k + 1;
        CursorInside(inf, data, path, dev.g.Clsz(), pos);
      }
      more, b := true, inf.buf[inf.idx];
      inf.idx := inf.idx + 1;
    }

    /** Read up to c bytes into buf at offset off. */
    method FatRead(fp: FsFile, c: u32, buf: array<u8>, off: nat) returns (t: u32)
      requires Valid() && fp.d != null
      requires Outside(buf) && Outside(fp.d.buf) && buf != fp.d.buf
      requires fp.m == MODE_R ==>
        && ReadsAt(fp.d, fp.n.inode, fp.idx, fp.n.len)
        && off + ReadCount(fp.idx, c, fp.n.len, |Stored(fp.n.inode)|) <= buf.Length
      modifies fp.d, fp.d.buf, buf, dev, dev.cbuf
      ensures Valid()
      ensures fp.m != MODE_R ==> t == 0 && buf[..] == old(buf[..]) && unchanged(fp.d) && unchanged(fp.d.buf)
      ensures fp.m == MODE_R ==>
        && t == ReadCount(fp.idx, c, fp.n.len, |Stored(fp.n.inode)|)
        && ReadsAt(fp.d, fp.n.inode, fp.idx + t, fp.n.len)
        && fp.idx + t <= |Stored(fp.n.inode)|
        && buf[..] == Splice(old(buf[..]), off, Stored(fp.n.inode)[fp.idx..fp.idx + t])
    {
      hide FatFs.Contents, FatFs.Reading, Splice, IsChain, Disjoint, FatOf, DataOf, CopyOf, Fat.Fat, Fat.Data, Fat.Coherent, Fat.Mirrored;
      hide Fat.Valid, Chained;
      if fp.m != MODE_R {
        return 0;
      }
      var inf := fp.d;
      ghost var h, pos := fp.n.inode, fp.idx;
      ghost var all := Stored(h);
      t := 0;
      NoSplice(buf[..], off);
      while t < c
        invariant Valid() && Stored(h) == all
        invariant t <= ReadCount(pos, c, fp.n.len, |all|) && pos + t <= |all|
        invariant ReadsAt(inf, h, pos + t, fp.n.len)
        invariant buf[..] == Splice(old(buf[..]), off, all[pos..pos + t])
      {
        if fp.idx + t >= fp.n.len {
          break;
        }
        var more, b := NextByte(inf, h, pos + t);
        if !more {
          break;
        }
        buf[off + t] := b;
        SpliceOneMore(old(buf[..]), off, all[pos..pos + t], b);
        assert all[pos..pos + t] + [b] == all[pos..pos + t + 1];
        t := t + 1;
      }
    }

    lemma NoSplice(s: seq<u8>, off: nat)
      requires off <= |s|
      ensures Splice(s, off, []) == s
    {
    }

    lemma SpliceOneMore(s: seq<u8>, off: nat, d: seq<u8>, b: u8)
      requires off + |d| + 1 <= |s|
      ensures Splice(s, off, d)[off + |d| := b] == Splice(s, off, d + [b])
    {
    }

    lemma WrittenLength(d: FileInfo, data: seq<seq<u8>>, path: seq<nat>, clsz: nat, w: seq<u8>)
      requires forall i :: 0 <= i < |path| ==> path[i] < |data| && |data[path[i]]| == clsz
      requires WriterAt(d, data, path, clsz, w)
      ensures |w| == d.k * clsz + d.idx
      ensures d.idx == clsz ==> |w| == (d.k + 1) * clsz
    {
      FlatLength(data, path[..d.k], clsz);
    }

    lemma GrowthNeeded(n: nat, spare: nat, clsz: nat, size: nat)
      requires size == n * clsz && size < (n + spare) * clsz
      ensures spare > 0
    {
    }

    /** Find an unused cluster, store its number in entry last and end-mark it. */
    method Link(last: nat, ghost spare: nat) returns (cl: nat)
      requires dev.Valid() && last < 128 * dev.g.spf && spare > 0 && CanGrow(dev.Fat(), dev.g.limit, last, spare)
      modifies dev, dev.cbuf, dev.disk
      ensures dev.Valid() && dev.Data() == old(dev.Data())
      ensures 2 <= cl < dev.g.limit && IsFree(old(dev.Fat()), cl)
      ensures dev.Fat() == Linked(old(dev.Fat()), last, cl) == old(dev.Fat())[last := cl][cl := 0x0fff_fff8]
      ensures CanGrow(dev.Fat(), dev.g.limit, cl, spare - 1)
    {
      hide Geometry.ClusterLba, Geometry.CopyLba, Geometry.Stc, Geometry.Size, Fat.Coherent, Fat.Mirrored, Fat.Copy;
      hide FatOf, DataOf, CopyOf, CanGrow, LeastHit, IsFree, ScanHit;
      ghost var fat := dev.Fat();
      var found;
      found, cl := dev.FindUnusedCluster();
      assert dev.Fat() == fat;
      GrowPick(fat, dev.g.limit, last, spare, found, cl);
      dev.WriteFatEnt(last, cl);
      dev.WriteFatEnt(cl, EOC);
    }

    /** Link an unused cluster behind the last cluster of chain h. */
    method Extend(ghost h: nat, last: nat, ghost spare: nat) returns (cl: nat)
      requires Valid() && h in files && last == files[h][|files[h]| - 1]
      requires spare > 0 && CanGrow(dev.Fat(), dev.g.limit, last, spare)
      modifies this, dev, dev.cbuf, dev.disk
      ensures Valid() && dev.Data() == old(dev.Data())
      ensures files == old(files)[h := old(files)[h] + [cl]]
      ensures cl < dev.g.limit && IsFree(old(dev.Fat()), cl)
      ensures dev.Fat() == Linked(old(dev.Fat()), last, cl)
      ensures CanGrow(dev.Fat(), dev.g.limit, cl, spare - 1)
    {
      hide Geometry.ClusterLba, Geometry.CopyLba, Geometry.Stc, Geometry.Size, Fat.Coherent, Fat.Mirrored, Fat.Copy;
      hide FatOf, DataOf, CopyOf, Flat, Chained, IsChain, CanGrow, LeastHit, IsFree, ScanHit, Linked;
      ghost var fat := dev.Fat();
      ChainFacts(h);
      HasLast(fat, dev.g.limit, files[h]);
      cl := Link(last, spare);
      ExtendKeepsChained(fat, dev.g.limit, files, h, cl);
      files := files[h := files[h] + [cl]];
    }

    /** Entries 0 and 1 are on no chain, so that a new chain can start behind them. */
    lemma ReservedKeepsChained(fat: seq<u32>, limit: nat, m: map<nat, seq<nat>>, e: nat, p: u32)
      requires Chained(fat, limit, m) && e < 2 <= limit <= |fat| && IsFree(fat, p) && p < limit
      ensures p !in m && Chained(Linked(fat, e, p), limit, m[p := [p]])
    {
      forall h | h in m
        ensures IsChain(fat[e := p], limit, m[h])
      {
        assert IsChain(fat, limit, m[h]);
      }
      NewKeepsChained(fat[e := p], limit, m, p);
    }

    /** Take an unused cluster as the only cluster of a new chain. */
    method NewChain(ghost last: nat) returns (cl: nat)
      requires Valid() && CanGrow(dev.Fat(), dev.g.limit, last, 1)
      modifies this, dev, dev.cbuf, dev.disk
      ensures Valid() && dev.Data() == old(dev.Data())
      ensures 2 <= cl < dev.g.limit && IsFree(old(dev.Fat()), cl) && cl !in old(files)
      ensures dev.Fat() == old(dev.Fat())[cl := EOC] == old(dev.Fat())[cl := 0x0fff_fff8]
      ensures files == old(files)[cl := [cl]]
    {
      hide Geometry.ClusterLba, Geometry.CopyLba, Geometry.Stc, Geometry.Size, Fat.Coherent, Fat.Mirrored, Fat.Copy;
      hide FatOf, DataOf, CopyOf, Flat, Chained, IsChain, CanGrow, LeastHit, IsFree, ScanHit;
      var found;
      found, cl := dev.FindUnusedCluster();
      GrowPick(dev.Fat(), dev.g.limit, last, 1, found, cl);
      NewKeepsChained(dev.Fat(), dev.g.limit, files, cl);
      dev.WriteFatEnt(cl, EOC);
      files := files[cl := [cl]];
    }

    /** A write cursor whose chain grew, or whose current cluster was flushed, is still a write cursor. */
    lemma WriterMoves(d: FileInfo, data: seq<seq<u8>>, path: seq<nat>, path': seq<nat>, clsz: nat, w: seq<u8>)
      requires forall i :: 0 <= i < |path'| ==> path'[i] < |data| && |data[path'[i]]| == clsz
      requires path <= path' && (forall i, j :: 0 <= i < j < |path'| ==> path'[i] != path'[j])
      requires WriterAt(d, data, path, clsz, w)
      ensures WriterAt(d, data, path', clsz, w)
      ensures var data' := data[d.cl := d.buf[..clsz]];
        d.idx == clsz ==> w == Flat(data', path'[..d.k + 1])
    {
      assert path[..d.k] == path'[..d.k];
      var data' := data[d.cl := d.buf[..clsz]];
      FlatStep(data', path', d.k);
      FlatFrame(data, data', path'[..d.k]);
    }

    /** The cluster that follows cluster k of chain h, linked now if the chain ends at k. */
    method NextOrNew(ghost h: nat, ghost k: nat, at: nat, ghost size: nat, ghost spare: nat) returns (cl: nat, ghost rest: nat)
      requires Valid() && h in files && k < |files[h]| && at == files[h][k]
      requires size == (k + 1) * dev.g.Clsz() && HasRoom(Vol(), h, size + 1, spare)
      modifies this, dev, dev.cbuf, dev.disk
      ensures Valid() && dev.Data() == old(dev.Data())
      ensures Grown(old(Vol()), Vol(), h, size + 1, spare, rest)
      ensures k + 1 < |files[h]| && cl == files[h][k + 1]
    {
      hide Geometry.ClusterLba, Geometry.CopyLba, Geometry.Stc, Geometry.Size, Fat.Coherent, Fat.Mirrored, Fat.Copy;
      hide FatOf, DataOf, CopyOf, Flat, Geometry.Valid, Geometry.Clsz, Fat.Valid, Chained, CanGrow;
      rest := spare;
      ghost var path := files[h];
      ChainFacts(h);
      assert k + 1 < |path| ==> dev.Fat()[path[k]] == path[k + 1];
      cl := dev.ReadFatEnt(at);
      if cl >= EOC {
        GrowthNeeded(|path|, spare, dev.g.Clsz(), size);
        cl := Extend(h, at, spare);
        rest := spare - 1;
      }
    }

    /** Write a full buffer to its cluster and move to the next one of the chain. */
    method FlushTo(inf: FileInfo, ghost h: nat, ghost w: seq<u8>, cl: nat)
      requires Valid() && h in files && Outside(inf.buf) && Writing(inf, h, w)
      requires inf.idx == dev.g.Clsz() && inf.k + 1 < |files[h]| && cl == files[h][inf.k + 1]
      modifies inf, dev.disk
      ensures Valid() && inf.idx == 0 && Writing(inf, h, w)
      ensures old(inf.cl) in files[h] && 2 <= old(inf.cl) < |old(dev.Data())|
      ensures Vol() == old(Vol()).(data := old(dev.Data())[old(inf.cl) := inf.buf[..dev.g.Clsz()]])
    {
      hide Geometry.ClusterLba, Geometry.CopyLba, Geometry.Stc, Geometry.Size, Fat.Coherent, Fat.Mirrored, Fat.Copy;
      hide FatOf, DataOf, CopyOf, Flat, Geometry.Valid, Geometry.Clsz, Fat.Valid, Chained, IsChain;
      ChainFacts(h);
      ChainIsAcyclic(dev.Fat(), dev.g.limit, files[h]);
      WriterMoves(inf, dev.Data(), files[h], files[h], dev.g.Clsz(), w);
      dev.WriteCluster(inf.cl, inf.buf);
      inf.idx := 0;
      inf.cl := cl;
      inf.k := inf.k + 1;
    }

    /** A chain that grew is still written to where it was. */
    lemma StillWriting(inf: FileInfo, data: seq<seq<u8>>, path: seq<nat>, h: nat, w: seq<u8>)
      requires Formed() && h in files && data == dev.Data() && path <= files[h]
      requires (forall i :: 0 <= i < |path| ==> path[i] < |data|) && WriterAt(inf, data, path, dev.g.Clsz(), w)
      ensures Writing(inf, h, w)
    {
      assert path[..inf.k] == files[h][..inf.k];
    }

    /** Flush a full write buffer and move to the next cluster, linking a new one at the end of the chain. */
    method FlushFull(inf: FileInfo, ghost h: nat, ghost w: seq<u8>, ghost spare: nat) returns (ghost rest: nat)
      requires Valid() && h in files && Outside(inf.buf) && Writing(inf, h, w)
      requires inf.idx == dev.g.Clsz()
      requires HasRoom(Vol(), h, |w| + 1, spare)
      modifies this, inf, dev, dev.cbuf, dev.disk
      ensures Valid() && inf.idx == 0 && Grown(old(Vol()), Vol(), h, |w| + 1, spare, rest)
      ensures Writing(inf, h, w)
    {
      hide Geometry.ClusterLba, Geometry.CopyLba, Geometry.Stc, Geometry.Size, Fat.Coherent, Fat.Mirrored, Fat.Copy;
      hide FatOf, DataOf, CopyOf, Flat, Geometry.Valid, Geometry.Clsz, Fat.Valid, Chained, CanGrow, IsChain, Grown;
      ghost var v, data, path := Vol(), dev.Data(), files[h];
      ChainFacts(h);
      WrittenLength(inf, data, path, dev.g.Clsz(), w);
      var cl;
      cl, rest := NextOrNew(h, inf.k, inf.cl, |w|, spare);
      ghost var v1, c := Vol(), inf.cl;
      GrownPrefix(v, v1, h, |w| + 1, spare, rest);
      StillWriting(inf, data, path, h, w);
      FlushTo(inf, h, w, cl);
      GrownWrite(v, v1, h, |w| + 1, spare, rest, c, inf.buf[..dev.g.Clsz()]);
    }

    /** Behind entry 0 or 1, until now an end mark, a new chain starts. */
    method LinkUnplaced(at: nat, ghost spare: nat) returns (cl: nat)
      requires Valid() && at < 2 && dev.Fat()[at] >= EOC && spare > 0 && CanGrow(dev.Fat(), dev.g.limit, at, spare)
      modifies this, dev, dev.cbuf, dev.disk
      ensures Valid() && cl !in old(files) && files == old(files)[cl := [cl]] && 2 <= cl < dev.g.limit
      ensures IsFree(old(dev.Fat()), cl) && dev.Fat() == Linked(old(dev.Fat()), at, cl) && dev.Data() == old(dev.Data())
    {
      hide Geometry.ClusterLba, Geometry.CopyLba, Geometry.Stc, Geometry.Size, Fat.Coherent, Fat.Mirrored, Fat.Copy;
      hide FatOf, DataOf, CopyOf, Chained, IsChain, CanGrow, LeastHit, IsFree, ScanHit, Linked, Geometry.Clsz;
      ghost var fat := dev.Fat();
      cl := dev.ReadFatEnt(at);
      assert cl >= EOC;
      cl := Link(at, spare);
      ReservedKeepsChained(fat, dev.g.limit, files, at, cl);
      files := files[cl := [cl]];
    }

    /**
     The first flush of a file without a chain: entry 0 or 1 of the FAT gets the number of the cluster found, the new chain
     there is what is written from now on, and the buffer goes over the last FAT copy.
     */
    method FlushUnplaced(inf: FileInfo, ghost w: seq<u8>, ghost spare: nat)
      requires Valid() && Outside(inf.buf) && Buffered(inf, inf.cl, w) && |w| == dev.g.Clsz() && dev.Fat()[inf.cl] >= EOC
      requires 2 <= dev.g.nfat && 2 * dev.g.spc <= dev.g.spf
      requires spare > 0 && CanGrow(dev.Fat(), dev.g.limit, inf.cl, spare)
      modifies this, inf, dev, dev.cbuf, dev.disk
      ensures Formed() && inf.cl !in old(files) && files == old(files)[inf.cl := [inf.cl]] && Writing(inf, inf.cl, [])
      ensures IsFree(old(dev.Fat()), inf.cl) && inf.cl < dev.g.limit
      ensures dev.Fat() == Linked(old(dev.Fat()), old(inf.cl), inf.cl) && dev.Data() == old(dev.Data())
      ensures 0 <= dev.g.LowOff(old(inf.cl)) && dev.Copy(dev.g.nfat - 1) == Splice(dev.Copy(0), dev.g.LowOff(old(inf.cl)), w)
    {
      hide Geometry.ClusterLba, Geometry.CopyLba, Geometry.Stc, Geometry.Size, Fat.Coherent, Splice;
      hide FatOf, DataOf, CopyOf, Chained, IsChain, CanGrow, IsFree, Linked;
      assert inf.buf[..dev.g.Clsz()] == w;
      var cl := LinkUnplaced(inf.cl, spare);
      assert dev.Copy(dev.g.nfat - 1) == dev.Copy(0);
      dev.WriteCluster(inf.cl, inf.buf);
      inf.idx := 0;
      inf.cl := cl;
      inf.k := 0;
    }

    /** Put one byte under a write cursor, first flushing its buffer and moving on if the buffer is full. */
    method PutByte(inf: FileInfo, ghost h: nat, ghost w: seq<u8>, b: u8, ghost spare: nat) returns (ghost rest: nat)
      requires Valid() && Outside(inf.buf) && Takes(inf, h, w, 1, spare)
      modifies this, inf, inf.buf, dev, dev.cbuf, dev.disk
      ensures Valid() && Given(inf, h, w + [b])
      ensures files.Keys == old(files.Keys)
      ensures if h in files then Grown(old(Vol()), Vol(), h, |w| + 1, spare, rest) else rest == spare && Vol() == old(Vol()) && dev.disk[..] == old(dev.disk[..])
    {
      hide Geometry.ClusterLba, Geometry.CopyLba, Geometry.Stc, Geometry.Size, Fat.Coherent, Fat.Mirrored, Fat.Copy;
      hide FatOf, DataOf, CopyOf, Flat, Geometry.Valid, Fat.Valid, Chained;
      rest := spare;
      if inf.idx >= dev.g.Clsz() {
        rest := FlushFull(inf, h, w, spare);
      }
      inf.buf[inf.idx] := b;
      inf.idx := inf.idx + 1;
    }

    /**
     Write the c bytes at buf[off..]. The counter that is returned is never set: the loop counts in a
     second variable of the same name. stale is the value the returned one happens to hold.
     */
    method FatWrite(fp: FsFile, c: u32, buf: array<u8>, off: nat, stale: u32, ghost w: seq<u8>, ghost spare: nat)
      returns (t: u32, ghost rest: nat)
      requires Valid() && fp.d != null
      requires Outside(buf) && Outside(fp.d.buf) && buf != fp.d.buf && off + c <= buf.Length
      requires fp.m == MODE_W ==> Takes(fp.d, fp.n.inode, w, c, spare)
      modifies this, fp.d, fp.d.buf, dev, dev.cbuf, dev.disk
      ensures Valid() && files.Keys == old(files.Keys)
      ensures fp.m != MODE_W ==> t == 0 && Vol() == old(Vol()) && unchanged(fp.d) && unchanged(fp.d.buf)
      ensures fp.m == MODE_W ==>
        && t == stale && Given(fp.d, fp.n.inode, w + buf[off..off + c])
        && (if fp.n.inode in files then Grown(old(Vol()), Vol(), fp.n.inode, |w| + c, spare, rest)
            else rest == spare && Vol() == old(Vol()) && dev.disk[..] == old(dev.disk[..]))
    {
      hide Geometry.ClusterLba, Geometry.CopyLba, Geometry.Stc, Geometry.Size, Fat.Coherent, Fat.Mirrored, Fat.Copy;
      hide FatOf, DataOf, CopyOf, Flat, Chained, CanGrow, FatFs.Writing, Geometry.Clsz, FatFs.Vol;
      rest := spare;
      if fp.m != MODE_W {
        return 0, rest;
      }
      var inf := fp.d;
      ghost var h, v := fp.n.inode, Vol();
      assert w + buf[off..off + 0] == w;
      for i := 0 to c
        invariant Valid() && files.Keys == v.files.Keys && Given(inf, h, w + buf[off..off + i])
        invariant if h in files then Grown(v, Vol(), h, |w| + i, spare, rest) else rest == spare && Vol() == v && dev.disk[..] == old(dev.disk[..])
      {
        ghost var sofar, mid, v1 := w + buf[off..off + i], rest, Vol();
        assert sofar + [buf[off + i]] == w + buf[off..off + i + 1];
        rest := PutByte(inf, h, sofar, buf[off + i], mid);
        if h in files {
          GrownTrans(v, v1, Vol(), h, |w| + i, |w| + i + 1, spare, mid, rest);
        }
      }
      t := stale;
    }

    /** Give an open file its cursor at the start of its chain, or wherever the number 0 or 1 leads. */
    method FatOpen(fp: FsFile)
      requires Valid() && Opens(fp.n.inode)
      modifies fp
      ensures Valid() && fp.d != null && fresh(fp.d) && fresh(fp.d.buf)
      ensures fp.idx == old(fp.idx)
      ensures fp.m == MODE_R && (fp.n.inode in files || fp.n.len == 0) ==> ReadsAt(fp.d, fp.n.inode, 0, fp.n.len)
      ensures fp.m == MODE_W ==> Given(fp.d, fp.n.inode, [])
    {
      hide Geometry.ClusterLba, Geometry.CopyLba, Geometry.Stc, Geometry.Size, Fat.Coherent, Fat.Mirrored, Fat.Copy;
      hide FatOf, DataOf, CopyOf, Fat.Valid, Chained, Geometry.Lba;
      var inf := new FileInfo(fp.n.inode, dev.g.spf * SECTOR);
      fp.d := inf;
      if fp.n.inode in files {
        ChainFacts(fp.n.inode);
      }
      if fp.m == MODE_R {
        dev.ReadCluster(inf.cl, inf.buf);
      }
    }

    /** Flush a write cursor's last buffer. */
    method FlushLast(inf: FileInfo, ghost h: nat, ghost w: seq<u8>)
      requires Valid() && Outside(inf.buf) && Given(inf, h, w)
      modifies dev.disk
      ensures dev.Sound() && inf.cl < EOC
      ensures h in files ==>
        && Valid() && w <= Contents(h) && dev.Fat() == old(dev.Fat())
        && forall k :: 0 <= k < dev.g.limit && k !in files[h] ==> dev.Data()[k] == old(dev.Data())[k]
      ensures h !in files && 2 * dev.g.spc <= dev.g.spf ==>
        && dev.Data() == old(dev.Data()) && (2 <= dev.g.nfat ==> dev.Fat() == old(dev.Fat()))
        && Misplaced(dev.g, old(dev.disk[..]), h, w, inf.buf[..dev.g.Clsz()], dev.Copy(dev.g.nfat - 1), dev.Fat(), dev.Valid())
    {
      hide Geometry.ClusterLba, Geometry.CopyLba, Geometry.Stc, Geometry.Size, Fat.Coherent, Fat.Mirrored;
      hide FatOf, DataOf, CopyOf, Flat, Geometry.Valid, Geometry.Clsz, Fat.Valid, PartAt, Geometry.Lba, Splice;
      if h in files {
        FlushedChain(inf, h, w);
      } else if 2 * dev.g.spc <= dev.g.spf {
        LowClusterPlace(dev.g, h);
      }
      if inf.idx > 0 {
        dev.WriteCluster(inf.cl, inf.buf);
      }
    }

    /** What the last flush will make of the chain's contents. */
    lemma FlushedChain(inf: FileInfo, h: nat, w: seq<u8>)
      requires Formed() && h in files && Writing(inf, h, w)
      ensures 2 <= inf.cl < dev.g.limit && dev.g.limit <= EOC && inf.cl in files[h]
      ensures inf.idx == 0 ==> w <= Contents(h)
      ensures var data' := dev.Data()[inf.cl := inf.buf[..dev.g.Clsz()]]; w <= Flat(data', files[h])
    {
      hide Geometry.ClusterLba, Geometry.CopyLba, Geometry.Stc, Geometry.Size, FatOf, DataOf, CopyOf, Flat, Geometry.Valid, Geometry.Clsz;
      var data, path := dev.Data(), files[h];
      var data' := data[inf.cl := inf.buf[..dev.g.Clsz()]];
      ChainFacts(h);
      ChainIsAcyclic(dev.Fat(), dev.g.limit, path);
      FlatStep(data, path, inf.k);
      FlatFrame(data, data', path[..inf.k]);
      FlatStep(data', path, inf.k);
    }

    /** Store a length in the node and in the directory slot it remembers. */
    method StoreLength(n: FsNode, len: u32)
      requires dev.Sound() && 2 <= n.implCl < dev.g.limit && n.implOff + 32 <= dev.g.Clsz()
      modifies n`len, dev.disk
      ensures n.len == len && dev.Valid() == old(dev.Valid()) && dev.Fat() == old(dev.Fat())
      ensures dev.Copy(dev.g.nfat - 1) == old(dev.Copy(dev.g.nfat - 1))
      ensures dev.Data() == old(dev.Data())[n.implCl := Splice(old(dev.Data())[n.implCl], n.implOff + 28, Le32(len))]
    {
      hide Geometry.ClusterLba, Geometry.CopyLba, Geometry.Stc, Geometry.Size, Fat.Coherent, Fat.Mirrored, Fat.Copy;
      hide FatOf, DataOf, CopyOf, Fat.Valid;
      n.len := len;
      var buf := new u8[dev.g.Clsz()];
      dev.ReadCluster(n.implCl, buf);
      assert buf[..] == buf[..buf.Length] == dev.Data()[n.implCl];
      StoreWord(buf, n.implOff + 28, len);
      assert buf[..] == buf[..buf.Length];
      dev.WriteCluster(n.implCl, buf);
    }

    /**
     Close a file. For a written file, flush the buffer and store the length in the directory entry that
     the node remembers. The loop meant to give surplus clusters back leaves at once, because the cursor's
     cluster number is never an end mark; the chain stays as long as it was. The bytes of a file without a chain go to
     the FAT.
     */
    method FatClose(fp: FsFile, ghost w: seq<u8>)
      requires Valid() && fp.d != null && Outside(fp.d.buf)
      requires fp.m == MODE_W ==>
        && Given(fp.d, fp.n.inode, w)
        && 2 <= fp.n.implCl < dev.g.limit && (fp.n.inode in files ==> fp.n.implCl !in files[fp.n.inode])
        && fp.n.implOff + 32 <= dev.g.Clsz()
      modifies if fp.m == MODE_W then {fp.n, dev.disk} else {}
      ensures dev.Sound() && (fp.m != MODE_W ==> Valid())
      ensures fp.m == MODE_W ==>
        fp.n.len == fp.idx && unchanged(fp.n`inode, fp.n`mask, fp.n`ptr, fp.n`first, fp.n`filled, fp.n`implCl, fp.n`implOff)
      ensures fp.m == MODE_W && fp.n.inode in files ==>
        && Valid() && w <= Contents(fp.n.inode) && dev.Fat() == old(dev.Fat())
        && LengthStored(old(dev.Data()), dev.Data(), fp.n.implCl, fp.n.implOff, fp.idx)
        && forall k :: 0 <= k < dev.g.limit && k !in files[fp.n.inode] && k != fp.n.implCl ==>
             dev.Data()[k] == old(dev.Data())[k]
      ensures fp.m == MODE_W && fp.n.inode !in files && 2 * dev.g.spc <= dev.g.spf ==>
        && LengthStored(old(dev.Data()), dev.Data(), fp.n.implCl, fp.n.implOff, fp.idx)
        && (forall k :: 0 <= k < dev.g.limit && k != fp.n.implCl ==> dev.Data()[k] == old(dev.Data())[k])
        && (2 <= dev.g.nfat ==> dev.Fat() == old(dev.Fat()) && Formed())
        && Misplaced(dev.g, old(dev.disk[..]), fp.n.inode, w, fp.d.buf[..dev.g.Clsz()], dev.Copy(dev.g.nfat - 1), dev.Fat(), dev.Valid())
    {
      hide Geometry.ClusterLba, Geometry.CopyLba, Geometry.Stc, Geometry.Size, Fat.Coherent, Fat.Mirrored, Fat.Copy;
      hide FatOf, DataOf, CopyOf, Flat, Chained, FatFs.Writing, IsChain, Fat.Valid, Misplaced, Splice, Geometry.Valid;
      var inf := fp.d;
      if fp.m == MODE_W {
        FlushLast(inf, fp.n.inode, w);
        assert inf.cl < EOC;
        ghost var data := dev.Data();
        if fp.n.inode in files {
          ChainFacts(fp.n.inode);
        }
        StoreLength(fp.n, fp.idx);
        if fp.n.inode in files {
          ChainFacts(fp.n.inode);
          FlatFrame(data, dev.Data(), files[fp.n.inode]);
        }
      }
    }
  }
}
