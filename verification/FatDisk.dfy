/**
 The sector level of the FAT32 driver: whole-sector device access, the one-sector FAT cache, the
 mirrored FAT copies and the free-cluster scan. The disk is a flat array of bytes. Two abstract
 values summarise it for the layers above: Fat(), the entries of the first FAT copy, and Data(),
 the bytes of each cluster.
 */
module FatDisk {
  import opened Bytes

  const SECTOR: nat := 512
  const EOC: u32 := 0x0fff_fff8

  /** Where the partition's parts lie, in sectors. Clusters 2..limit exist. */
  datatype Geometry = Geometry(addr: nat, stf: nat, spc: nat, spf: nat, nfat: nat, limit: nat) {
    predicate Valid() {
      && 1 <= spc && 1 <= spf && 1 <= nfat
      && 2 <= limit <= 128 * spf <= 0x1000_0000 && limit <= EOC
      && Size() <= SECTOR * 0x7fff_ffff
    }

    /** Start of the data area: it follows the last FAT copy. */
    function Stc(): nat {
      stf + nfat * spf
    }

    function Clsz(): nat {
      spc * SECTOR
    }

    /** First sector and byte offset of FAT copy i. */
    function CopyLba(i: nat): nat {
      addr + stf + spf * i
    }

    function CopyOff(i: nat): nat {
      CopyLba(i) * SECTOR
    }

    function CopySize(): nat {
      spf * SECTOR
    }

    /** First sector and byte offset of cluster cn. */
    function ClusterLba(cn: nat): nat
      requires 2 <= cn
    {
      (cn - 2) * spc + Stc() + addr
    }

    function ClusterOff(cn: nat): nat
      requires 2 <= cn
    {
      ClusterLba(cn) * SECTOR
    }

    /** The first sector of cluster cn as the driver computes it, in 32-bit arithmetic and for every cn. */
    function Lba(cn: nat): nat {
      ((cn - 2) * spc + Stc() + addr) % 0x1_0000_0000
    }

    /** A cluster number that leads into the volume: clusters 0 and 1 do if there are that many sectors before the data area. */
    predicate Reachable(cn: nat) {
      cn < limit && (cn < 2 ==> Short(cn) <= CopyLba(nfat))
    }

    /** How many sectors in front of the data area cluster 0 or 1 begins. */
    function Short(cn: nat): nat {
      if cn == 0 then 2 * spc else spc
    }

    /** The n sectors from lba on have one in common with the FAT copies. */
    predicate MeetsFat(lba: nat, n: nat) {
      lba < CopyLba(nfat) && CopyLba(0) < lba + n
    }

    /** Where in the last FAT copy cluster 0 or 1 begins. */
    function LowOff(cn: nat): int {
      (spf - Short(cn)) * SECTOR
    }

    function Size(): nat
      requires 2 <= limit
    {
      ClusterOff(limit)
    }
  }

  /** FAT copies are disjoint and all precede the data area. */
  lemma CopyLayout(g: Geometry, i: nat, j: nat)
    requires g.Valid() && i < j <= g.nfat
    ensures g.CopyOff(i) + g.CopySize() <= g.CopyOff(j) <= g.ClusterOff(2)
  {
    MulMono(i + 1, j, g.spf);
    MulMono(j, g.nfat, g.spf);
    assert (i + 1) * g.spf == g.spf * i + g.spf;
  }

  /** Clusters are disjoint, lie behind every FAT copy and inside the partition. */
  lemma ClusterLayout(g: Geometry, c: nat, d: nat)
    requires g.Valid() && 2 <= c < d <= g.limit
    ensures g.ClusterOff(2) <= g.ClusterOff(c)
    ensures g.ClusterOff(c) + g.Clsz() <= g.ClusterOff(d) <= g.Size()
  {
    MulMono(c - 1, d - 2, g.spc);
    MulMono(d - 2, g.limit - 2, g.spc);
    MulMono(0, c - 2, g.spc);
    assert (c - 1) * g.spc == (c - 2) * g.spc + g.spc;
  }

  /** The driver's address of a cluster: from cluster 2 on where the cluster is, below that in front of the data area. */
  lemma LbaIs(g: Geometry, cn: nat)
    requires g.Valid() && g.Reachable(cn)
    ensures g.Lba(cn) == if 2 <= cn then g.ClusterLba(cn) else g.CopyLba(g.nfat) - g.Short(cn)
    ensures g.Lba(cn) * SECTOR + g.Clsz() <= g.Size()
  {
    if 2 <= cn {
      ClusterLayout(g, cn, g.limit);
      SmallMod(g.ClusterLba(cn));
    } else {
      ClusterStart(g);
      LowAddress(cn, g.spc);
      SmallMod(g.CopyLba(g.nfat) - g.Short(cn));
    }
  }

  lemma LowAddress(cn: nat, spc: nat)
    requires cn < 2
    ensures (cn - 2) * spc == if cn == 0 then -(2 * spc as int) else -(spc as int)
  {
    if cn == 0 {
      assert (cn - 2) * spc == -2 * spc as int;
    }
  }

  lemma SmallMod(a: nat)
    requires a < 0x1_0000_0000
    ensures a % 0x1_0000_0000 == a
  {
  }

  /**
   Which cluster numbers the driver keeps away from the FAT, exactly: with at least two copies, none shorter than a cluster,
   those from 2 on. Below 2 the address falls short of the data area; into the last copy if two clusters fit in a copy.
   */
  lemma MissesFatExactly(g: Geometry, cn: nat)
    requires g.Valid() && g.Reachable(cn)
    ensures !g.MeetsFat(g.Lba(cn), g.spc) <==> 2 <= cn || (cn == 0 && g.nfat * g.spf <= g.spc)
    ensures g.spc <= g.spf && 2 <= g.nfat ==> (!g.MeetsFat(g.Lba(cn), g.spc) <==> 2 <= cn)
  {
    LbaIs(g, cn);
    CopiesFrom(g);
    if 2 <= cn {
      ClusterStartsAfter(g, cn);
    }
  }

  lemma CopiesFrom(g: Geometry)
    requires g.Valid()
    ensures g.CopyLba(g.nfat) == g.CopyLba(0) + g.nfat * g.spf
    ensures g.spf <= g.nfat * g.spf && (2 <= g.nfat ==> 2 * g.spf <= g.nfat * g.spf)
    ensures g.CopyLba(g.nfat - 1) + g.spf == g.CopyLba(g.nfat)
  {
    MulMono(1, g.nfat, g.spf);
    if 2 <= g.nfat {
      MulMono(2, g.nfat, g.spf);
    }
  }

  lemma ClusterStartsAfter(g: Geometry, cn: nat)
    requires 2 <= cn
    ensures g.CopyLba(g.nfat) <= g.ClusterLba(cn)
  {
    MulMono(0, cn - 2, g.spc);
  }

  /** Clusters 0 and 1 lie in the last FAT copy if two clusters fit in a copy. */
  lemma LowClusterPlace(g: Geometry, cn: nat)
    requires g.Valid() && g.Reachable(cn) && cn < 2 && 2 * g.spc <= g.spf
    ensures 1 <= g.nfat && 0 <= g.LowOff(cn) && g.LowOff(cn) + g.Clsz() <= g.CopySize()
    ensures g.Lba(cn) * SECTOR == g.CopyOff(g.nfat - 1) + g.LowOff(cn)
  {
    LbaIs(g, cn);
    CopiesFrom(g);
  }

  /** The entries of a FAT copy. */
  function FatOf(copy: seq<u8>): (fat: seq<u32>)
    ensures |fat| == |copy| / 4
    ensures forall k :: 0 <= k < |fat| ==> fat[k] == Word(copy, 4 * k)
  {
    seq(|copy| / 4, k requires 0 <= k < |copy| / 4 => Word(copy, 4 * k))
  }

  function ClusterOf(g: Geometry, image: seq<u8>, c: nat): (cluster: seq<u8>)
    requires g.Valid() && g.Size() <= |image| && 2 <= c < g.limit
    ensures |cluster| == g.Clsz()
  {
    ClusterLayout(g, c, g.limit);
    image[g.ClusterOff(c)..g.ClusterOff(c) + g.Clsz()]
  }

  ghost predicate AllCopiesEqual(g: Geometry, image: seq<u8>)
    requires g.Valid() && g.Size() <= |image|
  {
    forall i :: 0 <= i < g.nfat ==> CopyOf(g, image, i) == CopyOf(g, image, 0)
  }

  /** The part of an image at the driver's address of cn: the cluster, or for 0 and 1 what lies in front of the data area. */
  function PartAt(g: Geometry, image: seq<u8>, cn: nat): (bytes: seq<u8>)
    requires g.Valid() && g.Size() <= |image| && g.Reachable(cn)
    ensures |bytes| == g.Clsz()
    ensures 2 <= cn ==> bytes == ClusterOf(g, image, cn)
  {
    LbaIs(g, cn);
    image[g.Lba(cn) * SECTOR..g.Lba(cn) * SECTOR + g.Clsz()]
  }

  /** The clusters of a partition image; there is no cluster 0 or 1. */
  function DataOf(g: Geometry, image: seq<u8>): (data: seq<seq<u8>>)
    requires g.Valid() && g.Size() <= |image|
    ensures |data| == g.limit
    ensures forall c :: 2 <= c < g.limit ==> |data[c]| == g.Clsz()
  {
    seq(g.limit, c requires 0 <= c < g.limit => if c < 2 then [] else ClusterOf(g, image, c))
  }

  /** The bytes of FAT copy i in a partition image. */
  function CopyOf(g: Geometry, image: seq<u8>, i: nat): (copy: seq<u8>)
    requires g.Valid() && g.Size() <= |image| && i < g.nfat
    ensures |copy| == g.CopySize()
  {
    CopyLayout(g, i, g.nfat);
    ClusterStart(g);
    image[g.CopyOff(i)..g.CopyOff(i) + g.CopySize()]
  }

  lemma ClusterStart(g: Geometry)
    requires g.Valid()
    ensures g.ClusterOff(2) <= g.Size()
  {
    if 2 < g.limit { ClusterLayout(g, 2, g.limit); }
  }

  /** Writing a whole cluster changes that cluster only and no FAT copy. */
  lemma ClusterUpdate(g: Geometry, image: seq<u8>, cn: nat, t: seq<u8>)
    requires g.Valid() && g.Size() <= |image| && 2 <= cn < g.limit && |t| == g.Clsz()
    ensures g.ClusterOff(cn) + |t| <= |image|
    ensures DataOf(g, Splice(image, g.ClusterOff(cn), t)) == DataOf(g, image)[cn := t]
    ensures forall i :: 0 <= i < g.nfat ==> CopyOf(g, Splice(image, g.ClusterOff(cn), t), i) == CopyOf(g, image, i)
    ensures AllCopiesEqual(g, image) ==> AllCopiesEqual(g, Splice(image, g.ClusterOff(cn), t))
  {
    ClusterLayout(g, cn, g.limit);
    var after := Splice(image, g.ClusterOff(cn), t);
    forall c | 2 <= c < g.limit
      ensures ClusterOf(g, after, c) == if c == cn then t else ClusterOf(g, image, c)
    {
      if c < cn { ClusterLayout(g, c, cn); } else if cn < c { ClusterLayout(g, cn, c); }
      ClusterLayout(g, c, g.limit);
      SliceOfSplice(image, g.ClusterOff(cn), t, g.ClusterOff(c), g.ClusterOff(c) + g.Clsz());
    }
    forall i | 0 <= i < g.nfat
      ensures CopyOf(g, after, i) == CopyOf(g, image, i)
    {
      CopyLayout(g, i, g.nfat);
      SliceOfSplice(image, g.ClusterOff(cn), t, g.CopyOff(i), g.CopyOff(i) + g.CopySize());
    }
  }

  /** Writing inside FAT copy i changes that part of that copy only and no cluster. */
  lemma CopyUpdate(g: Geometry, image: seq<u8>, i: nat, off: nat, t: seq<u8>)
    requires g.Valid() && g.Size() <= |image| && i < g.nfat && off + |t| <= g.CopySize()
    ensures g.CopyOff(i) + off + |t| <= |image|
    ensures var after := Splice(image, g.CopyOff(i) + off, t);
      && DataOf(g, after) == DataOf(g, image)
      && forall j :: 0 <= j < g.nfat ==>
           CopyOf(g, after, j) == if j == i then Splice(CopyOf(g, image, j), off, t) else CopyOf(g, image, j)
  {
    hide Geometry.Valid, Geometry.CopyOff, Geometry.CopyLba, Geometry.CopySize, Geometry.ClusterLba, Geometry.ClusterOff, Geometry.Stc, Geometry.Size;
    hide Splice;
    CopyInside(g, image, i);
    var a := g.CopyOff(i) + off;
    var after := Splice(image, a, t);
    forall c | 2 <= c < g.limit
      ensures ClusterOf(g, after, c) == ClusterOf(g, image, c)
    {
      CopyMissesCluster(g, i, c);
      SliceOfSplice(image, a, t, g.ClusterOff(c), g.ClusterOff(c) + g.Clsz());
    }
    forall j | 0 <= j < g.nfat
      ensures CopyOf(g, after, j) == if j == i then Splice(CopyOf(g, image, j), off, t) else CopyOf(g, image, j)
    {
      if j < i { CopyLayout(g, j, i); } else if i < j { CopyLayout(g, i, j); }
      CopyInside(g, image, j);
      SliceOfSplice(image, a, t, g.CopyOff(j), g.CopyOff(j) + g.CopySize());
    }
  }

  lemma CopyMissesCluster(g: Geometry, i: nat, c: nat)
    requires g.Valid() && i < g.nfat && 2 <= c < g.limit
    ensures g.CopyOff(i) + g.CopySize() <= g.ClusterOff(c) && g.ClusterOff(c) + g.Clsz() <= g.Size()
  {
    CopyLayout(g, i, g.nfat);
    ClusterLayout(g, c, g.limit);
  }

  lemma CopyInside(g: Geometry, image: seq<u8>, i: nat)
    requires g.Valid() && g.Size() <= |image| && i < g.nfat
    ensures g.CopyOff(i) + g.CopySize() <= |image|
  {
    CopyLayout(g, i, g.nfat);
    ClusterStart(g);
  }

  /**
   Writing cluster 0 or 1 writes into the last FAT copy, and no cluster. With a second copy to differ from, the copies stay
   equal if and only if the bytes written are the ones that were there.
   */
  lemma LowClusterUpdate(g: Geometry, image: seq<u8>, cn: nat, t: seq<u8>)
    requires g.Valid() && g.Size() <= |image| && g.Reachable(cn) && cn < 2 && 2 * g.spc <= g.spf && |t| == g.Clsz()
    ensures g.Lba(cn) * SECTOR + |t| <= |image| && 0 <= g.LowOff(cn) <= g.CopySize() - |t|
    ensures var after := Splice(image, g.Lba(cn) * SECTOR, t);
      && DataOf(g, after) == DataOf(g, image)
      && (forall i :: 0 <= i < g.nfat ==>
           CopyOf(g, after, i) == if i == g.nfat - 1 then Splice(CopyOf(g, image, i), g.LowOff(cn), t) else CopyOf(g, image, i))
      && (AllCopiesEqual(g, image) && 2 <= g.nfat ==> (AllCopiesEqual(g, after) <==> after == image))
  {
    hide *;
    LowClusterPlace(g, cn);
    CopyUpdate(g, image, g.nfat - 1, g.LowOff(cn), t);
    if AllCopiesEqual(g, image) && 2 <= g.nfat {
      LastCopyDiffers(g, image, g.LowOff(cn), t);
    }
  }

  /** Once its last copy is written to, a FAT is mirrored only if nothing changed. */
  lemma LastCopyDiffers(g: Geometry, image: seq<u8>, off: nat, t: seq<u8>)
    requires g.Valid() && g.Size() <= |image| && 2 <= g.nfat && off + |t| <= g.CopySize() && AllCopiesEqual(g, image)
    requires g.CopyOff(g.nfat - 1) + off + |t| <= |image|
    ensures var after := Splice(image, g.CopyOff(g.nfat - 1) + off, t);
      AllCopiesEqual(g, after) <==> after == image
  {
    hide CopyOf, DataOf, Splice, Geometry.CopyLba, Geometry.ClusterLba, Geometry.Stc, Geometry.CopyOff, Geometry.CopySize;
    var last := g.nfat - 1;
    var after := Splice(image, g.CopyOff(last) + off, t);
    CopyUpdate(g, image, last, off, t);
    if AllCopiesEqual(g, after) {
      assert CopyOf(g, after, last) == CopyOf(g, after, 0) == CopyOf(g, image, last);
      SameCopy(g, image, last, off, t);
    }
  }

  lemma SameCopy(g: Geometry, image: seq<u8>, i: nat, off: nat, t: seq<u8>)
    requires g.Valid() && g.Size() <= |image| && i < g.nfat && off + |t| <= g.CopySize() && g.CopyOff(i) + off + |t| <= |image|
    requires CopyOf(g, Splice(image, g.CopyOff(i) + off, t), i) == CopyOf(g, image, i)
    ensures Splice(image, g.CopyOff(i) + off, t) == image
  {
    hide Geometry.CopyLba, Geometry.ClusterLba, Geometry.Stc, Splice;
    CopyInside(g, image, i);
    UnchangedSplice(image, g.CopyOff(i) + off, t, g.CopyOff(i), g.CopySize());
  }

  /** A write that leaves the part around it as it was changes nothing. */
  lemma UnchangedSplice(s: seq<u8>, a: nat, t: seq<u8>, lo: nat, n: nat)
    requires lo <= a && a + |t| <= lo + n <= |s|
    requires Splice(s, a, t)[lo..lo + n] == s[lo..lo + n]
    ensures Splice(s, a, t) == s
  {
    var r := Splice(s, a, t);
    forall k | 0 <= k < |s|
      ensures r[k] == s[k]
    {
      if lo <= k < lo + n {
        assert r[lo..lo + n][k - lo] == s[lo..lo + n][k - lo];
      }
    }
  }

  lemma UnchangedIffSame(s: seq<u8>, a: nat, t: seq<u8>)
    requires a + |t| <= |s|
    ensures Splice(s, a, t) == s <==> t == s[a..a + |t|]
  {
    assert Splice(s, a, t)[a..a + |t|] == t;
  }

  /** Where sector s of the first FAT copy is. */
  lemma SectorOfCopy(g: Geometry, image: seq<u8>, s: nat)
    requires g.Valid() && g.Size() <= |image| && s < g.spf
    ensures 0 < g.nfat && (g.CopyLba(0) + s + 1) * SECTOR <= |image|
    ensures image[(g.CopyLba(0) + s) * SECTOR..(g.CopyLba(0) + s + 1) * SECTOR] == CopyOf(g, image, 0)[s * SECTOR..(s + 1) * SECTOR]
  {
    CopyLayout(g, 0, g.nfat);
    ClusterStart(g);
    hide Geometry.CopyLba, Geometry.ClusterOff, Geometry.Size, Geometry.Valid, Geometry.Stc;
    SliceOfSlice(image, g.CopyOff(0), g.CopySize(), s * SECTOR, (s + 1) * SECTOR);
  }

  /** The image after t is written as sector s of the first n FAT copies. */
  ghost function WithSector(g: Geometry, image: seq<u8>, n: nat, s: nat, t: seq<u8>): (after: seq<u8>)
    requires g.Valid() && g.Size() <= |image| && n <= g.nfat && s < g.spf && |t| == SECTOR
    ensures |after| == |image|
  {
    if n == 0 then image
    else
      CopyUpdate(g, image, n - 1, s * SECTOR, t);
      Splice(WithSector(g, image, n - 1, s, t), g.CopyOff(n - 1) + s * SECTOR, t)
  }

  /** Writing a sector to the first n copies replaces it in exactly those, and changes no cluster. */
  lemma {:induction false} WithSectorEffect(g: Geometry, image: seq<u8>, n: nat, s: nat, t: seq<u8>)
    requires g.Valid() && g.Size() <= |image| && n <= g.nfat && s < g.spf && |t| == SECTOR
    ensures var after := WithSector(g, image, n, s, t);
      && DataOf(g, after) == DataOf(g, image)
      && forall j :: 0 <= j < g.nfat ==>
           CopyOf(g, after, j) == if j < n then Splice(CopyOf(g, image, j), s * SECTOR, t) else CopyOf(g, image, j)
  {
    hide Geometry.ClusterLba, Geometry.CopyLba, Geometry.Stc, ClusterOf, DataOf, CopyOf, Splice;
    if n > 0 {
      WithSectorEffect(g, image, n - 1, s, t);
      CopyUpdate(g, WithSector(g, image, n - 1, s, t), n - 1, s * SECTOR, t);
    }
  }

  /** A mirrored FAT stays mirrored when a sector is written to all its copies, and one entry changes. */
  lemma EntryWritten(g: Geometry, image: seq<u8>, s: nat, f: nat, v: u32, t: seq<u8>)
    requires g.Valid() && g.Size() <= |image| && AllCopiesEqual(g, image) && s < g.spf && f < 128
    requires t == Splice(CopyOf(g, image, 0)[s * SECTOR..(s + 1) * SECTOR], 4 * f, Le32(v))
    ensures var after := WithSector(g, image, g.nfat, s, t);
      && AllCopiesEqual(g, after)
      && FatOf(CopyOf(g, after, 0)) == FatOf(CopyOf(g, image, 0))[s * 128 + f := v]
      && DataOf(g, after) == DataOf(g, image)
      && CopyOf(g, after, 0)[s * SECTOR..(s + 1) * SECTOR] == t
  {
    hide Geometry.ClusterLba, Geometry.CopyLba, Geometry.Stc, ClusterOf, DataOf, CopyOf, FatOf, WithSector;
    WithSectorEffect(g, image, g.nfat, s, t);
    FatUpdate(CopyOf(g, image, 0), s, f, v);
  }

  /** The sector-sized piece of a FAT copy that holds entry e, with e replaced, put back. */
  lemma FatUpdate(copy: seq<u8>, s: nat, f: nat, v: u32)
    requires f < 128 && (s + 1) * SECTOR <= |copy|
    ensures
      var e := s * 128 + f;
      && Splice(copy, s * SECTOR, Splice(copy[s * SECTOR..(s + 1) * SECTOR], 4 * f, Le32(v))) == Splice(copy, 4 * e, Le32(v))
      && FatOf(Splice(copy, 4 * e, Le32(v))) == FatOf(copy)[e := v]
  {
    hide Splice, FatOf, Word, Le32;
    var e := s * 128 + f;
    assert 4 * e == s * SECTOR + 4 * f && s * SECTOR + SECTOR == (s + 1) * SECTOR;
    SpliceNested(copy, s * SECTOR, SECTOR, 4 * f, Le32(v));
    FatOfSplice(copy, e, v);
  }

  /** Storing one word of a FAT copy changes one entry. */
  lemma FatOfSplice(copy: seq<u8>, e: nat, v: u32)
    requires 4 * e + 4 <= |copy|
    ensures FatOf(Splice(copy, 4 * e, Le32(v))) == FatOf(copy)[e := v]
  {
    hide Splice, Word, Le32;
    var fat := FatOf(Splice(copy, 4 * e, Le32(v)));
    forall k | 0 <= k < |fat|
      ensures fat[k] == FatOf(copy)[e := v][k]
    {
      WordOfSplice(copy, 4 * e, v, 4 * k);
    }
  }

  /** Which entry the scan really inspects when it claims to inspect p: after the first pass it lags a sector. */
  function Scanned(p: nat): nat {
    if p < 128 then p else p - 128
  }

  /** The scan stops at p. */
  predicate ScanHit(fat: seq<u32>, p: nat) {
    2 <= p < |fat| && fat[Scanned(p)] == 0
  }

  predicate IsFree(fat: seq<u32>, p: nat) {
    2 <= p < |fat| && fat[p] == 0
  }

  /** Some usable cluster has its entry in the first sector of the FAT. */
  predicate FreeInFirstSector(fat: seq<u32>) {
    exists p :: p < 128 && IsFree(fat, p)
  }

  ghost predicate LeastFree(fat: seq<u32>, p: nat) {
    IsFree(fat, p) && forall q: nat :: q < p ==> !IsFree(fat, q)
  }

  ghost predicate LeastHit(fat: seq<u32>, p: nat) {
    ScanHit(fat, p) && forall q: nat :: q < p ==> !ScanHit(fat, q)
  }

  /** The entry that the scan looks at for position p. */
  function Inspected(fat: seq<u32>, p: nat): u32
    requires p < |fat|
  {
    if p < 128 then fat[p] else fat[p - 128]
  }

  /** Where the scan stops, in terms of the FAT's words: at the first position from 2 on for which it sees a zero. */
  lemma LeastHitIs(fat: seq<u32>, p: nat)
    ensures LeastHit(fat, p) <==> 2 <= p < |fat| && Inspected(fat, p) == 0 && forall q: nat :: 2 <= q < p ==> Inspected(fat, q) != 0
    ensures LeastFree(fat, p) <==> 2 <= p < |fat| && fat[p] == 0 && forall q: nat :: 2 <= q < p ==> fat[q] != 0
  {
    assert forall q: nat :: q < |fat| ==> (ScanHit(fat, q) <==> 2 <= q && Inspected(fat, q) == 0);
    assert forall q: nat :: q < |fat| ==> (IsFree(fat, q) <==> 2 <= q && fat[q] == 0);
  }

  /**
   With the two reserved entries non-zero, as the format has them, the scan picks the least free
   cluster of the whole FAT exactly when some free cluster has its entry in the first FAT sector.
   */
  lemma ScanIsLeastFree(fat: seq<u32>, p: nat)
    requires 128 <= |fat| && fat[0] != 0 && fat[1] != 0
    requires LeastHit(fat, p)
    ensures LeastFree(fat, p) <==> FreeInFirstSector(fat)
  {
    if FreeInFirstSector(fat) {
      var q :| q < 128 && IsFree(fat, q);
      assert ScanHit(fat, q);
      assert p <= q;
      forall r: nat | r < p
        ensures !IsFree(fat, r)
      {
        assert !ScanHit(fat, r);
      }
    } else if IsFree(fat, p) {
      assert IsFree(fat, p - 128);
    }
  }

  /** Whether the cluster the scan returns is unused and inside the volume, as seen from the least free cluster q. */
  predicate ScanSafe(fat: seq<u32>, limit: nat, q: nat)
    requires limit <= |fat|
  {
    if q < 128 then q < limit else q + 128 < limit && fat[q + 128] == 0
  }

  /**
   What the scan returns, exactly: the least free cluster q if its entry is in the first FAT sector, and the cluster one
   sector further on if not. So the cluster returned is unused and inside the volume if and only if q is below 128, or
   the entry one sector behind q's is free as well.
   */
  lemma ScanReturns(fat: seq<u32>, limit: nat, p: nat, q: nat)
    requires 128 <= |fat| && limit <= |fat| && fat[0] != 0 && fat[1] != 0
    requires LeastHit(fat, p) && LeastFree(fat, q)
    ensures p == if q < 128 then q else q + 128
    ensures p < limit && IsFree(fat, p) <==> ScanSafe(fat, limit, q)
    ensures IsFree(fat, p) <==> q < 128 || (q + 128 < |fat| && fat[q + 128] == 0)
  {
    assert IsFree(fat, Scanned(p));
    if q < 128 {
      assert ScanHit(fat, q);
    } else if q + 128 < p {
      assert ScanHit(fat, q + 128);
    }
    if p < 128 || Scanned(p) < 128 {
      assert ScanHit(fat, Scanned(p));
    }
  }

  /** The scan comes back empty exactly when all free entries lie in the last sector of a FAT of several sectors. */
  lemma ScanEmpty(fat: seq<u32>)
    requires 128 <= |fat| && |fat| % 128 == 0 && fat[0] != 0 && fat[1] != 0
    ensures (forall p: nat :: !ScanHit(fat, p)) <==>
            (forall p: nat :: IsFree(fat, p) ==> 128 <= p && |fat| - 128 <= p)
  {
    if p: nat :| IsFree(fat, p) && (p < 128 || p < |fat| - 128) {
      assert ScanHit(fat, p) || ScanHit(fat, p + 128);
    }
    if p: nat :| ScanHit(fat, p) {
      assert IsFree(fat, Scanned(p)) && (Scanned(p) < 128 || Scanned(p) < |fat| - 128);
    }
  }

  /** Three FAT sectors in which only cluster 128 is free. */
  const FULL_FIRST_SECTOR: seq<u32> := seq(384, k => if k == 128 then 0 else EOC)

  /** With the first sector full the scan can return a cluster that is in use. */
  lemma ScanReturnsUsedCluster()
    ensures LeastHit(FULL_FIRST_SECTOR, 256) && !IsFree(FULL_FIRST_SECTOR, 256)
  {
  }

  class Fat {
    const g: Geometry
    const disk: array<u8>
    const cbuf: array<u8>
    var cbufs: u32
    var cbufn: bool

    /** Mount a partition image whose FAT copies agree; nothing is cached yet. */
    constructor (g: Geometry, disk: array<u8>)
      requires g.Valid() && g.Size() <= disk.Length && AllCopiesEqual(g, disk[..])
      ensures Valid() && this.g == g && this.disk == disk && !cbufn
      ensures fresh(cbuf)
    {
      this.g := g;
      this.disk := disk;
      cbuf := new u8[g.Clsz()];
      cbufs := 0;
      cbufn := false;
    }

    ghost predicate Valid()
      reads this, disk, cbuf
    {
      Sound() && Coherent() && Mirrored()
    }

    ghost predicate Sound() {
      g.Valid() && g.Size() <= disk.Length && disk != cbuf && SECTOR <= cbuf.Length
    }

    /** The bytes of FAT copy i on disk. */
    ghost function Copy(i: nat): (c: seq<u8>)
      requires Sound() && i < g.nfat
      reads disk
      ensures |c| == g.CopySize()
    {
      CopyOf(g, disk[..], i)
    }

    /** A set cache holds its sector of the first copy. */
    ghost predicate Coherent()
      requires Sound()
      reads this, disk, cbuf
    {
      cbufn ==>
        && cbufs < g.spf
        && cbuf[..SECTOR] == Copy(0)[cbufs * SECTOR..(cbufs + 1) * SECTOR]
    }

    ghost predicate Mirrored()
      requires Sound()
      reads disk
    {
      AllCopiesEqual(g, disk[..])
    }

    ghost function Fat(): (fat: seq<u32>)
      requires Sound()
      reads disk
      ensures |fat| == 128 * g.spf
    {
      FatOf(Copy(0))
    }

    ghost function Data(): (data: seq<seq<u8>>)
      requires Sound()
      reads disk
      ensures |data| == g.limit
      ensures forall c :: 2 <= c < g.limit ==> |data[c]| == g.Clsz()
    {
      DataOf(g, disk[..])
    }

    /** Copy n whole sectors from the disk. */
    method DevReadLba(lba: nat, n: nat, buf: array<u8>)
      requires buf != disk && (lba + n) * SECTOR <= disk.Length && n * SECTOR <= buf.Length
      modifies buf
      ensures buf[..n * SECTOR] == disk[lba * SECTOR..(lba + n) * SECTOR]
      ensures buf[n * SECTOR..] == old(buf[n * SECTOR..])
    {
      forall k | 0 <= k < n * SECTOR {
        buf[k] := disk[lba * SECTOR + k];
      }
    }

    /** Copy n whole sectors to the disk. */
    method DevWriteLba(lba: nat, n: nat, buf: array<u8>)
      requires buf != disk && (lba + n) * SECTOR <= disk.Length && n * SECTOR <= buf.Length
      modifies disk
      ensures disk[..] == Splice(old(disk[..]), lba * SECTOR, buf[..n * SECTOR])
    {
      forall k | 0 <= k < n * SECTOR {
        disk[lba * SECTOR + k] := buf[k];
      }
    }

    /** The bytes a read of cluster cn gives. */
    ghost function OnDisk(cn: nat): (bytes: seq<u8>)
      requires Sound() && g.Reachable(cn)
      reads disk
      ensures |bytes| == g.Clsz()
      ensures 2 <= cn ==> bytes == Data()[cn]
    {
      PartAt(g, disk[..], cn)
    }

    method ReadCluster(cn: nat, buf: array<u8>)
      requires Sound() && g.Reachable(cn)
      requires buf != disk && g.Clsz() <= buf.Length
      modifies buf
      ensures buf[..g.Clsz()] == OnDisk(cn)
      ensures buf[g.Clsz()..] == old(buf[g.Clsz()..])
    {
      LbaIs(g, cn);
      DevReadLba(g.Lba(cn), g.spc, buf);
    }

    /** Write a cluster; clusters 0 and 1 go to the last FAT copy, which then agrees with the others only if nothing changed. */
    method WriteCluster(cn: nat, buf: array<u8>)
      requires Sound() && g.Reachable(cn)
      requires buf != disk && g.Clsz() <= buf.Length
      modifies disk
      ensures 2 <= cn ==>
        && Valid() == old(Valid()) && Fat() == old(Fat()) && Copy(g.nfat - 1) == old(Copy(g.nfat - 1))
        && Data() == old(Data())[cn := buf[..g.Clsz()]]
      ensures cn < 2 ==>
        && g.Lba(cn) * SECTOR + g.Clsz() <= disk.Length
        && disk[..] == Splice(old(disk[..]), g.Lba(cn) * SECTOR, buf[..g.Clsz()])
      ensures cn < 2 && 2 * g.spc <= g.spf ==>
        && Data() == old(Data()) && 0 <= g.LowOff(cn)
        && Copy(g.nfat - 1) == Splice(old(Copy(g.nfat - 1)), g.LowOff(cn), buf[..g.Clsz()])
        && (forall i :: 0 <= i < g.nfat - 1 ==> Copy(i) == old(Copy(i))) && (2 <= g.nfat ==> Fat() == old(Fat()))
        && (2 <= g.nfat && old(Valid()) ==> (Valid() <==> buf[..g.Clsz()] == old(OnDisk(cn))))
    {
      hide Geometry.ClusterLba, Geometry.CopyLba, Geometry.Stc, ClusterOf, DataOf, CopyOf, FatOf;
      LbaIs(g, cn);
      ghost var before, t := disk[..], buf[..g.Clsz()];
      DevWriteLba(g.Lba(cn), g.spc, buf);
      if 2 <= cn {
        ClusterUpdate(g, before, cn, t);
      } else if 2 * g.spc <= g.spf {
        LowClusterUpdate(g, before, cn, t);
        UnchangedIffSame(before, g.Lba(cn) * SECTOR, t);
      }
    }

    /** Load FAT sector s into the cache. */
    method LoadSector(s: nat)
      requires Sound() && s < g.spf
      modifies this, cbuf
      ensures Coherent() && cbufn && cbufs == s
    {
      cbufs := s;
      cbufn := true;
      hide Geometry.CopyLba, Geometry.Stc, Geometry.Size, Geometry.Valid, CopyOf;
      SectorOfCopy(g, disk[..], s);
      DevReadLba(g.CopyLba(0) + s, 1, cbuf);
    }

    method ReadFatEnt(cl: nat) returns (v: u32)
      requires Valid() && cl < 128 * g.spf
      modifies this, cbuf
      ensures Valid()
      ensures v == Fat()[cl]
    {
      var s := cl / 128;
      if s != cbufs || !cbufn {
        LoadSector(s);
      }
      v := Word(cbuf[..], 4 * (cl % 128));
      CachedWord(cl);
    }

    /** A cached entry is the entry on disk. */
    lemma CachedWord(cl: nat)
      requires Sound() && Coherent() && cl < 128 * g.spf && cbufn && cbufs == cl / 128
      ensures Word(cbuf[..], 4 * (cl % 128)) == Fat()[cl]
    {
      var s := cl / 128;
      WordInSlice(cbuf[..], 0, SECTOR, 4 * (cl % 128));
      WordInSlice(Copy(0), s * SECTOR, (s + 1) * SECTOR, 4 * cl);
    }

    /** Store v as entry e, in the cache and in every FAT copy. */
    method WriteFatEnt(e: nat, v: u32)
      requires Valid() && e < 128 * g.spf
      modifies this, cbuf, disk
      ensures Valid()
      ensures Fat() == old(Fat())[e := v]
      ensures Data() == old(Data())
    {
      hide Geometry.ClusterLba, Geometry.CopyLba, Geometry.Stc, ClusterOf, DataOf, CopyOf, FatOf;
      hide Word, Le32, Splice, WithSector, Geometry.Size;
      var s := e / 128;
      if s != cbufs || !cbufn {
        LoadSector(s);
      }
      ghost var image := disk[..];
      StoreWord(cbuf, 4 * (e % 128), v);
      ghost var t := cbuf[..SECTOR];
      EntryWritten(g, image, s, e % 128, v, t);
      WriteBack(s);
    }

    /** Write the cached sector s back to every FAT copy. */
    method WriteBack(s: nat)
      requires Sound() && s < g.spf
      modifies disk
      ensures disk[..] == WithSector(g, old(disk[..]), g.nfat, s, cbuf[..SECTOR])
    {
      hide Geometry.ClusterLba, Geometry.CopyLba, Geometry.Stc, DataOf, CopyOf, Splice;
      for i := 0 to g.nfat
        invariant disk[..] == WithSector(g, old(disk[..]), i, s, cbuf[..SECTOR])
      {
        CopyUpdate(g, old(disk[..]), i, s * SECTOR, cbuf[..SECTOR]);
        DevWriteLba(g.CopyLba(i) + s, 1, cbuf);
      }
    }

    /**
     The scan for an unused cluster. Each pass ends by reloading the sector it just counted, so from
     the second pass on it inspects the sector before the one its positions belong to.
     found is false where the original falls off the end of the function.
     */
    method FindUnusedCluster() returns (found: bool, p: nat)
      requires Valid()
      modifies this, cbuf
      ensures Valid()
      ensures found ==> LeastHit(Fat(), p)
      ensures !found ==> forall q: nat :: !ScanHit(Fat(), q)
    {
      hide Geometry.ClusterLba, Geometry.CopyLba, Geometry.Stc, ClusterOf, DataOf, CopyOf, FatOf, Word;
      if cbufs != 0 || !cbufn {
        LoadSector(0);
      }
      for i := 0 to g.spf
        invariant Valid() && cbufn && cbufs == if i == 0 then 0 else i - 1
        invariant forall q: nat :: q < 128 * i ==> !ScanHit(Fat(), q)
      {
        for j := 0 to 128
          invariant Valid() && cbufn && cbufs == if i == 0 then 0 else i - 1
          invariant forall q: nat :: q < 128 * i + j ==> !ScanHit(Fat(), q)
        {
          var cl := Word(cbuf[..], 4 * j);
          p := i * 128 + j;
          CachedWord(Scanned(p));
          if p >= 2 && cl == 0 {
            return true, p;
          }
        }
        LoadSector(i);
      }
      return false, 0;
    }
  }
}
