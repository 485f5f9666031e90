/** The records that the file system layers share: nodes, directory entries, open files and FAT cursors. */
module FsTypes {
  import opened Bytes

  const FS_FILE: u32 := 1
  const FS_DIR: u32 := 2
  const MODE_R: u32 := 1
  const MODE_W: u32 := 2

  /** A name in a directory listing; a long entry that no short entry follows has no node. */
  datatype Dirent = Dirent(name: seq<u8>, node: FsNode?)

  class FsNode {
    var mask: u32
    var inode: nat
    var len: u32
    var filled: bool
    var ptr: FsNode?
    var first: seq<Dirent>
    var implCl: nat
    var implOff: nat
    ghost var hops: nat

    /** All fields zero, as the allocator's memset leaves them. */
    constructor ()
      ensures mask == 0 && inode == 0 && len == 0 && !filled && ptr == null && first == []
      ensures implCl == 0 && implOff == 0 && hops == 0
    {
      mask, inode, len, filled, ptr, first := 0, 0, 0, false, null, [];
      implCl, implOff, hops := 0, 0, 0;
    }
  }

  /** A FAT cursor: the current cluster, the index in it, and its buffer. k counts the clusters behind it. */
  class FileInfo {
    var cl: nat
    var idx: nat
    const buf: array<u8>
    ghost var k: nat

    /** The buffer's bytes are whatever the heap held. */
    constructor (cl: nat, size: nat)
      ensures this.cl == cl && idx == 0 && k == 0 && buf.Length == size && fresh(buf)
    {
      this.cl := cl;
      idx := 0;
      k := 0;
      buf := new u8[size];
    }
  }

  class FsFile {
    const n: FsNode
    const m: u32
    var idx: u32
    var d: FileInfo?

    constructor (n: FsNode, m: u32)
      ensures this.n == n && this.m == m && idx == 0 && d == null
    {
      this.n := n;
      this.m := m;
      idx := 0;
      d := null;
    }
  }
}
