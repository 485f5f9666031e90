/** Bytes, 32-bit words and their little-endian storage, as the x86 kernel reads and writes them. */
module Bytes {

  type u8 = x: int | 0 <= x < 0x100
  type u32 = x: int | 0 <= x < 0x1_0000_0000

  /** A run of n zero bytes. */
  function Zeros(n: nat): (z: seq<u8>)
    ensures |z| == n && forall k :: 0 <= k < n ==> z[k] == 0
  {
    seq(n, _ => 0)
  }

  /** The 32-bit word stored at byte offset a, lowest byte first. */
  function Word(s: seq<u8>, a: nat): u32
    requires a + 4 <= |s|
  {
    s[a] as int + s[a + 1] as int * 0x100 + s[a + 2] as int * 0x1_0000 + s[a + 3] as int * 0x100_0000
  }

  /** The four bytes of v, lowest byte first. */
  function Le32(v: u32): (s: seq<u8>)
    ensures |s| == 4
  {
    [v % 0x100, v / 0x100 % 0x100, v / 0x100 / 0x100 % 0x100, v / 0x100 / 0x100 / 0x100]
  }

  /** Overwrite part of s, starting at byte offset a, with t. */
  function Splice(s: seq<u8>, a: nat, t: seq<u8>): (r: seq<u8>)
    requires a + |t| <= |s|
    ensures |r| == |s|
    ensures forall k :: 0 <= k < |s| ==> r[k] == if a <= k < a + |t| then t[k - a] else s[k]
  {
    s[..a] + t + s[a + |t|..]
  }

  lemma WordOfLe32(v: u32)
    ensures Word(Le32(v), 0) == v
  {
    var b := v / 0x100;
    var c := b / 0x100;
    assert v == b * 0x100 + v % 0x100 && b == c * 0x100 + b % 0x100 && c == c / 0x100 * 0x100 + c % 0x100;
  }

  /** A stored word reads back, and every word that does not overlap it is unchanged. */
  lemma WordOfSplice(s: seq<u8>, a: nat, v: u32, b: nat)
    requires a + 4 <= |s| && b + 4 <= |s|
    requires b == a || b + 4 <= a || a + 4 <= b
    ensures Word(Splice(s, a, Le32(v)), b) == if a == b then v else Word(s, b)
  {
    WordOfLe32(v);
  }

  /** A word depends only on its own four bytes. */
  lemma WordInSlice(s: seq<u8>, lo: nat, hi: nat, a: nat)
    requires lo <= a && a + 4 <= hi <= |s|
    ensures Word(s[lo..hi], a - lo) == Word(s, a)
  {
  }

  /** A slice of a spliced sequence: untouched outside the splice, spliced when it holds all of it. */
  lemma SliceOfSplice(s: seq<u8>, a: nat, t: seq<u8>, lo: nat, hi: nat)
    requires a + |t| <= |s| && lo <= hi <= |s|
    ensures hi <= a || a + |t| <= lo ==> Splice(s, a, t)[lo..hi] == s[lo..hi]
    ensures lo <= a && a + |t| <= hi ==> Splice(s, a, t)[lo..hi] == Splice(s[lo..hi], a - lo, t)
  {
  }

  /** Replacing part of a slice and putting the slice back is replacing that part. */
  lemma SpliceNested(s: seq<u8>, a: nat, n: nat, b: nat, t: seq<u8>)
    requires a + n <= |s| && b + |t| <= n
    ensures Splice(s, a, Splice(s[a..a + n], b, t)) == Splice(s, a + b, t)
  {
    var left, right := Splice(s, a, Splice(s[a..a + n], b, t)), Splice(s, a + b, t);
    forall k | 0 <= k < |s|
      ensures left[k] == right[k]
    {
    }
  }

  lemma SliceOfSlice(s: seq<u8>, a: nat, n: nat, lo: nat, hi: nat)
    requires a + n <= |s| && lo <= hi <= n
    ensures s[a..a + n][lo..hi] == s[a + lo..a + hi]
  {
    var t := s[a..a + n];
    forall k | 0 <= k < hi - lo
      ensures t[lo..hi][k] == s[a + lo..a + hi][k]
    {
      assert t[lo..hi][k] == t[lo + k] == s[a + (lo + k)];
    }
  }

  lemma MulMono(a: int, b: int, c: int)
    requires a <= b && 0 <= c
    ensures a * c <= b * c
  {
  }

  /** Store v at byte offset a, as an assignment through a word pointer does. */
  method StoreWord(buf: array<u8>, a: nat, v: u32)
    requires a + 4 <= buf.Length
    modifies buf
    ensures buf[..] == Splice(old(buf[..]), a, Le32(v))
  {
    var bytes := Le32(v);
    buf[a], buf[a + 1], buf[a + 2], buf[a + 3] := bytes[0], bytes[1], bytes[2], bytes[3];
  }
}
