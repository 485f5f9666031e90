/**
 Path names. What a path means is a fold of directory lookup over its components; the components are what the
 source's scanning loop cuts out, and an independent splitting of the path says which those are.
 */
module Paths {
  import opened Wrappers
  import opened Bytes
  import opened Chains
  import opened FatDir
  import opened DirTheory
  import opened FatListing

  const SLASH: u8 := 47

  /** The path after its leading slashes. */
  function SkipSlashes(s: seq<u8>): (r: seq<u8>)
    ensures |r| <= |s| && (r == [] || r[0] != SLASH)
  {
    if s == [] || s[0] != SLASH then s else SkipSlashes(s[1..])
  }

  /** How many bytes come before the first slash. */
  function UpToSlash(s: seq<u8>): (n: nat)
    ensures n <= |s| && SLASH !in s[..n] && (n < |s| ==> s[n] == SLASH)
  {
    if s == [] || s[0] == SLASH then 0 else 1 + UpToSlash(s[1..])
  }

  /** The components the lookup loop cuts out, in order. */
  function Parts(s: seq<u8>): (r: seq<seq<u8>>)
    ensures r != []
    decreases |s|
  {
    var p := SkipSlashes(s);
    var n := UpToSlash(p);
    if n == |p| then [p] else [p[..n]] + Parts(p[n..])
  }

  // ---- The components, independently

  /** Cut at every slash. */
  function Split(s: seq<u8>): (r: seq<seq<u8>>)
    ensures r != []
  {
    var n := UpToSlash(s);
    if n == |s| then [s] else [s[..n]] + Split(s[n + 1..])
  }

  function NonEmpty(l: seq<seq<u8>>): seq<seq<u8>> {
    if l == [] then [] else (if l[0] == [] then [] else [l[0]]) + NonEmpty(l[1..])
  }

  /** Every empty piece is dropped except the last. */
  function Collapsed(l: seq<seq<u8>>): seq<seq<u8>>
    requires l != []
  {
    NonEmpty(l[..|l| - 1]) + [l[|l| - 1]]
  }

  lemma CollapsedStep(a: seq<u8>, l: seq<seq<u8>>)
    requires l != []
    ensures Collapsed([a] + l) == (if a == [] then [] else [a]) + Collapsed(l)
  {
    assert ([a] + l)[..|l|] == [a] + l[..|l| - 1];
    assert ([a] + l[..|l| - 1])[1..] == l[..|l| - 1];
  }

  lemma PartsSkipSlash(s: seq<u8>)
    requires s != [] && s[0] == SLASH
    ensures Parts(s) == Parts(s[1..])
  {
  }

  /** The components are the pieces between slashes, with every empty piece but the last one dropped. */
  lemma {:induction false} PartsAreComponents(s: seq<u8>)
    ensures Parts(s) == Collapsed(Split(s))
    decreases |s|
  {
    var n := UpToSlash(s);
    if n == |s| {
      assert Split(s)[..0] == [];
    } else {
      CollapsedStep(s[..n], Split(s[n + 1..]));
      PartsAreComponents(s[n + 1..]);
      assert s[n..][1..] == s[n + 1..];
      PartsSkipSlash(s[n..]);
    }
  }

  lemma UpToSlashPrefix(a: seq<u8>, b: seq<u8>)
    requires SLASH !in a && (b == [] || b[0] == SLASH)
    ensures UpToSlash(a + b) == |a|
  {
    assert (a + b)[..|a|] == a;
  }

  lemma PartsFirst(c: seq<u8>, rest: seq<u8>)
    requires c != [] && SLASH !in c && (rest == [] || rest[0] == SLASH)
    ensures Parts(c + rest) == if rest == [] then [c] else [c] + Parts(rest)
  {
    var s := c + rest;
    assert s[0] == c[0] && SkipSlashes(s) == s;
    UpToSlashPrefix(c, rest);
    assert s[..|c|] == c && s[|c|..] == rest;
    assert rest == [] ==> s == c;
  }

  /** Names with a slash between each and the next. */
  function JoinNames(l: seq<seq<u8>>): (s: seq<u8>)
    requires l != []
  {
    if |l| == 1 then l[0] else l[0] + ['/' as u8] + JoinNames(l[1..])
  }

  /** The character that separates names is the slash: names joined by it are the components again. */
  lemma {:induction false} NamesJoined(l: seq<seq<u8>>)
    requires l != [] && forall i :: 0 <= i < |l| ==> l[i] != [] && '/' as u8 !in l[i]
    ensures JoinNames(l) != [] && Parts(JoinNames(l)) == l
  {
    hide Parts;
    if |l| == 1 {
      PartsFirst(l[0], []);
      assert l[0] + [] == l[0];
    } else {
      var rest := ['/' as u8] + JoinNames(l[1..]);
      NamesJoined(l[1..]);
      PartsFirst(l[0], rest);
      PartsSkipSlash(rest);
      assert rest[1..] == JoinNames(l[1..]) && l[0] + rest == JoinNames(l);
    }
  }

  function Joined(a: seq<u8>, b: seq<u8>): seq<u8> { a + [SLASH] + b }

  lemma JoinedTail(a: seq<u8>, b: seq<u8>, n: nat)
    requires n <= |a|
    ensures Joined(a, b)[..n] == a[..n] && Joined(a, b)[n..] == Joined(a[n..], b)
    ensures a == a[..n] + a[n..] && Joined(a, b) == a[..n] + Joined(a[n..], b)
    ensures Joined(a, b)[|a|..] == [SLASH] + b && ([SLASH] + b)[1..] == b && Joined([], b) == [SLASH] + b
    ensures Joined(a, b) != [] && Joined(a, b)[0] == if a == [] then SLASH else a[0]
  {
  }

  /** A path joined from two has the components of the first and then those of the second. */
  lemma {:induction false} PartsOfJoin(a: seq<u8>, b: seq<u8>)
    requires a != [] && a[|a| - 1] != SLASH
    ensures Parts(a + [SLASH] + b) == Parts(a) + Parts(b)
    decreases |a|
  {
    hide Parts, Joined;
    assert Joined(a, b) == a + [SLASH] + b by { JoinedIs(a, b); }
    if a[0] == SLASH {
      JoinedTail(a, b, 1);
      PartsSkipSlash(a);
      PartsSkipSlash(Joined(a, b));
      JoinedIs(a[1..], b);
      PartsOfJoin(a[1..], b);
    } else {
      PartsOfTail(a, b, UpToSlash(a));
      if UpToSlash(a) < |a| {
        JoinedIs(a[UpToSlash(a)..], b);
        PartsOfJoin(a[UpToSlash(a)..], b);
      }
    }
  }

  lemma JoinedIs(a: seq<u8>, b: seq<u8>)
    ensures Joined(a, b) == a + [SLASH] + b
  {
  }

  lemma Prepended(c: seq<u8>, l: seq<seq<u8>>, l': seq<seq<u8>>)
    ensures [c] + (l + l') == ([c] + l) + l'
  {
  }

  /** The first component goes first on both sides. */
  lemma PartsOfTail(a: seq<u8>, b: seq<u8>, n: nat)
    requires 0 < n <= |a| && SLASH !in a[..n] && (n < |a| ==> a[n] == SLASH)
    ensures n == |a| ==> Parts(Joined(a, b)) == Parts(a) + Parts(b)
    ensures n < |a| && Parts(Joined(a[n..], b)) == Parts(a[n..]) + Parts(b) ==> Parts(Joined(a, b)) == Parts(a) + Parts(b)
  {
    hide Parts, Joined;
    JoinedTail(a, b, n);
    JoinedTail(a[n..], b, 0);
    PartsFirst(a[..n], a[n..]);
    PartsFirst(a[..n], Joined(a[n..], b));
    if n == |a| {
      assert a[n..] == [] && a[..n] == a;
      PartsSkipSlash([SLASH] + b);
    } else {
      Prepended(a[..n], Parts(a[n..]), Parts(b));
    }
  }

  /** A path that ends in a slash has an empty last component. */
  lemma {:induction false} TrailingSlash(s: seq<u8>)
    requires s != [] && s[|s| - 1] == SLASH
    ensures Parts(s)[|Parts(s)| - 1] == []
    decreases |s|
  {
    hide Parts;
    if s == [SLASH] {
      PartsSkipSlash(s);
      assert Parts([]) == [[]] by { PartsOfNothing(); }
    } else if s[0] == SLASH {
      PartsSkipSlash(s);
      TrailingSlash(s[1..]);
    } else {
      var n := UpToSlash(s);
      assert s == s[..n] + s[n..];
      PartsFirst(s[..n], s[n..]);
      TrailingSlash(s[n..]);
    }
  }

  lemma PartsOfNothing()
    ensures Parts([]) == [[]]
  {
  }

  // ---- Lookup

  /** The node of the first entry with a name, if there is such an entry and it has a node. */
  function FirstNamed(l: seq<Entry>, name: seq<u8>): Option<NodeInfo> {
    if l == [] then None else if l[0].name == name then l[0].node else FirstNamed(l[1..], name)
  }

  /** That is: what the entry at k has, if it has the name and none before it does. */
  lemma {:induction false} FirstNamedIs(l: seq<Entry>, name: seq<u8>, k: nat)
    requires k < |l| && l[k].name == name && forall i :: 0 <= i < k ==> l[i].name != name
    ensures FirstNamed(l, name) == l[k].node
  {
    if k > 0 {
      FirstNamedIs(l[1..], name, k - 1);
    }
  }

  /** A mask with its lowest bit set is not looked into. */
  ghost function Lookup(v: Volume, p: NodeInfo, name: seq<u8>): Option<NodeInfo>
    requires v.Ok()
  {
    if p.mask % 2 == 1 || p.inode !in v.files then None else FirstNamed(DirList(v, p.inode), name)
  }

  ghost function Fold(v: Volume, p: Option<NodeInfo>, parts: seq<seq<u8>>): Option<NodeInfo>
    requires v.Ok()
    decreases |parts|
  {
    if p.None? || parts == [] then p else Fold(v, Lookup(v, p.value, parts[0]), parts[1..])
  }

  ghost function Resolve(v: Volume, p: NodeInfo, s: seq<u8>): Option<NodeInfo>
    requires v.Ok()
  {
    if s == [] then Some(p) else Fold(v, Some(p), Parts(s))
  }

  lemma {:induction false} FoldAppends(v: Volume, p: Option<NodeInfo>, l: seq<seq<u8>>, l': seq<seq<u8>>)
    requires v.Ok()
    ensures Fold(v, p, l + l') == Fold(v, Fold(v, p, l), l')
    decreases |l|
  {
    if p.None? {
    } else if l == [] {
      assert l + l' == l';
    } else {
      assert (l + l')[1..] == l[1..] + l';
      FoldAppends(v, Lookup(v, p.value, l[0]), l[1..], l');
    }
  }

  /** Resolving a/b is resolving b from the result of a, unless a ends in a slash or b is empty. */
  lemma JoinedPath(v: Volume, p: NodeInfo, a: seq<u8>, b: seq<u8>)
    requires v.Ok() && (a == [] || a[|a| - 1] != SLASH) && b != []
    ensures Resolve(v, p, a + [SLASH] + b) ==
            (if Resolve(v, p, a).None? then None else Resolve(v, Resolve(v, p, a).value, b))
  {
    if a == [] {
      assert ([SLASH] + b)[1..] == b && a + [SLASH] + b == [SLASH] + b;
      PartsSkipSlash([SLASH] + b);
    } else {
      PartsOfJoin(a, b);
      FoldAppends(v, Some(p), Parts(a), Parts(b));
    }
  }

  /** What names joined by slashes lead to: name by name, each looked up in what the one before it led to. */
  lemma NamesLead(v: Volume, p: NodeInfo, l: seq<seq<u8>>)
    requires v.Ok() && l != [] && forall i :: 0 <= i < |l| ==> l[i] != [] && '/' as u8 !in l[i]
    ensures var q := Lookup(v, p, l[0]);
      Resolve(v, p, JoinNames(l)) == if |l| == 1 || q.None? then q else Resolve(v, q.value, JoinNames(l[1..]))
  {
    hide Parts, JoinNames, Lookup;
    NamesJoined(l);
    var q := Lookup(v, p, l[0]);
    assert Fold(v, Some(p), l) == Fold(v, q, l[1..]);
    if |l| == 1 {
      assert l[1..] == [] && Fold(v, q, []) == q;
    } else {
      NamesJoined(l[1..]);
    }
  }

  /** No directory lists an entry with an empty name. */
  ghost predicate AllNamed(v: Volume)
    requires v.Ok()
  {
    forall h, i :: h in v.files && 0 <= i < |DirList(v, h)| ==> DirList(v, h)[i].name != []
  }

  lemma {:induction false} NotNamed(l: seq<Entry>, name: seq<u8>)
    requires forall i :: 0 <= i < |l| ==> l[i].name != name
    ensures FirstNamed(l, name) == None
  {
    if l != [] {
      NotNamed(l[1..], name);
    }
  }

  /** A path that ends in a slash finds nothing, whatever comes before the slash. */
  lemma TrailingSlashFails(v: Volume, p: NodeInfo, s: seq<u8>)
    requires v.Ok() && AllNamed(v) && s != [] && s[|s| - 1] == SLASH
    ensures Resolve(v, p, s) == None
  {
    var l := Parts(s);
    var q := Fold(v, Some(p), l[..|l| - 1]);
    TrailingSlash(s);
    var last: seq<seq<u8>> := [[]];
    assert l == l[..|l| - 1] + last;
    FoldAppends(v, Some(p), l[..|l| - 1], last);
    if q.Some? {
      assert last[1..] == [];
      if q.value.inode in v.files {
        NotNamed(DirList(v, q.value.inode), []);
      }
    }
  }

  /**
   Exactly when a joined path means what its parts mean: when a does not end in a slash and b is not empty, and
   otherwise only if both sides find nothing. JoinedPath is the form a caller can check beforehand; here the condition
   for a path that ends in a slash is what that path finds.
   */
  lemma JoinedPathExactly(v: Volume, p: NodeInfo, a: seq<u8>, b: seq<u8>)
    requires v.Ok() && AllNamed(v)
    ensures var chained := if Resolve(v, p, a).None? then None else Resolve(v, Resolve(v, p, a).value, b);
            Resolve(v, p, a + [SLASH] + b) == chained <==>
            (if b == [] then Resolve(v, p, a) == None
             else a == [] || a[|a| - 1] != SLASH || Resolve(v, p, a + [SLASH] + b) == None)
  {
    if b == [] {
      TrailingSlashFails(v, p, a + [SLASH] + b);
    } else if a == [] || a[|a| - 1] != SLASH {
      JoinedPath(v, p, a, b);
    } else {
      TrailingSlashFails(v, p, a);
    }
  }

  // ---- Lookup after a file is created

  ghost predicate Lists(l: seq<Entry>, name: seq<u8>) {
    exists i :: 0 <= i < |l| && l[i].name == name
  }

  lemma {:induction false} FirstNamedOfAdded(l: seq<Entry>, e: Entry, name: seq<u8>)
    ensures FirstNamed(l + [e], name) ==
            (if Lists(l, name) then FirstNamed(l, name)
             else if e.name == name then e.node else None)
  {
    if l == [] {
      assert (l + [e])[1..] == [];
    } else {
      assert (l + [e])[1..] == l[1..] + [e];
      FirstNamedOfAdded(l[1..], e, name);
      if l[0].name != name {
        if i :| 0 <= i < |l| && l[i].name == name {
          assert l[1..][i - 1].name == name;
        }
        assert forall i :: 0 <= i < |l[1..]| ==> l[1..][i] == l[i + 1];
      }
    }
  }

  /**
   A created file is found by its first twelve characters, unless an older entry already had that name; every
   other name, and every name in another directory, finds what it found before.
   */
  lemma CreatedIsFound(v: Volume, v': Volume, h: nat, fn: seq<u8>, tp: u32, cl: u32, i: nat, fcl: u32, p: NodeInfo, name: seq<u8>)
    requires FatCreate.AddEffect(v, v', h, fn, tp, cl, i, fcl)
    requires DirOk(v.data, v.files[h]) && forall k :: 0 <= k < |fn| ==> fn[k] != 0
    requires p.mask % 2 == 0 && p.inode in v.files
    ensures Lookup(v', p, name) ==
            (if p.inode == h && !Lists(DirList(v, h), name) && name == fn[..FatFile.Min(NAME_MAX, |fn|)]
             then NewEntry(fn, tp, fcl, cl, i / 32).node else Lookup(v, p, name))
  {
    CreatedIsListed(v, v', h, fn, tp, cl, i, fcl);
    if p.inode == h {
      var l := DirList(v, h);
      FirstNamedOfAdded(l, NewEntry(fn, tp, fcl, cl, i / 32), name);
      if !Lists(l, name) {
        NotNamed(l, name);
      }
    }
  }
}
