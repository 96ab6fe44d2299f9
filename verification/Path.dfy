/** skipelem and namex of fs.c: a path is its non-empty slash-separated components, and looking it up is following
    them one directory at a time. */
module Path {
  import opened Prelude
  import opened Blocks
  import opened FileSystem
  import opened Directory

  const SLASH: byte := 47
  const T_DIR := 1
  const ROOTINO := 1

  // ---------------------------------------------------------------- components

  function FirstSlash(p: Name): (k: nat)
    ensures k <= |p| && SLASH !in p[..k] && (k < |p| ==> p[k] == SLASH)
  {
    if p == [] || p[0] == SLASH then 0
    else
      var k := FirstSlash(p[1..]) + 1;
      assert p[..k] == [p[0]] + p[1..][..k - 1];
      k
  }

  /** The pieces between slashes, empty ones included. */
  function Split(p: Name): (r: seq<Name>)
    decreases |p|
  {
    var k := FirstSlash(p);
    if k == |p| then [p] else [p[..k]] + Split(p[k + 1..])
  }

  function NonEmpty(ps: seq<Name>): (r: seq<Name>) {
    if ps == [] then [] else (if ps[0] == [] then [] else [ps[0]]) + NonEmpty(ps[1..])
  }

  function Components(p: Name): (r: seq<Name>) {
    NonEmpty(Split(p))
  }

  lemma SlashFirst(p: Name)
    requires p != [] && p[0] == SLASH
    ensures Components(p) == Components(p[1..])
  {
    assert FirstSlash(p) == 0 && p[..0] == [] && p[0 + 1..] == p[1..];
    assert Split(p) == [[]] + Split(p[1..]);
    assert ([[]] + Split(p[1..]))[1..] == Split(p[1..]);
  }

  /** The component up to k comes first. */
  lemma WordFirst(p: Name, k: nat)
    requires 0 < k <= |p| && SLASH !in p[..k] && (k < |p| ==> p[k] == SLASH)
    ensures Components(p) == [p[..k]] + Components(p[k..])
  {
    FirstIs(p, k);
    if k == |p| {
      assert p[..k] == p && p[k..] == [];
      NoComponents();
      assert [p][1..] == [];
    } else {
      var rest := Split(p[k + 1..]);
      assert ([p[..k]] + rest)[1..] == rest;
      assert p[k..][1..] == p[k + 1..] && p[k..][0] == SLASH;
      SlashFirst(p[k..]);
    }
  }

  lemma {:induction false} FirstIs(p: Name, k: nat)
    requires k <= |p| && SLASH !in p[..k] && (k < |p| ==> p[k] == SLASH)
    ensures FirstSlash(p) == k
    decreases k
  {
    if k > 0 {
      assert p[0] == p[..k][0];
      assert p[1..][..k - 1] == p[..k][1..];
      FirstIs(p[1..], k - 1);
    }
  }

  lemma NoComponents()
    ensures Components([]) == []
  {
    var none: Name := [];
    assert Split(none) == [none] && [none][1..] == [];
  }

  /** The end of the component that starts at s. */
  method ScanWord(path: Name, s: nat) returns (i: nat)
    requires s < |path| && path[s] != SLASH
    ensures s < i <= |path| && Components(path[s..]) == [path[s..i]] + Components(path[i..])
  {
    hide Components;
    i := s;
    while i < |path| && path[i] != SLASH
      invariant s <= i <= |path| && (i == s ==> path[i] != SLASH) && SLASH !in path[s..i]
    {
      assert path[s..i + 1] == path[s..i] + [path[i]];
      i := i + 1;
    }
    assert path[s..][..i - s] == path[s..i] && path[s..][i - s..] == path[i..];
    WordFirst(path[s..], i - s);
  }

  /** The next component of path from i on, cut to DIRSIZ, and where the rest starts, past any slashes; None at the
      end. */
  method Skipelem(path: Name, i0: nat) returns (r: Option<(Name, nat)>, ghost c: Name)
    requires i0 <= |path| && NoNul(path)
    ensures r.None? <==> Components(path[i0..]) == []
    ensures r.Some? ==> i0 < r.value.1 <= |path| && r.value.0 == Cut(c) && NoNul(r.value.0)
    ensures r.Some? ==> Components(path[i0..]) == [c] + Components(path[r.value.1..])
    ensures r.Some? ==> (r.value.1 == |path| <==> Components(path[r.value.1..]) == [])
  {
    hide Components;
    c := [];
    var s := SkipSlashes(path, i0);
    AtEnd(path, s);
    if s == |path| { return None, c; }
    var i := ScanWord(path, s);
    c := path[s..i];
    var name := if i - s >= DIRSIZ then path[s..s + DIRSIZ] else path[s..i];
    assert name == Cut(c) && NoNul(name);
    i := SkipSlashes(path, i);
    AtEnd(path, i);
    return Some((name, i)), c;
  }

  lemma AtEnd(path: Name, i: nat)
    requires i <= |path| && (i < |path| ==> path[i] != SLASH)
    ensures Components(path[i..]) == [] <==> i == |path|
  {
    if i == |path| { assert path[i..] == []; NoComponents(); } else { SomeComponent(path[i..]); }
  }

  lemma SomeComponent(p: Name)
    requires p != [] && p[0] != SLASH
    ensures Components(p) != []
  {
    var k := FirstSlash(p);
    WordFirst(p, k);
  }

  method SkipSlashes(path: Name, i0: nat) returns (i: nat)
    requires i0 <= |path|
    ensures i0 <= i <= |path| && (i < |path| ==> path[i] != SLASH)
    ensures Components(path[i..]) == Components(path[i0..])
  {
    i := i0;
    while i < |path| && path[i] == SLASH
      invariant i0 <= i <= |path| && Components(path[i..]) == Components(path[i0..])
    {
      assert path[i..][1..] == path[i + 1..];
      SlashFirst(path[i..]);
      i := i + 1;
    }
  }

  // ---------------------------------------------------------------- looking up

  /** What looking up a path depends on: each inode's type and bytes. */
  datatype Tree = Tree(kinds: seq<int>, files: seq<seq<byte>>)

  ghost predicate IsDir(t: Tree, ip: nat) {
    ip < |t.kinds| == |t.files| && t.kinds[ip] == T_DIR
  }

  ghost function Listing(t: Tree, ip: nat): (m: map<Name, nat>)
    requires IsDir(t, ip)
  {
    AsMap(Entries(t.files[ip]))
  }

  /** Directories are well formed and lead to inodes that exist. */
  ghost predicate TreeOk(t: Tree) {
    && |t.kinds| == |t.files|
    && forall ip: nat {:trigger IsDir(t, ip)} :: IsDir(t, ip) ==>
         IsDirectory(t.files[ip]) && forall n {:trigger n in Listing(t, ip)} :: n in Listing(t, ip) ==>
             Listing(t, ip)[n] < |t.kinds|
  }

  /** Fold lookup over the components. */
  ghost function Resolve(t: Tree, ip: nat, cs: seq<Name>): (r: Option<nat>)
    decreases |cs|
  {
    if cs == [] then Some(ip)
    else if !IsDir(t, ip) || Cut(cs[0]) !in Listing(t, ip) then None
    else Resolve(t, Listing(t, ip)[Cut(cs[0])], cs[1..])
  }

  /** The directory that holds the last component, with that component's name. */
  ghost function ResolveParent(t: Tree, ip: nat, cs: seq<Name>): (r: Option<(nat, Name)>)
    decreases |cs|
  {
    if cs == [] || !IsDir(t, ip) then None
    else if |cs| == 1 then Some((ip, Cut(cs[0])))
    else if Cut(cs[0]) !in Listing(t, ip) then None
    else ResolveParent(t, Listing(t, ip)[Cut(cs[0])], cs[1..])
  }

  /** The parent of a path is what all but its last component leads to, if that is a directory. */
  lemma {:induction false} ParentIsPrefix(t: Tree, ip: nat, cs: seq<Name>)
    requires cs != []
    ensures var p := Resolve(t, ip, cs[..|cs| - 1]);
            ResolveParent(t, ip, cs) ==
            if p.Some? && IsDir(t, p.value) then Some((p.value, Cut(cs[|cs| - 1]))) else None
    decreases |cs|
  {
    if |cs| > 1 {
      assert cs[..|cs| - 1][1..] == cs[1..][..|cs| - 2] && cs[..|cs| - 1][0] == cs[0];
      if IsDir(t, ip) && Cut(cs[0]) in Listing(t, ip) { ParentIsPrefix(t, Listing(t, ip)[Cut(cs[0])], cs[1..]); }
    }
  }

  lemma CutTwice(n: Name)
    ensures Cut(Cut(n)) == Cut(n)
  {
  }

  class Namespace {
    const fs: Files
    const dirs: Dirs

    constructor (fs: Files)
      ensures this.fs == fs && dirs.fs == fs && fresh(dirs)
    {
      this.fs := fs;
      dirs := new Dirs(fs);
    }

    /** The file system is as t says. */
    ghost predicate Shows(t: Tree)
      reads this, fs
    {
      && dirs.fs == fs && fs.Valid() && TreeOk(t) && |t.kinds| == |fs.inodes|
      && (forall i {:trigger t.kinds[i]} :: 0 <= i < |t.kinds| ==> t.kinds[i] == fs.inodes[i].kind)
      && (forall i {:trigger t.files[i]} :: 0 <= i < |t.files| ==> t.files[i] == fs.File(i))
    }

    /** dirlookup in directory ip. */
    method Lookup(ip: nat, name: Name, ghost t: Tree) returns (inum: nat)
      requires Shows(t) && IsDir(t, ip) && NoNul(name)
      modifies fs
      ensures Shows(t) && unchanged(fs)
      ensures inum == 0 <==> Cut(name) !in Listing(t, ip)
      ensures inum != 0 ==> inum == Listing(t, ip)[Cut(name)] && inum < |t.kinds|
    {
      ghost var b := t.files[ip];
      assert dirs.Holds(ip, b);
      hide AsMap, Entries, NoDuplicates;
      var k;
      inum, k := dirs.DirLookup(ip, name, b);
      forall i | 0 <= i < |t.files| ensures t.files[i] == fs.File(i) { assert t.files[i] == old(fs.File(i)); }
    }

    method Kind(ip: nat, ghost t: Tree) returns (dir: bool)
      requires Shows(t) && ip < |t.kinds|
      ensures dir == IsDir(t, ip)
    {
      dir := fs.inodes[ip].kind == T_DIR;
    }

    /** One turn of the loop of namex on component `name`, with the path continuing at j. Left: the loop returns r. */
    method Descend(ip: nat, name: Name, last: bool, parent: bool, ghost t: Tree, ghost cs: seq<Name>)
      returns (left: bool, r: Option<nat>, next: nat)
      requires Shows(t) && ip < |t.kinds| && NoNul(name) && cs != [] && name == Cut(cs[0]) && (last <==> |cs| == 1)
      modifies fs
      ensures Shows(t) && unchanged(fs)
      ensures left ==> Answer(parent, r, name) == Wanted(t, ip, cs, parent)
      ensures !left ==> next < |t.kinds| && Wanted(t, ip, cs, parent) == Wanted(t, next, cs[1..], parent)
    {
      hide Shows, TreeOk, Listing;
      CutTwice(cs[0]);
      next := 0;
      var dir := Kind(ip, t);
      if !dir { return true, None, next; }
      if parent && last { return true, Some(ip), next; }
      next := Lookup(ip, name, t);
      if next == 0 { return true, None, next; }
      left, r := false, None;
    }

    /** namei (parent false) or nameiparent: the fold of lookup over the components. */
    method Namex(path: Name, parent: bool, cwd: nat, ghost t: Tree) returns (r: Option<nat>, name: Name)
      requires Shows(t) && NoNul(path) && cwd < |t.kinds| && ROOTINO < |t.kinds|
      modifies fs
      ensures unchanged(fs)
      ensures Answer(parent, r, name) ==
              Wanted(t, if path != [] && path[0] == SLASH then ROOTINO else cwd, Components(path), parent)
    {
      var ip: nat := if path != [] && path[0] == SLASH then ROOTINO else cwd;
      ghost var start: nat := ip;
      var i := 0;
      name := [];
      assert path[0..] == path;
      hide Components, Shows, Cut, Wanted;
      while true
        invariant 0 <= i <= |path| && Shows(t) && ip < |t.kinds| && unchanged(fs)
        invariant Wanted(t, start, Components(path), parent) == Wanted(t, ip, Components(path[i..]), parent)
        decreases |path| - i
      {
        var e, c := Skipelem(path, i);
        if e.None? { break; }
        name := e.value.0;
        ghost var cs := Components(path[i..]);
        assert cs[0] == c && cs[1..] == Components(path[e.value.1..]);
        var left;
        left, r, ip := Descend(ip, name, e.value.1 == |path|, parent, t, cs);
        if left { return; }
        i := e.value.1;
      }
      NothingLeft(t, ip, parent);
      r := if parent then None else Some(ip);
    }
  }

  /** What namex is to return. */
  ghost function Wanted(t: Tree, ip: nat, cs: seq<Name>, parent: bool): (r: Option<(nat, Name)>) {
    if parent then ResolveParent(t, ip, cs)
    else match Resolve(t, ip, cs) case Some(x) => Some((x, [])) case None => None
  }

  /** What namex returns; the name matters for nameiparent only. */
  ghost function Answer(parent: bool, r: Option<nat>, name: Name): (a: Option<(nat, Name)>) {
    if r.None? then None else Some((r.value, if parent then name else []))
  }

  lemma NothingLeft(t: Tree, ip: nat, parent: bool)
    ensures Wanted(t, ip, [], parent) == if parent then None else Some((ip, []))
  {
  }
}
