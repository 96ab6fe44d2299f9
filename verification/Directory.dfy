/** Directories of fs.c as finite maps. A directory is a file of 16-byte entries, a 2-byte inode number (0 for an
    unused entry) and a name of up to DIRSIZ bytes. */
module Directory {
  import opened Prelude
  import opened Blocks
  import opened FileSystem

  const DIRSIZ := 14
  const DIRENT := 16 // sizeof(struct dirent)

  type Name = seq<byte>

  datatype Entry = Entry(inum: nat, name: Name)

  /** A name as directories keep it. */
  function Cut(name: Name): (r: Name)
    ensures r <= name && |r| == (if |name| < 14 then |name| else 14)
  {
    if |name| > DIRSIZ then name[..DIRSIZ] else name
  }

  ghost predicate NoNul(name: Name) {
    forall k {:trigger name[k]} :: 0 <= k < |name| ==> name[k] != 0
  }

  /** A name field up to its first NUL. */
  function Trim(f: seq<byte>): (r: Name)
    ensures |r| <= |f| && NoNul(r) && r == f[..|r|] && (|r| < |f| ==> f[|r|] == 0)
  {
    if f == [] || f[0] == 0 then [] else [f[0]] + Trim(f[1..])
  }

  function EntryAt(b: seq<byte>, k: nat): (e: Entry)
    requires DIRENT * k + DIRENT <= |b|
  {
    Entry(b[DIRENT * k] as int + 256 * (b[DIRENT * k + 1] as int), Trim(b[DIRENT * k + 2..DIRENT * k + DIRENT]))
  }

  ghost function Entries(b: seq<byte>): (es: seq<Entry>)
    ensures |es| == |b| / DIRENT
  {
    seq(|b| / DIRENT, k requires 0 <= k < |b| / DIRENT => EntryAt(b, k))
  }

  /** The map that a list of entries stands for. */
  ghost function AsMap(es: seq<Entry>): (m: map<Name, nat>) {
    if es == [] then map[]
    else
      var e := es[|es| - 1];
      if e.inum == 0 then AsMap(es[..|es| - 1]) else AsMap(es[..|es| - 1])[e.name := e.inum]
  }

  /** No two live entries have the same name. */
  ghost predicate NoDuplicates(es: seq<Entry>) {
    forall i, j {:trigger es[i], es[j]} :: 0 <= i < j < |es| && es[i].inum != 0 && es[j].inum != 0 ==>
      es[i].name != es[j].name
  }

  ghost predicate IsDirectory(b: seq<byte>) {
    |b| % DIRENT == 0 && NoDuplicates(Entries(b))
  }

  // ---------------------------------------------------------------- entries and the map

  lemma {:induction false} MapHas(es: seq<Entry>, k: nat)
    requires NoDuplicates(es) && k < |es| && es[k].inum != 0
    ensures es[k].name in AsMap(es) && AsMap(es)[es[k].name] == es[k].inum
    decreases |es|
  {
    var n := |es| - 1;
    if k < n { MapHas(es[..n], k); }
  }

  lemma {:induction false} MapOnly(es: seq<Entry>, name: Name)
    requires forall k {:trigger es[k]} :: 0 <= k < |es| ==> es[k].inum == 0 || es[k].name != name
    ensures name !in AsMap(es)
    decreases |es|
  {
    if es != [] { MapOnly(es[..|es| - 1], name); }
  }

  /** Using a free slot adds a name. */
  lemma {:induction false} MapSet(es: seq<Entry>, k: nat, e: Entry)
    requires NoDuplicates(es) && k < |es| && es[k].inum == 0 && e.inum != 0 && e.name !in AsMap(es)
    ensures NoDuplicates(es[k := e]) && AsMap(es[k := e]) == AsMap(es)[e.name := e.inum]
    decreases |es|
  {
    var n := |es| - 1;
    forall i | 0 <= i < |es| && es[i].inum != 0 ensures es[i].name != e.name { MapHas(es, i); }
    if k == n {
      assert es[k := e][..n] == es[..n];
    } else {
      assert es[k := e][..n] == es[..n][k := e];
      MapSet(es[..n], k, e);
      if es[n].inum != 0 { assert es[n].name != e.name; }
    }
  }

  lemma MapAppend(es: seq<Entry>, e: Entry)
    requires NoDuplicates(es) && e.inum != 0 && e.name !in AsMap(es)
    ensures NoDuplicates(es + [e]) && AsMap(es + [e]) == AsMap(es)[e.name := e.inum]
  {
    forall i | 0 <= i < |es| && es[i].inum != 0 ensures es[i].name != e.name { MapHas(es, i); }
    var r := es + [e];
    assert r[..|es|] == es && r[|es|] == e;
    assert AsMap(r) == AsMap(es)[e.name := e.inum];
    hide AsMap;
    forall i, j | 0 <= i < j < |r| && r[i].inum != 0 && r[j].inum != 0 ensures r[i].name != r[j].name {
      assert r[i] == es[i];
      assert j < |es| ==> r[j] == es[j];
    }
  }

  /** Clearing an entry removes its name. */
  lemma {:induction false} MapClear(es: seq<Entry>, k: nat, e: Entry)
    requires NoDuplicates(es) && k < |es| && es[k].inum != 0 && e.inum == 0
    ensures NoDuplicates(es[k := e])
    ensures AsMap(es[k := e]) == AsMap(es) - {es[k].name}
    decreases |es|
  {
    var n := |es| - 1;
    var name := es[k].name;
    if k == n {
      assert es[k := e][..n] == es[..n];
      MapOnly(es[..n], name);
      DropSet(AsMap(es[..n]), name, es[k].inum);
    } else {
      assert es[k := e][..n] == es[..n][k := e];
      MapClear(es[..n], k, e);
      assert es[n].inum != 0 ==> es[n].name != name;
      DropOther(AsMap(es[..n]), name, es[n].name, es[n].inum);
    }
  }

  lemma DropSet(m: map<Name, nat>, name: Name, x: nat)
    requires name !in m
    ensures m[name := x] - {name} == m
  {
  }

  lemma DropOther(m: map<Name, nat>, name: Name, other: Name, x: nat)
    ensures other != name ==> m[other := x] - {name} == (m - {name})[other := x]
  {
  }

  // ---------------------------------------------------------------- entries and bytes

  /** Writing 16 bytes at entry k sets or appends that entry. */
  lemma SpliceEntry(b: seq<byte>, k: nat, d: seq<byte>)
    requires |b| % DIRENT == 0 && |d| == DIRENT && DIRENT * k <= |b|
    ensures |Splice(b, DIRENT * k, d)| % DIRENT == 0
    ensures Entries(Splice(b, DIRENT * k, d)) ==
            if k < |b| / DIRENT then Entries(b)[k := EntryAt(d, 0)] else Entries(b) + [EntryAt(d, 0)]
  {
    var b', n := Splice(b, DIRENT * k, d), |b| / DIRENT;
    assert |b'| == if k < n then |b| else |b| + DIRENT;
    var es := Entries(b');
    forall j: nat | j < |es| ensures es[j] == if j == k then EntryAt(d, 0) else EntryAt(b, j) { SpliceAt(b, k, d, j); }
  }

  lemma SpliceAt(b: seq<byte>, k: nat, d: seq<byte>, j: nat)
    requires |b| % DIRENT == 0 && |d| == DIRENT && DIRENT * k <= |b|
    requires DIRENT * j + DIRENT <= |Splice(b, DIRENT * k, d)|
    ensures j != k ==> DIRENT * j + DIRENT <= |b|
    ensures EntryAt(Splice(b, DIRENT * k, d), j) == if j == k then EntryAt(d, 0) else EntryAt(b, j)
  {
    var b' := Splice(b, DIRENT * k, d);
    assert |b'| == if DIRENT * k + DIRENT < |b| then |b| else DIRENT * k + DIRENT;
    if j == k {
      assert b'[DIRENT * j + 2..DIRENT * j + DIRENT] == d[2..DIRENT];
    } else {
      assert DIRENT * j + DIRENT <= |b|;
      assert b'[DIRENT * j + 2..DIRENT * j + DIRENT] == b[DIRENT * j + 2..DIRENT * j + DIRENT];
    }
  }

  // ---------------------------------------------------------------- names

  /** Trim stops at the first NUL. */
  lemma {:induction false} TrimAt(f: seq<byte>, k: nat)
    requires k <= |f| && NoNul(f[..k])
    ensures |Trim(f)| >= k && Trim(f)[..k] == f[..k]
    ensures k < |f| && f[k] == 0 ==> |Trim(f)| == k
    decreases k
  {
    if k > 0 {
      assert f[..k][0] == f[0] && f[1..][..k - 1] == f[..k][1..];
      TrimAt(f[1..], k - 1);
    }
  }

  /** namecmp(name, f) == 0: strncmp over DIRSIZ bytes. */
  method NameCmp(name: Name, f: seq<byte>) returns (eq: bool)
    requires |f| == DIRSIZ && NoNul(name)
    ensures eq == (Cut(name) == Trim(f))
  {
    var k := 0;
    while k < DIRSIZ && k < |name| && name[k] == f[k]
      invariant 0 <= k <= DIRSIZ && k <= |name| && name[..k] == f[..k]
    {
      k := k + 1;
    }
    assert NoNul(f[..k]) by { assert forall j {:trigger f[..k][j]} :: 0 <= j < k ==> f[..k][j] == name[j]; }
    TrimAt(f, k);
    if k == DIRSIZ {
      assert f[..k] == f && name[..k] == Cut(name);
      return true;
    }
    eq := (if k < |name| then name[k] else 0) == f[k];
    if k < |name| {
      assert Cut(name)[k] == name[k];
      assert |Trim(f)| > k ==> Trim(f)[k] == f[k];
    } else {
      assert Cut(name) == name && f[k] != 0 ==> |Trim(f)| > k;
    }
  }

  /** strncpy(de.name, name, DIRSIZ): the name, then NULs. */
  method NameField(name: Name) returns (f: seq<byte>)
    requires NoNul(name)
    ensures |f| == DIRSIZ && Trim(f) == Cut(name)
  {
    f := [];
    while |f| < DIRSIZ && |f| < |name|
      invariant |f| <= DIRSIZ && |f| <= |name| && f == name[..|f|]
    {
      f := f + [name[|f|]];
    }
    ghost var n := |f|;
    while |f| < DIRSIZ
      invariant n <= |f| <= DIRSIZ && f[..n] == Cut(name) && forall j {:trigger f[j]} :: n <= j < |f| ==> f[j] == 0
    {
      f := f + [0];
    }
    TrimAt(f, n);
  }

  lemma EncodedEntry(lo: byte, hi: byte, f: seq<byte>)
    requires |f| == DIRSIZ
    ensures EntryAt([lo, hi] + f, 0) == Entry(lo as int + 256 * (hi as int), Trim(f))
  {
    assert ([lo, hi] + f)[2..DIRENT] == f;
  }

  // ---------------------------------------------------------------- the operations

  class Dirs {
    const fs: Files

    constructor (fs: Files)
      ensures this.fs == fs
    {
      this.fs := fs;
    }

    ghost predicate Valid(dp: nat)
      reads this, fs
    {
      fs.Valid() && dp < |fs.inodes| && IsDirectory(fs.File(dp))
    }

    ghost function Map(dp: nat): (m: map<Name, nat>)
      requires Valid(dp)
      reads this, fs
    {
      AsMap(Entries(fs.File(dp)))
    }

    /** dp is a directory with the bytes b. */
    ghost predicate Holds(dp: nat, b: seq<byte>)
      reads this, fs
    {
      Valid(dp) && fs.File(dp) == b
    }

    /** Read the 16 bytes of entry k. */
    method ReadEntry(dp: nat, k: nat, ghost b: seq<byte>) returns (de: seq<byte>)
      requires Holds(dp, b) && k < |Entries(b)|
      modifies fs
      ensures unchanged(fs) && Holds(dp, b)
      ensures |de| == DIRENT && Entries(b)[k] == Entry(de[0] as int + 256 * (de[1] as int), Trim(de[2..]))
    {
      var r;
      assert MapsTo(fs.State(), dp, fs.inodes[dp].size);
      r, de := fs.Readi(dp, DIRENT * k, DIRENT);
      assert DIRENT * k + DIRENT <= |b|;
      assert de == b[DIRENT * k..DIRENT * k + DIRENT];
      assert de[2..] == b[DIRENT * k + 2..DIRENT * k + DIRENT];
    }

    /** Compare entry k: its inode number if it is live and has the name, else 0. */
    method Probe(dp: nat, k: nat, name: Name, ghost b: seq<byte>) returns (inum: nat)
      requires Holds(dp, b) && NoNul(name) && k < |Entries(b)|
      modifies fs
      ensures unchanged(fs) && Holds(dp, b)
      ensures var e := Entries(b)[k]; inum == if e.inum != 0 && e.name == Cut(name) then e.inum else 0
    {
      hide Holds, Trim, Entries, Cut;
      var de := ReadEntry(dp, k, b);
      inum := de[0] as int + 256 * (de[1] as int);
      if inum == 0 { return; }
      var eq := NameCmp(name, de[2..]);
      if !eq { return 0; }
    }

    lemma EntryCount(dp: nat, k: nat, b: seq<byte>)
      requires Holds(dp, b)
      ensures dp < |fs.inodes| && (DIRENT * k < fs.inodes[dp].size <==> k < |Entries(b)|) && NoDuplicates(Entries(b))
    {
    }

    /** Look for a live entry by name: its inode number and place, or 0. */
    method DirLookup(dp: nat, name: Name, ghost b: seq<byte>) returns (inum: nat, k: nat)
      requires Holds(dp, b) && NoNul(name)
      modifies fs
      ensures unchanged(fs) && Holds(dp, b)
      ensures inum == 0 ==> Cut(name) !in AsMap(Entries(b))
      ensures inum != 0 ==> Cut(name) in AsMap(Entries(b)) && AsMap(Entries(b))[Cut(name)] == inum
      ensures inum != 0 ==> k < |Entries(b)| && Entries(b)[k] == Entry(inum, Cut(name))
    {
      hide NoDuplicates, AsMap, Entries, Holds, Cut;
      k := 0;
      EntryCount(dp, 0, b);
      while DIRENT * k < fs.inodes[dp].size
        invariant 0 <= k <= |Entries(b)| && unchanged(fs) && Holds(dp, b) && dp < |fs.inodes|
        invariant DIRENT * k < fs.inodes[dp].size <==> k < |Entries(b)|
        invariant forall j {:trigger Entries(b)[j]} :: 0 <= j < k ==>
                    Entries(b)[j].inum == 0 || Entries(b)[j].name != Cut(name)
        decreases |Entries(b)| - k
      {
        inum := Probe(dp, k, name, b);
        if inum != 0 { MapHas(Entries(b), k); return; }
        k := k + 1;
        EntryCount(dp, k, b);
      }
      MapOnly(Entries(b), Cut(name));
      return 0, 0;
    }

    /** The first free entry, or one past the last. */
    method FreeEntry(dp: nat, ghost b: seq<byte>) returns (k: nat)
      requires Holds(dp, b)
      modifies fs
      ensures unchanged(fs) && Holds(dp, b) && k <= |Entries(b)| && (k < |Entries(b)| ==> Entries(b)[k].inum == 0)
    {
      hide NoDuplicates, Trim, Entries, Holds;
      k := 0;
      EntryCount(dp, 0, b);
      while DIRENT * k < fs.inodes[dp].size
        invariant 0 <= k <= |Entries(b)| && unchanged(fs) && Holds(dp, b) && dp < |fs.inodes|
        invariant DIRENT * k < fs.inodes[dp].size <==> k < |Entries(b)|
        decreases |Entries(b)| - k
      {
        var de := ReadEntry(dp, k, b);
        if de[0] == 0 && de[1] == 0 { return; }
        k := k + 1;
        EntryCount(dp, k, b);
      }
    }

    lemma EntryStart(b: seq<byte>, k: nat)
      requires k <= |Entries(b)|
      ensures DIRENT * k <= |b| && (k == |Entries(b)| && |b| % DIRENT == 0 ==> DIRENT * k == |b|)
      ensures k < |Entries(b)| ==> DIRENT * k + DIRENT <= |b|
    {
    }

    /** Write entry k. False is a panic: every block is in use, or the directory is as large as a file can be. It
        cannot happen to an entry the directory has already. */
    method WriteEntry(dp: nat, k: nat, de: seq<byte>) returns (ok: bool)
      requires Valid(dp) && |de| == DIRENT && k <= |Entries(fs.File(dp))|
      modifies fs
      ensures !ok ==> (fs.Full() || DIRENT * k + DIRENT > MAXBYTES) && k == old(|Entries(fs.File(dp))|)
      ensures ok ==> fs.Valid() && |fs.inodes| == old(|fs.inodes|) && |fs.File(dp)| % DIRENT == 0
      ensures ok ==> var es := old(Entries(fs.File(dp)));
                     Entries(fs.File(dp)) == if k < |es| then es[k := EntryAt(de, 0)] else es + [EntryAt(de, 0)]
      ensures ok ==> OthersSame(dp)
    {
      hide Splice, EntryAt, Entries, NoDuplicates;
      ghost var b := fs.File(dp);
      EntryStart(b, k);
      assert MapsTo(fs.State(), dp, fs.inodes[dp].size);
      SpliceEntry(b, k, de);
      var r, _ := fs.Writei(dp, de, DIRENT * k);
      ok := r == Some(DIRENT);
      if ok {
        forall i: nat | i < |fs.inodes| && i != dp
          ensures fs.File(i) == old(fs.File(i)) && fs.inodes[i] == old(fs.inodes[i]) {}
      }
    }

    /** Add a name. -1 if it is there already; None is a panic of writei. */
    method DirLink(dp: nat, name: Name, inum: nat) returns (r: Option<int>)
      requires Valid(dp) && NoNul(name) && 0 < inum < 65536
      modifies fs
      ensures r == Some(-1) <==> Cut(name) in old(Map(dp))
      ensures r == Some(-1) ==> unchanged(fs)
      ensures r.Some? && r.value != -1 ==> r.value == 0 && Valid(dp) && Map(dp) == old(Map(dp))[Cut(name) := inum]
      ensures r.Some? && r.value != -1 ==> OthersSame(dp)
      ensures r.None? ==> fs.Full() || |old(fs.File(dp))| + DIRENT > MAXBYTES
    {
      hide NoDuplicates, AsMap, Trim, Entries, EntryAt;
      ghost var b := fs.File(dp);
      var found, at := DirLookup(dp, name, b);
      if found != 0 { return Some(-1); }
      var k := FreeEntry(dp, b);
      var f := NameField(name);
      EncodedEntry(inum % 256, inum / 256, f);
      ghost var es := Entries(b);
      if k < |es| { MapSet(es, k, Entry(inum, Cut(name))); } else { MapAppend(es, Entry(inum, Cut(name))); }
      var ok := WriteEntry(dp, k, [inum % 256, inum / 256] + f);
      return if ok then Some(0) else None;
    }

    twostate predicate OthersSame(dp: nat)
      reads this, fs
    {
      && old(fs.Valid()) && fs.Valid() && |fs.inodes| == old(|fs.inodes|)
      && forall i: nat {:trigger fs.File(i)} :: i < |fs.inodes| && i != dp ==>
           fs.File(i) == old(fs.File(i)) && fs.inodes[i] == old(fs.inodes[i])
    }

    /** The directory part of unlink: clear the entry. False: no such name. The write stays inside the directory, so
        the panic "unlink: writei" is out of reach, even on a full disk. */
    method ClearEntry(dp: nat, name: Name) returns (ok: bool)
      requires Valid(dp) && NoNul(name)
      modifies fs
      ensures ok <==> Cut(name) in old(Map(dp))
      ensures !ok ==> unchanged(fs)
      ensures ok ==> Valid(dp) && Map(dp) == old(Map(dp)) - {Cut(name)} && OthersSame(dp)
    {
      hide NoDuplicates, AsMap, Trim, Entries, EntryAt;
      ghost var b := fs.File(dp);
      var found, k := DirLookup(dp, name, b);
      if found == 0 { return false; }
      var zeros: seq<byte> := seq(DIRSIZ, _ => 0);
      EncodedEntry(0, 0, zeros);
      ghost var es := Entries(b);
      MapClear(es, k, EntryAt([0, 0] + zeros, 0));
      ok := WriteEntry(dp, k, [0, 0] + zeros);
    }
  }
}
