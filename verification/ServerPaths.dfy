/** What the requests of fsserver.c do to the file system, as values: names, new files, paths and contents. */
module ServerPaths {
  import opened Prelude
  import opened Blocks
  import opened BlockMap
  import opened FileSystem
  import opened Directory
  import opened DiskInode
  import opened ServerStore
  import opened ServerIo
  import opened ServerNames
  import opened ServerTables
  import Path

  // ---------------------------------------------------------------- names in a directory

  /** unamecmp(name, f) == 0, for a name that fits a field with its NUL. */
  method UnameCmp(name: Name, f: seq<byte>) returns (eq: bool)
    requires |f| == DIRSIZ && NoNul(name) && |name| < DIRSIZ
    ensures eq == (name == Trim(f))
  {
    var k := 0;
    while k < |name| && f[k] != 0 && name[k] == f[k]
      invariant 0 <= k <= |name| && name[..k] == f[..k]
    {
      k := k + 1;
    }
    assert NoNul(f[..k]) by { assert forall j {:trigger f[..k][j]} :: 0 <= j < k ==> f[..k][j] == name[j]; }
    TrimAt(f, k);
    eq := (if k < |name| then name[k] else 0) == f[k];
    assert |Trim(f)| > k ==> Trim(f)[k] == f[k];
  }

  /** The name under which OPEN creates a file. */
  ghost function CreatedName(path: Name): Name {
    var cs := Path.Components(path);
    if cs == [] then [] else Shorten(cs[0])
  }

  /** Entry k was free, or one past the last, and is now e. */
  ghost predicate LinkedTo(es: seq<Entry>, es': seq<Entry>, k: nat, e: Entry) {
    k <= |es| && (k < |es| ==> es[k].inum == 0) && es' == if k < |es| then es[k := e] else es + [e]
  }

  /** Linking a name that the directory does not have adds it to the map, and nothing else. */
  lemma LinkedMap(es: seq<Entry>, es': seq<Entry>, k: nat, e: Entry)
    requires LinkedTo(es, es', k, e) && NoDuplicates(es) && Find(es, e.name, 0).None? && e.inum != 0
    ensures NoDuplicates(es') && AsMap(es') == AsMap(es)[e.name := e.inum]
  {
    FindIsMap(es, e.name, 0);
    if k < |es| { MapSet(es, k, e); } else { MapAppend(es, e); }
  }

  lemma EntryIsOk(fs: Fs, inum: nat, name: Name)
    requires inum < |fs.inodes| && fs.inodes[inum].kind != 0
    ensures EntryOk(fs, Entry(inum, name))
  {
  }

  /** The entry that dirlink fills in. */
  method MakeEntry(name: Name, inum: nat) returns (de: seq<byte>)
    requires NoNul(name) && |name| < DIRSIZ && inum < SHORT
    ensures |de| == DIRENT && EntryAt(de, 0) == Entry(inum, name)
  {
    hide Trim, EntryAt;
    var f := NameField(name);
    assert Cut(name) == name;
    EncodedEntry(inum % 256, inum / 256, f);
    de := [inum % 256, inum / 256] + f;
  }

  lemma SliceEntry(b: seq<byte>, k: nat, de: seq<byte>)
    requires k < |Entries(b)| && de == Slice(b, DIRENT * k, DIRENT)
    ensures |de| == DIRENT && Entries(b)[k] == Entry(de[0] as int + 256 * (de[1] as int), Trim(de[2..]))
  {
    assert DIRENT * k + DIRENT <= |b|;
    assert de[2..] == b[DIRENT * k + 2..DIRENT * k + DIRENT];
  }

  // ---------------------------------------------------------------- a new file

  /** The inode of an empty file. */
  function NewFile(nlink: nat): Inode {
    Inode(T_FILE, 0, 0, nlink, 0, NoBlocks())
  }

  /** A sound file system has a root directory. */
  ghost predicate RootDir(fs: Fs) {
    Shape(fs) && FilesOk(fs) && ROOTINO < |fs.inodes| && fs.inodes[ROOTINO].kind == T_DIR
  }

  /** The first free inode, if there was one, is now ino, and no file changed otherwise. */
  ghost predicate Taken(fs: Fs, r: Fs, inum: nat, ino: Inode) {
    && SameBlocks(fs, r)
    && (inum == 0 ==> r == fs)
    && (inum != 0 ==> inum < |fs.inodes| && fs.inodes[inum].kind == 0 && r.inodes == fs.inodes[inum := ino])
    && (forall i {:trigger fs.inodes[i]} :: 0 < i < |fs.inodes| && (inum == 0 || i < inum) ==> fs.inodes[i].kind != 0)
  }

  lemma IsAllocated(fs: Fs, r: Fs, inum: nat)
    requires Allocated(fs, r, inum, T_FILE) && FilesOk(fs) && FilesOk(r) && Shape(fs) && DirsOk(fs)
    ensures Taken(fs, r, inum, NewFile(0)) && Shape(r) && DirsOk(r)
  {
    hide FilesOk;
    if inum != 0 { DirsAfterIalloc(fs, r, inum, NewFile(0)); }
  }

  lemma NotRoot(fs: Fs, r: Fs, inum: nat, ino: Inode)
    requires Taken(fs, r, inum, ino) && ROOTINO < |fs.inodes| && fs.inodes[ROOTINO].kind == T_DIR
    ensures inum != ROOTINO && |r.inodes| == |fs.inodes| && r.inodes[ROOTINO] == fs.inodes[ROOTINO]
  {
  }

  lemma IsTaken(fs: Fs, r: Fs, inum: nat, ino: Inode)
    requires Taken(fs, r, inum, ino) && inum != 0
    ensures inum < |r.inodes| == |fs.inodes| && r.inodes[inum] == ino
  {
  }

  lemma TakenAgain(fs: Fs, q: Fs, r: Fs, inum: nat, ino: Inode, ino': Inode)
    requires Taken(fs, q, inum, ino) && inum != 0 && SameBlocks(q, r) && r.inodes == q.inodes[inum := ino']
    ensures Taken(fs, r, inum, ino')
  {
    hide FileBlock;
  }

  /** Inode inum, free before, is a new empty file; the root directory has an entry for it; no other file changed. */
  ghost predicate IsCreated(fs: Fs, r: Fs, inum: nat, name: Name, k: nat) {
    && Shape(fs) && Shape(r) && |r.inodes| == |fs.inodes| && ROOTINO < |fs.inodes|
    && 0 < inum < |fs.inodes| && inum != ROOTINO && fs.inodes[inum].kind == 0 && r.inodes[inum] == NewFile(1)
    && (forall i {:trigger fs.inodes[i]} :: 0 < i < inum ==> fs.inodes[i].kind != 0)
    && FileOk(fs, ROOTINO) && FileOk(r, ROOTINO)
    && LinkedTo(DirEntries(fs, ROOTINO), DirEntries(r, ROOTINO), k, Entry(inum, name))
    && (forall i: nat {:trigger SameAt(fs, r, i)} :: i < |fs.inodes| && i != inum && i != ROOTINO ==> SameAt(fs, r, i))
  }

  /** ialloc, uiupdate and dirlink together create a file. */
  lemma CreatedIs(fs: Fs, q: Fs, r: Fs, inum: nat, name: Name, k: nat)
    requires Taken(fs, q, inum, NewFile(1)) && inum != 0 && OtherFiles(q, r, ROOTINO) && FilesOk(fs)
    requires Shape(fs) && Shape(q) && Shape(r) && FilesOk(q) && FilesOk(r) && ROOTINO < |fs.inodes| && inum != ROOTINO
    requires FileOk(q, ROOTINO) && FileOk(r, ROOTINO)
    requires LinkedTo(DirEntries(q, ROOTINO), DirEntries(r, ROOTINO), k, Entry(inum, name))
    ensures IsCreated(fs, r, inum, name, k)
  {
    hide FileBlock, Entries, LinkedTo;
    FileIsOk(fs, ROOTINO);
    SameBlocksBytes(fs, q, ROOTINO, fs.inodes[ROOTINO].size);
    assert r.inodes[inum] == q.inodes[inum];
    forall i: nat | i < |fs.inodes| && i != inum && i != ROOTINO ensures SameAt(fs, r, i) {
      FileIsOk(fs, i);
      FileIsOk(q, i);
      SameBlocksBytes(fs, q, i, fs.inodes[i].size);
      OtherContents(q, r, ROOTINO, i);
    }
  }

  // ---------------------------------------------------------------- paths

  /** The fold of lookup over a path, as far as there are slots: each step needs one while the last inode is held. */
  ghost function WalkIn(fs: Fs, ic: seq<Uinode>, i: nat, cs: seq<Name>): (r: Option<nat>)
    requires Shape(fs) && FilesOk(fs) && i < |fs.inodes|
    ensures r.Some? ==> r == Walk(fs, i, cs) && r.value < |fs.inodes|
    ensures TwoSpare(ic) ==> r == Walk(fs, i, cs)
    decreases |cs|
  {
    if cs == [] then Some(i)
    else
      FileIsOk(fs, i);
      var x := Lookup(fs, i, Shorten(cs[0]));
      if x.None? || x.value >= |fs.inodes| || !SlotFor(ic, i, x.value) then None else WalkIn(fs, ic, x.value, cs[1..])
  }

  /** The first live entry with a name, after that entry was made. */
  lemma {:induction false} FindLinked(es: seq<Entry>, es': seq<Entry>, k: nat, e: Entry, j: nat)
    requires LinkedTo(es, es', k, e) && e.inum != 0 && j <= |es| && j <= k && Find(es, e.name, j) == None
    ensures Find(es', e.name, j) == Some(e.inum)
    decreases k - j
  {
    if j < k { FindLinked(es, es', k, e, j + 1); }
  }

  /** Why a new file cannot be made once the root is held: no inode is free, uiget has no slot for the first free one,
      or the root directory has the name. */
  ghost predicate NoRoom(fs: Fs, ic: seq<Uinode>, inum: nat, name: Name)
    requires RootDir(fs)
  {
    FileIsOk(fs, ROOTINO);
    inum == 0 || !SlotFor(ic, ROOTINO, inum) || Lookup(fs, ROOTINO, name).Some?
  }

  lemma NoRoomSame(fs: Fs, ic: seq<Uinode>, ic': seq<Uinode>, inum: nat, name: Name)
    requires RootDir(fs) && SameRefs(ic, ic')
    ensures NoRoom(fs, ic', inum, name) <==> NoRoom(fs, ic, inum, name)
    ensures Gettable(ic', ROOTINO) <==> Gettable(ic, ROOTINO)
  {
    hide Lookup, RootDir;
    assert Live(ic', inum) <==> Live(ic, inum);
    assert Live(ic', ROOTINO) <==> Live(ic, ROOTINO);
    assert TwoSpare(ic') <==> TwoSpare(ic);
    assert Spare(ic') <==> Spare(ic);
    assert Gettable(ic, ROOTINO) <==> Live(ic, ROOTINO) || Spare(ic);
    assert Gettable(ic', ROOTINO) <==> Live(ic', ROOTINO) || Spare(ic');
  }

  /** Taking an inode does not change what the root directory has. */
  lemma TakenLookup(fs: Fs, q: Fs, inum: nat, nlink: nat, name: Name)
    requires RootDir(fs) && RootDir(q) && Taken(fs, q, inum, NewFile(nlink))
    ensures Lookup(q, ROOTINO, name) == Lookup(fs, ROOTINO, name)
  {
    FileIsOk(fs, ROOTINO);
    FileIsOk(q, ROOTINO);
    NotRoot(fs, q, inum, NewFile(nlink));
    hide Find, Entries, FileBlock;
    assert q.inodes[ROOTINO] == fs.inodes[ROOTINO];
    assert Contents(q, ROOTINO) == Contents(fs, ROOTINO);
  }

  /** After OPEN has made a file for a path, in a root directory that did not have the name, the path leads to the new
      file exactly if it is a single name. */
  lemma CreatedIsFound(fs: Fs, r: Fs, inum: nat, path: Name, k: nat)
    requires RootDir(fs) && RootDir(r) && Path.Components(path) != []
    requires IsCreated(fs, r, inum, CreatedName(path), k) && Lookup(fs, ROOTINO, CreatedName(path)) == None
    ensures Walk(r, ROOTINO, Path.Components(path)) == if |Path.Components(path)| == 1 then Some(inum) else None
  {
    hide Path.Components, Shape, FilesOk, FileOk, Entries;
    var cs := Path.Components(path);
    FindLinked(DirEntries(fs, ROOTINO), DirEntries(r, ROOTINO), k, Entry(inum, CreatedName(path)), 0);
    assert Lookup(r, ROOTINO, Shorten(cs[0])) == Some(inum);
    if |cs| > 1 { assert Lookup(r, inum, Shorten(cs[1])) == None by { FileIsOk(r, inum); } }
  }


  /** One component of a path. */
  lemma WalkStep(fs: Fs, ic: seq<Uinode>, i: nat, cs: seq<Name>, c: Name, rest: seq<Name>)
    requires Shape(fs) && FilesOk(fs) && i < |fs.inodes| && cs == [c] + rest
    ensures FileOk(fs, i)
    ensures var x := Lookup(fs, i, Shorten(c));
            WalkIn(fs, ic, i, cs) == if x.None? || x.value >= |fs.inodes| || !SlotFor(ic, i, x.value) then None
                                     else WalkIn(fs, ic, x.value, rest)
  {
    FileIsOk(fs, i);
    assert cs[1..] == rest && cs[0] == c;
  }

  /** What a path leads to from the root, as far as there are slots. */
  ghost function Reached(fs: Fs, ic: seq<Uinode>, path: Name): (r: Option<nat>)
    requires RootDir(fs)
    ensures r.Some? ==> r == Walk(fs, ROOTINO, Path.Components(path))
    ensures TwoSpare(ic) ==> r == Walk(fs, ROOTINO, Path.Components(path))
  {
    if Gettable(ic, ROOTINO) then WalkIn(fs, ic, ROOTINO, Path.Components(path))
    else
      assert TwoSpare(ic) ==> Gettable(ic, ROOTINO);
      None
  }

  // ---------------------------------------------------------------- when the root is the only directory

  /** The root is the only directory. */
  ghost predicate OnlyRoot(fs: Fs) {
    forall i {:trigger fs.inodes[i]} :: 0 <= i < |fs.inodes| && fs.inodes[i].kind == T_DIR ==> i == ROOTINO
  }

  /** ... and there is a slot for it: namei will not fault. */
  ghost predicate Safe(fs: Fs, ic: seq<Uinode>) {
    OnlyRoot(fs) && Gettable(ic, ROOTINO)
  }

  lemma SafeSame(fs: Fs, ic: seq<Uinode>, ic': seq<Uinode>)
    requires SameRefs(ic, ic')
    ensures Safe(fs, ic) ==> Safe(fs, ic')
  {
    hide OnlyRoot;
    if Gettable(ic, ROOTINO) {
      var v :| 0 <= v < |ic| && (ic[v].ref <= 0 || ic[v].inum == ROOTINO);
      assert ic'[v].ref <= 0 || ic'[v].inum == ROOTINO;
    }
  }

  lemma SafeTaken(fs: Fs, r: Fs, ic: seq<Uinode>, inum: nat)
    requires r == fs || Taken(fs, r, inum, NewFile(0))
    ensures Safe(fs, ic) ==> Safe(r, ic)
  {
    hide Gettable, SameBlocks;
  }

  lemma SafeFewer(fs: Fs, r: Fs, ic: seq<Uinode>, ic': seq<Uinode>)
    requires SameContents(fs, r) && |ic'| == |ic|
    requires forall u {:trigger ic'[u]} :: 0 <= u < |ic| ==> Fewer(ic[u], ic'[u])
    ensures Safe(fs, ic) ==> Safe(r, ic')
  {
    hide Contents, FileOk, Shape;
    if Safe(fs, ic) {
      var v :| 0 <= v < |ic| && (ic[v].ref <= 0 || ic[v].inum == ROOTINO);
      assert Fewer(ic[v], ic'[v]);
      forall i: nat | i < |r.inodes| && r.inodes[i].kind == T_DIR ensures i == ROOTINO {
        assert SameAt(fs, r, i);
      }
    }
  }

  lemma NoWalk(fs: Fs, ic: seq<Uinode>, i: nat, cs: seq<Name>)
    requires Shape(fs) && FilesOk(fs) && i < |fs.inodes| && fs.inodes[i].kind != T_DIR
    ensures cs != [] ==> WalkIn(fs, ic, i, cs).None?
  {
    FileIsOk(fs, i);
  }

  /** Where a path leads to when the root is the only directory. */
  lemma {:induction false} WalkFromRoot(fs: Fs, ic: seq<Uinode>, cs: seq<Name>)
    requires RootDir(fs) && OnlyRoot(fs) && WalkIn(fs, ic, ROOTINO, cs).Some?
    ensures SlotFor(ic, ROOTINO, WalkIn(fs, ic, ROOTINO, cs).value)
    decreases |cs|
  {
    hide Live, TwoSpare, Spare, Find;
    if cs != [] {
      FileIsOk(fs, ROOTINO);
      var x := Lookup(fs, ROOTINO, Shorten(cs[0])).value;
      if x == ROOTINO {
        WalkFromRoot(fs, ic, cs[1..]);
      } else {
        NoWalk(fs, ic, x, cs[1..]);
      }
    }
  }

  lemma SafeFound(fs: Fs, ic: seq<Uinode>, ic': seq<Uinode>, u: nat, path: Name)
    requires RootDir(fs) && PlusOne(ic, ic', u) && DistinctInums(ic') && Reached(fs, ic, path) == Some(ic'[u].inum)
    ensures Safe(fs, ic) ==> Safe(fs, ic')
  {
    hide OnlyRoot, PlusOne, DistinctInums, WalkIn, SlotFor, Path.Components;
    if Safe(fs, ic) {
      WalkFromRoot(fs, ic, Path.Components(path));
      RootStays(ic, ic', u);
    }
  }

  lemma OnlyRootNew(fs: Fs, r: Fs, inum: nat, name: Name, k: nat)
    requires IsCreated(fs, r, inum, name, k) && OnlyRoot(fs)
    ensures OnlyRoot(r)
  {
    hide LinkedTo, Entries, Contents, FileOk, Shape;
    forall i: nat | i < |r.inodes| && i != inum && i != ROOTINO ensures r.inodes[i].kind == fs.inodes[i].kind {
      assert SameAt(fs, r, i);
    }
  }

  // ---------------------------------------------------------------- contents

  lemma SameContentsTrans(fs: Fs, q: Fs, r: Fs)
    requires SameContents(fs, q) && SameContents(q, r)
    ensures SameContents(fs, r)
  {
    hide Contents, FileOk, Shape;
    forall i: nat | i < |fs.inodes| ensures SameAt(fs, r, i) { assert SameAt(fs, q, i) && SameAt(q, r, i); }
  }

  /** How much of n bytes one message carries. */
  function Chunk(n: nat): (m: nat)
    ensures m <= n && m <= IPC_DATA_SIZE && (n <= IPC_DATA_SIZE ==> m == n)
  {
    if n > IPC_DATA_SIZE then IPC_DATA_SIZE else n
  }

  lemma SliceClamp<T>(s: seq<T>, off: nat, n: nat)
    requires off <= |s|
    ensures off >= |s| ==> Slice(s, off, n) == []
    ensures off < |s| && n > |s| - off ==> Slice(s, off, |s| - off) == Slice(s, off, n)
    ensures |Slice(s, off, n)| <= n && off + |Slice(s, off, n)| <= |s|
  {
  }

  lemma SpliceSize<T>(s: seq<T>, off: nat, d: seq<T>)
    requires off <= |s|
    ensures |Splice(s, off, d)| == Max(|s|, off + |d|)
  {
  }

  /** The bytes of a file after a write of d at off: all of d is in place, or the first `done` bytes of it as far as
      the file's length allows. */
  ghost function NewBytes(s: seq<byte>, off: nat, d: seq<byte>, result: int, done: nat): (r: seq<byte>)
    requires off <= |s|
    ensures |r| == if result == -1 then |s| else Max(|s|, off + |d|)
  {
    if result == -1 then Splice(s, off, if done <= |d| then d[..done] else d)[..|s|] else Splice(s, off, d)
  }
}
