/** Directories and paths as the file server reads them, on values: names of fewer than DIRSIZ bytes, first entry
    wins, and every path starts at the root. */
module ServerNames {
  import opened Prelude
  import opened Blocks
  import opened BlockMap
  import opened FileSystem
  import opened Directory
  import opened ServerStore

  /** A path component as the server copies it out: at most DIRSIZ - 1 bytes. */
  function Shorten(c: Name): (r: Name)
    ensures r <= c && |r| == (if |c| < 14 then |c| else 13)
  {
    if |c| >= DIRSIZ then c[..DIRSIZ - 1] else c
  }

  /** The inode number of the first live entry with the name, from entry k on. */
  ghost function Find(es: seq<Entry>, name: Name, k: nat): (r: Option<nat>)
    requires k <= |es|
    decreases |es| - k
  {
    if k == |es| then None
    else if es[k].inum != 0 && es[k].name == name then Some(es[k].inum)
    else Find(es, name, k + 1)
  }

  /** Without duplicate names, that is the entry that the directory maps the name to. */
  lemma {:induction false} FindIsMap(es: seq<Entry>, name: Name, k: nat)
    requires NoDuplicates(es) && k <= |es|
    requires forall j {:trigger es[j]} :: 0 <= j < k ==> es[j].inum == 0 || es[j].name != name
    ensures Find(es, name, k) == if name in AsMap(es) then Some(AsMap(es)[name]) else None
    decreases |es| - k
  {
    if k == |es| {
      MapOnly(es, name);
    } else if es[k].inum != 0 && es[k].name == name {
      MapHas(es, k);
    } else {
      FindIsMap(es, name, k + 1);
    }
  }

  // ---------------------------------------------------------------- directories of a file system

  ghost function DirEntries(fs: Fs, i: nat): (es: seq<Entry>)
    requires Shape(fs) && i < |fs.inodes| && FileOk(fs, i)
  {
    Entries(Contents(fs, i))
  }

  /** The entries of a directory are whole, and live ones are for inodes in use. */
  ghost predicate DirOk(fs: Fs, i: nat)
    requires Shape(fs) && i < |fs.inodes|
  {
    FileOk(fs, i) && fs.inodes[i].kind == T_DIR ==>
      && fs.inodes[i].size % DIRENT == 0
      && (forall k {:trigger DirEntries(fs, i)[k]} :: 0 <= k < |DirEntries(fs, i)| ==>
           EntryOk(fs, DirEntries(fs, i)[k]))
  }

  ghost predicate EntryOk(fs: Fs, e: Entry) {
    e.inum != 0 ==> e.inum < |fs.inodes| && fs.inodes[e.inum].kind != 0
  }

  ghost predicate DirsOk(fs: Fs)
    requires Shape(fs)
  {
    && ROOTINO < |fs.inodes| && fs.inodes[ROOTINO].kind == T_DIR
    && (forall i: nat {:trigger DirOk(fs, i)} :: i < |fs.inodes| ==> DirOk(fs, i))
  }

  /** What dirlookup looks for. */
  ghost function Lookup(fs: Fs, i: nat, name: Name): (r: Option<nat>)
    requires Shape(fs) && i < |fs.inodes| && FileOk(fs, i)
  {
    if fs.inodes[i].kind != T_DIR then None else Find(DirEntries(fs, i), name, 0)
  }

  /** The fold of lookup over the components of a path. */
  ghost function Walk(fs: Fs, i: nat, cs: seq<Name>): (r: Option<nat>)
    requires Shape(fs) && FilesOk(fs) && i < |fs.inodes|
    decreases |cs|
  {
    if cs == [] then Some(i)
    else
      FileIsOk(fs, i);
      var x := Lookup(fs, i, Shorten(cs[0]));
      if x.None? || x.value >= |fs.inodes| then None else Walk(fs, x.value, cs[1..])
  }

  // ---------------------------------------------------------------- what keeps them

  /** Directories that kept their contents stay sound if no inode in use was freed. */
  lemma DirsKept(fs: Fs, r: Fs)
    requires Shape(fs) && Shape(r) && |r.inodes| == |fs.inodes| && DirsOk(fs)
    requires forall i {:trigger r.inodes[i]} :: 0 <= i < |fs.inodes| && fs.inodes[i].kind != 0 ==> r.inodes[i].kind != 0
    requires r.inodes[ROOTINO].kind == T_DIR
    requires forall i: nat {:trigger FileOk(r, i)} :: i < |fs.inodes| && r.inodes[i].kind == T_DIR ==>
               fs.inodes[i].kind == T_DIR && FileOk(fs, i) && FileOk(r, i) && Contents(r, i) == Contents(fs, i)
    ensures DirsOk(r)
  {
    hide Contents, Entries, FileOk;
    forall i: nat | i < |r.inodes| ensures DirOk(r, i) {
      assert DirOk(fs, i);
      if FileOk(r, i) && r.inodes[i].kind == T_DIR {
        assert DirEntries(r, i) == DirEntries(fs, i);
        SizeOf(fs, i);
        SizeOf(r, i);
        forall k | 0 <= k < |DirEntries(r, i)| ensures EntryOk(r, DirEntries(r, i)[k]) {
          assert EntryOk(fs, DirEntries(fs, i)[k]);
        }
      }
    }
  }

  lemma SizeOf(fs: Fs, i: nat)
    requires Shape(fs) && i < |fs.inodes| && FileOk(fs, i)
    ensures |Contents(fs, i)| == fs.inodes[i].size
  {
  }

  lemma SameDirs(fs: Fs, r: Fs)
    requires SameContents(fs, r) && DirsOk(fs)
    ensures DirsOk(r)
  {
    hide Contents, FileOk;
    forall i: nat | i < |fs.inodes|
      ensures r.inodes[i].kind == fs.inodes[i].kind
      ensures FileOk(r, i) && FileOk(fs, i) && Contents(r, i) == Contents(fs, i)
    {
      assert SameAt(fs, r, i);
    }
    DirsKept(fs, r);
  }

  lemma {:induction false} SameWalk(fs: Fs, r: Fs, i: nat, cs: seq<Name>)
    requires SameContents(fs, r) && FilesOk(fs) && FilesOk(r) && i < |fs.inodes|
    ensures Walk(r, i, cs) == Walk(fs, i, cs)
    decreases |cs|
  {
    hide Contents, FileOk, Entries;
    if cs != [] {
      FileIsOk(fs, i);
      FileIsOk(r, i);
      assert SameAt(fs, r, i);
      var x := Lookup(fs, i, Shorten(cs[0]));
      if x.Some? && x.value < |fs.inodes| { SameWalk(fs, r, x.value, cs[1..]); }
    }
  }

  /** ialloc gives a free inode a type. */
  lemma DirsAfterIalloc(fs: Fs, r: Fs, i: nat, ino: Inode)
    requires SameBlocks(fs, r) && FilesOk(fs) && FilesOk(r) && DirsOk(fs) && i < |fs.inodes|
    requires fs.inodes[i].kind == 0 && ino.kind != 0 && ino.kind != T_DIR && r.inodes == fs.inodes[i := ino]
    ensures DirsOk(r)
  {
    forall k: nat | k < |fs.inodes| && r.inodes[k].kind == T_DIR
      ensures fs.inodes[k].kind == T_DIR && FileOk(fs, k) && FileOk(r, k) && Contents(r, k) == Contents(fs, k)
    {
      FileIsOk(fs, k);
      FileIsOk(r, k);
      SameBlocksBytes(fs, r, k, fs.inodes[k].size);
    }
    hide Contents, FileOk, FilesOk, SameBlocks;
    DirsKept(fs, r);
  }

  /** An inode changes but for its type, size and addresses. */
  lemma SameAfterUpdate(fs: Fs, r: Fs, i: nat, ino: Inode)
    requires SameBlocks(fs, r) && FilesOk(fs) && FilesOk(r) && i < |fs.inodes| && r.inodes == fs.inodes[i := ino]
    requires ino == fs.inodes[i].(nlink := ino.nlink)
    ensures forall k: nat {:trigger FileOk(r, k)} :: k < |fs.inodes| ==>
              FileOk(r, k) && FileOk(fs, k) && Contents(r, k) == Contents(fs, k)
    ensures DirsOk(fs) ==> DirsOk(r)
  {
    forall k: nat | k < |fs.inodes| ensures FileOk(r, k) && FileOk(fs, k) && Contents(r, k) == Contents(fs, k) {
      FileIsOk(fs, k);
      FileIsOk(r, k);
      SameBlocksBytes(fs, r, k, fs.inodes[k].size);
    }
    hide Contents, FileOk, FilesOk, SameBlocks;
    if DirsOk(fs) { DirsKept(fs, r); }
  }

  /** The bytes b are whole entries, and live ones are for inodes in use. */
  ghost predicate DirBytes(fs: Fs, b: seq<byte>) {
    |b| % DIRENT == 0 && forall k {:trigger Entries(b)[k]} :: 0 <= k < |Entries(b)| ==> EntryOk(fs, Entries(b)[k])
  }

  /** After a write to file i the directories are sound exactly if i is not one, or has sound bytes. */
  lemma DirsAfterWrite(fs: Fs, r: Fs, i: nat)
    requires OtherFiles(fs, r, i) && FilesOk(fs) && FilesOk(r) && DirsOk(fs) && i < |fs.inodes|
    requires r.inodes[i].kind == fs.inodes[i].kind && FileOk(r, i)
    ensures DirsOk(r) <==> (fs.inodes[i].kind == T_DIR ==> DirBytes(fs, Contents(r, i)))
  {
    hide FileBlock, Entries, Contents, DirOk, DirBytes;
    forall x: nat | x < |fs.inodes| && x != i ensures DirOk(r, x) { OtherDir(fs, r, i, x); }
    ThisDir(fs, r, i);
    assert r.inodes[ROOTINO].kind == fs.inodes[ROOTINO].kind;
  }

  lemma OtherDir(fs: Fs, r: Fs, i: nat, x: nat)
    requires OtherFiles(fs, r, i) && FilesOk(fs) && FilesOk(r) && DirsOk(fs) && i < |fs.inodes|
    requires r.inodes[i].kind == fs.inodes[i].kind && x < |fs.inodes| && x != i
    ensures DirOk(r, x)
  {
    hide FileBlock, Entries, Contents;
    FileIsOk(fs, x);
    FileIsOk(r, x);
    assert DirOk(fs, x);
    OtherContents(fs, r, i, x);
    if r.inodes[x].kind == T_DIR {
      forall j | 0 <= j < |DirEntries(r, x)| ensures EntryOk(r, DirEntries(r, x)[j]) {
        assert EntryOk(fs, DirEntries(fs, x)[j]);
        SameKinds(fs, r, i, DirEntries(r, x)[j]);
      }
    }
  }

  lemma ThisDir(fs: Fs, r: Fs, i: nat)
    requires OtherFiles(fs, r, i) && i < |fs.inodes| && r.inodes[i].kind == fs.inodes[i].kind && FileOk(r, i)
    ensures DirOk(r, i) <==> (fs.inodes[i].kind == T_DIR ==> DirBytes(fs, Contents(r, i)))
  {
    hide FileBlock, Entries, Contents, SameOthers, EntryOk;
    var es := DirEntries(r, i);
    assert es == Entries(Contents(r, i)) && |Contents(r, i)| == r.inodes[i].size;
    forall j | 0 <= j < |es| ensures EntryOk(r, es[j]) <==> EntryOk(fs, es[j]) { SameKinds(fs, r, i, es[j]); }
    if DirOk(r, i) && fs.inodes[i].kind == T_DIR {
      forall j | 0 <= j < |es| ensures EntryOk(fs, es[j]) { assert EntryOk(r, DirEntries(r, i)[j]); }
    }
  }

  /** A write of one entry to directory i. */
  lemma DirsAfterLink(fs: Fs, r: Fs, i: nat, k: nat, e: Entry)
    requires OtherFiles(fs, r, i) && FilesOk(fs) && FilesOk(r) && DirsOk(fs) && i < |fs.inodes|
    requires r.inodes[i].kind == fs.inodes[i].kind == T_DIR && r.inodes[i].size % DIRENT == 0
    requires FileOk(fs, i) && FileOk(r, i) && k <= |DirEntries(fs, i)| && EntryOk(fs, e)
    requires DirEntries(r, i) == var es := DirEntries(fs, i); if k < |es| then es[k := e] else es + [e]
    ensures DirsOk(r)
  {
    hide FileBlock, Entries, Contents, SameOthers, EntryOk, FileOk, FilesOk;
    DirsAfterWrite(fs, r, i);
    assert DirOk(fs, i);
  }

  lemma SameKinds(fs: Fs, r: Fs, i: nat, e: Entry)
    requires OtherFiles(fs, r, i) && i < |fs.inodes| && r.inodes[i].kind == fs.inodes[i].kind
    ensures EntryOk(fs, e) <==> EntryOk(r, e)
  {
    if e.inum < |fs.inodes| { assert r.inodes[e.inum] == r.inodes[e.inum]; }
  }
}
