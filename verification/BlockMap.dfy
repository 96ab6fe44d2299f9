/** Inodes, block maps and the bitmap of fs.c as values: who owns each data block, and how
    allocating, linking, writing and freeing a block change that.

    `blocks` is the logical disk, as bread returns it inside a transaction; `inodes` are the
    in-memory inodes. */
module BlockMap {
  import opened Prelude
  import opened Blocks
  import opened Bitmap

  const NDIRECT := 12
  const NINDIRECT := 128
  const MAXFILE := 140 // NDIRECT + NINDIRECT

  /** Blocks below datastart are boot, super, log, inode and bitmap blocks. */
  datatype Super = Super(size: nat, bmapstart: nat, datastart: nat)

  datatype Inode = Inode(kind: nat, major: nat, minor: nat, nlink: nat, size: nat, addrs: seq<word>)

  datatype Fs = Fs(sb: Super, blocks: seq<Block>, inodes: seq<Inode>)

  /** Every place that can name a block: a direct slot, the indirect pointer, an indirect slot. */
  datatype Owner = Direct(i: nat, k: nat) | Indirect(i: nat) | Slot(i: nat, j: nat)

  ghost predicate SuperOk(sb: Super) {
    1 <= sb.bmapstart && 1 <= sb.size < 0x8000_0000 && sb.bmapstart + (sb.size - 1) / BPB < sb.datastart <= sb.size
  }

  ghost predicate Shape(fs: Fs) {
    && SuperOk(fs.sb) && |fs.blocks| == fs.sb.size
    && (forall i {:trigger fs.inodes[i]} :: 0 <= i < |fs.inodes| ==>
          |fs.inodes[i].addrs| == NDIRECT + 1 && fs.inodes[i].addrs[NDIRECT] < fs.sb.size)
  }

  // ---------------------------------------------------------------- the bitmap

  function BitBlock(sb: Super, b: nat): nat {
    b / BPB + sb.bmapstart
  }

  lemma BitBlockIsMeta(sb: Super, b: nat)
    requires SuperOk(sb) && b < sb.size
    ensures BitBlock(sb, b) < sb.datastart
  {
  }

  ghost predicate Used(fs: Fs, b: nat)
    requires Shape(fs) && b < fs.sb.size
  {
    BitOf(fs.blocks[BitBlock(fs.sb, b)], b % BPB)
  }

  /** The bitmap with the bit of b set. */
  ghost function Mark(fs: Fs, b: nat): (r: Fs)
    requires Shape(fs) && b < fs.sb.size
    ensures Shape(r) && r == fs.(blocks := r.blocks)
    ensures forall x: nat {:trigger r.blocks[x]} :: fs.sb.datastart <= x < fs.sb.size ==> r.blocks[x] == fs.blocks[x]
    ensures forall x: nat {:trigger Used(r, x)} :: x < fs.sb.size ==> Used(r, x) == (x == b || Used(fs, x))
  {
    BitBlockIsMeta(fs.sb, b);
    var bb := BitBlock(fs.sb, b);
    var r := fs.(blocks := fs.blocks[bb := SetBit(fs.blocks[bb], b % BPB)]);
    assert forall x: nat {:trigger Used(r, x)} :: x < fs.sb.size ==> Used(r, x) == (x == b || Used(fs, x)) by {
      forall x: nat | x < fs.sb.size ensures Used(r, x) == (x == b || Used(fs, x)) { SameBit(fs.sb, x, b); }
    }
    r
  }

  /** The bitmap with the bit of b clear. */
  ghost function Unmark(fs: Fs, b: nat): (r: Fs)
    requires Shape(fs) && b < fs.sb.size
    ensures Shape(r) && r == fs.(blocks := r.blocks)
    ensures forall x: nat {:trigger r.blocks[x]} :: fs.sb.datastart <= x < fs.sb.size ==> r.blocks[x] == fs.blocks[x]
    ensures forall x: nat {:trigger Used(r, x)} :: x < fs.sb.size ==> Used(r, x) == (x != b && Used(fs, x))
  {
    BitBlockIsMeta(fs.sb, b);
    var bb := BitBlock(fs.sb, b);
    var r := fs.(blocks := fs.blocks[bb := ResetBit(fs.blocks[bb], b % BPB)]);
    assert forall x: nat {:trigger Used(r, x)} :: x < fs.sb.size ==> Used(r, x) == (x != b && Used(fs, x)) by {
      forall x: nat | x < fs.sb.size ensures Used(r, x) == (x != b && Used(fs, x)) { SameBit(fs.sb, x, b); }
    }
    r
  }

  lemma SameBit(sb: Super, x: nat, b: nat)
    requires SuperOk(sb) && x < sb.size && b < sb.size
    ensures BitBlock(sb, x) < sb.datastart
    ensures BitBlock(sb, x) == BitBlock(sb, b) && x % BPB == b % BPB <==> x == b
  {
  }

  // ---------------------------------------------------------------- ownership

  ghost predicate IsOwner(fs: Fs, o: Owner) {
    o.i < |fs.inodes| && (o.Direct? ==> o.k < NDIRECT) && (o.Slot? ==> o.j < NINDIRECT)
  }

  /** The block that a slot names; 0 for none. */
  ghost function Ref(fs: Fs, o: Owner): (b: word)
    requires Shape(fs) && IsOwner(fs, o)
  {
    var addrs := fs.inodes[o.i].addrs;
    match o
    case Direct(_, k) => addrs[k]
    case Indirect(_) => addrs[NDIRECT]
    case Slot(_, j) => if addrs[NDIRECT] == 0 then 0 else GetWord(fs.blocks[addrs[NDIRECT]], j)
  }

  /** A data block that a slot names has its bit set, and no other slot names it: `own` says which does. */
  ghost predicate Owned(fs: Fs, own: map<nat, Owner>)
    requires Shape(fs)
  {
    && (forall b {:trigger b in own} {:trigger own[b]} :: b in own ==>
          && fs.sb.datastart <= b < fs.sb.size && Used(fs, b) && IsOwner(fs, own[b]) && Ref(fs, own[b]) == b)
    && (forall o {:trigger Ref(fs, o)} :: IsOwner(fs, o) && Ref(fs, o) != 0 ==>
          Ref(fs, o) in own && own[Ref(fs, o)] == o)
  }

  /** No block is lost: a data block with its bit set has a slot that names it. */
  ghost predicate Tight(fs: Fs, own: map<nat, Owner>)
    requires Shape(fs)
  {
    forall b: nat {:trigger Used(fs, b)} :: fs.sb.datastart <= b < fs.sb.size && Used(fs, b) ==> b in own
  }

  ghost predicate WellFormed(fs: Fs, own: map<nat, Owner>) {
    && Shape(fs) && Owned(fs, own)
    && (forall b: nat {:trigger Used(fs, b)} :: b < fs.sb.datastart ==> Used(fs, b))
  }

  /** Ownership without the witness: a used data block is named by exactly one slot, and a named block is
      a used data block. */
  lemma ExactlyOneName(fs: Fs, own: map<nat, Owner>)
    requires WellFormed(fs, own) && Tight(fs, own)
    ensures forall o :: IsOwner(fs, o) && Ref(fs, o) != 0 ==>
              fs.sb.datastart <= Ref(fs, o) < fs.sb.size && Used(fs, Ref(fs, o))
    ensures forall o, p :: IsOwner(fs, o) && IsOwner(fs, p) && Ref(fs, o) == Ref(fs, p) != 0 ==> o == p
    ensures forall b: nat :: fs.sb.datastart <= b < fs.sb.size && Used(fs, b) ==>
              exists o :: IsOwner(fs, o) && Ref(fs, o) == b
  {
    forall b: nat | fs.sb.datastart <= b < fs.sb.size && Used(fs, b)
      ensures exists o :: IsOwner(fs, o) && Ref(fs, o) == b
    {
      assert b in own;
      assert IsOwner(fs, own[b]) && Ref(fs, own[b]) == b;
    }
  }

  // ---------------------------------------------------------------- balloc and linking

  ghost function PutBlock(fs: Fs, b: nat, data: Block): (r: Fs)
    requires b < |fs.blocks|
  {
    fs.(blocks := fs.blocks[b := data])
  }

  /** balloc: mark b and zero it. */
  ghost function Alloc(fs: Fs, b: nat): (r: Fs)
    requires Shape(fs) && fs.sb.datastart <= b < fs.sb.size
    ensures Shape(r) && r == fs.(blocks := r.blocks)
    ensures forall x: nat {:trigger r.blocks[x]} :: fs.sb.datastart <= x < fs.sb.size ==>
              r.blocks[x] == if x == b then ZeroBlock() else fs.blocks[x]
    ensures forall x: nat {:trigger Used(r, x)} :: x < fs.sb.size ==> Used(r, x) == (x == b || Used(fs, x))
  {
    PutDataBlock(Mark(fs, b), b, ZeroBlock());
    PutBlock(Mark(fs, b), b, ZeroBlock())
  }

  /** Writing a data block leaves the bitmap alone. */
  lemma PutDataBlock(fs: Fs, b: nat, data: Block)
    requires Shape(fs) && fs.sb.datastart <= b < fs.sb.size
    ensures Shape(PutBlock(fs, b, data))
    ensures forall x: nat {:trigger Used(PutBlock(fs, b, data), x)} :: x < fs.sb.size ==>
              Used(PutBlock(fs, b, data), x) == Used(fs, x)
  {
    forall x: nat | x < fs.sb.size ensures Used(PutBlock(fs, b, data), x) == Used(fs, x) { BitBlockIsMeta(fs.sb, x); }
  }

  /** Store block number b in slot o. */
  ghost function SetRef(fs: Fs, o: Owner, b: nat): (r: Fs)
    requires Shape(fs) && IsOwner(fs, o) && b < fs.sb.size
    requires o.Slot? ==> IndirectBlock(fs, o.i) != 0
  {
    var ino := fs.inodes[o.i];
    match o
    case Direct(i, k) => fs.(inodes := fs.inodes[i := ino.(addrs := ino.addrs[k := b])])
    case Indirect(i) => fs.(inodes := fs.inodes[i := ino.(addrs := ino.addrs[NDIRECT := b])])
    case Slot(i, j) => PutBlock(fs, ino.addrs[NDIRECT], PutWord(fs.blocks[ino.addrs[NDIRECT]], j, b))
  }

  /** The block that holds the indirect slots of inode i. */
  ghost function IndirectBlock(fs: Fs, i: nat): (a: word)
    requires Shape(fs) && i < |fs.inodes|
  {
    fs.inodes[i].addrs[NDIRECT]
  }

  lemma IndirectBlockOwned(fs: Fs, own: map<nat, Owner>, i: nat)
    requires WellFormed(fs, own) && i < |fs.inodes| && IndirectBlock(fs, i) != 0
    ensures IndirectBlock(fs, i) in own && own[IndirectBlock(fs, i)] == Indirect(i)
    ensures fs.sb.datastart <= IndirectBlock(fs, i) < fs.sb.size
  {
    assert Ref(fs, Indirect(i)) == IndirectBlock(fs, i);
  }

  /** Allocating b for an empty place in an inode changes no other name. */
  lemma LinkRefInInode(fs: Fs, own: map<nat, Owner>, o: Owner, b: nat, p: Owner)
    requires WellFormed(fs, own) && fs.sb.datastart <= b < fs.sb.size && !Used(fs, b)
    requires IsOwner(fs, o) && Ref(fs, o) == 0 && !o.Slot? && IsOwner(fs, p)
    ensures Shape(SetRef(Alloc(fs, b), o, b)) && IsOwner(SetRef(Alloc(fs, b), o, b), p)
    ensures Ref(SetRef(Alloc(fs, b), o, b), p) == if p == o then b else Ref(fs, p)
  {
    hide Used, GetWord, Alloc;
    if p.Slot? {
      if IndirectBlock(fs, p.i) != 0 { IndirectBlockOwned(fs, own, p.i); }
      else if o == Indirect(p.i) { ZeroBlockWords(p.j); }
    }
  }

  /** Allocating b for an empty indirect slot changes no other name. */
  lemma LinkRefInSlot(fs: Fs, own: map<nat, Owner>, o: Owner, b: nat, p: Owner)
    requires WellFormed(fs, own) && fs.sb.datastart <= b < fs.sb.size && !Used(fs, b)
    requires IsOwner(fs, o) && o.Slot? && IndirectBlock(fs, o.i) != 0 && IsOwner(fs, p)
    ensures Shape(SetRef(Alloc(fs, b), o, b)) && IsOwner(SetRef(Alloc(fs, b), o, b), p)
    ensures Ref(SetRef(Alloc(fs, b), o, b), p) == if p == o then b else Ref(fs, p)
  {
    hide Used, GetWord, PutWord, Alloc;
    IndirectBlockOwned(fs, own, o.i);
    if p.Slot? && IndirectBlock(fs, p.i) != 0 { IndirectBlockOwned(fs, own, p.i); }
  }

  lemma LinkUsed(fs: Fs, own: map<nat, Owner>, o: Owner, b: nat)
    requires WellFormed(fs, own) && fs.sb.datastart <= b < fs.sb.size && !Used(fs, b)
    requires IsOwner(fs, o) && (o.Slot? ==> IndirectBlock(fs, o.i) != 0)
    ensures Shape(SetRef(Alloc(fs, b), o, b))
    ensures forall x: nat {:trigger Used(SetRef(Alloc(fs, b), o, b), x)} :: x < fs.sb.size ==>
              Used(SetRef(Alloc(fs, b), o, b), x) == (x == b || Used(fs, x))
  {
    hide GetWord, PutWord, Alloc, BitOf;
    var m, r := Alloc(fs, b), SetRef(Alloc(fs, b), o, b);
    if o.Slot? {
      var a := IndirectBlock(fs, o.i);
      IndirectBlockOwned(fs, own, o.i);
      PutDataBlock(m, a, PutWord(m.blocks[a], o.j, b));
    } else {
      forall x: nat | x < fs.sb.size ensures Used(r, x) == Used(m, x) {}
    }
  }

  /** Linking a fresh block keeps the file system well formed: the new block has one name, the new one. */
  lemma LinkKeepsWellFormed(fs: Fs, own: map<nat, Owner>, o: Owner, b: nat)
    requires WellFormed(fs, own) && fs.sb.datastart <= b < fs.sb.size && !Used(fs, b)
    requires IsOwner(fs, o) && Ref(fs, o) == 0 && (o.Slot? ==> IndirectBlock(fs, o.i) != 0)
    ensures WellFormed(SetRef(Alloc(fs, b), o, b), own[b := o])
    ensures Tight(fs, own) ==> Tight(SetRef(Alloc(fs, b), o, b), own[b := o])
  {
    LinkUsed(fs, own, o, b);
    forall p | IsOwner(fs, p) ensures Ref(SetRef(Alloc(fs, b), o, b), p) == if p == o then b else Ref(fs, p) {
      if o.Slot? { LinkRefInSlot(fs, own, o, b, p); } else { LinkRefInInode(fs, own, o, b, p); }
    }
    OwnedAfterLink(fs, own, SetRef(Alloc(fs, b), o, b), o, b);
  }

  /** If only slot o changed, from 0 to the fresh block b, ownership is as before plus b. */
  lemma OwnedAfterLink(fs: Fs, own: map<nat, Owner>, r: Fs, o: Owner, b: nat)
    requires WellFormed(fs, own) && fs.sb.datastart <= b < fs.sb.size && !Used(fs, b)
    requires IsOwner(fs, o) && Ref(fs, o) == 0
    requires Shape(r) && r.sb == fs.sb && |r.inodes| == |fs.inodes|
    requires forall x: nat {:trigger Used(r, x)} :: x < fs.sb.size ==> Used(r, x) == (x == b || Used(fs, x))
    requires forall p {:trigger Ref(r, p)} :: IsOwner(fs, p) ==> Ref(r, p) == if p == o then b else Ref(fs, p)
    ensures WellFormed(r, own[b := o]) && (Tight(fs, own) ==> Tight(r, own[b := o]))
  {
    hide Ref, Used;
    var own' := own[b := o];
    forall x | x in own'
      ensures fs.sb.datastart <= x < fs.sb.size && Used(r, x) && IsOwner(r, own'[x]) && Ref(r, own'[x]) == x
    {
      if x != b { assert own'[x] == own[x] && own[x] != o; }
    }
    forall p | IsOwner(fs, p) && Ref(r, p) != 0 ensures Ref(r, p) in own' && own'[Ref(r, p)] == p {
      if p != o { assert Ref(fs, p) in own && Ref(fs, p) != b; }
    }
  }

  // ---------------------------------------------------------------- files

  /** The slot for block bn of file i. */
  function NameOf(i: nat, bn: nat): (o: Owner) {
    if bn < NDIRECT then Direct(i, bn) else Slot(i, bn - NDIRECT)
  }

  ghost function Addr(fs: Fs, i: nat, bn: nat): (b: word)
    requires Shape(fs) && i < |fs.inodes| && bn < MAXFILE
  {
    Ref(fs, NameOf(i, bn))
  }

  lemma AddrOwned(fs: Fs, own: map<nat, Owner>, i: nat, bn: nat)
    requires WellFormed(fs, own) && i < |fs.inodes| && bn < MAXFILE && Addr(fs, i, bn) != 0
    ensures fs.sb.datastart <= Addr(fs, i, bn) < fs.sb.size
    ensures Addr(fs, i, bn) in own && own[Addr(fs, i, bn)] == NameOf(i, bn)
  {
    hide Used;
    assert IsOwner(fs, NameOf(i, bn));
  }

  /** The bytes of block bn of file i, if the file has one. */
  ghost function FileBlock(fs: Fs, i: nat, bn: nat): (d: Option<Block>)
    requires Shape(fs) && i < |fs.inodes| && bn < MAXFILE
  {
    if 0 < Addr(fs, i, bn) < fs.sb.size then Some(fs.blocks[Addr(fs, i, bn)]) else None
  }

  // Writing a data block that belongs to a file.

  lemma WriteRef(fs: Fs, own: map<nat, Owner>, i: nat, bn: nat, data: Block, p: Owner)
    requires WellFormed(fs, own) && i < |fs.inodes| && bn < MAXFILE && Addr(fs, i, bn) != 0 && IsOwner(fs, p)
    ensures Addr(fs, i, bn) < |fs.blocks|
    ensures var r := PutBlock(fs, Addr(fs, i, bn), data); Shape(r) && Ref(r, p) == Ref(fs, p)
  {
    hide Used, GetWord;
    AddrOwned(fs, own, i, bn);
    if p.Slot? && IndirectBlock(fs, p.i) != 0 { IndirectBlockOwned(fs, own, p.i); }
  }

  /** If no name and no bit changed, neither did ownership. */
  lemma OwnedUnchanged(fs: Fs, own: map<nat, Owner>, r: Fs)
    requires WellFormed(fs, own) && Shape(r) && r.sb == fs.sb && |r.inodes| == |fs.inodes|
    requires forall x: nat {:trigger Used(r, x)} :: x < fs.sb.size ==> Used(r, x) == Used(fs, x)
    requires forall p {:trigger Ref(r, p)} :: IsOwner(fs, p) ==> Ref(r, p) == Ref(fs, p)
    ensures WellFormed(r, own) && (Tight(fs, own) ==> Tight(r, own))
  {
    hide Ref, Used;
    forall x | x in own
      ensures fs.sb.datastart <= x < fs.sb.size && Used(r, x) && IsOwner(r, own[x]) && Ref(r, own[x]) == x {}
  }

  lemma WriteKeepsWellFormed(fs: Fs, own: map<nat, Owner>, i: nat, bn: nat, data: Block)
    requires WellFormed(fs, own) && i < |fs.inodes| && bn < MAXFILE && Addr(fs, i, bn) != 0
    ensures Addr(fs, i, bn) < |fs.blocks| && WellFormed(PutBlock(fs, Addr(fs, i, bn), data), own)
    ensures Tight(fs, own) ==> Tight(PutBlock(fs, Addr(fs, i, bn), data), own)
  {
    hide Ref, Used;
    AddrOwned(fs, own, i, bn);
    var r := PutBlock(fs, Addr(fs, i, bn), data);
    PutDataBlock(fs, Addr(fs, i, bn), data);
    forall p | IsOwner(fs, p) ensures Ref(r, p) == Ref(fs, p) { WriteRef(fs, own, i, bn, data, p); }
    OwnedUnchanged(fs, own, r);
  }

  /** Writing block bn of file i changes that block of that file, and no other block of any file. */
  lemma WriteFileBlock(fs: Fs, own: map<nat, Owner>, i: nat, bn: nat, data: Block, i': nat, bn': nat)
    requires WellFormed(fs, own) && i < |fs.inodes| && bn < MAXFILE && Addr(fs, i, bn) != 0
    requires i' < |fs.inodes| && bn' < MAXFILE
    ensures Addr(fs, i, bn) < |fs.blocks| && Shape(PutBlock(fs, Addr(fs, i, bn), data))
    ensures FileBlock(PutBlock(fs, Addr(fs, i, bn), data), i', bn') ==
            if i' == i && bn' == bn then Some(data) else FileBlock(fs, i', bn')
  {
    hide Ref, Used, Owned;
    WriteRef(fs, own, i, bn, data, NameOf(i', bn'));
    AddrOwned(fs, own, i, bn);
    if Addr(fs, i', bn') != 0 {
      AddrOwned(fs, own, i', bn');
      assert NameOf(i', bn') == NameOf(i, bn) <==> i' == i && bn' == bn;
    }
  }

  // Linking a fresh block.

  lemma NotOwned(fs: Fs, own: map<nat, Owner>, b: nat)
    requires WellFormed(fs, own) && b < fs.sb.size && !Used(fs, b)
    ensures b !in own
  {
  }

  /** Linking gives slot o a zeroed block, and changes no other block of any file. */
  lemma LinkFileBlock(fs: Fs, own: map<nat, Owner>, o: Owner, b: nat, i': nat, bn': nat)
    requires WellFormed(fs, own) && fs.sb.datastart <= b < fs.sb.size && !Used(fs, b)
    requires IsOwner(fs, o) && Ref(fs, o) == 0 && (o.Slot? ==> IndirectBlock(fs, o.i) != 0)
    requires i' < |fs.inodes| && bn' < MAXFILE
    ensures Shape(SetRef(Alloc(fs, b), o, b)) && |SetRef(Alloc(fs, b), o, b).inodes| == |fs.inodes|
    ensures FileBlock(SetRef(Alloc(fs, b), o, b), i', bn') ==
            if o == NameOf(i', bn') then Some(ZeroBlock()) else FileBlock(fs, i', bn')
  {
    hide Used, Owned, GetWord, Alloc, Ref;
    var p := NameOf(i', bn');
    if o.Slot? {
      LinkRefInSlot(fs, own, o, b, p);
      IndirectBlockOwned(fs, own, o.i);
    } else {
      LinkRefInInode(fs, own, o, b, p);
    }
    NotOwned(fs, own, b);
    if Addr(fs, i', bn') != 0 { AddrOwned(fs, own, i', bn'); }
  }

  // ---------------------------------------------------------------- truncation

  /** The order in which itrunc frees the blocks of an inode. */
  function Rank(o: Owner): (m: nat) {
    match o
    case Direct(_, k) => k
    case Slot(_, j) => NDIRECT + j
    case Indirect(_) => MAXFILE
  }

  /** r is fs with the blocks of rank below m of inode i no longer marked. */
  ghost predicate Freed(fs: Fs, own: map<nat, Owner>, r: Fs, i: nat, m: nat)
    requires Shape(fs)
  {
    && Shape(r) && r.sb == fs.sb
    && (forall x: nat {:trigger r.blocks[x]} :: fs.sb.datastart <= x < fs.sb.size ==> r.blocks[x] == fs.blocks[x])
    && (forall x: nat {:trigger Used(r, x)} :: x < fs.sb.size ==>
          (Used(r, x) <==> Used(fs, x) && !(x in own && own[x].i == i && Rank(own[x]) < m)))
  }

  /** The block that slot o names is still marked when its turn comes, and freeing it moves one rank on. */
  lemma FreeOne(fs: Fs, own: map<nat, Owner>, r: Fs, o: Owner)
    requires WellFormed(fs, own) && IsOwner(fs, o) && Freed(fs, own, r, o.i, Rank(o)) && Ref(fs, o) != 0
    ensures fs.sb.datastart <= Ref(fs, o) < fs.sb.size && Used(r, Ref(fs, o))
    ensures Freed(fs, own, Unmark(r, Ref(fs, o)), o.i, Rank(o) + 1)
  {
    hide Ref, Used, Unmark;
    var b := Ref(fs, o);
    var r' := Unmark(r, b);
    assert b in own && own[b] == o;
    forall x: nat | x < fs.sb.size
      ensures Used(r', x) <==> Used(fs, x) && !(x in own && own[x].i == o.i && Rank(own[x]) < Rank(o) + 1)
    {
      if x in own && own[x].i == o.i && Rank(own[x]) == Rank(o) {
        assert IsOwner(fs, own[x]) && own[x] == o && Ref(fs, own[x]) == x;
      }
    }
  }

  /** An empty slot: nothing of that rank to free. */
  lemma FreeNone(fs: Fs, own: map<nat, Owner>, r: Fs, o: Owner)
    requires WellFormed(fs, own) && IsOwner(fs, o) && Freed(fs, own, r, o.i, Rank(o)) && Ref(fs, o) == 0
    ensures Freed(fs, own, r, o.i, Rank(o) + 1)
  {
    hide Ref, Used;
    forall x: nat | x < fs.sb.size
      ensures Used(r, x) <==> Used(fs, x) && !(x in own && own[x].i == o.i && Rank(own[x]) < Rank(o) + 1)
    {
      assert x in own ==> IsOwner(fs, own[x]) && Ref(fs, own[x]) == x;
    }
  }

  /** Ownership without the blocks of inode i. */
  ghost function Without(own: map<nat, Owner>, i: nat): (r: map<nat, Owner>) {
    map x | x in own && own[x].i != i :: own[x]
  }

  /** r is fs with inode i emptied and exactly its blocks unmarked. */
  ghost predicate Truncated(fs: Fs, own: map<nat, Owner>, r: Fs, i: nat)
    requires Shape(fs)
  {
    && Freed(fs, own, r, i, MAXFILE + 1) && |r.inodes| == |fs.inodes| && i < |fs.inodes|
    && (forall i' {:trigger r.inodes[i']} :: 0 <= i' < |fs.inodes| && i' != i ==> r.inodes[i'] == fs.inodes[i'])
    && (forall k {:trigger r.inodes[i].addrs[k]} :: 0 <= k <= NDIRECT ==> r.inodes[i].addrs[k] == 0)
  }

  lemma TruncRef(fs: Fs, own: map<nat, Owner>, r: Fs, i: nat, p: Owner)
    requires WellFormed(fs, own) && Truncated(fs, own, r, i) && IsOwner(fs, p)
    ensures Ref(r, p) == if p.i == i then 0 else Ref(fs, p)
  {
    hide Used, GetWord;
    if p.Slot? && IndirectBlock(fs, p.i) != 0 { IndirectBlockOwned(fs, own, p.i); }
  }

  lemma TruncKeepsWellFormed(fs: Fs, own: map<nat, Owner>, r: Fs, i: nat)
    requires WellFormed(fs, own) && Truncated(fs, own, r, i)
    ensures WellFormed(r, Without(own, i)) && (Tight(fs, own) ==> Tight(r, Without(own, i)))
  {
    hide Used, Ref;
    forall p | IsOwner(fs, p) ensures Ref(r, p) == if p.i == i then 0 else Ref(fs, p) { TruncRef(fs, own, r, i, p); }
    forall x | x in own
      ensures IsOwner(fs, own[x]) && Rank(own[x]) <= MAXFILE && Ref(fs, own[x]) == x
      ensures fs.sb.datastart <= x < fs.sb.size {}
  }

  /** Truncation takes every block of file i and no block of another file. */
  lemma TruncFileBlock(fs: Fs, own: map<nat, Owner>, r: Fs, i: nat, i': nat, bn: nat)
    requires WellFormed(fs, own) && Truncated(fs, own, r, i) && i' < |fs.inodes| && bn < MAXFILE
    ensures FileBlock(r, i', bn) == if i' == i then None else FileBlock(fs, i', bn)
  {
    hide Used, Ref, Owned;
    TruncRef(fs, own, r, i, NameOf(i', bn));
    if Addr(fs, i', bn) != 0 { AddrOwned(fs, own, i', bn); }
  }
}
