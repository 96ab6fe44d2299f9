/** kalloc.c and the address-space operations of vm.c over physical memory: every table entry and every
    free-list link is a word of some page. None (or Panic) stands for a kernel panic. */
module Vm {
  import opened Prelude
  import opened PageTree
  import opened PageCost

  const JUNK := 0x0101_0101_0101_0101 // a word of memset(v, 1, PGSIZE)
  const USERTOP := 0x8000_0000_0000    // 2^47
  const VPNS := 0x8_0000_0000          // pages below USERTOP

  // ---------------------------------------------------------------- the free list

  /** The kernel address of a frame. */
  function Kva(f: nat): (v: nat) {
    KERNBASE + f * PGSIZE
  }

  function FrameAt(v: nat): (f: nat)
    requires v >= KERNBASE
  {
    (v - KERNBASE) / PGSIZE
  }

  ghost function LinkTo(free: seq<nat>, k: nat): (v: nat) {
    if k < |free| then Kva(free[k]) else 0
  }

  ghost predicate FreeAt(mem: seq<Page>, lo: nat, free: seq<nat>, k: nat)
    requires k < |free|
  {
    lo <= free[k] < |mem| && mem[free[k]][0] == LinkTo(free, k + 1)
  }

  ghost predicate Distinct(free: seq<nat>) {
    forall i, j {:trigger free[i], free[j]} :: 0 <= i < j < |free| ==> free[i] != free[j]
  }

  /** The free pages, linked through their first words from `head`. */
  ghost predicate FreeList(mem: seq<Page>, lo: nat, head: nat, free: seq<nat>) {
    && head == LinkTo(free, 0) && Distinct(free)
    && (forall k {:trigger FreeAt(mem, lo, free, k)} :: 0 <= k < |free| ==> FreeAt(mem, lo, free, k))
  }

  lemma PopFree(mem: seq<Page>, lo: nat, head: nat, free: seq<nat>)
    requires FreeList(mem, lo, head, free) && |free| > 0
    ensures lo <= free[0] < |mem| && head == Kva(free[0]) && FrameAt(head) == free[0]
    ensures FreeList(mem, lo, mem[free[0]][0], free[1..]) && free[0] !in free[1..]
  {
    assert FreeAt(mem, lo, free, 0);
    forall k | 0 <= k < |free| - 1 ensures FreeAt(mem, lo, free[1..], k) { assert FreeAt(mem, lo, free, k + 1); }
  }

  lemma PushFree(mem: seq<Page>, lo: nat, head: nat, free: seq<nat>, f: nat, page: Page)
    requires FreeList(mem, lo, head, free) && f !in free && lo <= f < |mem| && page[0] == head
    ensures FreeList(mem[f := page], lo, Kva(f), [f] + free)
  {
    var mem', free' := mem[f := page], [f] + free;
    forall k | 0 <= k < |free'| ensures FreeAt(mem', lo, free', k) {
      if k > 0 { assert FreeAt(mem, lo, free, k - 1); }
    }
  }

  lemma PokeFree(mem: seq<Page>, mem': seq<Page>, lo: nat, head: nat, free: seq<nat>)
    requires FreeList(mem, lo, head, free) && |mem'| == |mem|
    requires forall f {:trigger mem'[f]} :: 0 <= f < |mem| && f in free ==> mem'[f] == mem[f]
    ensures FreeList(mem', lo, head, free)
  {
    forall k | 0 <= k < |free| ensures FreeAt(mem', lo, free, k) { assert FreeAt(mem, lo, free, k); }
  }

  // ---------------------------------------------------------------- conservation

  ghost function Elems(free: seq<nat>): set<nat> {
    set f | f in free
  }

  ghost function Frames(at: map<Node, nat>): set<nat> {
    set n | n in at :: at[n]
  }

  /** Every page that the free list and the address spaces have between them. */
  ghost function Pool(p: Phys): (r: set<nat>) {
    Elems(p.free) + Frames(p.at)
  }

  lemma FramesAdd(at: map<Node, nat>, n: Node, f: nat)
    requires n !in at
    ensures Frames(at[n := f]) == Frames(at) + {f}
  {
    forall x | x in Frames(at) + {f} ensures x in Frames(at[n := f]) {
      if x in Frames(at) {
        var m :| m in at && at[m] == x;
        assert m in at[n := f] && at[n := f][m] == x;
      } else {
        assert n in at[n := f];
      }
    }
  }

  lemma FramesDrop(at: map<Node, nat>, n: Node)
    requires n in at && forall m :: m in at && at[m] == at[n] ==> m == n
    ensures Frames(at - {n}) == Frames(at) - {at[n]}
  {
    forall x | x in Frames(at) - {at[n]} ensures x in Frames(at - {n}) {
      var m :| m in at && at[m] == x;
      assert m in at - {n};
    }
  }

  lemma ElemsPush(free: seq<nat>, f: nat)
    ensures Elems([f] + free) == Elems(free) + {f}
  {
  }

  /** What a walk can come to. */
  datatype Step = Found(frame: nat) | Absent | Panic

  /** No node moved, and the new ones are tables. */
  ghost predicate Extends(at: map<Node, nat>, at': map<Node, nat>) {
    && (forall n {:trigger at'[n]} {:trigger n in at'} :: n in at ==> n in at' && at'[n] == at[n])
    && (forall n {:trigger n in at'} :: n in at' && n !in at ==> 0 < n.level < LEAF)
  }

  /** Pages that are neither free nor part of an address space in q did not change from p to q. */
  ghost predicate Others(p: Phys, q: Phys) {
    |q.mem| == |p.mem| && forall x {:trigger q.mem[x]} :: 0 <= x < |p.mem| && x !in Pool(q) ==> q.mem[x] == p.mem[x]
  }

  ghost predicate SameRoots(at: map<Node, nat>, at': map<Node, nat>) {
    forall s {:trigger Node(s, 0, 0)} :: Node(s, 0, 0) in at' <==> Node(s, 0, 0) in at
  }

  /** From p to q only tables were added, all from the free list. */
  ghost predicate Kept(p: Phys, q: Phys) {
    && Extends(p.at, q.at) && Tree(p.mem, p.at) && Tree(q.mem, q.at)
    && (forall s: nat, vpn: nat {:trigger Flat(q.mem, q.at, s, vpn)} ::
         Flat(q.mem, q.at, s, vpn) == Flat(p.mem, p.at, s, vpn))
    && Pool(q) == Pool(p) && Others(p, q) && Elems(q.free) <= Elems(p.free)
  }

  lemma KeptTrans(p: Phys, q: Phys, r: Phys)
    requires Kept(p, q) && Kept(q, r)
    ensures Kept(p, r)
  {
    hide Tree, Flat, Pool, Elems;
  }

  /** From p to q, pages from, from+1, ... of space s became `maps` and nothing else in any space changed; the
      frames `added` came from outside the pool. */
  ghost predicate Put(p: Phys, q: Phys, s: nat, from: nat, maps: seq<Mapping>, added: set<nat>) {
    && Tree(p.mem, p.at) && Tree(q.mem, q.at) && SameRoots(p.at, q.at)
    && (forall s': nat, v: nat {:trigger Flat(q.mem, q.at, s', v)} ::
          Flat(q.mem, q.at, s', v) ==
          if s' == s && from <= v < from + |maps| then Some(maps[v - from]) else Flat(p.mem, p.at, s', v))
    && Pool(q) == Pool(p) + added && Others(p, q) && Elems(q.free) <= Elems(p.free)
  }

  lemma PutTrans(p: Phys, q: Phys, r: Phys, s: nat, from: nat, maps: seq<Mapping>, added: set<nat>, m: Mapping,
                 added': set<nat>)
    requires Put(p, q, s, from, maps, added) && Put(q, r, s, from + |maps|, [m], added')
    ensures Put(p, r, s, from, maps + [m], added + added')
  {
    hide Tree, Flat, Pool, Elems;
  }

  lemma PutNothing(p: Phys, s: nat, from: nat)
    requires Tree(p.mem, p.at)
    ensures Put(p, p, s, from, [], {})
  {
  }

  // ---------------------------------------------------------------- small facts about trees

  lemma TreeEntry(mem: seq<Page>, at: map<Node, nat>, n: Node, c: nat)
    requires Tree(mem, at) && n in at && n.level < LEAF && c < Width(n.level)
    ensures at[n] < |mem| && EntryOk(mem, at, n, c)
  {
  }

  lemma TreeFrame(mem: seq<Page>, at: map<Node, nat>, n: Node)
    requires Tree(mem, at) && n in at
    ensures 0 < at[n] < |mem|
  {
  }

  /** The entry that walkpgdir returns a pointer to. */
  lemma LeafEntry(mem: seq<Page>, at: map<Node, nat>, s: nat, vpn: nat)
    requires Tree(mem, at) && Node(s, 3, vpn / NENT) in at
    ensures Child(Node(s, 3, vpn / NENT), vpn % NENT) == Node(s, LEAF, vpn) && vpn % NENT < Width(3)
    ensures at[Node(s, 3, vpn / NENT)] < |mem|
    ensures var w := mem[at[Node(s, 3, vpn / NENT)]][vpn % NENT];
            && (Present(w) <==> Node(s, LEAF, vpn) in at)
            && (Present(w) ==> FrameOf(w) == at[Node(s, LEAF, vpn)] && Flat(mem, at, s, vpn).value.flags == FlagsOf(w))
  {
    assert EntryOk(mem, at, Node(s, 3, vpn / NENT), vpn % NENT);
  }

  lemma FlatIn(mem: seq<Page>, at: map<Node, nat>, s: nat, vpn: nat)
    requires Tree(mem, at)
    ensures Flat(mem, at, s, vpn).Some? <==> Node(s, LEAF, vpn) in at
  {
  }

  /** PMX, PDPX and PDX pick the ancestors of a page. */
  lemma Indices(s: nat, vpn: nat, t: nat, d: nat, p: nat)
    requires vpn < VPNS && t == vpn / NENT && d == t / NENT && p == d / NENT
    ensures p < Width(0) && d % NENT < Width(1) && t % NENT < Width(2) && vpn % NENT < Width(3)
    ensures Child(Node(s, 0, 0), p) == Node(s, 1, p)
    ensures Child(Node(s, 1, p), d % NENT) == Node(s, 2, d)
    ensures Child(Node(s, 2, d), t % NENT) == Node(s, 3, t)
    ensures Child(Node(s, 3, t), vpn % NENT) == Node(s, LEAF, vpn)
  {
  }

  lemma AncestorsIn(mem: seq<Page>, at: map<Node, nat>, s: nat, vpn: nat, t: nat, d: nat, p: nat)
    requires Tree(mem, at) && t == vpn / NENT && d == t / NENT && p == d / NENT
    ensures Node(s, LEAF, vpn) in at ==> Node(s, 3, t) in at
    ensures Node(s, 3, t) in at ==> Node(s, 2, d) in at
    ensures Node(s, 2, d) in at ==> Node(s, 1, p) in at
    ensures Node(s, 0, 0) in at ==> at[Node(s, 0, 0)] == s
  {
    assert Node(s, 0, 0) in at ==> NodeOk(at, Node(s, 0, 0));
    assert Node(s, LEAF, vpn) in at ==> NodeOk(at, Node(s, LEAF, vpn));
    assert Node(s, 3, t) in at ==> NodeOk(at, Node(s, 3, t));
    assert Node(s, 2, d) in at ==> NodeOk(at, Node(s, 2, d));
  }

  /** After a walk, page vpn is mapped as before and a frame outside the pool is still there. */
  lemma WalkView(p: Phys, q: Phys, s: nat, vpn: nat, g: nat)
    requires Kept(p, q) && g < |p.mem| && g !in Pool(p)
    ensures IsMapped(p, s, vpn) <==> Node(s, LEAF, vpn) in q.at
    ensures |q.mem| == |p.mem| && q.mem[g] == p.mem[g] && g !in Pool(q) && g !in q.free
    ensures forall m {:trigger q.at[m]} :: m in q.at ==> q.at[m] != g
  {
    hide Tree, Flat;
    FlatIn(q.mem, q.at, s, vpn);
    FlatIn(p.mem, p.at, s, vpn);
    assert Flat(q.mem, q.at, s, vpn) == Flat(p.mem, p.at, s, vpn);
  }

  /** A walk and then one entry for a leaf is one new page. */
  lemma MapView(p: Phys, q: Phys, r: Phys, s: nat, vpn: nat, m: Mapping)
    requires Kept(p, q) && Tree(r.mem, r.at) && Attached(q.mem, q.at, r.mem, r.at, Node(s, LEAF, vpn), m)
             && r.free == q.free
    requires r.at == q.at[Node(s, LEAF, vpn) := m.frame] && Frames(r.at) == Frames(q.at) + {m.frame}
             && Node(s, 3, vpn / NENT) in q.at
    requires |r.mem| == |q.mem| && q.at[Node(s, 3, vpn / NENT)] < |q.mem|
    requires var f := q.at[Node(s, 3, vpn / NENT)]; r.mem == q.mem[f := r.mem[f]]
    ensures Put(p, r, s, vpn, [m], {m.frame})
  {
    hide Tree, Flat;
    assert q.at[Node(s, 3, vpn / NENT)] in Frames(q.at);
  }

  predicate Within(x: nat, fa: nat, n: nat) {
    fa <= x < fa + n
  }

  ghost function Run(fa: nat, n: nat): (r: set<nat>) {
    set x: nat | x < fa + n && Within(x, fa, n)
  }

  /** How many pages va..va+size touches. */
  function PageCount(va: nat, size: nat): (n: nat)
    requires size > 0
    ensures n > 0
  {
    (va + size - 1) / PGSIZE - va / PGSIZE + 1
  }

  /** n frames from fa on that are neither free nor part of an address space. */
  ghost predicate Spare(p: Phys, lo: nat, fa: nat, n: nat) {
    forall x: nat {:trigger Within(x, fa, n)} :: Within(x, fa, n) ==> lo <= x < |p.mem| && x !in Pool(p)
  }

  lemma PageRange(va: nat, size: nat)
    requires size > 0 && va + size <= USERTOP
    ensures va / PGSIZE <= (va + size - 1) / PGSIZE < VPNS
    ensures (va + size - 1) / PGSIZE + 1 - va / PGSIZE == PageCount(va, size)
  {
  }

  lemma OnePage(v: nat)
    ensures v * PGSIZE / PGSIZE == v && PageCount(v * PGSIZE, PGSIZE) == 1
  {
  }

  lemma RunMore(fa: nat, n: nat)
    ensures Run(fa, 0) == {} && fa + n !in Run(fa, n) && Run(fa, n + 1) == Run(fa, n) + {fa + n}
  {
  }

  /** The frames from fa on, with what memory holds there. */
  ghost predicate Contiguous(mem: seq<Page>, fa: nat, perm: nat, maps: seq<Mapping>)
    requires perm < PGSIZE
  {
    && (maps != [] ==> fa + |maps| <= |mem|)
    && (forall i {:trigger maps[i]} :: 0 <= i < |maps| ==>
         maps[i] == Mapping(fa + i, FlagsOf(Entry(fa + i, perm)), mem[fa + i]))
  }

  lemma NoFrames(mem: seq<Page>, fa: nat, perm: nat)
    requires perm < PGSIZE
    ensures Contiguous(mem, fa, perm, [])
  {
  }

  /** What Put says about one page. */
  lemma PutAt(p: Phys, q: Phys, s: nat, from: nat, maps: seq<Mapping>, added: set<nat>, v: nat)
    requires Put(p, q, s, from, maps, added)
    ensures from <= v < from + |maps| ==> Flat(q.mem, q.at, s, v) == Some(maps[v - from])
    ensures !(from <= v < from + |maps|) ==> Flat(q.mem, q.at, s, v) == Flat(p.mem, p.at, s, v)
    ensures Node(s, 0, 0) in p.at <==> Node(s, 0, 0) in q.at
    ensures Pool(q) == Pool(p) + added && |q.mem| == |p.mem| && Elems(q.free) <= Elems(p.free)
    ensures forall x {:trigger q.mem[x]} :: 0 <= x < |p.mem| && x !in Pool(q) ==> q.mem[x] == p.mem[x]
    ensures !(from <= v < from + |maps|) ==> (IsMapped(q, s, v) <==> IsMapped(p, s, v))
  {
    FlatIn(p.mem, p.at, s, v);
    FlatIn(q.mem, q.at, s, v);
  }

  /** Pages needed to hold sz bytes; PGROUNDUP(sz) is this many pages. */
  function Pages(sz: nat): (n: nat)
    ensures (n == 0 || (n - 1) * PGSIZE < sz) && sz <= n * PGSIZE
  {
    (sz + PGSIZE - 1) / PGSIZE
  }

  /** Taking a page off the free list, filling it and mapping it, seen as one step. */
  lemma AllocView(p: Phys, q: Phys, r: Phys, g: nat, page: Page, s: nat, v: nat, m: Mapping)
    requires p.free == [g] + q.free && q.at == p.at && g < |p.mem| && q.mem == p.mem[g := page]
    requires Tree(p.mem, p.at) && Put(q, r, s, v, [m], {g})
    requires forall s', v' {:trigger Flat(q.mem, q.at, s', v')} ::
               Flat(q.mem, q.at, s', v') == Flat(p.mem, p.at, s', v')
    ensures Put(p, r, s, v, [m], {})
  {
    hide Tree, Flat;
    ElemsPush(q.free, g);
  }

  lemma PageLoop(a: nat, sz: nat)
    ensures a * PGSIZE < sz <==> a < Pages(sz)
    ensures a < Pages(sz) && sz <= USERTOP ==> a < VPNS
  {
  }

  /** The pages that a growth from a to b bytes adds. */
  function MorePages(a: nat, b: nat): (n: nat) {
    if Pages(a) < Pages(b) then Pages(b) - Pages(a) else 0
  }

  /** A frame was taken for page v, and it was not mapped. */
  lemma OneShort(p: Phys, q: Phys, s: nat, v: nat)
    requires q.at == p.at && |p.free| == |q.free| + 1 && !Fits(q, s, v, 1, 0)
    ensures Short(p, PathTo(s, v), 1) || IsMapped(p, s, v)
  {
    hide PathTo;
    OneTable(s, v);
  }

  lemma OneGrown(p: Phys, q: Phys, r: Phys, s: nat, v: nat)
    requires q.at == p.at && |p.free| == |q.free| + 1 && Grown(q, r, s, v, 1, 0)
    ensures Spent(p, r, PathTo(s, v), 1) && Has(r, PathTo(s, v)) && !IsMapped(p, s, v)
  {
    hide PathTo;
    OneTable(s, v);
    assert !IsMapped(q, s, v);
  }

  lemma PagesMonotone(a: nat, b: nat)
    requires a <= b
    ensures Pages(a) <= Pages(b)
  {
  }

  lemma NoPages(free: seq<nat>)
    ensures NewPages([], free)
  {
  }

  /** Zeroed user pages that were on the free list. */
  ghost predicate NewPages(maps: seq<Mapping>, free: seq<nat>) {
    forall i {:trigger maps[i]} :: 0 <= i < |maps| ==>
        maps[i].flags == PTE_P + PTE_W + PTE_U && maps[i].data == Zeros() && maps[i].frame in free
  }

  /** From p to q, pages from..upto of space s went back to the free list and nothing else changed. */
  ghost predicate Removed(p: Phys, q: Phys, s: nat, from: nat, upto: nat) {
    && Tree(p.mem, p.at) && Tree(q.mem, q.at) && SameRoots(p.at, q.at)
    && (forall s': nat, v: nat {:trigger Flat(q.mem, q.at, s', v)} ::
          Flat(q.mem, q.at, s', v) == if s' == s && from <= v < upto then None else Flat(p.mem, p.at, s', v))
    && Pool(q) == Pool(p) && Others(p, q)
  }

  lemma RemovedNothing(p: Phys, s: nat, v: nat)
    requires Tree(p.mem, p.at) && Node(s, LEAF, v) !in p.at
    ensures Removed(p, p, s, v, v + 1)
  {
    FlatIn(p.mem, p.at, s, v);
    hide Tree, Flat;
  }

  lemma RemovedStart(p: Phys, s: nat, v: nat)
    requires Tree(p.mem, p.at)
    ensures Removed(p, p, s, v, v)
  {
    hide Tree, Flat;
  }

  lemma RemovedFacts(p: Phys, q: Phys, s: nat, from: nat, upto: nat)
    requires Removed(p, q, s, from, upto)
    ensures Tree(q.mem, q.at) && (Node(s, 0, 0) in p.at <==> Node(s, 0, 0) in q.at)
  {
  }

  lemma RemovedTrans(p: Phys, q: Phys, r: Phys, s: nat, from: nat, v: nat)
    requires from <= v && Removed(p, q, s, from, v) && Removed(q, r, s, v, v + 1)
    ensures Removed(p, r, s, from, v + 1)
  {
    hide Tree, Flat, Pool;
  }

  /** The frame of a leaf is not that of its table, nor of any other node. */
  lemma LeafApart(mem: seq<Page>, at: map<Node, nat>, s: nat, v: nat)
    requires Tree(mem, at) && Node(s, LEAF, v) in at
    ensures forall n {:trigger at[n]} :: n in at && n != Node(s, LEAF, v) ==> at[n] != at[Node(s, LEAF, v)]
  {
  }

  /** Overwriting a user page leaves the tree and every other page alone. */
  lemma JunkLeaf(mem: seq<Page>, at: map<Node, nat>, junk: Page, s: nat, v: nat)
    requires Tree(mem, at) && Node(s, LEAF, v) in at
    ensures at[Node(s, LEAF, v)] < |mem| && Tree(mem[at[Node(s, LEAF, v)] := junk], at)
    ensures forall s': nat, v': nat {:trigger Flat(mem[at[Node(s, LEAF, v)] := junk], at, s', v')} ::
              !(s' == s && v' == v) ==> Flat(mem[at[Node(s, LEAF, v)] := junk], at, s', v') == Flat(mem, at, s', v')
  {
    LeafApart(mem, at, s, v);
    var mem' := mem[at[Node(s, LEAF, v)] := junk];
    SameTables(mem, mem', at);
    forall s': nat, v': nat | !(s' == s && v' == v) ensures Flat(mem', at, s', v') == Flat(mem, at, s', v') {
      var m := Node(s', LEAF, v');
      assert m in at ==> NodeOk(at, m);
    }
  }

  /** Junking the page and clearing its entry. */
  lemma UnmapView(p: Phys, junk: Page, s: nat, v: nat)
    requires Tree(p.mem, p.at) && Node(s, LEAF, v) in p.at && p.at[Node(s, LEAF, v)] !in p.free
    ensures var n := Node(s, LEAF, v);
            && Node(s, 3, v / NENT) in p.at && p.at[n] < |p.mem| && p.at[Node(s, 3, v / NENT)] < |p.mem|
            && var mem' := p.mem[p.at[n] := junk];
            && var t := p.at[Node(s, 3, v / NENT)];
            && Removed(p, Phys(mem'[t := mem'[t][v % NENT := 0]], [p.at[n]] + p.free, p.at - {n}), s, v, v + 1)
  {
    var n := Node(s, LEAF, v);
    assert NodeOk(p.at, n) && Parent(n) == Node(s, 3, v / NENT) && Slot(n) == v % NENT;
    assert p.at[n] < |p.mem| && p.at[Parent(n)] < |p.mem|;
    UnmapFlat(p.mem, p.at, junk, s, v);
    hide Tree, Flat, Frames, Elems, NodeOk, Parent, Slot;
    var mem' := p.mem[p.at[n] := junk];
    var q := Phys(SetEntry(mem', p.at, Parent(n), Slot(n), 0), [p.at[n]] + p.free, p.at - {n});
    UnmapPool(p, n);
    assert Pool(q) == Pool(p) && Others(p, q) && SameRoots(p.at, q.at);
    assert q.mem == mem'[p.at[Parent(n)] := mem'[p.at[Parent(n)]][v % NENT := 0]];
    hide SetEntry, Others, Pool, SameRoots;
    assert Removed(p, q, s, v, v + 1);
  }

  /** The page is gone from the view, and no other. */
  lemma UnmapFlat(mem: seq<Page>, at: map<Node, nat>, junk: Page, s: nat, v: nat)
    requires Tree(mem, at) && Node(s, LEAF, v) in at
    ensures var n := Node(s, LEAF, v);
            && Parent(n) in at && at[n] < |mem|
            && var mem' := mem[at[n] := junk];
            && Tree(mem', at)
            && var mem2 := SetEntry(mem', at, Parent(n), Slot(n), 0);
            && Tree(mem2, at - {n})
            && forall s': nat, v': nat {:trigger Flat(mem2, at - {n}, s', v')} ::
                 Flat(mem2, at - {n}, s', v') == if s' == s && v' == v then None else Flat(mem, at, s', v')
  {
    var n := Node(s, LEAF, v);
    assert NodeOk(at, n);
    hide Tree, Flat, SetEntry, NodeOk, Parent, Slot;
    JunkLeaf(mem, at, junk, s, v);
    var mem' := mem[at[n] := junk];
    Detach(mem', at, n);
    forall s': nat, v': nat
      ensures Flat(SetEntry(mem', at, Parent(n), Slot(n), 0), at - {n}, s', v') ==
              if s' == s && v' == v then None else Flat(mem, at, s', v')
    {
      DetachFlat(mem', at, n, s', v');
    }
  }

  /** The page of a leaf changes from the tree to the free list. */
  lemma UnmapPool(p: Phys, n: Node)
    requires Tree(p.mem, p.at) && n in p.at && n.level == LEAF && Parent(n) in p.at
    ensures Elems([p.at[n]] + p.free) + Frames(p.at - {n}) == Pool(p)
    ensures p.at[n] in Pool(p) && p.at[Parent(n)] in Pool(p)
  {
    FramesDrop(p.at, n);
    ElemsPush(p.free, p.at[n]);
  }

  /** From p to q, an empty address space d came into being. */
  ghost predicate Spawned(p: Phys, q: Phys, d: nat) {
    && Tree(p.mem, p.at) && Tree(q.mem, q.at) && Node(d, 0, 0) !in p.at && d in p.free
    && (forall s: nat {:trigger Node(s, 0, 0)} :: Node(s, 0, 0) in q.at <==> s == d || Node(s, 0, 0) in p.at)
    && (forall s: nat, v: nat {:trigger Flat(q.mem, q.at, s, v)} :: Flat(q.mem, q.at, s, v) == Flat(p.mem, p.at, s, v))
    && (forall v: nat {:trigger Flat(p.mem, p.at, d, v)} :: Flat(p.mem, p.at, d, v) == None)
    && Pool(q) == Pool(p) && Others(p, q) && Elems(q.free) <= Elems(p.free)
  }

  /** The pages of d are copies of the pages of s from 1 on, in frames that were free. */
  ghost predicate Copies(p: Phys, s: nat, maps: seq<Mapping>)
    requires Tree(p.mem, p.at)
  {
    forall j {:trigger maps[j]} :: 0 <= j < |maps| ==> IsCopy(p, s, j, maps[j])
  }

  ghost predicate IsCopy(p: Phys, s: nat, j: nat, m: Mapping)
    requires Tree(p.mem, p.at)
  {
    var x := Flat(p.mem, p.at, s, 1 + j);
    x.Some? && m.frame in p.free && m.flags == x.value.flags && m.data == x.value.data
  }

  lemma CopiesMore(p: Phys, s: nat, maps: seq<Mapping>, m: Mapping)
    requires Tree(p.mem, p.at) && Copies(p, s, maps) && Flat(p.mem, p.at, s, 1 + |maps|).Some? && m.frame in p.free
    requires m.flags == Flat(p.mem, p.at, s, 1 + |maps|).value.flags
    requires m.data == Flat(p.mem, p.at, s, 1 + |maps|).value.data
    ensures Copies(p, s, maps + [m])
  {
    hide Tree, Flat;
    var all := maps + [m];
    forall j | 0 <= j < |all| ensures IsCopy(p, s, j, all[j]) {
      if j < |maps| { assert all[j] == maps[j] && IsCopy(p, s, j, maps[j]); }
      else { assert all[j] == m && j == |maps|; }
    }
  }

  /** In the middle of copyuvm: the parent is as it was, and the child has nothing from page i on. */
  lemma CopyFacts(p: Phys, q: Phys, t: Phys, s: nat, d: nat, i: nat, maps: seq<Mapping>)
    requires Spawned(p, q, d) && Put(q, t, d, 1, maps, {}) && Node(s, 0, 0) in p.at && i == 1 + |maps|
    ensures Tree(p.mem, p.at) && Flat(t.mem, t.at, s, i) == Flat(p.mem, p.at, s, i) && Flat(t.mem, t.at, d, i) == None
    ensures (IsMapped(p, s, i) <==> Node(s, LEAF, i) in t.at) && !IsMapped(t, d, i) && !IsMapped(q, d, i)
    ensures Node(s, 0, 0) in t.at && Node(d, 0, 0) in t.at && Elems(t.free) <= Elems(p.free)
  {
    hide Tree, Flat;
    assert Flat(q.mem, q.at, s, i) == Flat(p.mem, p.at, s, i);
    assert Flat(q.mem, q.at, d, i) == Flat(p.mem, p.at, d, i);
    FlatIn(p.mem, p.at, s, i);
    FlatIn(t.mem, t.at, s, i);
    FlatIn(t.mem, t.at, d, i);
    FlatIn(q.mem, q.at, d, i);
  }

  lemma OneIsPage(sz: nat)
    ensures MorePages(PGSIZE, sz) == if Pages(sz) == 0 then 0 else Pages(sz) - 1
  {
  }

  /** The pages from first on, n of them, are mapped. */
  ghost predicate AllMapped(p: Phys, s: nat, first: nat, n: nat) {
    forall v {:trigger IsMapped(p, s, v)} :: first <= v < first + n ==> IsMapped(p, s, v)
  }

  lemma NoneMapped(p: Phys, s: nat)
    ensures AllMapped(p, s, 1, 0)
  {
  }

  lemma MappedNext(p: Phys, s: nat, k: nat, n: nat)
    requires AllMapped(p, s, 1, k) && k < n
    ensures if IsMapped(p, s, 1 + k) then AllMapped(p, s, 1, k + 1) else !AllMapped(p, s, 1, n)
  {
  }

  lemma LeafData(mem: seq<Page>, at: map<Node, nat>, s: nat, vpn: nat)
    requires Tree(mem, at) && Node(s, LEAF, vpn) in at
    ensures at[Node(s, LEAF, vpn)] < |mem| && Flat(mem, at, s, vpn).Some?
            && Flat(mem, at, s, vpn).value.data == mem[at[Node(s, LEAF, vpn)]]
  {
  }

  /** The flags of a present entry already have PTE_P. */
  lemma FlagsKept(w: nat)
    requires Present(w)
    ensures FlagsOf(Entry(0, FlagsOf(w))) == FlagsOf(w)
  {
  }

  ghost function Image(at: map<Node, nat>, gone: set<Node>): (r: set<nat>)
    requires gone <= at.Keys
  {
    set m | m in gone :: at[m]
  }

  /** Part-way through freevm from state p: the pages of `gone` are on the free list and no others joined it; all
      other pages of address spaces hold what they held. */
  ghost predicate Freeing(p: Phys, mem: seq<Page>, lo: nat, head: nat, free: seq<nat>, gone: set<Node>) {
    && gone <= p.at.Keys && |mem| == |p.mem| && FreeList(mem, lo, head, free)
    && Elems(free) == Elems(p.free) + Image(p.at, gone)
    && (forall m {:trigger p.at[m]} :: m in p.at && m !in gone ==>
         p.at[m] < |mem| && mem[p.at[m]] == p.mem[p.at[m]] && p.at[m] !in free)
    && (forall x {:trigger mem[x]} :: 0 <= x < |mem| && x !in Pool(p) ==> mem[x] == p.mem[x])
  }

  lemma FreeingStart(p: Phys, lo: nat, head: nat)
    requires Tree(p.mem, p.at) && FreeList(p.mem, lo, head, p.free)
    requires forall m {:trigger p.at[m]} :: m in p.at ==> p.at[m] !in p.free
    ensures Freeing(p, p.mem, lo, head, p.free, {})
  {
    hide FreeList;
  }

  /** While children 0..c of n are gone, n and what is under child c are not. */
  lemma PartApart(mem: seq<Page>, at: map<Node, nat>, gone: set<Node>, n: Node, c: nat)
    requires Tree(mem, at) && n in at && c <= NENT && gone !! Subtree(at, n)
    ensures n !in gone + Part(at, n, c)
    ensures c < NENT ==> gone + Part(at, n, c) !! Subtree(at, Child(n, c))
  {
    assert n in Subtree(at, n);
    if c < NENT {
      PartStep(mem, at, n, c);
      forall m | m in Subtree(at, Child(n, c)) ensures m in Subtree(at, n) { UnderChild(n, c, m); }
    }
    hide Tree, Anc;
  }

  lemma FreedElems(p: Phys, free: seq<nat>, gone: set<Node>, n: Node)
    requires gone <= p.at.Keys && n in p.at && Elems(free) == Elems(p.free) + Image(p.at, gone)
    ensures Elems([p.at[n]] + free) == Elems(p.free) + Image(p.at, gone + {n}) && p.at[n] in Pool(p)
  {
    ElemsPush(free, p.at[n]);
    assert Image(p.at, gone + {n}) == Image(p.at, gone) + {p.at[n]};
  }

  /** One more page. */
  lemma FreeingStep(p: Phys, mem: seq<Page>, lo: nat, head: nat, free: seq<nat>, gone: set<Node>, n: Node,
                    mem': seq<Page>, head': nat)
    requires Freeing(p, mem, lo, head, free, gone) && Tree(p.mem, p.at) && n in p.at && n !in gone
    requires |mem'| == |mem| && mem' == mem[p.at[n] := mem'[p.at[n]]] && FreeList(mem', lo, head', [p.at[n]] + free)
    ensures Freeing(p, mem', lo, head', [p.at[n]] + free, gone + {n})
  {
    assert forall m {:trigger p.at[m]} :: m in p.at && m != n ==> p.at[m] != p.at[n];
    hide FreeList, Tree, Image, Elems, Pool;
    FreedElems(p, free, gone, n);
  }

  /** The other address spaces after one is gone. */
  lemma FreedView(p: Phys, mem: seq<Page>, lo: nat, head: nat, free: seq<nat>, s: nat)
    requires Tree(p.mem, p.at) && Freeing(p, mem, lo, head, free, set m | m in p.at && m.space == s)
    ensures var at' := map n | n in p.at && n.space != s :: p.at[n];
            && Tree(mem, at')
            && (forall s': nat, v: nat {:trigger Flat(mem, at', s', v)} ::
                 Flat(mem, at', s', v) == if s' == s then None else Flat(p.mem, p.at, s', v))
            && Pool(Phys(mem, free, at')) == Pool(p)
  {
    var at' := map n | n in p.at && n.space != s :: p.at[n];
    assert SpaceTree(p, mem, at', s) by { hide FreeList; }
    RestTree(p, mem, at', s);
    hide Tree, Freeing, Flat, SpaceTree;
    FramesSplit(p.at, s);
    assert Elems(free) == Elems(p.free) + Image(p.at, set m | m in p.at && m.space == s) by {
      FreeingElems(p, mem, lo, head, free, set m | m in p.at && m.space == s);
    }
  }

  lemma FreeingElems(p: Phys, mem: seq<Page>, lo: nat, head: nat, free: seq<nat>, gone: set<Node>)
    requires Freeing(p, mem, lo, head, free, gone)
    ensures Elems(free) == Elems(p.free) + Image(p.at, gone)
  {
  }

  /** at' is the part of p.at outside space s, and its pages are unchanged. */
  ghost predicate SpaceTree(p: Phys, mem: seq<Page>, at': map<Node, nat>, s: nat) {
    && |mem| == |p.mem|
    && (forall n {:trigger n in at'} {:trigger at'[n]} :: n in at' <==> n in p.at && n.space != s)
    && (forall n {:trigger at'[n]} :: n in at' ==> at'[n] == p.at[n] && at'[n] < |mem| && mem[at'[n]] == p.mem[at'[n]])
  }

  lemma RestTree(p: Phys, mem: seq<Page>, at': map<Node, nat>, s: nat)
    requires Tree(p.mem, p.at) && SpaceTree(p, mem, at', s)
    ensures Tree(mem, at')
    ensures forall s': nat, v: nat {:trigger Flat(mem, at', s', v)} ::
              Flat(mem, at', s', v) == if s' == s then None else Flat(p.mem, p.at, s', v)
  {
    forall n | n in at' ensures 0 < at'[n] < |mem| && NodeOk(at', n) { assert NodeOk(p.at, n); }
    forall n, c | n in at' && n.level < LEAF && 0 <= c < Width(n.level) ensures EntryOk(mem, at', n, c) {
      assert EntryOk(p.mem, p.at, n, c);
    }
    forall s': nat, v: nat ensures Flat(mem, at', s', v) == if s' == s then None else Flat(p.mem, p.at, s', v) {
      var n := Node(s', LEAF, v);
      assert n in p.at ==> NodeOk(p.at, n);
    }
  }

  lemma FramesSplit(at: map<Node, nat>, s: nat)
    ensures Frames(at) == Frames(map n | n in at && n.space != s :: at[n]) + Image(at, set m | m in at && m.space == s)
  {
    var at', gone := map n | n in at && n.space != s :: at[n], set m | m in at && m.space == s;
    forall x | x in Frames(at) ensures x in Frames(at') + Image(at, gone) {
      var n :| n in at && at[n] == x;
      assert n in at' || n in gone;
    }
  }

  lemma NotYet(before: seq<nat>, free: seq<nat>, from: nat, p: nat)
    requires from <= p && Elems(free) == Elems(before) + Run(from, p - from)
    requires forall f {:trigger f in before} :: f in before ==> f < from
    ensures p !in free
  {
    assert p in free ==> p in Elems(free);
  }

  class Kernel {
    const lo: nat // the first frame above the kernel image
    var mem: seq<Page>
    var freelist: nat
    ghost var free: seq<nat>
    ghost var at: map<Node, nat>

    ghost predicate Valid()
      reads this
    {
      && 0 < lo && FreeList(mem, lo, freelist, free) && Tree(mem, at)
      && (forall n {:trigger at[n]} :: n in at ==> lo <= at[n] && at[n] !in free)
    }

    ghost function Now(): (p: Phys)
      reads this
    {
      Phys(mem, free, at)
    }

    /** A word of a page that is not on the free list: the only way tables are read here. */
    function Load(f: nat, c: nat): (w: nat)
      requires f < |mem| && f !in free && c < NENT
      reads this
    {
      mem[f][c]
    }

    /** kinit1: every page from lo to the end of memory is free. */
    constructor (lo: nat, memory: seq<Page>)
      requires 0 < lo <= |memory|
      ensures Valid() && this.lo == lo && |mem| == |memory| && at == map[] && Elems(free) == Run(lo, |mem| - lo)
    {
      this.lo, mem, freelist := lo, memory, 0;
      free, at := [], map[];
      new;
      Freerange(lo, |mem|);
    }

    /** Free the pages from..upto. */
    method Freerange(from: nat, upto: nat)
      requires FreeList(mem, lo, freelist, free) && at == map[] && lo <= from <= upto <= |mem|
      requires forall f {:trigger f in free} :: f in free ==> f < from
      modifies `mem, `freelist, `free
      ensures FreeList(mem, lo, freelist, free) && |mem| == old(|mem|)
      ensures Elems(free) == old(Elems(free)) + Run(from, upto - from)
    {
      var p := from;
      RunMore(from, 0);
      while p < upto
        invariant from <= p <= upto && FreeList(mem, lo, freelist, free) && |mem| == old(|mem|)
        invariant Elems(free) == old(Elems(free)) + Run(from, p - from)
      {
        hide FreeList, Elems;
        assert p !in free by { NotYet(old(free), free, from, p); }
        RunMore(from, p - from);
        ghost var f := free;
        var ok := Kfree(p);
        ElemsPush(f, p);
        p := p + 1;
      }
    }

    /** None is the panic "Out of memory!". */
    method Kalloc() returns (r: Option<nat>)
      requires Valid()
      modifies `freelist, `free
      ensures Valid()
      ensures r.None? <==> old(free) == []
      ensures r.None? ==> unchanged(this)
      ensures r.Some? ==> old(free) == [r.value] + free && r.value !in free && lo <= r.value < |mem|
      ensures r.Some? ==> forall n {:trigger at[n]} :: n in at ==> at[n] != r.value
    {
      hide Tree;
      if freelist == 0 { assert |free| == 0; return None; }
      assert |free| > 0;
      PopFree(mem, lo, freelist, free);
      var f := FrameAt(freelist);
      freelist := mem[f][0];
      free := free[1..];
      return Some(f);
    }

    /** Junk the page and push it; false is the panic for a page outside the managed range. */
    method Kfree(f: nat) returns (ok: bool)
      requires FreeList(mem, lo, freelist, free) && f !in free
      modifies `mem, `freelist, `free
      ensures ok == (lo <= f < |mem|)
      ensures !ok ==> unchanged(this)
      ensures ok ==> FreeList(mem, lo, freelist, free) && free == [f] + old(free)
      ensures ok ==> |mem| == |old(mem)| && mem == old(mem)[f := mem[f]]
    {
      if f < lo || f >= |mem| { return false; }
      var page: Page := seq(NENT, _ => JUNK);
      PushFree(mem, lo, freelist, free, f, page[0 := freelist]);
      mem := mem[f := page[0 := freelist]];
      freelist := Kva(f);
      free := [f] + free;
      return true;
    }

    // -------------------------------------------------------------- walking and mapping

    /** memset or memmove into a page that is neither free nor part of an address space. */
    method Fill(g: nat, page: Page)
      requires Valid() && g < |mem| && g !in free && forall m {:trigger at[m]} :: m in at ==> at[m] != g
      modifies `mem
      ensures Valid() && mem == old(mem)[g := page]
      ensures forall s: nat, vpn: nat {:trigger Flat(mem, at, s, vpn)} ::
                Flat(mem, at, s, vpn) == Flat(old(mem), at, s, vpn)
    {
      hide Flat;
      Unowned(mem, mem[g := page], at);
      PokeFree(mem, mem[g := page], lo, freelist, free);
      mem := mem[g := page];
    }

    /** Write the entry that makes frame g child c of table n. */
    method Link(ghost n: Node, f: nat, c: nat, g: nat, perm: nat)
      requires Valid() && n in at && f == at[n] && n.level < LEAF && c < Width(n.level) && Child(n, c) !in at
               && perm < PGSIZE
      requires lo <= g < |mem| && g !in free && (n.level + 1 < LEAF ==> mem[g] == Zeros() && perm == PTE_W + PTE_U)
      requires forall m {:trigger at[m]} :: m in at ==> at[m] != g
      modifies `mem, `at
      ensures Valid() && at == old(at)[Child(n, c) := g] && Frames(at) == Frames(old(at)) + {g}
      ensures |mem| == |old(mem)| && mem == old(mem)[f := mem[f]]
      ensures Attached(old(mem), old(at), mem, at, Child(n, c), Mapping(g, FlagsOf(Entry(g, perm)), mem[g]))
    {
      hide Tree, Attached;
      ghost var mem', at' := SetEntry(mem, at, n, c, Entry(g, perm)), at[Child(n, c) := g];
      AttachView(mem, at, n, c, g, perm);
      assert at[n] < |mem| by { TreeEntry(mem, at, n, c); }
      PokeFree(mem, mem', lo, freelist, free);
      FramesAdd(at, Child(n, c), g);
      mem := mem[f := mem[f][c := Entry(g, perm)]];
      at := at';
    }

    /** One level of walkpgdir: the table that entry c of table n leads to, allocated if asked for. */
    method NextTable(ghost n: Node, f: nat, c: nat, alloc: bool) returns (r: Step)
      requires Valid() && n in at && f == at[n] && n.level < LEAF - 1 && c < Width(n.level)
      modifies `mem, `freelist, `free, `at
      ensures Valid()
      ensures r.Found? ==> Child(n, c) in at && r.frame == at[Child(n, c)] && Kept(old(Now()), Now())
      ensures r.Found? ==> Spent(old(Now()), Now(), {Child(n, c)}, 0) && Has(Now(), {Child(n, c)})
      ensures r.Absent? ==> !alloc && Child(n, c) !in at
      ensures r.Panic? ==> alloc && Short(old(Now()), {Child(n, c)}, 0)
      ensures !alloc ==> unchanged(this)
    {
      hide Tree, Flat, Spent, Short;
      assert EntryOk(mem, at, n, c) by { TreeEntry(mem, at, n, c); }
      var w := Load(f, c);
      if Present(w) {
        SpentNothing(Now(), {Child(n, c)});
        return Found(FrameOf(w));
      }
      if !alloc { return Absent; }
      var g := Kalloc();
      if g.None? {
        NoFrame(Now(), Child(n, c));
        return Panic;
      }
      Fill(g.value, Zeros());
      Link(n, f, c, g.value, PTE_W + PTE_U);
      ElemsPush(free, g.value);
      AddTable(old(Now()), Now(), Child(n, c), g.value);
      return Found(g.value);
    }

    /** walkpgdir: the page table that holds the entry for page vpn of space s. */
    method Walk(s: nat, vpn: nat, alloc: bool) returns (r: Step)
      requires Valid() && Node(s, 0, 0) in at && vpn < VPNS
      modifies `mem, `freelist, `free, `at
      ensures Valid()
      ensures r.Found? ==> Node(s, 3, vpn / NENT) in at && r.frame == at[Node(s, 3, vpn / NENT)] && r.frame < |mem|
      ensures r.Found? ==> Kept(old(Now()), Now())
      ensures r.Found? ==> Spent(old(Now()), Now(), PathTo(s, vpn), 0) && Has(Now(), PathTo(s, vpn))
      ensures r.Absent? ==> !alloc && Node(s, LEAF, vpn) !in at
      ensures r.Panic? ==> alloc && Short(old(Now()), PathTo(s, vpn), 0)
      ensures !alloc ==> unchanged(this)
    {
      var t := vpn / NENT;
      var d := t / NENT;
      var p := d / NENT;
      Indices(s, vpn, t, d, p);
      hide Tree, Flat, Child, Kept, FreeList, Width, Spent, Short, Has;
      AncestorsIn(mem, at, s, vpn, t, d, p);
      ghost var a, b, c, p0 := Node(s, 1, p), Node(s, 2, d), Node(s, 3, t), Now();
      assert PathTo(s, vpn) == {a} + {b} + {c};
      r := NextTable(Node(s, 0, 0), s, p, alloc);
      if !r.Found? {
        if r.Panic? { ShortMore(p0, {a}, 0, PathTo(s, vpn), 0); }
        return;
      }
      ghost var p1 := Now();
      r := NextTable(Node(s, 1, p), r.frame, d % NENT, alloc);
      if !r.Found? {
        if r.Panic? { TooFew(p0, p1, {a}, 0, {b}, 0, PathTo(s, vpn)); }
        return;
      }
      ghost var p2 := Now();
      SpentTrans(p0, p1, p2, {a}, {b}, 0, 0);
      r := NextTable(Node(s, 2, d), r.frame, t % NENT, alloc);
      if !r.Found? {
        if r.Panic? { TooFew(p0, p2, {a} + {b}, 0, {c}, 0, PathTo(s, vpn)); }
        return;
      }
      SpentTrans(p0, p2, Now(), {a} + {b}, {c}, 0, 0);
      KeptTrans(p1, p2, Now());
      KeptTrans(old(Now()), p1, Now());
      TreeFrame(mem, at, Node(s, 3, t));
    }

    /** One turn of mappages: false is the panic "remap", or the panic of kalloc inside the walk. */
    method MapOne(s: nat, vpn: nat, g: nat, perm: nat) returns (ok: bool)
      requires Valid() && Node(s, 0, 0) in at && vpn < VPNS && perm < PGSIZE && lo <= g < |mem| && g !in Pool(Now())
      modifies `mem, `freelist, `free, `at
      ensures !ok ==> Short(old(Now()), PathTo(s, vpn), 0) || IsMapped(old(Now()), s, vpn)
      ensures ok ==> Valid() && !IsMapped(old(Now()), s, vpn)
      ensures ok ==> Spent(old(Now()), Now(), PathTo(s, vpn), 0) && Has(Now(), PathTo(s, vpn))
      ensures ok ==> Put(old(Now()), Now(), s, vpn, [Mapping(g, FlagsOf(Entry(g, perm)), old(mem)[g])], {g})
    {
      hide Tree, Flat, Child, FreeList, Width, Entry, Kept, Put, Attached, Pool, EntryOk, Short, TablesOf, PathTo;
      var r := Walk(s, vpn, true);
      if !r.Found? { return false; }
      ghost var q := Now();
      LeafEntry(mem, at, s, vpn);
      WalkView(old(Now()), q, s, vpn, g);
      if Present(Load(r.frame, vpn % NENT)) { return false; }
      Link(Node(s, 3, vpn / NENT), r.frame, vpn % NENT, g, perm);
      MapView(old(Now()), q, Now(), s, vpn, Mapping(g, FlagsOf(Entry(g, perm)), mem[g]));
      AddLeaf(q, Now(), Node(s, LEAF, vpn), g);
      return true;
    }

    /** Map the pages that va..va+size touches to the frames from fa on. */
    method Mappages(s: nat, va: nat, size: nat, fa: nat, perm: nat) returns (ok: bool, ghost maps: seq<Mapping>)
      requires Valid() && Node(s, 0, 0) in at && size > 0 && va + size <= USERTOP && perm < PGSIZE
      requires Spare(Now(), lo, fa, PageCount(va, size))
      modifies `mem, `freelist, `free, `at
      ensures ok <==> Fits(old(Now()), s, va / PGSIZE, PageCount(va, size), 0)
      ensures ok ==> Grown(old(Now()), Now(), s, va / PGSIZE, PageCount(va, size), 0)
      ensures ok ==> Valid() && Put(old(Now()), Now(), s, va / PGSIZE, maps, Run(fa, |maps|))
      ensures ok ==> |maps| == PageCount(va, size) && Contiguous(old(mem), fa, perm, maps)
    {
      hide Valid, Tree, Flat, FreeList, Entry, Put, Pool, Run, Contiguous, PageCount, Grown, Fits;
      var first, last := va / PGSIZE, (va + size - 1) / PGSIZE;
      PageRange(va, size);
      ValidTree();
      var a, pa := first, fa;
      maps := [];
      GrownStart(Now(), s, first);
      PutNothing(Now(), s, first);
      RunMore(fa, 0);
      assert Contiguous(mem, fa, perm, maps) by { NoFrames(mem, fa, perm); }
      while true
        invariant first <= a <= last && pa == fa + |maps| && a == first + |maps| && Valid()
        invariant Put(old(Now()), Now(), s, first, maps, Run(fa, |maps|)) && Contiguous(old(mem), fa, perm, maps)
        invariant Grown(old(Now()), Now(), s, first, |maps|, 0)
        decreases last - a
      {
        assert Within(pa, fa, last + 1 - first) && Within(a, first, last + 1 - first);
        ok, maps := MapNext(old(Now()), maps, s, first, last + 1 - first, fa, a, pa, perm);
        if !ok { return; }
        if a == last {
          GrownFits(old(Now()), Now(), s, first, |maps|, 0);
          return true, maps;
        }
        a, pa := a + 1, pa + 1;
      }
    }

    lemma ValidTree()
      requires Valid()
      ensures Tree(mem, at)
    {
    }

    /** Page a, after those of `maps`. */
    method MapNext(ghost p: Phys, ghost maps: seq<Mapping>, s: nat, first: nat, ghost n: nat, fa: nat, a: nat, pa: nat,
                   perm: nat)
      returns (ok: bool, ghost maps': seq<Mapping>)
      requires Valid() && Put(p, Now(), s, first, maps, Run(fa, |maps|)) && perm < PGSIZE
               && Contiguous(p.mem, fa, perm, maps)
      requires Node(s, 0, 0) in p.at && a == first + |maps| < VPNS && pa == fa + |maps| && lo <= pa < |p.mem|
               && pa !in Pool(p)
      requires Grown(p, Now(), s, first, |maps|, 0) && |maps| < n
      modifies `mem, `freelist, `free, `at
      ensures !ok ==> !Fits(p, s, first, n, 0)
      ensures ok ==> Grown(p, Now(), s, first, |maps| + 1, 0)
      ensures ok ==> Valid() && |maps'| == |maps| + 1 && Contiguous(p.mem, fa, perm, maps')
      ensures ok ==> Put(p, Now(), s, first, maps', Run(fa, |maps'|))
    {
      ghost var q := Now();
      hide Tree, Flat, FreeList, Entry, Put, Pool, Others, Run, Grown, Fits, Short, Spent, Has, PathTo, IsMapped;
      PutAt(p, q, s, first, maps, Run(fa, |maps|), a);
      RunMore(fa, |maps|);
      ok := MapOne(s, a, pa, perm);
      maps' := maps;
      if !ok { GrownFails(p, q, s, first, |maps|, 0, 0, n, 0); }
      if ok {
        GrownStep(p, q, Now(), s, first, |maps|, 0, 0);
        ghost var m := Mapping(pa, FlagsOf(Entry(pa, perm)), q.mem[pa]);
        PutTrans(p, q, Now(), s, first, maps, Run(fa, |maps|), m, {pa});
        maps' := maps + [m];
      }
    }

    // -------------------------------------------------------------- growing and shrinking

    /** Allocate, fill and map one page: the loop bodies of allocuvm and copyuvm. */
    method AddPage(s: nat, v: nat, page: Page, perm: nat) returns (ok: bool, ghost m: Mapping)
      requires Valid() && Node(s, 0, 0) in at && v < VPNS && perm < PGSIZE
      modifies `mem, `freelist, `free, `at
      ensures !ok ==> Short(old(Now()), PathTo(s, v), 1) || IsMapped(old(Now()), s, v)
      ensures ok ==> Spent(old(Now()), Now(), PathTo(s, v), 1) && Has(Now(), PathTo(s, v))
      ensures ok ==> !IsMapped(old(Now()), s, v)
      ensures ok ==> Valid() && Put(old(Now()), Now(), s, v, [m], {})
      ensures ok ==> m.data == page && m.flags == FlagsOf(Entry(0, perm)) && m.frame in old(free)
    {
      hide Tree, Flat, FreeList, Put, Run, Entry, PageCount, Spent, Has, PathTo, Grown, Fits, IsMapped;
      m := Mapping(0, 0, page);
      ghost var p := Now();
      var g := Kalloc();
      if g.None? { return false, m; }
      Fill(g.value, page);
      ghost var q := Now();
      OnePage(v);
      RunMore(g.value, 0);
      ghost var maps;
      ok, maps := Mappages(s, v * PGSIZE, PGSIZE, g.value, perm);
      if !ok {
        OneShort(p, q, s, v);
        return false, m;
      }
      OneGrown(p, q, Now(), s, v);
      m := maps[0];
      assert maps == [m] && Run(g.value, |maps|) == {g.value};
      AllocView(old(Now()), q, Now(), g.value, page, s, v, m);
    }

    /** Grow from oldsz to newsz bytes. None is a panic: out of memory, or a page of the range is already mapped. */
    method Allocuvm(s: nat, oldsz: nat, newsz: nat) returns (r: Option<nat>, ghost maps: seq<Mapping>)
      requires Valid() && Node(s, 0, 0) in at && (newsz < KERNBASE ==> newsz <= USERTOP)
      modifies `mem, `freelist, `free, `at
      ensures newsz >= KERNBASE ==> r == Some(0) && unchanged(this)
      ensures newsz < oldsz && newsz < KERNBASE ==> r == Some(oldsz) && unchanged(this)
      ensures oldsz <= newsz < KERNBASE && r.Some? ==>
                && r.value == newsz && Valid() && |maps| == Pages(newsz) - Pages(oldsz)
                && Put(old(Now()), Now(), s, Pages(oldsz), maps, {}) && NewPages(maps, old(free))
      ensures oldsz <= newsz < KERNBASE ==>
                (r.Some? <==> Fits(old(Now()), s, Pages(oldsz), MorePages(oldsz, newsz), MorePages(oldsz, newsz)))
    {
      hide Valid, Tree, Flat, FreeList, Put, NewPages, Pages, Grown, Fits;
      maps := [];
      if newsz >= KERNBASE { return Some(0), maps; }
      if newsz < oldsz { return Some(oldsz), maps; }
      ValidTree();
      ghost var n := MorePages(oldsz, newsz);
      PutNothing(Now(), s, Pages(oldsz));
      GrownStart(Now(), s, Pages(oldsz));
      assert NewPages([], free) by { NoPages(free); }
      var a := Pages(oldsz);
      PageLoop(a, newsz);
      PagesMonotone(oldsz, newsz);
      while a * PGSIZE < newsz
        invariant a == Pages(oldsz) + |maps| <= Pages(newsz) && Valid()
        invariant a * PGSIZE < newsz <==> a < Pages(newsz)
        invariant Put(old(Now()), Now(), s, Pages(oldsz), maps, {}) && NewPages(maps, old(free))
        invariant Grown(old(Now()), Now(), s, Pages(oldsz), |maps|, |maps|)
        decreases Pages(newsz) - a
      {
        var ok;
        ok, maps := AllocNext(old(Now()), maps, s, Pages(oldsz), n, a);
        if !ok { return None, maps; }
        a := a + 1;
        PageLoop(a, newsz);
      }
      GrownFits(old(Now()), Now(), s, Pages(oldsz), |maps|, |maps|);
      return Some(newsz), maps;
    }

    /** One turn of the loop of allocuvm, after the pages of `maps`. */
    method AllocNext(ghost p: Phys, ghost maps: seq<Mapping>, s: nat, ghost from: nat, ghost n: nat, a: nat)
      returns (ok: bool, ghost maps': seq<Mapping>)
      requires Valid() && Put(p, Now(), s, from, maps, {}) && Node(s, 0, 0) in p.at && NewPages(maps, p.free)
               && a == from + |maps| < VPNS
      requires Grown(p, Now(), s, from, |maps|, |maps|) && |maps| < n
      modifies `mem, `freelist, `free, `at
      ensures !ok ==> !Fits(p, s, from, n, n)
      ensures ok ==> Grown(p, Now(), s, from, |maps| + 1, |maps| + 1)
      ensures ok ==> Valid() && |maps'| == |maps| + 1 && Put(p, Now(), s, from, maps', {}) && NewPages(maps', p.free)
    {
      hide Tree, Flat, FreeList, Put, Pool, Grown, Fits, Spent, Short, Has, PathTo, IsMapped;
      ghost var q := Now();
      PutAt(p, q, s, from, maps, {}, a);
      ghost var m;
      ok, m := AddPage(s, a, Zeros(), PTE_W + PTE_U);
      maps' := maps;
      if !ok { GrownFails(p, q, s, from, |maps|, |maps|, 1, n, n); }
      if ok {
        GrownStep(p, q, Now(), s, from, |maps|, |maps|, 1);
        assert m.frame in Elems(q.free);
        PutTrans(p, q, Now(), s, from, maps, {}, m, {});
        var none: set<nat> := {};
        assert none + none == none;
        maps' := maps + [m];
      }
    }

    /** One turn of the loop of deallocuvm. No panic: the frame of a mapped page is in the managed range. */
    method UnmapOne(s: nat, v: nat)
      requires Valid() && Node(s, 0, 0) in at && v < VPNS
      modifies `mem, `freelist, `free, `at
      ensures Valid() && Removed(old(Now()), Now(), s, v, v + 1)
    {
      hide Tree, Flat, FreeList, Kept, EntryOk, Removed;
      var r := Walk(s, v, false);
      if !r.Found? { RemovedNothing(Now(), s, v); return; }
      LeafEntry(mem, at, s, v);
      var w := Load(r.frame, v % NENT);
      if !Present(w) { RemovedNothing(Now(), s, v); return; }
      TreeFrame(mem, at, Node(s, LEAF, v));
      assert FrameOf(w) != 0;
      ghost var p := Now();
      LeafApart(mem, at, s, v);
      var ok := Kfree(FrameOf(w));
      assert ok;
      UnmapView(p, mem[FrameOf(w)], s, v);
      ghost var mem' := mem[r.frame := mem[r.frame][v % NENT := 0]];
      PokeFree(mem, mem', lo, freelist, free);
      mem := mem[r.frame := mem[r.frame][v % NENT := 0]];
      at := at - {Node(s, LEAF, v)};
      RemovedFacts(p, Now(), s, v, v + 1);
    }

    /** Shrink from oldsz to newsz bytes: the pages of the range that are mapped are freed, and only those. */
    method Deallocuvm(s: nat, oldsz: nat, newsz: nat) returns (r: nat)
      requires Valid() && Node(s, 0, 0) in at && oldsz <= USERTOP
      modifies `mem, `freelist, `free, `at
      ensures newsz >= oldsz ==> r == oldsz && unchanged(this)
      ensures newsz < oldsz ==> r == newsz && Valid() && Removed(old(Now()), Now(), s, Pages(newsz), Pages(oldsz))
    {
      if newsz >= oldsz { return oldsz; }
      hide Tree, Flat, FreeList, Removed, Pages;
      var a := Pages(newsz);
      RemovedStart(Now(), s, a);
      PageLoop(a, oldsz);
      PagesMonotone(newsz, oldsz);
      while a * PGSIZE < oldsz
        invariant Pages(newsz) <= a <= Pages(oldsz) && Valid() && Removed(old(Now()), Now(), s, Pages(newsz), a)
        invariant a * PGSIZE < oldsz <==> a < Pages(oldsz)
        decreases Pages(oldsz) - a
      {
        ghost var q := Now();
        RemovedFacts(old(Now()), q, s, Pages(newsz), a);
        PageLoop(a, oldsz);
        UnmapOne(s, a);
        RemovedTrans(old(Now()), q, Now(), s, Pages(newsz), a);
        a := a + 1;
        PageLoop(a, oldsz);
      }
      return newsz;
    }

    // -------------------------------------------------------------- whole address spaces

    /** An address space with the kernel half only; None is the panic of kalloc. */
    method Setupkvm(kpdpt: nat) returns (r: Option<nat>)
      requires Valid()
      modifies `mem, `freelist, `free, `at
      ensures r.None? <==> old(free) == []
      ensures r.Some? ==> Valid() && Spawned(old(Now()), Now(), r.value) && |old(free)| == |free| + 1
      ensures r.Some? ==> at == old(at)[Node(r.value, 0, 0) := r.value]
      ensures r.Some? ==> r.value < |mem| && forall c {:trigger mem[r.value][c]} :: 0 <= c < 512 ==>
                mem[r.value][c] == if c == 256 then kpdpt * 4096 + 3 else 0
      ensures r.Some? ==> forall n {:trigger n in old(at)} :: n in old(at) ==> n.space != r.value
    {
      hide Tree, Flat, FreeList;
      var g := Kalloc();
      if g.None? { return None; }
      var page := Zeros()[NENT / 2 := Entry(kpdpt, PTE_W)];
      Fill(g.value, page);
      NewSpace(mem, at, g.value);
      forall n | n in at ensures n.space != g.value { RootIn(mem, at, n); }
      FramesAdd(at, Node(g.value, 0, 0), g.value);
      ElemsPush(free, g.value);
      assert old(free)[0] == g.value;
      assert forall v: nat :: Flat(old(mem), old(at), g.value, v) == Flat(mem, at, g.value, v);
      at := at[Node(g.value, 0, 0) := g.value];
      return g;
    }

    /** Copy the pages of s below sz, page 0 apart, into a new address space. None is a panic: out of memory, or
        a page of the range is not mapped. */
    method Copyuvm(s: nat, sz: nat, kpdpt: nat) returns (r: Option<nat>, ghost spawned: Phys, ghost maps: seq<Mapping>)
      requires Valid() && Node(s, 0, 0) in at && sz < 0x1_0000_0000
      modifies `mem, `freelist, `free, `at
      ensures r.Some? <==> && AllMapped(old(Now()), s, 1, MorePages(PGSIZE, sz))
                           && |old(free)| >= 1 + MorePages(PGSIZE, sz) + TableCount(1, MorePages(PGSIZE, sz))
      ensures r.Some? ==> Valid() && Spawned(old(Now()), spawned, r.value) && Put(spawned, Now(), r.value, 1, maps, {})
      ensures r.Some? ==> Copies(old(Now()), s, maps) && |maps| == if Pages(sz) == 0 then 0 else Pages(sz) - 1
    {
      hide Tree, Flat, FreeList, Put, Spawned, Pages, Grown, Fits, TableCount, AllMapped;
      maps, spawned := [], Now();
      ghost var n := MorePages(PGSIZE, sz);
      OneIsPage(sz);
      var d := Setupkvm(kpdpt);
      if d.None? { return None, spawned, maps; }
      spawned := Now();
      PutNothing(Now(), d.value, 1);
      GrownStart(Now(), d.value, 1);
      NewSpaceCost(old(Now()), spawned, d.value, 1, n, n);
      assert AllMapped(old(Now()), s, 1, 0) by { NoneMapped(old(Now()), s); }
      var i := 1;
      while i * PGSIZE < sz
        invariant i == 1 + |maps| && (if Pages(sz) > 0 then i <= Pages(sz) else i == 1) && Valid()
        invariant Put(spawned, Now(), d.value, 1, maps, {}) && Copies(old(Now()), s, maps)
        invariant Grown(spawned, Now(), d.value, 1, |maps|, |maps|) && AllMapped(old(Now()), s, 1, |maps|)
        decreases Pages(sz) - i
      {
        PageLoop(i, sz);
        var ok;
        ok, maps := CopyNext(old(Now()), spawned, maps, s, d.value, n, i);
        if !ok { return None, spawned, maps; }
        i := i + 1;
      }
      PageLoop(i, sz);
      PageLoop(0, sz);
      GrownFits(spawned, Now(), d.value, 1, |maps|, |maps|);
      return d, spawned, maps;
    }

    /** One turn of the loop of copyuvm. */
    method CopyNext(ghost p: Phys, ghost q: Phys, ghost maps: seq<Mapping>, s: nat, d: nat, ghost n: nat, i: nat)
      returns (ok: bool, ghost maps': seq<Mapping>)
      requires Valid() && Spawned(p, q, d) && Put(q, Now(), d, 1, maps, {}) && Copies(p, s, maps)
      requires Node(s, 0, 0) in p.at && i == 1 + |maps| < VPNS
      requires Grown(q, Now(), d, 1, |maps|, |maps|) && AllMapped(p, s, 1, |maps|) && |maps| < n
      modifies `mem, `freelist, `free, `at
      ensures !ok ==> !Fits(q, d, 1, n, n) || !AllMapped(p, s, 1, n)
      ensures ok ==> Grown(q, Now(), d, 1, |maps| + 1, |maps| + 1) && AllMapped(p, s, 1, |maps| + 1)
      ensures ok ==> Valid() && |maps'| == |maps| + 1 && Put(q, Now(), d, 1, maps', {}) && Copies(p, s, maps')
    {
      hide Tree, Flat, FreeList, Put, Spawned, Kept, EntryOk, Entry, Grown, Fits, Spent, Short, Has, PathTo, IsMapped,
           AllMapped, Copies;
      maps' := maps;
      ghost var t := Now();
      CopyFacts(p, q, t, s, d, i, maps);
      var r := Walk(s, i, false);
      FlatIn(mem, at, s, i);
      MappedNext(p, s, |maps|, n);
      if !r.Found? { return false, maps'; }
      LeafEntry(mem, at, s, i);
      var w := Load(r.frame, i % NENT);
      if !Present(w) { return false, maps'; }
      TreeFrame(mem, at, Node(s, LEAF, i));
      LeafData(mem, at, s, i);
      FlagsKept(w);
      ghost var m;
      ok, m := AddPage(d, i, mem[FrameOf(w)], FlagsOf(w));
      if !ok { GrownFails(q, t, d, 1, |maps|, |maps|, 1, n, n); }
      if ok {
        GrownStep(q, t, Now(), d, 1, |maps|, |maps|, 1);
        assert m.frame in Elems(t.free);
        PutTrans(q, t, Now(), d, 1, maps, {}, m, {});
        CopiesMore(p, s, maps, m);
        var none: set<nat> := {};
        assert none + none == none;
        maps' := maps + [m];
      }
    }

    /** The nested loops of freevm, one level per call: free everything under table n, then n itself. Tables are
        read with Load, so no page is read once it is free. */
    method FreeTree(ghost p: Phys, ghost gone: set<Node>, ghost n: Node, f: nat, level: nat)
      requires Freeing(p, mem, lo, freelist, free, gone) && Tree(p.mem, p.at)
               && (forall m {:trigger p.at[m]} :: m in p.at ==> lo <= p.at[m])
      requires n in p.at && f == p.at[n] && level == n.level < LEAF && gone !! Subtree(p.at, n)
      modifies `mem, `freelist, `free
      ensures Freeing(p, mem, lo, freelist, free, gone + Subtree(p.at, n))
      decreases LEAF - level
    {
      hide Tree, Freeing;
      var c := 0;
      PartStep(p.mem, p.at, n, 0);
      PartWhole(p.mem, p.at, n);
      assert gone + Part(p.at, n, 0) == gone;
      hide Part, Subtree;
      while c < Width(level)
        invariant 0 <= c <= Width(level) && Freeing(p, mem, lo, freelist, free, gone + Part(p.at, n, c))
      {
        PartStep(p.mem, p.at, n, c);
        PartApart(p.mem, p.at, gone, n, c);
        FreeChild(p, gone + Part(p.at, n, c), n, f, level, c);
        assert gone + Part(p.at, n, c) + Subtree(p.at, Child(n, c)) == gone + Part(p.at, n, c + 1);
        c := c + 1;
      }
      PartApart(p.mem, p.at, gone, n, c);
      FreeNode(p, gone + Part(p.at, n, Width(level)), n, f);
      assert gone + Part(p.at, n, Width(level)) + {n} == gone + Subtree(p.at, n);
    }

    /** Push the page of n. */
    method FreeNode(ghost p: Phys, ghost gone: set<Node>, ghost n: Node, f: nat)
      requires Freeing(p, mem, lo, freelist, free, gone) && Tree(p.mem, p.at) && n in p.at && f == p.at[n] >= lo
               && n !in gone
      modifies `mem, `freelist, `free
      ensures Freeing(p, mem, lo, freelist, free, gone + {n})
    {
      hide Tree, FreeList;
      ghost var m, h, fr := mem, freelist, free;
      var ok := Kfree(f);
      assert ok;
      FreeingStep(p, m, lo, h, fr, gone, n, mem, freelist);
    }

    /** One turn of a loop of freevm. */
    method FreeChild(ghost p: Phys, ghost gone: set<Node>, ghost n: Node, f: nat, level: nat, c: nat)
      requires Freeing(p, mem, lo, freelist, free, gone) && Tree(p.mem, p.at)
               && (forall m {:trigger p.at[m]} :: m in p.at ==> lo <= p.at[m])
      requires n in p.at && f == p.at[n] && level == n.level < LEAF && n !in gone && c < Width(level)
               && gone !! Subtree(p.at, Child(n, c))
      modifies `mem, `freelist, `free
      ensures Freeing(p, mem, lo, freelist, free, gone + Subtree(p.at, Child(n, c)))
      decreases LEAF - level, 0
    {
      hide Tree, Subtree, FreeList;
      TreeEntry(p.mem, p.at, n, c);
      PartStep(p.mem, p.at, n, c);
      assert p.at[n] !in free && mem[f] == p.mem[f];
      hide Freeing;
      var w := Load(f, c);
      if Present(w) {
        if level == LEAF - 1 {
          LeafSubtree(p.mem, p.at, Child(n, c));
          FreeNode(p, gone, Child(n, c), FrameOf(w));
        } else {
          FreeTree(p, gone, Child(n, c), FrameOf(w), level + 1);
        }
      } else {
        assert gone + Subtree(p.at, Child(n, c)) == gone;
      }
    }

    /** Every page of the address space, tables and user pages, goes back to the free list once; other address
        spaces are as they were. */
    method Freevm(s: nat)
      requires Valid() && Node(s, 0, 0) in at
      modifies `mem, `freelist, `free, `at
      ensures Valid() && (forall n {:trigger n in at} :: n in at <==> n in old(at) && n.space != s)
      ensures forall s': nat, v: nat {:trigger Flat(mem, at, s', v)} ::
                Flat(mem, at, s', v) == if s' == s then None else Flat(old(mem), old(at), s', v)
      ensures Elems(free) == Elems(old(free)) + set n | n in old(at) && n.space == s :: old(at)[n]
      ensures Pool(Now()) == Pool(old(Now())) && Others(old(Now()), Now())
    {
      hide Tree, Flat, FreeList;
      ghost var p := Now();
      assert Image(at, {}) == {};
      AncestorsIn(mem, at, s, 0, 0, 0, 0);
      assert Freeing(p, mem, lo, freelist, free, {}) by { FreeingStart(p, lo, freelist); }
      FreeTree(p, {}, Node(s, 0, 0), s, 0);
      RootSubtree(p.mem, p.at, s);
      FreedView(p, mem, lo, freelist, free, s);
      at := map n | n in at && n.space != s :: at[n];
    }
  }
}
