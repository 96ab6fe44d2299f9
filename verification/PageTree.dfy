/** Physical pages, the page-table trees that vm.c keeps in them, and the free list of kalloc.c, as values.

    A node of an address space is a page at some level: 0 is the PML4, 1 to 3 are the lower tables and 4 is
    a page of user memory, whose id is its virtual page number. The ghost map `at` says which frame each
    node of each address space (named by the frame of its PML4) occupies. */
module PageTree {
  import opened Prelude
  const NENT := 512
  const LEAF := 4
  const PGSIZE := 4096
  const KERNBASE := 0xFFFF_8000_0000_0000
  const PTE_P := 1
  const PTE_W := 2
  const PTE_U := 4

  type Page = p: seq<nat> | |p| == NENT witness seq(NENT, _ => 0)

  datatype Node = Node(space: nat, level: nat, id: nat)

  function Zeros(): (p: Page)
    ensures forall i {:trigger p[i]} :: 0 <= i < NENT ==> p[i] == 0
  {
    seq(NENT, _ => 0)
  }

  // ---------------------------------------------------------------- entries

  predicate Present(w: nat) {
    w % 2 == 1
  }

  function FrameOf(w: nat): nat {
    w / PGSIZE
  }

  function FlagsOf(w: nat): (fl: nat)
    ensures fl < PGSIZE
  {
    w % PGSIZE
  }

  /** pa | perm | PTE_P for a page-aligned pa. */
  function Entry(f: nat, perm: nat): (w: nat)
    requires perm < PGSIZE
    ensures Present(w) && FrameOf(w) == f && FlagsOf(w) == if Present(perm) then perm else perm + 1
  {
    var fl := if Present(perm) then perm else perm + 1;
    Packed(f, fl);
    f * PGSIZE + fl
  }

  lemma Packed(f: nat, fl: nat)
    requires fl < PGSIZE
    ensures (f * PGSIZE + fl) / PGSIZE == f && (f * PGSIZE + fl) % PGSIZE == fl && (f * PGSIZE + fl) % 2 == fl % 2
  {
    Quotient(f * PGSIZE + fl, f, fl);
    Parity(f * (PGSIZE / 2), fl);
  }

  lemma Quotient(w: nat, f: nat, fl: nat)
    requires fl < PGSIZE && w == f * PGSIZE + fl
    ensures w / PGSIZE == f && w % PGSIZE == fl
  {
  }

  lemma Parity(h: nat, fl: nat)
    ensures (2 * h + fl) % 2 == fl % 2
  {
  }

  // ---------------------------------------------------------------- nodes

  function Child(n: Node, c: nat): Node {
    Node(n.space, n.level + 1, n.id * NENT + c)
  }

  function Parent(n: Node): Node
    requires n.level > 0
  {
    Node(n.space, n.level - 1, n.id / NENT)
  }

  function Slot(n: Node): (c: nat)
    ensures c < NENT
  {
    n.id % NENT
  }

  /** The user half of the PML4, all of a lower table. */
  function Width(level: nat): (w: nat)
    ensures w <= NENT
  {
    if level == 0 then NENT / 2 else NENT
  }

  lemma ChildOf(n: Node, c: nat)
    requires c < NENT
    ensures Parent(Child(n, c)) == n && Slot(Child(n, c)) == c
  {
  }

  lemma ParentOf(n: Node)
    requires n.level > 0
    ensures Child(Parent(n), Slot(n)) == n
  {
  }

  // ---------------------------------------------------------------- the invariant

  /** Entry c of table n is present exactly when `at` has that child, and then names its frame. The entry of a table is
      writable and for the user, so that what may be done with a page is what its own entry says. */
  ghost predicate EntryOk(mem: seq<Page>, at: map<Node, nat>, n: Node, c: nat)
    requires n in at && at[n] < |mem| && c < NENT
  {
    var w := mem[at[n]][c];
    && (Present(w) <==> Child(n, c) in at) && (Present(w) ==> FrameOf(w) == at[Child(n, c)])
    && (Present(w) && n.level + 1 < LEAF ==> FlagsOf(w) == 7)
  }

  ghost predicate NodeOk(at: map<Node, nat>, n: Node) {
    && n.level <= LEAF
    && (n.level == 0 ==> n.id == 0 && n in at && at[n] == n.space)
    && (n.level > 0 ==> Parent(n) in at && Slot(n) < Width(n.level - 1))
  }

  ghost predicate Tree(mem: seq<Page>, at: map<Node, nat>) {
    && (forall n {:trigger n in at} {:trigger at[n]} :: n in at ==> 0 < at[n] < |mem| && NodeOk(at, n))
    && (forall m, n {:trigger at[m], at[n]} :: m in at && n in at && at[m] == at[n] ==> m == n)
    && (forall n, c {:trigger EntryOk(mem, at, n, c)} :: n in at && n.level < LEAF && 0 <= c < Width(n.level) ==>
         EntryOk(mem, at, n, c))
  }

  // ---------------------------------------------------------------- the flat view


  /** A user page: its frame, the flags of its entry and its contents. */
  datatype Mapping = Mapping(frame: nat, flags: nat, data: Page)

  /** What address space s has at virtual page vpn. */
  ghost function Flat(mem: seq<Page>, at: map<Node, nat>, s: nat, vpn: nat): (r: Option<Mapping>)
    requires Tree(mem, at)
  {
    var n := Node(s, LEAF, vpn);
    if n in at then assert NodeOk(at, n); Some(Mapping(at[n], FlagsOf(mem[at[Parent(n)]][Slot(n)]), mem[at[n]]))
    else None
  }

  /** Two user pages, of one address space or of two, never share a frame. */
  lemma PagesDisjoint(mem: seq<Page>, at: map<Node, nat>, s: nat, v: nat, s': nat, v': nat)
    requires Tree(mem, at) && Flat(mem, at, s, v).Some? && Flat(mem, at, s', v').Some? && (s != s' || v != v')
    ensures Flat(mem, at, s, v).value.frame != Flat(mem, at, s', v').value.frame
  {
    var n, n' := Node(s, LEAF, v), Node(s', LEAF, v');
    assert at[n] == at[n'] ==> n == n';
  }

  /** The page that the memory management unit finds, following present entries from the PML4. */
  ghost function Translate(mem: seq<Page>, s: nat, level: nat, id: nat): (f: Option<nat>)
    decreases level
  {
    if level == 0 then Some(s)
    else
      var p := Translate(mem, s, level - 1, id / NENT);
      if p.Some? && p.value < |mem| && Present(mem[p.value][id % NENT]) then Some(FrameOf(mem[p.value][id % NENT]))
      else None
  }

  function Limit(level: nat): (m: nat) {
    if level == 0 then 1 else if level == 1 then 256 else NENT * Limit(level - 1)
  }

  /** The tree in memory and the ghost map agree: translation of any address below 2^47 is the flat view. */
  lemma {:induction false} TranslateIsFlat(mem: seq<Page>, at: map<Node, nat>, s: nat, level: nat, id: nat)
    requires Tree(mem, at) && Node(s, 0, 0) in at && level <= LEAF && id < Limit(level)
    ensures Translate(mem, s, level, id) == if Node(s, level, id) in at then Some(at[Node(s, level, id)]) else None
    ensures var n := Node(s, level, id);
            0 < level < LEAF && n in at ==>
              Parent(n) in at && at[Parent(n)] < |mem| && FlagsOf(mem[at[Parent(n)]][Slot(n)]) == 7
    decreases level
  {
    var n := Node(s, level, id);
    if level > 0 {
      assert id / NENT < Limit(level - 1) && id % NENT < Width(level - 1);
      TranslateIsFlat(mem, at, s, level - 1, id / NENT);
      ParentOf(n);
      if Parent(n) in at { assert EntryOk(mem, at, Parent(n), Slot(n)); }
    } else {
      assert NodeOk(at, n);
    }
  }

  // ---------------------------------------------------------------- changing the tree

  /** Frames that no node occupies can change freely. */
  lemma Unowned(mem: seq<Page>, mem': seq<Page>, at: map<Node, nat>)
    requires Tree(mem, at) && |mem'| == |mem|
    requires forall n {:trigger at[n]} :: n in at ==> mem'[at[n]] == mem[at[n]]
    ensures Tree(mem', at) && forall s: nat, vpn: nat :: Flat(mem', at, s, vpn) == Flat(mem, at, s, vpn)
  {
    SameTables(mem, mem', at);
    forall s: nat, vpn: nat ensures Flat(mem', at, s, vpn) == Flat(mem, at, s, vpn) {
      var n := Node(s, LEAF, vpn);
      if n in at { assert NodeOk(at, n) && mem'[at[n]] == mem[at[n]] && mem'[at[Parent(n)]] == mem[at[Parent(n)]]; }
    }
  }

  /** The tree is in the table pages. */
  lemma SameTables(mem: seq<Page>, mem': seq<Page>, at: map<Node, nat>)
    requires Tree(mem, at) && |mem'| == |mem|
    requires forall n {:trigger at[n]} :: n in at && n.level < LEAF ==> mem'[at[n]] == mem[at[n]]
    ensures Tree(mem', at)
  {
    forall n, c | n in at && n.level < LEAF && 0 <= c < Width(n.level) ensures EntryOk(mem', at, n, c) {
      assert EntryOk(mem, at, n, c);
    }
  }

  /** Write entry c of table n. */
  ghost function SetEntry(mem: seq<Page>, at: map<Node, nat>, n: Node, c: nat, w: nat): (r: seq<Page>)
    requires Tree(mem, at) && n in at && c < NENT
  {
    mem[at[n] := mem[at[n]][c := w]]
  }

  /** Linking a frame that no node occupies as child c of n. */
  lemma Attach(mem: seq<Page>, at: map<Node, nat>, n: Node, c: nat, f: nat, perm: nat)
    requires Tree(mem, at) && n in at && n.level < LEAF && c < Width(n.level) && Child(n, c) !in at && perm < PGSIZE
    requires 0 < f < |mem| && (forall m {:trigger at[m]} :: m in at ==> at[m] != f)
             && (n.level + 1 < LEAF ==> mem[f] == Zeros() && perm == PTE_W + PTE_U)
    ensures Tree(SetEntry(mem, at, n, c, Entry(f, perm)), at[Child(n, c) := f])
  {
    var mem', at' := SetEntry(mem, at, n, c, Entry(f, perm)), at[Child(n, c) := f];
    ChildOf(n, c);
    forall m | m in at' ensures 0 < at'[m] < |mem'| && NodeOk(at', m) {
      if m != Child(n, c) { assert NodeOk(at, m); }
    }
    forall m, d | m in at' && m.level < LEAF && 0 <= d < Width(m.level) ensures EntryOk(mem', at', m, d) {
      AttachEntry(mem, at, n, c, f, perm, m, d);
    }
  }

  lemma AttachEntry(mem: seq<Page>, at: map<Node, nat>, n: Node, c: nat, f: nat, perm: nat, m: Node, d: nat)
    requires Tree(mem, at) && n in at && n.level < LEAF && c < Width(n.level) && Child(n, c) !in at && perm < PGSIZE
    requires 0 < f < |mem| && (forall m {:trigger at[m]} :: m in at ==> at[m] != f)
             && (n.level + 1 < LEAF ==> mem[f] == Zeros() && perm == PTE_W + PTE_U)
    requires m in at[Child(n, c) := f] && m.level < LEAF && d < Width(m.level)
    ensures EntryOk(SetEntry(mem, at, n, c, Entry(f, perm)), at[Child(n, c) := f], m, d)
  {
    ChildOf(n, c);
    ChildOf(m, d);
    if m == Child(n, c) {
      assert Child(m, d) !in at by { assert Child(m, d) in at ==> NodeOk(at, Child(m, d)); }
    } else {
      assert EntryOk(mem, at, m, d);
    }
  }

  /** The flat view after linking: a new page if the child is a leaf, nothing otherwise. */
  lemma AttachFlat(mem: seq<Page>, at: map<Node, nat>, n: Node, c: nat, f: nat, perm: nat, s: nat, vpn: nat)
    requires Tree(mem, at) && n in at && n.level < LEAF && c < Width(n.level) && Child(n, c) !in at && perm < PGSIZE
    requires 0 < f < |mem| && (forall m {:trigger at[m]} :: m in at ==> at[m] != f)
             && (n.level + 1 < LEAF ==> mem[f] == Zeros() && perm == PTE_W + PTE_U)
    requires Tree(SetEntry(mem, at, n, c, Entry(f, perm)), at[Child(n, c) := f])
    ensures Flat(SetEntry(mem, at, n, c, Entry(f, perm)), at[Child(n, c) := f], s, vpn) ==
            if Node(s, LEAF, vpn) == Child(n, c) then Some(Mapping(f, FlagsOf(Entry(f, perm)), mem[f]))
            else Flat(mem, at, s, vpn)
  {
    var m := Node(s, LEAF, vpn);
    ChildOf(n, c);
    ParentOf(m);
    if m in at { assert NodeOk(at, m) && at[m] != at[n] && at[Parent(m)] != f; }
  }

  ghost predicate Attached(mem: seq<Page>, at: map<Node, nat>, mem': seq<Page>, at': map<Node, nat>, leaf: Node,
                           m: Mapping)
    requires Tree(mem, at) && Tree(mem', at')
  {
    forall s: nat, vpn: nat {:trigger Flat(mem', at', s, vpn)} ::
      Flat(mem', at', s, vpn) == if Node(s, LEAF, vpn) == leaf then Some(m) else Flat(mem, at, s, vpn)
  }

  lemma AttachView(mem: seq<Page>, at: map<Node, nat>, n: Node, c: nat, f: nat, perm: nat)
    requires Tree(mem, at) && n in at && n.level < LEAF && c < Width(n.level) && Child(n, c) !in at && perm < PGSIZE
    requires 0 < f < |mem| && (forall m {:trigger at[m]} :: m in at ==> at[m] != f)
             && (n.level + 1 < LEAF ==> mem[f] == Zeros() && perm == PTE_W + PTE_U)
    ensures var mem', at' := SetEntry(mem, at, n, c, Entry(f, perm)), at[Child(n, c) := f];
            && Tree(mem', at')
            && Attached(mem, at, mem', at', Child(n, c), Mapping(f, FlagsOf(Entry(f, perm)), mem[f]))
  {
    hide Tree, Flat, SetEntry, Entry;
    Attach(mem, at, n, c, f, perm);
    var mem', at' := SetEntry(mem, at, n, c, Entry(f, perm)), at[Child(n, c) := f];
    forall s: nat, vpn: nat ensures Flat(mem', at', s, vpn) ==
        if Node(s, LEAF, vpn) == Child(n, c) then Some(Mapping(f, FlagsOf(Entry(f, perm)), mem[f]))
        else Flat(mem, at, s, vpn)
    {
      AttachFlat(mem, at, n, c, f, perm, s, vpn);
    }
  }

  /** Clearing the entry of a leaf. */
  lemma Detach(mem: seq<Page>, at: map<Node, nat>, n: Node)
    requires Tree(mem, at) && n in at && n.level == LEAF
    ensures Parent(n) in at && Tree(SetEntry(mem, at, Parent(n), Slot(n), 0), at - {n})
  {
    assert NodeOk(at, n);
    var mem', at' := SetEntry(mem, at, Parent(n), Slot(n), 0), at - {n};
    forall m | m in at' ensures 0 < at'[m] < |mem'| && NodeOk(at', m) { assert m in at && NodeOk(at, m); }
    hide SetEntry, NodeOk;
    forall m, d | m in at' && m.level < LEAF && 0 <= d < Width(m.level) ensures EntryOk(mem', at', m, d) {
      DetachEntry(mem, at, n, m, d);
    }
  }

  lemma DetachEntry(mem: seq<Page>, at: map<Node, nat>, n: Node, m: Node, d: nat)
    requires Tree(mem, at) && n in at && n.level == LEAF && Parent(n) in at
    requires m in at && m.level < LEAF && d < Width(m.level)
    ensures EntryOk(SetEntry(mem, at, Parent(n), Slot(n), 0), at - {n}, m, d)
  {
    assert EntryOk(mem, at, m, d) && NodeOk(at, m) && NodeOk(at, n);
    ChildOf(m, d);
    ParentOf(n);
    assert m != Parent(n) ==> at[m] != at[Parent(n)];
  }

  lemma DetachFlat(mem: seq<Page>, at: map<Node, nat>, n: Node, s: nat, vpn: nat)
    requires Tree(mem, at) && n in at && n.level == LEAF
    requires Parent(n) in at && Tree(SetEntry(mem, at, Parent(n), Slot(n), 0), at - {n})
    ensures Flat(SetEntry(mem, at, Parent(n), Slot(n), 0), at - {n}, s, vpn) ==
            if Node(s, LEAF, vpn) == n then None else Flat(mem, at, s, vpn)
  {
    var m := Node(s, LEAF, vpn);
    ParentOf(n);
    ParentOf(m);
    if m in at { assert NodeOk(at, m) && at[m] != at[Parent(n)]; }
  }

  // ---------------------------------------------------------------- a new address space

  /** Every node belongs to a space whose PML4 is there. */
  lemma {:induction false} RootIn(mem: seq<Page>, at: map<Node, nat>, n: Node)
    requires Tree(mem, at) && n in at
    ensures Node(n.space, 0, 0) in at && at[Node(n.space, 0, 0)] == n.space
    decreases n.level
  {
    assert NodeOk(at, n);
    if n.level > 0 { RootIn(mem, at, Parent(n)); }
  }

  /** A page whose user half is empty is the root of an empty space. */
  lemma NewSpace(mem: seq<Page>, at: map<Node, nat>, g: nat)
    requires Tree(mem, at) && 0 < g < |mem| && (forall m {:trigger at[m]} :: m in at ==> at[m] != g)
    requires forall c {:trigger mem[g][c]} :: 0 <= c < Width(0) ==> mem[g][c] == 0
    ensures Node(g, 0, 0) !in at && Tree(mem, at[Node(g, 0, 0) := g])
    ensures forall s: nat, v: nat {:trigger Flat(mem, at[Node(g, 0, 0) := g], s, v)} ::
              Flat(mem, at[Node(g, 0, 0) := g], s, v) == Flat(mem, at, s, v)
    ensures forall v: nat :: Flat(mem, at, g, v) == None
  {
    var at' := at[Node(g, 0, 0) := g];
    forall n | n in at ensures n.space != g { RootIn(mem, at, n); }
    forall n | n in at' ensures 0 < at'[n] < |mem| && NodeOk(at', n) { assert n != Node(g, 0, 0) ==> NodeOk(at, n); }
    forall n, c | n in at' && n.level < LEAF && 0 <= c < Width(n.level) ensures EntryOk(mem, at', n, c) {
      if n != Node(g, 0, 0) { assert EntryOk(mem, at, n, c); }
    }
    forall s: nat, v: nat ensures Flat(mem, at', s, v) == Flat(mem, at, s, v) {
      assert Node(s, LEAF, v) in at ==> NodeOk(at, Node(s, LEAF, v));
    }
  }

  // ---------------------------------------------------------------- subtrees

  /** The ancestor of m at a level. */
  ghost function Anc(m: Node, level: nat): (a: Node)
    ensures m.level >= level ==> a.level == level
    ensures a.space == m.space
    decreases m.level
  {
    if m.level <= level then m else Anc(Parent(m), level)
  }

  ghost predicate Under(n: Node, m: Node) {
    m.level >= n.level && Anc(m, n.level) == n
  }

  lemma {:induction false} AncStep(m: Node, level: nat)
    requires m.level > level
    ensures Anc(m, level) == Parent(Anc(m, level + 1))
    decreases m.level
  {
    if m.level > level + 1 { AncStep(Parent(m), level); }
  }

  lemma {:induction false} AncIn(mem: seq<Page>, at: map<Node, nat>, m: Node, level: nat)
    requires Tree(mem, at) && m in at
    ensures Anc(m, level) in at
    decreases m.level
  {
    assert NodeOk(at, m);
    if m.level > level { AncIn(mem, at, Parent(m), level); }
  }

  ghost function Subtree(at: map<Node, nat>, n: Node): (r: set<Node>) {
    set m | m in at && Under(n, m)
  }

  /** The nodes under children 0..c of n. */
  ghost function Part(at: map<Node, nat>, n: Node, c: nat): (r: set<Node>) {
    set m | m in at && m.level > n.level && Under(n, m) && Slot(Anc(m, n.level + 1)) < c
  }

  lemma UnderChild(n: Node, c: nat, m: Node)
    requires c < NENT && m.level > n.level
    ensures Anc(m, n.level + 1) == Child(n, c) <==> Anc(m, n.level) == n && Slot(Anc(m, n.level + 1)) == c
  {
    var a := Anc(m, n.level + 1);
    assert a.level == n.level + 1;
    AncStep(m, n.level);
    hide *;
    IsChild(n, c, a);
  }

  lemma IsChild(n: Node, c: nat, a: Node)
    requires c < NENT && a.level == n.level + 1
    ensures a == Child(n, c) <==> Parent(a) == n && Slot(a) == c
    ensures Child(n, c).level == n.level + 1
  {
    ChildOf(n, c);
    ParentOf(a);
  }

  lemma PartStep(mem: seq<Page>, at: map<Node, nat>, n: Node, c: nat)
    requires Tree(mem, at) && n in at && c < NENT
    ensures Part(at, n, 0) == {}
    ensures Part(at, n, c + 1) == Part(at, n, c) + Subtree(at, Child(n, c))
    ensures Child(n, c) !in at ==> Subtree(at, Child(n, c)) == {}
    ensures forall m {:trigger m in Part(at, n, c)} :: m in Part(at, n, c) ==>
              m in at && m != n && !Under(Child(n, c), m)
  {
    hide Anc, Tree, Slot;
    assert Child(n, c).level == n.level + 1;
    hide Child;
    forall m | m in at && m.level > n.level
      ensures Under(Child(n, c), m) <==> Under(n, m) && Slot(Anc(m, n.level + 1)) == c
    {
      UnderChild(n, c, m);
    }
    forall m | m in at && Under(Child(n, c), m) ensures Child(n, c) in at { AncIn(mem, at, m, n.level + 1); }
  }

  lemma PartWhole(mem: seq<Page>, at: map<Node, nat>, n: Node)
    requires Tree(mem, at) && n in at
    ensures Subtree(at, n) == Part(at, n, Width(n.level)) + {n}
  {
    forall m | m in at && Under(n, m) && m != n
      ensures m.level > n.level && Slot(Anc(m, n.level + 1)) < Width(n.level)
    {
      AncIn(mem, at, m, n.level + 1);
      assert NodeOk(at, Anc(m, n.level + 1));
    }
    hide Anc, Slot, Tree;
  }

  lemma LeafSubtree(mem: seq<Page>, at: map<Node, nat>, n: Node)
    requires Tree(mem, at) && n in at && n.level == LEAF
    ensures Subtree(at, n) == {n}
  {
    forall m | m in at && Under(n, m) ensures m == n { assert NodeOk(at, m); }
  }

  lemma RootSubtree(mem: seq<Page>, at: map<Node, nat>, s: nat)
    requires Tree(mem, at)
    ensures Subtree(at, Node(s, 0, 0)) == set m | m in at && m.space == s
  {
    forall m | m in at && m.space == s ensures Under(Node(s, 0, 0), m) {
      AncIn(mem, at, m, 0);
      assert NodeOk(at, Anc(m, 0));
    }
  }
}
