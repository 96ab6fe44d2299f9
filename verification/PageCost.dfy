/** What an address range costs in frames: the tables that walkpgdir must add for it, one frame each. */
module PageCost {
  import opened PageTree

  /** Memory, the free list and the address spaces. */
  datatype Phys = Phys(mem: seq<Page>, free: seq<nat>, at: map<Node, nat>)

  /** The nodes that are tables. */
  ghost function TablesOf(at: map<Node, nat>): (r: set<Node>) {
    set n | n in at && n.level < LEAF
  }

  /** The tables between the root and page v. */
  ghost function PathTo(s: nat, v: nat): (r: set<Node>) {
    {Node(s, 1, v / NENT / NENT / NENT), Node(s, 2, v / NENT / NENT), Node(s, 3, v / NENT)}
  }

  /** Nodes lo, ..., hi of one level. */
  ghost function Span(s: nat, level: nat, lo: nat, hi: nat): (r: set<Node>)
    requires lo <= hi
    ensures |r| == hi - lo + 1
    ensures forall n {:trigger n in r} :: n in r <==> n.space == s && n.level == level && lo <= n.id <= hi
  {
    if lo == hi then {Node(s, level, lo)} else Span(s, level, lo, hi - 1) + {Node(s, level, hi)}
  }

  /** The tables between the root and pages first, ..., first + n - 1. */
  ghost function Tables(s: nat, first: nat, n: nat): (r: set<Node>) {
    if n == 0 then {} else Tables(s, first, n - 1) + PathTo(s, first + n - 1)
  }

  /** How many there are. */
  function TableCount(first: nat, n: nat): (k: nat) {
    if n == 0 then 0
    else
      var last := first + n - 1;
      IndexOrder(first, last);
      (last / NENT - first / NENT + 1) + (last / NENT / NENT - first / NENT / NENT + 1)
      + (last / NENT / NENT / NENT - first / NENT / NENT / NENT + 1)
  }

  lemma IndexOrder(a: nat, b: nat)
    requires a <= b
    ensures a / NENT <= b / NENT && a / NENT / NENT <= b / NENT / NENT
    ensures a / NENT / NENT / NENT <= b / NENT / NENT / NENT
  {
  }

  lemma NextIndex(v: nat)
    ensures (v + 1) / NENT == v / NENT || (v + 1) / NENT == v / NENT + 1
  {
  }

  /** A contiguous run of tables on each level. */
  ghost function Runs(s: nat, first: nat, last: nat): (r: set<Node>)
    requires first <= last
  {
    IndexOrder(first, last);
    Span(s, 3, first / NENT, last / NENT) + Span(s, 2, first / NENT / NENT, last / NENT / NENT)
    + Span(s, 1, first / NENT / NENT / NENT, last / NENT / NENT / NENT)
  }

  lemma SpanStep(s: nat, level: nat, lo: nat, hi: nat, next: nat)
    requires lo <= hi && (next == hi || next == hi + 1)
    ensures Span(s, level, lo, next) == Span(s, level, lo, hi) + {Node(s, level, next)}
  {
  }

  lemma RunsOne(s: nat, v: nat)
    ensures Runs(s, v, v) == PathTo(s, v)
  {
  }

  lemma RunsStep(s: nat, first: nat, last: nat)
    requires first <= last
    ensures Runs(s, first, last + 1) == Runs(s, first, last) + PathTo(s, last + 1)
  {
    hide Span;
    IndexOrder(first, last);
    NextIndex(last);
    NextIndex(last / NENT);
    NextIndex(last / NENT / NENT);
    SpanStep(s, 3, first / NENT, last / NENT, (last + 1) / NENT);
    SpanStep(s, 2, first / NENT / NENT, last / NENT / NENT, (last + 1) / NENT / NENT);
    SpanStep(s, 1, first / NENT / NENT / NENT, last / NENT / NENT / NENT, (last + 1) / NENT / NENT / NENT);
  }

  lemma {:induction false} TablesAre(s: nat, first: nat, n: nat)
    requires n > 0
    ensures Tables(s, first, n) == Runs(s, first, first + n - 1)
  {
    hide Runs, PathTo;
    if n == 1 {
      assert Tables(s, first, 0) == {};
      RunsOne(s, first);
    } else {
      TablesAre(s, first, n - 1);
      RunsStep(s, first, first + n - 2);
    }
  }

  lemma TablesCount(s: nat, first: nat, n: nat)
    ensures |Tables(s, first, n)| == TableCount(first, n)
  {
    hide Span, PathTo;
    if n > 0 {
      var last := first + n - 1;
      TablesAre(s, first, n);
      IndexOrder(first, last);
      CountSpans(s, first / NENT, last / NENT, first / NENT / NENT, last / NENT / NENT,
                 first / NENT / NENT / NENT, last / NENT / NENT / NENT);
    }
  }

  lemma CountSpans(s: nat, l3: nat, h3: nat, l2: nat, h2: nat, l1: nat, h1: nat)
    requires l3 <= h3 && l2 <= h2 && l1 <= h1
    ensures |Span(s, 3, l3, h3) + Span(s, 2, l2, h2) + Span(s, 1, l1, h1)|
            == (h3 - l3 + 1) + (h2 - l2 + 1) + (h1 - l1 + 1)
  {
    var a, b, c := Span(s, 3, l3, h3), Span(s, 2, l2, h2), Span(s, 1, l1, h1);
    assert a !! b && (a + b) !! c;
  }

  lemma {:induction false} TablesGrow(s: nat, first: nat, m: nat, n: nat)
    requires m <= n
    ensures Tables(s, first, m) <= Tables(s, first, n)
  {
    if m < n { TablesGrow(s, first, m, n - 1); }
  }

  lemma {:induction false} TablesIn(s: nat, first: nat, n: nat, x: Node)
    requires x in Tables(s, first, n)
    ensures x.space == s && 0 < x.level < LEAF
  {
    if x in Tables(s, first, n - 1) { TablesIn(s, first, n - 1, x); }
  }

  // ---------------------------------------------------------------- frames spent

  /** From p to q tables among `t` were added, a frame each, and k frames are spent otherwise. */
  ghost predicate Spent(p: Phys, q: Phys, t: set<Node>, k: nat) {
    && TablesOf(p.at) <= TablesOf(q.at) <= TablesOf(p.at) + t
    && |p.free| + |TablesOf(p.at)| == |q.free| + |TablesOf(q.at)| + k
  }

  /** The tables `t` are all there. */
  ghost predicate Has(p: Phys, t: set<Node>) {
    t <= TablesOf(p.at)
  }

  /** There are fewer free frames than k and one for each table of `t` that is missing. */
  ghost predicate Short(p: Phys, t: set<Node>, k: nat) {
    |p.free| < k + |t - TablesOf(p.at)|
  }

  lemma SpentNothing(p: Phys, t: set<Node>)
    ensures Spent(p, p, t, 0)
  {
  }

  lemma SpentTrans(p: Phys, q: Phys, r: Phys, t: set<Node>, u: set<Node>, k: nat, j: nat)
    requires Spent(p, q, t, k) && Spent(q, r, u, j)
    ensures Spent(p, r, t + u, k + j)
    ensures Has(q, t) && Has(r, u) ==> Has(r, t + u)
  {
    hide TablesOf;
  }

  lemma AddTable(p: Phys, q: Phys, n: Node, x: nat)
    requires n !in p.at && n.level < LEAF && |p.free| == |q.free| + 1 && q.at == p.at[n := x]
    ensures Spent(p, q, {n}, 0) && Has(q, {n})
  {
    assert TablesOf(q.at) == TablesOf(p.at) + {n};
  }

  lemma AddLeaf(p: Phys, q: Phys, n: Node, x: nat)
    requires n !in p.at && n.level == LEAF && q.free == p.free && q.at == p.at[n := x]
    ensures TablesOf(q.at) == TablesOf(p.at)
  {
  }

  /** When all the tables are there, there were frames enough. */
  lemma Enough(p: Phys, q: Phys, t: set<Node>, k: nat)
    requires Spent(p, q, t, k) && Has(q, t)
    ensures |p.free| == |q.free| + k + |t - TablesOf(p.at)| && !Short(p, t, k)
  {
    hide TablesOf;
    assert TablesOf(q.at) == TablesOf(p.at) + (t - TablesOf(p.at));
  }

  lemma NoFrame(p: Phys, n: Node)
    requires n !in p.at && p.free == []
    ensures Short(p, {n}, 0)
  {
    assert {n} - TablesOf(p.at) == {n};
  }

  /** When the rest is too little, so was the whole. */
  lemma TooFew(p: Phys, q: Phys, t: set<Node>, k: nat, u: set<Node>, j: nat, w: set<Node>)
    requires Spent(p, q, t, k) && Short(q, u, j) && t + u <= w
    ensures Short(p, w, k + j)
  {
    hide TablesOf;
    var x, y := TablesOf(q.at) + (u - TablesOf(q.at)), TablesOf(p.at) + (w - TablesOf(p.at));
    assert x <= y;
    assert y == x + (y - x);
  }

  lemma ShortMore(p: Phys, t: set<Node>, k: nat, w: set<Node>, n: nat)
    requires Short(p, t, k) && t <= w && k <= n
    ensures Short(p, w, n)
  {
    SpentNothing(p, {});
    TooFew(p, p, {}, 0, t, k, w);
  }

  // ---------------------------------------------------------------- ranges of pages

  predicate IsMapped(p: Phys, s: nat, v: nat) {
    Node(s, LEAF, v) in p.at
  }

  /** No page from first on, n of them, is mapped, and there are frames for the tables they miss and k more. */
  ghost predicate Fits(p: Phys, s: nat, first: nat, n: nat, k: nat) {
    && (forall v {:trigger IsMapped(p, s, v)} :: first <= v < first + n ==> !IsMapped(p, s, v))
    && !Short(p, Tables(s, first, n), k)
  }

  /** From p to q those n pages, none of them mapped before, got their tables, and k frames are spent otherwise. */
  ghost predicate Grown(p: Phys, q: Phys, s: nat, first: nat, n: nat, k: nat) {
    && (forall v {:trigger IsMapped(p, s, v)} :: first <= v < first + n ==> !IsMapped(p, s, v))
    && Spent(p, q, Tables(s, first, n), k) && Has(q, Tables(s, first, n))
  }

  lemma GrownStart(p: Phys, s: nat, first: nat)
    ensures Grown(p, p, s, first, 0, 0)
  {
  }

  lemma GrownStep(p: Phys, q: Phys, r: Phys, s: nat, first: nat, n: nat, k: nat, j: nat)
    requires Grown(p, q, s, first, n, k) && !IsMapped(p, s, first + n)
    requires Spent(q, r, PathTo(s, first + n), j) && Has(r, PathTo(s, first + n))
    ensures Grown(p, r, s, first, n + 1, k + j)
  {
    hide Spent, Has, PathTo, IsMapped;
    SpentTrans(p, q, r, Tables(s, first, n), PathTo(s, first + n), k, j);
  }

  lemma GrownFits(p: Phys, q: Phys, s: nat, first: nat, n: nat, k: nat)
    requires Grown(p, q, s, first, n, k)
    ensures Fits(p, s, first, n, k)
  {
    hide Spent, Has, Short, IsMapped;
    Enough(p, q, Tables(s, first, n), k);
  }

  /** The next page cannot be mapped, so m of them cannot. */
  lemma GrownFails(p: Phys, q: Phys, s: nat, first: nat, n: nat, k: nat, j: nat, m: nat, all: nat)
    requires Grown(p, q, s, first, n, k) && n < m && k + j <= all
    requires Short(q, PathTo(s, first + n), j) || IsMapped(p, s, first + n)
    ensures !Fits(p, s, first, m, all)
  {
    hide Spent, Has, Short, IsMapped, PathTo;
    if !IsMapped(p, s, first + n) {
      TooFew(p, q, Tables(s, first, n), k, PathTo(s, first + n), j, Tables(s, first, n + 1));
      TablesGrow(s, first, n + 1, m);
      ShortMore(p, Tables(s, first, n + 1), k + j, Tables(s, first, m), all);
    }
  }

  lemma OneTable(s: nat, v: nat)
    ensures Tables(s, v, 1) == PathTo(s, v)
  {
    assert Tables(s, v, 0) == {};
  }

  /** In a space with nothing but its root every table is missing. */
  lemma NewSpaceCost(p: Phys, q: Phys, d: nat, first: nat, n: nat, k: nat)
    requires q.at == p.at[Node(d, 0, 0) := d] && |p.free| == |q.free| + 1
    requires forall x {:trigger x in p.at} :: x in p.at ==> x.space != d
    ensures Fits(q, d, first, n, k) <==> |p.free| >= 1 + k + TableCount(first, n)
  {
    hide Tables, TableCount;
    forall x | x in Tables(d, first, n) ensures x !in TablesOf(q.at) { TablesIn(d, first, n, x); }
    assert Tables(d, first, n) - TablesOf(q.at) == Tables(d, first, n);
    TablesCount(d, first, n);
  }
}
