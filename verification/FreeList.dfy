/** The heap of umalloc.c as values. Addresses and sizes are in units of one header (16 bytes).

    `free` lists the blocks of the ring in address order, starting with the empty block at `base`;
    `live` gives the size of each allocated block; `cover` says which block each unit of memory
    obtained from sbrk lies in. */
module FreeList {

  datatype Block = Block(addr: nat, size: nat) {
    function End(): nat { addr + size }
  }

  datatype Header = Header(ptr: nat, size: nat)

  /** The ring, in address order, with a gap between neighbours; only the base is empty. */
  ghost predicate Spaced(free: seq<Block>) {
    && |free| > 0 && free[0].size == 0
    && (forall k {:trigger free[k]} :: 0 < k < |free| ==> free[k].size > 0)
    && (forall j, k {:trigger free[j], free[k]} :: 0 <= j < k < |free| ==> free[j].End() < free[k].addr)
  }

  /** The headers in memory link the blocks of `free` into one ring. */
  ghost predicate Linked(hdr: map<nat, Header>, free: seq<Block>) {
    forall k {:trigger LinkAt(hdr, free, k)} :: 0 <= k < |free| ==> LinkAt(hdr, free, k)
  }

  ghost predicate LinkAt(hdr: map<nat, Header>, free: seq<Block>, k: nat)
    requires k < |free|
  {
    free[k].addr in hdr && hdr[free[k].addr] == Header(AddrAt(free, k + 1), free[k].size)
  }

  /** The address of block k, where the block after the last is the base. */
  function AddrAt(free: seq<Block>, k: nat): (a: nat)
    requires |free| > 0
  {
    if k < |free| then free[k].addr else free[0].addr
  }

  predicate In(u: nat, b: Block) {
    b.addr <= u < b.End()
  }

  predicate IsLive(live: map<nat, nat>, b: Block) {
    b.addr in live && live[b.addr] == b.size
  }

  predicate IsBlock(free: seq<Block>, live: map<nat, nat>, b: Block) {
    b in free || IsLive(live, b)
  }

  /** Every unit lies in exactly one block, free or live, and every block consists of such units. */
  ghost predicate Tiles(free: seq<Block>, live: map<nat, nat>, cover: map<nat, Block>) {
    Covered(free, live, cover) && Whole(free, live, cover) && Separate(free, live)
  }

  ghost predicate Covered(free: seq<Block>, live: map<nat, nat>, cover: map<nat, Block>) {
    forall u {:trigger cover[u]} :: u in cover ==> In(u, cover[u]) && IsBlock(free, live, cover[u])
  }

  ghost predicate Whole(free: seq<Block>, live: map<nat, nat>, cover: map<nat, Block>) {
    forall b, u {:trigger In(u, b), IsBlock(free, live, b)} :: IsBlock(free, live, b) && In(u, b) ==>
        u in cover && cover[u] == b
  }

  ghost predicate Separate(free: seq<Block>, live: map<nat, nat>) {
    && (forall b {:trigger b in free} :: b in free ==> b.addr !in live)
    && (forall a {:trigger live[a]} :: a in live ==> live[a] > 0)
  }

  /** The tiling without its witness: the memory is exactly what the blocks hold, each unit held once. */
  lemma ExactlyOneBlock(free: seq<Block>, live: map<nat, nat>, cover: map<nat, Block>, u: nat)
    requires Tiles(free, live, cover)
    ensures u in cover <==> exists b :: IsBlock(free, live, b) && In(u, b)
    ensures forall b, c :: IsBlock(free, live, b) && IsBlock(free, live, c) && In(u, b) && In(u, c) ==> b == c
  {
    if u in cover { assert IsBlock(free, live, cover[u]) && In(u, cover[u]); }
  }

  /** Two blocks do not overlap. */
  lemma Apart(free: seq<Block>, live: map<nat, nat>, cover: map<nat, Block>, x: Block, y: Block)
    requires Tiles(free, live, cover) && IsBlock(free, live, x) && IsBlock(free, live, y) && x.addr != y.addr
             && x.size > 0 && y.size > 0
    ensures x.End() <= y.addr || y.End() <= x.addr
  {
    var u := if x.addr < y.addr then y.addr else x.addr;
    assert In(u, x) ==> u in cover && cover[u] == x;
    assert In(u, y) ==> u in cover && cover[u] == y;
  }

  // ---------------------------------------------------------------- free

  /** The last block of the ring that starts below a. */
  ghost function Place(free: seq<Block>, a: nat): (k: nat)
    requires |free| > 0 && free[0].addr < a
    ensures k < |free| && free[k].addr < a && (k + 1 < |free| ==> a <= free[k + 1].addr)
  {
    if free[|free| - 1].addr < a then |free| - 1
    else
      var k := Place(free[..|free| - 1], a);
      k
  }

  /** The ring with its blocks lo..hi replaced by m. */
  function Replace(free: seq<Block>, lo: nat, hi: nat, m: Block): (r: seq<Block>)
    requires lo <= hi <= |free|
  {
    free[..lo] + [m] + free[hi..]
  }

  /** m lies between its new neighbours and holds exactly the blocks it replaces. */
  ghost predicate Fits(free: seq<Block>, lo: nat, hi: nat, m: Block) {
    && 1 <= lo <= hi <= |free| && m.size > 0 && free[lo - 1].End() < m.addr
    && (hi < |free| ==> m.End() < free[hi].addr)
    && (forall i {:trigger free[i]} :: lo <= i < hi ==> m.addr <= free[i].addr && free[i].End() <= m.End())
  }

  /** Where element i of the new ring comes from. */
  function From(lo: nat, hi: nat, i: nat): (y: int) {
    if i <= lo then i else i - lo - 1 + hi
  }

  lemma ReplaceAt(free: seq<Block>, lo: nat, hi: nat, m: Block, i: nat)
    requires lo <= hi <= |free| && i < |Replace(free, lo, hi, m)|
    ensures i != lo ==> 0 <= From(lo, hi, i) < |free| && Replace(free, lo, hi, m)[i] == free[From(lo, hi, i)]
    ensures i == lo ==> Replace(free, lo, hi, m)[i] == m
  {
  }

  lemma ReplaceSpaced(free: seq<Block>, lo: nat, hi: nat, m: Block)
    requires Spaced(free) && Fits(free, lo, hi, m)
    ensures Spaced(Replace(free, lo, hi, m)) && Replace(free, lo, hi, m)[0] == free[0]
  {
    assert lo <= hi <= |free|;
    var r := Replace(free, lo, hi, m);
    assert |r| == lo + 1 + |free| - hi;
    forall i | 0 <= i < |r| ensures i > 0 ==> r[i].size > 0 { ReplaceAt(free, lo, hi, m, i); }
    forall i, j | 0 <= i < j < |r| ensures r[i].End() < r[j].addr { ReplaceOrder(free, lo, hi, m, i, j); }
    ReplaceAt(free, lo, hi, m, 0);
  }

  lemma ReplaceOrder(free: seq<Block>, lo: nat, hi: nat, m: Block, i: nat, j: nat)
    requires Spaced(free) && Fits(free, lo, hi, m) && i < j < |Replace(free, lo, hi, m)|
    ensures Replace(free, lo, hi, m)[i].End() < Replace(free, lo, hi, m)[j].addr
  {
    assert lo <= hi <= |free|;
    hide Replace, Fits;
    ReplaceAt(free, lo, hi, m, i);
    ReplaceAt(free, lo, hi, m, j);
    if i == lo { Outside(free, lo, hi, m, From(lo, hi, j)); }
    else if j == lo { Outside(free, lo, hi, m, i); }
  }

  lemma ReplaceMembers(free: seq<Block>, lo: nat, hi: nat, m: Block, x: Block)
    requires Spaced(free) && Fits(free, lo, hi, m)
    ensures x in Replace(free, lo, hi, m) <==> x == m || (x in free && !In(x.addr, m))
  {
    assert lo <= hi <= |free|;
    var r := Replace(free, lo, hi, m);
    assert |r| == lo + 1 + |free| - hi;
    hide Replace, Fits, Spaced;
    ReplaceAt(free, lo, hi, m, lo);
    if x in free {
      var i :| 0 <= i < |free| && free[i] == x;
      Outside(free, lo, hi, m, i);
      if i < lo { ReplaceAt(free, lo, hi, m, i); } else if i >= hi { ReplaceAt(free, lo, hi, m, lo + 1 + i - hi); }
    }
    if x in r {
      var i :| 0 <= i < |r| && r[i] == x;
      ReplaceAt(free, lo, hi, m, i);
      if i != lo { Outside(free, lo, hi, m, From(lo, hi, i)); }
    }
  }

  /** The other blocks of the ring are clear of m. */
  lemma Outside(free: seq<Block>, lo: nat, hi: nat, m: Block, i: nat)
    requires Spaced(free) && Fits(free, lo, hi, m) && i < |free|
    ensures lo <= i < hi <==> In(free[i].addr, m)
    ensures i < lo ==> free[i].End() < m.addr
    ensures hi <= i ==> m.End() < free[i].addr
  {
    assert i < lo - 1 ==> free[i].End() < free[lo - 1].addr;
    assert hi < i ==> free[hi].addr < free[i].addr;
  }

  /** Units of m now belong to m. */
  ghost function Paint(cover: map<nat, Block>, m: Block): (r: map<nat, Block>)
    ensures r.Keys == cover.Keys
  {
    map u | u in cover :: if In(u, m) then m else cover[u]
  }

  ghost function Dead(live: map<nat, nat>, a: nat): (r: map<nat, nat>) {
    map x | x in live && x != a :: live[x]
  }

  /** m consists of whole blocks: free ones and the live block at a. */
  ghost predicate Absorbs(free: seq<Block>, live: map<nat, nat>, cover: map<nat, Block>, m: Block, a: nat) {
    && (forall u {:trigger In(u, m)} :: In(u, m) ==> u in cover)
    && (forall x {:trigger x in free} :: x in free && In(x.addr, m) ==> x.End() <= m.End())
    && (forall x {:trigger x in free} :: x in free && !In(x.addr, m) ==> x.End() <= m.addr || m.End() <= x.addr)
    && (forall x {:trigger IsLive(live, x)} :: IsLive(live, x) && x.addr != a ==>
         x.End() <= m.addr || m.End() <= x.addr)
    && a in live && m.addr <= a && a + live[a] <= m.End()
  }

  /** The blocks of r are m and the free blocks outside it. */
  ghost predicate Swaps(free: seq<Block>, r: seq<Block>, m: Block) {
    forall x: Block {:trigger x in r} :: x in r <==> x == m || (x in free && !In(x.addr, m))
  }

  lemma AbsorbUnit(free: seq<Block>, r: seq<Block>, live: map<nat, nat>, cover: map<nat, Block>, m: Block, a: nat,
                   u: nat)
    requires Covered(free, live, cover) && Absorbs(free, live, cover, m, a) && Swaps(free, r, m) && u in cover
    ensures var c := Paint(cover, m); u in c && In(u, c[u]) && IsBlock(r, Dead(live, a), c[u])
  {
    var b := cover[u];
    assert m in r;
    if !In(u, m) && b in free { assert b in r; }
  }

  lemma AbsorbBlock(free: seq<Block>, r: seq<Block>, live: map<nat, nat>, cover: map<nat, Block>, m: Block, a: nat,
                    x: Block, u: nat)
    requires Whole(free, live, cover) && Absorbs(free, live, cover, m, a) && Swaps(free, r, m) && In(u, x)
    requires IsBlock(r, Dead(live, a), x)
    ensures var c := Paint(cover, m); u in c && c[u] == x
  {
    if x in r { assert x == m || IsBlock(free, live, x); } else { assert IsLive(live, x) && IsBlock(free, live, x); }
  }

  lemma AbsorbSeparate(free: seq<Block>, r: seq<Block>, live: map<nat, nat>, cover: map<nat, Block>, m: Block, a: nat)
    requires Separate(free, live) && Absorbs(free, live, cover, m, a) && Swaps(free, r, m)
    ensures Separate(r, Dead(live, a))
  {
    forall x | x in r ensures x.addr !in Dead(live, a) {
      assert m.addr in live ==> IsLive(live, Block(m.addr, live[m.addr]));
      assert x == m || x in free;
    }
  }

  lemma AbsorbAll(free: seq<Block>, r: seq<Block>, live: map<nat, nat>, cover: map<nat, Block>, m: Block, a: nat)
    requires Tiles(free, live, cover) && Absorbs(free, live, cover, m, a) && Swaps(free, r, m)
    ensures Covered(r, Dead(live, a), Paint(cover, m)) && Whole(r, Dead(live, a), Paint(cover, m))
  {
    hide Absorbs, Swaps, Dead, Separate, IsBlock;
    var l, c := Dead(live, a), Paint(cover, m);
    forall u | u in c ensures In(u, c[u]) && IsBlock(r, l, c[u]) { AbsorbUnit(free, r, live, cover, m, a, u); }
    forall x, u | IsBlock(r, l, x) && In(u, x) ensures u in c && c[u] == x {
      AbsorbBlock(free, r, live, cover, m, a, x, u);
    }
  }

  lemma AbsorbTiles(free: seq<Block>, live: map<nat, nat>, cover: map<nat, Block>, lo: nat, hi: nat, m: Block, a: nat)
    requires Spaced(free) && Fits(free, lo, hi, m) && Tiles(free, live, cover) && Absorbs(free, live, cover, m, a)
    ensures Tiles(Replace(free, lo, hi, m), Dead(live, a), Paint(cover, m))
  {
    assert lo <= hi <= |free|;
    var r := Replace(free, lo, hi, m);
    hide Replace, Spaced, Fits, Paint, Absorbs, Separate, Covered, Whole, IsBlock, Dead;
    assert Swaps(free, r, m) by {
      forall x: Block ensures x in r <==> x == m || (x in free && !In(x.addr, m)) {
        ReplaceMembers(free, lo, hi, m, x);
      }
    }
    AbsorbSeparate(free, r, live, cover, m, a);
    AbsorbAll(free, r, live, cover, m, a);
  }

  /** Relinking the predecessor and m is all it takes to replace blocks lo..hi by m in the ring. */
  lemma ReplaceLinked(hdr: map<nat, Header>, hdr': map<nat, Header>, free: seq<Block>, lo: nat, hi: nat, m: Block)
    requires |free| > 0 && Linked(hdr, free) && 1 <= lo <= hi <= |free|
    requires m.addr in hdr' && hdr'[m.addr] == Header(AddrAt(free, hi), m.size)
    requires free[lo - 1].addr in hdr' && hdr'[free[lo - 1].addr] == Header(m.addr, free[lo - 1].size)
    requires forall i {:trigger free[i]} :: 0 <= i < lo - 1 || hi <= i < |free| ==>
               free[i].addr in hdr && free[i].addr in hdr' && hdr'[free[i].addr] == hdr[free[i].addr]
    ensures Linked(hdr', Replace(free, lo, hi, m))
  {
    var r := Replace(free, lo, hi, m);
    assert |r| == lo + 1 + |free| - hi;
    forall i | 0 <= i < |r| ensures LinkAt(hdr', r, i) {
      hide Replace;
      assert i != lo ==> LinkAt(hdr, free, From(lo, hi, i));
      ReplaceAt(free, lo, hi, m, i);
      ReplaceAt(free, lo, hi, m, 0);
      if i + 1 < |r| { ReplaceAt(free, lo, hi, m, i + 1); }
    }
  }

  // ---------------------------------------------------------------- where a freed block goes

  /** b lies between blocks k and k+1 of the ring. */
  ghost predicate Between(free: seq<Block>, k: nat, b: Block) {
    k < |free| && b.size > 0 && free[k].addr < b.addr && free[k].End() <= b.addr
        && (k + 1 < |free| ==> b.End() <= free[k + 1].addr)
  }

  lemma PlaceBetween(free: seq<Block>, live: map<nat, nat>, cover: map<nat, Block>, b: Block)
    requires Spaced(free) && Tiles(free, live, cover) && IsLive(live, b) && free[0].addr < b.addr
    ensures Between(free, Place(free, b.addr), b)
  {
    var k := Place(free, b.addr);
    hide Spaced, Tiles, Place;
    assert b.size > 0 && forall x :: x in free ==> x.addr != b.addr by { PositiveLive(free, live, cover, b); }
    if free[k].size > 0 { Apart(free, live, cover, free[k], b); }
    if k + 1 < |free| {
      Positive(free, k + 1);
      Apart(free, live, cover, free[k + 1], b);
    }
  }

  lemma Positive(free: seq<Block>, k: nat)
    requires Spaced(free) && 0 < k < |free|
    ensures free[k].size > 0
  {
  }

  lemma PositiveLive(free: seq<Block>, live: map<nat, nat>, cover: map<nat, Block>, b: Block)
    requires Tiles(free, live, cover) && IsLive(live, b)
    ensures b.size > 0 && forall x :: x in free ==> x.addr != b.addr
  {
  }

  predicate TouchesAbove(free: seq<Block>, k: nat, b: Block) {
    k + 1 < |free| && b.End() == free[k + 1].addr
  }

  predicate TouchesBelow(free: seq<Block>, k: nat, b: Block)
    requires k < |free|
  {
    free[k].End() == b.addr
  }

  function Low(free: seq<Block>, k: nat, b: Block): (lo: nat)
    requires k < |free|
  {
    if TouchesBelow(free, k, b) then k else k + 1
  }

  function High(free: seq<Block>, k: nat, b: Block): (hi: nat)
    requires k < |free|
  {
    if TouchesAbove(free, k, b) then k + 2 else k + 1
  }

  /** b together with the blocks that touch it. */
  function Merged(free: seq<Block>, k: nat, b: Block): (m: Block)
    requires k < |free|
  {
    var above := if TouchesAbove(free, k, b) then free[k + 1].size else 0;
    if TouchesBelow(free, k, b) then Block(free[k].addr, free[k].size + b.size + above)
        else Block(b.addr, b.size + above)
  }

  /** The ring with b given back. */
  function Insert(free: seq<Block>, k: nat, b: Block): (r: seq<Block>)
    requires k < |free|
  {
    Replace(free, Low(free, k, b), High(free, k, b), Merged(free, k, b))
  }

  lemma Ordered(free: seq<Block>, k: int)
    requires Spaced(free)
    ensures 0 <= k < |free| - 1 ==> free[k].End() < free[k + 1].addr
  {
  }

  lemma MergedEdges(free: seq<Block>, k: nat, b: Block)
    requires Spaced(free) && Between(free, k, b)
    ensures Low(free, k, b) > 0 && free[Low(free, k, b) - 1].End() < Merged(free, k, b).addr
    ensures High(free, k, b) < |free| ==> Merged(free, k, b).End() < free[High(free, k, b)].addr
  {
    assert TouchesBelow(free, k, b) ==> k > 0;
    hide Spaced;
    Ordered(free, k - 1);
    Ordered(free, k);
    Ordered(free, k + 1);
  }

  lemma MergedFits(free: seq<Block>, k: nat, b: Block)
    requires Spaced(free) && Between(free, k, b)
    ensures Fits(free, Low(free, k, b), High(free, k, b), Merged(free, k, b))
  {
    MergedEdges(free, k, b);
    hide Spaced;
    var lo, hi, m := Low(free, k, b), High(free, k, b), Merged(free, k, b);
    forall i | lo <= i < hi ensures m.addr <= free[i].addr && free[i].End() <= m.End() {
      assert i == k || i == k + 1;
    }
  }

  /** A unit of the merged block is a unit of one of its parts. */
  lemma MergedUnits(free: seq<Block>, live: map<nat, nat>, cover: map<nat, Block>, k: nat, b: Block, u: nat)
    requires Tiles(free, live, cover) && Between(free, k, b) && IsLive(live, b) && In(u, Merged(free, k, b))
    ensures u in cover
  {
    if u < b.addr { assert IsBlock(free, live, free[k]) && In(u, free[k]); }
    else if u < b.End() { assert IsBlock(free, live, b) && In(u, b); }
    else { assert IsBlock(free, live, free[k + 1]) && In(u, free[k + 1]); }
  }

  lemma MergedLive(free: seq<Block>, live: map<nat, nat>, cover: map<nat, Block>, k: nat, b: Block, x: Block)
    requires Spaced(free) && Tiles(free, live, cover) && Between(free, k, b) && IsLive(live, b)
    requires IsLive(live, x) && x.addr != b.addr
    ensures x.End() <= Merged(free, k, b).addr || Merged(free, k, b).End() <= x.addr
  {
    hide Spaced, Tiles;
    PositiveLive(free, live, cover, x);
    PositiveLive(free, live, cover, b);
    Apart(free, live, cover, x, b);
    if TouchesBelow(free, k, b) { Apart(free, live, cover, free[k], x); }
    if TouchesAbove(free, k, b) { Positive(free, k + 1); Apart(free, live, cover, free[k + 1], x); }
  }

  lemma FitsFree(free: seq<Block>, lo: nat, hi: nat, m: Block, x: Block)
    requires Spaced(free) && Fits(free, lo, hi, m) && x in free
    ensures if In(x.addr, m) then x.End() <= m.End() else x.End() <= m.addr || m.End() <= x.addr
  {
    hide Spaced;
    var i :| 0 <= i < |free| && free[i] == x;
    Outside(free, lo, hi, m, i);
  }

  lemma MergedAbsorbs(free: seq<Block>, live: map<nat, nat>, cover: map<nat, Block>, k: nat, b: Block)
    requires Spaced(free) && Tiles(free, live, cover) && Between(free, k, b) && IsLive(live, b)
    ensures Absorbs(free, live, cover, Merged(free, k, b), b.addr)
  {
    var lo, hi, m := Low(free, k, b), High(free, k, b), Merged(free, k, b);
    assert m.addr <= b.addr && b.End() <= m.End();
    MergedFits(free, k, b);
    hide Spaced, Tiles, Merged, Fits, Between;
    forall u | In(u, m) ensures u in cover { MergedUnits(free, live, cover, k, b, u); }
    forall x | x in free ensures if In(x.addr, m) then x.End() <= m.End() else x.End() <= m.addr || m.End() <= x.addr {
      FitsFree(free, lo, hi, m, x);
    }
    forall x | IsLive(live, x) && x.addr != b.addr ensures x.End() <= m.addr || m.End() <= x.addr {
      MergedLive(free, live, cover, k, b, x);
    }
  }

  /** Giving b back keeps the ring in order and the tiling whole. */
  lemma InsertKeeps(free: seq<Block>, live: map<nat, nat>, cover: map<nat, Block>, k: nat, b: Block)
    requires Spaced(free) && Tiles(free, live, cover) && Between(free, k, b) && IsLive(live, b)
    ensures Spaced(Insert(free, k, b)) && Insert(free, k, b)[0] == free[0]
    ensures k < |Insert(free, k, b)| && Insert(free, k, b)[k].addr == free[k].addr
    ensures Tiles(Insert(free, k, b), Dead(live, b.addr), Paint(cover, Merged(free, k, b)))
  {
    var lo, hi, m := Low(free, k, b), High(free, k, b), Merged(free, k, b);
    MergedFits(free, k, b);
    assert k < |Replace(free, lo, hi, m)|;
    ReplaceAt(free, lo, hi, m, k);
    MergedAbsorbs(free, live, cover, k, b);
    hide Tiles, Spaced, Replace, Paint, Fits, Absorbs;
    ReplaceSpaced(free, lo, hi, m);
    AbsorbTiles(free, live, cover, lo, hi, m, b.addr);
  }

  // ---------------------------------------------------------------- malloc

  function Remove(free: seq<Block>, k: nat): (r: seq<Block>)
    requires k < |free|
  {
    free[..k] + free[k + 1..]
  }

  lemma RemoveSpaced(free: seq<Block>, k: nat)
    requires Spaced(free) && 0 < k < |free|
    ensures Spaced(Remove(free, k)) && Remove(free, k)[0] == free[0]
  {
    var r := Remove(free, k);
    RemoveAt(free, k, 0);
    forall i, j | 0 <= i < j < |r| ensures r[i].End() < r[j].addr && r[j].size > 0 {
      hide Remove;
      RemoveAt(free, k, i);
      RemoveAt(free, k, j);
    }
  }

  lemma RemoveMembers(free: seq<Block>, k: nat)
    requires Spaced(free) && k < |free|
    ensures forall x: Block {:trigger x in Remove(free, k)} :: x in Remove(free, k) <==> x in free && x != free[k]
  {
    var r := Remove(free, k);
    forall x: Block ensures x in r <==> x in free && x != free[k] {
      if x in free && x != free[k] {
        var i :| 0 <= i < |free| && free[i] == x;
        RemoveAt(free, k, if i < k then i else i - 1);
      }
      if x in r {
        var i :| 0 <= i < |r| && r[i] == x;
        RemoveAt(free, k, i);
        Distinct(free, if i < k then i else i + 1, k);
      }
    }
  }

  lemma RemoveAt(free: seq<Block>, k: nat, i: nat)
    requires k < |free| && i < |free| - 1
    ensures |Remove(free, k)| == |free| - 1 && Remove(free, k)[i] == free[if i < k then i else i + 1]
  {
  }

  lemma RemoveLink(hdr: map<nat, Header>, hdr': map<nat, Header>, free: seq<Block>, k: nat, i: nat)
    requires Spaced(free) && Linked(hdr, free) && 0 < k < |free| && i < |Remove(free, k)|
    requires hdr' == hdr[free[k - 1].addr := Header(AddrAt(free, k + 1), free[k - 1].size)]
    ensures LinkAt(hdr', Remove(free, k), i)
  {
    var r, y := Remove(free, k), if i < k then i else i + 1;
    assert LinkAt(hdr, free, y);
    RemoveAt(free, k, i);
    RemoveAt(free, k, 0);
    Distinct(free, y, k - 1);
    if i + 1 < |r| { RemoveAt(free, k, i + 1); }
    assert |r| == |free| - 1;
    hide Spaced, Remove;
    assert AddrAt(r, i + 1) == AddrAt(free, if i == k - 1 then k + 1 else y + 1);
  }

  lemma RemoveLinked(hdr: map<nat, Header>, hdr': map<nat, Header>, free: seq<Block>, k: nat)
    requires Spaced(free) && Linked(hdr, free) && 0 < k < |free|
    requires hdr' == hdr[free[k - 1].addr := Header(AddrAt(free, k + 1), free[k - 1].size)]
    ensures Linked(hdr', Remove(free, k))
  {
    var r := Remove(free, k);
    forall i | 0 <= i < |r| ensures LinkAt(hdr', r, i) {
      hide *;
      RemoveLink(hdr, hdr', free, k, i);
    }
  }

  lemma Distinct(free: seq<Block>, i: nat, j: nat)
    requires Spaced(free) && i < |free| && j < |free|
    ensures i != j ==> free[i].addr != free[j].addr
  {
    assert i < j ==> free[i].End() < free[j].addr;
    assert j < i ==> free[j].End() < free[i].addr;
  }

  /** A free block that fits exactly becomes live as it is. */
  lemma RemoveTiles(free: seq<Block>, live: map<nat, nat>, cover: map<nat, Block>, k: nat)
    requires Spaced(free) && Tiles(free, live, cover) && 0 < k < |free|
    ensures free[k].addr !in live && Tiles(Remove(free, k), live[free[k].addr := free[k].size], cover)
  {
    var r, b := Remove(free, k), free[k];
    var l := live[b.addr := b.size];
    assert b.size > 0 && b.addr !in live;
    RemoveMembers(free, k);
    SameAddr(free, k);
    hide Spaced, Remove;
    assert Separate(r, l);
    hide Separate;
    forall x: Block ensures IsBlock(r, l, x) <==> IsBlock(free, live, x) {
      assert IsLive(l, x) <==> IsLive(live, x) || x == b;
    }
    hide IsBlock;
  }

  lemma SameAddr(free: seq<Block>, k: nat)
    requires Spaced(free) && k < |free|
    ensures forall x: Block :: x in free && x != free[k] ==> x.addr != free[k].addr
  {
    forall x: Block | x in free && x != free[k] ensures x.addr != free[k].addr {
      var i :| 0 <= i < |free| && free[i] == x;
      assert i < k ==> free[i].End() < free[k].addr;
      assert k < i ==> free[k].End() < free[i].addr;
    }
  }

  /** The lower part of block k when its last n units are taken. */
  function Kept(b: Block, n: nat): (r: Block)
    requires n <= b.size
  {
    Block(b.addr, b.size - n)
  }

  function Taken(b: Block, n: nat): (r: Block)
    requires n <= b.size
  {
    Block(b.addr + b.size - n, n)
  }

  lemma SplitSpaced(free: seq<Block>, k: nat, n: nat)
    requires Spaced(free) && 0 < k < |free| && n < free[k].size
    ensures Spaced(free[k := Kept(free[k], n)])
    ensures forall x: Block :: x in free[k := Kept(free[k], n)] <==>
            x == Kept(free[k], n) || (x in free && x != free[k])
  {
    var r, m := free[k := Kept(free[k], n)], Kept(free[k], n);
    forall x: Block ensures x in r <==> x == m || (x in free && x != free[k]) {
      assert r[k] == m;
      if x in free && x != free[k] {
        var i :| 0 <= i < |free| && free[i] == x;
        assert r[i] == x;
      }
      if x in r && x != m {
        var i :| 0 <= i < |r| && r[i] == x;
        assert free[i] == x && i != k;
        SameAddr(free, i);
      }
    }
  }

  /** r has Kept(b, n) where free had b. */
  ghost predicate Cuts(free: seq<Block>, r: seq<Block>, b: Block, n: nat)
    requires n <= b.size
  {
    forall x: Block {:trigger x in r} :: x in r <==> x == Kept(b, n) || (x in free && x != b)
  }

  lemma SplitUnit(free: seq<Block>, live: map<nat, nat>, cover: map<nat, Block>, r: seq<Block>, b: Block, n: nat,
                  u: nat)
    requires Tiles(free, live, cover) && b in free && 0 < n < b.size && Taken(b, n).addr !in live && u in cover
    requires Cuts(free, r, b, n)
    ensures var c := Paint(Paint(cover, Kept(b, n)), Taken(b, n));
            In(u, c[u]) && IsBlock(r, live[Taken(b, n).addr := n], c[u])
  {
    var x := cover[u];
    assert Kept(b, n) in r;
    assert x in free && x != b ==> x in r;
  }

  lemma SplitBlock(free: seq<Block>, live: map<nat, nat>, cover: map<nat, Block>, r: seq<Block>, b: Block, n: nat,
                   x: Block, u: nat)
    requires Tiles(free, live, cover) && b in free && 0 < n < b.size && Taken(b, n).addr !in live && In(u, x)
    requires Cuts(free, r, b, n) && IsBlock(r, live[Taken(b, n).addr := n], x)
    ensures var c := Paint(Paint(cover, Kept(b, n)), Taken(b, n)); u in c && c[u] == x
  {
    assert IsBlock(free, live, b) && (In(u, b) ==> u in cover && cover[u] == b);
    if x != Kept(b, n) && x != Taken(b, n) { assert IsBlock(free, live, x) && x != b; }
  }

  lemma SplitAll(free: seq<Block>, live: map<nat, nat>, cover: map<nat, Block>, r: seq<Block>, b: Block, n: nat)
    requires Tiles(free, live, cover) && b in free && 0 < n < b.size && Taken(b, n).addr !in live && Cuts(free, r, b, n)
    ensures var l, c := live[Taken(b, n).addr := n], Paint(Paint(cover, Kept(b, n)), Taken(b, n));
            Covered(r, l, c) && Whole(r, l, c)
  {
    hide Cuts, Separate, IsBlock, Paint;
    var l, c := live[Taken(b, n).addr := n], Paint(Paint(cover, Kept(b, n)), Taken(b, n));
    forall u | u in c ensures In(u, c[u]) && IsBlock(r, l, c[u]) { SplitUnit(free, live, cover, r, b, n, u); }
    forall x, u | IsBlock(r, l, x) && In(u, x) ensures u in c && c[u] == x {
      SplitBlock(free, live, cover, r, b, n, x, u);
    }
  }

  /** Cutting a free block in two: the lower part stays free, the upper part becomes live. */
  lemma SplitTiles(free: seq<Block>, live: map<nat, nat>, cover: map<nat, Block>, k: nat, n: nat)
    requires Spaced(free) && Tiles(free, live, cover) && 0 < k < |free| && 0 < n < free[k].size
    ensures Taken(free[k], n).addr !in live
    ensures Tiles(free[k := Kept(free[k], n)], live[Taken(free[k], n).addr := n],
            Paint(Paint(cover, Kept(free[k], n)), Taken(free[k], n)))
  {
    var b, taken := free[k], Taken(free[k], n);
    var r := free[k := Kept(b, n)];
    SplitSpaced(free, k, n);
    assert b in free && Cuts(free, r, b, n);
    NotLive(free, live, cover, b, taken.addr);
    assert Separate(r, live[taken.addr := n]) by {
      forall x | x in r ensures x.addr !in live && x.addr != taken.addr { TakenApart(free, live, cover, k, n, x); }
    }
    hide Spaced, Paint, Separate, Covered, Whole, Cuts;
    SplitAll(free, live, cover, r, b, n);
  }

  /** No live block starts inside a free one. */
  lemma NotLive(free: seq<Block>, live: map<nat, nat>, cover: map<nat, Block>, b: Block, a: nat)
    requires Tiles(free, live, cover) && b in free && In(a, b)
    ensures a !in live
  {
    assert IsBlock(free, live, b) && cover[a] == b;
    assert a in live ==> IsBlock(free, live, Block(a, live[a])) && In(a, Block(a, live[a]));
  }

  lemma TakenApart(free: seq<Block>, live: map<nat, nat>, cover: map<nat, Block>, k: nat, n: nat, x: Block)
    requires Spaced(free) && Tiles(free, live, cover) && 0 < k < |free| && 0 < n < free[k].size
    requires x == Kept(free[k], n) || (x in free && x != free[k])
    ensures x.addr !in live && x.addr != Taken(free[k], n).addr
  {
    if x in free && x != free[k] {
      var i :| 0 <= i < |free| && free[i] == x;
      assert i < k ==> free[i].End() < free[k].addr;
      assert k < i ==> free[k].End() < free[i].addr;
    }
    assert free[k] in free;
  }

  lemma SplitLinked(hdr: map<nat, Header>, hdr': map<nat, Header>, free: seq<Block>, k: nat, n: nat, junk: nat)
    requires Spaced(free) && Linked(hdr, free) && 0 < k < |free| && 0 < n < free[k].size
    requires hdr' ==
             hdr[free[k].addr := Header(AddrAt(free, k + 1), free[k].size - n)]
                [Taken(free[k], n).addr := Header(junk, n)]
    ensures Linked(hdr', free[k := Kept(free[k], n)])
  {
    var r := free[k := Kept(free[k], n)];
    forall i | 0 <= i < |r| ensures LinkAt(hdr', r, i) {
      assert LinkAt(hdr, free, i);
      assert i < k ==> free[i].End() < free[k].addr;
      assert k < i ==> free[k].End() < free[i].addr;
      hide Spaced;
      assert AddrAt(r, i + 1) == AddrAt(free, i + 1);
    }
  }

  // ---------------------------------------------------------------- morecore

  ghost function Span(b: Block): (s: set<nat>) {
    set u: nat | u < b.End() && In(u, b)
  }

  /** Memory from sbrk, as one live block. */
  ghost function Grown(cover: map<nat, Block>, b: Block): (r: map<nat, Block>)
    ensures r.Keys == cover.Keys + Span(b)
  {
    cover + map u | u in Span(b) :: b
  }

  lemma GrowTiles(free: seq<Block>, live: map<nat, nat>, cover: map<nat, Block>, b: Block, top: nat)
    requires Spaced(free) && Tiles(free, live, cover) && b.size > 0 && free[0].addr < top <= b.addr
    requires forall u {:trigger u in cover} :: u in cover ==> u < top
    ensures b.addr !in live && Tiles(free, live[b.addr := b.size], Grown(cover, b))
  {
    var l, c := live[b.addr := b.size], Grown(cover, b);
    forall x | IsBlock(free, live, x) ensures x.addr < top && x.End() <= top { BelowTop(free, live, cover, x, top); }
    assert b.addr !in live by { assert b.addr in live ==> IsBlock(free, live, Block(b.addr, live[b.addr])); }
    hide Spaced;
    assert Separate(free, l) by { forall x | x in free ensures x.addr !in l { assert IsBlock(free, live, x); } }
    hide Separate;
    forall x ensures IsBlock(free, l, x) <==> IsBlock(free, live, x) || x == b {
      assert IsLive(l, x) <==> IsLive(live, x) || x == b;
    }
    hide IsBlock;
    assert Covered(free, l, c);
    forall x, u | IsBlock(free, l, x) && In(u, x) ensures u in c && c[u] == x {
      assert x == b || (u in cover && cover[u] == x);
    }
  }

  lemma BelowTop(free: seq<Block>, live: map<nat, nat>, cover: map<nat, Block>, x: Block, top: nat)
    requires Spaced(free) && Tiles(free, live, cover) && free[0].addr < top && IsBlock(free, live, x)
    requires forall u {:trigger u in cover} :: u in cover ==> u < top
    ensures x.addr < top && x.End() <= top
  {
    if x.size > 0 {
      assert In(x.addr, x) && In(x.End() - 1, x);
    } else {
      assert x in free;
      var i :| 0 <= i < |free| && free[i] == x;
    }
  }
}
