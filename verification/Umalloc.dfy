/** malloc, free and morecore of umalloc.c over headers in memory. Addresses and sizes are in units of
    one header (16 bytes); what sbrk would answer is a parameter of Malloc. */
module Umalloc {
  import opened Prelude
  import opened FreeList

  const UNIT := 16
  const LIMIT := 0x1_0000_0000 // sizes are 32-bit
  const MINCORE := 4096


  /** Units for nbytes of payload and a header. */
  function Units(nbytes: nat): (n: nat)
    ensures n >= 1 && (n - 1) * UNIT >= nbytes && (n == 1 || (n - 2) * UNIT < nbytes)
  {
    (nbytes + UNIT - 1) / UNIT + 1
  }

  function Core(n: nat): (nu: nat) {
    if n < MINCORE then MINCORE else n
  }

  class Heap {
    const base: nat // the address of the static header, below all memory from sbrk
    var hdr: map<nat, Header>
    var freep: nat
    ghost var free: seq<Block>
    ghost var at: nat // the index of freep in the ring
    ghost var live: map<nat, nat>
    ghost var cover: map<nat, Block>
    ghost var top: nat // the end of the memory sbrk has given out

    ghost predicate Valid()
      reads this
    {
      && 0 < base < top <= LIMIT
      && (forall u {:trigger u in cover} :: u in cover ==> base < u < top)
      && (freep == 0 ==> live == map[] && cover == map[])
      && (freep != 0 ==> Ring() && Tiles(free, live, cover) && Sized())
    }

    /** The headers form one ring in address order, starting at base, and freep is on it. */
    ghost predicate Ring()
      reads this
    {
      && Spaced(free) && Linked(hdr, free) && free[0].addr == base
      && at < |free| && free[at].addr == freep
    }

    ghost predicate Sized()
      reads this
    {
      forall a {:trigger live[a]} :: a in live ==> base < a && a in hdr && hdr[a].size == live[a]
    }

    constructor (base: nat, top: nat)
      requires 0 < base < top <= LIMIT
      ensures Valid() && this.base == base && this.top == top && live == map[] && cover == map[] && freep == 0
    {
      this.base, this.top := base, top;
      hdr, freep := map[], 0;
      free, at, live, cover := [], 0, map[], map[];
    }

    // -------------------------------------------------------------- free

    /** The search loop of free: the ring block below bp. */
    method Search(bp: nat) returns (p: nat, ghost k: nat)
      requires Valid() && bp in live
      ensures k < |free| && p == free[k].addr >= base && p !in live && k == Place(free, bp)
    {
      hide Tiles, Place, Spaced;
      ghost var k0 := Place(free, bp);
      PlaceBetween(free, live, cover, Block(bp, live[bp]));
      p, k := freep, at;
      LinkOf(k);
      while !(bp > p && bp < hdr[p].ptr)
        invariant k < |free| && p == free[k].addr && p in hdr && hdr[p].ptr == AddrAt(free, k + 1)
        decreases if k <= k0 then k0 - k else |free| - k + k0
      {
        Compare(free, k, k0, bp);
        if p >= hdr[p].ptr && (bp > p || bp < hdr[p].ptr) { break; }
        p, k := hdr[p].ptr, if k + 1 < |free| then k + 1 else 0;
        LinkOf(k);
      }
      Compare(free, k, k0, bp);
      assert p !in live by { FreeNotLive(free, live, cover, k); }
    }

    /** Join bp with the block above it if they touch, else point bp at that block. */
    method JoinAbove(bp: nat, p: nat, ghost k: nat)
      requires Ring() && bp in hdr && k < |free| && p == free[k].addr < bp
      modifies `hdr
      ensures var b := Block(bp, old(hdr)[bp].size);
              hdr == old(hdr)[bp := Header(AddrAt(free, High(free, k, b)),
                                           b.size + if TouchesAbove(free, k, b) then free[k + 1].size else 0)]
    {
      LinkOf(k);
      LinkOf(if k + 1 < |free| then k + 1 else 0);
      assert base <= p by { assert k > 0 ==> free[0].End() < free[k].addr; }
      hide Spaced, Linked;
      var next := hdr[p].ptr;
      if bp + hdr[bp].size == next {
        hdr := hdr[bp := Header(hdr[next].ptr, hdr[bp].size + hdr[next].size)];
      } else {
        hdr := hdr[bp := Header(next, hdr[bp].size)];
      }
    }

    /** The header updates of free. */
    method Coalesce(bp: nat, p: nat, ghost k: nat)
      requires Ring() && bp in live && bp in hdr && hdr[bp].size == live[bp] && k < |free| && p == free[k].addr
      requires Between(free, k, Block(bp, live[bp]))
      modifies `hdr
      ensures Linked(hdr, Insert(free, k, Block(bp, live[bp])))
      ensures forall a {:trigger hdr[a]} {:trigger a in hdr} :: a in old(hdr) && a != bp && a != p ==>
                a in hdr && hdr[a] == old(hdr[a])
    {
      ghost var h := hdr;
      LinkOf(k);
      hide Spaced, Linked;
      JoinAbove(bp, p, k);
      if p + hdr[p].size == bp {
        hdr := hdr[p := Header(hdr[bp].ptr, hdr[p].size + hdr[bp].size)];
      } else {
        hdr := hdr[p := Header(bp, hdr[p].size)];
      }
      CoalesceLinked(h, hdr, free, k, Block(bp, live[bp]));
    }

    /** Give a live block back. Nothing but the block leaves `live`, and memory stays as it was; since the
        ring is in order, without touching neighbours, this fixes what it becomes. */
    method Free(ap: nat)
      requires Valid() && ap > 0 && ap - 1 in live
      modifies `hdr, `freep, `free, `at, `live, `cover
      ensures Valid() && freep != 0 && live == Dead(old(live), ap - 1) && cover.Keys == old(cover.Keys)
      ensures free == Insert(old(free), Place(old(free), ap - 1), Block(ap - 1, old(live)[ap - 1]))
      ensures at == Place(old(free), ap - 1)
    {
      hide Tiles, Place, Spaced, Linked;
      var bp := ap - 1;
      var p, k := Search(bp);
      ghost var b := Block(bp, live[bp]);
      PlaceBetween(free, live, cover, b);
      Coalesce(bp, p, k);
      freep := p;
      GiveBack(k, b);
    }

    /** The ghost side of free. */
    ghost method GiveBack(k: nat, b: Block)
      requires Spaced(free) && free[0].addr == base && Tiles(free, live, cover) && 0 < base < top <= LIMIT
      requires IsLive(live, b) && Between(free, k, b) && freep == free[k].addr && freep != 0
      requires Linked(hdr, Insert(free, k, b)) && base < b.addr
      requires forall u {:trigger u in cover} :: u in cover ==> base < u < top
      requires forall a {:trigger live[a]} :: a in live && a != b.addr ==>
                 base < a && a in hdr && hdr[a].size == live[a]
      modifies `free, `at, `live, `cover
      ensures Valid() && live == Dead(old(live), b.addr) && cover.Keys == old(cover.Keys)
      ensures free == Insert(old(free), k, b) && at == k
    {
      hide Tiles, Spaced, Linked, Insert, Paint, Merged;
      InsertKeeps(free, live, cover, k, b);
      free, at, live, cover := Insert(free, k, b), k, Dead(live, b.addr), Paint(cover, Merged(free, k, b));
    }

    // -------------------------------------------------------------- malloc

    /** One lap of the first-fit scan, from the block after freep round to freep. */
    method Lap(n: nat) returns (found: bool, prevp: nat, p: nat, ghost k: nat)
      requires Ring() && n > 0
      ensures found ==> 0 < k < |free| && p == free[k].addr && prevp == free[k - 1].addr && free[k].size >= n
      ensures !found ==> forall i {:trigger free[i]} :: 0 <= i < |free| ==> free[i].size < n
    {
      assert free[0].size == 0;
      hide Spaced, Linked, Scanned, Lag;
      LinkOf(at);
      ScanStep(free, at, at, n);
      prevp, p, k := freep, hdr[freep].ptr, After(at, |free|);
      while true
        invariant 0 <= k < |free| && p == free[k].addr && Scanned(free, at, k, n)
        invariant k > 0 ==> prevp == free[k - 1].addr
        decreases |free| - Lag(at, k, |free|)
      {
        LinkOf(k);
        if hdr[p].size >= n { return true, prevp, p, k; }
        Distinct(free, k, at);
        ScanStep(free, at, k, n);
        if p == freep { return false, prevp, p, k; }
        prevp, p, k := p, hdr[p].ptr, After(k, |free|);
      }
    }

    /** Take a block that fits exactly out of the ring. */
    method CarveAll(prevp: nat, p: nat, ghost k: nat)
      requires Valid() && freep != 0 && 0 < k < |free| && p == free[k].addr && prevp == free[k - 1].addr
      modifies `hdr, `freep, `free, `at, `live
      ensures Valid() && freep != 0 && p !in old(live) && live == old(live)[p := old(free)[k].size]
    {
      hide Spaced, Linked, Tiles, Remove;
      LinkOf(k);
      LinkOf(k - 1);
      RemoveTiles(free, live, cover, k);
      RemoveSpaced(free, k);
      RemoveAt(free, k, k - 1);
      Distinct(free, k, k - 1);
      assert base <= prevp by { Ascending(free, k - 1); }
      assert prevp !in live by { FreeNotLive(free, live, cover, k - 1); }
      assert base < p by { Ascending(free, k); }
      ghost var h := hdr;
      hdr := hdr[prevp := Header(hdr[p].ptr, hdr[prevp].size)];
      RemoveLinked(h, hdr, free, k);
      freep := prevp;
      free, at, live := Remove(free, k), k - 1, live[p := free[k].size];
    }

    /** Shrink the block at p by n units and write a header for them. */
    method Cut(p: nat, n: nat, ghost k: nat) returns (q: nat)
      requires Ring() && 0 < k < |free| && p == free[k].addr && 0 < n < free[k].size
      modifies `hdr
      ensures q == Taken(free[k], n).addr && Linked(hdr, free[k := Kept(free[k], n)])
      ensures forall a {:trigger a in hdr} {:trigger hdr[a]} :: a in old(hdr) && a != p && a != q ==>
                a in hdr && hdr[a] == old(hdr)[a]
      ensures q in hdr && hdr[q].size == n
    {
      hide Spaced, Linked;
      LinkOf(k);
      ghost var h := hdr;
      hdr := hdr[p := Header(hdr[p].ptr, hdr[p].size - n)];
      q := p + hdr[p].size;
      var junk := if q in hdr then hdr[q].ptr else 0;
      hdr := hdr[q := Header(junk, n)];
      SplitLinked(h, hdr, free, k, n, junk);
    }

    /** Cut the last n units off a larger block. */
    method CarveSplit(prevp: nat, p: nat, ghost k: nat, n: nat) returns (q: nat)
      requires Valid() && freep != 0 && 0 < k < |free| && p == free[k].addr && prevp == free[k - 1].addr
               && 0 < n < free[k].size
      modifies `hdr, `freep, `free, `at, `live, `cover
      ensures Valid() && freep != 0 && q !in old(live) && live == old(live)[q := n] && cover.Keys == old(cover.Keys)
    {
      hide Spaced, Linked, Tiles, Paint;
      SplitTiles(free, live, cover, k, n);
      SplitSpaced(free, k, n);
      FreeNotLive(free, live, cover, k);
      Ascending(free, k - 1);
      Ascending(free, k);
      q := Cut(p, n, k);
      freep := prevp;
      cover := Paint(Paint(cover, Kept(free[k], n)), Taken(free[k], n));
      free, at, live := free[k := Kept(free[k], n)], k - 1, live[q := n];
    }

    /** Write a header into new memory; the memory counts as a live block until it is freed. */
    method Adopt(a: nat, nu: nat)
      requires Valid() && freep != 0 && nu > 0 && top <= a && a + nu <= LIMIT
      modifies `hdr, `live, `cover, `top
      ensures Valid() && a !in old(live) && live == old(live)[a := nu]
      ensures cover.Keys == old(cover.Keys) + Span(Block(a, nu))
    {
      hide Spaced, Linked, Tiles, Grown;
      ghost var b := Block(a, nu);
      GrowTiles(free, live, cover, b, top);
      FreshLinked(free, live, cover, hdr, a, nu, top);
      hdr := hdr[a := Header(0, nu)];
      live, cover, top := live[a := nu], Grown(cover, b), a + nu;
    }

    /** Ask sbrk for at least n units and free them. */
    method Morecore(n: nat, answer: Option<nat>) returns (ok: bool)
      requires Valid() && freep != 0 && n > 0
      requires answer.Some? ==> top <= answer.value && answer.value + Core(n) <= LIMIT
      modifies this
      ensures Valid() && freep != 0 && live == old(live) && ok == answer.Some?
      ensures !ok ==> unchanged(this)
      ensures ok ==> cover.Keys == old(cover.Keys) + Span(Block(answer.value, Core(n)))
      ensures ok ==> exists i :: 0 <= i < |free| && free[i].size >= n
    {
      hide Spaced, Linked, Tiles, Place, Insert;
      if answer.None? { return false; }
      var nu, a := Core(n), answer.value;
      Adopt(a, nu);
      ghost var l, f := live, free;
      Free(a + 1);
      assert Dead(l, a) == old(live);
      MergedHolds(f, Place(f, a), Block(a, nu));
      return true;
    }

    /** Some(p) for a block with at least nbytes of payload; None exactly when no free block is large enough
        and sbrk fails. sbrk is asked at most once, and only when no free block is large enough. */
    method Malloc(nbytes: nat, answer: Option<nat>) returns (r: Option<nat>)
      requires Valid() && nbytes < LIMIT
      requires answer.Some? ==> top <= answer.value && answer.value + Core(Units(nbytes)) <= LIMIT
      modifies this
      ensures Valid()
      ensures var n := Units(nbytes);
              var fits := old(freep) != 0 && exists i :: 0 <= i < |old(free)| && old(free)[i].size >= n;
              && (r.None? <==> !fits && answer.None?)
              && (r.None? ==> live == old(live) && cover.Keys == old(cover.Keys))
              && (r.Some? ==> r.value > 0 && r.value - 1 !in old(live) && live == old(live)[r.value - 1 := n])
              && (fits ==> cover.Keys == old(cover.Keys))
              && (!fits && answer.Some? ==> cover.Keys == old(cover.Keys) + Span(Block(answer.value, Core(n))))
    {
      hide Spaced, Linked, Tiles;
      var n := Units(nbytes);
      if freep == 0 { Start(); }
      ghost var f, grown := free, false;
      while true
        invariant Valid() && freep != 0 && live == old(live)
        invariant !grown ==> free == f && cover.Keys == old(cover.Keys) && top == old(top)
        invariant grown ==> exists i :: 0 <= i < |free| && free[i].size >= n
        invariant grown ==> answer.Some? && (forall i {:trigger f[i]} :: 0 <= i < |f| ==> f[i].size < n)
        invariant grown ==> cover.Keys == old(cover.Keys) + Span(Block(answer.value, Core(n)))
        decreases !grown
      {
        var found, prevp, p, k := Lap(n);
        if found {
          LinkOf(k);
          if hdr[p].size == n {
            CarveAll(prevp, p, k);
          } else {
            p := CarveSplit(prevp, p, k, n);
          }
          return Some(p + 1);
        }
        var ok := Morecore(n, answer);
        if !ok { return None; }
        grown := true;
      }
    }

    /** The first malloc makes base a ring of one. */
    method Start()
      requires Valid() && freep == 0
      modifies `hdr, `freep, `free, `at
      ensures Valid() && freep != 0 && |free| == 1 && free[0].size == 0
    {
      hdr := hdr[base := Header(base, 0)];
      freep := base;
      free, at := [Block(base, 0)], 0;
    }

    lemma LinkOf(k: nat)
      requires Ring() && k < |free|
      ensures free[k].addr in hdr && hdr[free[k].addr] == Header(AddrAt(free, k + 1), free[k].size)
    {
      assert LinkAt(hdr, free, k);
    }
  }

  /** Where block k of the ring stands relative to a: k0 is the last block below a. */
  lemma Compare(free: seq<Block>, k: nat, k0: nat, a: nat)
    requires Spaced(free) && k < |free| && free[0].addr < a && k0 == Place(free, a)
    ensures free[k].addr < a <==> k <= k0
    ensures free[0].addr <= free[k].addr
    ensures k + 1 < |free| ==> free[k].addr < free[k + 1].addr && (k != k0 ==> (free[k + 1].addr < a <==> k < k0))
    ensures a < AddrAt(free, k + 1) ==> k + 1 < |free|
  {
    assert k < k0 ==> free[k].addr < free[k0].addr;
    assert k0 + 1 < k ==> free[k0 + 1].addr < free[k].addr;
    assert k + 1 < k0 ==> free[k + 1].addr < free[k0].addr;
  }

  /** The headers that free writes: the block below b, and b unless it was merged into that one. */
  ghost predicate Rewritten(h: map<nat, Header>, h': map<nat, Header>, free: seq<Block>, k: nat, b: Block)
    requires k < |free|
  {
    && (forall a {:trigger h'[a]} {:trigger a in h'} :: a in h && a != b.addr && a != free[k].addr ==>
         a in h' && h'[a] == h[a])
    && Merged(free, k, b).addr in h'
    && h'[Merged(free, k, b).addr] == Header(AddrAt(free, High(free, k, b)), Merged(free, k, b).size)
    && (!TouchesBelow(free, k, b) ==> free[k].addr in h' && h'[free[k].addr] == Header(b.addr, free[k].size))
  }

  lemma CoalesceLinked(h: map<nat, Header>, h': map<nat, Header>, free: seq<Block>, k: nat, b: Block)
    requires Spaced(free) && Linked(h, free) && Between(free, k, b) && Rewritten(h, h', free, k, b)
    ensures Linked(h', Insert(free, k, b))
  {
    var lo, hi, m := Low(free, k, b), High(free, k, b), Merged(free, k, b);
    MergedEdges(free, k, b);
    forall i | 0 <= i < |free|
      ensures free[i].addr != b.addr && (i != k ==> free[i].addr != free[k].addr) && free[i].addr in h
    {
      Distinct(free, i, k);
      assert k + 1 < i ==> free[k + 1].End() < free[i].addr;
      assert i < k ==> free[i].End() < free[k].addr;
      assert LinkAt(h, free, i);
    }
    hide Spaced;
    assert TouchesBelow(free, k, b) ==> LinkAt(h, free, lo - 1);
    ReplaceLinked(h, h', free, lo, hi, m);
  }

  lemma FreeNotLive(free: seq<Block>, live: map<nat, nat>, cover: map<nat, Block>, k: nat)
    requires Tiles(free, live, cover) && k < |free|
    ensures free[k].addr !in live
  {
    assert free[k] in free;
  }

  function After(k: nat, n: nat): (r: nat)
    requires k < n
    ensures r < n
  {
    if k + 1 < n then k + 1 else 0
  }

  /** How many blocks of a ring of n are looked at before block i, from the one after `at`. */
  function Lag(at: nat, i: nat, n: nat): (s: nat)
    requires at < n && i < n
    ensures s < n
  {
    if i > at then i - at - 1 else i - at - 1 + n
  }

  /** The blocks looked at before block k are too small. */
  ghost predicate Scanned(free: seq<Block>, at: nat, k: nat, n: nat)
    requires at < |free| && k < |free|
  {
    forall i {:trigger free[i]} :: 0 <= i < |free| && Lag(at, i, |free|) < Lag(at, k, |free|) ==> free[i].size < n
  }

  lemma ScanStep(free: seq<Block>, at: nat, k: nat, n: nat)
    requires at < |free| && k < |free|
    ensures Scanned(free, at, After(at, |free|), n)
    ensures k != at ==> Lag(at, After(k, |free|), |free|) == Lag(at, k, |free|) + 1
    ensures k != at && Scanned(free, at, k, n) && free[k].size < n ==> Scanned(free, at, After(k, |free|), n)
    ensures k == at && Scanned(free, at, k, n) && free[k].size < n ==> forall i {:trigger free[i]} ::
              0 <= i < |free| ==> free[i].size < n
  {
    assert Lag(at, After(at, |free|), |free|) == 0;
    assert forall i :: 0 <= i < |free| && Lag(at, i, |free|) == Lag(at, k, |free|) ==> i == k;
  }

  lemma Ascending(free: seq<Block>, k: nat)
    requires Spaced(free) && k < |free|
    ensures free[0].addr <= free[k].addr && (k > 0 ==> free[0].addr < free[k].addr)
  {
  }

  /** A header written in new memory is not on the ring. */
  lemma FreshLinked(free: seq<Block>, live: map<nat, nat>, cover: map<nat, Block>, hdr: map<nat, Header>, a: nat,
                    nu: nat, top: nat)
    requires Spaced(free) && Tiles(free, live, cover) && Linked(hdr, free) && free[0].addr < top <= a
    requires forall u {:trigger u in cover} :: u in cover ==> u < top
    ensures Linked(hdr[a := Header(0, nu)], free)
  {
    var h := hdr[a := Header(0, nu)];
    forall k | 0 <= k < |free| ensures LinkAt(h, free, k) {
      hide Tiles, Spaced;
      assert IsBlock(free, live, free[k]);
      BelowTop(free, live, cover, free[k], top);
      assert LinkAt(hdr, free, k);
    }
  }

  /** The block given back is in the ring, with its neighbours. */
  lemma MergedHolds(free: seq<Block>, k: nat, b: Block)
    requires k < |free|
    ensures exists i :: 0 <= i < |Insert(free, k, b)| && Insert(free, k, b)[i].size >= b.size
  {
    var lo := Low(free, k, b);
    assert Insert(free, k, b)[lo] == Merged(free, k, b);
  }
}
