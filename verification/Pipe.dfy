/** The ring buffer of pipe.c with its 32-bit counters, as a queue. */
module PipeRing {
  const PIPESIZE := 512
  const WRAP := 0x1_0000_0000

  type byte = x: int | 0 <= x < 256

  /** Counter values of a stream of length r that has n bytes beyond it: they differ by exactly PIPESIZE, or not at all,
      when the ring is full, or empty, even after the counters have wrapped. */
  lemma CountersTell(r: nat, n: nat)
    requires n <= PIPESIZE
    ensures (r + n) % WRAP == (r % WRAP + PIPESIZE) % WRAP <==> n == PIPESIZE
    ensures (r + n) % WRAP == r % WRAP <==> n == 0
    ensures (r % WRAP) % PIPESIZE == r % PIPESIZE
  {
    var q := r / WRAP;
    assert r == q * WRAP + r % WRAP;
    ModShift(q, r % WRAP + n);
    ModShift(q, r % WRAP + PIPESIZE);
    RingIndex(q, r % WRAP);
  }

  lemma ModShift(q: nat, x: nat)
    ensures (q * WRAP + x) % WRAP == x % WRAP
  {
  }

  lemma RingIndex(q: nat, x: nat)
    ensures (q * WRAP + x) % PIPESIZE == x % PIPESIZE
  {
    assert q * WRAP + x == PIPESIZE * (q * (WRAP / PIPESIZE)) + x;
  }

  class Ring {
    const data: array<byte>
    var nread: nat
    var nwrite: nat
    ghost var written: seq<byte> // every byte ever written
    ghost var taken: nat         // how many of them were read

    ghost predicate Valid()
      reads this, data
    {
      && data.Length == PIPESIZE && taken <= |written| <= taken + PIPESIZE
      && nread == taken % WRAP && nwrite == |written| % WRAP
      && (forall k {:trigger written[k]} :: taken <= k < |written| ==> data[k % PIPESIZE] == written[k])
    }

    ghost function Buffered(): (s: seq<byte>)
      requires Valid()
      reads this, data
      ensures |s| <= PIPESIZE
    {
      written[taken..]
    }

    constructor ()
      ensures Valid() && Buffered() == [] && fresh(data) && written == [] && taken == 0
    {
      data := new byte[PIPESIZE](_ => 0);
      nread, nwrite := 0, 0;
      written, taken := [], 0;
    }

    /** p->nwrite == p->nread + PIPESIZE, in 32-bit arithmetic. */
    method Full() returns (full: bool)
      requires Valid()
      ensures full == (|Buffered()| == PIPESIZE)
    {
      CountersTell(taken, |written| - taken);
      full := nwrite == (nread + PIPESIZE) % WRAP;
    }

    method Empty() returns (empty: bool)
      requires Valid()
      ensures empty == (Buffered() == [])
    {
      CountersTell(taken, |written| - taken);
      empty := nread == nwrite;
    }

    /** p->data[p->nwrite++ % PIPESIZE] = x. */
    method Put(x: byte)
      requires Valid() && |Buffered()| < PIPESIZE
      modifies this, data
      ensures Valid() && written == old(written) + [x] && taken == old(taken) && Buffered() == old(Buffered()) + [x]
    {
      CountersTell(|written|, 0);
      NoClash(taken, |written|);
      data[nwrite % PIPESIZE] := x;
      nwrite := (nwrite + 1) % WRAP;
      CounterNext(|written|);
      written := written + [x];
    }

    /** p->data[p->nread++ % PIPESIZE]. */
    method Take() returns (x: byte)
      requires Valid() && Buffered() != []
      modifies `nread, `taken
      ensures Valid() && x == old(Buffered())[0] && Buffered() == old(Buffered())[1..] && taken == old(taken) + 1
    {
      CountersTell(taken, 0);
      x := data[nread % PIPESIZE];
      assert x == written[taken];
      nread := (nread + 1) % WRAP;
      CounterNext(taken);
      taken := taken + 1;
    }

    /** The copying loop of piperead: as many bytes as there are, up to n. */
    method Read(n: nat) returns (addr: seq<byte>)
      requires Valid()
      modifies `nread, `taken
      ensures Valid() && |addr| == Least(n, |old(Buffered())|)
      ensures addr == old(Buffered())[..|addr|] && Buffered() == old(Buffered())[|addr|..]
      ensures old(Buffered()) == addr + Buffered()
    {
      addr := [];
      ghost var b := Buffered();
      while |addr| < n
        invariant |addr| <= n && Valid() && |addr| <= |b| && addr == b[..|addr|] && Buffered() == b[|addr|..]
      {
        var empty := Empty();
        if empty { break; }
        var x := Take();
        addr := addr + [x];
      }
    }

    /** The copying loop of pipewrite, up to the point where the ring is full: i is how far it got. */
    method Write(addr: seq<byte>, i0: nat) returns (i: nat)
      requires Valid() && i0 <= |addr|
      modifies this, data
      ensures Valid() && i0 <= i <= |addr| && i - i0 == Least(|addr| - i0, PIPESIZE - |old(Buffered())|)
      ensures Buffered() == old(Buffered()) + addr[i0..i] && written == old(written) + addr[i0..i]
              && taken == old(taken)
    {
      i := i0;
      ghost var b := Buffered();
      while i < |addr|
        invariant i0 <= i <= |addr| && Valid() && Buffered() == b + addr[i0..i]
                  && written == old(written) + addr[i0..i] && taken == old(taken)
      {
        var full := Full();
        if full { break; }
        Put(addr[i]);
        assert addr[i0..i + 1] == addr[i0..i] + [addr[i]];
        i := i + 1;
      }
    }
  }

  function Least(a: int, b: int): (m: int) {
    if a < b then a else b
  }

  lemma CounterNext(r: nat)
    ensures (r % WRAP + 1) % WRAP == (r + 1) % WRAP
  {
    assert r == r / WRAP * WRAP + r % WRAP;
    ModShift(r / WRAP, r % WRAP + 1);
  }

  /** Bytes less than PIPESIZE apart have different places in the ring. */
  lemma NoClash(t: nat, w: nat)
    requires t <= w < t + PIPESIZE
    ensures forall k: nat {:trigger k % PIPESIZE} :: t <= k < w ==> k % PIPESIZE != w % PIPESIZE
  {
  }
}
