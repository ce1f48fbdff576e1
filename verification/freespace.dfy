/** The free space of a prefix, seen as the address set an IP-set library would hold,
    and the aligned blocks of one length inside it. */
module FreeSpace {
  import opened Options
  import opened Naturals
  import opened Cidrs
  import opened Records

  /** Membership in the address set "prefix minus every taken child". */
  predicate FreeAddr(r: Record, a: Addr)
    requires RecordOk(r)
  {
    Contains(r.cidr, a) && forall k | k in Taken(r) :: !Contains(k, a)
  }

  /** `FreeNetwork` is containment in that address set. */
  lemma FreeNetworkIsSubset(r: Record, c: Cidr)
    requires RecordOk(r) && IsNetwork(c) && r.cidr.bits <= c.bits
    ensures FreeNetwork(r, c) <==> forall a :: Contains(c, a) ==> FreeAddr(r, a)
  {
    CoversIsInclusion(r.cidr, c);
    forall k | k in Taken(r)
      ensures Covers(k, c) || Covers(c, k) <==> exists a :: Contains(c, a) && Contains(k, a)
    {
      OverlapsIsNesting(k, c);
      OverlapsIsSharing(k, c);
    }
    if FreeNetwork(r, c) {
      forall a | Contains(c, a) ensures FreeAddr(r, a) {
      }
    }
  }

  // ---- Multiples of block sizes ----

  lemma {:induction false} Pow2Add(m: nat, n: nat)
    ensures Pow2(m + n) == Pow2(m) * Pow2(n)
  {
    if m > 0 {
      Pow2Add(m - 1, n);
      MulAssoc(2, Pow2(m - 1), Pow2(n));
    }
  }

  lemma MulAssoc(x: nat, y: nat, z: nat)
    ensures x * (y * z) == x * y * z
  {
  }

  lemma MulDistribute(x: nat, y: nat, z: nat)
    ensures (x + y) * z == x * z + y * z
  {
  }

  /** Clearing host bits rounds down to a multiple of the block size. */
  lemma {:induction false} ClearMultiple(a: nat, host: nat) returns (q: nat)
    ensures Clear(a, host) == q * Pow2(host)
  {
    if host == 0 {
      q := a;
    } else {
      q := ClearMultiple(a / 2, host - 1);
      assert 2 * (q * Pow2(host - 1)) == q * (2 * Pow2(host - 1));
    }
  }

  lemma ClearUnique(a: nat, host: nat, q: nat)
    requires q * Pow2(host) <= a < q * Pow2(host) + Pow2(host)
    ensures Clear(a, host) == q * Pow2(host)
  {
    var p := ClearMultiple(a, host);
    MulDistribute(p, 1, Pow2(host));
    MulDistribute(q, 1, Pow2(host));
    if p < q {
      MulMonotone(p + 1, q, Pow2(host));
    } else if q < p {
      MulMonotone(q + 1, p, Pow2(host));
    }
  }

  // ---- Aligned blocks ----

  /** The i-th block of `bits` network bits inside `p`. */
  function BlockAt(p: Cidr, bits: nat, i: nat): (c: Cidr)
    requires p.bits <= bits <= Width(p.family)
  {
    Cidr(p.family, p.addr + i * BlockSize(p.family, bits), bits)
  }

  lemma SizeSplit(f: Family, short: nat, long: nat)
    requires short <= long <= Width(f)
    ensures BlockSize(f, short) == Pow2(long - short) * BlockSize(f, long)
  {
    Pow2Add(long - short, Width(f) - long);
  }

  lemma BlockStart(p: Cidr, bits: nat) returns (q: nat)
    requires IsNetwork(p) && p.bits <= bits <= Width(p.family)
    ensures p.addr == q * BlockSize(p.family, bits)
  {
    hide Clear, Pow2;
    var n := ClearMultiple(p.addr, Width(p.family) - p.bits);
    SizeSplit(p.family, p.bits, bits);
    MulAssoc(n, Pow2(bits - p.bits), BlockSize(p.family, bits));
    q := n * Pow2(bits - p.bits);
  }

  lemma {:induction false} ClearBound(a: nat, host: nat, width: nat)
    requires host <= width && a < Pow2(width) && Clear(a, host) == a
    ensures a + Pow2(host) <= Pow2(width)
  {
    if host > 0 {
      ClearBound(a / 2, host - 1, width - 1);
    }
  }

  lemma SpaceBound(p: Cidr)
    requires IsNetwork(p)
    ensures p.addr + BlockSize(p.family, p.bits) <= Pow2(Width(p.family))
  {
    ClearBound(p.addr, Width(p.family) - p.bits, Width(p.family));
  }

  /** The i-th block ends inside `p`. */
  lemma BlockAtInside(p: Cidr, bits: nat, i: nat)
    requires IsNetwork(p) && p.bits <= bits <= Width(p.family) && i < Pow2(bits - p.bits)
    ensures p.addr <= BlockAt(p, bits, i).addr < p.addr + BlockSize(p.family, p.bits)
  {
    var size := BlockSize(p.family, bits);
    SizeSplit(p.family, p.bits, bits);
    MulMonotone(i + 1, Pow2(bits - p.bits), size);
    MulDistribute(i, 1, size);
  }

  lemma BlockAtIsNetwork(p: Cidr, bits: nat, i: nat)
    requires IsNetwork(p) && p.bits <= bits <= Width(p.family) && i < Pow2(bits - p.bits)
    ensures IsNetwork(BlockAt(p, bits, i)) && Covers(p, BlockAt(p, bits, i))
  {
    hide Clear, Pow2;
    var size := BlockSize(p.family, bits);
    var q := BlockStart(p, bits);
    var c := BlockAt(p, bits, i);
    BlockAtInside(p, bits, i);
    SpaceBound(p);
    MulDistribute(q, i, size);
    ClearUnique(c.addr, Width(p.family) - bits, q + i);
    ContainsRange(p, Addr(p.family, c.addr));
  }

  /** Every network of that length inside `p` is one of the blocks. */
  lemma BlockIndex(p: Cidr, c: Cidr) returns (i: nat)
    requires IsNetwork(p) && IsNetwork(c) && Covers(p, c)
    ensures i < Pow2(c.bits - p.bits) && c == BlockAt(p, c.bits, i)
  {
    hide Clear, Pow2;
    var q := BlockStart(p, c.bits);
    var m := ClearMultiple(c.addr, Width(p.family) - c.bits);
    SizeSplit(p.family, p.bits, c.bits);
    ContainsRange(p, Addr(p.family, c.addr));
    i := QuotientBetween(q, m, Pow2(c.bits - p.bits), BlockSize(p.family, c.bits));
  }

  lemma QuotientBetween(q: nat, m: nat, n: nat, size: nat) returns (i: nat)
    requires size > 0 && q * size <= m * size < q * size + n * size
    ensures i < n && m * size == q * size + i * size
  {
    MulDistribute(m, 1, size);
    if m < q {
      MulMonotone(m + 1, q, size);
    }
    i := m - q;
    MulDistribute(q, i, size);
    if n <= i {
      MulMonotone(n, i, size);
    }
  }

  lemma BlockAtInjective(p: Cidr, bits: nat, i: nat, j: nat)
    requires p.bits <= bits <= Width(p.family) && i < j
    ensures BlockAt(p, bits, i) != BlockAt(p, bits, j)
  {
    MulMonotone(i + 1, j, BlockSize(p.family, bits));
  }

  /** The library's search for a free block: some free network of the asked length, if there is one. */
  method RemoveFreePrefix(r: Record, bits: nat) returns (found: Option<Cidr>)
    requires RecordOk(r) && r.cidr.bits <= bits <= Width(r.cidr.family)
    ensures found.Some? ==> FreeNetwork(r, found.value) && found.value.bits == bits
    ensures found.None? ==> forall c | FreeNetwork(r, c) :: c.bits != bits
  {
    var i, n := 0, Pow2(bits - r.cidr.bits);
    while i < n
      invariant i <= n
      invariant forall j | 0 <= j < i :: !FreeNetwork(r, BlockAt(r.cidr, bits, j))
    {
      var c := BlockAt(r.cidr, bits, i);
      BlockAtIsNetwork(r.cidr, bits, i);
      if FreeNetwork(r, c) {
        return Some(c);
      }
      i := i + 1;
    }
    forall c | FreeNetwork(r, c) && c.bits == bits
      ensures false
    {
      var j := BlockIndex(r.cidr, c);
    }
    return None;
  }
}
