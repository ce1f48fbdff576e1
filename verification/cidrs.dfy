/** CIDR arithmetic: addresses are naturals, a prefix is an address plus a number
    of leading network bits. Follows `netip.Prefix`: masking, containment and overlap. */
module Cidrs {

  datatype Family = V4 | V6

  /** An address of one family. */
  datatype Addr = Addr(family: Family, value: nat)

  /** A prefix in CIDR notation. Host bits may be set; `Masked` clears them. */
  datatype Cidr = Cidr(family: Family, addr: nat, bits: nat)

  function Width(f: Family): nat {
    if f.V4? then 32 else 128
  }

  function Pow2(n: nat): (p: nat)
    ensures p > 0
  {
    if n == 0 then 1 else 2 * Pow2(n - 1)
  }

  /** Number of addresses under a prefix with `bits` network bits. */
  function BlockSize(f: Family, bits: nat): (s: nat)
    requires bits <= Width(f)
    ensures s > 0
  {
    Pow2(Width(f) - bits)
  }

  /** Sets the lowest `host` bits of `a` to zero. */
  function Clear(a: nat, host: nat): (m: nat)
    ensures m <= a < m + Pow2(host)
  {
    if host == 0 then a else 2 * Clear(a / 2, host - 1)
  }

  /** Clears the host bits of `a`. */
  function Mask(f: Family, a: nat, bits: nat): (m: nat)
    requires bits <= Width(f)
    ensures m <= a < m + BlockSize(f, bits)
  {
    Clear(a, Width(f) - bits)
  }

  /** A prefix `netip.ParsePrefix` can return. */
  predicate Parsed(c: Cidr) {
    c.bits <= Width(c.family) && c.addr < Pow2(Width(c.family))
  }

  function Masked(c: Cidr): (m: Cidr)
    requires c.bits <= Width(c.family)
    ensures m.family == c.family && m.bits == c.bits && m.addr <= c.addr
  {
    Cidr(c.family, Mask(c.family, c.addr, c.bits), c.bits)
  }

  /** A network prefix: no host bits set. These are the prefixes the store holds. */
  predicate IsNetwork(c: Cidr) {
    Parsed(c) && Masked(c) == c
  }

  /** `netip.Prefix.Contains`. */
  predicate Contains(c: Cidr, a: Addr)
    requires c.bits <= Width(c.family)
  {
    a.family == c.family && Mask(c.family, a.value, c.bits) == Mask(c.family, c.addr, c.bits)
  }

  /** `netip.Prefix.Overlaps`: equal families and equal addresses under the shorter mask. */
  predicate Overlaps(c: Cidr, d: Cidr)
    requires c.bits <= Width(c.family) && d.bits <= Width(d.family)
  {
    && c.family == d.family
    && var b := if c.bits <= d.bits then c.bits else d.bits;
       Mask(c.family, c.addr, b) == Mask(c.family, d.addr, b)
  }

  /** Every address of network `d` lies in network `c`. */
  predicate Covers(c: Cidr, d: Cidr)
  {
    c.family == d.family && c.bits <= d.bits <= Width(d.family)
    && Mask(d.family, d.addr, c.bits) == c.addr
  }

  // ---- Masking twice ----

  lemma {:induction false} ClearClear(a: nat, few: nat, many: nat)
    requires few <= many
    ensures Clear(Clear(a, few), many) == Clear(a, many)
  {
    if few > 0 {
      ClearClear(a / 2, few - 1, many - 1);
    }
  }

  /** Masking to more bits first changes nothing for a shorter mask. */
  lemma MaskMask(f: Family, a: nat, long: nat, short: nat)
    requires short <= long <= Width(f)
    ensures Mask(f, Mask(f, a, long), short) == Mask(f, a, short)
  {
    ClearClear(a, Width(f) - long, Width(f) - short);
  }

  // ---- Networks form a tree under `Covers` ----

  lemma CoversTransitive(c: Cidr, d: Cidr, e: Cidr)
    requires Covers(c, d) && Covers(d, e)
    ensures Covers(c, e)
  {
    MaskMask(e.family, e.addr, d.bits, c.bits);
  }

  lemma CoversReflexive(c: Cidr)
    requires IsNetwork(c)
    ensures Covers(c, c)
  {
  }

  lemma CoversAntisymmetric(c: Cidr, d: Cidr)
    requires IsNetwork(c) && IsNetwork(d) && Covers(c, d) && c != d
    ensures c.bits < d.bits && !Covers(d, c)
  {
  }

  /** Two networks that both cover a third are themselves nested. */
  lemma CoversLinear(c: Cidr, d: Cidr, e: Cidr)
    requires Covers(c, e) && Covers(d, e) && c.bits <= d.bits
    ensures Covers(c, d)
  {
    MaskMask(e.family, e.addr, d.bits, c.bits);
  }

  /** On networks, the mask comparison of `Overlaps` is nesting in one direction or the other. */
  lemma OverlapsIsNesting(c: Cidr, d: Cidr)
    requires IsNetwork(c) && IsNetwork(d)
    ensures Overlaps(c, d) <==> Covers(c, d) || Covers(d, c)
  {
  }

  lemma MaskedIsNetwork(c: Cidr)
    requires Parsed(c)
    ensures IsNetwork(Masked(c))
  {
    MaskMask(c.family, c.addr, c.bits, c.bits);
  }

  /** `Covers` is inclusion of address sets. */
  lemma CoversIsInclusion(c: Cidr, d: Cidr)
    requires IsNetwork(c) && IsNetwork(d) && c.bits <= d.bits
    ensures Covers(c, d) <==> forall a :: Contains(d, a) ==> Contains(c, a)
  {
    if Covers(c, d) {
      forall a | Contains(d, a) ensures Contains(c, a) {
        MaskMask(d.family, a.value, d.bits, c.bits);
      }
    } else {
      assert Contains(d, Addr(d.family, d.addr));
    }
  }

  /** `Overlaps` holds of two networks exactly when some address lies in both. */
  lemma OverlapsIsSharing(c: Cidr, d: Cidr)
    requires IsNetwork(c) && IsNetwork(d)
    ensures Overlaps(c, d) <==> exists a :: Contains(c, a) && Contains(d, a)
  {
    if Overlaps(c, d) {
      var a := Addr(c.family, if c.bits <= d.bits then d.addr else c.addr);
      assert Contains(c, a) && Contains(d, a);
    }
    forall a | Contains(c, a) && Contains(d, a) ensures Overlaps(c, d) {
      var b := if c.bits <= d.bits then c.bits else d.bits;
      MaskMask(c.family, a.value, c.bits, b);
      MaskMask(c.family, a.value, d.bits, b);
    }
  }
}
