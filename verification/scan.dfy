/** The address scan of one record: walk upward from a start address to a free one. */
module Scan {
  import opened Options
  import opened Cidrs
  import opened Records
  import opened FreeSpace

  /** `netip.Addr.Next`: nothing follows the last address of the family. */
  function Next(a: Addr): (n: Option<Addr>) {
    if a.value + 1 < Pow2(Width(a.family)) then Some(Addr(a.family, a.value + 1)) else None
  }

  function SpaceLeft(ip: Option<Addr>): (n: nat) {
    if ip.Some? && ip.value.value < Pow2(Width(ip.value.family))
    then Pow2(Width(ip.value.family)) - ip.value.value
    else 0
  }

  /** The scan read as a recursion; `want` restricts it to one address. */
  function Walk(r: Record, want: Option<Addr>, ip: Option<Addr>): (found: Option<Addr>)
    requires IsNetwork(r.cidr)
    decreases SpaceLeft(ip)
  {
    if ip.None? || !Contains(r.cidr, ip.value) then None
    else if ip.value !in r.ips && (want.None? || want == ip) then ip
    else InSpace(r.cidr, ip.value); Walk(r, want, Next(ip.value))
  }

  lemma InSpace(c: Cidr, a: Addr)
    requires IsNetwork(c) && Contains(c, a)
    ensures a.value < Pow2(Width(a.family))
    ensures Next(a).None? ==> forall b | Contains(c, b) :: b.value <= a.value
  {
    ContainsRange(c, a);
    SpaceBound(c);
    forall b | Contains(c, b) ensures b.value < Pow2(Width(c.family)) {
      ContainsRange(c, b);
    }
  }

  /** No free address of the prefix lies in `from..to`. */
  ghost predicate AllTaken(r: Record, from: nat, to: nat)
    requires r.cidr.bits <= Width(r.cidr.family)
  {
    forall a | Contains(r.cidr, a) && from <= a.value < to :: a in r.ips
  }

  /** The free address with the smallest value. */
  ghost predicate LeastFree(r: Record, a: Addr)
    requires r.cidr.bits <= Width(r.cidr.family)
  {
    Contains(r.cidr, a) && a !in r.ips && AllTaken(r, 0, a.value)
  }

  /** The scan as the manager runs it. */
  method FindFree(r: Record, want: Option<Addr>, start: Addr) returns (found: Option<Addr>)
    requires IsNetwork(r.cidr)
    ensures found == Walk(r, want, Some(start))
  {
    var ip := Some(start);
    while ip.Some? && Contains(r.cidr, ip.value)
      invariant Walk(r, want, ip) == Walk(r, want, Some(start))
      decreases SpaceLeft(ip)
    {
      InSpace(r.cidr, ip.value);
      if ip.value !in r.ips && (want.None? || want == ip) {
        return ip;
      }
      ip := Next(ip.value);
    }
    return None;
  }

  lemma {:induction false} WalkUp(r: Record, ip: Addr)
    requires IsNetwork(r.cidr) && Contains(r.cidr, ip)
    requires AllTaken(r, 0, ip.value)
    ensures var found := Walk(r, None, Some(ip));
            if found.Some? then LeastFree(r, found.value)
            else forall a | Contains(r.cidr, a) :: a in r.ips
    decreases SpaceLeft(Some(ip))
  {
    hide Clear, Pow2, Mask;
    InSpace(r.cidr, ip);
    if ip in r.ips {
      assert AllTaken(r, 0, ip.value + 1);
      var next := Next(ip);
      if next.Some? && Contains(r.cidr, next.value) {
        WalkUp(r, next.value);
      } else {
        forall a | Contains(r.cidr, a) ensures a in r.ips {
          ContainsRange(r.cidr, a);
          ContainsRange(r.cidr, ip);
          if next.Some? { ContainsRange(r.cidr, next.value); }
        }
      }
    }
  }

  /** Without a wish the scan returns the least free address, and nothing exactly when none is free. */
  lemma ScanLeast(r: Record)
    requires IsNetwork(r.cidr)
    ensures var found := Walk(r, None, Some(FirstAddr(r.cidr)));
            && (found.Some? ==> LeastFree(r, found.value))
            && (found.None? <==> forall a | Contains(r.cidr, a) :: a in r.ips)
  {
    var first := FirstAddr(r.cidr);
    ContainsRange(r.cidr, first);
    forall a | Contains(r.cidr, a) ensures first.value <= a.value {
      ContainsRange(r.cidr, a);
    }
    WalkUp(r, first);
  }

  lemma {:induction false} WalkToWish(r: Record, w: Addr, ip: Addr)
    requires IsNetwork(r.cidr) && Contains(r.cidr, w) && w !in r.ips
    requires Contains(r.cidr, ip) && ip.value <= w.value
    ensures Walk(r, Some(w), Some(ip)) == Some(w)
    decreases w.value - ip.value
  {
    hide Clear, Pow2, Mask;
    if ip != w {
      InSpace(r.cidr, w);
      ContainsRange(r.cidr, ip);
      ContainsRange(r.cidr, w);
      ContainsRange(r.cidr, Addr(ip.family, ip.value + 1));
      WalkToWish(r, w, Addr(ip.family, ip.value + 1));
    }
  }

  /** Starting at the wished address finds what the walk from the network address finds. */
  lemma StartAtWish(r: Record, w: Addr)
    requires IsNetwork(r.cidr) && Contains(r.cidr, w)
    ensures Walk(r, Some(w), Some(w)) == Walk(r, Some(w), Some(FirstAddr(r.cidr)))
    ensures Walk(r, Some(w), Some(w)) == if w in r.ips then None else Some(w)
  {
    var first := FirstAddr(r.cidr);
    ContainsRange(r.cidr, first);
    ContainsRange(r.cidr, w);
    if w !in r.ips {
      WalkToWish(r, w, w);
      WalkToWish(r, w, first);
    } else {
      WalkMisses(r, w, w);
      WalkMisses(r, w, first);
    }
  }

  lemma {:induction false} WalkMisses(r: Record, w: Addr, ip: Addr)
    requires IsNetwork(r.cidr) && w in r.ips
    ensures Walk(r, Some(w), Some(ip)).None?
    decreases SpaceLeft(Some(ip))
  {
    if Contains(r.cidr, ip) {
      InSpace(r.cidr, ip);
      if Next(ip).Some? {
        WalkMisses(r, w, Next(ip).value);
      }
    }
  }
}
