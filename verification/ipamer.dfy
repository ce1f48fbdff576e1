/** The address manager: one namespace of a store, with prefixes, child prefixes and addresses. */
module Ipam {
  import opened Options
  import opened Cidrs
  import opened Records
  import opened FreeSpace
  import opened Forest
  import opened Memory
  import opened Scan

  function Bump(r: Record): (r': Record) {
    r.(version := r.version + 1)
  }

  predicate AllParsed(cs: seq<Cidr>) {
    forall i | 0 <= i < |cs| :: Parsed(cs[i])
  }

  /** An error exactly when some existing prefix overlaps some new one. */
  method PrefixesOverlapping(existing: seq<Cidr>, added: seq<Cidr>) returns (clash: bool)
    requires AllParsed(existing) && AllParsed(added)
    ensures clash <==>
            exists i, k :: 0 <= i < |existing| && 0 <= k < |added| && Overlaps(existing[i], added[k])
  {
    for i := 0 to |existing|
      invariant forall j, m | 0 <= j < i && 0 <= m < |added| :: !Overlaps(existing[j], added[m])
    {
      for k := 0 to |added|
        invariant forall m | 0 <= m < k :: !Overlaps(existing[i], added[m])
      {
        if Overlaps(existing[i], added[k]) || Overlaps(added[k], existing[i]) {
          return true;
        }
      }
    }
    return false;
  }

  /** The block a child request may receive: a longer network of the parent's free space. */
  predicate Grantable(parent: Record, want: Option<Cidr>, bits: nat, c: Cidr)
    requires want.Some? ==> Parsed(want.value)
  {
    && FreeNetwork(parent, c)
    && parent.cidr.bits < c.bits
    && (if want.Some? then c == Masked(want.value) else c.bits == bits)
  }

  class Ipamer {
    const storage: Store
    const namespace: string

    constructor (storage: Store, namespace: string)
      ensures this.storage == storage && this.namespace == namespace
    {
      this.storage := storage;
      this.namespace := namespace;
    }

    ghost function Mine(): Stored
      reads storage
    {
      View(storage.prefixes, namespace)
    }

    ghost predicate Valid()
      reads storage
    {
      Keyed(storage.prefixes) && IsForest(Mine())
    }

    /** Nothing outside this namespace changed, and the new contents are `s`. */
    twostate predicate Becomes(s: Stored)
      reads storage
    {
      && Valid()
      && Mine() == s
      && forall n | n != namespace :: View(storage.prefixes, n) == View(old(storage.prefixes), n)
    }

    method PrefixFrom(c: Cidr) returns (r: Option<Record>)
      requires Parsed(c)
      ensures r == if Masked(c) in Mine() then Some(Mine()[Masked(c)]) else None
    {
      r := storage.ReadPrefix(Masked(c), namespace);
    }

    method NewPrefix(c: Cidr) returns (res: Result<Record>)
      requires Valid() && Parsed(c)
      modifies storage
      ensures res.Ok? <==> forall d | d in old(Mine()) :: !Overlaps(d, Masked(c))
      ensures res.Ok? ==> res.value == NewRecord(c, None, namespace)
      ensures Becomes(if res.Ok? then old(Mine())[Masked(c) := res.value] else old(Mine()))
    {
      hide IsForest, RecordOk;
      var existing := storage.ReadAllPrefixCidrs(namespace);
      var p := NewRecord(c, None, namespace);
      MaskedIsNetwork(c);
      StoredParsed(Mine(), existing);
      var clash := PrefixesOverlapping(existing, [p.cidr]);
      if clash {
        return Err(Rejected);
      }
      forall d | d in Mine() ensures !Overlaps(d, p.cidr) {
        var i :| 0 <= i < |existing| && existing[i] == d;
        assert !Overlaps(existing[i], [p.cidr][0]);
      }
      AddRoot(Mine(), p.cidr, namespace);
      ViewAfterPut(storage.prefixes, p);
      res := storage.CreatePrefix(p);
    }

    method DeletePrefix(c: Cidr) returns (res: Result<Record>)
      requires Valid() && Parsed(c)
      modifies storage
      ensures res.Ok? <==> Masked(c) in old(Mine()) && Deletable(old(Mine())[Masked(c)])
      ensures res.Ok? ==> res.value == old(Mine())[Masked(c)]
      ensures res.Err? ==> res.error == if Masked(c) in old(Mine()) then Rejected else NotFound
      ensures Becomes(if res.Ok? then old(Mine()) - {Masked(c)} else old(Mine()))
    {
      var p := PrefixFrom(c);
      if p.None? {
        return Err(NotFound);
      }
      if HasIps(p.value) || AcquiredPrefixes(p.value) > 0 {
        return Err(Rejected);
      }
      RemoveLeaf(Mine(), Masked(c));
      ViewAfterDrop(storage.prefixes, KeyOf(p.value));
      storage.DeletePrefix(p.value);
      return Ok(p.value);
    }

    /** One attempt of `AcquireChildPrefix` (no wish) or `AcquireSpecificChildPrefix` (a wish). */
    method AcquireChild(parentCidr: Cidr, want: Option<Cidr>, length: nat) returns (res: Result<Record>)
      requires Valid() && Parsed(parentCidr)
      requires if want.Some? then Parsed(want.value) else length <= Width(parentCidr.family)
      modifies storage
      ensures res.Ok? <==>
              && Masked(parentCidr) in old(Mine())
              && !HasIps(old(Mine())[Masked(parentCidr)])
              && exists c :: Grantable(old(Mine())[Masked(parentCidr)], want, length, c)
      ensures res.Ok? ==>
                var p, c := Masked(parentCidr), res.value.cidr;
                && Grantable(old(Mine())[p], want, length, c)
                && res.value == NewRecord(c, Some(p), namespace)
                && c !in old(Mine())
                && Becomes(old(Mine())[p := Bump(TakeChild(old(Mine())[p], c))][c := res.value])
      ensures res.Err? ==> res.error != OptimisticLock && Becomes(old(Mine()))
    {
      var parent := PrefixFrom(parentCidr);
      if parent.None? {
        return Err(Rejected);
      }
      var r := parent.value;
      var bits := if want.Some? then want.value.bits else length;
      if r.cidr.bits >= bits || HasIps(r) {
        return Err(Rejected);
      }
      var cp;
      if want.None? {
        var found := RemoveFreePrefix(r, bits);
        if found.None? {
          return Err(Rejected);
        }
        cp := found.value;
      } else {
        MaskedIsNetwork(want.value);
        cp := Masked(want.value);
        if !FreeNetwork(r, cp) {
          return Err(Rejected);
        }
      }
      assert Grantable(r, want, length, cp);
      res := StoreChild(r, cp);
    }

    /** Reserve `cp` in the parent, then create its record: the tail of `AcquireChild`. */
    method StoreChild(r: Record, cp: Cidr) returns (res: Result<Record>)
      requires Valid() && r.cidr in Mine() && Mine()[r.cidr] == r
      requires IsNetwork(cp) && FreeNetwork(r, cp) && r.cidr.bits < cp.bits && !HasIps(r)
      modifies storage
      ensures res.Ok? && res.value == NewRecord(cp, Some(r.cidr), namespace)
      ensures cp !in old(Mine())
      ensures Becomes(old(Mine())[r.cidr := Bump(TakeChild(r, cp))][cp := res.value])
    {
      hide IsForest, RecordOk, FreeNetwork, HasIps, Mask, ReservedAddrs;
      var child := NewRecord(cp, Some(r.cidr), namespace);
      AddChild(Mine(), r.cidr, cp, Bump(TakeChild(r, cp)), namespace);
      ViewAfterPut(storage.prefixes, Bump(TakeChild(r, cp)));
      var updated := storage.UpdatePrefix(TakeChild(r, cp));
      ViewAfterPut(storage.prefixes, child);
      res := storage.CreatePrefix(child);
    }

    /** One attempt of `ReleaseChildPrefix`. The caller supplies `child`; only its names and entry count are used. */
    method ReleaseChild(child: Record) returns (res: Result<()>)
      requires Valid() && Parsed(child.cidr) && (child.parent.Some? ==> Parsed(child.parent.value))
      modifies storage
      ensures Releasable(old(Mine()), child) ==>
                var p, c := Masked(child.parent.value), Masked(child.cidr);
                && (res.Ok? <==> p != c)
                && Becomes(if p == c then old(Mine()) - {c}
                           else (old(Mine()) - {c})[p := Bump(FreeChild(old(Mine())[p], child.cidr))])
      ensures !Releasable(old(Mine()), child) ==> res.Err? && Becomes(old(Mine()))
      ensures res.Err? ==> res.error != OptimisticLock
    {
      hide IsForest, RecordOk, HasIps;
      if child.parent.None? {
        return Err(Rejected);
      }
      var parent := PrefixFrom(child.parent.value);
      if parent.None? || |child.ips| > 2 {
        return Err(Rejected);
      }
      var deleted := DeletePrefix(child.cidr);
      if deleted.Err? {
        return Err(deleted.error);
      }
      res := StoreFreed(parent.value, child.cidr);
    }

    /** Write the parent back with `c` marked available: the tail of `ReleaseChild`. */
    method StoreFreed(r: Record, c: Cidr) returns (res: Result<()>)
      requires Valid() && r.namespace == namespace && Parsed(c) && Masked(c) !in Mine()
      requires r.cidr in Mine() ==> Mine()[r.cidr] == r
      modifies storage
      ensures res.Ok? <==> r.cidr in old(Mine())
      ensures res.Err? ==> res.error != OptimisticLock
      ensures Becomes(if res.Ok? then old(Mine())[r.cidr := Bump(FreeChild(r, c))] else old(Mine()))
    {
      hide IsForest, RecordOk;
      if r.cidr in Mine() {
        if c in Mine() {
          StoredIsNetwork(Mine(), c);
        }
        Forest.ReleaseChild(Mine(), r.cidr, c, Bump(FreeChild(r, c)));
      }
      ViewAfterPut(storage.prefixes, Bump(FreeChild(r, c)));
      var updated := storage.UpdatePrefix(FreeChild(r, c));
      return if updated.Ok? then Ok(()) else Err(updated.error);
    }

    /** One attempt of `AcquireIP` (no wish) or `AcquireSpecificIP` (a wish). */
    method AcquireIp(prefixCidr: Cidr, want: Option<Addr>) returns (res: Result<Addr>)
      requires Valid() && Parsed(prefixCidr)
      modifies storage
      ensures var p := Masked(prefixCidr);
              match res
              case Ok(a) =>
                && p in old(Mine()) && IpGrant(old(Mine())[p], want, a)
                && Becomes(old(Mine())[p := Bump(TakeIp(old(Mine())[p], a))])
              case Err(e) =>
                && Becomes(old(Mine())) && e != OptimisticLock
                && (e == NotFound <==> p !in old(Mine()))
                && (p in old(Mine()) ==> IpRefusal(old(Mine())[p], want, e))
    {
      var found := PrefixFrom(prefixCidr);
      if found.None? {
        return Err(NotFound);
      }
      var r := found.value;
      if r.isParent {
        return Err(Rejected);
      }
      if want.Some? {
        if !Contains(r.cidr, want.value) {
          return Err(Rejected);
        }
        if want.value in r.ips {
          return Err(AlreadyAllocated);
        }
        StartAtWish(r, want.value);
      }
      ScanLeast(r);
      var start := if want.Some? then want.value else FirstAddr(r.cidr);
      var ip := FindFree(r, want, start);
      if ip.None? {
        return Err(NoIpAvailable);
      }
      TakeIpOk(r, ip.value);
      var updated := StoreIps(r, TakeIp(r, ip.value));
      return Ok(ip.value);
    }

    /** Write a record back with a changed address set. */
    method StoreIps(r: Record, r': Record) returns (res: Result<Record>)
      requires Valid() && r.cidr in Mine() && Mine()[r.cidr] == r
      requires r' == r.(ips := r'.ips) && RecordOk(r')
      modifies storage
      ensures res.Ok? && Becomes(old(Mine())[r.cidr := Bump(r')])
    {
      hide IsForest, RecordOk;
      VersionOk(r', r'.version + 1);
      ChangeIps(Mine(), r.cidr, Bump(r'));
      ViewAfterPut(storage.prefixes, Bump(r'));
      res := storage.UpdatePrefix(r');
    }

    /** One attempt of `ReleaseIPFromPrefix`. */
    method ReleaseIp(prefixCidr: Cidr, a: Addr) returns (res: Result<()>)
      requires Valid() && Parsed(prefixCidr)
      modifies storage
      ensures var p := Masked(prefixCidr);
              && (res.Ok? <==> p in old(Mine()) && a in old(Mine())[p].ips && a !in ReservedAddrs(p))
              && (res.Err? ==> (res.error == NotFound <==> !(p in old(Mine()) && a in old(Mine())[p].ips)))
              && Becomes(if res.Ok? then old(Mine())[p := Bump(DropIp(old(Mine())[p], a))] else old(Mine()))
      ensures res.Err? ==> res.error != OptimisticLock
    {
      var found := PrefixFrom(prefixCidr);
      if found.None? || a !in found.value.ips {
        return Err(NotFound);
      }
      var r := found.value;
      if a == FirstAddr(r.cidr) || (a.family.V4? && a == LastAddr(r.cidr)) {
        return Err(Rejected);
      }
      DropIpOk(r, a);
      var updated := StoreIps(r, DropIp(r, a));
      return Ok(());
    }
  }

  lemma StoredIsNetwork(s: Stored, c: Cidr)
    requires IsForest(s) && c in s
    ensures IsNetwork(c)
  {
  }

  lemma StoredParsed(s: Stored, cs: seq<Cidr>)
    requires IsForest(s) && forall c :: c in cs ==> c in s
    ensures AllParsed(cs)
  {
    forall i | 0 <= i < |cs| ensures Parsed(cs[i]) {
      assert cs[i] in s;
    }
  }

  predicate Deletable(r: Record) {
    !HasIps(r) && Taken(r) == {}
  }

  predicate Releasable(s: Stored, child: Record)
    requires Parsed(child.cidr) && (child.parent.Some? ==> Parsed(child.parent.value))
  {
    && child.parent.Some? && Masked(child.parent.value) in s
    && |child.ips| <= 2
    && Masked(child.cidr) in s && Deletable(s[Masked(child.cidr)])
  }

  /** Which address an acquisition returns. */
  ghost predicate IpGrant(r: Record, want: Option<Addr>, a: Addr) {
    && IsNetwork(r.cidr) && !r.isParent
    && (if want.Some? then want == Some(a) && Contains(r.cidr, a) && a !in r.ips else LeastFree(r, a))
  }

  lemma GrantInside(r: Record, want: Option<Addr>, a: Addr)
    requires IpGrant(r, want, a)
    ensures !r.isParent && Contains(r.cidr, a)
  {
  }

  /** Why an acquisition fails. */
  ghost predicate IpRefusal(r: Record, want: Option<Addr>, e: Error) {
    && IsNetwork(r.cidr)
    && (e == AlreadyAllocated <==> !r.isParent && want.Some? && want.value in r.ips && Contains(r.cidr, want.value))
    && (e == NoIpAvailable <==> !r.isParent && want.None? && forall a | Contains(r.cidr, a) :: a in r.ips)
    && (e == Rejected <==> r.isParent || (want.Some? && !Contains(r.cidr, want.value)))
  }
}
