/** One stored prefix record and the updates the address manager computes on it.
    The sequential manager and the interleaved one share these definitions. */
module Records {
  import opened Options
  import opened Cidrs

  /** `childPrefixLength` is a legacy field that new records leave at zero. */
  datatype Record = Record(
    cidr: Cidr,
    parent: Option<Cidr>,
    namespace: string,
    isParent: bool,
    children: map<Cidr, bool>,  // child network -> available again
    childPrefixLength: int,
    ips: set<Addr>,
    version: nat)

  function LastAddr(c: Cidr): (a: Addr)
    requires c.bits <= Width(c.family)
  {
    Addr(c.family, Mask(c.family, c.addr, c.bits) + BlockSize(c.family, c.bits) - 1)
  }

  function FirstAddr(c: Cidr): (a: Addr)
    requires c.bits <= Width(c.family)
  {
    Addr(c.family, Mask(c.family, c.addr, c.bits))
  }

  /** The addresses a prefix never hands out: the network address and, for IPv4, the broadcast address. */
  function ReservedAddrs(c: Cidr): (s: set<Addr>)
    requires c.bits <= Width(c.family)
  {
    if c.family.V4? then {FirstAddr(c), LastAddr(c)} else {FirstAddr(c)}
  }

  /** The child networks marked as taken. */
  function Taken(r: Record): (s: set<Cidr>) {
    set k | k in r.children && !r.children[k]
  }

  function NewRecord(c: Cidr, parent: Option<Cidr>, namespace: string): (r: Record)
    requires c.bits <= Width(c.family)
  {
    Record(Masked(c), parent, namespace, false, map[], 0, ReservedAddrs(c), 0)
  }

  /** The allocation test the manager uses: it only counts entries. */
  predicate HasIps(r: Record) {
    if r.cidr.family.V4? then |r.ips| > 2 else |r.ips| > 1
  }

  function AcquiredPrefixes(r: Record): (n: nat) {
    |Taken(r)|
  }

  // ---- The four updates ----

  function TakeChild(r: Record, c: Cidr): (r': Record) {
    r.(children := r.children[c := false], isParent := true)
  }

  function FreeChild(r: Record, c: Cidr): (r': Record) {
    r.(children := r.children[c := true])
  }

  function TakeIp(r: Record, a: Addr): (r': Record) {
    r.(ips := r.ips + {a})
  }

  function DropIp(r: Record, a: Addr): (r': Record) {
    r.(ips := r.ips - {a})
  }

  /** A network of the free space: inside the record's prefix and clear of every taken child. */
  predicate FreeNetwork(r: Record, c: Cidr) {
    && IsNetwork(c)
    && Covers(r.cidr, c)
    && forall k | k in Taken(r) :: !Covers(k, c) && !Covers(c, k)
  }

  // ---- What every reachable record satisfies ----

  predicate ChildrenOk(r: Record) {
    && (forall k | k in Taken(r) :: IsNetwork(k) && k != r.cidr && Covers(r.cidr, k))
    && (forall j, k | j in Taken(r) && k in Taken(r) && j != k :: !Covers(j, k))
  }

  predicate IpsOk(r: Record)
    requires r.cidr.bits <= Width(r.cidr.family)
  {
    && ReservedAddrs(r.cidr) <= r.ips
    && (forall a | a in r.ips :: Contains(r.cidr, a))
  }

  /** A legacy child length never stands without the parent mark. */
  predicate Current(r: Record) {
    r.childPrefixLength > 0 ==> r.isParent
  }

  predicate RecordOk(r: Record) {
    && IsNetwork(r.cidr)
    && Current(r)
    && ChildrenOk(r)
    && IpsOk(r)
    && (r.isParent ==> r.ips == ReservedAddrs(r.cidr))
    && (Taken(r) != {} ==> r.isParent)
  }

  // ---- Exclusive use ----

  lemma {:induction false} ClearRange(base: nat, a: nat, host: nat)
    requires Clear(base, host) == base
    ensures Clear(a, host) == base <==> base <= a < base + Pow2(host)
  {
    if host > 0 {
      ClearRange(base / 2, a / 2, host - 1);
    }
  }

  lemma ContainsRange(c: Cidr, a: Addr)
    requires IsNetwork(c)
    ensures Contains(c, a) <==>
            a.family == c.family && c.addr <= a.value < c.addr + BlockSize(c.family, c.bits)
  {
    ClearRange(c.addr, a.value, Width(c.family) - c.bits);
  }

  /** No address of the prefix is smaller, or none is larger. */
  ghost predicate IsLowest(c: Cidr, a: Addr)
    requires c.bits <= Width(c.family)
  {
    Contains(c, a) && forall b | Contains(c, b) :: a.value <= b.value
  }

  ghost predicate IsHighest(c: Cidr, a: Addr)
    requires c.bits <= Width(c.family)
  {
    Contains(c, a) && forall b | Contains(c, b) :: b.value <= a.value
  }

  /** The reserved addresses are the lowest one of the prefix and, for IPv4, the highest. */
  lemma ReservedExact(c: Cidr, a: Addr)
    requires IsNetwork(c)
    ensures a in ReservedAddrs(c) <==> IsLowest(c, a) || (c.family.V4? && IsHighest(c, a))
  {
    var first, last := FirstAddr(c), LastAddr(c);
    ContainsRange(c, first);
    ContainsRange(c, last);
    ContainsRange(c, a);
    forall b | Contains(c, b) ensures first.value <= b.value <= last.value && b.family == c.family {
      ContainsRange(c, b);
    }
    hide Contains, Mask, BlockSize;
    assert IsLowest(c, first) && IsHighest(c, last);
  }

  /** The entry count of `HasIps` is exact, also for /31, /32 and /128. */
  lemma HasIpsExact(r: Record)
    requires RecordOk(r)
    ensures HasIps(r) <==> exists a :: a in r.ips && a !in ReservedAddrs(r.cidr)
  {
    var fixed := ReservedAddrs(r.cidr);
    var extra := r.ips - fixed;
    assert r.ips == fixed + extra;
    assert |r.ips| == |fixed| + |extra|;
    if extra != {} {
      var a :| a in extra;
      ContainsRange(r.cidr, a);
      assert r.cidr.family.V4? ==> FirstAddr(r.cidr) != LastAddr(r.cidr);
    } else {
      assert r.ips == fixed;
    }
  }

  lemma SameHasIps(r: Record, r': Record)
    requires r.ips == r'.ips && r.cidr == r'.cidr
    ensures HasIps(r) <==> HasIps(r')
  {
  }

  lemma NewRecordOk(c: Cidr, parent: Option<Cidr>, namespace: string)
    requires Parsed(c)
    ensures RecordOk(NewRecord(c, parent, namespace))
    ensures !HasIps(NewRecord(c, parent, namespace)) && Taken(NewRecord(c, parent, namespace)) == {}
  {
    MaskedIsNetwork(c);
    var n := Masked(c);
    assert Mask(n.family, n.addr, n.bits) == n.addr;
    assert FirstAddr(c) == FirstAddr(n) && LastAddr(c) == LastAddr(n);
    ContainsRange(n, FirstAddr(n));
    ContainsRange(n, LastAddr(n));
    HasIpsExact(NewRecord(c, parent, namespace));
  }

  lemma TakenAfterTake(r: Record, c: Cidr)
    ensures Taken(TakeChild(r, c)) == Taken(r) + {c}
  {
  }

  lemma TakenAfterFree(r: Record, c: Cidr)
    ensures Taken(FreeChild(r, c)) == Taken(r) - {c}
  {
  }

  lemma VersionOk(r: Record, v: nat)
    requires RecordOk(r)
    ensures RecordOk(r.(version := v)) && Taken(r.(version := v)) == Taken(r)
  {
  }

  lemma TakeChildOk(r: Record, c: Cidr)
    requires RecordOk(r) && !HasIps(r) && FreeNetwork(r, c) && c != r.cidr
    ensures RecordOk(TakeChild(r, c))
  {
    TakenAfterTake(r, c);
    HasIpsExact(r);
    assert r.ips == ReservedAddrs(r.cidr);
  }

  lemma FreeChildOk(r: Record, c: Cidr)
    requires RecordOk(r)
    ensures RecordOk(FreeChild(r, c))
  {
    TakenAfterFree(r, c);
  }

  lemma TakeIpOk(r: Record, a: Addr)
    requires RecordOk(r) && !r.isParent && Contains(r.cidr, a)
    ensures RecordOk(TakeIp(r, a))
  {
    assert Taken(TakeIp(r, a)) == Taken(r);
  }

  lemma DropIpOk(r: Record, a: Addr)
    requires RecordOk(r) && a !in ReservedAddrs(r.cidr)
    ensures RecordOk(DropIp(r, a))
  {
    assert Taken(DropIp(r, a)) == Taken(r);
  }
}
