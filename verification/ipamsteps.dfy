/** The calls of the address manager as steps from one state of a namespace to the next. */
module IpamSteps {
  import opened Options
  import opened Cidrs
  import opened Records
  import opened Forest
  import opened Ipam

  datatype Op =
    | NewPrefix(cidr: Cidr)
    | DeletePrefix(cidr: Cidr)
    | AcquireChild(parent: Cidr, length: nat)
    | AcquireSpecificChild(parent: Cidr, child: Cidr)
    | ReleaseChild(record: Record)
    | AcquireIp(prefix: Cidr)
    | AcquireSpecificIp(prefix: Cidr, ip: Addr)
    | ReleaseIp(prefix: Cidr, ip: Addr)

  /** The arguments parse, and a requested length exists in the family. */
  predicate WellFormed(op: Op) {
    match op
    case NewPrefix(c) => Parsed(c)
    case DeletePrefix(c) => Parsed(c)
    case AcquireChild(p, n) => Parsed(p) && n <= Width(p.family)
    case AcquireSpecificChild(p, c) => Parsed(p) && Parsed(c)
    case ReleaseChild(r) => Parsed(r.cidr) && (r.parent.Some? ==> Parsed(r.parent.value))
    case AcquireIp(p) => Parsed(p)
    case AcquireSpecificIp(p, _) => Parsed(p)
    case ReleaseIp(p, _) => Parsed(p)
  }

  /** A child request: reserve some suitable block and create its record, or change nothing. */
  ghost predicate Acquires(s: Stored, p: Cidr, want: Option<Cidr>, bits: nat, s': Stored, namespace: string)
    requires want.Some? ==> Parsed(want.value)
  {
    if p in s && !HasIps(s[p]) && exists c :: Grantable(s[p], want, bits, c) then
      exists c :: Grantable(s[p], want, bits, c) && s' == Grown(s, p, c, namespace)
    else
      s' == s
  }

  function Grown(s: Stored, p: Cidr, c: Cidr, namespace: string): (s': Stored)
    requires p in s && c.bits <= Width(c.family)
  {
    s[p := Bump(TakeChild(s[p], c))][c := NewRecord(c, Some(p), namespace)]
  }

  /** An address request: take a suitable address, or change nothing. */
  ghost predicate TakesIp(s: Stored, p: Cidr, want: Option<Addr>, s': Stored) {
    s' == s || (p in s && exists a :: IpGrant(s[p], want, a) && s' == s[p := Bump(TakeIp(s[p], a))])
  }

  /** What a release leaves, whatever it answers. */
  function Released(s: Stored, child: Record): (s': Stored)
    requires Parsed(child.cidr) && (child.parent.Some? ==> Parsed(child.parent.value))
  {
    if !Releasable(s, child) then s
    else
      var p, c := Masked(child.parent.value), Masked(child.cidr);
      if p == c then s - {c} else (s - {c})[p := Bump(FreeChild(s[p], child.cidr))]
  }

  function ReleasedIp(s: Stored, p: Cidr, a: Addr): (s': Stored)
    requires p.bits <= Width(p.family)
  {
    if p in s && a in s[p].ips && a !in ReservedAddrs(p) then s[p := Bump(DropIp(s[p], a))] else s
  }

  function Rooted(s: Stored, c: Cidr, namespace: string): (s': Stored)
    requires Parsed(c)
  {
    if forall d | d in s ::
        Parsed(d) && !Overlaps(d, Masked(c)) then s[Masked(c) := NewRecord(c, None, namespace)] else s
  }

  function Dropped(s: Stored, c: Cidr): (s': Stored) {
    if c in s && Deletable(s[c]) then s - {c} else s
  }

  /** One call takes the namespace from `s` to `s'`. */
  ghost predicate Next(s: Stored, op: Op, s': Stored, namespace: string)
    requires WellFormed(op)
  {
    match op
    case NewPrefix(c) => s' == Rooted(s, c, namespace)
    case DeletePrefix(c) => s' == Dropped(s, Masked(c))
    case AcquireChild(p, n) => Acquires(s, Masked(p), None, n, s', namespace)
    case AcquireSpecificChild(p, c) => Acquires(s, Masked(p), Some(c), 0, s', namespace)
    case ReleaseChild(child) => s' == Released(s, child)
    case AcquireIp(p) => TakesIp(s, Masked(p), None, s')
    case AcquireSpecificIp(p, a) => TakesIp(s, Masked(p), Some(a), s')
    case ReleaseIp(p, a) => s' == ReleasedIp(s, Masked(p), a)
  }

  /** The calls, in this order, can take the namespace from `s` to `t`. */
  ghost predicate Leads(s: Stored, ops: seq<Op>, t: Stored, namespace: string)
    decreases |ops|
  {
    if ops == [] then t == s
    else WellFormed(ops[0]) && exists mid :: Next(s, ops[0], mid, namespace) && Leads(mid, ops[1..], t, namespace)
  }

  lemma LeadsFirst(s: Stored, op: Op, mid: Stored, ops: seq<Op>, t: Stored, namespace: string)
    requires WellFormed(op) && Next(s, op, mid, namespace) && Leads(mid, ops, t, namespace)
    ensures Leads(s, [op] + ops, t, namespace)
  {
    hide Next, WellFormed;
    assert ([op] + ops)[1..] == ops;
  }

  lemma {:induction false} LeadsLast(s: Stored, ops: seq<Op>, mid: Stored, op: Op, t: Stored, namespace: string)
    requires WellFormed(op) && Leads(s, ops, mid, namespace) && Next(mid, op, t, namespace)
    ensures Leads(s, ops + [op], t, namespace)
    decreases |ops|
  {
    hide Next, WellFormed;
    if ops == [] {
      assert Leads(t, [], t, namespace);
      LeadsFirst(s, op, t, [], t, namespace);
      assert ops + [op] == [op] + [];
    } else {
      var m :| Next(s, ops[0], m, namespace) && Leads(m, ops[1..], mid, namespace);
      LeadsLast(m, ops[1..], mid, op, t, namespace);
      LeadsFirst(s, ops[0], m, ops[1..] + [op], t, namespace);
      assert ops + [op] == [ops[0]] + (ops[1..] + [op]);
    }
  }

  lemma LeadsNone(s: Stored, ops: seq<Op>, namespace: string)
    ensures Leads(s, ops[..0], s, namespace)
  {
  }

  /** One more call of a list. */
  lemma LeadsOn(s: Stored, ops: seq<Op>, i: nat, mid: Stored, t: Stored, namespace: string)
    requires i < |ops| && WellFormed(ops[i])
    requires Leads(s, ops[..i], mid, namespace) && Next(mid, ops[i], t, namespace)
    ensures Leads(s, ops[..i + 1], t, namespace)
  {
    hide *;
    LeadsLast(s, ops[..i], mid, ops[i], t, namespace);
    assert ops[..i + 1] == ops[..i] + [ops[i]];
  }

  // ---- Every step keeps the forest ----

  lemma GrownForest(s: Stored, p: Cidr, want: Option<Cidr>, bits: nat, c: Cidr, namespace: string)
    requires IsForest(s) && p in s && !HasIps(s[p]) && (want.Some? ==> Parsed(want.value))
    requires Grantable(s[p], want, bits, c)
    ensures c !in s && IsForest(Grown(s, p, c, namespace))
  {
    assert s[p].cidr == p;
    AddChild(s, p, c, Bump(TakeChild(s[p], c)), namespace);
  }

  lemma ReleasedForest(s: Stored, child: Record)
    requires IsForest(s) && Parsed(child.cidr) && (child.parent.Some? ==> Parsed(child.parent.value))
    ensures IsForest(Released(s, child))
  {
    if Releasable(s, child) {
      var p, c := Masked(child.parent.value), Masked(child.cidr);
      RemoveLeaf(s, c);
      if p != c {
        var t := s - {c};
        hide IsForest;
        if child.cidr in t {
          StoredMasked(t, child.cidr);
        }
        Forest.ReleaseChild(t, p, child.cidr, Bump(FreeChild(s[p], child.cidr)));
      }
    }
  }

  lemma StoredMasked(s: Stored, c: Cidr)
    requires IsForest(s) && c in s
    ensures Parsed(c) && Masked(c) == c && s[c].cidr == c
  {
  }

  lemma IpsForest(s: Stored, p: Cidr, r: Record)
    requires IsForest(s) && p in s && RecordOk(r) && r == s[p].(ips := r.ips)
    ensures IsForest(s[p := Bump(r)])
  {
    VersionOk(r, r.version + 1);
    ChangeIps(s, p, Bump(r));
  }

  lemma RootedForest(s: Stored, c: Cidr, namespace: string)
    requires IsForest(s) && Parsed(c)
    ensures IsForest(Rooted(s, c, namespace))
  {
    MaskedIsNetwork(c);
    if forall d | d in s :: Parsed(d) && !Overlaps(d, Masked(c)) {
      AddRoot(s, Masked(c), namespace);
      SameNewRecord(c, namespace);
    }
  }

  lemma SameNewRecord(c: Cidr, namespace: string)
    requires Parsed(c)
    ensures IsNetwork(Masked(c)) && NewRecord(c, None, namespace) == NewRecord(Masked(c), None, namespace)
  {
    MaskedIsNetwork(c);
    assert FirstAddr(c) == FirstAddr(Masked(c)) && LastAddr(c) == LastAddr(Masked(c));
  }

  lemma NextForest(s: Stored, op: Op, s': Stored, namespace: string)
    requires IsForest(s) && WellFormed(op) && Next(s, op, s', namespace)
    ensures IsForest(s')
  {
    hide IsForest;
    match op
    case NewPrefix(c) => RootedForest(s, c, namespace);
    case DeletePrefix(c) => DroppedForest(s, Masked(c));
    case AcquireChild(p, n) => AcquiresForest(s, Masked(p), None, n, s', namespace);
    case AcquireSpecificChild(p, c) => AcquiresForest(s, Masked(p), Some(c), 0, s', namespace);
    case ReleaseChild(child) => ReleasedForest(s, child);
    case AcquireIp(p) => TakesIpForest(s, Masked(p), None, s');
    case AcquireSpecificIp(p, a) => TakesIpForest(s, Masked(p), Some(a), s');
    case ReleaseIp(p, a) => ReleasedIpForest(s, Masked(p), a);
  }

  lemma DroppedForest(s: Stored, c: Cidr)
    requires IsForest(s)
    ensures IsForest(Dropped(s, c))
  {
    if c in s && Deletable(s[c]) {
      RemoveLeaf(s, c);
    }
  }

  lemma AcquiresForest(s: Stored, p: Cidr, want: Option<Cidr>, bits: nat, s': Stored, namespace: string)
    requires IsForest(s) && (want.Some? ==> Parsed(want.value)) && Acquires(s, p, want, bits, s', namespace)
    ensures IsForest(s')
  {
    hide IsForest, HasIps, Grown;
    if p in s && !HasIps(s[p]) && exists c :: Grantable(s[p], want, bits, c) {
      var c :| Grantable(s[p], want, bits, c) && s' == Grown(s, p, c, namespace);
      GrownForest(s, p, want, bits, c, namespace);
    }
  }

  lemma TakesIpForest(s: Stored, p: Cidr, want: Option<Addr>, s': Stored)
    requires IsForest(s) && TakesIp(s, p, want, s')
    ensures IsForest(s')
  {
    if s' != s {
      var a :| IpGrant(s[p], want, a) && s' == s[p := Bump(TakeIp(s[p], a))];
      GrantInside(s[p], want, a);
      assert RecordOk(s[p]);
      TakeIpOk(s[p], a);
      IpsForest(s, p, TakeIp(s[p], a));
    }
  }

  lemma ReleasedIpForest(s: Stored, p: Cidr, a: Addr)
    requires IsForest(s) && p.bits <= Width(p.family)
    ensures IsForest(ReleasedIp(s, p, a))
  {
    if p in s && a in s[p].ips && a !in ReservedAddrs(p) {
      assert RecordOk(s[p]) && s[p].cidr == p;
      DropIpOk(s[p], a);
      IpsForest(s, p, DropIp(s[p], a));
    }
  }

  // ---- Allocated addresses ----

  /** The address is allocated from the stored prefix. */
  predicate Allocated(s: Stored, p: Cidr, a: Addr) {
    p in s && p.bits <= Width(p.family) && a in s[p].ips && a !in ReservedAddrs(p)
  }

  /** The calls that allocate an address, and the one that gives it back. */
  predicate MayAllocate(op: Op, p: Cidr, a: Addr)
    requires WellFormed(op)
  {
    match op
    case AcquireIp(q) => Masked(q) == p
    case AcquireSpecificIp(q, b) => Masked(q) == p && b == a
    case _ => false
  }

  predicate GivesBack(op: Op, p: Cidr, a: Addr)
    requires WellFormed(op)
  {
    op.ReleaseIp? && Masked(op.prefix) == p && op.ip == a
  }

  lemma NotDeletable(s: Stored, p: Cidr, a: Addr)
    requires IsForest(s) && Allocated(s, p, a)
    ensures HasIps(s[p]) && !Deletable(s[p])
  {
    assert RecordOk(s[p]) && s[p].cidr == p;
    HasIpsExact(s[p]);
  }

  lemma FreshIps(c: Cidr, parent: Option<Cidr>, namespace: string, a: Addr)
    requires Parsed(c)
    ensures !(a in NewRecord(c, parent, namespace).ips && a !in ReservedAddrs(Masked(c)))
  {
    MaskedIsNetwork(c);
    assert FirstAddr(c) == FirstAddr(Masked(c)) && LastAddr(c) == LastAddr(Masked(c));
  }

  /** An address stays allocated until it is given back, and only an acquisition of it allocates it. */
  lemma AddressesKept(s: Stored, op: Op, s': Stored, namespace: string, p: Cidr, a: Addr)
    requires IsForest(s) && WellFormed(op) && Next(s, op, s', namespace)
    ensures Allocated(s, p, a) && !GivesBack(op, p, a) ==> Allocated(s', p, a)
    ensures Allocated(s', p, a) ==> Allocated(s, p, a) || MayAllocate(op, p, a)
    ensures GivesBack(op, p, a) ==> !Allocated(s', p, a)
  {
    if Allocated(s, p, a) {
      NotDeletable(s, p, a);
    }
    match op
    case NewPrefix(c) => RootedIps(s, c, namespace, p, a);
    case DeletePrefix(_) =>
    case AcquireChild(q, n) => AcquiresIps(s, Masked(q), None, n, s', namespace, p, a);
    case AcquireSpecificChild(q, c) => AcquiresIps(s, Masked(q), Some(c), 0, s', namespace, p, a);
    case ReleaseChild(child) => ReleasedIps(s, child, p, a);
    case AcquireIp(q) => TakesIpIps(s, Masked(q), None, s', p, a);
    case AcquireSpecificIp(q, b) => TakesIpIps(s, Masked(q), Some(b), s', p, a);
    case ReleaseIp(q, b) =>
  }

  lemma RootedIps(s: Stored, c: Cidr, namespace: string, p: Cidr, a: Addr)
    requires IsForest(s) && Parsed(c)
    ensures Allocated(Rooted(s, c, namespace), p, a) <==> Allocated(s, p, a)
  {
    FreshIps(c, None, namespace, a);
    MaskedIsNetwork(c);
    if forall d | d in s :: Parsed(d) && !Overlaps(d, Masked(c)) {
      AddRoot(s, Masked(c), namespace);
    }
    hide IsForest, ReservedAddrs, NewRecord, Overlaps, Clear;
  }

  lemma GrownIps(s: Stored, q: Cidr, c: Cidr, namespace: string, p: Cidr, a: Addr)
    requires q in s && c !in s && IsNetwork(c)
    ensures Allocated(Grown(s, q, c, namespace), p, a) <==> Allocated(s, p, a)
  {
    FreshIps(c, Some(q), namespace, a);
    assert Masked(c) == c;
    hide ReservedAddrs, NewRecord, Clear;
  }

  lemma AcquiresIps(s: Stored, q: Cidr, want: Option<Cidr>, bits: nat, s': Stored, namespace: string, p: Cidr, a: Addr)
    requires IsForest(s) && (want.Some? ==> Parsed(want.value)) && Acquires(s, q, want, bits, s', namespace)
    ensures Allocated(s', p, a) <==> Allocated(s, p, a)
  {
    hide IsForest, HasIps, Grown, Allocated, Covers, Taken;
    if q in s && !HasIps(s[q]) && exists c :: Grantable(s[q], want, bits, c) {
      var c :| Grantable(s[q], want, bits, c) && s' == Grown(s, q, c, namespace);
      GrownForest(s, q, want, bits, c, namespace);
      GrownIps(s, q, c, namespace, p, a);
    }
  }

  lemma ReleasedIps(s: Stored, child: Record, p: Cidr, a: Addr)
    requires IsForest(s) && Parsed(child.cidr) && (child.parent.Some? ==> Parsed(child.parent.value))
    ensures Allocated(Released(s, child), p, a) <==> Allocated(s, p, a)
  {
    if Allocated(s, p, a) {
      NotDeletable(s, p, a);
    }
    hide IsForest, HasIps, Taken, ReservedAddrs, Clear;
  }

  lemma TakesIpIps(s: Stored, q: Cidr, want: Option<Addr>, s': Stored, p: Cidr, a: Addr)
    requires TakesIp(s, q, want, s')
    ensures Allocated(s, p, a) ==> Allocated(s', p, a)
    ensures Allocated(s', p, a) ==> Allocated(s, p, a) || (p == q && (want.Some? ==> a == want.value))
  {
    if s' != s {
      var b :| IpGrant(s[q], want, b) && s' == s[q := Bump(TakeIp(s[q], b))];
      hide ReservedAddrs;
    }
  }
}
