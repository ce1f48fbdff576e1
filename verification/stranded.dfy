/** Reserved subnets that no sequence of calls can free again. Deleting a child directly leaves its entry in
    the parent reserved, without a record that a release could find; such a hole also strands every subnet
    above it. */
module Stranded {
  import opened Options
  import opened Cidrs
  import opened Records
  import opened Forest
  import opened Memory
  import opened Ipam
  import opened IpamSteps
  import opened IpamRuns

  /** An entry that is reserved in a stored prefix and has no record. */
  predicate Hole(s: Stored, q: Cidr, c: Cidr) {
    q in s && c in Taken(s[q]) && c !in s
  }

  /** The subnet has no record, or some stored prefix in it has a hole. */
  ghost predicate Strands(s: Stored, k: Cidr) {
    k !in s || exists q, c :: Covers(k, q) && Hole(s, q, c)
  }

  // ---- Holes stay ----

  lemma HoleInside(s: Stored, q: Cidr, c: Cidr)
    requires IsForest(s) && Hole(s, q, c)
    ensures IsNetwork(q) && IsNetwork(c) && Covers(q, c) && RecordOk(s[q]) && s[q].cidr == q
  {
    assert RecordOk(s[q]);
  }

  /** No stored prefix offers the hole as free space. */
  lemma HoleNotFree(s: Stored, q: Cidr, c: Cidr, p: Cidr)
    requires IsForest(s) && Hole(s, q, c) && p in s
    ensures !FreeNetwork(s[p], c)
  {
    HoleInside(s, q, c);
    assert RecordOk(s[p]) && s[p].cidr == p;
    CoversReflexive(c);
    if Covers(p, c) && p != q {
      if p.bits <= q.bits {
        CoversLinear(p, q, c);
        CoveringIsAncestor(s, p, q);
        var k := ChildOnPath(s, p, q);
        CoversTransitive(k, q, c);
      } else {
        CoversLinear(q, p, c);
        CoveringIsAncestor(s, q, p);
        var k := ChildOnPath(s, q, p);
        CoversTransitive(k, p, c);
        TakenNested(s[q], k, c);
      }
    }
  }

  lemma HoleRooted(s: Stored, d: Cidr, namespace: string, q: Cidr, c: Cidr)
    requires IsForest(s) && Hole(s, q, c) && Parsed(d)
    ensures Hole(Rooted(s, d, namespace), q, c)
  {
    HoleInside(s, q, c);
    CoversReflexive(q);
    OverlapsIsNesting(q, c);
    OverlapsIsNesting(q, q);
  }

  lemma HoleGrown(s: Stored, p: Cidr, want: Option<Cidr>, bits: nat, d: Cidr, namespace: string, q: Cidr, c: Cidr)
    requires IsForest(s) && Hole(s, q, c) && p in s && !HasIps(s[p]) && (want.Some? ==> Parsed(want.value))
    requires Grantable(s[p], want, bits, d)
    ensures Hole(Grown(s, p, d, namespace), q, c)
  {
    HoleNotFree(s, q, c, p);
    GrownForest(s, p, want, bits, d, namespace);
    TakenAfterTake(s[p], d);
    BumpTaken(TakeChild(s[p], d));
    hide IsForest, RecordOk, HasIps, FreeNetwork, Taken, ReservedAddrs;
  }

  lemma HoleReleased(s: Stored, child: Record, q: Cidr, c: Cidr)
    requires IsForest(s) && Hole(s, q, c)
    requires Parsed(child.cidr) && (child.parent.Some? ==> Parsed(child.parent.value))
    ensures Hole(Released(s, child), q, c)
  {
    HoleInside(s, q, c);
    hide IsForest, RecordOk, HasIps, Taken, Clear;
    if Releasable(s, child) {
      var p := Masked(child.parent.value);
      TakenAfterFree(s[p], child.cidr);
      BumpTaken(FreeChild(s[p], child.cidr));
    }
  }

  lemma HoleSameTaken(s: Stored, p: Cidr, r: Record, q: Cidr, c: Cidr)
    requires Hole(s, q, c) && p in s && Taken(r) == Taken(s[p])
    ensures Hole(s[p := r], q, c)
  {
    hide Taken;
  }

  lemma IpTaken(r: Record, a: Addr)
    ensures Taken(Bump(TakeIp(r, a))) == Taken(r) && Taken(Bump(DropIp(r, a))) == Taken(r)
  {
  }

  lemma HoleStays(s: Stored, op: Op, s': Stored, namespace: string, q: Cidr, c: Cidr)
    requires IsForest(s) && Hole(s, q, c) && WellFormed(op) && Next(s, op, s', namespace)
    ensures Hole(s', q, c)
  {
    match op
    case NewPrefix(d) => HoleRooted(s, d, namespace, q, c);
    case DeletePrefix(_) =>
    case AcquireChild(p, n) => HoleAcquires(s, Masked(p), None, n, s', namespace, q, c);
    case AcquireSpecificChild(p, d) => HoleAcquires(s, Masked(p), Some(d), 0, s', namespace, q, c);
    case ReleaseChild(child) => HoleReleased(s, child, q, c);
    case AcquireIp(p) => HoleTakesIp(s, Masked(p), None, s', q, c);
    case AcquireSpecificIp(p, a) => HoleTakesIp(s, Masked(p), Some(a), s', q, c);
    case ReleaseIp(p, a) =>
      if s' != s {
        IpTaken(s[Masked(p)], a);
        HoleSameTaken(s, Masked(p), Bump(DropIp(s[Masked(p)], a)), q, c);
      }
  }

  lemma HoleAcquires(s: Stored, p: Cidr, want: Option<Cidr>, bits: nat, s': Stored, namespace: string, q: Cidr, c: Cidr)
    requires IsForest(s) && Hole(s, q, c) && (want.Some? ==> Parsed(want.value))
    requires Acquires(s, p, want, bits, s', namespace)
    ensures Hole(s', q, c)
  {
    hide IsForest, HasIps, Hole, Grown;
    if p in s && !HasIps(s[p]) && exists d :: Grantable(s[p], want, bits, d) {
      var d :| Grantable(s[p], want, bits, d) && s' == Grown(s, p, d, namespace);
      HoleGrown(s, p, want, bits, d, namespace, q, c);
    }
  }

  lemma HoleTakesIp(s: Stored, p: Cidr, want: Option<Addr>, s': Stored, q: Cidr, c: Cidr)
    requires IsForest(s) && Hole(s, q, c) && TakesIp(s, p, want, s')
    ensures Hole(s', q, c)
  {
    hide IsForest, Hole, IpGrant;
    if s' != s {
      var a :| IpGrant(s[p], want, a) && s' == s[p := Bump(TakeIp(s[p], a))];
      IpTaken(s[p], a);
      HoleSameTaken(s, p, Bump(TakeIp(s[p], a)), q, c);
    }
  }

  // ---- Stranded subnets stay reserved ----

  /** The subnet is reserved in the stored prefix. */
  predicate Held(s: Stored, p: Cidr, k: Cidr) {
    p in s && k in Taken(s[p])
  }

  /** A stored prefix with a hole in it or below it is not deletable. */
  lemma HoleBlocks(s: Stored, k: Cidr, q: Cidr, c: Cidr)
    requires IsForest(s) && k in s && Covers(k, q) && Hole(s, q, c)
    ensures Taken(s[k]) != {}
  {
    if k != q {
      CoveringIsAncestor(s, k, q);
      var j := ChildOnPath(s, k, q);
    }
  }

  /** Only a release of the stored, deletable subnet itself takes it out of its parent. */
  lemma HeldUnlessReleased(s: Stored, op: Op, s': Stored, namespace: string, p: Cidr, k: Cidr)
    requires IsForest(s) && Held(s, p, k) && WellFormed(op) && Next(s, op, s', namespace)
    requires op.ReleaseChild? ==> !(op.record.cidr == k && k in s && Taken(s[k]) == {})
    ensures Held(s', p, k)
  {
    if Held(s, p, k) && k !in s {
      HoleStays(s, op, s', namespace, p, k);
    } else {
      match op
      case NewPrefix(d) => HeldRooted(s, d, namespace, p, k);
      case DeletePrefix(_) =>
      case AcquireChild(q, n) => HeldAcquires(s, Masked(q), None, n, s', namespace, p, k);
      case AcquireSpecificChild(q, d) => HeldAcquires(s, Masked(q), Some(d), 0, s', namespace, p, k);
      case ReleaseChild(child) => HeldReleased(s, child, p, k);
      case AcquireIp(q) => HeldTakesIp(s, Masked(q), None, s', p, k);
      case AcquireSpecificIp(q, a) => HeldTakesIp(s, Masked(q), Some(a), s', p, k);
      case ReleaseIp(q, a) =>
        if s' != s {
          IpTaken(s[Masked(q)], a);
        }
    }
  }

  lemma HeldRooted(s: Stored, d: Cidr, namespace: string, p: Cidr, k: Cidr)
    requires IsForest(s) && Held(s, p, k) && Parsed(d)
    ensures Held(Rooted(s, d, namespace), p, k)
  {
    assert RecordOk(s[p]) && s[p].cidr == p;
    CoversReflexive(p);
    OverlapsIsNesting(p, p);
    hide Taken;
  }

  lemma HeldReleased(s: Stored, child: Record, p: Cidr, k: Cidr)
    requires IsForest(s) && Held(s, p, k) && Parsed(child.cidr) && (child.parent.Some? ==> Parsed(child.parent.value))
    requires !(child.cidr == k && k in s && Taken(s[k]) == {}) && k in s
    ensures Held(Released(s, child), p, k)
  {
    StoredMasked(s, k);
    hide IsForest, HasIps, Taken, Clear;
    if Releasable(s, child) {
      var q := Masked(child.parent.value);
      TakenAfterFree(s[q], child.cidr);
      BumpTaken(FreeChild(s[q], child.cidr));
    }
  }

  lemma HeldAcquires(s: Stored, q: Cidr, want: Option<Cidr>, bits: nat, s': Stored, namespace: string, p: Cidr, k: Cidr)
    requires IsForest(s) && Held(s, p, k) && (want.Some? ==> Parsed(want.value))
    requires Acquires(s, q, want, bits, s', namespace)
    ensures Held(s', p, k)
  {
    hide IsForest, HasIps, Taken, ReservedAddrs, Masked;
    if q in s && !HasIps(s[q]) && exists d :: Grantable(s[q], want, bits, d) {
      var d :| Grantable(s[q], want, bits, d) && s' == Grown(s, q, d, namespace);
      GrownForest(s, q, want, bits, d, namespace);
      TakenAfterTake(s[q], d);
      BumpTaken(TakeChild(s[q], d));
    }
  }

  lemma HeldTakesIp(s: Stored, q: Cidr, want: Option<Addr>, s': Stored, p: Cidr, k: Cidr)
    requires Held(s, p, k) && TakesIp(s, q, want, s')
    ensures Held(s', p, k)
  {
    hide IpGrant, Taken;
    if s' != s {
      var a :| IpGrant(s[q], want, a) && s' == s[q := Bump(TakeIp(s[q], a))];
      IpTaken(s[q], a);
    }
  }

  lemma StrandedStep(s: Stored, op: Op, s': Stored, namespace: string, p: Cidr, k: Cidr)
    requires IsForest(s) && Held(s, p, k) && Strands(s, k) && WellFormed(op) && Next(s, op, s', namespace)
    ensures Held(s', p, k) && Strands(s', k)
  {
    hide IsForest, Hole, Held, Next, WellFormed, Covers, Taken;
    if k !in s {
      HeldIsHole(s, p, k);
      HoleStays(s, op, s', namespace, p, k);
      HeldIsHole(s', p, k);
    } else {
      var q, c :| Covers(k, q) && Hole(s, q, c);
      HoleBlocks(s, k, q, c);
      HeldUnlessReleased(s, op, s', namespace, p, k);
      HoleStays(s, op, s', namespace, q, c);
    }
  }

  lemma HeldIsHole(s: Stored, p: Cidr, k: Cidr)
    ensures Hole(s, p, k) <==> Held(s, p, k) && k !in s
  {
  }

  /** No sequence of calls frees a stranded subnet. */
  lemma {:induction false} StrandedForever(s: Stored, ops: seq<Op>, t: Stored, namespace: string, p: Cidr, k: Cidr)
    requires IsForest(s) && Held(s, p, k) && Strands(s, k) && Leads(s, ops, t, namespace)
    ensures Held(t, p, k) && Strands(t, k)
    decreases |ops|
  {
    hide IsForest, Held, Strands, Next, WellFormed;
    if ops != [] {
      var mid :| Next(s, ops[0], mid, namespace) && Leads(mid, ops[1..], t, namespace);
      NextForest(s, ops[0], mid, namespace);
      StrandedStep(s, ops[0], mid, namespace, p, k);
      StrandedForever(mid, ops[1..], t, namespace, p, k);
    }
  }

  // ---- Any other subnet can be freed ----

  /** These calls can be made, and they free the subnet for certain. */
  ghost predicate Frees(s: Stored, ops: seq<Op>, namespace: string, p: Cidr, k: Cidr) {
    && (exists t :: Leads(s, ops, t, namespace))
    && (forall t | Leads(s, ops, t, namespace) :: p in t && k !in Taken(t[p]))
  }

  /** The call whose effect is certain. */
  predicate IsRelease(op: Op) {
    op.ReleaseChild? || op.ReleaseIp?
  }

  lemma FreesBefore(s: Stored, op: Op, mid: Stored, ops: seq<Op>, namespace: string, p: Cidr, k: Cidr)
    requires WellFormed(op) && IsRelease(op) && Next(s, op, mid, namespace) && Frees(mid, ops, namespace, p, k)
    ensures Frees(s, [op] + ops, namespace, p, k)
  {
    var t :| Leads(mid, ops, t, namespace);
    LeadsFirst(s, op, mid, ops, t, namespace);
    forall u | Leads(s, [op] + ops, u, namespace) ensures Leads(mid, ops, u, namespace) {
      assert ([op] + ops)[1..] == ops && ([op] + ops)[0] == op;
      var m :| Next(s, op, m, namespace) && Leads(m, ops, u, namespace);
    }
  }

  ghost function Inside(s: Stored, k: Cidr): (qs: set<Cidr>) {
    set q | q in s && Covers(k, q)
  }

  /** A stored prefix inside `k` with the most network bits. */
  lemma {:induction false} Deepest(qs: set<Cidr>) returns (q: Cidr)
    requires qs != {}
    ensures q in qs && forall d | d in qs :: d.bits <= q.bits
    decreases |qs|
  {
    q :| q in qs;
    if qs != {q} {
      var d := Deepest(qs - {q});
      if q.bits < d.bits {
        q := d;
      }
    }
  }

  /** The deepest stored prefix of an unstranded subnet has no reserved entry. */
  lemma DeepestIsLeaf(s: Stored, k: Cidr, q: Cidr)
    requires IsForest(s) && !Strands(s, k) && q in Inside(s, k) && forall d | d in Inside(s, k) :: d.bits <= q.bits
    ensures Taken(s[q]) == {}
  {
    if c :| c in Taken(s[q]) {
      assert !Hole(s, q, c);
      assert RecordOk(s[q]) && s[q].cidr == q;
      CoversTransitive(k, q, c);
      CoversAntisymmetric(q, c);
    }
  }

  /** The prefix without its allocated addresses. */
  predicate Emptied(s: Stored, q: Cidr, t: Stored) {
    && q in s && q in t && t == s[q := t[q]]
    && t[q] == s[q].(ips := t[q].ips, version := t[q].version) && !HasIps(t[q])
  }

  lemma ReleaseOne(s: Stored, q: Cidr, namespace: string) returns (op: Op, t: Stored)
    requires IsForest(s) && q in s && HasIps(s[q])
    ensures WellFormed(op) && IsRelease(op) && Next(s, op, t, namespace) && IsForest(t)
    ensures q in t && t == s[q := t[q]] && t[q] == s[q].(ips := t[q].ips, version := t[q].version)
    ensures |t[q].ips| < |s[q].ips|
  {
    assert RecordOk(s[q]) && s[q].cidr == q;
    HasIpsExact(s[q]);
    StoredMasked(s, q);
    var a :| a in s[q].ips && a !in ReservedAddrs(q);
    op, t := ReleaseIp(q, a), ReleasedIp(s, q, a);
    hide IsForest, HasIps, ReservedAddrs;
    NextForest(s, op, t, namespace);
  }

  lemma EmptiedAfter(s: Stored, q: Cidr, t: Stored, u: Stored)
    requires q in s && q in t && t == s[q := t[q]] && t[q] == s[q].(ips := t[q].ips, version := t[q].version)
    requires Emptied(t, q, u)
    ensures Emptied(s, q, u)
  {
    hide HasIps;
    assert u == s[q := u[q]];
  }

  /** If the subnet can be freed once `q` is emptied, it can be freed: release the addresses one by one. */
  lemma {:induction false} EmptyFirst(s: Stored, q: Cidr, namespace: string, p: Cidr, k: Cidr) returns (ops: seq<Op>)
    requires IsForest(s) && q in s
    requires forall t | IsForest(t) && Emptied(s, q, t) :: exists ops :: Frees(t, ops, namespace, p, k)
    ensures Frees(s, ops, namespace, p, k)
    decreases |s[q].ips|
  {
    if !HasIps(s[q]) {
      assert Emptied(s, q, s) by { assert s == s[q := s[q]]; }
      ops :| Frees(s, ops, namespace, p, k);
    } else {
      hide *;
      var op, mid := ReleaseOne(s, q, namespace);
      forall t | IsForest(t) && Emptied(mid, q, t) ensures exists ops :: Frees(t, ops, namespace, p, k) {
        EmptiedAfter(s, q, mid, t);
      }
      var more := EmptyFirst(mid, q, namespace, p, k);
      FreesBefore(s, op, mid, more, namespace, p, k);
      ops := [op] + more;
    }
  }

  lemma EmptiedSame(s: Stored, q: Cidr, t: Stored, p: Cidr, k: Cidr)
    requires Emptied(s, q, t) && Held(s, p, k) && !Strands(s, k)
    ensures Held(t, p, k) && !Strands(t, k) && Inside(t, k) == Inside(s, k) && Taken(t[q]) == Taken(s[q])
  {
    assert t.Keys == s.Keys;
    assert Taken(t[q]) == Taken(s[q]);
    hide Taken, HasIps, Covers;
    forall d, c | Covers(k, d) ensures !Hole(t, d, c) {
      assert !Hole(s, d, c);
    }
    assert Inside(t, k) == Inside(s, k);
  }

  /** What a caller passes to release `q` from `r`. */
  function Named(q: Cidr, r: Cidr): (child: Record) {
    Record(q, Some(r), "", false, map[], 0, {}, 0)
  }

  lemma LeafParent(s: Stored, k: Cidr, q: Cidr, p: Cidr) returns (r: Cidr)
    requires IsForest(s) && Held(s, p, k) && k in s && q in Inside(s, k)
    ensures r in s && s[q].parent == Some(r) && q in Taken(s[r]) && r != q && IsNetwork(r) && IsNetwork(q)
    ensures q == k ==> r == p
  {
    TakenIsChild(s, p, k);
    if q != k {
      CoveringIsAncestor(s, k, q);
    }
    r := s[q].parent.value;
    assert StrictlyShorter(s, q);
    StoredMasked(s, q);
    assert Linked(s, q) && RecordOk(s[r]) && s[r].cidr == r && RecordOk(s[q]);
  }

  /** Releasing an empty leaf removes it and its entry, and nothing else. */
  lemma LeafReleased(s: Stored, q: Cidr, r: Cidr)
    requires IsNetwork(q) && IsNetwork(r) && q in s && r in s && r != q && Deletable(s[q])
    ensures WellFormed(Op.ReleaseChild(Named(q, r)))
    ensures var t := Released(s, Named(q, r));
            && t.Keys == s.Keys - {q} && Taken(t[r]) == Taken(s[r]) - {q}
            && forall d | d in t && d != r :: t[d] == s[d]
  {
    TakenAfterFree(s[r], q);
    BumpTaken(FreeChild(s[r], q));
    hide Deletable, Taken, Clear;
  }

  lemma LeafGone(s: Stored, q: Cidr, r: Cidr, t: Stored, p: Cidr, k: Cidr)
    requires IsForest(s) && Held(s, p, k) && !Strands(s, k) && q in Inside(s, k) && q != k
    requires r in s && q in Taken(s[r]) && r != q && Taken(s[q]) == {}
    requires t.Keys == s.Keys - {q} && Taken(t[r]) == Taken(s[r]) - {q} && forall d | d in t && d != r :: t[d] == s[d]
    ensures Held(t, p, k) && !Strands(t, k) && Inside(t, k) == Inside(s, k) - {q}
  {
    TakenIsChild(s, r, q);
    assert p != q;
    forall d, c | Covers(k, d) ensures !Hole(t, d, c) {
      assert !Hole(s, d, c);
      if d in s && d != r && q in Taken(s[d]) {
        TakenIsChild(s, d, q);
      }
    }
    hide IsForest, Taken, Covers;
    assert Inside(t, k) == Inside(s, k) - {q};
  }

  lemma ReleaseLeaf(s: Stored, q: Cidr, r: Cidr, namespace: string) returns (op: Op, t: Stored)
    requires IsForest(s) && IsNetwork(q) && IsNetwork(r) && q in s && r in s && r != q && Deletable(s[q])
    ensures WellFormed(op) && IsRelease(op) && Next(s, op, t, namespace) && IsForest(t)
    ensures t.Keys == s.Keys - {q} && Taken(t[r]) == Taken(s[r]) - {q} && forall d | d in t && d != r :: t[d] == s[d]
  {
    LeafReleased(s, q, r);
    op, t := Op.ReleaseChild(Named(q, r)), Released(s, Named(q, r));
    hide IsForest, Taken, Deletable, Released, Masked;
    NextForest(s, op, t, namespace);
  }

  lemma {:induction false} LeafFrees(s: Stored, q: Cidr, namespace: string, p: Cidr, k: Cidr) returns (ops: seq<Op>)
    requires IsForest(s) && Held(s, p, k) && !Strands(s, k) && q in Inside(s, k) && Deletable(s[q])
    ensures Frees(s, ops, namespace, p, k)
    decreases |Inside(s, k)|, 0
  {
    assert k in s && Taken(s[q]) == {};
    hide *;
    var r := LeafParent(s, k, q, p);
    var op, t := ReleaseLeaf(s, q, r, namespace);
    var more;
    if q == k {
      more := [];
      FreesNow(t, namespace, p, k);
    } else {
      LeafGone(s, q, r, t, p, k);
      more := CanFree(t, namespace, p, k);
    }
    FreesBefore(s, op, t, more, namespace, p, k);
    ops := [op] + more;
  }

  lemma FreesNow(s: Stored, namespace: string, p: Cidr, k: Cidr)
    requires p in s && k !in Taken(s[p])
    ensures Frees(s, [], namespace, p, k)
  {
    assert Leads(s, [], s, namespace);
  }

  /** From the deepest stored prefix upwards, release the addresses and then the prefix. */
  lemma {:induction false} CanFree(s: Stored, namespace: string, p: Cidr, k: Cidr) returns (ops: seq<Op>)
    requires IsForest(s) && Held(s, p, k) && !Strands(s, k)
    ensures Frees(s, ops, namespace, p, k)
    decreases |Inside(s, k)|, 1
  {
    StoredMasked(s, k);
    CoversReflexive(k);
    assert k in Inside(s, k);
    var q := Deepest(Inside(s, k));
    DeepestIsLeaf(s, k, q);
    hide IsForest, Held, Strands, Frees, HasIps, Taken;
    forall t | IsForest(t) && Emptied(s, q, t) ensures exists ops :: Frees(t, ops, namespace, p, k) {
      EmptiedSame(s, q, t, p, k);
      var more := LeafFrees(t, q, namespace, p, k);
    }
    ops := EmptyFirst(s, q, namespace, p, k);
  }

  // ---- The exact condition ----

  /** Some sequence of calls takes the subnet out of its parent. */
  ghost predicate Escapes(s: Stored, ops: seq<Op>, t: Stored, namespace: string, p: Cidr, k: Cidr) {
    Leads(s, ops, t, namespace) && !Held(t, p, k)
  }

  /** No sequence of calls ever frees a reserved subnet exactly when it has no record or a stored prefix in it
      has an entry without one. Any other subnet is freed for certain by some sequence of releases. */
  lemma StrandedIff(s: Stored, namespace: string, p: Cidr, k: Cidr)
    requires IsForest(s) && Held(s, p, k)
    ensures (forall ops, t :: !Escapes(s, ops, t, namespace, p, k)) <==> Strands(s, k)
    ensures (exists ops :: Frees(s, ops, namespace, p, k)) <==> !Strands(s, k)
  {
    hide IsForest, Strands, Leads, Taken;
    if Strands(s, k) {
      forall ops, t ensures !Escapes(s, ops, t, namespace, p, k) {
        if Leads(s, ops, t, namespace) {
          StrandedForever(s, ops, t, namespace, p, k);
        }
      }
      forall ops ensures !Frees(s, ops, namespace, p, k) {
        if t :| Leads(s, ops, t, namespace) {
          assert !Escapes(s, ops, t, namespace, p, k);
        }
      }
    } else {
      var ops := CanFree(s, namespace, p, k);
      var t :| Leads(s, ops, t, namespace);
      assert Escapes(s, ops, t, namespace, p, k);
    }
  }

  /** The same of the manager itself: whatever is called, a stranded subnet stays reserved. */
  method NoCallFrees(m: Ipamer, ops: seq<Op>, p: Cidr, k: Cidr)
    requires m.Valid() && Held(m.Mine(), p, k) && Strands(m.Mine(), k)
    requires forall i | 0 <= i < |ops| :: WellFormed(ops[i])
    modifies m.storage
    ensures m.Valid() && Held(m.Mine(), p, k) && Strands(m.Mine(), k)
  {
    hide IsForest, Held, Strands, WellFormed, View;
    ghost var s := m.Mine();
    Continue(m, ops);
    StrandedForever(s, ops, m.Mine(), m.namespace, p, k);
  }

  // ---- Four calls that strand a subnet ----

  function StrandingCalls(p: Cidr, k: Cidr, g: Cidr): (ops: seq<Op>) {
    [NewPrefix(p), AcquireSpecificChild(p, k), AcquireSpecificChild(k, g), DeletePrefix(g)]
  }

  /** Acquire a subnet, acquire one inside it, and delete the inner one directly instead of releasing it. */
  method StrandByDelete(m: Ipamer, p: Cidr, k: Cidr, g: Cidr)
    requires Keyed(m.storage.prefixes) && m.Mine() == map[]
    requires IsNetwork(p) && IsNetwork(k) && IsNetwork(g)
    requires Covers(p, k) && Covers(k, g) && p.bits < k.bits < g.bits
    modifies m.storage
    ensures m.Valid() && Held(m.Mine(), p, k) && k in m.Mine() && Hole(m.Mine(), k, g) && Strands(m.Mine(), k)
  {
    assert IsForest(map[]);
    Continue(m, StrandingCalls(p, k, g));
    StrandedByDelete(p, k, g, m.Mine(), m.namespace);
    CoversReflexive(k);
  }

  lemma FirstStep(s: Stored, op: Op, ops: seq<Op>, t: Stored, namespace: string) returns (mid: Stored)
    requires Leads(s, [op] + ops, t, namespace)
    ensures WellFormed(op) && Next(s, op, mid, namespace) && Leads(mid, ops, t, namespace)
  {
    hide Next, WellFormed;
    assert ([op] + ops)[0] == op && ([op] + ops)[1..] == ops;
    mid :| Next(s, op, mid, namespace) && Leads(mid, ops, t, namespace);
  }

  /** A fresh prefix grants every network inside it. */
  lemma FreshGrants(s: Stored, p: Cidr, parent: Option<Cidr>, c: Cidr, t: Stored, namespace: string)
    requires IsNetwork(p) && IsNetwork(c) && Covers(p, c) && p.bits < c.bits
    requires p in s && s[p] == NewRecord(p, parent, namespace)
    requires Next(s, AcquireSpecificChild(p, c), t, namespace)
    ensures t == Grown(s, p, c, namespace)
  {
    NewRecordOk(p, parent, namespace);
    assert Masked(c) == c && Masked(p) == p;
    hide HasIps, ReservedAddrs, Clear;
    assert Grantable(s[p], Some(c), 0, c);
  }

  lemma StrandedByDelete(p: Cidr, k: Cidr, g: Cidr, t: Stored, namespace: string)
    requires IsNetwork(p) && IsNetwork(k) && IsNetwork(g)
    requires Covers(p, k) && Covers(k, g) && p.bits < k.bits < g.bits
    requires Leads(map[], StrandingCalls(p, k, g), t, namespace)
    ensures Held(t, p, k) && k in t && Hole(t, k, g)
  {
    var ops := StrandingCalls(p, k, g);
    assert ops == [ops[0]] + [ops[1], ops[2], ops[3]];
    assert [ops[1], ops[2], ops[3]] == [ops[1]] + [ops[2], ops[3]];
    assert [ops[2], ops[3]] == [ops[2]] + [ops[3]] && [ops[3]] == [ops[3]] + [];
    hide Leads, Covers, IsForest;
    var s1 := FirstStep(map[], ops[0], [ops[1], ops[2], ops[3]], t, namespace);
    var s2 := FirstStep(s1, ops[1], [ops[2], ops[3]], t, namespace);
    var s3 := FirstStep(s2, ops[2], [ops[3]], t, namespace);
    var s4 := FirstStep(s3, ops[3], [], t, namespace);
    NothingLeft(s4, t, namespace);
    assert s1 == map[p := NewRecord(p, None, namespace)];
    FreshGrants(s1, p, None, k, s2, namespace);
    FreshGrants(s2, k, Some(p), g, s3, namespace);
    NewRecordOk(g, Some(k), namespace);
    TakenAfterTake(s1[p], k);
    BumpTaken(TakeChild(s1[p], k));
    TakenAfterTake(s2[k], g);
    BumpTaken(TakeChild(s2[k], g));
    hide Taken, HasIps, NewRecord, Clear;
    assert s4 == s3 - {g};
  }

  lemma NothingLeft(s: Stored, t: Stored, namespace: string)
    requires Leads(s, [], t, namespace)
    ensures t == s
  {
  }
}
