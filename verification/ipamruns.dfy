/** Whole runs of the address manager, and what every state of a run satisfies. */
module IpamRuns {
  import opened Options
  import opened Cidrs
  import opened Records
  import opened Forest
  import opened Memory
  import opened Ipam
  import opened IpamSteps

  /** A prefix carries the parent mark after a call exactly if it carried it before or has a taken child. */
  predicate MarksStep(s: Stored, s': Stored) {
    forall p | p in s' :: s'[p].isParent <==> (p in s && s[p].isParent) || Taken(s'[p]) != {}
  }

  /** Each record kept its mark, or has a taken child, or is new and unmarked. */
  lemma MarksBy(s: Stored, s': Stored)
    requires IsForest(s) && IsForest(s')
    requires forall p | p in s' ::
               || (p in s && s'[p].isParent == s[p].isParent)
               || Taken(s'[p]) != {}
               || (p !in s && !s'[p].isParent)
    ensures MarksStep(s, s')
  {
    hide Taken, Linked, RootsDisjoint;
    forall p | p in s' ensures Taken(s'[p]) != {} ==> s'[p].isParent {
      assert RecordOk(s'[p]);
    }
  }

  lemma MarksNew(s: Stored, c: Cidr, r: Record)
    requires Parsed(c) && r == NewRecord(c, None, r.namespace) && IsForest(s) && IsForest(s[Masked(c) := r])
    requires forall d | d in s :: !Overlaps(d, Masked(c))
    ensures MarksStep(s, s[Masked(c) := r])
  {
    assert Masked(c) !in s;
    MarksBy(s, s[Masked(c) := r]);
  }

  lemma MarksAcquired(s: Stored, p: Cidr, c: Cidr, namespace: string)
    requires IsNetwork(c) && p in s && c !in s && IsForest(s)
    requires IsForest(s[p := Bump(TakeChild(s[p], c))][c := NewRecord(c, Some(p), namespace)])
    ensures MarksStep(s, s[p := Bump(TakeChild(s[p], c))][c := NewRecord(c, Some(p), namespace)])
  {
    TakenAfterTake(s[p], c);
    assert c in Taken(Bump(TakeChild(s[p], c)));
    hide IsForest, Masked, ReservedAddrs, Taken;
    MarksBy(s, s[p := Bump(TakeChild(s[p], c))][c := NewRecord(c, Some(p), namespace)]);
  }

  /** One call; whatever it answers, it is a step of `Next`, and the namespace is a forest afterwards. */
  method Perform(m: Ipamer, op: Op)
    requires m.Valid() && WellFormed(op)
    modifies m.storage
    ensures m.Valid()
    ensures forall n | n != m.namespace :: View(m.storage.prefixes, n) == View(old(m.storage.prefixes), n)
    ensures MarksStep(old(m.Mine()), m.Mine()) && Next(old(m.Mine()), op, m.Mine(), m.namespace)
  {
    hide IsForest, RecordOk, View, Taken, MarksStep, HasIps, Mask, ReservedAddrs, FreeNetwork;
    ghost var s := m.Mine();
    MarksBy(s, s);
    match op
    case NewPrefix(c) =>
      var r := m.NewPrefix(c);
      AllStoredParsed(s);
      if r.Ok? { MarksNew(s, c, r.value); }
    case DeletePrefix(c) =>
      var r := m.DeletePrefix(c);
      MarksBy(s, m.Mine());
    case AcquireChild(p, n) => AcquireMarked(m, p, None, n);
    case AcquireSpecificChild(p, c) => AcquireMarked(m, p, Some(c), 0);
    case ReleaseChild(child) =>
      var r := m.ReleaseChild(child);
      MarksBy(s, m.Mine());
    case AcquireIp(p) =>
      var r := m.AcquireIp(p, None);
      MarksBy(s, m.Mine());
    case AcquireSpecificIp(p, a) =>
      var r := m.AcquireIp(p, Some(a));
      MarksBy(s, m.Mine());
    case ReleaseIp(p, a) =>
      var r := m.ReleaseIp(p, a);
      MarksBy(s, m.Mine());
  }

  lemma AllStoredParsed(s: Stored)
    requires IsForest(s)
    ensures forall d | d in s :: Parsed(d)
  {
  }

  method AcquireMarked(m: Ipamer, p: Cidr, want: Option<Cidr>, n: nat)
    requires m.Valid() && Parsed(p) && if want.Some? then Parsed(want.value) else n <= Width(p.family)
    modifies m.storage
    ensures m.Valid()
    ensures forall n | n != m.namespace :: View(m.storage.prefixes, n) == View(old(m.storage.prefixes), n)
    ensures MarksStep(old(m.Mine()), m.Mine()) && Acquires(old(m.Mine()), Masked(p), want, n, m.Mine(), m.namespace)
  {
    hide IsForest, RecordOk, View, Taken, MarksStep, HasIps, Mask, ReservedAddrs;
    ghost var s := m.Mine();
    MarksBy(s, s);
    var r := m.AcquireChild(p, want, n);
    if r.Ok? {
      assert IsNetwork(r.value.cidr);
      MarksAcquired(s, Masked(p), r.value.cidr, m.namespace);
    }
  }

  /** Marks change only as `MarksStep` says, all along a run. */
  predicate MarksKept(states: seq<Stored>) {
    forall i | 0 < i < |states| :: MarksStep(states[i - 1], states[i])
  }

  lemma MarksAppend(states: seq<Stored>, s: Stored)
    requires states != [] && MarksKept(states) && MarksStep(states[|states| - 1], s)
    ensures MarksKept(states + [s])
  {
    hide MarksStep;
  }

  /** Any sequence of calls from an empty namespace: every state on the way is a forest. */
  method Run(m: Ipamer, ops: seq<Op>) returns (ghost states: seq<Stored>)
    requires Keyed(m.storage.prefixes) && m.Mine() == map[]
    requires forall i | 0 <= i < |ops| :: WellFormed(ops[i])
    modifies m.storage
    ensures |states| == |ops| + 1 && states[0] == map[] && states[|ops|] == m.Mine()
    ensures forall i | 0 <= i < |states| :: IsForest(states[i])
    ensures MarksKept(states) && Leads(map[], ops, m.Mine(), m.namespace)
    ensures Keyed(m.storage.prefixes)
    ensures forall n | n != m.namespace :: View(m.storage.prefixes, n) == View(old(m.storage.prefixes), n)
  {
    states := [m.Mine()];
    assert IsForest(m.Mine());
    assert MarksKept(states);
    LeadsNone(map[], ops, m.namespace);
    hide IsForest, RecordOk, MarksStep, MarksKept, WellFormed, View, Next, Leads;
    for i := 0 to |ops|
      invariant m.Valid()
      invariant |states| == i + 1 && states[0] == map[] && states[i] == m.Mine()
      invariant forall j | 0 <= j <= i :: IsForest(states[j])
      invariant MarksKept(states) && Leads(map[], ops[..i], m.Mine(), m.namespace)
      invariant forall n | n != m.namespace :: View(m.storage.prefixes, n) == View(old(m.storage.prefixes), n)
    {
      ghost var s := m.Mine();
      Perform(m, ops[i]);
      LeadsOn(map[], ops, i, s, m.Mine(), m.namespace);
      MarksAppend(states, m.Mine());
      states := states + [m.Mine()];
    }
    assert ops[..|ops|] == ops;
  }

  /** Any sequence of calls from any valid state. */
  method Continue(m: Ipamer, ops: seq<Op>)
    requires m.Valid() && forall i | 0 <= i < |ops| :: WellFormed(ops[i])
    modifies m.storage
    ensures m.Valid() && Leads(old(m.Mine()), ops, m.Mine(), m.namespace)
  {
    hide *;
    ghost var s0 := m.Mine();
    LeadsNone(s0, ops, m.namespace);
    for i := 0 to |ops|
      invariant m.Valid() && Leads(s0, ops[..i], m.Mine(), m.namespace)
    {
      ghost var s := m.Mine();
      Perform(m, ops[i]);
      LeadsOn(s0, ops, i, s, m.Mine(), m.namespace);
    }
    assert ops[..|ops|] == ops;
  }

  /** Stored prefixes are disjoint or nested along the parent links, and links are two-sided. */
  lemma Nesting(s: Stored)
    requires IsForest(s)
    ensures forall c, d | c in s && d in s ::
              Overlaps(c, d) <==> Ancestor(s, c, d) || Ancestor(s, d, c)
    ensures forall c | c in s && s[c].parent.Some? ::
              s[c].parent.value in s && c in Taken(s[s[c].parent.value])
  {
    forall c, d | c in s && d in s
      ensures Overlaps(c, d) <==> Ancestor(s, c, d) || Ancestor(s, d, c)
    {
      OverlapsIsNesting(c, d);
      if Overlaps(c, d) {
        Laminar(s, c, d);
      }
      if Ancestor(s, c, d) {
        AncestorCovers(s, c, d);
      }
      if Ancestor(s, d, c) {
        AncestorCovers(s, d, c);
      }
    }
    forall c | c in s ensures Linked(s, c) {
    }
  }

  /** The taken children of a stored prefix lie inside it and share no address. */
  lemma Siblings(s: Stored, p: Cidr)
    requires IsForest(s) && p in s
    ensures forall k | k in Taken(s[p]) :: IsNetwork(k) && Covers(p, k) && p.bits < k.bits
    ensures forall j, k, a | j in Taken(s[p]) && k in Taken(s[p]) && j != k :: !(Contains(j, a) && Contains(k, a))
  {
    assert RecordOk(s[p]);
    forall k | k in Taken(s[p]) ensures p.bits < k.bits {
      CoversAntisymmetric(p, k);
    }
    forall j, k, a | j in Taken(s[p]) && k in Taken(s[p]) && j != k
      ensures !(Contains(j, a) && Contains(k, a))
    {
      OverlapsIsNesting(j, k);
      OverlapsIsSharing(j, k);
    }
  }

  /** Reserved addresses stay stored, the allocation test is exact, and a parent holds no address. */
  lemma ExclusiveUse(s: Stored, p: Cidr)
    requires IsForest(s) && p in s
    ensures ReservedAddrs(p) <= s[p].ips
    ensures HasIps(s[p]) <==> exists a :: a in s[p].ips && a !in ReservedAddrs(p)
    ensures s[p].isParent ==> s[p].ips == ReservedAddrs(p)
    ensures Taken(s[p]) != {} ==> !HasIps(s[p])
  {
    assert RecordOk(s[p]);
    HasIpsExact(s[p]);
  }

  /** An address that is handed out is never the lowest of its prefix, nor the highest of an IPv4 prefix. */
  lemma GrantNoEnd(s: Stored, p: Cidr, want: Option<Addr>, a: Addr)
    requires IsForest(s) && p in s && IpGrant(s[p], want, a)
    ensures IsNetwork(p) && Contains(p, a) && !IsLowest(p, a) && (p.family.V4? ==> !IsHighest(p, a))
    ensures want.Some? ==> a == want.value
    ensures want.None? ==> forall b | Contains(p, b) && b !in s[p].ips :: a.value <= b.value
  {
    GrantedIsFree(s, p, want, a);
    GrantInside(s[p], want, a);
    ReservedExact(p, a);
    hide IsLowest, IsHighest, IsForest;
  }

  // ---- Parents stay closed ----

  /** The prefix is stored in all states from `i` to `j`. */
  predicate StoredThrough(states: seq<Stored>, i: nat, j: nat, p: Cidr) {
    j < |states| && forall k | i <= k <= j :: p in states[k]
  }

  /** The prefix had a taken child at some time since it was stored. */
  ghost predicate HadChild(states: seq<Stored>, j: nat, p: Cidr) {
    exists i: nat :: i <= j && StoredThrough(states, i, j, p) && Taken(states[i][p]) != {}
  }

  /** The parent mark says that the prefix had a taken child at some time since it was stored. */
  lemma {:induction false} MarkIff(states: seq<Stored>, j: nat, p: Cidr)
    requires states != [] && states[0] == map[] && j < |states| && p in states[j]
    requires MarksKept(states)
    ensures states[j][p].isParent <==> HadChild(states, j, p)
  {
    hide Taken;
    assert MarksStep(states[j - 1], states[j]);
    if p in states[j - 1] {
      MarkIff(states, j - 1, p);
      if HadChild(states, j - 1, p) {
        var i: nat :| i <= j - 1 && StoredThrough(states, i, j - 1, p) && Taken(states[i][p]) != {};
        assert StoredThrough(states, i, j, p);
      }
    }
    if Taken(states[j][p]) != {} {
      assert StoredThrough(states, j, j, p);
    }
    if HadChild(states, j, p) {
      var i: nat :| i <= j && StoredThrough(states, i, j, p) && Taken(states[i][p]) != {};
      assert i < j ==> StoredThrough(states, i, j - 1, p);
    }
  }

  /** After any run, a stored prefix refuses every address that lies in it exactly when it had a child at some
      time since it was stored, even if all its children are released. */
  method ParentsStayClosed(m: Ipamer, ops: seq<Op>, prefix: Cidr, want: Option<Addr>)
    returns (res: Result<Addr>, ghost states: seq<Stored>)
    requires Keyed(m.storage.prefixes) && m.Mine() == map[] && Parsed(prefix)
    requires forall i | 0 <= i < |ops| :: WellFormed(ops[i])
    modifies m.storage
    ensures |states| == |ops| + 1
    ensures var p := Masked(prefix);
            p in states[|ops|] && (want.Some? ==> Contains(p, want.value)) ==>
              (res == Err(Rejected) <==> HadChild(states, |ops|, p))
  {
    states := Run(m, ops);
    hide IsForest, View, MarksStep, MarksKept, HadChild, Contains, Mask;
    res := m.AcquireIp(prefix, want);
    var p := Masked(prefix);
    if p in states[|ops|] {
      MarkIff(states, |ops|, p);
      CidrOf(states[|ops|], p);
    }
  }

  lemma CidrOf(s: Stored, p: Cidr)
    requires IsForest(s) && p in s
    ensures s[p].cidr == p
  {
  }

  // ---- Releases that really return the subnet ----

  /** A release answered Ok takes the subnet out of its parent's reservations exactly when the caller named the
      subnet without host bits and named its real parent. */
  method ReleaseReturns(m: Ipamer, child: Record) returns (res: Result<()>)
    requires m.Valid() && Parsed(child.cidr) && (child.parent.Some? ==> Parsed(child.parent.value))
    requires Masked(child.cidr) in m.Mine() && m.Mine()[Masked(child.cidr)].parent.Some?
    modifies m.storage
    ensures var c := Masked(child.cidr);
            var q := old(m.Mine())[c].parent.value;
            res.Ok? ==>
              && child.parent.Some? && q in m.Mine()
              && (c !in Taken(m.Mine()[q]) <==> child.cidr == c && Masked(child.parent.value) == q)
  {
    hide IsForest, View, Deletable, Mask, Taken;
    ghost var s := m.Mine();
    ghost var c := Masked(child.cidr);
    ghost var q := s[c].parent.value;
    ChildIsTaken(s, c);
    res := m.ReleaseChild(child);
    if res.Ok? {
      var p := Masked(child.parent.value);
      TakenAfterFree(s[p], child.cidr);
      BumpTaken(FreeChild(s[p], child.cidr));
    }
  }

  lemma ChildIsTaken(s: Stored, c: Cidr)
    requires IsForest(s) && c in s && s[c].parent.Some?
    ensures s[c].parent.value in s && s[c].parent.value != c && c in Taken(s[s[c].parent.value])
  {
    assert StrictlyShorter(s, c);
  }

  lemma BumpTaken(r: Record)
    ensures Taken(Bump(r)) == Taken(r)
  {
  }

  // ---- Undoing ----

  /** Same free space, same addresses; the version and the parent mark may differ. */
  ghost predicate SameRoom(r: Record, r': Record) {
    && r'.cidr == r.cidr && r'.ips == r.ips && Taken(r') == Taken(r)
    && forall c :: FreeNetwork(r', c) <==> FreeNetwork(r, c)
  }

  lemma TakeThenFree(r: Record, c: Cidr, v: nat)
    requires RecordOk(r) && FreeNetwork(r, c)
    ensures SameRoom(r, FreeChild(Bump(TakeChild(r, c)), c).(version := v))
  {
    CoversReflexive(c);
    var mid := Bump(TakeChild(r, c));
    var end := FreeChild(mid, c).(version := v);
    TakenAfterTake(r, c);
    assert Taken(mid) == Taken(r) + {c};
    TakenAfterFree(mid, c);
    assert Taken(end) == Taken(r);
  }

  /** Releasing an acquired child undoes the acquisition: same records, same free space in the parent. */
  method AcquireThenRelease(m: Ipamer, parent: Cidr, want: Option<Cidr>, length: nat)
    returns (got: Result<Record>, back: Result<()>)
    requires m.Valid() && Parsed(parent)
    requires if want.Some? then Parsed(want.value) else length <= Width(parent.family)
    modifies m.storage
    ensures m.Valid() && m.Mine().Keys == old(m.Mine()).Keys
    ensures got.Ok? ==>
              back.Ok? && Masked(parent) in m.Mine()
                  && SameRoom(old(m.Mine())[Masked(parent)], m.Mine()[Masked(parent)])
    ensures forall c | c in m.Mine() && c != Masked(parent) :: m.Mine()[c] == old(m.Mine())[c]
  {
    hide IsForest, RecordOk, FreeNetwork, Grantable, HasIps, SameRoom, Clear, Pow2, Deletable, ReservedAddrs, Mask,
         View;
    back := Err(Rejected);
    ghost var s0 := m.Mine();
    got := m.AcquireChild(parent, want, length);
    if got.Err? {
      return;
    }
    var p, c := Masked(parent), got.value.cidr;
    ghost var s1 := m.Mine();
    AcquiredIsFresh(s0, p, c, got.value, want, length, m.namespace);
    TakeThenFree(s0[p], c, Bump(FreeChild(s1[p], c)).version);
    back := m.ReleaseChild(got.value);
    assert m.Mine() == (s1 - {c})[p := Bump(FreeChild(s1[p], c))];
  }

  lemma AcquiredIsFresh(s: Stored, p: Cidr, c: Cidr, r: Record, want: Option<Cidr>, length: nat, namespace: string)
    requires IsForest(s) && p in s && c !in s && (want.Some? ==> Parsed(want.value))
    requires Grantable(s[p], want, length, c) && r == NewRecord(c, Some(p), namespace)
    ensures RecordOk(s[p]) && FreeNetwork(s[p], c) && IsNetwork(p) && IsNetwork(c) && p != c
    ensures Deletable(r) && |r.ips| <= 2 && r.cidr == c
  {
    NewRecordOk(c, Some(p), namespace);
    MaskedIsNetwork(c);
    assert r.cidr == c;
    assert |{FirstAddr(c), LastAddr(c)}| <= 2;
  }

  /** Releasing an acquired address undoes the acquisition, but for the version. */
  method AcquireThenReleaseIp(m: Ipamer, prefix: Cidr, want: Option<Addr>) returns (got: Result<Addr>, back: Result<()>)
    requires m.Valid() && Parsed(prefix)
    modifies m.storage
    ensures m.Valid() && m.Mine().Keys == old(m.Mine()).Keys
    ensures got.Ok? ==>
              && back.Ok? && Masked(prefix) in m.Mine()
              && m.Mine()[Masked(prefix)] == old(m.Mine())[Masked(prefix)].(version := m.Mine()[Masked(prefix)].version)
    ensures forall c | c in m.Mine() && c != Masked(prefix) :: m.Mine()[c] == old(m.Mine())[c]
  {
    hide IsForest, RecordOk, IpGrant, IpRefusal, Clear, Pow2, ReservedAddrs, Mask, View;
    back := Err(Rejected);
    ghost var s0 := m.Mine();
    got := m.AcquireIp(prefix, want);
    if got.Err? {
      return;
    }
    GrantedIsFree(s0, Masked(prefix), want, got.value);
    back := m.ReleaseIp(prefix, got.value);
    assert s0[Masked(prefix)].ips + {got.value} - {got.value} == s0[Masked(prefix)].ips;
  }

  lemma GrantedIsFree(s: Stored, p: Cidr, want: Option<Addr>, a: Addr)
    requires IsForest(s) && p in s && IpGrant(s[p], want, a)
    ensures a !in s[p].ips && a !in ReservedAddrs(p) && s[p].cidr == p
  {
    assert RecordOk(s[p]);
  }
}
