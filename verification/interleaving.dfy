/** Concurrent callers on one stored record. Each call reads a copy, computes an update on the
    copy and writes it with a version compare-and-swap; steps of different calls interleave freely.
    A call that loses the swap goes back to reading, which is a retry. */
module Interleaving {
  import opened Options
  import opened Cidrs
  import opened Records
  import opened Memory
  import opened Ipam

  datatype Call =
    | AcquireIp(want: Option<Addr>)
    | ReleaseIp(ip: Addr)
    | AcquireChild(wish: Option<Cidr>, bits: nat)
    | ReleaseChild(child: Cidr)

  /** Where a caller stands. `Erased` and `Creating` are the middles of the two child operations. */
  datatype Pc =
    | Reading(call: Call, copy: Record)
    | Erased(child: Cidr, copy: Record)
    | Creating(block: Cidr)

  /** A successful write: what it was computed from, what it replaced, what it stored. */
  datatype Commit = Commit(read: Record, replaced: Record, proposed: Record, stored: Record)

  /** `kids` are the stored child records, `held` the acquired and not yet released addresses. */
  datatype State = State(
    rec: Record,
    kids: map<Cidr, Record>,
    pcs: map<nat, Pc>,
    held: multiset<Addr>,
    commits: seq<Commit>)

  datatype Event =
    | Read(t: nat, call: Call)
    | Quit(t: nat)                     // a guard failed and the call returned an error
    | SwapIp(t: nat, ip: Addr)         // write of AcquireIp or ReleaseIp
    | SwapTake(t: nat, block: Cidr)    // write of AcquireChild
    | Create(t: nat)                   // create the child's record
    | Erase(t: nat)                    // ReleaseChild deletes the child's record
    | EraseOther(t: nat)               // ReleaseChild deletes a stored prefix that is not this record's child
    | SwapFree(t: nat)                 // write of ReleaseChild
    | DropKid(kid: Cidr)               // DeletePrefix called on a child directly
    | TouchKid(kid: Cidr, r: Record)   // any other change of a child's record

  ghost predicate Enabled(s: State, e: Event) {
    match e
    case Read(t, call) => t !in s.pcs && CallParsed(call)
    case Quit(t) => t in s.pcs && s.pcs[t].Reading?
    case SwapIp(t, ip) =>
      && t in s.pcs && s.pcs[t].Reading?
      && (match s.pcs[t].call
          case AcquireIp(want) => IpGrant(s.pcs[t].copy, want, ip)
          case ReleaseIp(a) => ip == a && Droppable(s.pcs[t].copy, a)
          case _ => false)
    case SwapTake(t, block) =>
      && t in s.pcs && s.pcs[t].Reading? && s.pcs[t].call.AcquireChild?
      && CallParsed(s.pcs[t].call)
      && !HasIps(s.pcs[t].copy)
      && Grantable(s.pcs[t].copy, s.pcs[t].call.wish, s.pcs[t].call.bits, block)
    case Create(t) => t in s.pcs && s.pcs[t].Creating? && Parsed(s.pcs[t].block)
    case Erase(t) =>
      && t in s.pcs && s.pcs[t].Reading? && s.pcs[t].call.ReleaseChild?
      && CallParsed(s.pcs[t].call)
      && Masked(s.pcs[t].call.child) in s.kids
      && Deletable(s.kids[Masked(s.pcs[t].call.child)])
    case EraseOther(t) =>
      // A stored prefix that is taken here is a child of this record (`Forest.TakenIsChild`).
      && t in s.pcs && s.pcs[t].Reading? && s.pcs[t].call.ReleaseChild?
      && CallParsed(s.pcs[t].call)
      && Masked(s.pcs[t].call.child) !in Taken(s.rec)
    case SwapFree(t) => t in s.pcs && s.pcs[t].Erased?
    case DropKid(kid) => kid in s.kids && Deletable(s.kids[kid])
    case TouchKid(kid, r) => kid in s.kids && r.cidr == kid
  }

  predicate CallParsed(call: Call) {
    match call
    case AcquireChild(wish, _) => wish.Some? ==> Parsed(wish.value)
    case ReleaseChild(child) => Parsed(child)
    case _ => true
  }

  predicate Droppable(r: Record, a: Addr) {
    r.cidr.bits <= Width(r.cidr.family) && a in r.ips && a !in ReservedAddrs(r.cidr)
  }

  /** The store's compare-and-swap: write `next` if nobody wrote since `copy` was read. */
  function Swap(s: State, copy: Record, next: Record): (s': State) {
    if copy.version == s.rec.version then
      s.(rec := Bump(next), commits := s.commits + [Commit(copy, s.rec, next, Bump(next))])
    else
      s
  }

  /** `Swap` is what the store's update does to this record. */
  lemma SwapIsStoreUpdate(m: Contents, s: State, copy: Record, next: Record)
    requires KeyOf(s.rec) in m && m[KeyOf(s.rec)] == s.rec && KeyOf(next) == KeyOf(s.rec)
             && next.version == copy.version
    ensures AfterUpdate(m, next) == m[KeyOf(s.rec) := Swap(s, copy, next).rec]
  {
    assert m[KeyOf(s.rec) := s.rec] == m;
  }

  function Apply(s: State, e: Event): (s': State)
    requires Enabled(s, e)
  {
    match e
    case Read(t, call) => s.(pcs := s.pcs[t := Reading(call, s.rec)])
    case Quit(t) => s.(pcs := s.pcs - {t})
    case SwapIp(t, ip) =>
      var copy, take := s.pcs[t].copy, s.pcs[t].call.AcquireIp?;
      var w := Swap(s, copy, if take then TakeIp(copy, ip) else DropIp(copy, ip));
      w.(pcs := s.pcs - {t},
         held := if copy.version != s.rec.version then s.held
                 else if take then s.held + multiset{ip} else s.held - multiset{ip})
    case SwapTake(t, block) =>
      var copy := s.pcs[t].copy;
      Swap(s, copy, TakeChild(copy, block)).(
      pcs := if copy.version == s.rec.version then s.pcs[t := Creating(block)] else s.pcs - {t})
    case Create(t) =>
      var block := s.pcs[t].block;
      var kid := NewRecord(block, Some(s.rec.cidr), s.rec.namespace);
      s.(pcs := s.pcs - {t}, kids := if block in s.kids then s.kids else s.kids[block := kid])
    case Erase(t) =>
      var child := s.pcs[t].call.child;
      s.(pcs := s.pcs[t := Erased(child, s.pcs[t].copy)], kids := s.kids - {Masked(child)})
    case EraseOther(t) => s.(pcs := s.pcs[t := Erased(s.pcs[t].call.child, s.pcs[t].copy)])
    case SwapFree(t) =>
      var copy := s.pcs[t].copy;
      Swap(s, copy, FreeChild(copy, s.pcs[t].child)).(pcs := s.pcs - {t})
    case DropKid(kid) => s.(kids := s.kids - {kid})
    case TouchKid(kid, r) => s.(kids := s.kids[kid := r])
  }

  // ---- The invariant ----

  predicate HasCopy(pc: Pc) {
    pc.Reading? || pc.Erased?
  }

  /** A copy is the stored record or is out of date, and its version tells which. */
  predicate CopiesDated(s: State) {
    forall t | t in s.pcs && HasCopy(s.pcs[t]) ::
      && s.pcs[t].copy.version <= s.rec.version
      && (s.pcs[t].copy.version == s.rec.version ==> s.pcs[t].copy == s.rec)
  }

  /** The stored addresses are the reserved ones plus the held ones, and no address is held twice. */
  ghost predicate LedgerExact(s: State)
    requires s.rec.cidr.bits <= Width(s.rec.cidr.family)
  {
    && (forall a :: s.held[a] <= 1)
    && (forall a :: a in s.rec.ips <==> a in ReservedAddrs(s.rec.cidr) || a in s.held)
    && (forall a | a in s.held :: a !in ReservedAddrs(s.rec.cidr))
  }

  predicate KidsTaken(s: State) {
    forall c | c in s.kids :: c in Taken(s.rec)
  }

  /** A block waiting for its record is taken, has no record, and waits for one caller only. */
  predicate CreatesClear(s: State) {
    && (forall t | t in s.pcs && s.pcs[t].Creating? ::
          s.pcs[t].block in Taken(s.rec) && s.pcs[t].block !in s.kids)
    && (forall t, u | t in s.pcs && u in s.pcs && t != u && s.pcs[t].Creating? && s.pcs[u].Creating? ::
          s.pcs[t].block != s.pcs[u].block)
  }

  /** The block has neither a record nor a caller about to create one. */
  predicate Unused(s: State, c: Cidr) {
    c !in s.kids && forall t | t in s.pcs && s.pcs[t].Creating? :: s.pcs[t].block != c
  }

  /** A release whose copy is current has an unused child. */
  predicate ErasedUnused(s: State) {
    forall t | t in s.pcs && s.pcs[t].Erased? && s.pcs[t].copy.version == s.rec.version ::
      Parsed(s.pcs[t].child) && Unused(s, Masked(s.pcs[t].child))
  }

  /** Every write was computed from exactly the content it replaced, which the write before it stored. */
  predicate NoLostUpdate(rec: Record, commits: seq<Commit>) {
    && (forall i | 0 <= i < |commits| ::
          && commits[i].read == commits[i].replaced
          && commits[i].stored == Bump(commits[i].proposed)
          && (i > 0 ==> commits[i].replaced == commits[i - 1].stored))
    && (commits != [] ==> commits[|commits| - 1].stored == rec)
  }

  ghost predicate Inv(s: State) {
    && RecordOk(s.rec)
    && CopiesDated(s)
    && LedgerExact(s)
    && KidsTaken(s)
    && CreatesClear(s)
    && ErasedUnused(s)
    && NoLostUpdate(s.rec, s.commits)
  }

  lemma SwapKeepsHistory(s: State, copy: Record, next: Record)
    requires NoLostUpdate(s.rec, s.commits) && (copy.version == s.rec.version ==> copy == s.rec)
    ensures NoLostUpdate(Swap(s, copy, next).rec, Swap(s, copy, next).commits)
  {
  }

  lemma IpEffect(r: Record, r': Record, a: Addr)
    requires RecordOk(r)
    requires (r' == TakeIp(r, a) && !r.isParent && Contains(r.cidr, a))
          || (r' == DropIp(r, a) && a !in ReservedAddrs(r.cidr))
    ensures RecordOk(Bump(r')) && Taken(Bump(r')) == Taken(r)
  {
    if r' == TakeIp(r, a) && !r.isParent && Contains(r.cidr, a) {
      TakeIpOk(r, a);
    } else {
      DropIpOk(r, a);
    }
    VersionOk(r', r.version + 1);
  }

  lemma SwapIpLedger(s: State, t: nat, ip: Addr)
    requires Inv(s) && Enabled(s, SwapIp(t, ip))
    ensures LedgerExact(Apply(s, SwapIp(t, ip)))
  {
    hide RecordOk, Taken, ReservedAddrs, NoLostUpdate, KidsTaken, CreatesClear, ErasedUnused;
  }

  /** A write that leaves the taken children alone disturbs no other caller. */
  lemma SameChildrenKeeps(s: State, s': State, t: nat)
    requires CopiesDated(s) && KidsTaken(s) && CreatesClear(s) && ErasedUnused(s)
    requires t in s.pcs && s'.pcs == s.pcs - {t} && s'.kids == s.kids && Taken(s'.rec) == Taken(s.rec)
    requires s'.rec == s.rec || s'.rec.version == s.rec.version + 1
    ensures CopiesDated(s') && KidsTaken(s') && CreatesClear(s') && ErasedUnused(s')
  {
    hide Taken, Masked;
  }

  lemma SwapIpKeeps(s: State, t: nat, ip: Addr)
    requires Inv(s) && Enabled(s, SwapIp(t, ip))
    ensures Inv(Apply(s, SwapIp(t, ip)))
  {
    hide RecordOk, Taken, ReservedAddrs, NoLostUpdate, Contains, LedgerExact, IpGrant,
         KidsTaken, CreatesClear, ErasedUnused;
    SwapIpLedger(s, t, ip);
    var copy := s.pcs[t].copy;
    var next := if s.pcs[t].call.AcquireIp? then TakeIp(copy, ip) else DropIp(copy, ip);
    SwapKeepsHistory(s, copy, next);
    if copy.version == s.rec.version {
      if s.pcs[t].call.AcquireIp? {
        GrantInside(copy, s.pcs[t].call.want, ip);
      }
      IpEffect(copy, next, ip);
    }
    SameChildrenKeeps(s, Apply(s, SwapIp(t, ip)), t);
  }

  lemma TakeEffect(r: Record, block: Cidr)
    requires RecordOk(r) && !HasIps(r) && FreeNetwork(r, block) && r.cidr.bits < block.bits
    ensures RecordOk(Bump(TakeChild(r, block)))
    ensures Taken(Bump(TakeChild(r, block))) == Taken(r) + {block}
    ensures block !in Taken(r)
  {
    TakeChildOk(r, block);
    VersionOk(TakeChild(r, block), r.version + 1);
    TakenAfterTake(r, block);
    CoversReflexive(block);
  }

  lemma SwapTakeKeeps(s: State, t: nat, block: Cidr)
    requires Inv(s) && Enabled(s, SwapTake(t, block))
    ensures Inv(Apply(s, SwapTake(t, block)))
  {
    hide RecordOk, FreeNetwork, HasIps, Taken, ReservedAddrs, NoLostUpdate;
    SwapKeepsHistory(s, s.pcs[t].copy, TakeChild(s.pcs[t].copy, block));
    if s.pcs[t].copy.version == s.rec.version {
      TakeEffect(s.rec, block);
    }
  }

  lemma FreeEffect(r: Record, child: Cidr)
    requires RecordOk(r)
    ensures RecordOk(Bump(FreeChild(r, child)))
    ensures Taken(Bump(FreeChild(r, child))) == Taken(r) - {child}
    ensures child in Taken(r) ==> Masked(child) == child
  {
    FreeChildOk(r, child);
    VersionOk(FreeChild(r, child), r.version + 1);
    TakenAfterFree(r, child);
  }

  lemma SwapFreeKeeps(s: State, t: nat)
    requires Inv(s) && Enabled(s, SwapFree(t))
    ensures Inv(Apply(s, SwapFree(t)))
  {
    hide RecordOk, Taken, ReservedAddrs, NoLostUpdate, Masked;
    SwapKeepsHistory(s, s.pcs[t].copy, FreeChild(s.pcs[t].copy, s.pcs[t].child));
    if s.pcs[t].copy.version == s.rec.version {
      FreeEffect(s.rec, s.pcs[t].child);
    }
  }

  lemma StepKeeps(s: State, e: Event)
    requires Inv(s) && Enabled(s, e)
    ensures Inv(Apply(s, e))
  {
    match e
    case SwapIp(t, ip) => SwapIpKeeps(s, t, ip);
    case SwapTake(t, block) => SwapTakeKeeps(s, t, block);
    case SwapFree(t) => SwapFreeKeeps(s, t);
    case Erase(t) => EraseKeeps(s, e);
    case EraseOther(t) => EraseKeeps(s, e);
    case _ => OtherKeeps(s, e);
  }

  /** The deleting half of a release. */
  lemma EraseKeeps(s: State, e: Event)
    requires Inv(s) && Enabled(s, e) && (e.Erase? || e.EraseOther?)
    ensures Inv(Apply(s, e))
  {
    hide RecordOk, Taken, ReservedAddrs, NoLostUpdate, LedgerExact, Masked, Deletable;
    SameLedger(s, Apply(s, e));
  }

  lemma SameLedger(s: State, s': State)
    requires RecordOk(s.rec) && LedgerExact(s) && s'.rec == s.rec && s'.held == s.held
    ensures LedgerExact(s')
  {
    hide ReservedAddrs;
  }

  /** The other steps that do not write the parent record. */
  lemma OtherKeeps(s: State, e: Event)
    requires Inv(s) && Enabled(s, e) && (e.Read? || e.Quit? || e.Create? || e.DropKid? || e.TouchKid?)
    ensures Inv(Apply(s, e))
  {
    hide RecordOk, Taken, ReservedAddrs, NoLostUpdate, LedgerExact, Masked, Deletable;
    SameLedger(s, Apply(s, e));
  }

  // ---- Whole runs ----

  /** The record right after its creation, with no caller active. */
  function Initial(c: Cidr, parent: Option<Cidr>, namespace: string): (s: State)
    requires Parsed(c)
  {
    State(NewRecord(c, parent, namespace), map[], map[], multiset{}, [])
  }

  lemma InitialInv(c: Cidr, parent: Option<Cidr>, namespace: string)
    requires Parsed(c)
    ensures Inv(Initial(c, parent, namespace))
  {
    NewRecordOk(c, parent, namespace);
  }

  ghost predicate Feasible(s: State, es: seq<Event>)
    decreases |es|
  {
    es == [] || (Enabled(s, es[0]) && Feasible(Apply(s, es[0]), es[1..]))
  }

  function Final(s: State, es: seq<Event>): (s': State)
    requires Feasible(s, es)
    decreases |es|
  {
    if es == [] then s else Final(Apply(s, es[0]), es[1..])
  }

  lemma {:induction false} RunKeeps(s: State, es: seq<Event>)
    requires Inv(s) && Feasible(s, es)
    ensures Inv(Final(s, es))
    decreases |es|
  {
    if es != [] {
      StepKeeps(s, es[0]);
      RunKeeps(Apply(s, es[0]), es[1..]);
    }
  }

  /** No lost update and no double allocation, in every interleaving from a new record. */
  lemma NoDoubleAllocation(c: Cidr, parent: Option<Cidr>, namespace: string, es: seq<Event>)
    requires Parsed(c) && Feasible(Initial(c, parent, namespace), es)
    ensures var s := Final(Initial(c, parent, namespace), es);
            && RecordOk(s.rec)
            && NoLostUpdate(s.rec, s.commits)
            && (forall a :: s.held[a] <= 1)
            && (forall a :: a in s.rec.ips <==> a in ReservedAddrs(s.rec.cidr) || a in s.held)
            && (s.rec.isParent ==> s.held == multiset{})
  {
    InitialInv(c, parent, namespace);
    RunKeeps(Initial(c, parent, namespace), es);
    var s := Final(Initial(c, parent, namespace), es);
    if s.rec.isParent {
      forall a ensures s.held[a] == 0 {
        assert a in s.held ==> a in s.rec.ips;
      }
    }
  }

  /** Subnets, in every interleaving: a stored child is taken in its parent, the create after a won
      write finds its key empty, and the next step frees a subnet only when it has neither a record
      nor a pending create. */
  lemma SubnetsExclusive(c: Cidr, parent: Option<Cidr>, namespace: string, es: seq<Event>, e: Event)
    requires Parsed(c) && Feasible(Initial(c, parent, namespace), es)
    requires Enabled(Final(Initial(c, parent, namespace), es), e)
    ensures var s := Final(Initial(c, parent, namespace), es);
            && (forall k | k in s.kids :: k in Taken(s.rec))
            && (e.Create? ==> s.pcs[e.t].block !in s.kids && s.pcs[e.t].block in Taken(s.rec)
                              && s.pcs[e.t].block in Apply(s, e).kids)
            && (forall k | k in Taken(s.rec) && k !in Taken(Apply(s, e).rec) :: Unused(s, k))
            && ChildrenOk(s.rec)
  {
    InitialInv(c, parent, namespace);
    RunKeeps(Initial(c, parent, namespace), es);
    var s := Final(Initial(c, parent, namespace), es);
    forall k | k in Taken(s.rec) && k !in Taken(Apply(s, e).rec) ensures Unused(s, k) {
      FreedIsUnused(s, e, k);
    }
  }

  lemma TakenNetworks(r: Record)
    requires RecordOk(r)
    ensures forall k | k in Taken(r) :: IsNetwork(k)
  {
  }

  lemma FreedIsUnused(s: State, e: Event, k: Cidr)
    requires Inv(s) && Enabled(s, e) && k in Taken(s.rec) && k !in Taken(Apply(s, e).rec)
    ensures Unused(s, k)
  {
    hide RecordOk, ReservedAddrs, NoLostUpdate, LedgerExact, CreatesClear, Clear;
    TakenNetworks(s.rec);
    if e.SwapFree? {
      TakenAfterFree(s.rec, s.pcs[e.t].child);
    }
  }
}
