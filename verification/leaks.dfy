/** A release deletes the child's record first and frees the child's entry afterwards. When the second
    write loses its swap, the retry finds no record and stops, and the entry stays taken. */
module Leaks {
  import opened Options
  import opened Naturals
  import opened Cidrs
  import opened Records
  import opened Ipam
  import opened Interleaving

  /** The subnet is reserved, has no record and no caller about to create one, and every release that is
      about to free its entry holds an outdated copy of the parent. A release that names the subnet with
      host bits set deletes the record but frees another entry, so it is no exception. */
  predicate Leaked(s: State, k: Cidr) {
    && k in Taken(s.rec) && Unused(s, k)
    && forall t | t in s.pcs && s.pcs[t].Erased? && s.pcs[t].child == k :: s.pcs[t].copy.version != s.rec.version
  }

  lemma TakeLeaked(s: State, t: nat, block: Cidr, k: Cidr)
    requires Inv(s) && Enabled(s, SwapTake(t, block)) && Leaked(s, k)
    ensures Leaked(Apply(s, SwapTake(t, block)), k)
  {
    hide RecordOk, FreeNetwork, HasIps, Taken, LedgerExact, NoLostUpdate, ErasedUnused, Masked;
    if s.pcs[t].copy.version == s.rec.version {
      TakeEffect(s.rec, block);
    }
  }

  lemma FreeLeaked(s: State, t: nat, k: Cidr)
    requires Inv(s) && Enabled(s, SwapFree(t)) && Leaked(s, k)
    ensures Leaked(Apply(s, SwapFree(t)), k)
  {
    hide RecordOk, Taken, LedgerExact, NoLostUpdate, Clear;
    TakenNetworks(s.rec);
    FreeEffect(s.rec, s.pcs[t].child);
  }

  lemma IpLeaked(s: State, t: nat, ip: Addr, k: Cidr)
    requires Inv(s) && Enabled(s, SwapIp(t, ip)) && Leaked(s, k)
    ensures Leaked(Apply(s, SwapIp(t, ip)), k)
  {
    hide RecordOk, LedgerExact, NoLostUpdate, ErasedUnused, Masked, IpGrant, Droppable;
    var copy := s.pcs[t].copy;
    assert Taken(TakeIp(copy, ip)) == Taken(copy) && Taken(DropIp(copy, ip)) == Taken(copy);
    assert forall r: Record :: Taken(Bump(r)) == Taken(r);
  }

  lemma OtherLeaked(s: State, e: Event, k: Cidr)
    requires Inv(s) && Enabled(s, e) && !e.SwapIp? && !e.SwapTake? && !e.SwapFree? && Leaked(s, k)
    ensures Leaked(Apply(s, e), k)
  {
    TakenNetworks(s.rec);
    hide RecordOk, Taken, LedgerExact, NoLostUpdate, ErasedUnused, Clear, Deletable;
  }

  lemma LeakStep(s: State, e: Event, k: Cidr)
    requires Inv(s) && Enabled(s, e) && Leaked(s, k)
    ensures Leaked(Apply(s, e), k)
  {
    hide *;
    match e
    case SwapIp(t, ip) => IpLeaked(s, t, ip, k);
    case SwapTake(t, block) => TakeLeaked(s, t, block, k);
    case SwapFree(t) => FreeLeaked(s, t, k);
    case _ => OtherLeaked(s, e, k);
  }

  /** A leaked subnet stays reserved and without a record through every continuation: no caller can
      release it or acquire it again while its parent lives. */
  lemma {:induction false} LeakIsPermanent(s: State, es: seq<Event>, k: Cidr)
    requires Inv(s) && Feasible(s, es) && Leaked(s, k)
    ensures Leaked(Final(s, es), k)
    decreases |es|
  {
    hide Inv, Leaked, Enabled;
    if es != [] {
      StepKeeps(s, es[0]);
      LeakStep(s, es[0], k);
      LeakIsPermanent(Apply(s, es[0]), es[1..], k);
    }
  }

  // ---- A run that frees ----

  /** The events can happen from `s` and leave the subnet free. */
  ghost predicate Frees(s: State, es: seq<Event>, k: Cidr) {
    Feasible(s, es) && k !in Taken(Final(s, es).rec)
  }

  /** Some continuation makes the subnet free. */
  ghost predicate Freeable(s: State, k: Cidr) {
    exists es :: Frees(s, es, k)
  }

  lemma FreeableNow(s: State, k: Cidr)
    requires k !in Taken(s.rec)
    ensures Freeable(s, k)
  {
    assert Frees(s, [], k);
  }

  lemma FreeableBefore(s: State, e: Event, k: Cidr)
    requires Enabled(s, e) && Freeable(Apply(s, e), k)
    ensures Freeable(s, k)
  {
    var es :| Frees(Apply(s, e), es, k);
    Cons(s, e, es);
    assert Frees(s, [e] + es, k);
  }

  /** A release of the subnet with a current copy frees it. */
  lemma ReleasingFrees(s: State, t: nat, k: Cidr)
    requires Inv(s) && t in s.pcs && s.pcs[t].Erased? && s.pcs[t].child == k && s.pcs[t].copy.version == s.rec.version
    ensures Freeable(s, k)
  {
    hide RecordOk, LedgerExact, NoLostUpdate, KidsTaken, CreatesClear, ErasedUnused, Masked, Freeable;
    FreeEffect(s.rec, k);
    FreeableNow(Apply(s, SwapFree(t)), k);
    FreeableBefore(s, SwapFree(t), k);
  }

  /** A release that has read the current record of a stored, empty child frees the entry. */
  lemma ReadingFrees(s: State, t: nat, k: Cidr)
    requires Inv(s) && k in s.kids && Deletable(s.kids[k]) && t in s.pcs && s.pcs[t] == Reading(ReleaseChild(k), s.rec)
    ensures Freeable(s, k)
  {
    TakenNetworks(s.rec);
    hide RecordOk, Taken, LedgerExact, NoLostUpdate, CopiesDated, CreatesClear, ErasedUnused, Clear, Deletable,
         Freeable;
    StepKeeps(s, Erase(t));
    ReleasingFrees(Apply(s, Erase(t)), t, k);
    FreeableBefore(s, Erase(t), k);
  }

  lemma EmptyFrees(s: State, k: Cidr)
    requires Inv(s) && k in s.kids && Deletable(s.kids[k])
    ensures Freeable(s, k)
  {
    TakenNetworks(s.rec);
    var t := Above(s.pcs.Keys);
    hide RecordOk, Taken, LedgerExact, NoLostUpdate, CopiesDated, CreatesClear, ErasedUnused, Clear, Deletable,
         Freeable;
    var e := Read(t, ReleaseChild(k));
    StepKeeps(s, e);
    ReadingFrees(Apply(s, e), t, k);
    FreeableBefore(s, e, k);
  }

  /** A stored child whose record becomes empty: then a release that nobody disturbs frees the entry. That it can
      become empty is taken for granted here (`TouchKid`); `Stranded` says when it can. */
  lemma StoredFrees(s: State, k: Cidr)
    requires Inv(s) && k in s.kids
    ensures Freeable(s, k)
  {
    TakenNetworks(s.rec);
    NewRecordOk(k, s.kids[k].parent, s.kids[k].namespace);
    hide RecordOk, Taken, LedgerExact, NoLostUpdate, CopiesDated, CreatesClear, ErasedUnused, Clear, HasIps, Freeable;
    var e := TouchKid(k, NewRecord(k, s.kids[k].parent, s.kids[k].namespace));
    StepKeeps(s, e);
    EmptyFrees(Apply(s, e), k);
    FreeableBefore(s, e, k);
  }

  /** A pending create: once it is done, the child is stored. */
  lemma CreatingFrees(s: State, t: nat, k: Cidr)
    requires Inv(s) && t in s.pcs && s.pcs[t].Creating? && s.pcs[t].block == k
    ensures Freeable(s, k)
  {
    TakenNetworks(s.rec);
    hide RecordOk, Taken, LedgerExact, NoLostUpdate, CopiesDated, ErasedUnused, Clear, Freeable;
    StepKeeps(s, Create(t));
    StoredFrees(Apply(s, Create(t)), k);
    FreeableBefore(s, Create(t), k);
  }

  /** About one parent record whose children can be emptied at will: a reserved subnet can never become free
      again exactly when it is leaked. Children that cannot be emptied are the subject of `Stranded`. */
  lemma NeverFreeIff(s: State, k: Cidr)
    requires Inv(s)
    ensures (forall es :: !Frees(s, es, k)) <==> Leaked(s, k)
  {
    hide Inv, Taken, Leaked, Enabled;
    if Leaked(s, k) {
      forall es ensures !Frees(s, es, k) {
        if Feasible(s, es) {
          LeakIsPermanent(s, es, k);
          LeakedIsTaken(Final(s, es), k);
        }
      }
    } else {
      NotLeakedFrees(s, k);
    }
  }

  lemma LeakedIsTaken(s: State, k: Cidr)
    requires Leaked(s, k)
    ensures k in Taken(s.rec) && k !in s.kids
  {
    hide Taken;
  }

  lemma NotLeakedFrees(s: State, k: Cidr)
    requires Inv(s) && !Leaked(s, k)
    ensures Freeable(s, k)
  {
    hide Inv, Taken, Freeable;
    if k !in Taken(s.rec) {
      FreeableNow(s, k);
    } else if k in s.kids {
      StoredFrees(s, k);
    } else if t :| t in s.pcs && s.pcs[t].Creating? && s.pcs[t].block == k {
      CreatingFrees(s, t, k);
    } else {
      var t :| t in s.pcs && s.pcs[t].Erased? && s.pcs[t].child == k && s.pcs[t].copy.version == s.rec.version;
      ReleasingFrees(s, t, k);
    }
  }

  // ---- A run that leaks ----

  lemma Cons(s: State, e: Event, es: seq<Event>)
    requires Enabled(s, e) && Feasible(Apply(s, e), es)
    ensures Feasible(s, [e] + es) && Final(s, [e] + es) == Final(Apply(s, e), es)
  {
    hide Enabled, Apply;
    assert ([e] + es)[0] == e && ([e] + es)[1..] == es;
  }

  /** Two separate subnets of a prefix. */
  predicate Apart(p: Cidr, j: Cidr, k: Cidr) {
    && IsNetwork(p) && IsNetwork(j) && IsNetwork(k)
    && Covers(p, j) && Covers(p, k) && p.bits < j.bits && p.bits < k.bits
    && !Covers(j, k) && !Covers(k, j)
  }

  /** The parent after `k` was acquired. */
  function One(p: Cidr, k: Cidr): (r: Record)
    requires p.bits <= Width(p.family)
  {
    Bump(TakeChild(NewRecord(p, None, ""), k))
  }

  lemma Grants(p: Cidr, j: Cidr, k: Cidr)
    requires Apart(p, j, k)
    ensures !HasIps(NewRecord(p, None, "")) && Grantable(NewRecord(p, None, ""), Some(k), 0, k)
    ensures !HasIps(One(p, k)) && Grantable(One(p, k), Some(j), 0, j)
    ensures Deletable(NewRecord(k, Some(p), ""))
    ensures Taken(One(p, k)) == {k}
  {
    NewRecordOk(p, None, "");
    NewRecordOk(k, Some(p), "");
    TakenAfterTake(NewRecord(p, None, ""), k);
    SameHasIps(NewRecord(p, None, ""), One(p, k));
  }

  /** One caller acquires `k`. */
  function Acquires(k: Cidr): (es: seq<Event>) {
    [Read(1, AcquireChild(Some(k), 0)), SwapTake(1, k), Create(1)]
  }

  /** A second caller reads the parent to release `k` and a third to acquire `j`; the release deletes the
      record, then the acquisition writes the parent. */
  function Race(j: Cidr, k: Cidr): (es: seq<Event>) {
    [Read(2, ReleaseChild(k)), Read(3, AcquireChild(Some(j), 0)), Erase(2), SwapTake(3, j)]
  }

  lemma AcquiresFeasible(p: Cidr, j: Cidr, k: Cidr)
    requires Apart(p, j, k)
    ensures var s := Initial(p, None, "");
            && Feasible(s, Acquires(k))
            && var s' := Final(s, Acquires(k));
               s'.rec == One(p, k) && s'.kids == map[k := NewRecord(k, Some(p), "")] && s'.pcs == map[]
  {
    Grants(p, j, k);
    hide Grantable, HasIps, Deletable, Taken, Clear;
    var es := Acquires(k);
    var s0 := Initial(p, None, "");
    var s1 := Apply(s0, es[0]);
    var s2 := Apply(s1, es[1]);
    var s3 := Apply(s2, es[2]);
    assert s3.pcs == map[];
    Cons(s2, es[2], []);
    Cons(s1, es[1], [es[2]]);
    Cons(s0, es[0], [es[1], es[2]]);
    assert [es[1]] + [es[2]] == [es[1], es[2]];
    assert [es[0]] + [es[1], es[2]] == es;
    assert [es[2]] + [] == [es[2]];
  }

  /** The last two steps of the race: the delete, then the other caller's write. */
  lemma RaceEnds(s: State, p: Cidr, j: Cidr, k: Cidr)
    requires Apart(p, j, k)
    requires s.rec == One(p, k) && s.kids == map[k := NewRecord(k, Some(p), "")]
    requires s.pcs == map[2 := Reading(ReleaseChild(k), s.rec), 3 := Reading(AcquireChild(Some(j), 0), s.rec)]
    ensures var es := [Erase(2), SwapTake(3, j)]; Feasible(s, es) && Leaked(Final(s, es), k)
  {
    Grants(p, j, k);
    TakenAfterTake(One(p, k), j);
    hide Grantable, HasIps, Deletable, Clear;
    var s1 := Apply(s, Erase(2));
    var s2 := Apply(s1, SwapTake(3, j));
    assert s2.pcs == map[2 := Erased(k, One(p, k)), 3 := Creating(j)];
    assert s2.rec == Bump(TakeChild(One(p, k), j));
    assert Leaked(s2, k);
    hide Leaked, Apply, Enabled;
    Cons(s1, SwapTake(3, j), []);
    Cons(s, Erase(2), [SwapTake(3, j)]);
    assert [SwapTake(3, j)] + [] == [SwapTake(3, j)];
    assert [Erase(2)] + [SwapTake(3, j)] == [Erase(2), SwapTake(3, j)];
  }

  lemma RaceLeaks(s: State, p: Cidr, j: Cidr, k: Cidr)
    requires Apart(p, j, k)
    requires s.rec == One(p, k) && s.kids == map[k := NewRecord(k, Some(p), "")] && s.pcs == map[]
    ensures Feasible(s, Race(j, k)) && Leaked(Final(s, Race(j, k)), k)
  {
    var es := Race(j, k);
    var s1 := Apply(s, es[0]);
    var s2 := Apply(s1, es[1]);
    RaceEnds(s2, p, j, k);
    hide Leaked, Taken;
    Cons(s1, es[1], [es[2], es[3]]);
    Cons(s, es[0], [es[1], es[2], es[3]]);
    assert [es[1]] + [es[2], es[3]] == [es[1], es[2], es[3]];
    assert [es[0]] + [es[1], es[2], es[3]] == es;
  }

  lemma {:induction false} FeasibleAppend(s: State, es: seq<Event>, more: seq<Event>)
    requires Feasible(s, es) && Feasible(Final(s, es), more)
    ensures Feasible(s, es + more) && Final(s, es + more) == Final(Final(s, es), more)
    decreases |es|
  {
    hide Enabled, Apply;
    if es == [] {
      assert es + more == more;
    } else {
      assert (es + more)[0] == es[0] && (es + more)[1..] == es[1..] + more;
      FeasibleAppend(Apply(s, es[0]), es[1..], more);
    }
  }

  /** Such a run exists for any two separate subnets of any prefix: whatever happens afterwards, `k` is
      never free again. */
  lemma LeakReached(p: Cidr, j: Cidr, k: Cidr, es: seq<Event>)
    requires Apart(p, j, k)
    ensures var s := Initial(p, None, "");
            var leak := Acquires(k) + Race(j, k);
            && Feasible(s, leak)
            && (Feasible(Final(s, leak), es) ==>
                  var end := Final(Final(s, leak), es);
                  k in Taken(end.rec) && k !in end.kids)
  {
    var s := Initial(p, None, "");
    hide Enabled, Apply, Acquires, Race, One, Apart, Taken;
    AcquiresFeasible(p, j, k);
    RaceLeaks(Final(s, Acquires(k)), p, j, k);
    FeasibleAppend(s, Acquires(k), Race(j, k));
    var leak := Acquires(k) + Race(j, k);
    InitialInv(p, None, "");
    RunKeeps(s, leak);
    if Feasible(Final(s, leak), es) {
      LeakIsPermanent(Final(s, leak), es, k);
    }
  }
}
