/** One tick of the agent, whole histories of ticks, and what they guarantee. */
module WeaveReconcile {
  import opened Options
  import opened Ascii
  import opened WeaveTypes
  import opened WeaveServer
  import opened WeaveSteps
  import opened WeaveNetworks
  import opened WeavePrune
  import opened WeaveAttachments
  import opened WeaveSync

  // ---- What a finished reconcile means ----

  /** The report on one entry is true: a Ready attached NIC has exactly its attachment, Ready, stamped
      and on a stamped network; a Ready detached NIC has none. */
  predicate TruthfulEntry(st: ServerState, want: Desired) {
    if want.vni != 0 then
      && Served(st.attachments, want)
      && VnetId(want.vni) in st.networks && st.networks[VnetId(want.vni)].revision == Some(want.revision)
    else
      forall id | id in st.attachments :: !OnNic(st.attachments[id], want)
  }

  predicate Truthful(st: ServerState, cfg: Config, phases: seq<Phase>)
    requires |phases| == |cfg|
  {
    forall j | 0 <= j < |cfg| && phases[j] == Ready :: TruthfulEntry(st, cfg[j])
  }

  /** The server holds exactly the desired networks and attachments, all stamped. */
  predicate Converged(st: ServerState, cfg: Config) {
    && (forall j | 0 <= j < |cfg| :: TruthfulEntry(st, cfg[j]))
    && AllInConfig(st.attachments, cfg)
    && AllWanted(st.networks, cfg)
  }

  /** Only listings were made. */
  ghost predicate Quiet(log: seq<Event>, from: nat) {
    forall k | from <= k < |log| :: IsList(log[k].call)
  }

  // ---- Joining the phases ----

  lemma JoinLogs(log0: seq<Event>, log1: seq<Event>, log2: seq<Event>, book: Book)
    requires Extends(log0, log1) && Extends(log1, log2)
    requires LogKept(log1, |log0|, book) && LogKept(log2, |log1|, book)
    ensures Extends(log0, log2) && LogKept(log2, |log0|, book)
    ensures Smooth(log2, |log0|) <==> Smooth(log1, |log0|) && Smooth(log2, |log1|)
    ensures Answered(log2, |log0|) <==> Answered(log1, |log0|) && Answered(log2, |log1|)
  {
    assert forall k | 0 <= k < |log1| :: log2[k] == log1[k];
    hide Kept;
    SmoothSplit(log1, log2, |log0|);
  }

  lemma OnceEarly(log0: seq<Event>, log1: seq<Event>, log2: seq<Event>)
    requires Extends(log0, log1) && Extends(log1, log2) && NetworksOnce(log1, |log0|)
    requires forall k | |log1| <= k < |log2| :: !NetworkWrite(log2[k])
    ensures NetworksOnce(log2, |log0|)
  {
    assert forall k | 0 <= k < |log1| :: log2[k] == log1[k];
  }

  lemma OnceMiddle(log1: seq<Event>, log2: seq<Event>, log3: seq<Event>, from: nat)
    requires from <= |log1| && Extends(log1, log2) && Extends(log2, log3) && DeletesOnce(log2, |log1|)
    requires forall k | from <= k < |log1| :: !AttachmentDelete(log1[k])
    requires forall k | |log2| <= k < |log3| :: !AttachmentDelete(log3[k])
    ensures DeletesOnce(log3, from)
  {
    assert forall k | 0 <= k < |log2| :: log3[k] == log2[k];
    assert forall k | 0 <= k < |log1| :: log2[k] == log1[k];
  }

  /** Nothing is attached to the name of VNI 0. */
  lemma NoneOnZero(st: ServerState, book: Book, id: string)
    requires Kept(st, book) && id in st.attachments
    ensures st.attachments[id].spec.vnet != VnetId(0)
  {
    if st.attachments[id].spec.vnet == VnetId(0) {
      VnetIdInjective(0, st.networks[VnetId(0)].vni);
    }
  }

  /** Once only configured attachments are left, a detached NIC has none. */
  lemma DetachedIsClear(st: ServerState, cfg: Config, j: nat, book: Book)
    requires Promised(cfg) && Kept(st, book) && AllInConfig(st.attachments, cfg) && j < |cfg| && cfg[j].vni == 0
    ensures TruthfulEntry(st, cfg[j])
  {
    forall id | id in st.attachments ensures !OnNic(st.attachments[id], cfg[j]) {
      assert InConfig(st.attachments[id].spec, cfg);
      var k :| 0 <= k < |cfg| && SamePair(st.attachments[id].spec, cfg[k]);
      NoneOnZero(st, book, id);
      assert k != j;
    }
  }

  /** Pruning keeps the networks that Ready entries use. */
  lemma PruneServes(cfg: Config, phases: seq<Phase>, nets: map<string, Network>, nets': map<string, Network>)
    requires |cfg| == |phases| && NetworksServe(cfg, phases, nets) && WantedRemain(nets, nets', cfg)
             && NetworksNamed(nets)
    ensures NetworksServe(cfg, phases, nets')
  {
    forall j | 0 <= j < |cfg| && cfg[j].vni != 0 && phases[j] == Ready
      ensures VnetId(cfg[j].vni) in nets' && nets'[VnetId(cfg[j].vni)].revision == Some(cfg[j].revision)
    {
      var id := VnetId(cfg[j].vni);
      VnetIdInjective(cfg[j].vni, nets[id].vni);
      assert Wanted(nets[id], cfg);
    }
  }

  lemma PhasesNarrow(cfg: Config, phases1: seq<Phase>, phases2: seq<Phase>, nets: map<string, Network>)
    requires |cfg| == |phases1| == |phases2| && NetworksServe(cfg, phases1, nets)
    requires forall j | 0 <= j < |cfg| && phases2[j] == Ready :: phases1[j] == Ready
    ensures NetworksServe(cfg, phases2, nets)
  {
  }

  lemma Concludes(st: ServerState, cfg: Config, phases: seq<Phase>, book: Book)
    requires WellFormed(cfg) && Kept(st, book) && |phases| == |cfg|
    requires AllInConfig(st.attachments, cfg) && ServedUpTo(cfg, phases, |cfg|, st.attachments)
    requires NetworksServe(cfg, phases, st.networks) && AllWanted(st.networks, cfg)
    ensures Truthful(st, cfg, phases)
    ensures AllPhasesReady(phases) ==> Converged(st, cfg)
  {
    hide Kept, AllInConfig, Served, AllWanted, OnNic;
    forall j | 0 <= j < |cfg| && phases[j] == Ready ensures TruthfulEntry(st, cfg[j]) {
      if cfg[j].vni == 0 {
        DetachedIsClear(st, cfg, j, book);
      }
    }
  }

  // ---- The full reconcile ----

  datatype Outcome = Failed | Copied(phases: seq<Phase>) | Reconciled(phases: seq<Phase>)

  /** Phase one on a server whose networks carry the agent's names. */
  method NetworksPhase(server: Server, cfg: Config, ghost book: Book) returns (ok: bool, phases: seq<Phase>)
    requires WellFormed(cfg) && Kept(server.State(), book)
    modifies server`networks, server`log
    ensures Kept(server.State(), book) && LogKept(server.log, |old(server.log)|, book)
    ensures |phases| == |cfg| && forall j | 0 <= j < |cfg| && cfg[j].vni == 0 :: phases[j] == Ready
    ensures Extends(old(server.log), server.log) && OnlyNetworkCalls(server.log, |old(server.log)|)
    ensures NetworksOnce(server.log, |old(server.log)|)
    ensures ok ==> NetworksServe(cfg, phases, server.networks)
    ensures ok ==> NetsResolved(cfg, phases, old(server.networks), server.log, |old(server.log)|, server.networks)
    ensures Answered(server.log, |old(server.log)|) ==> ok
    ensures Smooth(server.log, |old(server.log)|) && NetworksReady(old(server.networks)) ==>
              forall j | 0 <= j < |cfg| :: phases[j] == Ready
    ensures (forall j | 0 <= j < |cfg| :: cfg[j].vni == 0) ==>
              && server.networks == old(server.networks)
              && |server.log| == |old(server.log)| + 1 && server.log[|old(server.log)|].call.ListNetworks?
  {
    ghost var from, st := |server.log|, server.State();
    KeptStays(st, book);
    hide Kept, LogKept, Stays, LogStays, NetworksNamed, NetworksOnce, NetworksServe, NetworksReady, Smooth, Answered,
         NetsResolved;
    ok, phases := CreateUpdateNetworks(server, cfg, book);
    assert Stays(st, book, true);
    NamedIsKept(server.State(), book);
    LogNamedIsKept(server.log, from, book);
  }

  lemma KeptNamed(st: ServerState, book: Book)
    requires Kept(st, book)
    ensures NetworksNamed(st.networks)
  {
  }

  lemma KeptStays(st: ServerState, book: Book)
    requires Kept(st, book)
    ensures Stays(st, book, true) && Stays(st, book, false) && NetworksNamed(st.networks)
  {
  }

  /** Every entry ends by itself, whatever happens to the others. A detached one is Ready. An attached one whose
      network is not Ready reports that; the others report what became of their attachment. */
  ghost predicate EntryResolves(st0: ServerState, log: seq<Event>, from: nat, st: ServerState, want: Desired,
                               phase: Phase) {
    if want.vni == 0 then phase == Ready
    else
      exists p ::
        && NetResolves(st0.networks, log, from, st.networks, want, p)
        && (if p != Ready then phase == p
            else Resolves(st0.attachments, log, from, st.attachments, want, phase))
  }

  /** Pruning keeps a wanted network's end. */
  lemma PruneResolves(cfg: Config, j: nat, nets0: map<string, Network>, log: seq<Event>, from: nat,
                     nets: map<string, Network>, nets': map<string, Network>, phase: Phase)
    requires j < |cfg| && cfg[j].vni != 0 && WantedRemain(nets, nets', cfg)
    requires NetResolves(nets0, log, from, nets, cfg[j], phase)
    ensures NetResolves(nets0, log, from, nets', cfg[j], phase)
  {
    hide LostNet, VnetId;
    if id :| id in nets && NetPlacedBy(nets0, nets, id, cfg[j], phase) {
      assert Wanted(nets[id], cfg);
      assert NetPlacedBy(nets0, nets', id, cfg[j], phase);
    }
  }

  lemma EntryConcludes(cfg: Config, j: nat, p: Phase, phase: Phase, st0: ServerState, from: nat, log1: seq<Event>,
                       log2: seq<Event>, log3: seq<Event>, nets: map<string, Network>, st: ServerState)
    requires j < |cfg| && Extends(log1, log2) && Extends(log2, log3) && from <= |log1|
    requires WantedRemain(nets, st.networks, cfg)
    requires cfg[j].vni == 0 || p != Ready ==> phase == p
    requires cfg[j].vni == 0 ==> p == Ready
    requires cfg[j].vni != 0 ==> NetResolves(st0.networks, log1, from, nets, cfg[j], p)
    requires cfg[j].vni != 0 && p == Ready ==>
               Resolves(st0.attachments, log2, |log1|, st.attachments, cfg[j], phase)
    ensures EntryResolves(st0, log3, from, st, cfg[j], phase)
  {
    hide NetResolves, Resolves, WantedRemain;
    if cfg[j].vni != 0 {
      NetResolvesLater(st0.networks, log1, log3, from, from, nets, cfg[j], p);
      PruneResolves(cfg, j, st0.networks, log3, from, nets, st.networks, p);
      if p == Ready {
        ResolvesLater(st0.attachments, log2, log3, |log1|, from, st.attachments, cfg[j], phase);
      }
    }
  }

  ghost predicate AllResolve(cfg: Config, st0: ServerState, log: seq<Event>, from: nat, st: ServerState,
                            phases: seq<Phase>) {
    |phases| == |cfg| && forall j | 0 <= j < |cfg| :: EntryResolves(st0, log, from, st, cfg[j], phases[j])
  }

  lemma AllConclude(cfg: Config, phases1: seq<Phase>, phases2: seq<Phase>, st0: ServerState, from: nat,
                    log1: seq<Event>, log2: seq<Event>, log3: seq<Event>, nets: map<string, Network>, st: ServerState)
    requires |phases1| == |phases2| == |cfg| && Extends(log1, log2) && Extends(log2, log3) && from <= |log1|
    requires WantedRemain(nets, st.networks, cfg) && NetsResolved(cfg, phases1, st0.networks, log1, from, nets)
    requires ResolvedUpTo(cfg, phases1, phases2, |cfg|, st0.attachments, log2, |log1|, st.attachments)
    requires forall j | 0 <= j < |cfg| && cfg[j].vni == 0 :: phases1[j] == Ready
    requires forall j | 0 <= j < |cfg| && (cfg[j].vni == 0 || phases1[j] != Ready) :: phases2[j] == phases1[j]
    ensures AllResolve(cfg, st0, log3, from, st, phases2)
  {
    hide EntryResolves, NetResolves, Resolves, WantedRemain;
    forall j | 0 <= j < |cfg| ensures EntryResolves(st0, log3, from, st, cfg[j], phases2[j]) {
      EntryConcludes(cfg, j, phases1[j], phases2[j], st0, from, log1, log2, log3, nets, st);
    }
  }

  /** If every call of the tick was answered, whatever states were reported, then each attached entry that can be
      expressed has its network, stamped; and if that is Ready, exactly one attachment on its NIC, the desired
      one, stamped, whose phase is reported. */
  lemma AnsweredEntry(st0: ServerState, log: seq<Event>, from: nat, st: ServerState, want: Desired, phase: Phase,
                      book: Book)
    returns (p: Phase)
    requires EntryResolves(st0, log, from, st, want, phase) && Answered(log, from) && want.vni != 0
    requires SpecFor(want).Some? && Kept(st0, book) && Kept(st, book)
    ensures NetPlacedBy(st0.networks, st.networks, VnetId(want.vni), want, p)
    ensures if p != Ready then phase == p else InPlace(st0.attachments, st.attachments, want, phase)
  {
    KeptNamed(st, book);
    NamedNotEmpty(st0, book);
    hide NetResolves, Resolves, NetPlacedBy, InPlace, SpecFor, VnetId, Kept, Answered, NetworksNamed;
    p :| && NetResolves(st0.networks, log, from, st.networks, want, p)
         && (if p != Ready then phase == p
             else Resolves(st0.attachments, log, from, st.attachments, want, phase));
    var id := AnsweredNetwork(st0.networks, log, from, st.networks, want, p);
    PlacedName(st0.networks, st.networks, id, want, p);
    if p == Ready {
      AnsweredPlaces(st0.attachments, log, from, st.attachments, want, phase);
    }
  }

  lemma PlacedName(nets0: map<string, Network>, nets: map<string, Network>, id: string, want: Desired, p: Phase)
    requires NetPlacedBy(nets0, nets, id, want, p) && NetworksNamed(nets)
    ensures id == VnetId(want.vni)
  {
  }

  /** Three phases in order; the first error ends the tick. */
  method FullReconcile(server: Server, cfg: Config, ghost book: Book) returns (r: Outcome)
    requires WellFormed(cfg) && Kept(server.State(), book) && Registered(cfg, book)
    modifies server
    ensures Kept(server.State(), book)
    ensures Extends(old(server.log), server.log) && LogKept(server.log, |old(server.log)|, book)
    ensures NetworksOnce(server.log, |old(server.log)|) && DeletesOnce(server.log, |old(server.log)|)
    ensures !r.Copied?
    ensures r.Reconciled? ==> |r.phases| == |cfg| && Truthful(server.State(), cfg, r.phases)
    ensures r.Reconciled? && AllPhasesReady(r.phases) ==> Converged(server.State(), cfg)
    ensures r.Reconciled? ==>
              AllResolve(cfg, old(server.State()), server.log, |old(server.log)|, server.State(), r.phases)
    ensures Answered(server.log, |old(server.log)|) ==> r.Reconciled?
    ensures (&& Smooth(server.log, |old(server.log)|) && Buildable(cfg)
             && NetworksReady(old(server.networks)) && AttachmentsReady(old(server.attachments))) ==>
              r.Reconciled? && AllPhasesReady(r.phases)
    ensures old(server.networks) == map[] && old(server.attachments) == map[]
            && (forall j | 0 <= j < |cfg| :: cfg[j].vni == 0) ==>
              Quiet(server.log, |old(server.log)|) && server.State() == old(server.State())
  {
    hide Kept, Registered, LogKept, NetworksServe, ServedUpTo, AllInConfig, AllWanted, Smooth, Buildable,
         NetworksReady, AttachmentsReady, NetworksOnce, DeletesOnce, Truthful, Converged, WantedRemain, NetworksNamed,
         NetworkWrite, AttachmentDelete, OnlyNetworkCalls, OnlyAttachmentCalls, OnlyPruneCalls,
         Answered, NetsResolved, ResolvedUpTo, AllResolve;
    ghost var log0, st0 := server.log, server.State();
    var ok, phases1 := NetworksPhase(server, cfg, book);
    ghost var log1 := server.log;
    NoDeletes(log1, |log0|);
    SmoothAnswered(log1, |log0|);
    if !ok {
      return Outcome.Failed;
    }
    var phases2;
    ok, phases2 := CreateUpdateAttachments(server, cfg, phases1, book);
    ghost var log2 := server.log;
    JoinLogs(log0, log1, log2, book);
    AttachmentCalls(log2, |log1|);
    OnceEarly(log0, log1, log2);
    OnceMiddle(log1, log2, log2, |log0|);
    SmoothAnswered(log2, |log0|);
    if !ok {
      return Outcome.Failed;
    }
    PhasesNarrow(cfg, phases1, phases2, server.networks);
    KeptNamed(server.State(), book);
    ghost var nets := server.networks;
    NoneIsWanted(cfg);
    ok := PrunePhase(server, cfg, book);
    JoinLogs(log0, log2, server.log, book);
    PruneCalls(server.log, |log2|);
    OnceEarly(log0, log2, server.log);
    OnceMiddle(log1, log2, server.log, |log0|);
    SmoothAnswered(server.log, |log0|);
    if !ok {
      return Outcome.Failed;
    }
    PruneServes(cfg, phases2, nets, server.networks);
    AllConclude(cfg, phases1, phases2, st0, |log0|, log1, log2, server.log, nets, server.State());
    Concludes(server.State(), cfg, phases2, book);
    return Reconciled(phases2);
  }

  lemma AttachmentCalls(log: seq<Event>, from: nat)
    requires OnlyAttachmentCalls(log, from)
    ensures forall k | from <= k < |log| :: !NetworkWrite(log[k])
  {
  }

  lemma PruneCalls(log: seq<Event>, from: nat)
    requires OnlyPruneCalls(log, from)
    ensures forall k | from <= k < |log| :: !NetworkWrite(log[k]) && !AttachmentDelete(log[k])
  {
  }

  lemma NoneIsWanted(cfg: Config)
    ensures AllWanted(map[], cfg)
  {
  }

  lemma NoDeletes(log: seq<Event>, from: nat)
    requires OnlyNetworkCalls(log, from)
    ensures forall k | from <= k < |log| :: !AttachmentDelete(log[k])
    ensures DeletesOnce(log, from)
  {
  }

  // ---- The fast path ----

  /** Before anything is written, every entry must have a revision and a VNI that fits. */
  method BuildStatus(cfg: Config) returns (ok: bool)
    ensures ok <==> Representable(cfg)
  {
    for i := 0 to |cfg|
      invariant forall j | 0 <= j < i :: cfg[j].revision != "" && cfg[j].vni < VNI_LIMIT
    {
      if cfg[i].revision == "" || cfg[i].vni >= VNI_LIMIT {
        return false;
      }
    }
    return true;
  }

  datatype FastResult = FastError | VersionChanged | Fast(phases: seq<Phase>)

  /** The fast path applies when the first listed attachment carries the revision and the server is in sync. */
  ghost predicate FastApplies(cfg: Config, order: seq<string>, items: map<string, Attachment>) {
    && cfg != [] && order != [] && Listed(order, items)
    && items[order[0]].revision == Some(cfg[0].revision)
    && InSync(cfg, order, items)
  }

  /** The reported phases are those of attachments on the desired NIC and network. */
  ghost predicate Mirrors(cfg: Config, phases: seq<Phase>, items: map<string, Attachment>) {
    && |phases| == |cfg|
    && forall i | 0 <= i < |cfg| && cfg[i].vni != 0 ::
         exists id :: id in items && SamePair(items[id].spec, cfg[i]) && phases[i] == PhaseOr(items[id].state)
  }

  method FastPath(server: Server, cfg: Config) returns (r: FastResult, ghost order: seq<string>)
    modifies server`log
    ensures Extends(old(server.log), server.log) && Quiet(server.log, |old(server.log)|)
    ensures forall k | |old(server.log)| <= k < |server.log| :: server.log[k].after == server.State()
    ensures r.Fast? ==>
              && Orders(order, server.attachments.Keys) && FastApplies(cfg, order, server.attachments)
              && Mirrors(cfg, r.phases, server.attachments)
    ensures r.VersionChanged? && cfg != [] ==>
              Orders(order, server.attachments.Keys) && !FastApplies(cfg, order, server.attachments)
    ensures r.FastError? ==> (cfg != [] && cfg[0].revision == "") || !Answered(server.log, |old(server.log)|)
  {
    order := [];
    if cfg == [] {
      return VersionChanged, order;
    }
    if cfg[0].revision == "" {
      return FastError, order;
    }
    var ok, keys, items := server.ListAttachments();
    assert server.log[|old(server.log)|].call.ListAttachments?;
    order := keys;
    if !ok {
      return FastError, order;
    }
    hide InSync, SameNic;
    assert forall k | 0 <= k < |keys| :: keys[k] in items;
    if keys == [] || items[keys[0]].revision != Some(cfg[0].revision) {
      return VersionChanged, order;
    }
    var sync, at := SyncStatus(cfg, keys, items);
    if sync.Drifted? {
      return VersionChanged, order;
    }
    MirrorsMatch(cfg, sync.phases, keys, items, at);
    return Fast(sync.phases), order;
  }

  lemma MirrorsMatch(cfg: Config, phases: seq<Phase>, order: seq<string>, items: map<string, Attachment>,
                     at: seq<Option<nat>>)
    requires Listed(order, items) && InSync(cfg, order, items) && |phases| == |cfg| == |at|
    requires forall i | 0 <= i < |cfg| && cfg[i].vni != 0 ::
               && at[i].Some? && at[i].value < |order|
               && ServerPair(items[order[at[i].value]]) == WantPair(cfg[i])
               && phases[i] == PhaseOr(items[order[at[i].value]].state)
    ensures Mirrors(cfg, phases, items)
  {
    forall i | 0 <= i < |cfg| && cfg[i].vni != 0
      ensures exists id :: id in items && SamePair(items[id].spec, cfg[i]) && phases[i] == PhaseOr(items[id].state)
    {
      var id := order[at[i].value];
      assert id in items && SamePair(items[id].spec, cfg[i]);
    }
  }

  /** Every attachment carries the configuration's revision. */
  predicate UniformStamps(cfg: Config, items: map<string, Attachment>) {
    forall id | id in items :: cfg != [] && items[id].revision == Some(cfg[0].revision)
  }

  /** With uniform and honest stamps, matching NIC and network is enough: the attachment is the desired one. */
  lemma UniformStampsSound(cfg: Config, phases: seq<Phase>, items: map<string, Attachment>, book: Book)
    requires Promised(cfg) && UniformStamps(cfg, items) && Honest(items, book) && Mirrors(cfg, phases, items)
    requires cfg != [] ==> cfg[0].revision in book && book[cfg[0].revision] == cfg
    ensures forall i | 0 <= i < |cfg| && cfg[i].vni != 0 ::
              exists id :: id in items && Agrees(items[id].spec, cfg[i]) && phases[i] == PhaseOr(items[id].state)
  {
    forall i | 0 <= i < |cfg| && cfg[i].vni != 0
      ensures exists id :: id in items && Agrees(items[id].spec, cfg[i]) && phases[i] == PhaseOr(items[id].state)
    {
      var id :| id in items && SamePair(items[id].spec, cfg[i]) && phases[i] == PhaseOr(items[id].state);
      assert AgreesWithSome(items[id].spec, cfg);
      var j :| 0 <= j < |cfg| && Agrees(items[id].spec, cfg[j]);
      assert j == i;
    }
  }

  /** No attachment with another stamp would have to be replaced. */
  predicate OldStampsAgree(cfg: Config, items: map<string, Attachment>) {
    forall id, i | id in items && 0 <= i < |cfg| && items[id].revision != Some(cfg[i].revision)
        && SamePair(items[id].spec, cfg[i]) ::
      !RequiresRecreate(items[id].spec, cfg[i])
  }

  /** Every attached entry has an attachment that agrees with it. */
  predicate AllAgree(cfg: Config, items: map<string, Attachment>) {
    forall i | 0 <= i < |cfg| && cfg[i].vni != 0 :: exists id :: id in items && Agrees(items[id].spec, cfg[i])
  }

  /** What the fast path copies is true of the desired attachments exactly when no attachment that carries
      another stamp would have to be replaced; those that carry the revision need no look. */
  lemma FastPathTrueIff(cfg: Config, phases: seq<Phase>, st: ServerState, book: Book)
    requires Promised(cfg) && Kept(st, book) && Mirrors(cfg, phases, st.attachments)
    requires cfg != [] ==> cfg[0].revision in book && book[cfg[0].revision] == cfg
    ensures AllAgree(cfg, st.attachments) <==> OldStampsAgree(cfg, st.attachments)
  {
    var items := st.attachments;
    if OldStampsAgree(cfg, items) {
      forall i | 0 <= i < |cfg| && cfg[i].vni != 0 ensures exists id :: id in items && Agrees(items[id].spec, cfg[i]) {
        var id :| id in items && SamePair(items[id].spec, cfg[i]) && phases[i] == PhaseOr(items[id].state);
        PairAgreesIf(cfg, i, id, st, book);
      }
    }
    if AllAgree(cfg, items) {
      forall id, i | id in items && 0 <= i < |cfg| && SamePair(items[id].spec, cfg[i])
          ensures !RequiresRecreate(items[id].spec, cfg[i]) {
        NoneOnZero(st, book, id);
        OnlyPair(st, book, id, cfg[i]);
        var k :| k in items && Agrees(items[k].spec, cfg[i]);
        AgreesSamePair(items[k].spec, cfg[i]);
        UpdateIffAgrees(items[id].spec, cfg[i]);
      }
    }
  }

  lemma OnlyPair(st: ServerState, book: Book, id: string, d: Desired)
    requires Kept(st, book) && id in st.attachments && SamePair(st.attachments[id].spec, d)
    ensures forall k | k in st.attachments && SamePair(st.attachments[k].spec, d) :: k == id
  {
  }

  lemma PairAgreesIf(cfg: Config, i: nat, id: string, st: ServerState, book: Book)
    requires Promised(cfg) && Kept(st, book) && OldStampsAgree(cfg, st.attachments)
    requires i < |cfg| && id in st.attachments && SamePair(st.attachments[id].spec, cfg[i])
    requires cfg[0].revision in book && book[cfg[0].revision] == cfg
    ensures Agrees(st.attachments[id].spec, cfg[i])
  {
    var a := st.attachments[id];
    UpdateIffAgrees(a.spec, cfg[i]);
    if a.revision == Some(cfg[i].revision) {
      assert cfg[i].revision == cfg[0].revision;
      assert AgreesWithSome(a.spec, cfg);
      var j :| 0 <= j < |cfg| && Agrees(a.spec, cfg[j]);
      assert SameNic(cfg[i].mac, cfg[j].mac);
      assert j == i;
    }
  }

  // ---- What the fast path leaves unseen ----

  /** Every network is stamped with the configuration's revision. */
  predicate NetworksStamped(cfg: Config, nets: map<string, Network>) {
    forall id | id in nets :: cfg != [] && nets[id].revision == Some(cfg[0].revision)
  }

  /** What the fast path would have to look at as well: every stamp, every state and the networks. */
  predicate Settled(st: ServerState, cfg: Config) {
    && UniformStamps(cfg, st.attachments) && AttachmentsReady(st.attachments)
    && AllWanted(st.networks, cfg) && NetworksStamped(cfg, st.networks)
  }

  /** In sync, every attachment belongs to an attached entry. */
  lemma SyncedOwner(st: ServerState, cfg: Config, order: seq<string>, id: string) returns (j: nat)
    requires Orders(order, st.attachments.Keys) && Listed(order, st.attachments) && InSync(cfg, order, st.attachments)
    requires id in st.attachments
    ensures j < |cfg| && cfg[j].vni != 0 && SamePair(st.attachments[id].spec, cfg[j])
  {
    hide ServerPair, WantPair, SamePair, WantBag;
    var ps := ServerPairs(order, st.attachments);
    var k :| 0 <= k < |order| && order[k] == id;
    assert ps[k] in multiset(ps);
    WantBagMember(cfg, ps[k]);
    j :| 0 <= j < |cfg| && cfg[j].vni != 0 && WantPair(cfg[j]) == ps[k];
    PairIff(st.attachments[id], cfg[j]);
  }

  /** In sync, every attached entry has an attachment on its NIC and network. */
  lemma SyncedHas(st: ServerState, cfg: Config, order: seq<string>, j: nat) returns (id: string)
    requires Listed(order, st.attachments) && InSync(cfg, order, st.attachments) && j < |cfg| && cfg[j].vni != 0
    ensures id in st.attachments && SamePair(st.attachments[id].spec, cfg[j])
  {
    hide ServerPair, WantPair, SamePair, WantBag;
    var ps := ServerPairs(order, st.attachments);
    assert Wants(cfg, WantPair(cfg[j]));
    WantBagMember(cfg, WantPair(cfg[j]));
    assert WantPair(cfg[j]) in multiset(ps);
    var k :| 0 <= k < |ps| && ps[k] == WantPair(cfg[j]);
    id := order[k];
    PairIff(st.attachments[id], cfg[j]);
  }

  /** In sync, only the entry's own attachment is on its NIC. */
  lemma SyncedAlone(st: ServerState, cfg: Config, order: seq<string>, j: nat, id: string)
    requires Promised(cfg) && Orders(order, st.attachments.Keys) && Listed(order, st.attachments)
             && InSync(cfg, order, st.attachments)
    requires j < |cfg| && id in st.attachments && OnNic(st.attachments[id], cfg[j])
    ensures cfg[j].vni != 0 && SamePair(st.attachments[id].spec, cfg[j])
  {
    hide InSync, VnetId, Lower;
    var i := SyncedOwner(st, cfg, order, id);
    assert SameNic(cfg[i].mac, cfg[j].mac);
  }

  lemma ResolvedEntry(st: ServerState, cfg: Config, order: seq<string>, book: Book, j: nat)
    requires Promised(cfg) && Kept(st, book) && Orders(order, st.attachments.Keys) && Listed(order, st.attachments)
    requires InSync(cfg, order, st.attachments) && Settled(st, cfg) && j < |cfg|
    requires cfg[0].revision in book && book[cfg[0].revision] == cfg
    ensures TruthfulEntry(st, cfg[j])
  {
    hide InSync, VnetId, SameNic, WantBag, RequiresRecreate, AllWanted;
    if cfg[j].vni == 0 {
      forall id | id in st.attachments ensures !OnNic(st.attachments[id], cfg[j]) {
        if OnNic(st.attachments[id], cfg[j]) {
          SyncedAlone(st, cfg, order, j, id);
        }
      }
    } else {
      var id := SyncedHas(st, cfg, order, j);
      StampedAgrees(st, cfg, book, j, id);
      forall k | k in st.attachments && OnNic(st.attachments[k], cfg[j]) ensures k == id {
        SyncedAlone(st, cfg, order, j, k);
        OnlyPair(st, book, id, cfg[j]);
      }
      assert ServedBy(st.attachments, id, cfg[j]);
    }
  }

  lemma StampedAgrees(st: ServerState, cfg: Config, book: Book, j: nat, id: string)
    requires Promised(cfg) && Kept(st, book) && UniformStamps(cfg, st.attachments) && j < |cfg|
    requires id in st.attachments && SamePair(st.attachments[id].spec, cfg[j])
    requires cfg[0].revision in book && book[cfg[0].revision] == cfg
    ensures Agrees(st.attachments[id].spec, cfg[j])
  {
    hide VnetId, Lower;
    assert AgreesWithSome(st.attachments[id].spec, cfg);
    var i :| 0 <= i < |cfg| && Agrees(st.attachments[id].spec, cfg[i]);
    assert SameNic(cfg[i].mac, cfg[j].mac);
    assert i == j;
  }

  lemma ConvergedSettled(st: ServerState, cfg: Config, book: Book)
    requires Promised(cfg) && Kept(st, book) && Converged(st, cfg) && cfg != []
    ensures Settled(st, cfg)
  {
    hide Agrees, SamePair, Kept;
    forall id | id in st.attachments
      ensures st.attachments[id].revision == Some(cfg[0].revision) && st.attachments[id].state == Some(Ready)
    {
      var j := ConvergedOwner(st, cfg, id, book);
    }
    forall id | id in st.networks ensures st.networks[id].revision == Some(cfg[0].revision) {
      NetworkIsNamed(st, book, id);
      assert Wanted(st.networks[id], cfg);
      var j :| 0 <= j < |cfg| && cfg[j].vni == st.networks[id].vni;
      assert TruthfulEntry(st, cfg[j]);
    }
  }

  lemma NetworkIsNamed(st: ServerState, book: Book, id: string)
    requires Kept(st, book) && id in st.networks
    ensures id == VnetId(st.networks[id].vni)
  {
  }

  lemma SettledConverged(st: ServerState, cfg: Config, order: seq<string>, book: Book)
    requires Promised(cfg) && Kept(st, book) && Orders(order, st.attachments.Keys)
             && FastApplies(cfg, order, st.attachments)
    requires cfg[0].revision in book && book[cfg[0].revision] == cfg && Settled(st, cfg)
    ensures Converged(st, cfg)
  {
    hide InSync, SamePair, Kept, Promised, TruthfulEntry, UniformStamps, AttachmentsReady, AllWanted, NetworksStamped;
    forall j: nat | j < |cfg| ensures TruthfulEntry(st, cfg[j]) {
      ResolvedEntry(st, cfg, order, book, j);
    }
    forall id | id in st.attachments ensures InConfig(st.attachments[id].spec, cfg) {
      var j := SyncedOwner(st, cfg, order, id);
    }
  }

  /** When the fast path applies, the server is converged exactly when every attachment carries the
      revision and is Ready and every network is wanted and carries the revision. */
  lemma FastConvergedIff(st: ServerState, cfg: Config, order: seq<string>, book: Book)
    requires Promised(cfg) && Kept(st, book) && Orders(order, st.attachments.Keys)
             && FastApplies(cfg, order, st.attachments)
    requires cfg[0].revision in book && book[cfg[0].revision] == cfg
    ensures Converged(st, cfg) <==> Settled(st, cfg)
  {
    hide Converged, Settled, InSync, Kept, Promised;
    if Settled(st, cfg) {
      SettledConverged(st, cfg, order, book);
    }
    if Converged(st, cfg) {
      ConvergedSettled(st, cfg, book);
    }
  }

  /** What taking the fast path says about convergence. */
  predicate FastTells(st: ServerState, cfg: Config, book: Book) {
    cfg != [] && (cfg[0].revision in book ==> (Converged(st, cfg) <==> Settled(st, cfg)))
  }

  /** The fast path applies in whatever order the server lists its attachments. */
  ghost predicate AlwaysFast(cfg: Config, items: map<string, Attachment>) {
    cfg != [] && forall order | Orders(order, items.Keys) :: FastApplies(cfg, order, items)
  }

  lemma SomeOrderSlow(cfg: Config, order: seq<string>, items: map<string, Attachment>)
    requires cfg != [] ==> Orders(order, items.Keys) && !FastApplies(cfg, order, items)
    ensures !AlwaysFast(cfg, items)
  {
    hide FastApplies, Orders;
  }

  lemma FastSettles(st: ServerState, cfg: Config, order: seq<string>, book: Book)
    requires Promised(cfg) && Registered(cfg, book) && Kept(st, book)
    requires Orders(order, st.attachments.Keys) && FastApplies(cfg, order, st.attachments)
    ensures FastTells(st, cfg, book)
  {
    hide Kept, Promised, Converged, Settled, InSync;
    if cfg[0].revision in book {
      FastConvergedIff(st, cfg, order, book);
    }
  }

  // ---- One tick ----

  /** One tick. The fast path writes nothing; everything else is a full reconcile. */
  method Reconcile(server: Server, config: Option<Config>, ghost book: Book) returns (r: Outcome)
    requires Kept(server.State(), book)
    requires config.Some? ==> Promised(config.value) && Registered(config.value, book)
    modifies server
    ensures Kept(server.State(), book)
    ensures Extends(old(server.log), server.log) && LogKept(server.log, |old(server.log)|, book)
    ensures NetworksOnce(server.log, |old(server.log)|) && DeletesOnce(server.log, |old(server.log)|)
    ensures r.Copied? ==> server.State() == old(server.State()) && Quiet(server.log, |old(server.log)|)
    ensures r.Copied? && config.Some? ==> Mirrors(config.value, r.phases, server.attachments)
    ensures r.Copied? && config.Some? ==> FastTells(server.State(), config.value, book)
    ensures config.Some? && AlwaysFast(config.value, old(server.attachments)) ==>
              Quiet(server.log, |old(server.log)|) && server.State() == old(server.State())
    ensures r.Reconciled? ==>
              && config.Some? && |r.phases| == |config.value|
              && Truthful(server.State(), config.value, r.phases)
              && (AllPhasesReady(r.phases) ==> Converged(server.State(), config.value))
              && AllResolve(config.value, old(server.State()), server.log, |old(server.log)|, server.State(), r.phases)
    ensures config.Some? && WellFormed(config.value) && Answered(server.log, |old(server.log)|) ==> !r.Failed?
    ensures config.Some? && Converged(old(server.State()), config.value) ==>
              Quiet(server.log, |old(server.log)|) && server.State() == old(server.State())
    ensures (&& config.Some? && WellFormed(config.value) && Buildable(config.value)
             && Smooth(server.log, |old(server.log)|)
             && NetworksReady(old(server.networks)) && AttachmentsReady(old(server.attachments))) ==>
              r.Copied? || (r.Reconciled? && AllPhasesReady(r.phases))
  {
    hide Kept, Registered, LogKept, NetworksOnce, DeletesOnce, Truthful, Converged, Mirrors, FastApplies,
         Smooth, Buildable, NetworksReady, AttachmentsReady, FastTells, AlwaysFast, Answered, AllResolve;
    ghost var log0, st0 := server.log, server.State();
    NothingLogged(log0, book);
    if config.None? {
      return Copied([]);
    }
    var cfg := config.value;
    var fast, order := FastPath(server, cfg);
    ghost var log1 := server.log;
    QuietKept(log0, log1, st0, book);
    SmoothAnswered(log1, |log0|);
    if fast.FastError? {
      return Outcome.Failed;
    }
    if fast.Fast? {
      FastSettles(st0, cfg, order, book);
      return Copied(fast.phases);
    }
    var ok := BuildStatus(cfg);
    if !ok {
      return Outcome.Failed;
    }
    ConvergedIsFast(st0, cfg, order, book);
    SomeOrderSlow(cfg, order, st0.attachments);
    r := FullReconcile(server, cfg, book);
    JoinLogs(log0, log1, server.log, book);
    OnceLate(log0, log1, server.log);
    OnceMiddle(log1, server.log, server.log, |log0|);
    QuietJoin(log0, log1, server.log);
    if r.Reconciled? {
      ResolveEarlier(cfg, st0, server.log, |log1|, |log0|, server.State(), r.phases);
    }
  }

  lemma ResolveEarlier(cfg: Config, st0: ServerState, log: seq<Event>, from: nat, from': nat, st: ServerState,
                       phases: seq<Phase>)
    requires from' <= from && AllResolve(cfg, st0, log, from, st, phases)
    ensures AllResolve(cfg, st0, log, from', st, phases)
  {
    hide EntryResolves;
    forall j | 0 <= j < |cfg| ensures EntryResolves(st0, log, from', st, cfg[j], phases[j]) {
      EntryEarlier(st0, log, from, from', st, cfg[j], phases[j]);
    }
  }

  lemma EntryEarlier(st0: ServerState, log: seq<Event>, from: nat, from': nat, st: ServerState, want: Desired,
                     phase: Phase)
    requires from' <= from && EntryResolves(st0, log, from, st, want, phase)
    ensures EntryResolves(st0, log, from', st, want, phase)
  {
    hide NetResolves, Resolves;
    if want.vni != 0 {
      var p :| && NetResolves(st0.networks, log, from, st.networks, want, p)
               && (if p != Ready then phase == p
                   else Resolves(st0.attachments, log, from, st.attachments, want, phase));
      NetResolvesLater(st0.networks, log, log, from, from', st.networks, want, p);
      if p == Ready {
        ResolvesLater(st0.attachments, log, log, from, from', st.attachments, want, phase);
      }
    }
  }

  lemma NothingLogged(log: seq<Event>, book: Book)
    ensures LogKept(log, |log|, book) && NetworksOnce(log, |log|) && DeletesOnce(log, |log|) && Quiet(log, |log|)
  {
  }

  lemma QuietKept(log: seq<Event>, log': seq<Event>, st: ServerState, book: Book)
    requires Extends(log, log') && Quiet(log', |log|) && Kept(st, book)
    requires forall k | |log| <= k < |log'| :: log'[k].after == st
    ensures LogKept(log', |log|, book) && NetworksOnce(log', |log|) && DeletesOnce(log', |log|)
    ensures forall k | |log| <= k < |log'| :: !AttachmentDelete(log'[k])
  {
    hide Kept;
  }

  lemma QuietJoin(log0: seq<Event>, log1: seq<Event>, log2: seq<Event>)
    requires Extends(log0, log1) && Extends(log1, log2)
    ensures Quiet(log1, |log0|) && Quiet(log2, |log1|) ==> Quiet(log2, |log0|)
  {
    assert forall k | 0 <= k < |log1| :: log2[k] == log1[k];
  }

  lemma OnceLate(log0: seq<Event>, log1: seq<Event>, log2: seq<Event>)
    requires Extends(log0, log1) && Extends(log1, log2) && NetworksOnce(log2, |log1|) && Quiet(log1, |log0|)
    ensures NetworksOnce(log2, |log0|)
  {
    assert forall k | 0 <= k < |log1| :: log2[k] == log1[k];
  }

  // ---- A converged server is left alone ----

  /** Every attachment of a converged server serves one attached entry. */
  lemma ConvergedOwner(st: ServerState, cfg: Config, id: string, book: Book) returns (j: nat)
    requires Kept(st, book) && Converged(st, cfg) && id in st.attachments
    ensures j < |cfg| && cfg[j].vni != 0 && SamePair(st.attachments[id].spec, cfg[j])
            && ServedBy(st.attachments, id, cfg[j])
  {
    hide Kept, VnetId, Lower, AllWanted, Agrees;
    assert InConfig(st.attachments[id].spec, cfg);
    j :| 0 <= j < |cfg| && SamePair(st.attachments[id].spec, cfg[j]);
    NoneOnZero(st, book, id);
    assert TruthfulEntry(st, cfg[j]);
    var k :| k in st.attachments && ServedBy(st.attachments, k, cfg[j]);
    assert OnNic(st.attachments[id], cfg[j]);
  }

  lemma PairIff(a: Attachment, d: Desired)
    requires d.vni < VNI_LIMIT
    ensures ServerPair(a) == WantPair(d) <==> SamePair(a.spec, d)
  {
  }

  lemma PairsDistinct(order: seq<string>, items: map<string, Attachment>)
    requires Orders(order, items.Keys) && Listed(order, items) && OnePerPair(items)
    ensures var ps := ServerPairs(order, items); forall i, j | 0 <= i < j < |ps| :: ps[i] != ps[j]
  {
    var ps := ServerPairs(order, items);
    forall i, j | 0 <= i < j < |ps| ensures ps[i] != ps[j] {
      assert order[i] != order[j];
    }
  }

  /** A converged server has every wanted pair. */
  lemma WantedIsListed(st: ServerState, cfg: Config, order: seq<string>, p: Pair)
    requires WellFormed(cfg) && Converged(st, cfg) && Orders(order, st.attachments.Keys)
             && Listed(order, st.attachments)
    ensures Wants(cfg, p) ==> p in ServerPairs(order, st.attachments)
  {
    hide ServerPair, WantPair, SamePair, Agrees, OnNic, Promised, AllInConfig, AllWanted, VnetId;
    if Wants(cfg, p) {
      var i :| 0 <= i < |cfg| && cfg[i].vni != 0 && WantPair(cfg[i]) == p;
      assert TruthfulEntry(st, cfg[i]);
      var id :| id in st.attachments && ServedBy(st.attachments, id, cfg[i]);
      AgreesSamePair(st.attachments[id].spec, cfg[i]);
      PairIff(st.attachments[id], cfg[i]);
      var k :| 0 <= k < |order| && order[k] == id;
      assert ServerPairs(order, st.attachments)[k] == p;
    }
  }

  /** A converged server has no other pair. */
  lemma ListedIsWanted(st: ServerState, cfg: Config, order: seq<string>, book: Book, p: Pair)
    requires WellFormed(cfg) && Kept(st, book) && Converged(st, cfg) && Orders(order, st.attachments.Keys)
             && Listed(order, st.attachments)
    ensures p in ServerPairs(order, st.attachments) ==> Wants(cfg, p)
  {
    hide ServerPair, WantPair, SamePair, Kept, Converged, ServedBy, Promised;
    var ps := ServerPairs(order, st.attachments);
    if p in ps {
      var k :| 0 <= k < |ps| && ps[k] == p;
      var j := ConvergedOwner(st, cfg, order[k], book);
      PairIff(st.attachments[order[k]], cfg[j]);
      assert WantPair(cfg[j]) == p;
    }
  }

  lemma AgreesSamePair(s: Spec, d: Desired)
    ensures Agrees(s, d) ==> SamePair(s, d)
  {
  }

  lemma ConvergedInSync(st: ServerState, cfg: Config, order: seq<string>, book: Book)
    requires WellFormed(cfg) && Kept(st, book) && Converged(st, cfg) && Orders(order, st.attachments.Keys)
             && Listed(order, st.attachments)
    ensures InSync(cfg, order, st.attachments)
  {
    hide ServerPair, SamePair, Agrees, OnNic, Converged, Wants, SameNic;
    var ps := ServerPairs(order, st.attachments);
    PairsDistinct(order, st.attachments);
    forall p ensures Wants(cfg, p) <==> p in ps {
      WantedIsListed(st, cfg, order, p);
      ListedIsWanted(st, cfg, order, book, p);
    }
    SamePairsSameBags(cfg, ps);
    forall k | 0 <= k < |order| ensures st.attachments[order[k]].state.Some? {
      var j := ConvergedOwner(st, cfg, order[k], book);
    }
  }

  lemma NoWantedNetwork(nets: map<string, Network>, cfg: Config)
    requires AllWanted(nets, cfg) && forall j | 0 <= j < |cfg| :: cfg[j].vni == 0
    ensures nets == map[]
  {
  }

  lemma NothingToAttach(st: ServerState, cfg: Config, book: Book)
    requires Kept(st, book) && Converged(st, cfg) && forall j | 0 <= j < |cfg| :: cfg[j].vni == 0
    ensures st.networks == map[] && st.attachments == map[]
  {
    NoWantedNetwork(st.networks, cfg);
    hide Kept, SamePair, ServedBy, Converged;
    if id :| id in st.attachments {
      var k := ConvergedOwner(st, cfg, id, book);
    }
  }

  /** On a converged server the fast path applies, unless there is nothing to attach and nothing to list. */
  lemma ConvergedIsFast(st: ServerState, cfg: Config, order: seq<string>, book: Book)
    requires WellFormed(cfg) && Kept(st, book) && (cfg != [] ==> Orders(order, st.attachments.Keys))
    ensures Converged(st, cfg) ==>
              || (cfg != [] && FastApplies(cfg, order, st.attachments))
              || (st.networks == map[] && st.attachments == map[] && forall j | 0 <= j < |cfg| :: cfg[j].vni == 0)
  {
    if Converged(st, cfg) {
      if j :| 0 <= j < |cfg| && cfg[j].vni != 0 {
        ConvergedFirst(st, cfg, order, book, j);
      } else {
        NothingToAttach(st, cfg, book);
      }
    }
  }

  lemma ConvergedFirst(st: ServerState, cfg: Config, order: seq<string>, book: Book, j: nat)
    requires WellFormed(cfg) && Kept(st, book) && Converged(st, cfg) && Orders(order, st.attachments.Keys)
    requires j < |cfg| && cfg[j].vni != 0
    ensures FastApplies(cfg, order, st.attachments)
  {
    hide InSync, Kept, SamePair, Agrees, OnNic, Converged;
    assert forall k | 0 <= k < |order| :: order[k] in st.attachments;
    ConvergedInSync(st, cfg, order, book);
    var id := ConvergedHas(st, cfg, j);
    assert id in order;
    var k := ConvergedOwner(st, cfg, order[0], book);
  }

  lemma ConvergedHas(st: ServerState, cfg: Config, j: nat) returns (id: string)
    requires Converged(st, cfg) && j < |cfg| && cfg[j].vni != 0
    ensures id in st.attachments
  {
    hide ServedBy, AllInConfig, AllWanted;
    assert TruthfulEntry(st, cfg[j]);
    id :| id in st.attachments && ServedBy(st.attachments, id, cfg[j]);
  }
}
