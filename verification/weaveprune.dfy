/** Last phase of a reconcile: remove the networks the configuration no longer uses. */
module WeavePrune {
  import opened WeaveTypes
  import opened WeaveServer
  import opened WeaveSteps
  import opened WeaveNetworks

  /** Every attachment on the server is one the configuration asks for. */
  predicate AllInConfig(atts: map<string, Attachment>, cfg: Config) {
    forall id | id in atts :: InConfig(atts[id].spec, cfg)
  }

  predicate Wanted(n: Network, cfg: Config) {
    n.vni != 0 && VniInConfig(n.vni, cfg)
  }

  predicate AllWanted(nets: map<string, Network>, cfg: Config) {
    forall id | id in nets :: Wanted(nets[id], cfg)
  }

  /** Only unwanted networks may be missing. */
  predicate WantedRemain(items: map<string, Network>, nets: map<string, Network>, cfg: Config) {
    && (forall id | id in nets :: id in items && nets[id] == items[id])
    && (forall id | id in items && Wanted(items[id], cfg) :: id in nets)
  }

  /** Calls this phase makes. */
  ghost predicate OnlyPruneCalls(log: seq<Event>, from: nat) {
    forall k | from <= k < |log| :: log[k].call.ListNetworks? || log[k].call.DeleteNetwork?
  }

  /** A network outside the configuration has no attachments once the attachments are reconciled. */
  lemma UnwantedIsEmpty(st: ServerState, cfg: Config, id: string, book: Book)
    requires Kept(st, book) && AllInConfig(st.attachments, cfg) && id in st.networks && !Wanted(st.networks[id], cfg)
    ensures forall a | a in st.attachments :: st.attachments[a].spec.vnet != id
  {
    forall a | a in st.attachments ensures st.attachments[a].spec.vnet != id {
      assert InConfig(st.attachments[a].spec, cfg);
      var j :| 0 <= j < |cfg| && SamePair(st.attachments[a].spec, cfg[j]);
      if st.attachments[a].spec.vnet == id {
        VnetIdInjective(cfg[j].vni, st.networks[id].vni);
      }
    }
  }

  /** Every call logged from `from` on left the attachments alone and removed only unwanted networks. */
  ghost predicate LogPrunes(log: seq<Event>, from: nat, st: ServerState, cfg: Config) {
    forall k | from <= k < |log| ::
      log[k].after.attachments == st.attachments && WantedRemain(st.networks, log[k].after.networks, cfg)
  }

  lemma LogPrunesStep(log: seq<Event>, log': seq<Event>, from: nat, st: ServerState, cfg: Config)
    requires LogPrunes(log, from, st, cfg) && |log'| == |log| + 1 && log'[..|log|] == log
    requires log'[|log|].after.attachments == st.attachments
    requires WantedRemain(st.networks, log'[|log|].after.networks, cfg)
    ensures LogPrunes(log', from, st, cfg)
  {
    hide WantedRemain;
    assert forall k | from <= k < |log| :: log'[k] == log[k];
  }

  /** What the pass keeps, whatever the networks are called. */
  ghost predicate Pruning(st: ServerState, log: seq<Event>, from: nat, st0: ServerState, cfg: Config) {
    && st.attachments == st0.attachments && WantedRemain(st0.networks, st.networks, cfg)
    && from <= |log| && OnlyPruneCalls(log, from) && LogPrunes(log, from, st0, cfg)
  }

  /** One unwanted network; an object without an id cannot be deleted and is passed over. */
  method PruneOne(server: Server, cfg: Config, id: string, ghost from: nat, ghost st0: ServerState)
    returns (ok: bool)
    requires Pruning(server.State(), server.log, from, st0, cfg)
    requires id in st0.networks && !Wanted(st0.networks[id], cfg)
    modifies server`networks, server`log
    ensures Pruning(server.State(), server.log, from, st0, cfg) && Extends(old(server.log), server.log)
    ensures server.networks == old(server.networks) || server.networks == old(server.networks) - {id}
    ensures id == "" ==> server.networks == old(server.networks)
    ensures ok && id != "" ==> id !in server.networks
    ensures Answered(server.log, from) ==> ok
  {
    hide Wanted, LogPrunes;
    if id == "" {
      return true;
    }
    ghost var log := server.log;
    var r := server.DeleteNetwork(id);
    LogPrunesStep(log, server.log, from, st0, cfg);
    assert server.log[|log|].reply == r;
    ok := r.Done?;
  }

  /** Of the first `n` listed networks, exactly those are left that are wanted or cannot be deleted. */
  predicate PrunedUpTo(order: seq<string>, n: nat, items: map<string, Network>, nets: map<string, Network>, cfg: Config)
    requires n <= |order|
  {
    forall j | 0 <= j < n && order[j] in items :: order[j] in nets <==> order[j] == "" || Wanted(items[order[j]], cfg)
  }

  lemma PrunedStep(order: seq<string>, i: nat, items: map<string, Network>, nets: map<string, Network>,
                   nets': map<string, Network>, cfg: Config)
    requires i < |order| && Orders(order, items.Keys) && PrunedUpTo(order, i, items, nets, cfg)
    requires nets' == nets || nets' == nets - {order[i]}
    requires order[i] in nets' <==> order[i] == "" || Wanted(items[order[i]], cfg)
    ensures PrunedUpTo(order, i + 1, items, nets', cfg)
  {
    hide Wanted;
  }

  /** Nothing listed later has been touched. */
  predicate LaterKept(order: seq<string>, n: nat, nets: map<string, Network>) {
    forall j | n <= j < |order| :: order[j] in nets
  }

  method PrunePass(server: Server, cfg: Config, order: seq<string>, items: map<string, Network>, ghost from: nat)
    returns (ok: bool)
    requires server.networks == items && Orders(order, items.Keys)
    requires Pruning(server.State(), server.log, from, server.State(), cfg)
    modifies server`networks, server`log
    ensures Pruning(server.State(), server.log, from, old(server.State()), cfg) && Extends(old(server.log), server.log)
    ensures ok ==> PrunedUpTo(order, |order|, items, server.networks, cfg)
    ensures Answered(server.log, from) ==> ok
    ensures AllWanted(items, cfg) ==> server.log == old(server.log) && server.networks == old(server.networks)
  {
    ghost var st0 := server.State();
    assert forall j | 0 <= j < |order| :: order[j] in items;
    assert LaterKept(order, 0, server.networks);
    hide Wanted, Pruning, Answered;
    ok := true;
    for i := 0 to |order|
      invariant Pruning(server.State(), server.log, from, st0, cfg) && Extends(old(server.log), server.log)
      invariant PrunedUpTo(order, i, items, server.networks, cfg) && LaterKept(order, i, server.networks)
      invariant AllWanted(items, cfg) ==> server.log == old(server.log) && server.networks == old(server.networks)
    {
      ghost var nets := server.networks;
      if Wanted(items[order[i]], cfg) {
        PrunedStep(order, i, items, nets, nets, cfg);
        continue;
      }
      ok := PruneOne(server, cfg, order[i], from, st0);
      if !ok {
        return;
      }
      PrunedStep(order, i, items, nets, server.networks, cfg);
    }
  }

  /** What is left when every unwanted network is gone that has an id to delete it by. */
  function Pruned(nets: map<string, Network>, cfg: Config): (nets': map<string, Network>) {
    map id | id in nets && (id == "" || Wanted(nets[id], cfg)) :: nets[id]
  }

  /** Whatever the networks are called, pruning keeps every reference intact exactly when every network that
      carries an attachment is wanted or has no id. */
  lemma PruneKeepsIff(st: ServerState, cfg: Config)
    requires RefIntact(st)
    ensures RefIntact(ServerState(Pruned(st.networks, cfg), st.attachments)) <==>
            forall a | a in st.attachments ::
              var id := st.attachments[a].spec.vnet; id == "" || Wanted(st.networks[id], cfg)
  {
    hide Wanted;
  }

  /** Phase three, on any server: a pass that succeeds leaves exactly the pruned networks, and every call on the
      way removed only unwanted ones. */
  method DeleteStaleNetworks(server: Server, cfg: Config) returns (ok: bool)
    modifies server`networks, server`log
    ensures Extends(old(server.log), server.log) && OnlyPruneCalls(server.log, |old(server.log)|)
    ensures LogPrunes(server.log, |old(server.log)|, old(server.State()), cfg)
    ensures WantedRemain(old(server.networks), server.networks, cfg)
    ensures ok ==> server.networks == Pruned(old(server.networks), cfg)
    ensures Answered(server.log, |old(server.log)|) ==> ok
    ensures AllWanted(old(server.networks), cfg) ==>
              && server.networks == old(server.networks)
              && |server.log| == |old(server.log)| + 1 && server.log[|old(server.log)|].call.ListNetworks?
  {
    ghost var log0, st0 := server.log, server.State();
    var order, items;
    ok, order, items := server.ListNetworks();
    assert Pruning(server.State(), server.log, |log0|, st0, cfg);
    hide Wanted, LogPrunes;
    if !ok {
      assert server.log[|log0|].reply.Failed?;
      return;
    }
    ok := PrunePass(server, cfg, order, items, |log0|);
    if ok {
      PrunedIs(order, items, server.networks, cfg);
    }
  }

  lemma PrunedIs(order: seq<string>, items: map<string, Network>, nets: map<string, Network>, cfg: Config)
    requires Orders(order, items.Keys) && PrunedUpTo(order, |order|, items, nets, cfg) && WantedRemain(items, nets, cfg)
    ensures nets == Pruned(items, cfg)
  {
    hide Wanted;
    forall id | id in items ensures id in nets <==> id == "" || Wanted(items[id], cfg) {
      assert id in order;
      var j :| 0 <= j < |order| && order[j] == id;
    }
  }

  /** On a server with the agent's names whose attachments are all configured, pruning keeps the invariant. */
  lemma PruningKeeps(st: ServerState, st': ServerState, cfg: Config, book: Book)
    requires Kept(st, book) && AllInConfig(st.attachments, cfg)
    requires st'.attachments == st.attachments && WantedRemain(st.networks, st'.networks, cfg)
    ensures Kept(st', book)
  {
    hide Wanted, VnetId, SameNic, AgreesWithSome;
    forall a | a in st'.attachments ensures st'.attachments[a].spec.vnet in st'.networks {
      var id := st.attachments[a].spec.vnet;
      if !Wanted(st.networks[id], cfg) {
        UnwantedIsEmpty(st, cfg, id, book);
      }
    }
  }

  /** Phase three as the reconcile runs it. */
  method PrunePhase(server: Server, cfg: Config, ghost book: Book) returns (ok: bool)
    requires Kept(server.State(), book) && AllInConfig(server.attachments, cfg)
    modifies server`networks, server`log
    ensures Kept(server.State(), book) && LogKept(server.log, |old(server.log)|, book)
    ensures Extends(old(server.log), server.log) && OnlyPruneCalls(server.log, |old(server.log)|)
    ensures WantedRemain(old(server.networks), server.networks, cfg)
    ensures ok ==> AllWanted(server.networks, cfg)
    ensures Answered(server.log, |old(server.log)|) ==> ok
    ensures AllWanted(old(server.networks), cfg) ==>
              && server.networks == old(server.networks)
              && |server.log| == |old(server.log)| + 1 && server.log[|old(server.log)|].call.ListNetworks?
  {
    ghost var st := server.State();
    NamedNotEmpty(st, book);
    hide Kept, AllInConfig, Wanted, WantedRemain, Answered, OnlyPruneCalls;
    ok := DeleteStaleNetworks(server, cfg);
    PruningKeeps(st, server.State(), cfg, book);
    forall k | |old(server.log)| <= k < |server.log| ensures Kept(server.log[k].after, book) {
      PruningKeeps(st, server.log[k].after, cfg, book);
    }
  }

  lemma NamedNotEmpty(st: ServerState, book: Book)
    requires Kept(st, book)
    ensures "" !in st.networks
  {
  }
}
