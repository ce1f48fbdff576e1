/** First phase of a reconcile: create or stamp the networks the configuration needs. */
module WeaveNetworks {
  import opened Options
  import opened WeaveTypes
  import opened WeaveServer
  import opened WeaveSteps

  /** What the agent remembers of a network it has seen: id and phase. */
  datatype Seen = Seen(id: string, phase: Phase)

  type SeenMap = map<nat, Seen>

  /** The first answer for each VNI, reused by later entries that share it. */
  type Cache = map<nat, Phase>

  /** The phase an entry gets when its network already exists. */
  function MatchedPhase(s: Seen, want: Desired, update: Phase, phase: Phase): (p: Phase) {
    if s.phase != Ready then s.phase
    else if s.id != VnetId(want.vni) then Error
    else if update != Ready then update
    else phase
  }

  // ---- Invariants of the pass ----

  /** What was seen under a VNI is a network with that VNI. */
  predicate SeenReal(seen: SeenMap, nets: map<string, Network>) {
    forall v | v in seen :: seen[v].id in nets && nets[seen[v].id].vni == v
  }

  /** A cached Ready means the network seen under the VNI carries the revision. */
  predicate CacheTrue(seen: SeenMap, cache: Cache, nets: map<string, Network>, revision: string) {
    forall v | v in cache ::
      && v in seen
      && (cache[v] == Ready ==> seen[v].id in nets && nets[seen[v].id].revision == Some(revision))
  }

  predicate AllReady(seen: SeenMap, cache: Cache) {
    (forall v | v in seen :: seen[v].phase == Ready) && (forall v | v in cache :: cache[v] == Ready)
  }

  /** Networks written to are remembered in the cache, under their VNI. */
  ghost predicate WritesCached(log: seq<Event>, from: nat, cache: Cache, nets: map<string, Network>) {
    forall k | from <= k < |log| && NetworkWrite(log[k]) :: CachedId(cache, nets, log[k].call.id)
  }

  predicate CachedId(cache: Cache, nets: map<string, Network>, id: string) {
    id in nets && nets[id].vni in cache
  }

  /** No network disappeared or changed its VNI. */
  predicate SameVnis(nets: map<string, Network>, nets': map<string, Network>) {
    forall id | id in nets :: id in nets' && nets'[id].vni == nets[id].vni
  }

  /** A VNI that is not cached has not been written, so one more write keeps the written ids distinct. */
  lemma WriteOnce(log: seq<Event>, log': seq<Event>, from: nat, cache: Cache, cache': Cache, vni: nat,
                  nets: map<string, Network>, nets': map<string, Network>)
    requires NetworksOnce(log, from) && WritesCached(log, from, cache, nets) && vni !in cache && SameVnis(nets, nets')
    requires |log'| == |log| + 1 && log'[..|log|] == log
    requires NetworkWrite(log'[|log|]) ==>
               var id := log'[|log|].call.id; id in nets' && nets'[id].vni == vni && vni in cache'
    requires forall v | v in cache :: v in cache'
    ensures NetworksOnce(log', from) && WritesCached(log', from, cache', nets')
  {
    forall k | from <= k < |log| && NetworkWrite(log'[k])
      ensures CachedId(cache', nets', log'[k].call.id) && nets'[log'[k].call.id].vni != vni
    {
      assert log'[k] == log[k];
      assert CachedId(cache, nets, log[k].call.id);
    }
    forall j, k | from <= j < k < |log'| && NetworkWrite(log'[j]) && NetworkWrite(log'[k])
      ensures log'[j].call.id != log'[k].call.id
    {
      assert log'[j] == log[j] && (k < |log| ==> log'[k] == log[k]);
    }
  }

  // ---- One entry ----

  /** The network exists: report its phase and stamp it, once per VNI. One that arrived without metadata is not
      stamped. */
  method ProcessMatchingNetwork(server: Server, want: Desired, phase: Phase, s: Seen, cache: Cache)
    returns (phase': Phase, cache': Cache)
    modifies server`networks, server`log
    ensures s.id == "" ==> phase' == (if s.phase != Ready then s.phase else Error)
    ensures s.id == "" || want.vni in cache ==>
              cache' == cache && server.log == old(server.log) && server.networks == old(server.networks)
    ensures s.id != "" ==>
              && want.vni in cache' && cache' == cache[want.vni := cache'[want.vni]]
              && phase' == MatchedPhase(s, want, cache'[want.vni], phase)
    ensures s.id != "" && want.vni !in cache ==>
              && |server.log| == |old(server.log)| + 1 && server.log[..|old(server.log)|] == old(server.log)
              && var e := server.log[|old(server.log)|];
              && e.call == UpdateNetwork(s.id) && e.after == server.State()
              && cache'[want.vni] == PhaseOf(e.reply)
              && (server.networks == old(server.networks)
                  || NetworkStamped(old(server.networks), server.networks, s.id, want.revision))
              && (e.reply.Done? ==>
                    && NetworkStamped(old(server.networks), server.networks, s.id, want.revision)
                    && server.networks[s.id].state == e.reply.state)
  {
    var isReady, matches := s.phase == Ready, s.id == VnetId(want.vni);
    phase', cache' := phase, cache;
    if !isReady {
      phase' := s.phase;
    } else if !matches {
      phase' := Error;
    }
    if s.id == "" {
      return;
    }
    if want.vni !in cache {
      var r := server.UpdateNetwork(s.id, want.revision);
      cache' := cache[want.vni := PhaseOf(r)];
    }
    if isReady && matches && cache'[want.vni] != Ready {
      phase' := cache'[want.vni];
    }
  }

  /** The network is missing: create it and remember the answer. */
  method CreateMissing(server: Server, want: Desired, phase: Phase, seen: SeenMap, cache: Cache)
    returns (phase': Phase, seen': SeenMap, cache': Cache)
    modifies server`networks, server`log
    ensures |server.log| == |old(server.log)| + 1 && server.log[..|old(server.log)|] == old(server.log)
    ensures var e, id := server.log[|old(server.log)|], VnetId(want.vni);
            var added :=
              NetworkAdded(old(server.networks), server.networks, id, want.vni, want.subnet, want.revision);
            && e.call == CreateNetwork(id) && e.after == server.State()
            && phase' == (if PhaseOf(e.reply) == Ready then phase else PhaseOf(e.reply))
            && (server.networks == old(server.networks) || added)
            && (e.reply.Failed? ==> seen' == seen && cache' == cache)
            && (e.reply.Done? ==>
                  && added && server.networks[id].state == e.reply.state
                  && seen' == seen[want.vni := Seen(id, PhaseOf(e.reply))]
                  && cache' == cache[want.vni := PhaseOf(e.reply)])
  {
    var r := server.CreateNetwork(VnetId(want.vni), want.vni, want.subnet, want.revision);
    phase', seen', cache' := phase, seen, cache;
    if r.Done? {
      seen' := seen[want.vni := Seen(VnetId(want.vni), PhaseOf(r))];
      cache' := cache[want.vni := PhaseOf(r)];
    }
    if PhaseOf(r) != Ready {
      phase' := PhaseOf(r);
    }
  }

  /** Everything the pass over the entries keeps. */
  ghost predicate PassInv(st: ServerState, log: seq<Event>, from: nat, seen: SeenMap, cache: Cache,
                          revision: string, book: Book, named: bool) {
    && Stays(st, book, named) && LogStays(log, from, book, named)
    && SeenReal(seen, st.networks) && CacheTrue(seen, cache, st.networks, revision)
    && NetworksOnce(log, from) && WritesCached(log, from, cache, st.networks)
  }

  lemma StampPass(st: ServerState, log: seq<Event>, from: nat, seen: SeenMap, cache: Cache,
                  st': ServerState, log': seq<Event>, cache': Cache, want: Desired, book: Book, named: bool)
    requires PassInv(st, log, from, seen, cache, want.revision, book, named)
    requires want.vni in seen && want.vni !in cache && |log'| == |log| + 1 && log'[..|log|] == log
    requires st'.attachments == st.attachments
    requires var e, id := log'[|log|], seen[want.vni].id;
             && e.call == UpdateNetwork(id) && e.after == st'
             && cache' == cache[want.vni := PhaseOf(e.reply)]
             && (st'.networks == st.networks || NetworkStamped(st.networks, st'.networks, id, want.revision))
             && (e.reply.Done? ==> NetworkStamped(st.networks, st'.networks, id, want.revision))
    ensures PassInv(st', log', from, seen, cache', want.revision, book, named)
  {
    var id := seen[want.vni].id;
    if st'.networks == st.networks {
      assert st' == st;
    } else {
      StampNetworkStays(st, st'.networks, id, want.revision, book, named);
      assert st' == ServerState(st'.networks, st.attachments);
    }
    hide Stays, NetworksOnce, WritesCached, LogStays;
    LogStaysStep(log, log', from, book, named);
    WriteOnce(log, log', from, cache, cache', want.vni, st.networks, st'.networks);
  }

  lemma CreatePass(st: ServerState, log: seq<Event>, from: nat, seen: SeenMap, cache: Cache,
                   st': ServerState, log': seq<Event>, seen': SeenMap, cache': Cache, want: Desired,
                   book: Book, named: bool)
    requires PassInv(st, log, from, seen, cache, want.revision, book, named)
    requires want.vni >= 1 && want.vni !in seen && |log'| == |log| + 1 && log'[..|log|] == log
    requires st'.attachments == st.attachments
    requires var e, id := log'[|log|], VnetId(want.vni);
             && e.call == CreateNetwork(id) && e.after == st'
             && (st'.networks == st.networks
                 || NetworkAdded(st.networks, st'.networks, id, want.vni, want.subnet, want.revision))
             && (e.reply.Failed? ==> seen' == seen && cache' == cache)
             && (e.reply.Done? ==>
                   && NetworkAdded(st.networks, st'.networks, id, want.vni, want.subnet, want.revision)
                   && seen' == seen[want.vni := Seen(id, PhaseOf(e.reply))]
                   && cache' == cache[want.vni := PhaseOf(e.reply)])
    ensures PassInv(st', log', from, seen', cache', want.revision, book, named)
  {
    if st'.networks == st.networks {
      assert st' == st;
    } else {
      AddNetworkStays(st, st'.networks, want.vni, want.subnet, want.revision, book, named);
      assert st' == ServerState(st'.networks, st.attachments);
    }
    hide Stays, NetworksOnce, WritesCached, LogStays, VnetId;
    LogStaysStep(log, log', from, book, named);
    WriteOnce(log, log', from, cache, cache', want.vni, st.networks, st'.networks);
  }

  /** Calls this phase makes. */
  ghost predicate OnlyNetworkCalls(log: seq<Event>, from: nat) {
    forall k | from <= k < |log| ::
      log[k].call.ListNetworks? || log[k].call.CreateNetwork? || log[k].call.UpdateNetwork?
  }

  /** `log'` continues `log`. */
  ghost predicate Extends(log: seq<Event>, log': seq<Event>) {
    |log| <= |log'| && log'[..|log|] == log
  }

  /** The entry's network was seen under its proper name and its write was answered Ready. */
  predicate Backed(seen: SeenMap, cache: Cache, vni: nat) {
    vni in cache && cache[vni] == Ready && vni in seen && seen[vni].id == VnetId(vni)
  }

  /** Nothing seen or cached is forgotten or changed. */
  predicate Grown(seen: SeenMap, cache: Cache, seen': SeenMap, cache': Cache) {
    && (forall v | v in seen :: v in seen' && seen'[v] == seen[v])
    && (forall v | v in cache :: v in cache' && cache'[v] == cache[v])
  }

  // ---- What can become of one entry's network ----

  /** A create or update for the VNI was not answered. */
  ghost predicate LostNet(log: seq<Event>, from: nat, nets0: map<string, Network>, vni: nat) {
    exists k :: from <= k < |log| && log[k].reply.Failed? && ForNetwork(log[k].call, nets0, vni)
  }

  /** The call creates the VNI's network, or updates a listed one with that VNI. */
  predicate ForNetwork(call: Call, nets0: map<string, Network>, vni: nat) {
    || call == Call.CreateNetwork(VnetId(vni))
    || (call.UpdateNetwork? && call.id in nets0 && nets0[call.id].vni == vni)
  }

  /** The phase to report: that of the listed network unless it is Ready; an error if it has another name; else
      that of the last answer. */
  function NetPhase(nets0: map<string, Network>, nets: map<string, Network>, id: string, vni: nat): (p: Phase)
    requires id in nets
  {
    if id in nets0 && PhaseOr(nets0[id].state) != Ready then PhaseOr(nets0[id].state)
    else if id != VnetId(vni) then Error
    else PhaseOr(nets[id].state)
  }

  predicate NetPlacedBy(nets0: map<string, Network>, nets: map<string, Network>, id: string, want: Desired,
                        phase: Phase) {
    && id in nets && id != "" && nets[id].vni == want.vni && nets[id].revision == Some(want.revision)
    && phase == NetPhase(nets0, nets, id, want.vni)
  }

  /** All that can become of an entry's network: an answer about it was lost, it is listed without metadata, or
      it exists, is stamped, and its phase is reported. */
  ghost predicate NetResolves(nets0: map<string, Network>, log: seq<Event>, from: nat, nets: map<string, Network>,
                             want: Desired, phase: Phase) {
    || (LostNet(log, from, nets0, want.vni) && phase != Ready)
    || ("" in nets0 && nets0[""].vni == want.vni && phase == Error)
    || exists id :: id in nets && NetPlacedBy(nets0, nets, id, want, phase)
  }

  lemma LostNetLater(log: seq<Event>, log': seq<Event>, from: nat, from': nat, nets0: map<string, Network>, vni: nat)
    requires Extends(log, log') && from' <= from && LostNet(log, from, nets0, vni)
    ensures LostNet(log', from', nets0, vni)
  {
    hide ForNetwork;
    var k :| from <= k < |log| && log[k].reply.Failed? && ForNetwork(log[k].call, nets0, vni);
    assert log'[k] == log[k];
  }

  /** What was seen comes from the listing, or was created and answered since. */
  predicate SeenExactly(s: Seen, v: nat, nets0: map<string, Network>, nets: map<string, Network>) {
    && s.id in nets && nets[s.id].vni == v
    && if s.id in nets0 then nets0[s.id].vni == v && s.phase == ListedPhase(s.id, nets0[s.id])
       else s.id == VnetId(v) && s.phase == PhaseOr(nets[s.id].state)
  }

  /** A cached phase is the network's own, and the network is stamped; or the answer was lost. */
  ghost predicate CachedExactly(s: Seen, p: Phase, v: nat, nets0: map<string, Network>, log: seq<Event>, from: nat,
                                nets: map<string, Network>, revision: string) {
    && s.id != ""
    && (|| (LostNet(log, from, nets0, v) && p == Error)
        || (s.id in nets && nets[s.id].revision == Some(revision) && p == PhaseOr(nets[s.id].state)))
  }

  ghost predicate PassExact(nets0: map<string, Network>, log: seq<Event>, from: nat, nets: map<string, Network>,
                            seen: SeenMap, cache: Cache, revision: string) {
    && (forall id | id in nets0 :: id in nets)
    && (forall v | v in seen :: SeenExactly(seen[v], v, nets0, nets) && (seen[v].id !in nets0 ==> v in cache))
    && (forall v | v in cache ::
          v in seen && CachedExactly(seen[v], cache[v], v, nets0, log, from, nets, revision))
  }

  /** What the reported phase says, in terms of what was seen and cached. */
  ghost predicate Told(nets0: map<string, Network>, log: seq<Event>, from: nat, seen: SeenMap, cache: Cache,
                       want: Desired, phase: Phase) {
    || (LostNet(log, from, nets0, want.vni) && phase != Ready)
    || (want.vni in seen && seen[want.vni].id == "" && phase == Error)
    || (&& want.vni in seen && want.vni in cache && seen[want.vni].id != ""
        && phase == MatchedPhase(seen[want.vni], want, cache[want.vni], Ready))
  }

  lemma ToldLater(nets0: map<string, Network>, log: seq<Event>, log': seq<Event>, from: nat, seen: SeenMap,
                  cache: Cache, seen': SeenMap, cache': Cache, want: Desired, phase: Phase)
    requires Told(nets0, log, from, seen, cache, want, phase) && Extends(log, log') && Grown(seen, cache, seen', cache')
    ensures Told(nets0, log', from, seen', cache', want, phase)
  {
    hide LostNet, MatchedPhase;
    if LostNet(log, from, nets0, want.vni) {
      LostNetLater(log, log', from, from, nets0, want.vni);
    }
  }

  /** Together they settle the entry. */
  lemma ToldResolves(nets0: map<string, Network>, log: seq<Event>, from: nat, nets: map<string, Network>, seen: SeenMap,
                    cache: Cache, want: Desired, phase: Phase)
    requires PassExact(nets0, log, from, nets, seen, cache, want.revision)
    requires Told(nets0, log, from, seen, cache, want, phase)
    ensures NetResolves(nets0, log, from, nets, want, phase)
  {
    hide LostNet, VnetId;
    var v := want.vni;
    if v in seen && v in cache && seen[v].id != "" && phase == MatchedPhase(seen[v], want, cache[v], Ready) {
      var s := seen[v];
      assert SeenExactly(s, v, nets0, nets) && CachedExactly(s, cache[v], v, nets0, log, from, nets, want.revision);
      if nets[s.id].revision == Some(want.revision) && cache[v] == PhaseOr(nets[s.id].state) {
        assert NetPlacedBy(nets0, nets, s.id, want, phase);
      }
    } else if v in seen && seen[v].id == "" && phase == Error {
      assert SeenExactly(seen[v], v, nets0, nets);
      EmptyIsListed(seen[v], v, nets0, nets);
    }
  }

  lemma EmptyIsListed(s: Seen, v: nat, nets0: map<string, Network>, nets: map<string, Network>)
    requires SeenExactly(s, v, nets0, nets) && s.id == ""
    ensures "" in nets0 && nets0[""].vni == v
  {
  }

  lemma StampExact(nets0: map<string, Network>, log: seq<Event>, log': seq<Event>, from: nat,
                   nets: map<string, Network>, nets': map<string, Network>, seen: SeenMap, cache: Cache, cache': Cache,
                   want: Desired)
    requires PassExact(nets0, log, from, nets, seen, cache, want.revision) && from <= |log|
    requires want.vni in seen && want.vni !in cache && seen[want.vni].id != "" && |log'| == |log| + 1
             && log'[..|log|] == log
    requires var e, id := log'[|log|], seen[want.vni].id;
             && e.call == Call.UpdateNetwork(id) && cache' == cache[want.vni := PhaseOf(e.reply)]
             && (nets' == nets || NetworkStamped(nets, nets', id, want.revision))
             && (e.reply.Done? ==>
                   NetworkStamped(nets, nets', id, want.revision) && nets'[id].state == e.reply.state)
    ensures PassExact(nets0, log', from, nets', seen, cache', want.revision)
  {
    hide LostNet, VnetId;
    var e, id := log'[|log|], seen[want.vni].id;
    assert SeenExactly(seen[want.vni], want.vni, nets0, nets);
    if e.reply.Failed? {
      LostCall(log, log', from, nets0, want.vni);
    }
    forall v | v in seen ensures SeenExactly(seen[v], v, nets0, nets') && (seen[v].id !in nets0 ==> v in cache') {
      assert SeenExactly(seen[v], v, nets0, nets);
    }
    forall v | v in cache ensures CachedExactly(seen[v], cache[v], v, nets0, log', from, nets', want.revision) {
      assert SeenExactly(seen[v], v, nets0, nets);
      if LostNet(log, from, nets0, v) {
        LostNetLater(log, log', from, from, nets0, v);
      }
    }
  }

  lemma LostCall(log: seq<Event>, log': seq<Event>, from: nat, nets0: map<string, Network>, vni: nat)
    requires from <= |log| && |log'| == |log| + 1 && log'[|log|].reply.Failed?
    requires ForNetwork(log'[|log|].call, nets0, vni)
    ensures LostNet(log', from, nets0, vni)
  {
    hide ForNetwork;
  }

  lemma CreateExact(nets0: map<string, Network>, log: seq<Event>, log': seq<Event>, from: nat,
                    nets: map<string, Network>, nets': map<string, Network>, seen: SeenMap, seen': SeenMap,
                    cache: Cache, cache': Cache, want: Desired)
    requires PassExact(nets0, log, from, nets, seen, cache, want.revision) && from <= |log|
    requires want.vni !in seen && |log'| == |log| + 1 && log'[..|log|] == log && VnetId(want.vni) != ""
    requires var e, id := log'[|log|], VnetId(want.vni);
             && (nets' == nets || NetworkAdded(nets, nets', id, want.vni, want.subnet, want.revision))
             && (e.reply.Failed? ==> seen' == seen && cache' == cache)
             && (e.reply.Done? ==>
                   && NetworkAdded(nets, nets', id, want.vni, want.subnet, want.revision)
                   && nets'[id].state == e.reply.state
                   && seen' == seen[want.vni := Seen(id, PhaseOf(e.reply))]
                   && cache' == cache[want.vni := PhaseOf(e.reply)])
    ensures PassExact(nets0, log', from, nets', seen', cache', want.revision)
  {
    hide LostNet, VnetId;
    forall v | v in seen ensures SeenExactly(seen[v], v, nets0, nets') {
      assert SeenExactly(seen[v], v, nets0, nets);
    }
    forall v | v in cache ensures CachedExactly(seen[v], cache[v], v, nets0, log', from, nets', want.revision) {
      assert SeenExactly(seen[v], v, nets0, nets);
      if LostNet(log, from, nets0, v) {
        LostNetLater(log, log', from, from, nets0, v);
      }
    }
  }

  lemma EmptyIsError(nets0: map<string, Network>, log: seq<Event>, from: nat, nets: map<string, Network>,
                     seen: SeenMap, cache: Cache, want: Desired)
    requires PassExact(nets0, log, from, nets, seen, cache, want.revision)
    ensures want.vni in seen && seen[want.vni].id == "" ==> seen[want.vni].phase == Error
  {
    hide CachedExactly;
    if want.vni in seen && seen[want.vni].id == "" {
      assert SeenExactly(seen[want.vni], want.vni, nets0, nets);
      EmptyIsListed(seen[want.vni], want.vni, nets0, nets);
    }
  }

  lemma PassKnows(st: ServerState, log: seq<Event>, from: nat, seen: SeenMap, cache: Cache, want: Desired,
                  book: Book, named: bool)
    requires PassInv(st, log, from, seen, cache, want.revision, book, named)
    ensures want.vni in cache ==> want.vni in seen
    ensures named && want.vni in seen ==> seen[want.vni].id == VnetId(want.vni)
    ensures VnetId(want.vni) != ""
  {
  }

  /** One entry with a real VNI. */
  method NetworkStep(server: Server, want: Desired, seen: SeenMap, cache: Cache,
                     ghost from: nat, ghost book: Book, ghost named: bool, ghost nets0: map<string, Network>)
    returns (phase: Phase, seen': SeenMap, cache': Cache)
    requires want.vni >= 1 && from <= |server.log|
    requires PassExact(nets0, server.log, from, server.networks, seen, cache, want.revision)
    requires PassInv(server.State(), server.log, from, seen, cache, want.revision, book, named)
    modifies server`networks, server`log
    ensures PassInv(server.State(), server.log, from, seen', cache', want.revision, book, named)
    ensures Extends(old(server.log), server.log) && OnlyNetworkCalls(server.log, |old(server.log)|)
    ensures Grown(seen, cache, seen', cache')
    ensures phase == Ready ==> Backed(seen', cache', want.vni)
    ensures named && AllReady(seen, cache) && Smooth(server.log, |old(server.log)|) ==>
              phase == Ready && AllReady(seen', cache')
    ensures PassExact(nets0, server.log, from, server.networks, seen', cache', want.revision)
    ensures Told(nets0, server.log, from, seen', cache', want, phase)
  {
    hide PassInv, VnetId, NetworkAdded, NetworkStamped, PassExact, LostNet;
    ghost var st, log := server.State(), server.log;
    PassKnows(st, log, from, seen, cache, want, book, named);
    EmptyIsError(nets0, log, from, st.networks, seen, cache, want);
    seen', cache' := seen, cache;
    if want.vni in seen {
      phase, cache' := ProcessMatchingNetwork(server, want, Ready, seen[want.vni], cache);
      if want.vni !in cache && seen[want.vni].id != "" {
        StampPass(st, log, from, seen, cache, server.State(), server.log, cache', want, book, named);
        StampExact(nets0, log, server.log, from, st.networks, server.networks, seen, cache, cache', want);
      }
    } else {
      phase, seen', cache' := CreateMissing(server, want, Ready, seen, cache);
      CreatePass(st, log, from, seen, cache, server.State(), server.log, seen', cache', want, book, named);
      CreateExact(nets0, log, server.log, from, st.networks, server.networks, seen, seen', cache, cache', want);
      if server.log[|log|].reply.Failed? {
        LostCall(log, server.log, from, nets0, want.vni);
      }
    }
  }

  /** The phase of a listed network; one without metadata counts as an error. */
  function ListedPhase(id: string, n: Network): (p: Phase) {
    if id == "" then Error else PhaseOr(n.state)
  }

  /** Index the listing by VNI; of several networks with one VNI the last one listed stays. */
  method IndexByVni(order: seq<string>, items: map<string, Network>) returns (seen: SeenMap)
    requires Orders(order, items.Keys)
    ensures SeenReal(seen, items)
    ensures forall v | v in seen :: seen[v].phase == ListedPhase(seen[v].id, items[seen[v].id])
    ensures forall id | id in items :: items[id].vni in seen
  {
    seen := map[];
    for i := 0 to |order|
      invariant SeenReal(seen, items)
      invariant forall v | v in seen :: seen[v].phase == ListedPhase(seen[v].id, items[seen[v].id])
      invariant forall j | 0 <= j < i :: items[order[j]].vni in seen
    {
      assert order[i] in items;
      var n := items[order[i]];
      seen := seen[n.vni := Seen(order[i], ListedPhase(order[i], n))];
    }
    forall id | id in items ensures items[id].vni in seen {
      assert id in order;
      var j :| 0 <= j < |order| && order[j] == id;
    }
  }

  /** Ready entries are backed. */
  predicate EntriesBacked(cfg: Config, phases: seq<Phase>, n: nat, seen: SeenMap, cache: Cache)
    requires n <= |cfg| == |phases|
  {
    forall j | 0 <= j < n && cfg[j].vni != 0 && phases[j] == Ready :: Backed(seen, cache, cfg[j].vni)
  }

  /** Ready entries with a real VNI have an existing network that carries their revision. */
  predicate NetworksServe(cfg: Config, phases: seq<Phase>, nets: map<string, Network>)
    requires |cfg| == |phases|
  {
    forall j | 0 <= j < |cfg| && cfg[j].vni != 0 && phases[j] == Ready ::
      VnetId(cfg[j].vni) in nets && nets[VnetId(cfg[j].vni)].revision == Some(cfg[j].revision)
  }

  predicate NetworksReady(nets: map<string, Network>) {
    forall id | id in nets :: nets[id].state == Some(Ready)
  }

  lemma BackedStep(cfg: Config, phases: seq<Phase>, i: nat, seen: SeenMap, cache: Cache, phase: Phase,
                   seen': SeenMap, cache': Cache)
    requires i < |cfg| == |phases| && EntriesBacked(cfg, phases, i, seen, cache) && Grown(seen, cache, seen', cache')
    requires cfg[i].vni != 0 && phase == Ready ==> Backed(seen', cache', cfg[i].vni)
    ensures EntriesBacked(cfg, phases[i := phase], i + 1, seen', cache')
  {
    hide VnetId;
  }

  /** The pass over the entries; all start out Ready. */
  method NetworkPass(server: Server, cfg: Config, seen0: SeenMap,
                     ghost from: nat, ghost revision: string, ghost book: Book, ghost named: bool,
                     ghost nets0: map<string, Network>)
    returns (phases: seq<Phase>, seen: SeenMap, cache: Cache)
    requires forall j | 0 <= j < |cfg| :: cfg[j].revision == revision
    requires PassInv(server.State(), server.log, from, seen0, map[], revision, book, named)
    requires from <= |server.log| && PassExact(nets0, server.log, from, server.networks, seen0, map[], revision)
    modifies server`networks, server`log
    ensures |phases| == |cfg| && EntriesBacked(cfg, phases, |cfg|, seen, cache)
    ensures forall j | 0 <= j < |cfg| && cfg[j].vni == 0 :: phases[j] == Ready
    ensures PassInv(server.State(), server.log, from, seen, cache, revision, book, named)
    ensures Extends(old(server.log), server.log) && OnlyNetworkCalls(server.log, |old(server.log)|)
    ensures named && AllReady(seen0, map[]) && Smooth(server.log, |old(server.log)|) ==>
              forall j | 0 <= j < |cfg| :: phases[j] == Ready
    ensures (forall j | 0 <= j < |cfg| :: cfg[j].vni == 0) ==>
              server.log == old(server.log) && server.networks == old(server.networks)
    ensures NetsResolved(cfg, phases, nets0, server.log, from, server.networks)
  {
    hide PassInv, AllReady, Smooth, EntriesBacked, Backed, Grown, PassExact, Told, NetResolves;
    ghost var mark := |server.log|;
    ghost var log0 := server.log;
    phases := seq(|cfg|, _ => Ready);
    cache := map[];
    seen := seen0;
    NothingYet(cfg, phases, seen, cache, server.log);
    for i := 0 to |cfg|
      invariant PassInv(server.State(), server.log, from, seen, cache, revision, book, named)
      invariant Extends(log0, server.log) && OnlyNetworkCalls(server.log, mark)
      invariant |phases| == |cfg| && EntriesBacked(cfg, phases, i, seen, cache)
      invariant forall j | 0 <= j < |cfg| && (i <= j || cfg[j].vni == 0) :: phases[j] == Ready
      invariant named && AllReady(seen0, map[]) && Smooth(server.log, mark) ==>
                  AllReady(seen, cache) && forall j | 0 <= j < i :: phases[j] == Ready
      invariant (forall j | 0 <= j < i :: cfg[j].vni == 0) ==>
                  server.log == log0 && server.networks == old(server.networks)
      invariant from <= |server.log| && PassExact(nets0, server.log, from, server.networks, seen, cache, revision)
      invariant ToldUpTo(cfg, phases, i, nets0, server.log, from, seen, cache)
    {
      ghost var log, cache0, seen1 := server.log, cache, seen;
      if cfg[i].vni == 0 {
        SameGrown(seen, cache);
        BackedStep(cfg, phases, i, seen, cache, Ready, seen, cache);
        assert phases[i := Ready] == phases;
        continue;
      }
      var phase;
      phase, seen, cache := NetworkStep(server, cfg[i], seen, cache, from, book, named, nets0);
      BackedStep(cfg, phases, i, seen1, cache0, phase, seen, cache);
      ToldStep(cfg, phases, i, nets0, log, server.log, from, seen1, cache0, seen, cache, phase);
      phases := phases[i := phase];
      SmoothSplit(log, server.log, mark);
      NetworkCallsSplit(log, server.log, mark);
    }
    ToldAll(cfg, phases, nets0, server.log, from, server.networks, seen, cache, revision);
  }

  ghost predicate ToldUpTo(cfg: Config, phases: seq<Phase>, n: nat, nets0: map<string, Network>, log: seq<Event>,
                           from: nat, seen: SeenMap, cache: Cache)
    requires n <= |cfg| == |phases|
  {
    forall j | 0 <= j < n && cfg[j].vni != 0 :: Told(nets0, log, from, seen, cache, cfg[j], phases[j])
  }

  lemma ToldStep(cfg: Config, phases: seq<Phase>, i: nat, nets0: map<string, Network>, log: seq<Event>,
                 log': seq<Event>, from: nat, seen: SeenMap, cache: Cache, seen': SeenMap, cache': Cache, phase: Phase)
    requires i < |cfg| == |phases| && ToldUpTo(cfg, phases, i, nets0, log, from, seen, cache)
    requires Extends(log, log') && Grown(seen, cache, seen', cache')
    requires Told(nets0, log', from, seen', cache', cfg[i], phase)
    ensures ToldUpTo(cfg, phases[i := phase], i + 1, nets0, log', from, seen', cache')
  {
    hide Told, Grown;
    forall j | 0 <= j < i && cfg[j].vni != 0 ensures Told(nets0, log', from, seen', cache', cfg[j], phases[j]) {
      ToldLater(nets0, log, log', from, seen, cache, seen', cache', cfg[j], phases[j]);
    }
  }

  /** Every attached entry's network has come to one of its possible ends. */
  ghost predicate NetsResolved(cfg: Config, phases: seq<Phase>, nets0: map<string, Network>, log: seq<Event>, from: nat,
                              nets: map<string, Network>)
    requires |cfg| == |phases|
  {
    forall j | 0 <= j < |cfg| && cfg[j].vni != 0 :: NetResolves(nets0, log, from, nets, cfg[j], phases[j])
  }

  lemma ToldAll(cfg: Config, phases: seq<Phase>, nets0: map<string, Network>, log: seq<Event>, from: nat,
                nets: map<string, Network>, seen: SeenMap, cache: Cache, revision: string)
    requires |cfg| == |phases| && ToldUpTo(cfg, phases, |cfg|, nets0, log, from, seen, cache)
    requires PassExact(nets0, log, from, nets, seen, cache, revision)
    requires forall j | 0 <= j < |cfg| :: cfg[j].revision == revision
    ensures NetsResolved(cfg, phases, nets0, log, from, nets)
  {
    hide Told, PassExact, NetResolves;
    forall j | 0 <= j < |cfg| && cfg[j].vni != 0 ensures NetResolves(nets0, log, from, nets, cfg[j], phases[j]) {
      ToldResolves(nets0, log, from, nets, seen, cache, cfg[j], phases[j]);
    }
  }

  lemma NetResolvesLater(nets0: map<string, Network>, log: seq<Event>, log': seq<Event>, from: nat, from': nat,
                        nets: map<string, Network>, want: Desired, phase: Phase)
    requires NetResolves(nets0, log, from, nets, want, phase) && Extends(log, log') && from' <= from
    ensures NetResolves(nets0, log', from', nets, want, phase)
  {
    hide LostNet, NetPlacedBy;
    if LostNet(log, from, nets0, want.vni) {
      LostNetLater(log, log', from, from', nets0, want.vni);
    }
  }

  /** If every call was answered, whatever states were reported, a network listed with metadata or not at all ends
      stamped, and its phase is reported. */
  lemma AnsweredNetwork(nets0: map<string, Network>, log: seq<Event>, from: nat, nets: map<string, Network>,
                        want: Desired, phase: Phase)
    returns (id: string)
    requires NetResolves(nets0, log, from, nets, want, phase) && Answered(log, from) && "" !in nets0
    ensures NetPlacedBy(nets0, nets, id, want, phase)
  {
    hide ForNetwork, NetPlacedBy;
    id :| id in nets && NetPlacedBy(nets0, nets, id, want, phase);
  }

  lemma SameGrown(seen: SeenMap, cache: Cache)
    ensures Grown(seen, cache, seen, cache)
  {
  }

  lemma NothingYet(cfg: Config, phases: seq<Phase>, seen: SeenMap, cache: Cache, log: seq<Event>)
    requires |cfg| == |phases|
    ensures EntriesBacked(cfg, phases, 0, seen, cache) && Smooth(log, |log|)
  {
  }

  /** Phase one, on any server: also one whose networks conflict with the agent's names, or lack metadata. */
  method CreateUpdateNetworks(server: Server, cfg: Config, ghost book: Book) returns (ok: bool, phases: seq<Phase>)
    requires WellFormed(cfg) && Stays(server.State(), book, false)
    modifies server`networks, server`log
    ensures forall named | Stays(old(server.State()), book, named) ::
              Stays(server.State(), book, named) && LogStays(server.log, |old(server.log)|, book, named)
    ensures |phases| == |cfg| && forall j | 0 <= j < |cfg| && cfg[j].vni == 0 :: phases[j] == Ready
    ensures Extends(old(server.log), server.log) && OnlyNetworkCalls(server.log, |old(server.log)|)
    ensures NetworksOnce(server.log, |old(server.log)|)
    ensures ok ==> NetworksServe(cfg, phases, server.networks)
    ensures ok ==> NetsResolved(cfg, phases, old(server.networks), server.log, |old(server.log)|, server.networks)
    ensures Answered(server.log, |old(server.log)|) ==> ok
    ensures Smooth(server.log, |old(server.log)|) && NetworksReady(old(server.networks))
            && NetworksNamed(old(server.networks)) ==>
              forall j | 0 <= j < |cfg| :: phases[j] == Ready
    ensures (forall j | 0 <= j < |cfg| :: cfg[j].vni == 0) ==>
              && server.networks == old(server.networks)
              && |server.log| == |old(server.log)| + 1 && server.log[|old(server.log)|].call.ListNetworks?
  {
    ghost var named := NetworksNamed(server.networks);
    ghost var st0 := server.State();
    StaysWeakens(st0, book, named);
    hide PassInv, Stays, LogStays, NetworksOnce, AllReady, SeenReal, CacheTrue, EntriesBacked, NetworksServe,
         NetworksReady, NetworksNamed, Smooth, NetsResolved, PassExact;
    ghost var log0, revision := server.log, if cfg == [] then "" else cfg[0].revision;
    phases := seq(|cfg|, _ => Ready);
    var order, items;
    ok, order, items := server.ListNetworks();
    ghost var log1 := server.log;
    ListingStays(server.State(), log0, log1, book, named);
    if !ok {
      StaysForAll(st0, server.State(), server.log, |log0|, book, named);
      return;
    }
    var seen := IndexByVni(order, items);
    StartPass(server.State(), log1, |log0|, seen, revision, book, named);
    StartExact(st0.networks, log1, |log0|, seen, revision);
    var seen', cache;
    phases, seen', cache := NetworkPass(server, cfg, seen, |log0|, revision, book, named, st0.networks);
    SmoothSplit(log1, server.log, |log0|);
    NetworkCallsSplit(log1, server.log, |log0|);
    PassGives(server.State(), server.log, |log0|, seen', cache, revision, book, named);
    StaysForAll(st0, server.State(), server.log, |log0|, book, named);
    CacheServes(cfg, phases, seen', cache, server.networks, revision);
  }

  lemma StartExact(nets: map<string, Network>, log: seq<Event>, from: nat, seen: SeenMap, revision: string)
    requires SeenReal(seen, nets)
    requires forall v | v in seen :: seen[v].phase == ListedPhase(seen[v].id, nets[seen[v].id])
    ensures PassExact(nets, log, from, nets, seen, map[], revision)
  {
  }

  lemma StaysWeakens(st: ServerState, book: Book, named: bool)
    requires Stays(st, book, false) && (named ==> NetworksNamed(st.networks))
    ensures Stays(st, book, named)
  {
  }

  /** What is kept with the naming the server had is kept for every naming it satisfied. */
  lemma StaysForAll(st0: ServerState, st: ServerState, log: seq<Event>, from: nat, book: Book, named: bool)
    requires named == NetworksNamed(st0.networks) && Stays(st, book, named) && LogStays(log, from, book, named)
    ensures forall n | Stays(st0, book, n) :: Stays(st, book, n) && LogStays(log, from, book, n)
  {
    hide RefIntact, OnePerPair, Honest, NetworksNamed;
    forall n | Stays(st0, book, n) ensures Stays(st, book, n) && LogStays(log, from, book, n) {
      assert n ==> named;
    }
  }

  lemma ListingStays(st: ServerState, log: seq<Event>, log': seq<Event>, book: Book, named: bool)
    requires Stays(st, book, named) && |log'| == |log| + 1 && log'[..|log|] == log
    requires log'[|log|].after == st && log'[|log|].call.ListNetworks?
    ensures LogStays(log', |log|, book, named) && NetworksOnce(log', |log|)
    ensures Smooth(log', |log|) ==> log'[|log|].reply.Done?
    ensures Answered(log', |log|) ==> log'[|log|].reply.Done?
  {
    hide Stays;
  }

  lemma StartPass(st: ServerState, log: seq<Event>, from: nat, seen: SeenMap, revision: string, book: Book, named: bool)
    requires Stays(st, book, named) && LogStays(log, from, book, named) && SeenReal(seen, st.networks)
    requires |log| == from + 1 && log[from].call.ListNetworks?
    requires forall v | v in seen :: seen[v].phase == ListedPhase(seen[v].id, st.networks[seen[v].id])
    ensures PassInv(st, log, from, seen, map[], revision, book, named)
    ensures named && NetworksReady(st.networks) ==> AllReady(seen, map[])
  {
    hide LogStays;
  }

  lemma PassGives(st: ServerState, log: seq<Event>, from: nat, seen: SeenMap, cache: Cache, revision: string,
                  book: Book, named: bool)
    requires PassInv(st, log, from, seen, cache, revision, book, named)
    ensures Stays(st, book, named) && LogStays(log, from, book, named) && NetworksOnce(log, from)
    ensures SeenReal(seen, st.networks) && CacheTrue(seen, cache, st.networks, revision)
  {
  }

  lemma SmoothSplit(log: seq<Event>, log': seq<Event>, from: nat)
    requires from <= |log| && Extends(log, log')
    ensures Smooth(log', from) <==> Smooth(log, from) && Smooth(log', |log|)
  {
    assert forall k | from <= k < |log| :: log'[k] == log[k];
  }

  lemma AnsweredSplit(log: seq<Event>, log': seq<Event>, from: nat)
    requires from <= |log| && Extends(log, log')
    ensures Answered(log', from) <==> Answered(log, from) && Answered(log', |log|)
  {
    assert forall k | from <= k < |log| :: log'[k] == log[k];
  }

  lemma NetworkCallsSplit(log: seq<Event>, log': seq<Event>, from: nat)
    requires from <= |log| && Extends(log, log') && OnlyNetworkCalls(log, from) && OnlyNetworkCalls(log', |log|)
    ensures OnlyNetworkCalls(log', from)
  {
    assert forall k | from <= k < |log| :: log'[k] == log[k];
  }

  lemma CacheServes(cfg: Config, phases: seq<Phase>, seen: SeenMap, cache: Cache, nets: map<string, Network>,
                    revision: string)
    requires |phases| == |cfg| && EntriesBacked(cfg, phases, |cfg|, seen, cache)
    requires CacheTrue(seen, cache, nets, revision)
    requires forall j | 0 <= j < |cfg| :: cfg[j].revision == revision
    ensures NetworksServe(cfg, phases, nets)
  {
    hide VnetId;
  }
}
