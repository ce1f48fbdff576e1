/** Histories of ticks under arbitrary failures, settling down, and the limits of the fast path. */
module WeaveHistory {
  import opened Options
  import opened Ascii
  import opened WeaveTypes
  import opened WeaveServer
  import opened WeaveSteps
  import opened WeaveNetworks
  import opened WeavePrune
  import opened WeaveAttachments
  import opened WeaveSync
  import opened WeaveReconcile

  /** Any sequence of ticks with any failures: after every single call, every attachment names an existing
      network and every stamp is honest. */
  method History(server: Server, ticks: seq<Option<Config>>, ghost book: Book)
    requires Kept(server.State(), book)
    requires forall i | 0 <= i < |ticks| && ticks[i].Some? ::
               Promised(ticks[i].value) && Registered(ticks[i].value, book)
    modifies server
    ensures Kept(server.State(), book)
    ensures Extends(old(server.log), server.log)
    ensures forall k | |old(server.log)| <= k < |server.log| ::
              RefIntact(server.log[k].after) && Honest(server.log[k].after.attachments, book)
  {
    ghost var log0 := server.log;
    NothingLogged(log0, book);
    hide Kept, LogKept;
    for i := 0 to |ticks|
      invariant Kept(server.State(), book) && Extends(log0, server.log) && LogKept(server.log, |log0|, book)
    {
      ghost var log := server.log;
      var r := Reconcile(server, ticks[i], book);
      JoinLogs(log0, log, server.log, book);
    }
    KeptSpelledOut(server.log, |log0|, book);
  }

  lemma KeptSpelledOut(log: seq<Event>, from: nat, book: Book)
    requires LogKept(log, from, book)
    ensures forall k | from <= k < |log| :: RefIntact(log[k].after) && Honest(log[k].after.attachments, book)
  {
  }

  /** A server without attachments or networks is a valid start. */
  lemma EmptyServerKept(book: Book)
    ensures Kept(ServerState(map[], map[]), book)
  {
  }

  /** The same of every history that starts on an empty server, whatever each revision denotes. */
  method HistoryFromEmpty(server: Server, ticks: seq<Option<Config>>, ghost book: Book)
    requires server.networks == map[] && server.attachments == map[]
    requires forall i | 0 <= i < |ticks| && ticks[i].Some? ::
               Promised(ticks[i].value) && Registered(ticks[i].value, book)
    modifies server
    ensures RefIntact(server.State()) && Honest(server.attachments, book)
    ensures Extends(old(server.log), server.log)
    ensures forall k | |old(server.log)| <= k < |server.log| ::
              RefIntact(server.log[k].after) && Honest(server.log[k].after.attachments, book)
  {
    EmptyServerKept(book);
    hide Promised, Registered, Extends;
    History(server, ticks, book);
  }

  /** One undisturbed full reconcile converges, and the tick after a converged one only lists. A first tick
      that takes the fast path finds a converged server exactly when it is settled. */
  method SettleDown(server: Server, cfg: Config, ghost book: Book)
    returns (first: Outcome, second: Outcome, ghost mid: nat)
    requires WellFormed(cfg) && Registered(cfg, book) && Kept(server.State(), book)
    modifies server
    ensures |old(server.log)| <= mid <= |server.log|
    ensures (&& Smooth(server.log[..mid], |old(server.log)|) && Buildable(cfg) && !first.Copied?
             && NetworksReady(old(server.networks)) && AttachmentsReady(old(server.attachments))) ==>
              first.Reconciled? && AllPhasesReady(first.phases)
    ensures first.Reconciled? && AllPhasesReady(first.phases) ==>
              Converged(server.State(), cfg) && Quiet(server.log, mid)
    ensures first.Copied? && cfg != [] && cfg[0].revision in book && Settled(old(server.State()), cfg) ==>
              Converged(server.State(), cfg) && Quiet(server.log, mid)
    ensures first.Copied? && cfg != [] && cfg[0].revision in book && !Settled(old(server.State()), cfg) ==>
              !Converged(old(server.State()), cfg)
  {
    hide Settled, Kept, Registered, LogKept, NetworksOnce, DeletesOnce, Truthful, Converged, Mirrors, Smooth, Buildable,
         NetworksReady, AttachmentsReady;
    first := Reconcile(server, Some(cfg), book);
    mid := |server.log|;
    ghost var log1 := server.log;
    second := Reconcile(server, Some(cfg), book);
    assert server.log[..mid] == log1;
  }

  // ---- Mixed stamps ----

  function OvsEntry(mac: string, vni: nat, bridge: string, revision: string): (d: Desired) {
    Desired(mac, vni, "", Known(Ovs), None, Some(OvsBinding(bridge, None)), revision)
  }

  function OvsAttachment(mac: string, vni: nat, bridge: string, revision: string): (a: Attachment) {
    Attachment(Spec(VnetId(vni), mac, OvsType, None, None, Some(OvsBinding(bridge, None))), Some(revision), Some(Ready))
  }

  /** Two NICs on one network; the new revision moves the second to another bridge. */
  function OldConfig(a: string, b: string, vni: nat, x: string, was: string): (c: Config) {
    [OvsEntry(a, vni, x, was), OvsEntry(b, vni, x, was)]
  }

  function NewConfig(a: string, b: string, vni: nat, x: string, y: string, now: string): (c: Config) {
    [OvsEntry(a, vni, x, now), OvsEntry(b, vni, y, now)]
  }

  /** Two OVS attachments on one network, with their stamps and the network's. */
  function TwoNics(a: string, b: string, vni: nat, x: string, net: string, one: string,
                   two: string): (st: ServerState) {
    ServerState(map[VnetId(vni) := Network(vni, "", Some(net), Some(Ready))],
                map["1" := OvsAttachment(a, vni, x, one), "2" := OvsAttachment(b, vni, x, two)])
  }

  /** The network and the first NIC carry the new stamp, the second still the old one. */
  function HalfDone(a: string, b: string, vni: nat, x: string, was: string, now: string): (st: ServerState) {
    TwoNics(a, b, vni, x, now, now, was)
  }

  lemma TwoWanted(cfg: Config)
    requires |cfg| == 2 && cfg[0].vni != 0 && cfg[1].vni != 0
    ensures WantBag(cfg) == multiset{WantPair(cfg[0]), WantPair(cfg[1])}
  {
    hide WantPair;
    assert cfg[..1][..0] == [] && cfg[..1][0] == cfg[0];
    assert WantBag(cfg[..1]) == WantBag(cfg[..1][..0]) + EntryBag(cfg[0]);
  }

  lemma TwoListed(k: string, l: string, items: map<string, Attachment>)
    requires k in items && l in items
    ensures multiset(ServerPairs([k, l], items)) == multiset{ServerPair(items[k]), ServerPair(items[l])}
  {
    hide ServerPair;
    assert ServerPairs([k, l], items) == [ServerPair(items[k]), ServerPair(items[l])];
  }

  lemma HalfDonePairs(a: string, b: string, vni: nat, x: string, y: string, was: string, now: string)
    requires 1 <= vni < VNI_LIMIT && now != ""
    ensures var atts := HalfDone(a, b, vni, x, was, now).attachments;
            Listed(["1", "2"], atts) && InSync(NewConfig(a, b, vni, x, y, now), ["1", "2"], atts)
  {
    var cfg := NewConfig(a, b, vni, x, y, now);
    var atts := HalfDone(a, b, vni, x, was, now).attachments;
    TwoWanted(cfg);
    TwoListed("1", "2", atts);
    hide Lower, VnetId, WantBag, ServerPairs;
    assert WantPair(cfg[0]) == ServerPair(atts["1"]) && WantPair(cfg[1]) == ServerPair(atts["2"]);
  }

  /** With one stamp throughout, the two NICs are converged on the old configuration. */
  lemma TwoNicsConverged(a: string, b: string, vni: nat, x: string, was: string)
    requires !SameNic(a, b) && 1 <= vni
    ensures Converged(TwoNics(a, b, vni, x, was, was, was), OldConfig(a, b, vni, x, was))
  {
    var st, cfg := TwoNics(a, b, vni, x, was, was, was), OldConfig(a, b, vni, x, was);
    hide Lower, VnetId;
    assert "1"[0] != "2"[0];
    assert ServedBy(st.attachments, "1", cfg[0]) && ServedBy(st.attachments, "2", cfg[1]);
    hide ServedBy;
    assert SamePair(st.attachments["1"].spec, cfg[0]) && SamePair(st.attachments["2"].spec, cfg[1]);
    assert cfg[0].vni == vni;
  }

  /** How the half-done server arises from a converged one. The new revision's reconcile stamps the network
      and the first attachment, which needs no replacing. The second must be replaced, so it is to be
      deleted; when that delete fails it stays, and neither pruning pass touches what is left. */
  lemma HalfDoneReached(a: string, b: string, vni: nat, x: string, y: string, was: string, now: string)
    requires !SameNic(a, b) && 1 <= vni < VNI_LIMIT && x != y
    ensures var st, cfg := HalfDone(a, b, vni, x, was, now), NewConfig(a, b, vni, x, y, now);
            var st0 := TwoNics(a, b, vni, x, was, was, was);
            && Converged(st0, OldConfig(a, b, vni, x, was))
            && NetworkStamped(st0.networks, st.networks, VnetId(vni), now)
            && AttachmentStamped(st0.attachments, st.attachments, "1", now)
            && SamePair(st0.attachments["1"].spec, cfg[0]) && !RequiresRecreate(st0.attachments["1"].spec, cfg[0])
            && SamePair(st0.attachments["2"].spec, cfg[1]) && RequiresRecreate(st0.attachments["2"].spec, cfg[1])
            && AllInConfig(st.attachments, cfg) && AllWanted(st.networks, cfg)
  {
    TwoNicsConverged(a, b, vni, x, was);
    HalfDoneStamps(a, b, vni, x, was, now);
    HalfDoneWanted(a, b, vni, x, y, was, now);
    hide Lower, VnetId, Converged, NetworkStamped, AttachmentStamped, SamePair, RequiresRecreate, AllInConfig,
         AllWanted;
  }

  lemma HalfDoneStamps(a: string, b: string, vni: nat, x: string, was: string, now: string)
    ensures var st, st0 := HalfDone(a, b, vni, x, was, now), TwoNics(a, b, vni, x, was, was, was);
            && NetworkStamped(st0.networks, st.networks, VnetId(vni), now)
            && AttachmentStamped(st0.attachments, st.attachments, "1", now)
  {
    hide VnetId;
    var st, st0 := HalfDone(a, b, vni, x, was, now), TwoNics(a, b, vni, x, was, was, was);
    assert "1"[0] != "2"[0];
    assert st.networks
           == st0.networks[VnetId(vni) := st0.networks[VnetId(vni)].(revision := Some(now), state := Some(Ready))];
    assert st.attachments == st0.attachments["1" := st0.attachments["1"].(revision := Some(now), state := Some(Ready))];
  }

  lemma HalfDoneWanted(a: string, b: string, vni: nat, x: string, y: string, was: string, now: string)
    requires 1 <= vni && x != y
    ensures var st, cfg := HalfDone(a, b, vni, x, was, now), NewConfig(a, b, vni, x, y, now);
            var st0 := TwoNics(a, b, vni, x, was, was, was);
            && SamePair(st0.attachments["1"].spec, cfg[0]) && !RequiresRecreate(st0.attachments["1"].spec, cfg[0])
            && SamePair(st0.attachments["2"].spec, cfg[1]) && RequiresRecreate(st0.attachments["2"].spec, cfg[1])
            && AllInConfig(st.attachments, cfg) && AllWanted(st.networks, cfg)
  {
    hide Lower, VnetId;
    var st, cfg := HalfDone(a, b, vni, x, was, now), NewConfig(a, b, vni, x, y, now);
    assert "1"[0] != "2"[0];
    assert SamePair(st.attachments["1"].spec, cfg[0]) && SamePair(st.attachments["2"].spec, cfg[1]);
    hide SamePair;
    assert cfg[0].vni == vni;
  }

  /** The first-attachment test is not enough when stamps differ: on the half-done server, listed with
      the stamped attachment first, the next tick takes the fast path and reports the second NIC Ready on the
      bridge it should have left. */
  lemma MixedStampsMislead(a: string, b: string, vni: nat, x: string, y: string, was: string, now: string)
    requires !SameNic(a, b) && 1 <= vni < VNI_LIMIT && was != now && now != "" && x != y
    ensures var st := HalfDone(a, b, vni, x, was, now);
            var cfg := NewConfig(a, b, vni, x, y, now);
            && Kept(st, map[was := OldConfig(a, b, vni, x, was), now := cfg])
            && Promised(cfg)
            && FastApplies(cfg, ["1", "2"], st.attachments)
            && SamePair(st.attachments["2"].spec, cfg[1]) && st.attachments["2"].state == Some(Ready)
            && RequiresRecreate(st.attachments["2"].spec, cfg[1])
  {
    var st, cfg, old' :=
        HalfDone(a, b, vni, x, was, now), NewConfig(a, b, vni, x, y, now), OldConfig(a, b, vni, x, was);
    HalfDonePairs(a, b, vni, x, y, was, now);
    hide Lower, VnetId;
    assert Agrees(st.attachments["1"].spec, cfg[0]);
    assert Agrees(st.attachments["2"].spec, old'[1]);
  }

  // ---- Left-over networks ----

  /** One NIC, moved from network `w` to network `v`; the old network is still there. */
  function Leftover(a: string, v: nat, w: nat, x: string, was: string, now: string): (st: ServerState) {
    ServerState(map[VnetId(w) := Network(w, "", Some(was), Some(Ready)),
                    VnetId(v) := Network(v, "", Some(now), Some(Ready))],
                map["2" := OvsAttachment(a, v, x, now)])
  }

  /** A failed delete of a network is never retried while the revision lasts: every tick takes the fast path,
      which writes nothing (`WeaveReconcile.Reconcile`), but the server is not converged. */
  lemma LeftoverStays(a: string, v: nat, w: nat, x: string, was: string, now: string)
    requires 1 <= v < VNI_LIMIT && 1 <= w && v != w && now != ""
    ensures var st, cfg := Leftover(a, v, w, x, was, now), [OvsEntry(a, v, x, now)];
            && Kept(st, map[now := cfg]) && WellFormed(cfg)
            && AlwaysFast(cfg, st.attachments) && !Converged(st, cfg)
  {
    var st, cfg := Leftover(a, v, w, x, was, now), [OvsEntry(a, v, x, now)];
    assert Agrees(st.attachments["2"].spec, cfg[0]);
    NamesApart(v, w);
    LeftoverInSync(a, v, w, x, was, now);
    hide Lower, VnetId, InSync;
    forall order | Orders(order, st.attachments.Keys) ensures order == ["2"] {
      OnlyOrder(order, "2");
    }
    assert !Wanted(st.networks[VnetId(w)], cfg);
  }

  lemma {:induction false} OrdersLength(order: seq<string>, ids: set<string>)
    requires Orders(order, ids)
    ensures |order| == |ids|
  {
    if order == [] {
      assert ids == {};
    } else {
      assert order == [order[0]] + order[1..];
      assert order[0] in ids;
      OrdersLength(order[1..], ids - {order[0]});
    }
  }

  lemma OnlyOrder(order: seq<string>, id: string)
    requires Orders(order, {id})
    ensures order == [id]
  {
    OrdersLength(order, {id});
    assert order[0] in order;
  }

  lemma NamesApart(v: nat, w: nat)
    requires v != w
    ensures VnetId(v) != VnetId(w)
  {
    hide VnetId;
    if VnetId(v) == VnetId(w) {
      VnetIdInjective(v, w);
    }
  }

  lemma LeftoverInSync(a: string, v: nat, w: nat, x: string, was: string, now: string)
    requires 1 <= v < VNI_LIMIT && now != ""
    ensures var atts, cfg := Leftover(a, v, w, x, was, now).attachments, [OvsEntry(a, v, x, now)];
            Listed(["2"], atts) && InSync(cfg, ["2"], atts)
  {
    var atts, cfg := Leftover(a, v, w, x, was, now).attachments, [OvsEntry(a, v, x, now)];
    hide Lower, VnetId;
    assert cfg[..0] == [];
    assert WantBag(cfg) == WantBag(cfg[..0]) + EntryBag(cfg[0]);
    assert ServerPairs(["2"], atts) == [ServerPair(atts["2"])];
    assert WantPair(cfg[0]) == ServerPair(atts["2"]);
  }

  /** One NIC, converged on one network. */
  function OneNic(a: string, w: nat, x: string, was: string): (st: ServerState) {
    ServerState(map[VnetId(w) := Network(w, "", Some(was), Some(Ready))], map["1" := OvsAttachment(a, w, x, was)])
  }

  lemma OneNicConverged(a: string, w: nat, x: string, was: string)
    requires 1 <= w
    ensures Converged(OneNic(a, w, x, was), [OvsEntry(a, w, x, was)])
  {
    var st, cfg := OneNic(a, w, x, was), [OvsEntry(a, w, x, was)];
    hide Lower, VnetId;
    assert ServedBy(st.attachments, "1", cfg[0]);
    assert SamePair(st.attachments["1"].spec, cfg[0]);
    hide ServedBy, SamePair;
    assert cfg[0].vni == w;
  }

  lemma LeftoverSteps(a: string, v: nat, w: nat, x: string, was: string, now: string)
    requires v != w
    ensures var st, st0, d := Leftover(a, v, w, x, was, now), OneNic(a, w, x, was), OvsEntry(a, v, x, now);
            && NetworkAdded(st0.networks, st.networks, VnetId(v), v, "", now)
            && SpecFor(d).Some?
            && AttachmentAdded(st0.attachments - {"1"}, st.attachments, "2", SpecFor(d).value, now)
  {
    NamesApart(v, w);
    hide Lower, VnetId;
    assert OneNic(a, w, x, was).attachments - {"1"} == map[];
  }

  /** How it arises from a converged server: create the new network, delete the conflicting attachment,
      attach anew, and fail to delete the network that is no longer wanted. */
  lemma LeftoverReached(a: string, v: nat, w: nat, x: string, was: string, now: string)
    requires 1 <= v && 1 <= w && v != w
    ensures var st, st0, cfg := Leftover(a, v, w, x, was, now), OneNic(a, w, x, was), [OvsEntry(a, v, x, now)];
            && Converged(st0, [OvsEntry(a, w, x, was)])
            && NetworkAdded(st0.networks, st.networks, VnetId(v), v, "", now)
            && OnNic(st0.attachments["1"], cfg[0]) && !SamePair(st0.attachments["1"].spec, cfg[0])
            && SpecFor(cfg[0]).Some?
            && AttachmentAdded(st0.attachments - {"1"}, st.attachments, "2", SpecFor(cfg[0]).value, now)
            && AllInConfig(st.attachments, cfg) && !Wanted(st.networks[VnetId(w)], cfg)
  {
    OneNicConverged(a, w, x, was);
    LeftoverSteps(a, v, w, x, was, now);
    LeftoverWanted(a, v, w, x, was, now);
    hide Lower, VnetId, Converged, NetworkAdded, AttachmentAdded, SpecFor, OnNic, SamePair, AllInConfig, Wanted;
  }

  lemma LeftoverWanted(a: string, v: nat, w: nat, x: string, was: string, now: string)
    requires v != w
    ensures var st, st0, cfg := Leftover(a, v, w, x, was, now), OneNic(a, w, x, was), [OvsEntry(a, v, x, now)];
            && OnNic(st0.attachments["1"], cfg[0]) && !SamePair(st0.attachments["1"].spec, cfg[0])
            && VnetId(w) in st.networks
            && AllInConfig(st.attachments, cfg) && !Wanted(st.networks[VnetId(w)], cfg)
  {
    NamesApart(v, w);
    hide Lower, VnetId;
    var st, cfg := Leftover(a, v, w, x, was, now), [OvsEntry(a, v, x, now)];
    assert SamePair(st.attachments["2"].spec, cfg[0]);
  }

  // ---- Networks that are not named after their VNI ----

  /** Why networks must carry the agent's names: under a foreign VNI, the network of a configured attachment
      is unwanted, and pruning it leaves the attachment without one. */
  lemma MisnamedNetworkOrphans(a: string, v: nat, w: nat, x: string, now: string)
    requires v != w
    ensures var cfg := [OvsEntry(a, v, x, now)];
            var st := ServerState(map[VnetId(v) := Network(w, "", Some(now), Some(Ready))],
                                  map["1" := OvsAttachment(a, v, x, now)]);
            && RefIntact(st) && OnePerPair(st.attachments) && Honest(st.attachments, map[now := cfg])
            && AllInConfig(st.attachments, cfg) && !Wanted(st.networks[VnetId(v)], cfg)
            && !RefIntact(ServerState(st.networks - {VnetId(v)}, st.attachments))
  {
    var cfg := [OvsEntry(a, v, x, now)];
    var att := OvsAttachment(a, v, x, now);
    hide Lower, VnetId;
    assert "1" != "";
    assert Agrees(att.spec, cfg[0]) && SamePair(att.spec, cfg[0]);
    var after := ServerState(map[VnetId(v) := Network(w, "", Some(now), Some(Ready))] - {VnetId(v)}, map["1" := att]);
    assert "1" in after.attachments;
  }
}
