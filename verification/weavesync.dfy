/** The fast path: when the server already carries the revision, copy its attachment states. */
module WeaveSync {
  import opened Options
  import opened Ascii
  import opened WeaveTypes

  type Pair = (string, string)

  datatype Drift = CountMismatch | Missing | NoState | NoRevision | VniTooBig | Leftover

  datatype SyncResult = Synced(phases: seq<Phase>) | Drifted(why: Drift)

  function WantPair(d: Desired): (p: Pair) {
    (Lower(d.mac), CastVnetId(d.vni))
  }

  function ServerPair(a: Attachment): (p: Pair) {
    (Lower(a.spec.nic), a.spec.vnet)
  }

  predicate Listed(order: seq<string>, items: map<string, Attachment>) {
    forall k | 0 <= k < |order| :: order[k] in items
  }

  /** The server's (NIC, network) pairs, in listing order. */
  function ServerPairs(order: seq<string>, items: map<string, Attachment>): (ps: seq<Pair>)
    requires Listed(order, items)
    ensures |ps| == |order| && forall k | 0 <= k < |ps| :: ps[k] == ServerPair(items[order[k]])
  {
    seq(|order|, k requires 0 <= k < |order| => ServerPair(items[order[k]]))
  }

  /** The desired (NIC, network) pairs of the attached entries, as a bag. */
  function WantBag(cfg: Config): (b: multiset<Pair>) {
    if cfg == [] then multiset{}
    else WantBag(cfg[..|cfg| - 1]) + EntryBag(cfg[|cfg| - 1])
  }

  function EntryBag(d: Desired): (b: multiset<Pair>) {
    if d.vni == 0 then multiset{} else multiset{WantPair(d)}
  }

  /** When the fast path applies: same pairs with the same multiplicities, every attachment has a
      state, every entry a revision and a VNI that fits a signed 32-bit number. */
  ghost predicate InSync(cfg: Config, order: seq<string>, items: map<string, Attachment>)
    requires Listed(order, items)
  {
    && WantBag(cfg) == multiset(ServerPairs(order, items))
    && (forall k | 0 <= k < |order| :: items[order[k]].state.Some?)
    && (forall i | 0 <= i < |cfg| :: cfg[i].revision != "" && cfg[i].vni < VNI_LIMIT)
  }

  // ---- Bags over index sets ----

  ghost function Bag(ps: seq<Pair>, used: set<nat>): (b: multiset<Pair>) {
    if ps == [] then multiset{}
    else Bag(ps[..|ps| - 1], used) + (if |ps| - 1 in used then multiset{ps[|ps| - 1]} else multiset{})
  }

  lemma {:induction false} BagAdd(ps: seq<Pair>, used: set<nat>, k: nat)
    requires k !in used
    ensures Bag(ps, used + {k}) == Bag(ps, used) + (if k < |ps| then multiset{ps[k]} else multiset{})
  {
    if ps != [] {
      var n := |ps| - 1;
      BagAdd(ps[..n], used, k);
      var b := Bag(ps[..n], used);
      if k == n {
        assert Bag(ps[..n], used + {k}) == b;
      } else if k < n {
        assert Bag(ps[..n], used + {k}) == b + multiset{ps[k]};
        assert n in used + {k} <==> n in used;
      } else {
        assert Bag(ps[..n], used + {k}) == b;
        assert n in used + {k} <==> n in used;
      }
    }
  }

  lemma {:induction false} BagEmpty(ps: seq<Pair>)
    ensures Bag(ps, {}) == multiset{}
  {
    if ps != [] {
      BagEmpty(ps[..|ps| - 1]);
    }
  }

  /** A pair without an unused index is used up. */
  lemma {:induction false} BagExhausted(ps: seq<Pair>, used: set<nat>, p: Pair)
    requires forall k | 0 <= k < |ps| && k !in used :: ps[k] != p
    ensures Bag(ps, used)[p] == multiset(ps)[p]
  {
    if ps != [] {
      var n := |ps| - 1;
      BagExhausted(ps[..n], used, p);
      assert ps == ps[..n] + [ps[n]];
    }
  }

  lemma {:induction false} BagFull(ps: seq<Pair>, used: set<nat>)
    requires forall k | 0 <= k < |ps| :: k in used
    ensures Bag(ps, used) == multiset(ps)
  {
    if ps != [] {
      var n := |ps| - 1;
      BagFull(ps[..n], used);
      assert ps == ps[..n] + [ps[n]];
    }
  }

  lemma {:induction false} WantBagGrows(cfg: Config, n: nat, p: Pair)
    requires n <= |cfg|
    ensures WantBag(cfg[..n])[p] <= WantBag(cfg)[p]
    decreases |cfg| - n
  {
    if n < |cfg| {
      WantBagGrows(cfg, n + 1, p);
      assert cfg[..n + 1][..n] == cfg[..n];
    } else {
      assert cfg[..n] == cfg;
    }
  }

  /** All indices below `n` are used once the sizes agree. */
  lemma AllIndices(used: set<nat>, n: nat)
    requires (forall k | k in used :: k < n) && |used| == n
    ensures forall k | 0 <= k < n :: k in used
  {
    if n > 0 {
      var rest := used - {n - 1};
      if n - 1 in used {
        AllIndices(rest, n - 1);
      } else {
        TooMany(used, n - 1);
      }
    }
  }

  lemma {:induction false} TooMany(used: set<nat>, n: nat)
    requires forall k | k in used :: k < n
    ensures |used| <= n
  {
    if n == 0 {
      assert used == {};
    } else {
      TooMany(used - {n - 1}, n - 1);
    }
  }

  // ---- The match ----

  method CountAttached(cfg: Config) returns (n: nat)
    ensures n == |WantBag(cfg)|
  {
    n := 0;
    for i := 0 to |cfg|
      invariant n == |WantBag(cfg[..i])|
    {
      assert cfg[..i + 1][..i] == cfg[..i];
      if cfg[i].vni != 0 {
        n := n + 1;
      }
    }
    assert cfg[..|cfg|] == cfg;
  }

  /** The first unused index with this pair. */
  method FindPair(ps: seq<Pair>, used: set<nat>, p: Pair) returns (k: Option<nat>)
    ensures k.Some? ==> k.value < |ps| && k.value !in used && ps[k.value] == p
    ensures k.None? ==> forall j | 0 <= j < |ps| && j !in used :: ps[j] != p
  {
    for i := 0 to |ps|
      invariant forall j | 0 <= j < i && j !in used :: ps[j] != p
    {
      if i !in used && ps[i] == p {
        return Some(i);
      }
    }
    return None;
  }

  /** The first `n` entries are placed on distinct indices of the listing. */
  ghost predicate Placed(cfg: Config, n: nat, ps: seq<Pair>, order: seq<string>, items: map<string, Attachment>,
                         used: set<nat>, at: seq<Option<nat>>, phases: seq<Phase>)
    requires n <= |cfg| && Listed(order, items) && |ps| == |order|
  {
    && |at| == n && |phases| == n
    && (forall k | k in used :: k < |order| && items[order[k]].state.Some? && Some(k) in at)
    && (forall i | 0 <= i < n && cfg[i].vni == 0 :: at[i] == None && phases[i] == Ready)
    && (forall i | 0 <= i < n && cfg[i].vni != 0 ::
          && at[i].Some? && at[i].value in used && ps[at[i].value] == WantPair(cfg[i])
          && phases[i] == PhaseOr(items[order[at[i].value]].state))
    && (forall i, j | 0 <= i < j < n && cfg[i].vni != 0 && cfg[j].vni != 0 :: at[i] != at[j])
    && (forall i | 0 <= i < n :: cfg[i].revision != "" && cfg[i].vni < VNI_LIMIT)
  }

  /** The pairs used up are the pairs of these entries. */
  ghost predicate Counted(cfg: Config, ps: seq<Pair>, used: set<nat>) {
    WantBag(cfg) == Bag(ps, used) && |Bag(ps, used)| == |used|
  }

  /** What the matching loop has established after `n` entries. */
  ghost predicate Matching(cfg: Config, n: nat, ps: seq<Pair>, order: seq<string>, items: map<string, Attachment>,
                           used: set<nat>, at: seq<Option<nat>>, phases: seq<Phase>)
    requires n <= |cfg| && Listed(order, items) && |ps| == |order|
  {
    Placed(cfg, n, ps, order, items, used, at, phases) && Counted(cfg[..n], ps, used)
  }

  lemma CountStep(cfg: Config, n: nat, ps: seq<Pair>, used: set<nat>, used': set<nat>)
    requires n < |cfg| && Counted(cfg[..n], ps, used)
    requires if cfg[n].vni == 0 then used' == used
             else exists k :: k !in used && used' == used + {k} && k < |ps| && ps[k] == WantPair(cfg[n])
    ensures Counted(cfg[..n + 1], ps, used')
  {
    hide WantPair, Bag;
    var c := cfg[..n + 1];
    assert c[..n] == cfg[..n] && c[n] == cfg[n];
    assert WantBag(c) == WantBag(cfg[..n]) + EntryBag(cfg[n]);
    if cfg[n].vni != 0 {
      var k :| k !in used && used' == used + {k} && k < |ps| && ps[k] == WantPair(cfg[n]);
      BagAdd(ps, used, k);
    }
  }

  lemma MatchDetached(cfg: Config, n: nat, ps: seq<Pair>, order: seq<string>, items: map<string, Attachment>,
                      used: set<nat>, at: seq<Option<nat>>, phases: seq<Phase>)
    requires n < |cfg| && Listed(order, items) && |ps| == |order|
             && Matching(cfg, n, ps, order, items, used, at, phases)
    requires cfg[n].vni == 0 && cfg[n].revision != ""
    ensures Matching(cfg, n + 1, ps, order, items, used, at + [None], phases + [Ready])
  {
    CountStep(cfg, n, ps, used, used);
    PlaceDetached(cfg, n, ps, order, items, used, at, phases);
  }

  lemma PlaceDetached(cfg: Config, n: nat, ps: seq<Pair>, order: seq<string>, items: map<string, Attachment>,
                      used: set<nat>, at: seq<Option<nat>>, phases: seq<Phase>)
    requires n < |cfg| && Listed(order, items) && |ps| == |order| && Placed(cfg, n, ps, order, items, used, at, phases)
    requires cfg[n].vni == 0 && cfg[n].revision != ""
    ensures Placed(cfg, n + 1, ps, order, items, used, at + [None], phases + [Ready])
  {
    hide WantPair, PhaseOr;
    var at', phases' := at + [None], phases + [Ready];
    assert forall k | k in at :: k in at';
    forall i | 0 <= i < n ensures at'[i] == at[i] && phases'[i] == phases[i] {
    }
  }

  lemma PlaceAttached(cfg: Config, n: nat, ps: seq<Pair>, order: seq<string>, items: map<string, Attachment>,
                      used: set<nat>, at: seq<Option<nat>>, phases: seq<Phase>, k: nat)
    requires n < |cfg| && Listed(order, items) && |ps| == |order| && Placed(cfg, n, ps, order, items, used, at, phases)
    requires cfg[n].vni != 0 && cfg[n].revision != "" && cfg[n].vni < VNI_LIMIT
    requires k < |ps| && k !in used && ps[k] == WantPair(cfg[n]) && items[order[k]].state.Some?
    ensures Placed(cfg, n + 1, ps, order, items, used + {k}, at + [Some(k)], phases + [PhaseOr(items[order[k]].state)])
  {
    hide WantPair, PhaseOr;
    var at', phases' := at + [Some(k)], phases + [PhaseOr(items[order[k]].state)];
    forall j | j in used + {k} ensures Some(j) in at' {
      assert at'[n] == Some(k);
      assert j in used ==> Some(j) in at;
    }
    forall i | 0 <= i < n ensures at'[i] == at[i] && phases'[i] == phases[i] && at[i] != Some(k) {
    }
  }

  lemma MatchAttached(cfg: Config, n: nat, ps: seq<Pair>, order: seq<string>, items: map<string, Attachment>,
                      used: set<nat>, at: seq<Option<nat>>, phases: seq<Phase>, k: nat)
    requires n < |cfg| && Listed(order, items) && |ps| == |order|
             && Matching(cfg, n, ps, order, items, used, at, phases)
    requires cfg[n].vni != 0 && cfg[n].revision != "" && cfg[n].vni < VNI_LIMIT
    requires k < |ps| && k !in used && ps[k] == WantPair(cfg[n]) && items[order[k]].state.Some?
    ensures Matching(cfg, n + 1, ps, order, items, used + {k}, at + [Some(k)],
                     phases + [PhaseOr(items[order[k]].state)])
  {
    CountStep(cfg, n, ps, used, used + {k});
    PlaceAttached(cfg, n, ps, order, items, used, at, phases, k);
  }

  /** Copies the states of the matched attachments. The test for left-over attachments at the end of
      `sync_astra_config_status_from_weave_ew_vpc_attachments` can never fire. */
  method SyncStatus(cfg: Config, order: seq<string>, items: map<string, Attachment>)
    returns (r: SyncResult, ghost at: seq<Option<nat>>)
    requires Listed(order, items)
    ensures r.Synced? <==> InSync(cfg, order, items)
    ensures r != Drifted(Leftover)
    ensures r.Synced? ==> |r.phases| == |cfg| == |at|
    ensures r.Synced? ==> forall i | 0 <= i < |cfg| && cfg[i].vni == 0 :: at[i] == None && r.phases[i] == Ready
    ensures r.Synced? ==> forall i | 0 <= i < |cfg| && cfg[i].vni != 0 ::
              && at[i].Some? && at[i].value < |order|
              && ServerPair(items[order[at[i].value]]) == WantPair(cfg[i])
              && r.phases[i] == PhaseOr(items[order[at[i].value]].state)
    ensures r.Synced? ==> forall i, j | 0 <= i < j < |cfg| && cfg[i].vni != 0 && cfg[j].vni != 0 :: at[i] != at[j]
    ensures r.Synced? ==> forall k | 0 <= k < |order| :: Some(k) in at
  {
    hide WantPair, ServerPair, WantBag, Bag;
    var expected := CountAttached(cfg);
    var ps := ServerPairs(order, items);
    var phases: seq<Phase>, used: set<nat> := [], {};
    at := [];
    if expected != |order| {
      r := Drifted(CountMismatch);
      return;
    }
    StartMatching(cfg, ps, order, items);
    for i := 0 to |cfg|
      invariant Matching(cfg, i, ps, order, items, used, at, phases)
    {
      if cfg[i].vni == 0 {
        if cfg[i].revision == "" {
          r := Drifted(NoRevision);
          return;
        }
        MatchDetached(cfg, i, ps, order, items, used, at, phases);
        at, phases := at + [None], phases + [Ready];
        continue;
      }
      var k := FindPair(ps, used, WantPair(cfg[i]));
      if k.None? {
        MissingIsDrift(cfg, i, ps, order, items, used, at, phases);
        r := Drifted(Missing);
        return;
      }
      if items[order[k.value]].state.None? {
        r := Drifted(NoState);
        return;
      }
      if cfg[i].revision == "" {
        r := Drifted(NoRevision);
        return;
      }
      if cfg[i].vni >= VNI_LIMIT {
        r := Drifted(VniTooBig);
        return;
      }
      MatchAttached(cfg, i, ps, order, items, used, at, phases, k.value);
      used := used + {k.value};
      at, phases := at + [Some(k.value)], phases + [PhaseOr(items[order[k.value]].state)];
    }
    MatchedAll(cfg, ps, order, items, used, at, phases);
    r := if |used| != |order| then Drifted(Leftover) else Synced(phases);
  }

  lemma StartMatching(cfg: Config, ps: seq<Pair>, order: seq<string>, items: map<string, Attachment>)
    requires Listed(order, items) && |ps| == |order|
    ensures Matching(cfg, 0, ps, order, items, {}, [], [])
  {
    BagEmpty(ps);
  }

  lemma MissingIsDrift(cfg: Config, n: nat, ps: seq<Pair>, order: seq<string>, items: map<string, Attachment>,
                       used: set<nat>, at: seq<Option<nat>>, phases: seq<Phase>)
    requires n < |cfg| && Listed(order, items) && ps == ServerPairs(order, items)
    requires Matching(cfg, n, ps, order, items, used, at, phases) && cfg[n].vni != 0
    requires forall j | 0 <= j < |ps| && j !in used :: ps[j] != WantPair(cfg[n])
    ensures !InSync(cfg, order, items)
  {
    hide WantPair, ServerPair, Bag;
    var p := WantPair(cfg[n]);
    BagExhausted(ps, used, p);
    assert cfg[..n + 1][..n] == cfg[..n] && cfg[..n + 1][n] == cfg[n];
    assert WantBag(cfg[..n + 1])[p] == WantBag(cfg[..n])[p] + 1;
    WantBagGrows(cfg, n + 1, p);
  }

  lemma MatchedAll(cfg: Config, ps: seq<Pair>, order: seq<string>, items: map<string, Attachment>,
                   used: set<nat>, at: seq<Option<nat>>, phases: seq<Phase>)
    requires Listed(order, items) && ps == ServerPairs(order, items) && |WantBag(cfg)| == |order|
    requires Matching(cfg, |cfg|, ps, order, items, used, at, phases)
    ensures |used| == |order| && InSync(cfg, order, items)
    ensures forall k | 0 <= k < |order| :: Some(k) in at
  {
    hide WantPair, ServerPair, Bag, WantBag;
    assert cfg[..|cfg|] == cfg;
    AllIndices(used, |order|);
    BagFull(ps, used);
  }

  // ---- Bags without repetition ----

  ghost predicate Wants(cfg: Config, p: Pair) {
    exists i :: 0 <= i < |cfg| && cfg[i].vni != 0 && WantPair(cfg[i]) == p
  }

  lemma WantsStep(cfg: Config, p: Pair)
    requires cfg != []
    ensures Wants(cfg, p) <==>
            Wants(cfg[..|cfg| - 1], p) || (cfg[|cfg| - 1].vni != 0 && WantPair(cfg[|cfg| - 1]) == p)
  {
    hide WantPair;
    var n := |cfg| - 1;
    if i :| 0 <= i < |cfg| && cfg[i].vni != 0 && WantPair(cfg[i]) == p {
      assert i < n ==> cfg[..n][i] == cfg[i];
    }
    if i :| 0 <= i < n && cfg[..n][i].vni != 0 && WantPair(cfg[..n][i]) == p {
      assert cfg[i] == cfg[..n][i];
    }
  }

  lemma {:induction false} WantBagMember(cfg: Config, p: Pair)
    ensures p in WantBag(cfg) <==> Wants(cfg, p)
  {
    hide WantPair, Wants;
    if cfg != [] {
      WantBagMember(cfg[..|cfg| - 1], p);
      WantsStep(cfg, p);
    } else {
      NoneWanted(p);
    }
  }

  lemma NoneWanted(p: Pair)
    ensures !Wants([], p)
  {
  }

  lemma {:induction false} WantBagOnce(cfg: Config, p: Pair)
    requires forall i, j | 0 <= i < j < |cfg| :: !SameNic(cfg[i].mac, cfg[j].mac)
    ensures WantBag(cfg)[p] <= 1
  {
    if cfg != [] {
      var n := |cfg| - 1;
      WantBagOnce(cfg[..n], p);
      WantBagMember(cfg[..n], p);
    }
  }

  lemma {:induction false} SeqBagOnce(ps: seq<Pair>, p: Pair)
    requires forall i, j | 0 <= i < j < |ps| :: ps[i] != ps[j]
    ensures multiset(ps)[p] <= 1
  {
    if ps != [] {
      var n := |ps| - 1;
      SeqBagOnce(ps[..n], p);
      assert ps == ps[..n] + [ps[n]];
      assert ps[n] !in ps[..n];
      assert p == ps[n] ==> multiset(ps[..n])[p] == 0;
    }
  }

  /** When no NIC and no pair repeats, having the same pairs is enough. */
  lemma SamePairsSameBags(cfg: Config, ps: seq<Pair>)
    requires forall i, j | 0 <= i < j < |cfg| :: !SameNic(cfg[i].mac, cfg[j].mac)
    requires forall i, j | 0 <= i < j < |ps| :: ps[i] != ps[j]
    requires forall p :: Wants(cfg, p) <==> p in ps
    ensures WantBag(cfg) == multiset(ps)
  {
    forall p ensures WantBag(cfg)[p] == multiset(ps)[p] {
      WantBagMember(cfg, p);
      WantBagOnce(cfg, p);
      SeqBagOnce(ps, p);
      assert p in ps <==> p in multiset(ps);
    }
  }
}
