/** Dumping a store to a list of transfer records and loading such a list back. */
module DumpLoad {
  import opened Options
  import opened Cidrs
  import opened Records
  import opened Forest
  import opened Memory
  import opened Ipam
  import opened IpamSteps
  import opened IpamRuns

  /** The transfer form: the names in clear, the private fields under their own keys. */
  datatype PrefixJson = PrefixJson(
    cidr: Cidr,
    parentCidr: Option<Cidr>,
    namespace: string,
    availableChildPrefixes: map<Cidr, bool>,
    childPrefixLength: int,
    isParent: bool,
    ips: set<Addr>,
    version: nat)

  function ToPrefixJson(r: Record): (j: PrefixJson) {
    PrefixJson(r.cidr, r.parent, r.namespace, r.children, r.childPrefixLength, r.isParent, r.ips, r.version)
  }

  /** Reading also migrates: a legacy child length marks the record as a parent. */
  function ToPrefix(j: PrefixJson): (r: Record) {
    Record(j.cidr, j.parentCidr, j.namespace, j.childPrefixLength > 0 || j.isParent,
           j.availableChildPrefixes, j.childPrefixLength, j.ips, j.version)
  }

  function Migrated(r: Record): (m: Record) {
    if r.childPrefixLength > 0 then r.(isParent := true) else r
  }

  /** The transfer keeps every field and marks the records of the legacy format as parents. */
  predicate KeptButMarked(r: Record, m: Record) {
    && m.cidr == r.cidr && m.parent == r.parent && m.namespace == r.namespace && m.children == r.children
    && m.childPrefixLength == r.childPrefixLength && m.ips == r.ips && m.version == r.version
    && m.isParent == (r.isParent || r.childPrefixLength > 0)
  }

  lemma TransferMigrates(r: Record)
    ensures ToPrefix(ToPrefixJson(r)) == Migrated(r) && KeptButMarked(r, Migrated(r))
    ensures ToPrefix(ToPrefixJson(r)) == r <==> Current(r)
  {
  }

  function JsonKey(j: PrefixJson): (k: Key) {
    Key(j.cidr, j.namespace)
  }

  predicate DistinctKeys(js: seq<PrefixJson>) {
    forall i, j | 0 <= i < j < |js| :: JsonKey(js[i]) != JsonKey(js[j])
  }

  method Dump(store: Store) returns (js: seq<PrefixJson>)
    requires Keyed(store.prefixes)
    ensures DistinctKeys(js)
    ensures forall i | 0 <= i < |js| ::
              JsonKey(js[i]) in store.prefixes && js[i] == ToPrefixJson(store.prefixes[JsonKey(js[i])])
    ensures forall k | k in store.prefixes :: ToPrefixJson(store.prefixes[k]) in js
  {
    var ps := store.ReadAllPrefixes();
    js := [];
    for i := 0 to |ps|
      invariant |js| == i && forall j | 0 <= j < i :: js[j] == ToPrefixJson(ps[j])
    {
      js := js + [ToPrefixJson(ps[i])];
    }
    forall k | k in store.prefixes ensures ToPrefixJson(store.prefixes[k]) in js {
      var i :| 0 <= i < |ps| && ps[i] == store.prefixes[k];
      assert js[i] == ToPrefixJson(ps[i]);
    }
  }

  /** The store holds exactly the records of the list. */
  ghost predicate Holds(m: Contents, js: seq<PrefixJson>) {
    && (forall k :: k in m <==> exists i :: 0 <= i < |js| && JsonKey(js[i]) == k)
    && (forall i | 0 <= i < |js| :: JsonKey(js[i]) in m && m[JsonKey(js[i])] == ToPrefix(js[i]))
  }

  lemma HoldsStep(m: Contents, js: seq<PrefixJson>, j: PrefixJson)
    requires DistinctKeys(js) && Holds(m, js)
    ensures JsonKey(j) in m <==> !DistinctKeys(js + [j])
    ensures JsonKey(j) !in m ==> Holds(m[JsonKey(j) := ToPrefix(j)], js + [j])
  {
    hide JsonKey, ToPrefix;
    var ks := js + [j];
    assert ks[|js|] == j && forall i | 0 <= i < |js| :: ks[i] == js[i];
    if JsonKey(j) !in m {
      var m' := m[JsonKey(j) := ToPrefix(j)];
      forall k ensures k in m' <==> exists i :: 0 <= i < |ks| && JsonKey(ks[i]) == k {
        if k in m {
          var i :| 0 <= i < |js| && JsonKey(js[i]) == k;
          assert JsonKey(ks[i]) == k;
        }
      }
    }
  }

  lemma HoldsCurrent(m: Contents, js: seq<PrefixJson>)
    requires Holds(m, js)
    ensures forall k | k in m :: Current(m[k])
  {
    forall k | k in m ensures Current(m[k]) {
      var i :| 0 <= i < |js| && JsonKey(js[i]) == k;
      assert m[JsonKey(js[i])] == ToPrefix(js[i]);
    }
  }

  /** The store holds the records before the first repeated key, which stands at `i`. */
  ghost predicate StopsAt(m: Contents, js: seq<PrefixJson>, i: nat) {
    i < |js| && DistinctKeys(js[..i]) && !DistinctKeys(js[..i + 1]) && Holds(m, js[..i])
  }

  ghost predicate StoppedAtRepeat(m: Contents, js: seq<PrefixJson>) {
    exists i :: StopsAt(m, js, i)
  }

  /** Loading needs an empty store, and fails part way at the first key that occurs twice. */
  method Load(store: Store, js: seq<PrefixJson>) returns (res: Result<()>)
    modifies store
    ensures res.Ok? <==> old(store.prefixes) == map[] && DistinctKeys(js)
    ensures res.Ok? ==> Holds(store.prefixes, js)
    ensures res.Ok? ==> forall k | k in store.prefixes :: Current(store.prefixes[k])
    ensures old(store.prefixes) != map[] ==> store.prefixes == old(store.prefixes)
    ensures old(store.prefixes) == map[] && res.Err? ==> StoppedAtRepeat(store.prefixes, js)
  {
    if store.prefixes != map[] {
      return Err(Rejected);
    }
    store.DeleteAllPrefixes();
    for i := 0 to |js|
      invariant DistinctKeys(js[..i]) && Holds(store.prefixes, js[..i])
    {
      HoldsStep(store.prefixes, js[..i], js[i]);
      assert js[..i + 1] == js[..i] + [js[i]];
      hide Holds;
      var created := store.CreatePrefix(ToPrefix(js[i]));
      if created.Err? {
        assert !DistinctKeys(js[..i + 1]);
        assert StopsAt(store.prefixes, js, i);
        return Err(created.error);
      }
    }
    assert js[..|js|] == js;
    HoldsCurrent(store.prefixes, js);
    return Ok(());
  }

  /** Dumping one store and loading into an empty one never fails, whatever the iteration order, and
      copies the store exactly when no record is waiting for the legacy migration. */
  method CopyStore(source: Store, target: Store) returns (res: Result<()>)
    requires Keyed(source.prefixes) && target.prefixes == map[] && source != target
    modifies target
    ensures res.Ok?
    ensures target.prefixes.Keys == source.prefixes.Keys
    ensures forall k | k in source.prefixes :: KeptButMarked(source.prefixes[k], target.prefixes[k])
    ensures target.prefixes == source.prefixes <==> forall k | k in source.prefixes :: Current(source.prefixes[k])
  {
    var js := Dump(source);
    res := Load(target, js);
    forall k ensures k in target.prefixes <==> k in source.prefixes {
      if k in source.prefixes {
        var i :| 0 <= i < |js| && js[i] == ToPrefixJson(source.prefixes[k]);
        assert JsonKey(js[i]) == k;
      }
    }
    forall k | k in source.prefixes
      ensures target.prefixes[k] == Migrated(source.prefixes[k])
      ensures KeptButMarked(source.prefixes[k], target.prefixes[k])
    {
      TransferMigrates(source.prefixes[k]);
      var i :| 0 <= i < |js| && js[i] == ToPrefixJson(source.prefixes[k]);
      assert target.prefixes[JsonKey(js[i])] == ToPrefix(js[i]);
    }
    assert forall k | k in source.prefixes :: Migrated(source.prefixes[k]) == source.prefixes[k] <==>
             Current(source.prefixes[k]);
  }

  /** A dump taken after any run that started on an empty store, loaded elsewhere, is an exact copy. */
  method BackUp(m: Ipamer, ops: seq<Op>, target: Store) returns (res: Result<()>)
    requires m.storage.prefixes == map[] && target.prefixes == map[] && m.storage != target
    requires forall i | 0 <= i < |ops| :: WellFormed(ops[i])
    modifies m.storage, target
    ensures res.Ok? && target.prefixes == m.storage.prefixes
    ensures IsForest(View(target.prefixes, m.namespace))
  {
    hide IsForest, WellFormed;
    var states := Run(m, ops);
    assert IsForest(states[|ops|]);
    ghost var all := m.storage.prefixes;
    forall k | k in all ensures Current(all[k]) {
      assert k.namespace != m.namespace ==> View(all, k.namespace) == View(map[], k.namespace);
      assert k.cidr in View(all, k.namespace);
      StoredIsCurrent(m.Mine(), k.cidr);
    }
    res := CopyStore(m.storage, target);
  }

  lemma StoredIsCurrent(s: Stored, c: Cidr)
    requires IsForest(s) && c in s
    ensures Current(s[c])
  {
  }
}
