/** The in-memory record store: a map updated in place, with a version test before each update. */
module Memory {
  import opened Options
  import opened Cidrs
  import opened Records
  import opened Forest

  datatype Key = Key(cidr: Cidr, namespace: string)

  datatype Error = NotFound | NoIpAvailable | AlreadyAllocated | OptimisticLock | Rejected

  datatype Result<+T> = Ok(value: T) | Err(error: Error)

  type Contents = map<Key, Record>

  predicate Keyed(m: Contents) {
    forall k | k in m :: m[k].cidr == k.cidr && m[k].namespace == k.namespace
  }

  function KeyOf(r: Record): (k: Key) {
    Key(r.cidr, r.namespace)
  }

  function CidrsOf(m: Contents, namespace: string): (s: set<Cidr>)
    ensures forall c :: c in s <==> Key(c, namespace) in m
  {
    set k | k in m && k.namespace == namespace :: k.cidr
  }

  /** The records of one namespace. */
  function View(m: Contents, namespace: string): (s: Stored) {
    map c | c in CidrsOf(m, namespace) :: m[Key(c, namespace)]
  }

  /** The compare-and-swap as a function of the contents. */
  function AfterUpdate(m: Contents, r: Record): (m': Contents) {
    if KeyOf(r) in m && m[KeyOf(r)].version == r.version then m[KeyOf(r) := r.(version := r.version + 1)] else m
  }

  lemma ViewAfterPut(m: Contents, r: Record)
    ensures View(m[KeyOf(r) := r], r.namespace) == View(m, r.namespace)[r.cidr := r]
    ensures forall n | n != r.namespace :: View(m[KeyOf(r) := r], n) == View(m, n)
  {
  }

  lemma ViewAfterDrop(m: Contents, k: Key)
    ensures View(m - {k}, k.namespace) == View(m, k.namespace) - {k.cidr}
    ensures forall n | n != k.namespace :: View(m - {k}, n) == View(m, n)
  {
  }

  class Store {
    var prefixes: Contents

    constructor ()
      ensures prefixes == map[]
    {
      prefixes := map[];
    }

    method CreatePrefix(r: Record) returns (res: Result<Record>)
      modifies this
      ensures res.Ok? <==> KeyOf(r) !in old(prefixes)
      ensures res.Ok? ==> res.value == r
      ensures prefixes == if res.Ok? then old(prefixes)[KeyOf(r) := r] else old(prefixes)
    {
      if KeyOf(r) in prefixes {
        return Err(Rejected);
      }
      prefixes := prefixes[KeyOf(r) := r];
      return Ok(r);
    }

    method ReadPrefix(c: Cidr, namespace: string) returns (res: Option<Record>)
      ensures res == if Key(c, namespace) in prefixes then Some(prefixes[Key(c, namespace)]) else None
    {
      if Key(c, namespace) in prefixes {
        return Some(prefixes[Key(c, namespace)]);
      }
      return None;
    }

    /** Compare-and-swap on the version: the write happens only if nobody wrote since `r` was read. */
    method UpdatePrefix(r: Record) returns (res: Result<Record>)
      modifies this
      ensures res.Ok? <==> KeyOf(r) in old(prefixes) && old(prefixes)[KeyOf(r)].version == r.version
      ensures res.Ok? ==> res.value == r.(version := r.version + 1)
      ensures res.Err? ==> res.error == if KeyOf(r) in old(prefixes) then OptimisticLock else Rejected
      ensures prefixes == AfterUpdate(old(prefixes), r)
    {
      if KeyOf(r) !in prefixes {
        return Err(Rejected);
      }
      if prefixes[KeyOf(r)].version != r.version {
        return Err(OptimisticLock);
      }
      var next := r.(version := r.version + 1);
      prefixes := prefixes[KeyOf(r) := next];
      return Ok(next);
    }

    method DeletePrefix(r: Record)
      modifies this
      ensures prefixes == old(prefixes) - {KeyOf(r)}
    {
      prefixes := prefixes - {KeyOf(r)};
    }

    method DeleteAllPrefixes()
      modifies this
      ensures prefixes == map[]
    {
      prefixes := map[];
    }

    /** Every record of every namespace, in the map's iteration order. */
    method ReadAllPrefixes() returns (ps: seq<Record>)
      requires Keyed(prefixes)
      ensures Enumerates(ps, prefixes)
    {
      ps := [];
      ghost var seen: set<Key> := {};
      var left := prefixes.Keys;
      while left != {}
        invariant left <= prefixes.Keys && seen == prefixes.Keys - left
        invariant forall i | 0 <= i < |ps| :: KeyOf(ps[i]) in seen && prefixes[KeyOf(ps[i])] == ps[i]
        invariant forall k | k in seen :: prefixes[k] in ps
        invariant forall i, j | 0 <= i < j < |ps| :: KeyOf(ps[i]) != KeyOf(ps[j])
        decreases left
      {
        var k :| k in left;
        ps := ps + [prefixes[k]];
        assert ps[|ps| - 1] == prefixes[k];
        seen := seen + {k};
        left := left - {k};
      }
    }

    method ReadAllPrefixCidrs(namespace: string) returns (cs: seq<Cidr>)
      ensures forall c :: c in cs <==> Key(c, namespace) in prefixes
      ensures forall i, j | 0 <= i < j < |cs| :: cs[i] != cs[j]
    {
      cs := [];
      var left := prefixes.Keys;
      while left != {}
        invariant left <= prefixes.Keys
        invariant forall c :: c in cs <==> Key(c, namespace) in prefixes && Key(c, namespace) !in left
        invariant forall i, j | 0 <= i < j < |cs| :: cs[i] != cs[j]
        decreases left
      {
        var k :| k in left;
        if k.namespace == namespace {
          cs := cs + [k.cidr];
        }
        left := left - {k};
      }
    }
  }

  /** `ps` lists the values of `m`, each once, in some order. */
  predicate Enumerates(ps: seq<Record>, m: Contents) {
    && (forall i | 0 <= i < |ps| :: KeyOf(ps[i]) in m && m[KeyOf(ps[i])] == ps[i])
    && (forall k | k in m :: m[k] in ps)
    && (forall i, j | 0 <= i < j < |ps| :: KeyOf(ps[i]) != KeyOf(ps[j]))
  }
}
