/** The capacity report of a parent prefix against what callers can really acquire. */
module Capacity {
  import opened Options
  import opened Cidrs
  import opened Records
  import opened FreeSpace
  import opened Forest
  import opened Ipam

  /** Counts are reported up to the largest signed 32-bit number. */
  const CAP := 0x7FFF_FFFF

  newtype uint64 = x: int | 0 <= x < 0x1_0000_0000_0000_0000

  /** Only prefixes that leave two host bits are usable as smallest prefixes. */
  function MaxBits(f: Family): (n: nat)
    ensures f.V4? ==> n == 30
    ensures f.V6? ==> n == 126
  {
    Width(f) - 2
  }

  function Capped(n: nat): (m: nat) {
    if n < CAP then n else CAP
  }

  // ---- What can be acquired ----

  /** The free networks of one length. */
  ghost function FreeBlocks(r: Record, bits: nat): (s: set<Cidr>)
    requires RecordOk(r) && r.cidr.bits <= bits <= Width(r.cidr.family)
    ensures forall c :: c in s <==> FreeNetwork(r, c) && c.bits == bits
  {
    var s := set i | 0 <= i < Pow2(bits - r.cidr.bits) && FreeNetwork(r, BlockAt(r.cidr, bits, i))
                   :: BlockAt(r.cidr, bits, i);
    assert forall c :: c in s <==> FreeNetwork(r, c) && c.bits == bits by {
      forall c | FreeNetwork(r, c) && c.bits == bits ensures c in s {
        var i := BlockIndex(r.cidr, c);
      }
    }
    s
  }

  /** Acquiring a block removes it, and nothing else, from the free blocks of its length. */
  lemma AcquireRemovesOne(r: Record, c: Cidr, r': Record)
    requires RecordOk(r) && RecordOk(r') && r' == TakeChild(r, c).(version := r'.version)
    requires r.cidr.bits <= c.bits && FreeNetwork(r, c)
    ensures FreeBlocks(r', c.bits) == FreeBlocks(r, c.bits) - {c}
    ensures c in FreeBlocks(r, c.bits)
  {
    TakenAfterTake(r, c);
    assert Taken(r') == Taken(r) + {c};
    CoversReflexive(c);
    forall d ensures d in FreeBlocks(r', c.bits) <==> d in FreeBlocks(r, c.bits) && d != c {
      if FreeNetwork(r, d) && d.bits == c.bits && d != c {
        assert !Covers(c, d) && !Covers(d, c);
      }
    }
  }

  /** How many blocks of `bits` can be acquired one after the other. A request is refused for a parent
      that holds addresses or is itself no longer than the request. */
  ghost function Acquirable(r: Record, bits: nat): (n: nat)
    requires RecordOk(r) && bits <= Width(r.cidr.family)
  {
    if r.cidr.bits < bits && !HasIps(r) then |FreeBlocks(r, bits)| else 0
  }

  lemma GrantIffAcquirable(r: Record, bits: nat)
    requires RecordOk(r) && bits <= Width(r.cidr.family)
    ensures Acquirable(r, bits) > 0 <==> !HasIps(r) && exists c :: Grantable(r, None, bits, c)
  {
    hide RecordOk, FreeNetwork, HasIps;
    if r.cidr.bits < bits {
      assert forall c :: c in FreeBlocks(r, bits) <==> Grantable(r, None, bits, c);
      assert FreeBlocks(r, bits) == {} <==> !exists c :: Grantable(r, None, bits, c);
    }
  }

  /** One request: it fails exactly when nothing is acquirable, and takes one block otherwise. */
  method AcquireOne(m: Ipamer, parent: Cidr, bits: nat) returns (ok: bool)
    requires m.Valid() && IsNetwork(parent) && parent in m.Mine() && bits <= Width(parent.family)
    requires RecordOk(m.Mine()[parent]) && m.Mine()[parent].cidr == parent
    modifies m.storage
    ensures m.Valid() && parent in m.Mine()
    ensures RecordOk(m.Mine()[parent]) && m.Mine()[parent].cidr == parent
    ensures ok <==> Acquirable(old(m.Mine()[parent]), bits) > 0
    ensures !ok ==> m.Mine() == old(m.Mine())
    ensures ok ==> Acquirable(m.Mine()[parent], bits) == Acquirable(old(m.Mine()[parent]), bits) - 1
  {
    hide IsForest, RecordOk, FreeNetwork, HasIps;
    ghost var r := m.Mine()[parent];
    GrantIffAcquirable(r, bits);
    var res := m.AcquireChild(parent, None, bits);
    ok := res.Ok?;
    if ok {
      RecordOf(m.Mine(), parent);
      AcquireRemovesOne(r, res.value.cidr, m.Mine()[parent]);
      SameHasIps(r, m.Mine()[parent]);
    }
  }

  /** Keep acquiring blocks of `bits` until the first failure, and count the successes. */
  method AcquireAll(m: Ipamer, parent: Cidr, bits: nat) returns (n: nat)
    requires m.Valid() && IsNetwork(parent) && parent in m.Mine() && bits <= Width(parent.family)
    modifies m.storage
    ensures m.Valid() && parent in m.Mine()
    ensures RecordOk(old(m.Mine()[parent])) && old(m.Mine()[parent]).cidr == parent
    ensures n == Acquirable(old(m.Mine()[parent]), bits)
  {
    hide IsForest, RecordOk, Acquirable;
    ghost var r0 := m.Mine()[parent];
    RecordOf(m.Mine(), parent);
    n := 0;
    var ok := true;
    while ok
      invariant m.Valid() && parent in m.Mine()
      invariant RecordOk(m.Mine()[parent]) && m.Mine()[parent].cidr == parent
      invariant n + Acquirable(m.Mine()[parent], bits) == Acquirable(r0, bits)
      invariant !ok ==> Acquirable(m.Mine()[parent], bits) == 0
      decreases ok, Acquirable(m.Mine()[parent], bits)
    {
      ok := AcquireOne(m, parent, bits);
      if ok {
        n := n + 1;
      }
    }
  }

  lemma RecordOf(s: Stored, c: Cidr)
    requires IsForest(s) && c in s
    ensures RecordOk(s[c]) && s[c].cidr == c
  {
  }

  // ---- What is reported ----

  /** A free network that no larger free network covers: what the IP-set library lists. */
  ghost predicate MaximalFree(r: Record, c: Cidr) {
    FreeNetwork(r, c) && forall d | FreeNetwork(r, d) && Covers(d, c) :: d == c
  }

  ghost predicate ListsMaximal(r: Record, ps: seq<Cidr>) {
    && (forall c :: c in ps <==> MaximalFree(r, c))
    && (forall i, j | 0 <= i < j < |ps| :: ps[i] != ps[j])
  }

  /** How many blocks of `bits` a listed prefix contributes. */
  function Weight(p: Cidr, bits: nat): (n: nat) {
    if p.bits <= bits then Pow2(bits - p.bits) else 0
  }

  function Total(ps: seq<Cidr>, bits: nat): (n: nat) {
    if ps == [] then 0 else Total(ps[..|ps| - 1], bits) + Weight(ps[|ps| - 1], bits)
  }

  /** The listed prefixes that are large enough to hold a smallest prefix, in the listed order. */
  function Usable(ps: seq<Cidr>, bits: nat): (us: seq<Cidr>)
    ensures forall c :: c in us <==> c in ps && c.bits <= bits
  {
    if ps == [] then []
    else
      var last := ps[|ps| - 1];
      assert ps == ps[..|ps| - 1] + [last];
      Usable(ps[..|ps| - 1], bits) + (if last.bits <= bits then [last] else [])
  }

  /** The report: a running sum that stops at the cap, over the listed maximal prefixes. */
  method AvailablePrefixes(r: Record, ps: seq<Cidr>) returns (total: uint64, usable: seq<Cidr>)
    requires RecordOk(r)
    ensures total as int == Capped(Total(ps, MaxBits(r.cidr.family)))
    ensures usable == Usable(ps, MaxBits(r.cidr.family))
  {
    var maxBits := MaxBits(r.cidr.family);
    total, usable := 0, [];
    for i := 0 to |ps|
      invariant total as int == Capped(Total(ps[..i], maxBits))
      invariant usable == Usable(ps[..i], maxBits)
    {
      assert ps[..i + 1][..i] == ps[..i] && ps[..i + 1][i] == ps[i];
      if ps[i].bits > maxBits {
        continue;
      }
      var bits := maxBits - ps[i].bits;
      CapShift(bits);
      if bits >= 31 {
        total := CAP as uint64;
      } else {
        var sum := total + Pow2(bits) as uint64;
        total := if sum < CAP as uint64 then sum else CAP as uint64;
      }
      usable := usable + [ps[i]];
    }
    assert ps[..|ps|] == ps;
  }

  lemma {:induction false} Pow2Monotone(m: nat, n: nat)
    requires m <= n
    ensures Pow2(m) <= Pow2(n)
  {
    if m < n {
      Pow2Monotone(m, n - 1);
    }
  }

  lemma CapShift(bits: nat)
    ensures bits >= 31 ==> Pow2(bits) > CAP
    ensures bits < 31 ==> Pow2(bits) <= CAP
  {
    assert Pow2(4) == 16 && Pow2(7) == 128;
    Pow2Add(4, 4);
    Pow2Add(8, 8);
    Pow2Add(16, 8);
    Pow2Add(24, 7);
    if bits >= 31 {
      Pow2Monotone(31, bits);
    } else {
      Pow2Monotone(bits, 30);
      assert Pow2(30) <= CAP;
    }
  }

  // ---- The two agree ----

  ghost function BlocksIn(p: Cidr, bits: nat, n: nat): (s: set<Cidr>)
    requires p.bits <= bits <= Width(p.family)
  {
    set i | 0 <= i < n :: BlockAt(p, bits, i)
  }

  lemma {:induction false} CountBlocks(p: Cidr, bits: nat, n: nat)
    requires p.bits <= bits <= Width(p.family)
    ensures |BlocksIn(p, bits, n)| == n
  {
    if n > 0 {
      CountBlocks(p, bits, n - 1);
      var last := BlockAt(p, bits, n - 1);
      assert last !in BlocksIn(p, bits, n - 1) by {
        forall i | 0 <= i < n - 1 ensures BlockAt(p, bits, i) != last {
          BlockAtInjective(p, bits, i, n - 1);
        }
      }
      assert BlocksIn(p, bits, n) == BlocksIn(p, bits, n - 1) + {last};
    }
  }

  /** The networks of `bits` that a listed prefix covers. */
  ghost function Under(p: Cidr, bits: nat): (s: set<Cidr>)
    requires IsNetwork(p) && bits <= Width(p.family)
    ensures |s| == Weight(p, bits)
    ensures forall c :: c in s <==> IsNetwork(c) && c.bits == bits && Covers(p, c)
  {
    if p.bits <= bits then
      var s := BlocksIn(p, bits, Pow2(bits - p.bits));
      CountBlocks(p, bits, Pow2(bits - p.bits));
      assert forall c :: c in s <==> IsNetwork(c) && c.bits == bits && Covers(p, c) by {
        forall i | 0 <= i < Pow2(bits - p.bits)
          ensures IsNetwork(BlockAt(p, bits, i)) && Covers(p, BlockAt(p, bits, i))
        {
          BlockAtIsNetwork(p, bits, i);
        }
        forall c | IsNetwork(c) && c.bits == bits && Covers(p, c) ensures c in s {
          var i := BlockIndex(p, c);
        }
      }
      s
    else
      {}
  }

  ghost predicate Separate(ps: seq<Cidr>, f: Family) {
    && (forall i | 0 <= i < |ps| :: IsNetwork(ps[i]) && ps[i].family == f)
    && (forall i, j | 0 <= i < j < |ps| :: !Covers(ps[i], ps[j]) && !Covers(ps[j], ps[i]))
  }

  /** Some listed prefix covers `c`. */
  ghost predicate CoveredBySome(ps: seq<Cidr>, c: Cidr) {
    exists i :: 0 <= i < |ps| && Covers(ps[i], c)
  }

  lemma CoveredStep(ps: seq<Cidr>, c: Cidr)
    requires ps != []
    ensures CoveredBySome(ps, c) <==> CoveredBySome(ps[..|ps| - 1], c) || Covers(ps[|ps| - 1], c)
  {
    hide Covers;
    var n := |ps| - 1;
    if i :| 0 <= i < |ps| && Covers(ps[i], c) {
      assert i < n ==> ps[..n][i] == ps[i];
    }
    if i :| 0 <= i < n && Covers(ps[..n][i], c) {
      assert Covers(ps[i], c);
    }
  }

  /** No network lies under two separate prefixes. */
  lemma CoveredOnce(ps: seq<Cidr>, f: Family, c: Cidr)
    requires Separate(ps, f) && ps != [] && Covers(ps[|ps| - 1], c)
    ensures !CoveredBySome(ps[..|ps| - 1], c)
  {
    var n := |ps| - 1;
    forall i | 0 <= i < n ensures !Covers(ps[..n][i], c) {
      if Covers(ps[i], c) {
        if ps[i].bits <= ps[n].bits { CoversLinear(ps[i], ps[n], c); } else { CoversLinear(ps[n], ps[i], c); }
      }
    }
  }

  /** The total weight of separate prefixes counts the blocks under them. */
  lemma {:induction false} TotalCounts(ps: seq<Cidr>, f: Family, bits: nat) returns (s: set<Cidr>)
    requires Separate(ps, f) && bits <= Width(f)
    ensures |s| == Total(ps, bits)
    ensures forall c :: c in s <==> IsNetwork(c) && c.bits == bits && CoveredBySome(ps, c)
  {
    if ps == [] {
      s := {};
    } else {
      var n := |ps| - 1;
      var before := TotalCounts(ps[..n], f, bits);
      var last := Under(ps[n], bits);
      hide Covers, IsNetwork, CoveredBySome, Weight;
      s := before + last;
      forall c ensures c in s <==> IsNetwork(c) && c.bits == bits && CoveredBySome(ps, c) {
        CoveredStep(ps, c);
      }
      forall c | c in last ensures c !in before {
        CoveredOnce(ps, f, c);
      }
      assert before * last == {};
    }
  }

  lemma FreeBelow(r: Record, p: Cidr, c: Cidr)
    requires RecordOk(r) && FreeNetwork(r, p) && IsNetwork(c) && Covers(p, c)
    ensures FreeNetwork(r, c)
  {
    CoversTransitive(r.cidr, p, c);
    forall k | k in Taken(r) ensures !Covers(k, c) && !Covers(c, k) {
      if Covers(k, c) {
        if k.bits <= p.bits { CoversLinear(k, p, c); } else { CoversLinear(p, k, c); }
      }
      if Covers(c, k) {
        CoversTransitive(p, c, k);
      }
    }
  }

  lemma {:induction false} MaximalAbove(r: Record, c: Cidr) returns (m: Cidr)
    requires FreeNetwork(r, c)
    ensures MaximalFree(r, m) && Covers(m, c)
    decreases c.bits
  {
    CoversReflexive(c);
    if MaximalFree(r, c) {
      m := c;
    } else {
      var d :| FreeNetwork(r, d) && Covers(d, c) && d != c;
      CoversAntisymmetric(d, c);
      m := MaximalAbove(r, d);
      CoversTransitive(m, d, c);
    }
  }

  lemma MaximalSeparate(r: Record, ps: seq<Cidr>)
    requires RecordOk(r) && ListsMaximal(r, ps)
    ensures Separate(ps, r.cidr.family)
  {
    forall i | 0 <= i < |ps| ensures MaximalFree(r, ps[i]) {
      assert ps[i] in ps;
    }
  }

  /** The summed weights of the listed prefixes are the number of free blocks. */
  lemma TotalIsFreeCount(r: Record, ps: seq<Cidr>, bits: nat)
    requires RecordOk(r) && ListsMaximal(r, ps) && r.cidr.bits <= bits <= Width(r.cidr.family)
    ensures Total(ps, bits) == |FreeBlocks(r, bits)|
  {
    MaximalSeparate(r, ps);
    var s := TotalCounts(ps, r.cidr.family, bits);
    forall c ensures c in s <==> c in FreeBlocks(r, bits) {
      if c in s {
        assert CoveredBySome(ps, c);
        var i :| 0 <= i < |ps| && Covers(ps[i], c);
        assert ps[i] in ps;
        FreeBelow(r, ps[i], c);
      }
      if c in FreeBlocks(r, bits) {
        var m := MaximalAbove(r, c);
        var i :| 0 <= i < |ps| && ps[i] == m;
      }
    }
    assert s == FreeBlocks(r, bits);
  }

  // ---- Exactly when the report is right ----

  lemma {:induction false} TotalOfLonger(ps: seq<Cidr>, bits: nat)
    requires forall i | 0 <= i < |ps| :: ps[i].bits > bits
    ensures Total(ps, bits) == 0
  {
    if ps != [] {
      TotalOfLonger(ps[..|ps| - 1], bits);
    }
  }

  lemma WholePrefixFree(r: Record)
    requires RecordOk(r)
    ensures FreeNetwork(r, r.cidr) <==> Taken(r) == {}
  {
    CoversReflexive(r.cidr);
    if Taken(r) != {} {
      var k :| k in Taken(r);
    }
  }

  /** The parents whose report is right. */
  predicate Reportable(r: Record) {
    && (r.cidr.bits < MaxBits(r.cidr.family) ==> !HasIps(r))
    && (r.cidr.bits == MaxBits(r.cidr.family) ==> Taken(r) != {})
  }

  /** An empty prefix over-reports when it holds addresses or is itself a smallest prefix; otherwise
      the report is exact. */
  lemma ReportExactIff(r: Record, ps: seq<Cidr>)
    requires RecordOk(r) && ListsMaximal(r, ps)
    ensures Capped(Total(ps, MaxBits(r.cidr.family))) == Capped(Acquirable(r, MaxBits(r.cidr.family)))
            <==> Reportable(r)
  {
    var max := MaxBits(r.cidr.family);
    WholePrefixFree(r);
    if r.cidr.bits > max {
      forall i | 0 <= i < |ps| ensures ps[i].bits > max {
        assert ps[i] in ps;
      }
      TotalOfLonger(ps, max);
    } else {
      TotalIsFreeCount(r, ps, max);
      if r.cidr.bits == max {
        assert FreeBlocks(r, max) == if Taken(r) == {} then {r.cidr} else {};
      } else if HasIps(r) {
        BlockAtIsNetwork(r.cidr, max, 0);
        assert BlockAt(r.cidr, max, 0) in FreeBlocks(r, max);
      }
    }
  }

  /** The report against the requests themselves: it equals the capped number of smallest prefixes that
      a caller acquires before the first refusal exactly for a reportable parent. */
  method ReportIsExact(m: Ipamer, parent: Cidr, ps: seq<Cidr>) returns (reported: uint64, acquired: nat)
    requires m.Valid() && IsNetwork(parent) && parent in m.Mine() && ListsMaximal(m.Mine()[parent], ps)
    modifies m.storage
    ensures reported as int == Capped(acquired) <==> Reportable(old(m.Mine()[parent]))
  {
    hide IsForest, RecordOk, ListsMaximal, Reportable, Acquirable;
    RecordOf(m.Mine(), parent);
    var r := m.storage.ReadPrefix(parent, m.namespace);
    ReportExactIff(r.value, ps);
    var usable;
    reported, usable := AvailablePrefixes(r.value, ps);
    acquired := AcquireAll(m, parent, MaxBits(parent.family));
  }

  /** A prefix with one address taken and no child: all its smallest prefixes are reported, and none
      can be acquired. */
  lemma OverReports(c: Cidr, a: Addr)
    requires IsNetwork(c) && c.bits < MaxBits(c.family) && Contains(c, a) && a !in ReservedAddrs(c)
    ensures var r := TakeIp(NewRecord(c, None, ""), a);
            && RecordOk(r) && ListsMaximal(r, [c])
            && Total([c], MaxBits(c.family)) == Pow2(MaxBits(c.family) - c.bits)
            && Acquirable(r, MaxBits(c.family)) == 0
  {
    var r := TakeIp(NewRecord(c, None, ""), a);
    NewRecordOk(c, None, "");
    TakeIpOk(NewRecord(c, None, ""), a);
    HasIpsExact(r);
    CoversReflexive(c);
    forall d | IsNetwork(d) && Covers(c, d) && d != c ensures !Covers(d, c) {
      CoversAntisymmetric(c, d);
    }
    assert [c][..0] == [];
  }

  /** 0.0.0.0/24 with 0.0.0.1 taken: 64 are reported. */
  lemma OverReportsHere()
    ensures var c := Cidr(V4, 0, 24);
            var r := TakeIp(NewRecord(c, None, ""), Addr(V4, 1));
            Total([c], MaxBits(V4)) == 64 && RecordOk(r) && Acquirable(r, MaxBits(V4)) == 0
  {
    var c := Cidr(V4, 0, 24);
    OverReports(c, Addr(V4, 1));
  }

  /** ::/120 with ::1 taken: 64 are reported too. */
  lemma OverReportsHere6()
    ensures var c := Cidr(V6, 0, 120);
            var r := TakeIp(NewRecord(c, None, ""), Addr(V6, 1));
            Total([c], MaxBits(V6)) == 64 && RecordOk(r) && Acquirable(r, MaxBits(V6)) == 0
  {
    var c := Cidr(V6, 0, 120);
    OverReports(c, Addr(V6, 1));
  }
}
