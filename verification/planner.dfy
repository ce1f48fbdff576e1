/** Planning the network interfaces of an instance over VPC prefixes: physical functions on the
    machine's Mellanox devices, virtual functions spread over them in equal chunks. */
module Planner {
  import opened Options
  import opened Ascii
  import opened Naturals

  type Id = string

  datatype Pci = Pci(vendor: string, device: string)

  datatype Nic = Nic(pci: Option<Pci>)

  /** The request fields this branch reads. */
  datatype Request = Request(
    pfPrefixes: seq<Id>,
    vfPrefixes: seq<Id>,
    pfIps: seq<string>,
    vfIps: seq<string>,
    pfPrefixes6: seq<Id>,
    vfPrefixes6: seq<Id>,
    pfIps6: seq<string>,
    vfIps6: seq<string>,
    vfSubnets: seq<string>,
    tenant: Option<string>)

  datatype V6 = V6(prefix: Id, ip: Option<string>)

  datatype Interface = Interface(
    virtual: bool,
    prefix: Id,
    device: string,
    instance: nat,
    functionId: Option<nat>,
    ip: Option<string>,
    v6: Option<V6>)

  datatype Plan = Refused | Accepted(interfaces: seq<Interface>, tenant: string)

  // ---- Small tests ----

  function At<T>(s: seq<T>, i: nat): (x: Option<T>) {
    if i < |s| then Some(s[i]) else None
  }

  function V6At(prefixes: seq<Id>, ips: seq<string>, i: nat): (v: Option<V6>) {
    if i < |prefixes| then Some(V6(prefixes[i], At(ips, i))) else None
  }

  predicate Usable(n: Nic) {
    && n.pci.Some?
    && exists i :: 0 <= i <= |n.pci.value.vendor| && "mellanox" <= Lower(n.pci.value.vendor)[i..]
  }

  function UsableDevice(n: Nic): (d: string)
    requires Usable(n)
  {
    n.pci.value.device
  }

  /** The devices of the Mellanox NICs, in order. */
  function Devices(nics: seq<Nic>): (ds: seq<string>) {
    if nics == [] then []
    else
      var n := nics[|nics| - 1];
      Devices(nics[..|nics| - 1]) + (if Usable(n) then [UsableDevice(n)] else [])
  }

  function VfsPerPf(req: Request): (n: nat)
    requires req.pfPrefixes != []
    ensures n >= 1
  {
    var p, v := |req.pfPrefixes|, |req.vfPrefixes|;
    if v < p then 1 else Quotient(v, p)
  }

  function Quotient(v: nat, p: nat): (q: nat)
    requires 1 <= p <= v
    ensures q >= 1 && q * p <= v < (q + 1) * p
  {
    v / p
  }

  // ---- What the plan should be, index by index ----

  /** How often `d` occurs among the first `n` devices. */
  function Occurrences(ds: seq<string>, n: nat, d: string): (k: nat)
    requires n <= |ds|
  {
    if n == 0 then 0 else Occurrences(ds, n - 1, d) + (if ds[n - 1] == d then 1 else 0)
  }

  /** Physical function `j`: prefix, address and IPv6 entry `j` on device `j`, numbered among equal devices. */
  function PfAt(req: Request, ds: seq<string>, j: nat): (f: Interface)
    requires j < |req.pfPrefixes| && j < |ds|
  {
    Interface(false, req.pfPrefixes[j], ds[j], Occurrences(ds, j, ds[j]), None,
              At(req.pfIps, j), V6At(req.pfPrefixes6, req.pfIps6, j))
  }

  /** Virtual function `i`: prefix, address, IPv6 entry and function id `i`, on physical function `j`. */
  function VfOn(req: Request, ds: seq<string>, i: nat, j: nat): (f: Interface)
    requires i < |req.vfPrefixes| && j < |ds|
  {
    Interface(true, req.vfPrefixes[i], ds[j], Occurrences(ds, j, ds[j]), Some(i),
              At(req.vfIps, i), V6At(req.vfPrefixes6, req.vfIps6, i))
  }

  /** Where physical function `j` stands: after the earlier ones and their chunks. */
  function PfIndex(req: Request, j: nat): (k: nat)
    requires req.pfPrefixes != []
  {
    j + VfsUpTo(req, j)
  }

  /** After `n` physical functions: they are all there, each followed by its virtual functions. */
  ghost predicate Planned(req: Request, ds: seq<string>, fs: seq<Interface>, n: nat, vfs: nat)
    requires req.pfPrefixes != []
  {
    && n <= |req.pfPrefixes| && n <= |ds| && vfs <= |req.vfPrefixes|
    && vfs <= n * VfsPerPf(req)
    && |fs| == n + vfs
    && (forall j: nat | j < n :: PfIndex(req, j) < |fs| && fs[PfIndex(req, j)] == PfAt(req, ds, j))
    && (forall i: nat | i < vfs :: OnItsPf(req, ds, fs, n, i))
  }

  /** Virtual function `i` stands behind the physical function of its chunk, and on its device. */
  ghost predicate OnItsPf(req: Request, ds: seq<string>, fs: seq<Interface>, n: nat, i: nat)
    requires req.pfPrefixes != []
  {
    exists j: nat ::
      && j < n && j < |ds| && i < |req.vfPrefixes| && j * VfsPerPf(req) <= i < (j + 1) * VfsPerPf(req)
      && i + j + 1 < |fs| && fs[i + j + 1] == VfOn(req, ds, i, j)
  }

  /** One chunk of virtual functions for physical function `j`. */
  method PlanChunk(req: Request, ghost ds: seq<string>, fs0: seq<Interface>, j: nat, device: string, instance: nat,
                   vfs0: nat)
    returns (fs: seq<Interface>, vfs: nat)
    requires req.pfPrefixes != [] && j < |ds| && device == ds[j] && instance == Occurrences(ds, j, device)
    requires Planned(req, ds, fs0, j + 1, vfs0)
    requires vfs0 == VfsUpTo(req, j)
    ensures Planned(req, ds, fs, j + 1, vfs) && vfs == VfsUpTo(req, j + 1)
  {
    var per := VfsPerPf(req);
    assert (j + 1) * per == j * per + per;
    var end := if vfs0 + per <= |req.vfPrefixes| then vfs0 + per else |req.vfPrefixes|;
    fs, vfs := fs0, vfs0;
    while vfs < end
      invariant vfs0 <= vfs <= end && Planned(req, ds, fs, j + 1, vfs)
    {
      // the index into the address lists, chunk number times chunk size plus position, is the running function id
      var i := j * per + (vfs - vfs0);
      var f := Interface(true, req.vfPrefixes[vfs], device, instance, Some(vfs),
                         At(req.vfIps, i), V6At(req.vfPrefixes6, req.vfIps6, i));
      assert i == vfs && f == VfOn(req, ds, vfs, j);
      AddVf(req, ds, fs, f, j, vfs);
      fs, vfs := fs + [f], vfs + 1;
    }
  }

  lemma AddVf(req: Request, ds: seq<string>, fs: seq<Interface>, f: Interface, j: nat, vfs: nat)
    requires req.pfPrefixes != [] && j < |ds| && Planned(req, ds, fs, j + 1, vfs) && vfs < |req.vfPrefixes|
    requires j * VfsPerPf(req) <= vfs < (j + 1) * VfsPerPf(req) && f == VfOn(req, ds, vfs, j)
    ensures Planned(req, ds, fs + [f], j + 1, vfs + 1)
  {
    hide VfsPerPf, PfAt, VfOn, PfIndex;
    var fs1, n := fs + [f], j + 1;
    forall i: nat | i < vfs ensures OnItsPf(req, ds, fs1, n, i) {
      StaysOnPf(req, ds, fs, f, j + 1, j + 1, i);
    }
    assert (fs + [f])[vfs + j + 1] == f;
    assert OnItsPf(req, ds, fs + [f], j + 1, vfs);
  }

  lemma StaysOnPf(req: Request, ds: seq<string>, fs: seq<Interface>, f: Interface, n: nat, n': nat, i: nat)
    requires req.pfPrefixes != [] && n <= n' && OnItsPf(req, ds, fs, n, i)
    ensures OnItsPf(req, ds, fs + [f], n', i)
  {
    hide VfsPerPf, VfOn;
    var j: nat :|
      && j < n && j < |ds| && i < |req.vfPrefixes| && j * VfsPerPf(req) <= i < (j + 1) * VfsPerPf(req)
      && i + j + 1 < |fs| && fs[i + j + 1] == VfOn(req, ds, i, j);
    assert (fs + [f])[i + j + 1] == fs[i + j + 1];
  }

  lemma AddPf(req: Request, ds: seq<string>, fs: seq<Interface>, f: Interface, n: nat, vfs: nat)
    requires req.pfPrefixes != [] && Planned(req, ds, fs, n, vfs) && n < |req.pfPrefixes| && n < |ds|
    requires f == PfAt(req, ds, n) && vfs == VfsUpTo(req, n)
    ensures Planned(req, ds, fs + [f], n + 1, vfs)
  {
    assert (n + 1) * VfsPerPf(req) == n * VfsPerPf(req) + VfsPerPf(req);
    hide VfsPerPf, OnItsPf, PfAt;
    var fs1, n1 := fs + [f], n + 1;
    forall i: nat | i < vfs ensures OnItsPf(req, ds, fs1, n1, i) {
      StaysOnPf(req, ds, fs, f, n, n + 1, i);
    }
    assert (fs + [f])[PfIndex(req, n)] == f;
  }

  // ---- The whole request ----

  lemma {:induction false} DevicesPrefix(nics: seq<Nic>, i: nat)
    requires i <= |nics|
    ensures Devices(nics[..i]) <= Devices(nics)
    decreases |nics| - i
  {
    if i < |nics| {
      DevicesPrefix(nics, i + 1);
      assert nics[..i + 1][..i] == nics[..i];
    } else {
      assert nics[..i] == nics;
    }
  }

  /** The per-device counter after `n` physical functions. */
  ghost predicate Counts(counters: map<string, nat>, ds: seq<string>, n: nat)
    requires n <= |ds|
  {
    forall d ::
      && (d in counters <==> Occurrences(ds, n, d) > 0)
      && (d in counters ==> counters[d] == Occurrences(ds, n, d) - 1)
  }

  function Least(a: nat, b: nat): (m: nat) {
    if a <= b then a else b
  }

  /** How many physical functions a machine with this many devices gets. */
  function PfCount(req: Request, devices: nat): (n: nat) {
    Least(devices, |req.pfPrefixes|)
  }

  /** How many virtual functions their chunks take. */
  function VfCount(req: Request, devices: nat): (n: nat)
    requires req.pfPrefixes != []
  {
    VfsUpTo(req, PfCount(req, devices))
  }

  /** How many virtual functions the first `n` chunks take. */
  function VfsUpTo(req: Request, n: nat): (k: nat)
    requires req.pfPrefixes != []
  {
    Least(n * VfsPerPf(req), |req.vfPrefixes|)
  }

  /** One usable NIC: its physical function and its chunk. */
  method PlanPf(req: Request, ghost ds: seq<string>, fs0: seq<Interface>, index: nat, device: string,
                counters0: map<string, nat>, given0: nat)
    returns (fs: seq<Interface>, counters: map<string, nat>, given: nat)
    requires req.pfPrefixes != [] && index < |req.pfPrefixes| && index < |ds| && ds[index] == device
    requires Counts(counters0, ds, index) && given0 == VfsUpTo(req, index) && Planned(req, ds, fs0, index, given0)
    ensures Counts(counters, ds, index + 1) && given == VfsUpTo(req, index + 1)
            && Planned(req, ds, fs, index + 1, given)
  {
    hide Planned, PfAt, Counts, VfsPerPf;
    CountStep(counters0, ds, index, device);
    var instance := if device in counters0 then counters0[device] + 1 else 0;
    counters := counters0[device := instance];
    var pf := Interface(false, req.pfPrefixes[index], device, instance, None,
                        At(req.pfIps, index), V6At(req.pfPrefixes6, req.pfIps6, index));
    PfMatches(req, ds, pf, index);
    AddPf(req, ds, fs0, pf, index, given0);
    fs, given := PlanChunk(req, ds, fs0 + [pf], index, device, instance, given0);
  }

  lemma CountStep(counters: map<string, nat>, ds: seq<string>, n: nat, d: string)
    requires n < |ds| && ds[n] == d && Counts(counters, ds, n)
    ensures var instance := if d in counters then counters[d] + 1 else 0;
            instance == Occurrences(ds, n, d) && Counts(counters[d := instance], ds, n + 1)
  {
  }

  lemma PfMatches(req: Request, ds: seq<string>, f: Interface, j: nat)
    requires j < |req.pfPrefixes| && j < |ds|
    requires f == Interface(false, req.pfPrefixes[j], ds[j], Occurrences(ds, j, ds[j]), None,
                            At(req.pfIps, j), V6At(req.pfPrefixes6, req.pfIps6, j))
    ensures f == PfAt(req, ds, j)
  {
  }

  /** The acceptance condition, in the request's own numbers. */
  predicate Fits(req: Request, devices: nat)
    requires req.pfPrefixes != []
  {
    && devices >= |req.pfPrefixes|
    && (|req.vfPrefixes| < |req.pfPrefixes| || |req.vfPrefixes| % |req.pfPrefixes| == 0)
  }

  /** The count check succeeds exactly when the chunks use up all virtual functions. */
  lemma CountCheck(req: Request, devices: nat)
    requires req.pfPrefixes != []
    ensures PfCount(req, devices) + VfCount(req, devices) == |req.pfPrefixes| + |req.vfPrefixes| <==> Fits(req, devices)
  {
    var p, v := |req.pfPrefixes|, |req.vfPrefixes|;
    if devices >= p && v >= p {
      var q := VfsPerPf(req);
      assert v == q * p + v % p;
      assert p * q == q * p;
    }
  }

  // ---- The plan in the request's and the machine's own terms ----

  /** The vendor contains "mellanox", in any case. */
  ghost predicate Mellanox(n: Nic) {
    && n.pci.Some?
    && exists i: nat :: Reads(n.pci.value.vendor, i, "mellanox")
  }

  /** `word` stands in `s` at `i`, in any case. */
  ghost predicate Reads(s: string, i: nat, word: string) {
    i + |word| <= |s| && forall k | 0 <= k < |word| :: SameLetter(s[i + k], word[k])
  }

  lemma LowerReads(s: string, i: nat, word: string)
    requires i <= |s| && Lower(word) == word
    ensures word <= Lower(s)[i..] <==> Reads(s, i, word)
  {
    if i + |word| <= |s| {
      var t := s[i..i + |word|];
      LowerFolds(t, word);
      assert Lower(s)[i..][..|word|] == Lower(t);
      assert forall k | 0 <= k < |word| :: t[k] == s[i + k];
    }
  }

  lemma UsableIff(n: Nic)
    ensures Usable(n) <==> Mellanox(n)
  {
    if n.pci.Some? {
      var v := n.pci.value.vendor;
      assert Lower("mellanox") == "mellanox";
      forall i: nat | i <= |v| ensures "mellanox" <= Lower(v)[i..] <==> Reads(v, i, "mellanox") {
        LowerReads(v, i, "mellanox");
      }
    }
  }

  /** `at` lists the Mellanox NICs in the machine's order. */
  ghost predicate Positions(nics: seq<Nic>, at: seq<nat>) {
    && (forall j | 0 <= j < |at| :: at[j] < |nics|)
    && (forall j, k | 0 <= j < k < |at| :: at[j] < at[k])
    && (forall i: nat | i < |nics| :: i in at <==> Mellanox(nics[i]))
  }

  lemma {:induction false} DevicesListed(nics: seq<Nic>) returns (at: seq<nat>)
    ensures Positions(nics, at) && |at| == |Devices(nics)|
    ensures forall j | 0 <= j < |at| :: nics[at[j]].pci.Some? && Devices(nics)[j] == nics[at[j]].pci.value.device
  {
    if nics == [] {
      at := [];
    } else {
      hide Usable, Mellanox;
      var n := |nics| - 1;
      var before := DevicesListed(nics[..n]);
      UsableIff(nics[n]);
      at := before + if Usable(nics[n]) then [n] else [];
      PositionsStep(nics, before, at);
      forall j | 0 <= j < |at|
        ensures nics[at[j]].pci.Some? && Devices(nics)[j] == nics[at[j]].pci.value.device
      {
        if j < |before| {
          assert at[j] == before[j] && nics[..n][before[j]] == nics[before[j]];
        } else {
          UsableHasPci(nics[n]);
        }
      }
    }
  }

  lemma UsableHasPci(n: Nic)
    requires Usable(n)
    ensures n.pci.Some? && UsableDevice(n) == n.pci.value.device
  {
  }

  lemma PositionsStep(nics: seq<Nic>, before: seq<nat>, at: seq<nat>)
    requires nics != [] && Positions(nics[..|nics| - 1], before)
    requires at == before + if Mellanox(nics[|nics| - 1]) then [|nics| - 1] else []
    ensures Positions(nics, at)
  {
    hide Mellanox;
    var n := |nics| - 1;
    forall i: nat | i < |nics| ensures i in at <==> Mellanox(nics[i]) {
      if i < n {
        assert nics[..n][i] == nics[i];
      }
    }
  }

  lemma PositionsCount(nics: seq<Nic>, at: seq<nat>)
    requires Positions(nics, at)
    ensures |at| == |set i: nat | i < |nics| && Mellanox(nics[i])|
  {
    hide Mellanox;
    var s := set i: nat | i < |nics| && Mellanox(nics[i]);
    forall i ensures i in s <==> i in at {
    }
    ListedOnce(at, s);
  }

  lemma {:induction false} ListedOnce(at: seq<nat>, s: set<nat>)
    requires forall j, k | 0 <= j < k < |at| :: at[j] < at[k]
    requires forall i :: i in s <==> i in at
    ensures |s| == |at|
  {
    if at == [] {
      assert s == {};
    } else {
      var n := |at| - 1;
      assert at == at[..n] + [at[n]];
      ListedOnce(at[..n], s - {at[n]});
    }
  }

  /** The earlier devices equal to `d`. */
  function Earlier(ds: seq<string>, n: nat, d: string): (s: set<nat>)
    requires n <= |ds|
  {
    set i: nat | i < n && ds[i] == d
  }

  lemma {:induction false} OccurrencesCount(ds: seq<string>, n: nat, d: string)
    requires n <= |ds|
    ensures Occurrences(ds, n, d) == |Earlier(ds, n, d)|
  {
    if n > 0 {
      OccurrencesCount(ds, n - 1, d);
      var last := if ds[n - 1] == d then {n - 1} else {};
      assert Earlier(ds, n, d) == Earlier(ds, n - 1, d) + last;
    } else {
      assert Earlier(ds, 0, d) == {};
    }
  }

  /** The device is that of the `j`-th Mellanox NIC, the number counts the earlier ones with an equal device. */
  ghost predicate OnNic(nics: seq<Nic>, at: seq<nat>, f: Interface, j: nat) {
    && j < |at| && (forall i | 0 <= i <= j :: at[i] < |nics| && nics[at[i]].pci.Some?)
    && f.device == nics[at[j]].pci.value.device
    && f.instance == |set i: nat | i < j && nics[at[i]].pci.value.device == f.device|
  }

  /** The address fields are entry `i` of their lists, or absent beyond the end. */
  predicate Addressed(f: Interface, ips: seq<string>, prefixes6: seq<Id>, ips6: seq<string>, i: nat) {
    && (if i < |ips| then f.ip == Some(ips[i]) else f.ip == None)
    && (if i < |prefixes6| then f.v6.Some? && f.v6.value.prefix == prefixes6[i] else f.v6 == None)
    && (i < |prefixes6| ==> if i < |ips6| then f.v6.value.ip == Some(ips6[i]) else f.v6.value.ip == None)
  }

  /** Physical function `j`. */
  ghost predicate IsPf(req: Request, nics: seq<Nic>, at: seq<nat>, f: Interface, j: nat) {
    && j < |req.pfPrefixes| && !f.virtual && f.prefix == req.pfPrefixes[j] && f.functionId == None
    && OnNic(nics, at, f, j) && Addressed(f, req.pfIps, req.pfPrefixes6, req.pfIps6, j)
  }

  /** Virtual function `i`, on physical function `j`. */
  ghost predicate IsVf(req: Request, nics: seq<Nic>, at: seq<nat>, f: Interface, i: nat, j: nat) {
    && i < |req.vfPrefixes| && f.virtual && f.prefix == req.vfPrefixes[i] && f.functionId == Some(i)
    && OnNic(nics, at, f, j) && Addressed(f, req.vfIps, req.vfPrefixes6, req.vfIps6, i)
  }

  /** How many virtual functions a physical function gets. */
  predicate ChunkSize(req: Request, per: nat) {
    var p, v := |req.pfPrefixes|, |req.vfPrefixes|;
    if v < p then per == 1 else per * p <= v < (per + 1) * p
  }

  /** Physical function `j` stands after `j` earlier ones and their `j` chunks. */
  ghost predicate PfStands(req: Request, nics: seq<Nic>, at: seq<nat>, per: nat, fs: seq<Interface>, j: nat) {
    var k := if j * per <= |req.vfPrefixes| then j + j * per else j + |req.vfPrefixes|;
    k < |fs| && IsPf(req, nics, at, fs[k], j)
  }

  /** Virtual function `i` stands behind the physical function `j` of its chunk. */
  ghost predicate VfStands(req: Request, nics: seq<Nic>, at: seq<nat>, per: nat, fs: seq<Interface>, n: nat, i: nat) {
    exists j: nat ::
      && j < n && j * per <= i < (j + 1) * per
      && i + j + 1 < |fs| && IsVf(req, nics, at, fs[i + j + 1], i, j)
  }

  /** The list of `n` physical and `vfs` virtual functions, position by position. */
  ghost predicate Spelled(req: Request, nics: seq<Nic>, at: seq<nat>, per: nat, fs: seq<Interface>, n: nat, vfs: nat) {
    && Positions(nics, at) && ChunkSize(req, per) && |fs| == n + vfs
    && (forall j: nat | j < n :: PfStands(req, nics, at, per, fs, j))
    && (forall i: nat | i < vfs :: VfStands(req, nics, at, per, fs, n, i))
  }

  /** One physical function per Mellanox NIC, as long as there are prefixes, and as many virtual functions as
      their chunks take. */
  ghost predicate SpelledOver(req: Request, nics: seq<Nic>, at: seq<nat>, per: nat, fs: seq<Interface>) {
    var n := Least(|at|, |req.pfPrefixes|);
    Spelled(req, nics, at, per, fs, n, Least(n * per, |req.vfPrefixes|))
  }

  /** The devices are those of the listed NICs. */
  ghost predicate DevicesAt(nics: seq<Nic>, at: seq<nat>, ds: seq<string>) {
    && |at| == |ds|
    && forall i | 0 <= i < |at| ::
         at[i] < |nics| && nics[at[i]].pci.Some? && ds[i] == nics[at[i]].pci.value.device
  }

  lemma DeviceOnNic(nics: seq<Nic>, at: seq<nat>, ds: seq<string>, f: Interface, j: nat)
    requires DevicesAt(nics, at, ds) && j < |ds|
    requires f.device == ds[j] && f.instance == Occurrences(ds, j, ds[j])
    ensures OnNic(nics, at, f, j)
  {
    OccurrencesCount(ds, j, ds[j]);
    assert Earlier(ds, j, ds[j]) == (set i: nat | i < j && nics[at[i]].pci.value.device == f.device);
  }

  lemma PfSpelled(req: Request, nics: seq<Nic>, at: seq<nat>, ds: seq<string>, j: nat)
    requires DevicesAt(nics, at, ds) && j < |req.pfPrefixes| && j < |ds|
    ensures IsPf(req, nics, at, PfAt(req, ds, j), j)
  {
    hide OnNic, Occurrences, DevicesAt;
    DeviceOnNic(nics, at, ds, PfAt(req, ds, j), j);
  }

  lemma VfSpelled(req: Request, nics: seq<Nic>, at: seq<nat>, ds: seq<string>, i: nat, j: nat)
    requires DevicesAt(nics, at, ds) && i < |req.vfPrefixes| && j < |ds|
    ensures IsVf(req, nics, at, VfOn(req, ds, i, j), i, j)
  {
    hide OnNic, Occurrences, DevicesAt;
    DeviceOnNic(nics, at, ds, VfOn(req, ds, i, j), j);
  }

  /** A plan, read without the functions that computed it. */
  lemma PlanSpelled(req: Request, nics: seq<Nic>, fs: seq<Interface>, n: nat, vfs: nat)
    returns (at: seq<nat>, per: nat)
    requires req.pfPrefixes != [] && Planned(req, Devices(nics), fs, n, vfs)
    ensures Spelled(req, nics, at, per, fs, n, vfs) && |at| == |Devices(nics)| && per == VfsPerPf(req)
  {
    var ds := Devices(nics);
    at := DevicesListed(nics);
    per := VfsPerPf(req);
    assert ChunkSize(req, per) && DevicesAt(nics, at, ds);
    hide Devices, Positions, ChunkSize, VfsPerPf, DevicesAt, IsPf, IsVf, PfAt, VfOn;
    forall j: nat | j < n ensures PfStands(req, nics, at, per, fs, j) {
      PfSpelled(req, nics, at, ds, j);
      assert fs[PfIndex(req, j)] == PfAt(req, ds, j);
    }
    forall i: nat | i < vfs ensures VfStands(req, nics, at, per, fs, n, i) {
      assert OnItsPf(req, ds, fs, n, i);
      var j: nat :| && j < n && j < |ds| && j * per <= i < (j + 1) * per
                    && i + j + 1 < |fs| && fs[i + j + 1] == VfOn(req, ds, i, j);
      VfSpelled(req, nics, at, ds, i, j);
    }
  }

  /** The loop over the machine's NICs. */
  method PlanNics(req: Request, nics: seq<Nic>) returns (fs: seq<Interface>)
    requires req.pfPrefixes != []
    ensures exists at, per :: SpelledOver(req, nics, at, per, fs)
    ensures |fs| == PfCount(req, |Devices(nics)|) + VfCount(req, |Devices(nics)|)
  {
    ghost var ds := Devices(nics);
    var counters: map<string, nat> := map[];
    var index, given := 0, 0;
    fs := [];
    var i := 0;
    while i < |nics| && index < |req.pfPrefixes|
      invariant i <= |nics| && index <= |req.pfPrefixes| && index == |Devices(nics[..i])|
      invariant index <= |ds| && Counts(counters, ds, index)
      invariant given == VfsUpTo(req, index) && Planned(req, ds, fs, index, given)
    {
      hide Planned, Counts, VfsUpTo, Usable;
      assert nics[..i + 1][..i] == nics[..i];
      DevicesPrefix(nics, i + 1);
      if Usable(nics[i]) {
        var device := UsableDevice(nics[i]);
        assert Devices(nics[..i + 1])[index] == device;
        fs, counters, given := PlanPf(req, ds, fs, index, device, counters, given);
        index := index + 1;
      }
      i := i + 1;
    }
    DevicesPrefix(nics, i);
    assert i == |nics| ==> nics[..i] == nics;
    hide Spelled;
    ghost var at, per := PlanSpelled(req, nics, fs, index, given);
    assert SpelledOver(req, nics, at, per, fs);
  }

  /** The VPC-prefix branch of the request builder with its final count check. */
  method PlanInterfaces(req: Request, nics: Option<seq<Nic>>) returns (plan: Plan)
    requires req.pfPrefixes != []
    ensures plan.Accepted? <==>
            && nics.Some? && req.tenant.Some? && req.vfSubnets == []
            && Fits(req, |set i: nat | i < |nics.value| && Mellanox(nics.value[i])|)
    ensures plan.Accepted? ==>
              && Some(plan.tenant) == req.tenant
              && exists at, per ::
                   Spelled(req, nics.value, at, per, plan.interfaces, |req.pfPrefixes|, |req.vfPrefixes|)
  {
    hide SpelledOver, Spelled, Positions;
    if nics.None? {
      return Refused;
    }
    var fs := PlanNics(req, nics.value);
    CountCheck(req, |Devices(nics.value)|);
    ghost var listed := DevicesListed(nics.value);
    PositionsCount(nics.value, listed);
    if req.tenant.None? || |fs| != |req.vfSubnets| + |req.pfPrefixes| + |req.vfPrefixes| {
      return Refused;
    }
    ghost var at, per :| SpelledOver(req, nics.value, at, per, fs);
    FullPlan(req, nics.value, at, per, fs);
    return Accepted(fs, req.tenant.value);
  }

  /** A list of full length holds all functions. */
  lemma FullPlan(req: Request, nics: seq<Nic>, at: seq<nat>, per: nat, fs: seq<Interface>)
    requires SpelledOver(req, nics, at, per, fs) && |fs| >= |req.pfPrefixes| + |req.vfPrefixes|
    ensures Spelled(req, nics, at, per, fs, |req.pfPrefixes|, |req.vfPrefixes|)
  {
    hide Positions, ChunkSize, PfStands, VfStands;
  }

  lemma {:induction false} OccurrencesGrow(ds: seq<string>, m: nat, n: nat, d: string)
    requires m <= n <= |ds|
    ensures Occurrences(ds, m, d) <= Occurrences(ds, n, d)
  {
    if m < n {
      OccurrencesGrow(ds, m, n - 1, d);
    }
  }

  /** No two physical functions share a device and an instance number. */
  lemma PfsDistinct(req: Request, nics: seq<Nic>, at: seq<nat>, f: Interface, g: Interface, i: nat, j: nat)
    requires i < j && IsPf(req, nics, at, f, i) && IsPf(req, nics, at, g, j)
    ensures !(f.device == g.device && f.instance == g.instance)
  {
    if f.device == g.device {
      var before := set k: nat | k < i && nics[at[k]].pci.value.device == f.device;
      var upto := set k: nat | k < j && nics[at[k]].pci.value.device == g.device;
      assert i in upto && before <= upto - {i};
      Subset(before, upto - {i});
    }
  }

  lemma {:induction false} Subset(a: set<nat>, b: set<nat>)
    requires a <= b
    ensures |a| <= |b|
  {
    if a != {} {
      var x :| x in a;
      Subset(a - {x}, b - {x});
    }
  }

  /** Each virtual function shares device and instance with the physical function of its chunk, which stands
      one more than its place in the chunk before it. */
  lemma VfsPlaced(req: Request, nics: seq<Nic>, at: seq<nat>, per: nat, fs: seq<Interface>, n: nat, vfs: nat, i: nat)
    returns (j: nat, first: nat)
    requires Spelled(req, nics, at, per, fs, n, vfs) && i < vfs <= |req.vfPrefixes| && n <= |req.pfPrefixes|
    ensures j < n && first == j * per <= i < first + per && i + j + 1 < |fs|
    ensures var pf, vf := fs[j + first], fs[i + j + 1];
            && !pf.virtual && pf.prefix == req.pfPrefixes[j] && vf.virtual && vf.prefix == req.vfPrefixes[i]
            && vf.device == pf.device && vf.instance == pf.instance && vf.functionId == Some(i)
  {
    hide Positions, ChunkSize, IsVf, IsPf;
    assert VfStands(req, nics, at, per, fs, n, i);
    j :| 0 <= j < n && j * per <= i < (j + 1) * per && i + j + 1 < |fs| && IsVf(req, nics, at, fs[i + j + 1], i, j);
    first := j * per;
    assert (j + 1) * per == first + per;
    assert PfStands(req, nics, at, per, fs, j);
    SharesNic(req, nics, at, fs[j + first], fs[i + j + 1], i, j);
  }

  lemma SharesNic(req: Request, nics: seq<Nic>, at: seq<nat>, pf: Interface, vf: Interface, i: nat, j: nat)
    requires i < |req.vfPrefixes| && j < |req.pfPrefixes| && IsPf(req, nics, at, pf, j) && IsVf(req, nics, at, vf, i, j)
    ensures !pf.virtual && pf.prefix == req.pfPrefixes[j] && vf.virtual && vf.prefix == req.vfPrefixes[i]
    ensures vf.device == pf.device && vf.instance == pf.instance && vf.functionId == Some(i)
  {
  }
}
