/** The objects the agent and the Weave server exchange, and the pure tests the reconciler makes on them.
    An object that arrives without metadata is modelled by the empty id; one with metadata has a real
    id. A network without a spec is modelled by VNI 0 and an attachment without a spec by the empty NIC,
    which no entry asks for. */
module WeaveTypes {
  import opened Options
  import opened Ascii

  datatype Phase = Unspecified | Pending | Ready | Deleting | Error

  /** A missing state counts as an error. */
  function PhaseOr(state: Option<Phase>): (p: Phase) {
    if state.Some? then state.value else Error
  }

  datatype SpxType = Physical | Virtual | Ovs

  datatype AttachmentType = UnspecifiedType | PfType | VfType | OvsType

  /** The type field of a desired attachment: absent, a number the enum lacks, or a known type. */
  datatype Requested = Absent | Unknown | Known(spx: SpxType)

  datatype OvsBinding = OvsBinding(bridge: string, network: Option<string>)

  /** One desired NIC; VNI 0 means detached. */
  datatype Desired = Desired(
    mac: string,
    vni: nat,
    subnet: string,
    kind: Requested,
    vf: Option<nat>,
    ovs: Option<OvsBinding>,
    revision: string)

  type Config = seq<Desired>

  datatype Spec = Spec(
    vnet: string,
    nic: string,
    kind: AttachmentType,
    pf: Option<string>,
    vf: Option<(string, nat)>,
    ovs: Option<OvsBinding>)

  datatype Network = Network(vni: nat, subnet: string, revision: Option<string>, state: Option<Phase>)

  datatype Attachment = Attachment(spec: Spec, revision: Option<string>, state: Option<Phase>)

  /** Objects by id. */
  datatype ServerState = ServerState(networks: map<string, Network>, attachments: map<string, Attachment>)

  // ---- Names ----

  const VNI_LIMIT := 0x8000_0000

  function Digit(d: nat): (c: char)
    requires d < 10
  {
    "0123456789"[d]
  }

  function Decimal(n: nat): (s: string)
    ensures |s| >= 1 && (n >= 10 ==> |s| >= 2)
  {
    if n < 10 then [Digit(n)] else Decimal(n / 10) + [Digit(n % 10)]
  }

  function VnetId(vni: nat): (id: string) {
    "astra-weave-vni-" + Decimal(vni)
  }

  /** The network name of an unsigned 32-bit VNI that is first cast to a signed one. */
  function CastVnetId(vni: nat): (id: string) {
    if vni < VNI_LIMIT || 2 * VNI_LIMIT <= vni then VnetId(vni)
    else "astra-weave-vni--" + Decimal(2 * VNI_LIMIT - vni)
  }

  lemma {:induction false} DecimalInjective(m: nat, n: nat)
    requires Decimal(m) == Decimal(n)
    ensures m == n
  {
    var s, t := Decimal(m), Decimal(n);
    assert s[|s| - 1] == t[|t| - 1];
    if m >= 10 && n >= 10 {
      assert s[..|s| - 1] == Decimal(m / 10) && t[..|t| - 1] == Decimal(n / 10);
      DecimalInjective(m / 10, n / 10);
    }
  }

  function DigitValue(c: char): (d: int) {
    c as int - '0' as int
  }

  /** Reading decimal digits. */
  function Numeral(s: string): (n: int) {
    if s == "" then 0 else 10 * Numeral(s[..|s| - 1]) + DigitValue(s[|s| - 1])
  }

  lemma DigitReads(d: nat)
    requires d < 10
    ensures DigitValue(Digit(d)) == d && '0' <= Digit(d) <= '9' && (d > 0 ==> Digit(d) != '0')
  {
  }

  /** The text of a number: digits only, no leading zero, and read back it is the number. */
  lemma {:induction false} DecimalReads(n: nat)
    ensures Numeral(Decimal(n)) == n
    ensures forall c | c in Decimal(n) :: '0' <= c <= '9'
    ensures n > 0 ==> Decimal(n)[0] != '0'
  {
    hide Digit, DigitValue;
    var s := Decimal(n);
    DigitReads(n % 10);
    if n < 10 {
      assert s[..0] == "" && n % 10 == n;
    } else {
      DecimalReads(n / 10);
      assert s[..|s| - 1] == Decimal(n / 10) && s[|s| - 1] == Digit(n % 10);
    }
  }

  lemma VnetIdInjective(v: nat, w: nat)
    requires VnetId(v) == VnetId(w)
    ensures v == w
  {
    var n := |"astra-weave-vni-"|;
    assert VnetId(v)[n..] == Decimal(v) && VnetId(w)[n..] == Decimal(w);
    DecimalInjective(v, w);
  }

  /** Equality of MAC addresses ignoring ASCII case. */
  predicate SameNic(a: string, b: string) {
    Lower(a) == Lower(b)
  }

  // ---- Specs ----

  function DesiredType(d: Desired): (t: AttachmentType) {
    match d.kind
    case Known(Physical) => PfType
    case Known(Virtual) => VfType
    case Known(Ovs) => OvsType
    case _ => UnspecifiedType
  }

  function Bridge(ovs: Option<OvsBinding>): (s: string) {
    if ovs.Some? then ovs.value.bridge else ""
  }

  function OvnNetwork(ovs: Option<OvsBinding>): (s: Option<string>) {
    if ovs.Some? then ovs.value.network else None
  }

  /** The spec the agent installs for a desired attachment; a request that cannot be expressed has none. */
  function SpecFor(d: Desired): (s: Option<Spec>) {
    if !d.kind.Known? then None
    else
      var base := Spec(VnetId(d.vni), d.mac, DesiredType(d), None, None, None);
      match d.kind.spx
      case Physical => Some(base.(pf := Some(d.mac)))
      case Virtual => if d.vf.None? then None else Some(base.(vf := Some((d.mac, d.vf.value))))
      case Ovs => Some(base.(ovs := Some(OvsBinding(Bridge(d.ovs), OvnNetwork(d.ovs)))))
  }

  /** The installed spec field by field: which network and NIC, and the one field its type fills. */
  lemma SpecSpelled(d: Desired)
    ensures SpecFor(d).Some? <==> d.kind.Known? && (d.kind.spx.Virtual? ==> d.vf.Some?)
    ensures d.kind == Known(Physical) ==>
              SpecFor(d) == Some(Spec("astra-weave-vni-" + Decimal(d.vni), d.mac, PfType, Some(d.mac), None, None))
    ensures d.kind == Known(Virtual) && d.vf.Some? ==>
              SpecFor(d) == Some(Spec("astra-weave-vni-" + Decimal(d.vni), d.mac, VfType, None,
                                      Some((d.mac, d.vf.value)), None))
    ensures d.kind == Known(Ovs) && d.ovs.Some? ==>
              SpecFor(d) == Some(Spec("astra-weave-vni-" + Decimal(d.vni), d.mac, OvsType, None, None, d.ovs))
    ensures d.kind == Known(Ovs) && d.ovs.None? ==>
              SpecFor(d) == Some(Spec("astra-weave-vni-" + Decimal(d.vni), d.mac, OvsType, None, None,
                                      Some(OvsBinding("", None))))
  {
  }

  /** Two entries with one spec ask for the same network, NIC, type and virtual function. */
  lemma SpecIdentifies(d: Desired, e: Desired)
    requires SpecFor(d).Some? && SpecFor(d) == SpecFor(e)
    ensures d.vni == e.vni && d.mac == e.mac && d.kind == e.kind
    ensures d.kind.spx.Virtual? ==> d.vf == e.vf
    ensures d.kind.spx.Ovs? ==> Bridge(d.ovs) == Bridge(e.ovs) && OvnNetwork(d.ovs) == OvnNetwork(e.ovs)
  {
    hide VnetId;
    VnetIdInjective(d.vni, e.vni);
  }

  /** Whether an attachment on the right NIC and network must be replaced rather than updated. */
  predicate RequiresRecreate(s: Spec, d: Desired) {
    if DesiredType(d) != s.kind then true
    else if DesiredType(d) != OvsType then false
    else Bridge(d.ovs) != Bridge(s.ovs) || OvnNetwork(d.ovs) != OvnNetwork(s.ovs)
  }

  /** The attachment is on the desired NIC and network. */
  predicate SamePair(s: Spec, d: Desired) {
    SameNic(s.nic, d.mac) && s.vnet == VnetId(d.vni)
  }

  /** The attachment is what the entry asks for: NIC, network, type and OVS bridge and network names. */
  predicate Agrees(s: Spec, d: Desired) {
    && SamePair(s, d)
    && s.kind == DesiredType(d)
    && (s.kind == OvsType ==> Bridge(s.ovs) == Bridge(d.ovs) && OvnNetwork(s.ovs) == OvnNetwork(d.ovs))
  }

  /** In-place updates are made exactly on attachments that already agree. */
  lemma UpdateIffAgrees(s: Spec, d: Desired)
    requires SamePair(s, d)
    ensures RequiresRecreate(s, d) <==> !Agrees(s, d)
  {
  }

  /** What the agent installs agrees with the entry it was built from. */
  lemma InstalledAgrees(d: Desired)
    ensures SpecFor(d).Some? ==> Agrees(SpecFor(d).value, d) && !RequiresRecreate(SpecFor(d).value, d)
  {
  }

  // ---- Configurations ----

  predicate InConfig(s: Spec, cfg: Config) {
    exists i :: 0 <= i < |cfg| && SamePair(s, cfg[i])
  }

  predicate VniInConfig(vni: nat, cfg: Config) {
    exists i :: 0 <= i < |cfg| && cfg[i].vni == vni
  }

  /** What the controller promises of a configuration: no NIC twice, one revision. */
  predicate Promised(cfg: Config) {
    && (forall i, j | 0 <= i < j < |cfg| :: !SameNic(cfg[i].mac, cfg[j].mac))
    && (forall i, j | 0 <= i < |cfg| && 0 <= j < |cfg| :: cfg[i].revision == cfg[j].revision)
  }

  /** What the agent checks before it writes: revisions present, VNIs fit a signed 32-bit number. */
  predicate Representable(cfg: Config) {
    forall i | 0 <= i < |cfg| :: cfg[i].revision != "" && cfg[i].vni < VNI_LIMIT
  }

  predicate WellFormed(cfg: Config) {
    Promised(cfg) && Representable(cfg)
  }

  // ---- Server states ----

  /** Networks carry the agent's names and real VNIs. */
  predicate NetworksNamed(nets: map<string, Network>) {
    forall id | id in nets :: nets[id].vni >= 1 && id == VnetId(nets[id].vni)
  }

  /** Every attachment names an existing network. */
  predicate RefIntact(st: ServerState) {
    forall id | id in st.attachments :: st.attachments[id].spec.vnet in st.networks
  }

  /** Attachments have ids, and no NIC is attached twice to one network. */
  predicate OnePerPair(atts: map<string, Attachment>) {
    && "" !in atts
    && forall i, j | i in atts && j in atts && i != j ::
         !(SameNic(atts[i].spec.nic, atts[j].spec.nic) && atts[i].spec.vnet == atts[j].spec.vnet)
  }

  predicate Sound(st: ServerState) {
    NetworksNamed(st.networks) && RefIntact(st) && OnePerPair(st.attachments)
  }

  /** Which configuration each revision denotes. */
  type Book = map<string, Config>

  predicate AgreesWithSome(s: Spec, cfg: Config) {
    exists i :: 0 <= i < |cfg| && Agrees(s, cfg[i])
  }

  /** A stamped attachment is what the configuration of that revision asks for. */
  predicate Honest(atts: map<string, Attachment>, book: Book) {
    forall id | id in atts && atts[id].revision.Some? && atts[id].revision.value in book ::
      AgreesWithSome(atts[id].spec, book[atts[id].revision.value])
  }
}
