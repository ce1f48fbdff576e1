/** What single server calls keep, and properties of call logs. */
module WeaveSteps {
  import opened Options
  import opened Ascii
  import opened WeaveTypes
  import opened WeaveServer

  /** The server-side invariant: references intact, names right, stamps honest. */
  predicate Kept(st: ServerState, book: Book) {
    Sound(st) && Honest(st.attachments, book)
  }

  /** Every call logged from position `from` on left the invariant intact. */
  ghost predicate LogKept(log: seq<Event>, from: nat, book: Book) {
    forall k | from <= k < |log| :: Kept(log[k].after, book)
  }

  lemma LogKeptStep(log: seq<Event>, log': seq<Event>, from: nat, book: Book)
    requires LogKept(log, from, book) && |log'| == |log| + 1 && log'[..|log|] == log
    requires Kept(log'[|log|].after, book)
    ensures LogKept(log', from, book)
  {
    forall k | from <= k < |log'| ensures Kept(log'[k].after, book) {
      assert k < |log| ==> log'[k] == log[k];
    }
  }

  /** The part of the invariant that does not depend on how networks are named; with `named` all of it. */
  predicate Stays(st: ServerState, book: Book, named: bool) {
    && RefIntact(st) && OnePerPair(st.attachments) && Honest(st.attachments, book)
    && (named ==> NetworksNamed(st.networks))
  }

  ghost predicate LogStays(log: seq<Event>, from: nat, book: Book, named: bool) {
    forall k | from <= k < |log| :: Stays(log[k].after, book, named)
  }

  lemma NamedIsKept(st: ServerState, book: Book)
    ensures Stays(st, book, true) <==> Kept(st, book)
  {
  }

  lemma LogNamedIsKept(log: seq<Event>, from: nat, book: Book)
    ensures LogStays(log, from, book, true) <==> LogKept(log, from, book)
  {
    hide Stays, Kept;
    forall k | from <= k < |log| ensures Stays(log[k].after, book, true) <==> Kept(log[k].after, book) {
      NamedIsKept(log[k].after, book);
    }
  }

  lemma LogStaysStep(log: seq<Event>, log': seq<Event>, from: nat, book: Book, named: bool)
    requires LogStays(log, from, book, named) && |log'| == |log| + 1 && log'[..|log|] == log
    requires Stays(log'[|log|].after, book, named)
    ensures LogStays(log', from, book, named)
  {
    hide Stays;
    forall k | from <= k < |log'| ensures Stays(log'[k].after, book, named) {
      assert k < |log| ==> log'[k] == log[k];
    }
  }

  lemma AddNetworkStays(st: ServerState, nets: map<string, Network>, vni: nat, subnet: string, revision: string,
                        book: Book, named: bool)
    requires Stays(st, book, named) && vni >= 1 && NetworkAdded(st.networks, nets, VnetId(vni), vni, subnet, revision)
    ensures Stays(ServerState(nets, st.attachments), book, named)
  {
  }

  lemma StampNetworkStays(st: ServerState, nets: map<string, Network>, id: string, revision: string, book: Book,
                          named: bool)
    requires Stays(st, book, named) && NetworkStamped(st.networks, nets, id, revision)
    ensures Stays(ServerState(nets, st.attachments), book, named)
  {
  }

  lemma DropNetworkKeeps(st: ServerState, id: string, book: Book)
    requires Kept(st, book) && forall a | a in st.attachments :: st.attachments[a].spec.vnet != id
    ensures Kept(ServerState(st.networks - {id}, st.attachments), book)
  {
  }

  lemma DropAttachmentKeeps(st: ServerState, id: string, book: Book)
    requires Kept(st, book)
    ensures Kept(ServerState(st.networks, st.attachments - {id}), book)
  {
  }

  /** Creating what an entry of the revision's configuration asks for, on an existing network. */
  lemma AddAttachmentKeeps(st: ServerState, atts: map<string, Attachment>, id: string, d: Desired, book: Book)
    requires Kept(st, book) && SpecFor(d).Some?
    requires AttachmentAdded(st.attachments, atts, id, SpecFor(d).value, d.revision)
    requires VnetId(d.vni) in st.networks
    requires forall a | a in st.attachments :: !SamePair(st.attachments[a].spec, d)
    requires d.revision in book ==> d in book[d.revision]
    ensures Kept(ServerState(st.networks, atts), book)
  {
    InstalledAgrees(d);
    hide Lower, VnetId, SpecFor;
    if d.revision in book {
      var i :| 0 <= i < |book[d.revision]| && book[d.revision][i] == d;
      assert AgreesWithSome(atts[id].spec, book[d.revision]);
    }
  }

  /** Stamping an attachment that agrees with an entry of the revision's configuration. */
  lemma StampAttachmentKeeps(st: ServerState, atts: map<string, Attachment>, id: string, d: Desired, book: Book)
    requires Kept(st, book) && AttachmentStamped(st.attachments, atts, id, d.revision)
    requires Agrees(st.attachments[id].spec, d)
    requires d.revision in book ==> d in book[d.revision]
    ensures Kept(ServerState(st.networks, atts), book)
  {
    hide Lower, VnetId, Agrees, DesiredType;
    if d.revision in book {
      var i :| 0 <= i < |book[d.revision]| && book[d.revision][i] == d;
      assert AgreesWithSome(atts[id].spec, book[d.revision]);
    }
    StampedSameSpecs(st.attachments, atts, id, d.revision);
    assert Honest(atts, book) by { hide AgreesWithSome; }
  }

  lemma StampedSameSpecs(pre: map<string, Attachment>, post: map<string, Attachment>, id: string, revision: string)
    requires AttachmentStamped(pre, post, id, revision)
    ensures post.Keys == pre.Keys && forall k | k in pre :: post[k].spec == pre[k].spec
  {
  }

  // ---- Log properties ----

  predicate IsList(c: Call) {
    c.ListNetworks? || c.ListAttachments?
  }

  /** A revision update of a network, answered or not, or an acknowledged create. */
  predicate NetworkWrite(e: Event) {
    e.call.UpdateNetwork? || (e.reply.Done? && e.call.CreateNetwork?)
  }

  /** No network is written twice. */
  ghost predicate NetworksOnce(log: seq<Event>, from: nat) {
    forall j, k | from <= j < k < |log| && NetworkWrite(log[j]) && NetworkWrite(log[k]) ::
      log[j].call.id != log[k].call.id
  }

  /** An acknowledged delete of an attachment. */
  predicate AttachmentDelete(e: Event) {
    e.reply.Done? && e.call.DeleteAttachment?
  }

  /** No attachment id is deleted twice. */
  ghost predicate DeletesOnce(log: seq<Event>, from: nat) {
    forall j, k | from <= j < k < |log| && AttachmentDelete(log[j]) && AttachmentDelete(log[k]) ::
      log[j].call.id != log[k].call.id
  }

  /** The call was answered, and a create or update reported Ready. */
  predicate SmoothEvent(e: Event) {
    && e.reply.Done?
    && (IsList(e.call) || e.call.DeleteNetwork? || e.call.DeleteAttachment? || e.reply.state == Some(Ready))
  }

  ghost predicate Smooth(log: seq<Event>, from: nat) {
    forall k | from <= k < |log| :: SmoothEvent(log[k])
  }

  /** Every call was answered, whatever state it reported. */
  ghost predicate Answered(log: seq<Event>, from: nat) {
    forall k | from <= k < |log| :: log[k].reply.Done?
  }

  lemma SmoothAnswered(log: seq<Event>, from: nat)
    ensures Smooth(log, from) ==> Answered(log, from)
  {
  }

  /** The log grew by one call, and whether it was answered. */
  ghost predicate OneCall(log: seq<Event>, log': seq<Event>, call: Call, answered: bool) {
    && |log'| == |log| + 1 && log'[..|log|] == log
    && log'[|log|].call == call && log'[|log|].reply.Done? == answered
  }
}
