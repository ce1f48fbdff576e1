/** Second phase of a reconcile: one NIC at a time, remove attachments on other networks, keep and
    stamp the right one, replace a changed one, create a missing one; then remove the rest. */
module WeaveAttachments {
  import opened Options
  import opened WeaveTypes
  import opened WeaveServer
  import opened WeaveSteps
  import opened WeaveNetworks
  import opened WeavePrune

  type Attachments = map<string, Attachment>

  predicate OnNic(a: Attachment, want: Desired) {
    SameNic(a.spec.nic, want.mac)
  }

  // ---- Bookkeeping against the listing ----

  /** Listed attachments are still there, known deleted, or lost to an unanswered delete; those that
      are there and not known deleted are unchanged but for stamps. */
  predicate Tracked(items: Attachments, atts: Attachments, deleted: set<string>, retired: set<string>) {
    && (forall id | id in items :: id in atts || id in deleted || id in retired)
    && (forall id | id in items && id in atts && id !in deleted :: atts[id].spec == items[id].spec)
  }

  /** An attachment is wanted, or comes from the listing and was never deleted. */
  predicate Origin(items: Attachments, atts: Attachments, deleted: set<string>, cfg: Config) {
    forall id | id in atts :: InConfig(atts[id].spec, cfg) || (id in items && id !in deleted)
  }

  ghost predicate OnlyAttachmentCalls(log: seq<Event>, from: nat) {
    forall k | from <= k < |log| ::
      || log[k].call.ListAttachments? || log[k].call.CreateAttachment?
      || log[k].call.UpdateAttachment? || log[k].call.DeleteAttachment?
  }

  ghost predicate DeletesRecorded(log: seq<Event>, from: nat, deleted: set<string>) {
    forall k | from <= k < |log| && AttachmentDelete(log[k]) :: log[k].call.id in deleted
  }

  /** What stays fixed during the phase: log mark, configuration, listing, revision book. */
  datatype Frame = Frame(from: nat, cfg: Config, items: Attachments, book: Book)

  ghost predicate LogOk(log: seq<Event>, f: Frame, deleted: set<string>) {
    && f.from <= |log| && LogKept(log, f.from, f.book)
    && DeletesOnce(log, f.from) && DeletesRecorded(log, f.from, deleted) && OnlyAttachmentCalls(log, f.from)
  }

  /** Everything the phase keeps from call to call. */
  ghost predicate Running(st: ServerState, log: seq<Event>, f: Frame, deleted: set<string>, retired: set<string>) {
    && Kept(st, f.book)
    && LogOk(log, f, deleted)
    && Tracked(f.items, st.attachments, deleted, retired)
    && Origin(f.items, st.attachments, deleted, f.cfg)
  }

  lemma LogOkStep(log: seq<Event>, log': seq<Event>, f: Frame, deleted: set<string>, deleted': set<string>)
    requires LogOk(log, f, deleted) && |log'| == |log| + 1 && log'[..|log|] == log && deleted <= deleted'
    requires var e := log'[|log|];
             && Kept(e.after, f.book)
             && (e.call.CreateAttachment? || e.call.UpdateAttachment? || e.call.DeleteAttachment?)
             && (AttachmentDelete(e) ==> e.call.id !in deleted && e.call.id in deleted')
    ensures LogOk(log', f, deleted')
  {
    LogKeptStep(log, log', f.from, f.book);
    hide Kept, LogKept;
    assert forall k | 0 <= k < |log| :: log'[k] == log[k];
  }

  lemma DropKeeps(st: ServerState, id: string, f: Frame, deleted: set<string>, retired: set<string>,
                  deleted': set<string>, retired': set<string>)
    requires Kept(st, f.book) && Tracked(f.items, st.attachments, deleted, retired)
             && Origin(f.items, st.attachments, deleted, f.cfg)
    requires (deleted' == deleted + {id} && retired' == retired) || (deleted' == deleted && retired' == retired + {id})
    ensures var atts := st.attachments - {id};
            && Kept(ServerState(st.networks, atts), f.book)
            && Tracked(f.items, atts, deleted', retired') && Origin(f.items, atts, deleted', f.cfg)
  {
    DropAttachmentKeeps(st, id, f.book);
    hide Kept, InConfig;
  }

  // ---- What can happen to one NIC ----

  /** The call is about the NIC: it creates on it, or updates or deletes a listed attachment of it. */
  predicate Concerns(call: Call, items: Attachments, want: Desired) {
    match call
    case CreateAttachment(spec) => SameNic(spec.nic, want.mac)
    case UpdateAttachment(id) => id in items && OnNic(items[id], want)
    case DeleteAttachment(id) => id in items && OnNic(items[id], want)
    case _ => false
  }

  /** Some call about the NIC was not answered. */
  ghost predicate Lost(log: seq<Event>, from: nat, items: Attachments, want: Desired) {
    exists k :: from <= k < |log| && log[k].reply.Failed? && Concerns(log[k].call, items, want)
  }

  lemma LostLater(log: seq<Event>, log': seq<Event>, from: nat, items: Attachments, want: Desired)
    requires Extends(log, log')
    ensures Lost(log, from, items, want) ==> Lost(log', from, items, want)
  {
    hide Concerns;
    if Lost(log, from, items, want) {
      var k :| from <= k < |log| && log[k].reply.Failed? && Concerns(log[k].call, items, want);
      assert log'[k] == log[k];
    }
  }

  lemma LostOne(log: seq<Event>, log': seq<Event>, call: Call, from: nat, items: Attachments, want: Desired)
    requires OneCall(log, log', call, false) && from <= |log| && Concerns(call, items, want)
    ensures Lost(log', from, items, want)
  {
    hide Concerns;
    assert log'[|log|].reply.Failed?;
  }

  /** The phase to report: that of the listed attachment unless it is Ready, else that of the last answer. */
  function PhaseFrom(items: Attachments, atts: Attachments, id: string, want: Desired): (p: Phase)
    requires id in atts
  {
    if id in items && Agrees(items[id].spec, want) && PhaseOr(items[id].state) != Ready then PhaseOr(items[id].state)
    else PhaseOr(atts[id].state)
  }

  /** Exactly one attachment of the NIC; it is the desired one, it is stamped, and its phase is reported. */
  predicate InPlaceBy(items: Attachments, atts: Attachments, id: string, want: Desired, phase: Phase) {
    && id in atts && Agrees(atts[id].spec, want) && atts[id].revision == Some(want.revision)
    && (forall j | j in atts && OnNic(atts[j], want) :: j == id)
    && phase == PhaseFrom(items, atts, id, want)
  }

  predicate InPlace(items: Attachments, atts: Attachments, want: Desired, phase: Phase) {
    exists id :: id in atts && InPlaceBy(items, atts, id, want, phase)
  }

  /** All that can become of an attached entry whose network is in place: it cannot be expressed, an answer
      about its NIC was lost, or it has its attachment. */
  ghost predicate Resolves(items: Attachments, log: seq<Event>, from: nat, atts: Attachments, want: Desired,
                          phase: Phase) {
    || (SpecFor(want).None? && phase == Error)
    || (Lost(log, from, items, want) && phase != Ready)
    || InPlace(items, atts, want, phase)
  }

  lemma ResolvesLater(items: Attachments, log: seq<Event>, log': seq<Event>, from: nat, from': nat, atts: Attachments,
                     want: Desired, phase: Phase)
    requires Extends(log, log') && from' <= from && Resolves(items, log, from, atts, want, phase)
    ensures Resolves(items, log', from', atts, want, phase)
  {
    hide Concerns, SpecFor, InPlace;
    if Lost(log, from, items, want) {
      assert Lost(log, from', items, want);
      LostLater(log, log', from', items, want);
    }
  }

  // ---- Single calls ----

  /** Delete one attachment; an object without an id cannot be deleted. */
  method DeleteMatch(server: Server, id: string, deleted: set<string>, ghost f: Frame)
    returns (ok: bool, deleted': set<string>)
    requires Running(server.State(), server.log, f, deleted, server.retired) && id !in deleted
    modifies server`attachments, server`retired, server`log
    ensures Running(server.State(), server.log, f, deleted', server.retired)
    ensures Extends(old(server.log), server.log) && old(server.retired) <= server.retired
    ensures server.attachments == old(server.attachments) || server.attachments == old(server.attachments) - {id}
    ensures deleted' == if ok then deleted + {id} else deleted
    ensures ok ==> id !in server.attachments
    ensures id != "" ==> OneCall(old(server.log), server.log, Call.DeleteAttachment(id), ok)
  {
    ghost var st, log := server.State(), server.log;
    deleted' := deleted;
    if id == "" {
      return false, deleted;
    }
    DropKeeps(st, id, f, deleted, server.retired, deleted + {id}, server.retired);
    DropKeeps(st, id, f, deleted, server.retired, deleted, server.retired + {id});
    hide Kept, LogOk, Tracked, Origin;
    var r := server.DeleteAttachment(id);
    ok := r.Done?;
    if ok {
      deleted' := deleted + {id};
    }
    LogOkStep(log, server.log, f, deleted, deleted');
    assert server.log[|log|].reply == r;
  }

  /** Only some of `ids` were removed, nothing else changed. */
  predicate Shrunk(pre: Attachments, post: Attachments, ids: seq<string>) {
    && (forall id | id in post :: id in pre && post[id] == pre[id])
    && (forall id | id in pre && id !in ids :: id in post)
  }

  /** Delete every conflicting attachment, going on after failures. */
  method DeleteConflicts(server: Server, ids: seq<string>, deleted: set<string>, ghost f: Frame, ghost want: Desired)
    returns (all: bool, deleted': set<string>)
    requires Running(server.State(), server.log, f, deleted, server.retired)
    requires forall i | 0 <= i < |ids| :: ids[i] !in deleted && ids[i] != ""
    requires forall i, j | 0 <= i < j < |ids| :: ids[i] != ids[j]
    requires forall i | 0 <= i < |ids| :: ids[i] in f.items && OnNic(f.items[ids[i]], want)
    modifies server`attachments, server`retired, server`log
    ensures Running(server.State(), server.log, f, deleted', server.retired)
    ensures Extends(old(server.log), server.log) && old(server.retired) <= server.retired
    ensures Shrunk(old(server.attachments), server.attachments, ids)
    ensures deleted <= deleted' && forall id | id in deleted' :: id in deleted || id in ids
    ensures all ==> forall i | 0 <= i < |ids| :: ids[i] !in server.attachments
    ensures all || Lost(server.log, |old(server.log)|, f.items, want)
    ensures ids == [] ==> server.log == old(server.log) && deleted' == deleted
  {
    hide Running, Lost, OnNic;
    ghost var log0 := server.log;
    all, deleted' := true, deleted;
    for i := 0 to |ids|
      invariant Running(server.State(), server.log, f, deleted', server.retired)
      invariant Extends(log0, server.log) && old(server.retired) <= server.retired
      invariant Shrunk(old(server.attachments), server.attachments, ids)
      invariant deleted <= deleted' && forall id | id in deleted' :: id in deleted || id in ids[..i]
      invariant all ==> forall j | 0 <= j < i :: ids[j] !in server.attachments
      invariant all || Lost(server.log, |log0|, f.items, want)
      invariant i == 0 ==> server.log == log0 && deleted' == deleted
    {
      ghost var log := server.log;
      var ok;
      ok, deleted' := DeleteMatch(server, ids[i], deleted', f);
      LostLater(log, server.log, |log0|, f.items, want);
      if !ok {
        LostOne(log, server.log, Call.DeleteAttachment(ids[i]), |log0|, f.items, want);
        all := false;
      }
    }
  }

  lemma SmoothNow(log: seq<Event>)
    ensures Smooth(log, |log|)
  {
  }

  lemma StampKeeps(st: ServerState, atts: Attachments, id: string, want: Desired, f: Frame, deleted: set<string>,
                   retired: set<string>)
    requires Kept(st, f.book) && Tracked(f.items, st.attachments, deleted, retired)
             && Origin(f.items, st.attachments, deleted, f.cfg)
    requires AttachmentStamped(st.attachments, atts, id, want.revision) && Agrees(st.attachments[id].spec, want)
    requires want.revision in f.book ==> want in f.book[want.revision]
    ensures Kept(ServerState(st.networks, atts), f.book)
    ensures Tracked(f.items, atts, deleted, retired) && Origin(f.items, atts, deleted, f.cfg)
  {
    StampAttachmentKeeps(st, atts, id, want, f.book);
    hide Kept, InConfig, Agrees;
  }

  /** The update was answered, or its answer was lost. */
  ghost predicate Updated(log: seq<Event>, log': seq<Event>, pre: Attachments, post: Attachments, id: string,
                          a: Attachment, want: Desired, phase: Phase) {
    || (&& OneCall(log, log', Call.UpdateAttachment(id), true)
        && AttachmentStamped(pre, post, id, want.revision)
        && phase == if PhaseOr(a.state) != Ready then PhaseOr(a.state) else PhaseOr(post[id].state))
    || (OneCall(log, log', Call.UpdateAttachment(id), false) && phase != Ready)
  }

  lemma UpdateResolves(items: Attachments, log: seq<Event>, log': seq<Event>, pre: Attachments, post: Attachments,
                      id: string, a: Attachment, want: Desired, phase: Phase)
    requires Updated(log, log', pre, post, id, a, want, phase) && Agrees(a.spec, want)
    requires id in items && items[id] == a && id in pre && pre[id] == a
    requires forall j | j in pre && OnNic(pre[j], want) :: j == id
    ensures Resolves(items, log', |log|, post, want, phase)
  {
    hide SpecFor, SameNic, VnetId;
    if OneCall(log, log', Call.UpdateAttachment(id), false) {
      LostOne(log, log', Call.UpdateAttachment(id), |log|, items, want);
    } else {
      assert InPlaceBy(items, post, id, want, phase);
    }
  }

  /** The right attachment exists: report its phase and stamp it. */
  method ProcessMatchingAttachment(server: Server, want: Desired, id: string, a: Attachment, ghost deleted: set<string>,
                                   ghost f: Frame)
    returns (phase: Phase)
    requires Running(server.State(), server.log, f, deleted, server.retired)
    requires id in server.attachments && server.attachments[id] == a && Agrees(a.spec, want)
    requires want.revision in f.book ==> want in f.book[want.revision]
    modifies server`attachments, server`log
    ensures Running(server.State(), server.log, f, deleted, server.retired) && Extends(old(server.log), server.log)
    ensures server.attachments == old(server.attachments)
            || AttachmentStamped(old(server.attachments), server.attachments, id, want.revision)
    ensures phase == Ready ==>
              AttachmentStamped(old(server.attachments), server.attachments, id, want.revision)
              && server.attachments[id].state == Some(Ready)
    ensures Smooth(server.log, |old(server.log)|) && id != "" && a.state == Some(Ready) ==> phase == Ready
    ensures id != "" ==>
              Updated(old(server.log), server.log, old(server.attachments), server.attachments, id, a, want, phase)
  {
    ghost var st, log := server.State(), server.log;
    if id == "" {
      return Error;
    }
    phase := PhaseOr(a.state);
    hide Kept, LogOk, Tracked, Origin, Agrees;
    var r := server.UpdateAttachment(id, want.revision);
    if phase == Ready && PhaseOf(r) != Ready {
      phase := PhaseOf(r);
    }
    if server.attachments == st.attachments {
      assert server.State() == st;
    } else {
      StampKeeps(st, server.attachments, id, want, f, deleted, server.retired);
      assert server.State() == ServerState(st.networks, server.attachments);
    }
    LogOkStep(log, server.log, f, deleted, deleted);
    assert server.log[|log|].reply == r;
  }

  lemma CreateKeeps(st: ServerState, atts: Attachments, id: string, want: Desired, f: Frame, deleted: set<string>,
                    retired: set<string>)
    requires Kept(st, f.book) && Tracked(f.items, st.attachments, deleted, retired)
             && Origin(f.items, st.attachments, deleted, f.cfg)
    requires SpecFor(want).Some? && AttachmentAdded(st.attachments, atts, id, SpecFor(want).value, want.revision)
             && id !in retired
    requires VnetId(want.vni) in st.networks && want in f.cfg
    requires forall a | a in st.attachments :: !OnNic(st.attachments[a], want)
    requires want.revision in f.book ==> want in f.book[want.revision]
    ensures Kept(ServerState(st.networks, atts), f.book)
    ensures Tracked(f.items, atts, deleted, retired) && Origin(f.items, atts, deleted, f.cfg)
  {
    AddAttachmentKeeps(st, atts, id, want, f.book);
    InstalledAgrees(want);
    var i :| 0 <= i < |f.cfg| && f.cfg[i] == want;
    assert InConfig(atts[id].spec, f.cfg);
    hide Kept, InConfig, Agrees, SpecFor;
  }

  /** The entry cannot be expressed, the create was answered, or its answer was lost. */
  ghost predicate Created(log: seq<Event>, log': seq<Event>, pre: Attachments, post: Attachments, id: string,
                          want: Desired, phase: Phase) {
    var spec := SpecFor(want);
    if spec.None? then phase == Error
    else
      || (&& OneCall(log, log', Call.CreateAttachment(spec.value), true)
          && AttachmentAdded(pre, post, id, spec.value, want.revision) && phase == PhaseOr(post[id].state))
      || (OneCall(log, log', Call.CreateAttachment(spec.value), false) && phase == Error)
  }

  lemma CreateResolves(items: Attachments, log: seq<Event>, log': seq<Event>, pre: Attachments, post: Attachments,
                      id: string, want: Desired, phase: Phase)
    requires Created(log, log', pre, post, id, want, phase)
    requires forall j | j in pre :: !OnNic(pre[j], want)
    requires id in items ==> !Agrees(items[id].spec, want)
    ensures Resolves(items, log', |log|, post, want, phase)
  {
    InstalledAgrees(want);
    hide SpecFor, VnetId;
    var spec := SpecFor(want);
    if spec.Some? {
      if OneCall(log, log', Call.CreateAttachment(spec.value), false) {
        LostOne(log, log', Call.CreateAttachment(spec.value), |log|, items, want);
      } else {
        assert InPlaceBy(items, post, id, want, phase);
      }
    }
  }

  /** No attachment of the NIC is left: create the one the entry asks for. */
  method CreateFor(server: Server, want: Desired, ghost deleted: set<string>, ghost f: Frame)
    returns (phase: Phase, ghost id: string)
    requires Running(server.State(), server.log, f, deleted, server.retired)
    requires VnetId(want.vni) in server.networks && want in f.cfg
    requires forall a | a in server.attachments :: !OnNic(server.attachments[a], want)
    requires want.revision in f.book ==> want in f.book[want.revision]
    modifies server`attachments, server`log
    ensures Running(server.State(), server.log, f, deleted, server.retired) && Extends(old(server.log), server.log)
    ensures server.attachments != old(server.attachments) || phase == Ready ==>
              && SpecFor(want).Some?
              && AttachmentAdded(old(server.attachments), server.attachments, id, SpecFor(want).value, want.revision)
    ensures phase == Ready ==> server.attachments[id].state == Some(Ready)
    ensures Smooth(server.log, |old(server.log)|) && SpecFor(want).Some? ==> phase == Ready
    ensures Created(old(server.log), server.log, old(server.attachments), server.attachments, id, want, phase)
  {
    ghost var st, log := server.State(), server.log;
    id := "";
    var spec := SpecFor(want);
    if spec.None? {
      return Error, id;
    }
    hide Kept, LogOk, Tracked, Origin, OnNic, SpecFor;
    var r;
    r, id := server.CreateAttachment(spec.value, want.revision);
    phase := PhaseOf(r);
    if server.attachments == st.attachments {
      assert server.State() == st;
    } else {
      CreateKeeps(st, server.attachments, id, want, f, deleted, server.retired);
      assert server.State() == ServerState(st.networks, server.attachments);
    }
    LogOkStep(log, server.log, f, deleted, deleted);
    assert server.log[|log|].reply == r;
  }

  // ---- One NIC ----

  /** Sort the NIC's listed attachments into the one on its network and the conflicting ones. */
  method SplitSameNic(order: seq<string>, items: Attachments, want: Desired)
    returns (exact: Option<string>, conflicts: seq<string>)
    requires Orders(order, items.Keys)
    ensures exact.Some? ==> exact.value in items && SamePair(items[exact.value].spec, want)
    ensures exact.None? ==> forall id | id in items :: !SamePair(items[id].spec, want)
    ensures forall id :: id in conflicts <==> id in items && OnNic(items[id], want) && !SamePair(items[id].spec, want)
    ensures forall i, j | 0 <= i < j < |conflicts| :: conflicts[i] != conflicts[j]
  {
    exact, conflicts := None, [];
    for i := 0 to |order|
      invariant exact.Some? ==> exact.value in items && SamePair(items[exact.value].spec, want)
      invariant exact.None? ==> forall id | id in order[..i] :: !SamePair(items[id].spec, want)
      invariant forall id :: id in conflicts <==>
                  id in order[..i] && OnNic(items[id], want) && !SamePair(items[id].spec, want)
      invariant forall j, k | 0 <= j < k < |conflicts| :: conflicts[j] != conflicts[k]
    {
      hide SameNic, VnetId;
      assert order[i] in items && order[i] !in order[..i] && order[..i + 1] == order[..i] + [order[i]];
      if OnNic(items[order[i]], want) {
        if items[order[i]].spec.vnet == VnetId(want.vni) {
          exact := Some(order[i]);
        } else {
          conflicts := conflicts + [order[i]];
        }
      }
    }
    assert order[..|order|] == order;
  }

  /** The NIC's attachments are as listed, and none of them was deleted. */
  predicate Untouched(atts: Attachments, items: Attachments, deleted: set<string>, want: Desired) {
    && (forall id | id in items && OnNic(items[id], want) :: id in atts && atts[id] == items[id] && id !in deleted)
    && (forall id | id in atts && OnNic(atts[id], want) :: id in items && items[id] == atts[id])
  }

  /** Attachments of all other NICs are the same. */
  predicate OthersSame(pre: Attachments, post: Attachments, want: Desired) {
    && (forall id | id in pre && !OnNic(pre[id], want) :: id in post && post[id] == pre[id])
    && (forall id | id in post && !OnNic(post[id], want) :: id in pre && pre[id] == post[id])
  }

  /** Exactly one attachment of the NIC, and it is the desired one: stamped and Ready. */
  predicate ServedBy(atts: Attachments, id: string, want: Desired) {
    && id in atts && Agrees(atts[id].spec, want)
    && atts[id].revision == Some(want.revision) && atts[id].state == Some(Ready)
    && forall j | j in atts && OnNic(atts[j], want) :: j == id
  }

  predicate Served(atts: Attachments, want: Desired) {
    exists id :: id in atts && ServedBy(atts, id, want)
  }

  /** Deleted ids of this step belong to the NIC. */
  predicate DeletedOnNic(items: Attachments, deleted: set<string>, deleted': set<string>, want: Desired) {
    deleted <= deleted' && forall id | id in deleted' :: id in deleted || (id in items && OnNic(items[id], want))
  }

  lemma ConflictsGone(pre: Attachments, post: Attachments, items: Attachments, deleted: set<string>,
                      deleted': set<string>,
                      ids: seq<string>, want: Desired)
    requires Untouched(pre, items, deleted, want) && Shrunk(pre, post, ids)
    requires forall id :: id in ids <==> id in items && OnNic(items[id], want) && !SamePair(items[id].spec, want)
    requires deleted <= deleted' && forall id | id in deleted' :: id in deleted || id in ids
    ensures OthersSame(pre, post, want) && DeletedOnNic(items, deleted, deleted', want)
    ensures forall id | id in items && SamePair(items[id].spec, want) ::
              id in post && post[id] == items[id] && id !in deleted'
  {
    hide SameNic, VnetId;
  }

  lemma OthersSameTrans(a: Attachments, b: Attachments, c: Attachments, want: Desired)
    requires OthersSame(a, b, want) && OthersSame(b, c, want)
    ensures OthersSame(a, c, want)
  {
    hide OnNic;
  }

  lemma StampedOthers(pre: Attachments, post: Attachments, id: string, want: Desired)
    requires AttachmentStamped(pre, post, id, want.revision) && OnNic(pre[id], want)
    ensures OthersSame(pre, post, want)
  {
    hide SameNic;
  }

  lemma AddedOthers(pre: Attachments, post: Attachments, id: string, want: Desired)
    requires SpecFor(want).Some? && AttachmentAdded(pre, post, id, SpecFor(want).value, want.revision)
    ensures OthersSame(pre, post, want)
  {
    InstalledAgrees(want);
    hide SameNic;
  }

  lemma StampedServes(pre: Attachments, post: Attachments, id: string, want: Desired)
    requires AttachmentStamped(pre, post, id, want.revision) && Agrees(pre[id].spec, want)
             && post[id].state == Some(Ready)
    requires forall j | j in pre && OnNic(pre[j], want) :: j == id
    ensures Served(post, want)
  {
    hide SameNic;
    assert ServedBy(post, id, want);
  }

  lemma AddedServes(pre: Attachments, post: Attachments, id: string, want: Desired)
    requires SpecFor(want).Some? && AttachmentAdded(pre, post, id, SpecFor(want).value, want.revision)
    requires post[id].state == Some(Ready) && forall j | j in pre :: !OnNic(pre[j], want)
    ensures Served(post, want)
  {
    InstalledAgrees(want);
    hide SameNic;
    assert ServedBy(post, id, want);
  }

  /** What handling one NIC guarantees, seen from outside. */
  ghost predicate NicHandled(pre: Attachments, post: Attachments, f: Frame, deleted: set<string>, deleted': set<string>,
                             want: Desired, phase: Phase) {
    && OthersSame(pre, post, want)
    && DeletedOnNic(f.items, deleted, deleted', want)
    && (phase == Ready ==> Served(post, want))
  }

  lemma DeleteLost(items: Attachments, log: seq<Event>, log': seq<Event>, id: string, atts: Attachments, want: Desired)
    requires OneCall(log, log', Call.DeleteAttachment(id), false) && id in items && OnNic(items[id], want)
    ensures Resolves(items, log', |log|, atts, want, Error)
  {
    LostOne(log, log', Call.DeleteAttachment(id), |log|, items, want);
  }

  lemma LostResolves(items: Attachments, log: seq<Event>, from: nat, atts: Attachments, want: Desired)
    requires Lost(log, from, items, want)
    ensures Resolves(items, log, from, atts, want, Error) && !Smooth(log, from)
  {
    hide Concerns, SpecFor, InPlace;
  }

  /** The conflicting attachments are gone; the right one is kept and stamped, replaced, or created. */
  method KeepOrReplace(server: Server, want: Desired, exact: Option<string>, a: Option<Attachment>,
                       deleted: set<string>, ghost f: Frame)
    returns (phase: Phase, deleted': set<string>)
    requires Running(server.State(), server.log, f, deleted, server.retired)
    requires VnetId(want.vni) in server.networks && want in f.cfg
    requires want.revision in f.book ==> want in f.book[want.revision]
    requires exact.Some? == a.Some?
    requires exact.Some? ==>
               && exact.value in server.attachments && server.attachments[exact.value] == a.value
               && exact.value in f.items && f.items[exact.value] == a.value && exact.value !in deleted
               && exact.value != "" && SamePair(a.value.spec, want)
    requires forall id | id in server.attachments && OnNic(server.attachments[id], want) :: Some(id) == exact
    requires forall id | id in f.items && Agrees(f.items[id].spec, want) :: Some(id) == exact
    modifies server`attachments, server`retired, server`log
    ensures Running(server.State(), server.log, f, deleted', server.retired)
    ensures Extends(old(server.log), server.log)
    ensures NicHandled(old(server.attachments), server.attachments, f, deleted, deleted', want, phase)
    ensures Smooth(server.log, |old(server.log)|) && SpecFor(want).Some? ==>
              (a.Some? ==> a.value.state == Some(Ready)) ==> phase == Ready
    ensures Resolves(f.items, server.log, |old(server.log)|, server.attachments, want, phase)
  {
    hide Running, SameNic, VnetId, SpecFor, Served, AttachmentStamped, AttachmentAdded, Resolves, Updated, Created,
         Agrees;
    ghost var log0, pre := server.log, server.attachments;
    deleted' := deleted;
    if exact.Some? {
      UpdateIffAgrees(a.value.spec, want);
      if !RequiresRecreate(a.value.spec, want) {
        phase := ProcessMatchingAttachment(server, want, exact.value, a.value, deleted, f);
        UpdateResolves(f.items, log0, server.log, pre, server.attachments, exact.value, a.value, want, phase);
        if server.attachments != pre || phase == Ready {
          StampedOthers(pre, server.attachments, exact.value, want);
        }
        if phase == Ready {
          StampedServes(pre, server.attachments, exact.value, want);
        }
        return;
      }
      var ok;
      ok, deleted' := DeleteMatch(server, exact.value, deleted, f);
      if !ok {
        DeleteLost(f.items, log0, server.log, exact.value, server.attachments, want);
        return Error, deleted';
      }
    }
    ghost var log1, mid := server.log, server.attachments;
    ghost var id;
    phase, id := CreateFor(server, want, deleted', f);
    CreateResolves(f.items, log1, server.log, mid, server.attachments, id, want, phase);
    ResolvesLater(f.items, server.log, server.log, |log1|, |log0|, server.attachments, want, phase);
    SmoothSplit(log1, server.log, |log0|);
    if server.attachments != mid || phase == Ready {
      AddedOthers(mid, server.attachments, id, want);
    }
    if phase == Ready {
      AddedServes(mid, server.attachments, id, want);
    }
    OthersSameTrans(pre, mid, server.attachments, want);
  }

  /** One entry with a real VNI whose network is in place. */
  method AttachOne(server: Server, want: Desired, order: seq<string>, deleted: set<string>, items: Attachments,
                   ghost f: Frame)
    returns (phase: Phase, deleted': set<string>)
    requires Running(server.State(), server.log, f, deleted, server.retired)
    requires items == f.items && Orders(order, items.Keys) && OnePerPair(items)
    requires Untouched(server.attachments, items, deleted, want)
    requires VnetId(want.vni) in server.networks && want in f.cfg
    requires want.revision in f.book ==> want in f.book[want.revision]
    modifies server`attachments, server`retired, server`log
    ensures Running(server.State(), server.log, f, deleted', server.retired)
    ensures Extends(old(server.log), server.log)
    ensures NicHandled(old(server.attachments), server.attachments, f, deleted, deleted', want, phase)
    ensures Smooth(server.log, |old(server.log)|) && SpecFor(want).Some? && AttachmentsReady(items) ==> phase == Ready
    ensures Resolves(items, server.log, |old(server.log)|, server.attachments, want, phase)
  {
    hide Running, SameNic, VnetId, SpecFor, Served, Smooth, Resolves, Lost, Agrees;
    ghost var log0, pre := server.log, server.attachments;
    var exact, conflicts := SplitSameNic(order, items, want);
    var all;
    all, deleted' := DeleteConflicts(server, conflicts, deleted, f, want);
    ghost var log1, mid, deleted1 := server.log, server.attachments, deleted';
    ConflictsGone(pre, mid, items, deleted, deleted', conflicts, want);
    if !all {
      LostResolves(items, server.log, |log0|, server.attachments, want);
      return Error, deleted';
    }
    OnlyExactLeft(pre, mid, items, deleted, conflicts, exact, want);
    OnlyExactAgrees(items, exact, want);
    phase, deleted' :=
        KeepOrReplace(server, want, exact, if exact.Some? then Some(items[exact.value]) else None, deleted', f);
    OthersSameTrans(pre, mid, server.attachments, want);
    SmoothSplit(log1, server.log, |log0|);
    ResolvesLater(items, server.log, server.log, |log1|, |log0|, server.attachments, want, phase);
  }

  lemma OnlyExactAgrees(items: Attachments, exact: Option<string>, want: Desired)
    requires OnePerPair(items)
    requires exact.Some? ==> exact.value in items && SamePair(items[exact.value].spec, want)
    requires exact.None? ==> forall id | id in items :: !SamePair(items[id].spec, want)
    ensures forall id | id in items && Agrees(items[id].spec, want) :: Some(id) == exact
  {
    hide VnetId;
  }

  predicate AttachmentsReady(atts: Attachments) {
    forall id | id in atts :: atts[id].state == Some(Ready)
  }

  lemma OnlyExactLeft(pre: Attachments, post: Attachments, items: Attachments, deleted: set<string>, ids: seq<string>,
                      exact: Option<string>, want: Desired)
    requires Untouched(pre, items, deleted, want) && Shrunk(pre, post, ids) && OnePerPair(items)
    requires forall id :: id in ids <==> id in items && OnNic(items[id], want) && !SamePair(items[id].spec, want)
    requires forall i | 0 <= i < |ids| :: ids[i] !in post
    requires exact.Some? ==> exact.value in items && SamePair(items[exact.value].spec, want)
    requires exact.None? ==> forall id | id in items :: !SamePair(items[id].spec, want)
    ensures forall id | id in post && OnNic(post[id], want) :: Some(id) == exact
  {
    forall id | id in post && OnNic(post[id], want) ensures Some(id) == exact {
      assert id in items && items[id] == post[id] && id !in ids;
      assert SamePair(items[id].spec, want);
    }
  }

  // ---- All NICs ----

  /** Handling one NIC leaves the others' attachments and their listing entries alone. */
  lemma OtherNicKept(pre: Attachments, post: Attachments, items: Attachments, deleted: set<string>,
                     deleted': set<string>,
                     want: Desired, other: Desired)
    requires OthersSame(pre, post, want) && DeletedOnNic(items, deleted, deleted', want)
             && !SameNic(want.mac, other.mac)
    ensures Untouched(pre, items, deleted, other) ==> Untouched(post, items, deleted', other)
    ensures Served(pre, other) ==> Served(post, other)
  {
    assert forall a: Attachment | OnNic(a, other) :: !OnNic(a, want);
    hide SameNic, OnNic;
    if Served(pre, other) {
      var id :| id in pre && ServedBy(pre, id, other);
      AgreesOnNic(pre[id], other);
      assert ServedBy(post, id, other);
    }
  }

  lemma AgreesOnNic(a: Attachment, want: Desired)
    ensures Agrees(a.spec, want) ==> OnNic(a, want)
  {
  }

  /** Ready entries up to `n` are served. */
  predicate ServedUpTo(cfg: Config, phases: seq<Phase>, n: nat, atts: Attachments)
    requires n <= |cfg| == |phases|
  {
    forall j | 0 <= j < n && cfg[j].vni != 0 && phases[j] == Ready :: Served(atts, cfg[j])
  }

  /** Every attached entry up to `n` whose network was in place has come to one of its possible ends. */
  ghost predicate ResolvedUpTo(cfg: Config, phases0: seq<Phase>, phases: seq<Phase>, n: nat, items: Attachments,
                              log: seq<Event>, from: nat, atts: Attachments)
    requires n <= |cfg| == |phases| == |phases0|
  {
    forall j | 0 <= j < n && cfg[j].vni != 0 && phases0[j] == Ready ::
      Resolves(items, log, from, atts, cfg[j], phases[j])
  }

  lemma OtherResolves(items: Attachments, log: seq<Event>, log': seq<Event>, from: nat, pre: Attachments,
                     post: Attachments, want: Desired, other: Desired, phase: Phase)
    requires Resolves(items, log, from, pre, other, phase) && Extends(log, log')
    requires OthersSame(pre, post, want) && !SameNic(want.mac, other.mac)
    ensures Resolves(items, log', from, post, other, phase)
  {
    ResolvesLater(items, log, log', from, from, pre, other, phase);
    assert forall a: Attachment | OnNic(a, other) :: !OnNic(a, want);
    hide SameNic, OnNic, SpecFor, Lost, VnetId;
    if InPlace(items, pre, other, phase) {
      var id :| id in pre && InPlaceBy(items, pre, id, other, phase);
      AgreesOnNic(pre[id], other);
      assert InPlaceBy(items, post, id, other, phase);
    }
  }

  lemma ResolvedStep(cfg: Config, i: nat, phases0: seq<Phase>, phases: seq<Phase>, phase: Phase, items: Attachments,
                    log: seq<Event>, log': seq<Event>, from: nat, pre: Attachments, post: Attachments)
    requires WellFormed(cfg) && i < |cfg| == |phases| == |phases0|
    requires ResolvedUpTo(cfg, phases0, phases, i, items, log, from, pre)
    requires Extends(log, log') && from <= |log| && OthersSame(pre, post, cfg[i])
    requires Resolves(items, log', |log|, post, cfg[i], phase)
    ensures ResolvedUpTo(cfg, phases0, phases[i := phase], i + 1, items, log', from, post)
  {
    hide SameNic, OthersSame, Resolves;
    ResolvesLater(items, log', log', |log|, from, post, cfg[i], phase);
    forall j | 0 <= j < i && cfg[j].vni != 0 && phases0[j] == Ready
      ensures Resolves(items, log', from, post, cfg[j], phases[j])
    {
      assert !SameNic(cfg[j].mac, cfg[i].mac);
      SameNicSymmetric(cfg[i].mac, cfg[j].mac);
      OtherResolves(items, log, log', from, pre, post, cfg[i], cfg[j], phases[j]);
    }
  }

  predicate UntouchedFrom(cfg: Config, n: nat, atts: Attachments, items: Attachments, deleted: set<string>) {
    forall j | n <= j < |cfg| :: Untouched(atts, items, deleted, cfg[j])
  }

  /** Every attached entry can be expressed as a spec. */
  predicate Buildable(cfg: Config) {
    forall j | 0 <= j < |cfg| && cfg[j].vni != 0 :: SpecFor(cfg[j]).Some?
  }

  /** If the book knows the configuration's revision, it denotes this configuration. */
  predicate Registered(cfg: Config, book: Book) {
    forall j | 0 <= j < |cfg| && cfg[j].revision in book :: book[cfg[j].revision] == cfg
  }

  predicate AllPhasesReady(phases: seq<Phase>) {
    forall j | 0 <= j < |phases| :: phases[j] == Ready
  }

  lemma NicStep(cfg: Config, i: nat, pre: Attachments, post: Attachments, f: Frame, deleted: set<string>,
                deleted': set<string>,
                phases: seq<Phase>, phase: Phase)
    requires WellFormed(cfg) && i < |cfg| == |phases|
    requires NicHandled(pre, post, f, deleted, deleted', cfg[i], phase)
    requires ServedUpTo(cfg, phases, i, pre) && UntouchedFrom(cfg, i, pre, f.items, deleted)
    ensures ServedUpTo(cfg, phases[i := phase], i + 1, post) && UntouchedFrom(cfg, i + 1, post, f.items, deleted')
  {
    hide SameNic, OnNic, Served, Untouched, OthersSame, DeletedOnNic;
    forall j | 0 <= j < |cfg| && j != i
      ensures Untouched(pre, f.items, deleted, cfg[j]) ==> Untouched(post, f.items, deleted', cfg[j])
      ensures Served(pre, cfg[j]) ==> Served(post, cfg[j])
    {
      assert !SameNic(cfg[i].mac, cfg[j].mac) by {
        if i > j {
          assert !SameNic(cfg[j].mac, cfg[i].mac);
          SameNicSymmetric(cfg[i].mac, cfg[j].mac);
        }
      }
      OtherNicKept(pre, post, f.items, deleted, deleted', cfg[i], cfg[j]);
    }
  }

  lemma SameNicSymmetric(a: string, b: string)
    ensures SameNic(a, b) <==> SameNic(b, a)
  {
  }

  /** The pass over the entries; entries that are not Ready, or detached, are skipped. */
  method AttachPass(server: Server, cfg: Config, phases0: seq<Phase>, order: seq<string>, items: Attachments,
                    ghost f: Frame)
    returns (phases: seq<Phase>, deleted: set<string>)
    requires WellFormed(cfg) && |phases0| == |cfg| && f.cfg == cfg && Registered(cfg, f.book)
    requires items == f.items && Orders(order, items.Keys) && OnePerPair(items)
    requires Running(server.State(), server.log, f, {}, server.retired) && server.attachments == items
    requires NetworksServe(cfg, phases0, server.networks)
    modifies server`attachments, server`retired, server`log
    ensures Running(server.State(), server.log, f, deleted, server.retired) && Extends(old(server.log), server.log)
    ensures |phases| == |cfg| && ServedUpTo(cfg, phases, |cfg|, server.attachments)
    ensures forall j | 0 <= j < |cfg| && (cfg[j].vni == 0 || phases0[j] != Ready) :: phases[j] == phases0[j]
    ensures Smooth(server.log, |old(server.log)|) && Buildable(cfg) && AttachmentsReady(items)
            && AllPhasesReady(phases0) ==>
              AllPhasesReady(phases)
    ensures (forall j | 0 <= j < |cfg| :: cfg[j].vni == 0) ==>
              server.log == old(server.log) && deleted == {} && server.attachments == old(server.attachments)
    ensures ResolvedUpTo(cfg, phases0, phases, |cfg|, items, server.log, |old(server.log)|, server.attachments)
  {
    hide Running, SameNic, VnetId, SpecFor, Smooth, NicHandled, Untouched, Served, ResolvedUpTo, Resolves;
    ghost var log0 := server.log;
    SmoothNow(log0);
    NoneResolved(cfg, phases0, items, server.log, |log0|, server.attachments);
    StartUntouched(cfg, items);
    phases, deleted := phases0, {};
    for i := 0 to |cfg|
      invariant Running(server.State(), server.log, f, deleted, server.retired) && Extends(log0, server.log)
      invariant |phases| == |cfg| && ServedUpTo(cfg, phases, i, server.attachments)
      invariant UntouchedFrom(cfg, i, server.attachments, items, deleted)
      invariant forall j | 0 <= j < |cfg| && (i <= j || cfg[j].vni == 0 || phases0[j] != Ready) ::
                  phases[j] == phases0[j]
      invariant Smooth(server.log, |log0|) && Buildable(cfg) && AttachmentsReady(items) && AllPhasesReady(phases0) ==>
                  AllPhasesReady(phases)
      invariant (forall j | 0 <= j < i :: cfg[j].vni == 0) ==>
                  server.log == log0 && deleted == {} && server.attachments == old(server.attachments)
      invariant ResolvedUpTo(cfg, phases0, phases, i, items, server.log, |log0|, server.attachments)
    {
      if phases[i] != Ready || cfg[i].vni == 0 {
        ResolvedSkip(cfg, i, phases0, phases, items, server.log, |log0|, server.attachments);
        continue;
      }
      ghost var log, pre, deleted0 := server.log, server.attachments, deleted;
      var phase;
      phase, deleted := AttachOne(server, cfg[i], order, deleted, items, f);
      NicStep(cfg, i, pre, server.attachments, f, deleted0, deleted, phases, phase);
      HandledOthers(pre, server.attachments, f, deleted0, deleted, cfg[i], phase);
      ResolvedStep(cfg, i, phases0, phases, phase, items, log, server.log, |log0|, pre, server.attachments);
      phases := phases[i := phase];
      SmoothSplit(log, server.log, |log0|);
    }
  }

  lemma NoneResolved(cfg: Config, phases0: seq<Phase>, items: Attachments, log: seq<Event>, from: nat,
                    atts: Attachments)
    requires |phases0| == |cfg|
    ensures ResolvedUpTo(cfg, phases0, phases0, 0, items, log, from, atts)
  {
  }

  lemma ResolvedSkip(cfg: Config, i: nat, phases0: seq<Phase>, phases: seq<Phase>, items: Attachments, log: seq<Event>,
                    from: nat, atts: Attachments)
    requires i < |cfg| == |phases| == |phases0| && ResolvedUpTo(cfg, phases0, phases, i, items, log, from, atts)
    requires phases0[i] != Ready || cfg[i].vni == 0
    ensures ResolvedUpTo(cfg, phases0, phases, i + 1, items, log, from, atts)
  {
    hide Resolves;
  }

  lemma HandledOthers(pre: Attachments, post: Attachments, f: Frame, deleted: set<string>, deleted': set<string>,
                      want: Desired, phase: Phase)
    requires NicHandled(pre, post, f, deleted, deleted', want, phase)
    ensures OthersSame(pre, post, want)
  {
  }

  lemma StartUntouched(cfg: Config, items: Attachments)
    ensures UntouchedFrom(cfg, 0, items, items, {})
  {
  }

  // ---- Removing the rest ----

  /** Removing an attachment the configuration does not ask for serves every entry as before. */
  lemma UnwantedRemoved(cfg: Config, phases: seq<Phase>, atts: Attachments, id: string)
    requires |cfg| == |phases| && ServedUpTo(cfg, phases, |cfg|, atts)
    requires id in atts ==> !InConfig(atts[id].spec, cfg)
    ensures ServedUpTo(cfg, phases, |cfg|, atts - {id})
  {
    forall j | 0 <= j < |cfg| && cfg[j].vni != 0 && phases[j] == Ready ensures Served(atts - {id}, cfg[j]) {
      assert Served(atts, cfg[j]);
      var k :| k in atts && ServedBy(atts, k, cfg[j]);
      assert InConfig(atts[k].spec, cfg);
      assert ServedBy(atts - {id}, k, cfg[j]);
    }
  }

  /** Only attachments the configuration does not ask for may be missing. */
  predicate UnwantedGone(pre: Attachments, post: Attachments, cfg: Config) {
    && (forall id | id in post :: id in pre && post[id] == pre[id])
    && (forall id | id in pre && InConfig(pre[id].spec, cfg) :: id in post)
  }

  lemma UnwantedGoneTrans(a: Attachments, b: Attachments, c: Attachments, cfg: Config)
    requires UnwantedGone(a, b, cfg) && UnwantedGone(b, c, cfg)
    ensures UnwantedGone(a, c, cfg)
  {
    hide InConfig;
  }

  /** Removing them changes no entry's end. */
  lemma UnwantedResolved(cfg: Config, phases0: seq<Phase>, phases: seq<Phase>, items: Attachments, log: seq<Event>,
                        log': seq<Event>, from: nat, pre: Attachments, post: Attachments)
    requires |cfg| == |phases| == |phases0| && Extends(log, log') && UnwantedGone(pre, post, cfg)
    requires ResolvedUpTo(cfg, phases0, phases, |cfg|, items, log, from, pre)
    ensures ResolvedUpTo(cfg, phases0, phases, |cfg|, items, log', from, post)
  {
    hide Resolves;
    forall j | 0 <= j < |cfg| && cfg[j].vni != 0 && phases0[j] == Ready
      ensures Resolves(items, log', from, post, cfg[j], phases[j])
    {
      UnwantedResolves(cfg, j, items, log, log', from, pre, post, phases[j]);
    }
  }

  lemma UnwantedResolves(cfg: Config, j: nat, items: Attachments, log: seq<Event>, log': seq<Event>, from: nat,
                        pre: Attachments, post: Attachments, phase: Phase)
    requires j < |cfg| && Extends(log, log') && UnwantedGone(pre, post, cfg)
    requires Resolves(items, log, from, pre, cfg[j], phase)
    ensures Resolves(items, log', from, post, cfg[j], phase)
  {
    hide Agrees, OnNic, SpecFor, Lost, InConfig, PhaseOr;
    ResolvesLater(items, log, log', from, from, pre, cfg[j], phase);
    if InPlace(items, pre, cfg[j], phase) {
      var id :| id in pre && InPlaceBy(items, pre, id, cfg[j], phase);
      AgreesInConfig(pre[id].spec, cfg, j);
      assert InPlaceBy(items, post, id, cfg[j], phase);
    }
  }

  lemma AgreesInConfig(s: Spec, cfg: Config, j: nat)
    requires j < |cfg| && Agrees(s, cfg[j])
    ensures InConfig(s, cfg)
  {
  }

  /** One listed attachment the configuration does not ask for. */
  method PruneAttachment(server: Server, cfg: Config, phases: seq<Phase>, id: string, deleted: set<string>,
                         ghost f: Frame)
    returns (ok: bool, deleted': set<string>)
    requires Running(server.State(), server.log, f, deleted, server.retired) && f.cfg == cfg && id !in deleted
    requires |cfg| == |phases| && ServedUpTo(cfg, phases, |cfg|, server.attachments)
    requires id in f.items && !InConfig(f.items[id].spec, cfg)
    modifies server`attachments, server`retired, server`log
    ensures Running(server.State(), server.log, f, deleted', server.retired) && Extends(old(server.log), server.log)
    ensures ServedUpTo(cfg, phases, |cfg|, server.attachments)
    ensures UnwantedGone(old(server.attachments), server.attachments, cfg)
    ensures deleted <= deleted'
    ensures ok && id != "" ==> id !in server.attachments
    ensures Answered(server.log, |old(server.log)|) ==> ok
  {
    if id == "" {
      return true, deleted;
    }
    TrackedSpec(server.State(), server.log, f, deleted, server.retired, id);
    hide Running, InConfig, Served;
    UnwantedRemoved(cfg, phases, server.attachments, id);
    ok, deleted' := DeleteMatch(server, id, deleted, f);
  }

  lemma TrackedSpec(st: ServerState, log: seq<Event>, f: Frame, deleted: set<string>, retired: set<string>, id: string)
    requires Running(st, log, f, deleted, retired) && id in f.items && id !in deleted
    ensures id in st.attachments ==> st.attachments[id].spec == f.items[id].spec
  {
  }

  method PrunePassAttachments(server: Server, cfg: Config, phases: seq<Phase>, order: seq<string>, items: Attachments,
                              deleted0: set<string>, ghost f: Frame)
    returns (ok: bool)
    requires Running(server.State(), server.log, f, deleted0, server.retired) && f.cfg == cfg
    requires items == f.items && Orders(order, items.Keys) && "" !in items
    requires |cfg| == |phases| && ServedUpTo(cfg, phases, |cfg|, server.attachments)
    modifies server`attachments, server`retired, server`log
    ensures exists deleted :: Running(server.State(), server.log, f, deleted, server.retired)
    ensures Extends(old(server.log), server.log)
    ensures ServedUpTo(cfg, phases, |cfg|, server.attachments)
    ensures UnwantedGone(old(server.attachments), server.attachments, cfg)
    ensures ok ==> AllInConfig(server.attachments, cfg)
    ensures Answered(server.log, |old(server.log)|) ==> ok
    ensures items == map[] ==> server.log == old(server.log) && server.attachments == old(server.attachments)
  {
    hide Running, InConfig, ServedUpTo, Answered, UnwantedGone;
    ghost var log0 := server.log;
    NoneGone(server.attachments, cfg);
    assert |order| > 0 ==> order[0] in items;
    ok := true;
    var deleted := deleted0;
    for i := 0 to |order|
      invariant Running(server.State(), server.log, f, deleted, server.retired) && Extends(log0, server.log)
      invariant ServedUpTo(cfg, phases, |cfg|, server.attachments)
      invariant UnwantedGone(old(server.attachments), server.attachments, cfg)
      invariant deleted0 <= deleted
      invariant forall j | 0 <= j < i && order[j] in server.attachments && order[j] !in deleted ::
                  InConfig(items[order[j]].spec, cfg)
      invariant i == 0 ==> server.log == log0 && server.attachments == old(server.attachments)
    {
      assert order[i] in items;
      if order[i] in deleted || InConfig(items[order[i]].spec, cfg) {
        continue;
      }
      ghost var log, pre := server.log, server.attachments;
      ok, deleted := PruneAttachment(server, cfg, phases, order[i], deleted, f);
      AnsweredSplit(log, server.log, |log0|);
      UnwantedGoneTrans(old(server.attachments), pre, server.attachments, cfg);
      assert forall k | k in server.attachments :: k in pre by { GoneShrinks(pre, server.attachments, cfg); }
      if !ok {
        return;
      }
    }
    LeftIsWanted(server.State(), server.log, f, deleted, server.retired, order);
  }

  lemma NoneGone(atts: Attachments, cfg: Config)
    ensures UnwantedGone(atts, atts, cfg)
  {
  }

  lemma GoneShrinks(pre: Attachments, post: Attachments, cfg: Config)
    requires UnwantedGone(pre, post, cfg)
    ensures forall k | k in post :: k in pre
  {
  }

  lemma LeftIsWanted(st: ServerState, log: seq<Event>, f: Frame, deleted: set<string>, retired: set<string>,
                     order: seq<string>)
    requires Running(st, log, f, deleted, retired) && Orders(order, f.items.Keys)
    requires forall j | 0 <= j < |order| && order[j] in st.attachments && order[j] !in deleted ::
               InConfig(f.items[order[j]].spec, f.cfg)
    ensures AllInConfig(st.attachments, f.cfg)
  {
    hide InConfig;
    forall id | id in st.attachments ensures InConfig(st.attachments[id].spec, f.cfg) {
      if id in f.items && id !in deleted {
        var j :| 0 <= j < |order| && order[j] == id;
      }
    }
  }

  /** Phase two. */
  method CreateUpdateAttachments(server: Server, cfg: Config, phases0: seq<Phase>, ghost book: Book)
    returns (ok: bool, phases: seq<Phase>)
    requires WellFormed(cfg) && |phases0| == |cfg| && Registered(cfg, book)
    requires Kept(server.State(), book) && NetworksServe(cfg, phases0, server.networks)
    modifies server`attachments, server`retired, server`log
    ensures Kept(server.State(), book) && |phases| == |cfg|
    ensures Extends(old(server.log), server.log) && OnlyAttachmentCalls(server.log, |old(server.log)|)
    ensures LogKept(server.log, |old(server.log)|, book) && DeletesOnce(server.log, |old(server.log)|)
    ensures ServedUpTo(cfg, phases, |cfg|, server.attachments)
    ensures ok ==> forall j | 0 <= j < |cfg| && (cfg[j].vni == 0 || phases0[j] != Ready) :: phases[j] == phases0[j]
    ensures ok ==> AllInConfig(server.attachments, cfg)
    ensures ok ==>
              ResolvedUpTo(cfg, phases0, phases, |cfg|, old(server.attachments), server.log, |old(server.log)|,
                          server.attachments)
    ensures Answered(server.log, |old(server.log)|) ==> ok
    ensures Smooth(server.log, |old(server.log)|) && Buildable(cfg) && AttachmentsReady(old(server.attachments))
            && AllPhasesReady(phases0) ==>
              AllPhasesReady(phases)
    ensures old(server.attachments) == map[] && (forall j | 0 <= j < |cfg| :: cfg[j].vni == 0) ==>
              && server.attachments == old(server.attachments)
              && |server.log| == |old(server.log)| + 1 && server.log[|old(server.log)|].call.ListAttachments?
  {
    hide Kept, NetworksServe, Registered, AllInConfig, LogKept, DeletesOnce, OnlyAttachmentCalls,
         ServedUpTo, Buildable, AttachmentsReady, AllPhasesReady, Smooth, Running, Answered, ResolvedUpTo, UnwantedGone;
    ghost var log0 := server.log;
    var order, items;
    ok, order, items := server.ListAttachments();
    ghost var log1 := server.log;
    ghost var f := Frame(|log0|, cfg, server.attachments, book);
    phases := seq(|cfg|, _ => Error);
    StartRunning(server.State(), log0, log1, f, server.retired, phases);
    SmoothAnswered(log1, |log0|);
    if !ok {
      return;
    }
    var deleted;
    phases, deleted := AttachPass(server, cfg, phases0, order, items, f);
    ghost var log2 := server.log;
    ghost var mid := server.attachments;
    ResolvedEarlier(cfg, phases0, phases, items, log2, |log1|, |log0|, mid);
    ok := PrunePassAttachments(server, cfg, phases, order, items, deleted, f);
    UnwantedResolved(cfg, phases0, phases, items, log2, server.log, |log0|, mid, server.attachments);
    SmoothSplit(log1, log2, |log0|);
    SmoothSplit(log2, server.log, |log0|);
    AnsweredSplit(log2, server.log, |log0|);
    ghost var d :| Running(server.State(), server.log, f, d, server.retired);
    RunningGives(server.State(), server.log, f, d, server.retired);
  }

  lemma StartRunning(st: ServerState, log: seq<Event>, log': seq<Event>, f: Frame, retired: set<string>,
                     phases: seq<Phase>)
    requires Kept(st, f.book) && |log'| == |log| + 1 && log'[..|log|] == log && f.from == |log|
             && f.items == st.attachments
    requires log'[|log|].after == st && log'[|log|].call.ListAttachments?
    requires |phases| == |f.cfg| && forall j | 0 <= j < |phases| :: phases[j] == Error
    ensures Running(st, log', f, {}, retired) && OnePerPair(f.items)
    ensures LogKept(log', |log|, f.book) && DeletesOnce(log', |log|) && OnlyAttachmentCalls(log', |log|)
    ensures Answered(log', |log|) ==> log'[|log|].reply.Done?
    ensures ServedUpTo(f.cfg, phases, |f.cfg|, f.items)
  {
    hide SameNic, InConfig;
  }

  lemma RunningGives(st: ServerState, log: seq<Event>, f: Frame, deleted: set<string>, retired: set<string>)
    requires Running(st, log, f, deleted, retired)
    ensures Kept(st, f.book) && LogKept(log, f.from, f.book) && DeletesOnce(log, f.from)
            && OnlyAttachmentCalls(log, f.from)
  {
  }

  lemma ResolvedEarlier(cfg: Config, phases0: seq<Phase>, phases: seq<Phase>, items: Attachments, log: seq<Event>,
                       from: nat, from': nat, atts: Attachments)
    requires |cfg| == |phases| == |phases0| && from' <= from
    requires ResolvedUpTo(cfg, phases0, phases, |cfg|, items, log, from, atts)
    ensures ResolvedUpTo(cfg, phases0, phases, |cfg|, items, log, from', atts)
  {
    hide Resolves;
    forall j | 0 <= j < |cfg| && cfg[j].vni != 0 && phases0[j] == Ready
      ensures Resolves(items, log, from', atts, cfg[j], phases[j])
    {
      ResolvesLater(items, log, log, from, from', atts, cfg[j], phases[j]);
    }
  }

  /** If every call was answered, whatever states were reported, an entry that can be expressed has exactly its
      attachment, and its phase is reported. */
  lemma AnsweredPlaces(items: Attachments, log: seq<Event>, from: nat, atts: Attachments, want: Desired, phase: Phase)
    requires Resolves(items, log, from, atts, want, phase) && Answered(log, from) && SpecFor(want).Some?
    ensures InPlace(items, atts, want, phase)
  {
    hide Concerns, SpecFor, InPlace;
  }
}
