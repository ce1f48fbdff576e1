/** The Weave server as its only client sees it. Any call may be answered with a failure, and a failed
    call may still have taken effect (the answer was lost). */
module WeaveServer {
  import opened Options
  import opened WeaveTypes

  datatype Call =
    | ListNetworks
    | ListAttachments
    | CreateNetwork(id: string)
    | UpdateNetwork(id: string)
    | DeleteNetwork(id: string)
    | CreateAttachment(spec: Spec)
    | UpdateAttachment(id: string)
    | DeleteAttachment(id: string)

  /** `Done` carries the state the server reports, if any. */
  datatype Reply = Failed | Done(state: Option<Phase>)

  /** A call, its answer, and the server right after it. */
  datatype Event = Event(call: Call, reply: Reply, after: ServerState)

  function PhaseOf(r: Reply): (p: Phase) {
    if r.Done? then PhaseOr(r.state) else Error
  }

  /** The keys of a listing, in the server's order. */
  ghost predicate Orders(order: seq<string>, ids: set<string>) {
    && (forall id :: id in order <==> id in ids)
    && (forall i, j | 0 <= i < j < |order| :: order[i] != order[j])
  }

  method Order(ids: set<string>) returns (order: seq<string>)
    ensures Orders(order, ids)
  {
    order := [];
    var left := ids;
    while left != {}
      invariant left <= ids
      invariant forall id :: id in order <==> id in ids && id !in left
      invariant forall i, j | 0 <= i < j < |order| :: order[i] != order[j]
      decreases left
    {
      var id :| id in left;
      order := order + [id];
      left := left - {id};
    }
  }

  ghost predicate NetworkAdded(pre: map<string, Network>, post: map<string, Network>, id: string, vni: nat,
                               subnet: string, revision: string) {
    && id !in pre && id in post
    && post == pre[id := Network(vni, subnet, Some(revision), post[id].state)]
  }

  ghost predicate NetworkStamped(pre: map<string, Network>, post: map<string, Network>, id: string, revision: string) {
    && id in pre && id in post
    && post == pre[id := pre[id].(revision := Some(revision), state := post[id].state)]
  }

  ghost predicate AttachmentAdded(pre: map<string, Attachment>, post: map<string, Attachment>, id: string, spec: Spec,
                                  revision: string) {
    && id !in pre && id in post && id != ""
    && post == pre[id := Attachment(spec, Some(revision), post[id].state)]
  }

  ghost predicate AttachmentStamped(pre: map<string, Attachment>, post: map<string, Attachment>, id: string,
                                    revision: string) {
    && id in pre && id in post
    && post == pre[id := pre[id].(revision := Some(revision), state := post[id].state)]
  }

  class Server {
    var networks: map<string, Network>
    var attachments: map<string, Attachment>
    ghost var log: seq<Event>
    var retired: set<string>  // ids of attachments removed by a delete whose answer was lost

    ghost function State(): ServerState
      reads this
    {
      ServerState(networks, attachments)
    }

    /** The log grows by this call. */
    twostate predicate Logged(call: Call, reply: Reply)
      reads this
    {
      log == old(log) + [Event(call, reply, State())]
    }

    method ListNetworks() returns (ok: bool, order: seq<string>, items: map<string, Network>)
      modifies this`log
      ensures Logged(Call.ListNetworks, if ok then Done(None) else Failed)
      ensures ok ==> items == networks && Orders(order, items.Keys)
    {
      order, items := [], map[];
      ok := *;
      if ok {
        items := networks;
        order := Order(networks.Keys);
      }
      log := log + [Event(Call.ListNetworks, if ok then Done(None) else Failed, State())];
    }

    method ListAttachments() returns (ok: bool, order: seq<string>, items: map<string, Attachment>)
      modifies this`log
      ensures Logged(Call.ListAttachments, if ok then Done(None) else Failed)
      ensures ok ==> items == attachments && Orders(order, items.Keys)
    {
      order, items := [], map[];
      ok := *;
      if ok {
        items := attachments;
        order := Order(attachments.Keys);
      }
      log := log + [Event(Call.ListAttachments, if ok then Done(None) else Failed, State())];
    }

    /** Ids are unique: a second network with the same id is refused. */
    method CreateNetwork(id: string, vni: nat, subnet: string, revision: string) returns (r: Reply)
      modifies this`networks, this`log
      ensures Logged(Call.CreateNetwork(id), r)
      ensures networks == old(networks) || NetworkAdded(old(networks), networks, id, vni, subnet, revision)
      ensures r.Done? ==>
                NetworkAdded(old(networks), networks, id, vni, subnet, revision) && networks[id].state == r.state
    {
      var applied: bool, answered: bool, state: Option<Phase> := *, *, *;
      r := Failed;
      if applied && id !in networks {
        networks := networks[id := Network(vni, subnet, Some(revision), state)];
        if answered {
          r := Done(state);
        }
      }
      log := log + [Event(Call.CreateNetwork(id), r, State())];
    }

    method UpdateNetwork(id: string, revision: string) returns (r: Reply)
      modifies this`networks, this`log
      ensures Logged(Call.UpdateNetwork(id), r)
      ensures networks == old(networks) || NetworkStamped(old(networks), networks, id, revision)
      ensures r.Done? ==> NetworkStamped(old(networks), networks, id, revision) && networks[id].state == r.state
    {
      var applied: bool, answered: bool, state: Option<Phase> := *, *, *;
      r := Failed;
      if applied && id in networks {
        networks := networks[id := networks[id].(revision := Some(revision), state := state)];
        if answered {
          r := Done(state);
        }
      }
      log := log + [Event(Call.UpdateNetwork(id), r, State())];
    }

    method DeleteNetwork(id: string) returns (r: Reply)
      modifies this`networks, this`log
      ensures Logged(Call.DeleteNetwork(id), r)
      ensures networks == old(networks) || networks == old(networks) - {id}
      ensures r.Done? ==> networks == old(networks) - {id}
    {
      var applied: bool, answered: bool := *, *;
      r := Failed;
      if applied {
        networks := networks - {id};
        if answered {
          r := Done(None);
        }
      }
      log := log + [Event(Call.DeleteNetwork(id), r, State())];
    }

    /** The server picks the id. It may reuse ids, but not one whose delete it never acknowledged. */
    method CreateAttachment(spec: Spec, revision: string) returns (r: Reply, ghost id: string)
      modifies this`attachments, this`log
      ensures Logged(Call.CreateAttachment(spec), r)
      ensures attachments != old(attachments) ==>
                AttachmentAdded(old(attachments), attachments, id, spec, revision) && id !in retired
      ensures r.Done? ==>
                AttachmentAdded(old(attachments), attachments, id, spec, revision) && attachments[id].state == r.state
      ensures r.Done? ==> id !in retired
    {
      var applied: bool, answered: bool, state: Option<Phase>, name: string := *, *, *, *;
      r := Failed;
      if applied && name != "" && name !in attachments && name !in retired {
        attachments := attachments[name := Attachment(spec, Some(revision), state)];
        if answered {
          r := Done(state);
        }
      }
      id := name;
      log := log + [Event(Call.CreateAttachment(spec), r, State())];
    }

    method UpdateAttachment(id: string, revision: string) returns (r: Reply)
      modifies this`attachments, this`log
      ensures Logged(Call.UpdateAttachment(id), r)
      ensures attachments == old(attachments) || AttachmentStamped(old(attachments), attachments, id, revision)
      ensures r.Done? ==>
                AttachmentStamped(old(attachments), attachments, id, revision) && attachments[id].state == r.state
    {
      var applied: bool, answered: bool, state: Option<Phase> := *, *, *;
      r := Failed;
      if applied && id in attachments {
        attachments := attachments[id := attachments[id].(revision := Some(revision), state := state)];
        if answered {
          r := Done(state);
        }
      }
      log := log + [Event(Call.UpdateAttachment(id), r, State())];
    }

    method DeleteAttachment(id: string) returns (r: Reply)
      modifies this`attachments, this`retired, this`log
      ensures Logged(Call.DeleteAttachment(id), r)
      ensures r.Done? ==> attachments == old(attachments) - {id} && retired == old(retired)
      ensures r.Failed? ==>
                || (attachments == old(attachments) && retired == old(retired))
                || (attachments == old(attachments) - {id} && retired == old(retired) + {id})
    {
      var applied: bool, answered: bool := *, *;
      r := Failed;
      if applied {
        attachments := attachments - {id};
        if answered {
          r := Done(None);
        } else {
          retired := retired + {id};
        }
      }
      log := log + [Event(Call.DeleteAttachment(id), r, State())];
    }
  }
}
