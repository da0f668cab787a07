/** The node handlers: inspect with the node's tasks, accept, activate and remove. The
    node is resolved by ID or name; the update and removal calls are the control plane's
    and not part of this model, so each handler ends with what it would submit. */
module HandlersNode {
  import opened Common
  import opened SwarmApi
  import opened Swarmkit
  import opened HandlersTask

  datatype Membership = Pending | Accepted

  datatype Availability = Active | Pause | Drain

  datatype NodeSpec = NodeSpec(membership: Membership, availability: Availability)

  datatype Node = Node(id: string, version: nat, spec: NodeSpec)

  /** An update request: the node's ID and version stamp and the new specification. */
  datatype NodeUpdate = NodeUpdate(nodeID: string, version: nat, spec: NodeSpec)

  /** A node together with the tasks shown for it. */
  datatype NodeView = NodeView(node: Node, tasks: seq<Task>)

  /** A task is shown for the node when it runs there and, unless `all` is set, is
      desired to be at most running. */
  predicate OnNode(nodeID: string, all: bool, t: Task) {
    t.nodeID == nodeID && (all || t.desiredState <= TaskStateRunning)
  }

  /** inspectNode: resolve the node, list every task (errors passed on), keep the
      node's tasks. */
  method InspectNode(nodeInput: string, allQuery: string, store: Store<Node>, listTasks: Result<seq<Task>>)
    returns (r: Result<NodeView>)
    ensures Resolve(NodeKind, store, nodeInput).Err? ==> r == Err(Resolve(NodeKind, store, nodeInput).error)
    ensures Resolve(NodeKind, store, nodeInput).Ok? && listTasks.Err? ==> r == Err(listTasks.error)
    ensures r.Ok? ==>
      && Resolve(NodeKind, store, nodeInput) == Ok(r.value.node) && listTasks.Ok?
      && r.value.tasks == Filter(listTasks.value, t => OnNode(r.value.node.id, AllFlag(allQuery), t))
    ensures Resolve(NodeKind, store, nodeInput).Ok? && listTasks.Ok? ==> r.Ok?
  {
    var all := AllFlag(allQuery);
    var node := Resolve(NodeKind, store, nodeInput);
    if node.Err? {
      return Err(node.error);
    }
    if listTasks.Err? {
      return Err(listTasks.error);
    }
    var id := node.value.id;
    var tasks := FilterLoop(listTasks.value, t => OnNode(id, all, t));
    return Ok(NodeView(node.value, tasks));
  }

  /** The tasks shown all run on the node and respect the flag; every task of the node
      desired at most running is shown; the order is the listing's. */
  lemma OnNodeSpec(nodeID: string, all: bool, tasks: seq<Task>)
    ensures var r := Filter(tasks, t => OnNode(nodeID, all, t));
      && IsSubsequence(r, tasks)
      && (forall i :: 0 <= i < |r| ==> r[i].nodeID == nodeID && (all || r[i].desiredState <= TaskStateRunning))
      && (forall i :: 0 <= i < |tasks| && tasks[i].nodeID == nodeID && tasks[i].desiredState <= TaskStateRunning ==> tasks[i] in r)
  {
    FilterIsSubsequence(tasks, t => OnNode(nodeID, all, t));
  }

  /** acceptNode as a function of the input and the store. */
  function AcceptNodeOf(nodeInput: string, store: Store<Node>): Result<NodeUpdate> {
    match Resolve(NodeKind, store, nodeInput)
    case Err(e) => Err(e)
    case Ok(node) =>
      if node.spec.membership == Accepted then Err(AlreadyAccepted(nodeInput))
      else Ok(NodeUpdate(node.id, node.version, node.spec.(membership := Accepted)))
  }

  /** acceptNode: a resolution error is reported (the source then dereferences the nil
      node, so nothing is submitted); an accepted node is refused, naming the input;
      otherwise the membership is set to accepted and submitted with the stored
      version. */
  method AcceptNode(nodeInput: string, store: Store<Node>) returns (r: Result<NodeUpdate>)
    ensures r == AcceptNodeOf(nodeInput, store)
  {
    var node := Resolve(NodeKind, store, nodeInput);
    if node.Err? {
      return Err(node.error);
    }
    var spec := node.value.spec;
    if spec.membership == Accepted {
      return Err(AlreadyAccepted(nodeInput));
    }
    spec := spec.(membership := Accepted);
    return Ok(NodeUpdate(node.value.id, node.value.version, spec));
  }

  /** Accepting fails as already accepted exactly when the resolved node is accepted;
      a submission is for the resolved node's ID and version and changes its
      membership to accepted and nothing else. */
  lemma AcceptNodeSpec(nodeInput: string, store: Store<Node>)
    ensures var r := AcceptNodeOf(nodeInput, store);
      var n := Resolve(NodeKind, store, nodeInput);
      && (r == Err(AlreadyAccepted(nodeInput)) <==> n.Ok? && n.value.spec.membership == Accepted)
      && (r.Ok? ==> && n.Ok? && r.value.nodeID == n.value.id && r.value.version == n.value.version
                    && r.value.spec.membership == Accepted
                    && r.value.spec.availability == n.value.spec.availability)
  {
  }

  /** Once the store holds the accepted node, accepting it again is refused. */
  lemma AcceptTwice(nodeInput: string, store: Store<Node>, after: Store<Node>)
    requires AcceptNodeOf(nodeInput, store).Ok?
    requires var u := AcceptNodeOf(nodeInput, store).value;
      Resolve(NodeKind, after, nodeInput) == Ok(Node(u.nodeID, u.version + 1, u.spec))
    ensures AcceptNodeOf(nodeInput, after) == Err(AlreadyAccepted(nodeInput))
  {
  }

  /** activateNode as a function of the input and the store. */
  function ActivateNodeOf(nodeInput: string, store: Store<Node>): Result<NodeUpdate> {
    match Resolve(NodeKind, store, nodeInput)
    case Err(e) => Err(e)
    case Ok(node) =>
      if node.spec.availability == Active then Err(AlreadyActive(nodeInput))
      else Ok(NodeUpdate(node.id, node.version, node.spec))
  }

  /** activateNode: an active node is refused, naming the input; otherwise the stored
      specification is submitted as it is, since availability is never assigned. */
  method ActivateNode(nodeInput: string, store: Store<Node>) returns (r: Result<NodeUpdate>)
    ensures r == ActivateNodeOf(nodeInput, store)
  {
    var node := Resolve(NodeKind, store, nodeInput);
    if node.Err? {
      return Err(node.error);
    }
    if node.value.spec.availability == Active {
      return Err(AlreadyActive(nodeInput));
    }
    return Ok(NodeUpdate(node.value.id, node.value.version, node.value.spec));
  }

  /** Activation fails as already active exactly when the resolved node is active;
      otherwise what it submits leaves the node as it was, still not active. */
  lemma ActivateNodeSpec(nodeInput: string, store: Store<Node>)
    ensures var r := ActivateNodeOf(nodeInput, store);
      var n := Resolve(NodeKind, store, nodeInput);
      && (r == Err(AlreadyActive(nodeInput)) <==> n.Ok? && n.value.spec.availability == Active)
      && (r.Ok? ==> && n.Ok? && r.value == NodeUpdate(n.value.id, n.value.version, n.value.spec)
                    && r.value.spec.availability != Active)
  {
  }

  /** removeNode: the node is removed by the resolved node's ID, not by the input. */
  method RemoveNode(nodeInput: string, store: Store<Node>) returns (r: Result<string>)
    ensures Resolve(NodeKind, store, nodeInput).Err? ==> r == Err(Resolve(NodeKind, store, nodeInput).error)
    ensures Resolve(NodeKind, store, nodeInput).Ok? ==> r == Ok(Resolve(NodeKind, store, nodeInput).value.id)
  {
    var node := Resolve(NodeKind, store, nodeInput);
    if node.Err? {
      return Err(node.error);
    }
    return Ok(node.value.id);
  }

  /** A node named uniquely by the input, with no exact-ID hit, is removed by its own
      ID. */
  lemma RemoveByName(nodeInput: string, store: Store<Node>, n: Node)
    requires store.get(nodeInput).None? && store.listByName(nodeInput) == Listed([n])
    ensures Resolve(NodeKind, store, nodeInput) == Ok(n)
  {
  }
}
