/** The decision logic of the service handlers: creating a service from a request on a
    fixed baseline, updating a stored service by merging the request into a copy of its
    specification, and inspecting a service with its running tasks. The control plane
    is given as functions; the submission itself is not part of this model, so create
    and update end with what they would submit. */
module HandlersService {
  import opened Common
  import opened SwarmApi
  import opened ClientSpec
  import opened ParseSpec

  /** The specification a create starts from: replicated with one replica and a
      container runtime with an empty container specification, nothing else. */
  const Baseline := Spec(Annotations("", map[]), Some(Replicated(1)), TaskSpec(EmptyContainer, None, None, None), None, [], None)

  /** createService as a function: the mandatory name and image are checked before any
      merge, then the request is merged into the baseline. */
  function CreateServiceOf(cs: CreateSpec, env: MergeEnv): Result<Spec> {
    if Blank(cs.name) || Blank(cs.image) then Err(NameAndImageMandatory)
    else
      var m := MergeSpec(cs, env, Baseline);
      if m.err.Some? then Err(m.err.value) else Ok(m.spec)
  }

  /** createService up to the submission: the guard, the baseline object, the merge. */
  method CreateService(cs: CreateSpec, env: MergeEnv) returns (r: Result<Spec>)
    ensures r == CreateServiceOf(cs, env)
  {
    TrimSpaceEmptyIffBlank(cs.name);
    TrimSpaceEmptyIffBlank(cs.image);
    if |TrimSpace(cs.name)| == 0 || |TrimSpace(cs.image)| == 0 {
      return Err(NameAndImageMandatory);
    }
    var spec := new ServiceSpec(Baseline);
    var err := Merge(cs, spec, env);
    if err.Some? {
      return Err(err.value);
    }
    return Ok(spec.Value());
  }

  /** A blank name or image is refused before anything is merged; otherwise the outcome
      is the merge's. A created specification carries the request's name and image and
      no resource requirements, and when the request names neither a mode nor a
      replica count it is replicated with one replica. */
  lemma CreateServiceSpec(cs: CreateSpec, env: MergeEnv)
    ensures var r := CreateServiceOf(cs, env);
      && (Blank(cs.name) || Blank(cs.image) ==> r == Err(NameAndImageMandatory))
      && (r.Ok? ==> && r.value.annotations.name == cs.name
                    && r.value.task.container.image == cs.image
                    && r.value.task.resources == None)
      && (r.Ok? && cs.mode != "global" && cs.mode != "replicated" && cs.replicas == 0 ==>
            r.value.mode == Some(Replicated(1)))
  {
    if !(Blank(cs.name) || Blank(cs.image)) && MergeSpec(cs, env, Baseline).err.None? {
      MergeNameAndImage(cs, env, Baseline);
      MergeKeepsResources(cs, env, Baseline);
      if cs.mode != "global" && cs.mode != "replicated" && cs.replicas == 0 {
        MergeKeepsMode(cs, env, Baseline);
      }
    }
  }

  /** What an update submits: the stored service's ID and version stamp and the merged
      specification. */
  datatype Submission = Submission(serviceID: string, version: nat, spec: Spec)

  /** updateService as a function: the ID guard, the exact-ID get (its error passed
      on), the merge into a copy of the stored specification, and the no-change
      check. */
  function UpdateServiceOf(serviceID: string, cs: CreateSpec, env: MergeEnv, get: string -> Result<Service>): Result<Submission> {
    if Utf8Len(TrimSpace(serviceID)) <= 1 then Err(ServiceIDMissing)
    else match get(serviceID)
      case Err(e) => Err(e)
      case Ok(service) =>
        var m := MergeSpec(cs, env, service.spec);
        if m.err.Some? then Err(m.err.value)
        else if m.spec == service.spec then Err(NoChangesDetected)
        else Ok(Submission(service.id, service.version, m.spec))
  }

  /** updateService up to the submission. The stored service is a value, so merging
      into the copy cannot change it. */
  method UpdateService(serviceID: string, cs: CreateSpec, env: MergeEnv, get: string -> Result<Service>) returns (r: Result<Submission>)
    ensures r == UpdateServiceOf(serviceID, cs, env, get)
  {
    if Utf8Len(TrimSpace(serviceID)) <= 1 {
      return Err(ServiceIDMissing);
    }
    var g := get(serviceID);
    if g.Err? {
      return Err(g.error);
    }
    var service := g.value;
    var spec := new ServiceSpec(service.spec);
    var err := Merge(cs, spec, env);
    if err.Some? {
      return Err(err.value);
    }
    if spec.Value() == service.spec {
      return Err(NoChangesDetected);
    }
    return Ok(Submission(service.id, service.version, spec.Value()));
  }

  /** An ID whose trimmed form has at most one byte is refused; a failed get or merge
      passes its error on; a merge that changes nothing is refused; otherwise a
      submission is made. A submission is made only for a stored service, carries its
      ID and version, and holds a merged specification that differs from the stored
      one. */
  lemma UpdateServiceSpec(serviceID: string, cs: CreateSpec, env: MergeEnv, get: string -> Result<Service>)
    ensures var r := UpdateServiceOf(serviceID, cs, env, get);
      && (Utf8Len(TrimSpace(serviceID)) <= 1 ==> r == Err(ServiceIDMissing))
      && (r.Ok? ==> && Utf8Len(TrimSpace(serviceID)) > 1 && get(serviceID).Ok?
                    && r.value.serviceID == get(serviceID).value.id
                    && r.value.version == get(serviceID).value.version
                    && r.value.spec != get(serviceID).value.spec
                    && MergeSpec(cs, env, get(serviceID).value.spec) == Applied(r.value.spec, None))
      && (Utf8Len(TrimSpace(serviceID)) > 1 && get(serviceID).Err? ==> r == Err(get(serviceID).error))
      && (Utf8Len(TrimSpace(serviceID)) > 1 && get(serviceID).Ok? ==>
            var m := MergeSpec(cs, env, get(serviceID).value.spec);
            && (m.err.Some? ==> r == Err(m.err.value))
            && (m.err.None? && m.spec == get(serviceID).value.spec ==> r == Err(NoChangesDetected))
            && (m.err.None? && m.spec != get(serviceID).value.spec ==> r.Ok?))
  {
  }

  /** An empty request changes nothing, so it is refused as making no change. */
  lemma UpdateEmptyRequest(serviceID: string, env: MergeEnv, get: string -> Result<Service>)
    requires Utf8Len(TrimSpace(serviceID)) > 1 && get(serviceID).Ok?
    requires var e := get(serviceID).value.spec.endpoint; env.parsePorts([], e) == PortsOutcome(e, None)
    ensures UpdateServiceOf(serviceID, Absent, env, get) == Err(NoChangesDetected)
  {
    MergeAbsent(env, get(serviceID).value.spec);
  }

  /** Repeating the request a stored specification came from is refused as making no
      change, when the request has no mounts and the port parser is settled on its
      ports. */
  lemma UpdateRepeatNoChange(serviceID: string, cs: CreateSpec, env: MergeEnv, get: string -> Result<Service>, s: Spec)
    requires cs.bind == [] && cs.volume == []
    requires PortsSettled(env.parsePorts, cs.ports)
    requires MergeSpec(cs, env, s).err.None?
    requires Utf8Len(TrimSpace(serviceID)) > 1 && get(serviceID).Ok? && get(serviceID).value.spec == MergeSpec(cs, env, s).spec
    ensures UpdateServiceOf(serviceID, cs, env, get) == Err(NoChangesDetected)
  {
    MergeIdempotent(cs, env, s);
  }

  /** A task is kept by inspect when it is observed running. */
  predicate IsRunning(t: Task) {
    t.observedState == TaskStateRunning
  }

  /** A service together with the tasks shown for it. */
  datatype ServiceView = ServiceView(service: Service, tasks: seq<Task>)

  /** inspectService: the exact-ID get, the task listing for the service's ID (either
      error passed on), then only the running tasks, whatever the query asks. */
  method InspectService(serviceID: string, get: string -> Result<Service>, listTasks: string -> Result<seq<Task>>)
    returns (r: Result<ServiceView>)
    ensures get(serviceID).Err? ==> r == Err(get(serviceID).error)
    ensures get(serviceID).Ok? && listTasks(get(serviceID).value.id).Err? ==> r == Err(listTasks(get(serviceID).value.id).error)
    ensures r.Ok? ==>
      && get(serviceID).Ok? && r.value.service == get(serviceID).value
      && listTasks(r.value.service.id).Ok?
      && r.value.tasks == Filter(listTasks(r.value.service.id).value, IsRunning)
    ensures get(serviceID).Ok? && listTasks(get(serviceID).value.id).Ok? ==> r.Ok?
  {
    var g := get(serviceID);
    if g.Err? {
      return Err(g.error);
    }
    var ls := listTasks(g.value.id);
    if ls.Err? {
      return Err(ls.error);
    }
    var tasks := FilterLoop(ls.value, IsRunning);
    return Ok(ServiceView(g.value, tasks));
  }

  /** The tasks shown are exactly the running ones, in listing order. */
  lemma RunningTasksSpec(tasks: seq<Task>)
    ensures var r := Filter(tasks, IsRunning);
      && (forall i :: 0 <= i < |r| ==> r[i] in tasks && r[i].observedState == TaskStateRunning)
      && (forall i :: 0 <= i < |tasks| && tasks[i].observedState == TaskStateRunning ==> tasks[i] in r)
      && IsSubsequence(r, tasks)
  {
    FilterIsSubsequence(tasks, IsRunning);
  }
}
