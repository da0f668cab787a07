/** The merge: a client record applied to a service specification, one part at a time
    in a fixed order, stopping at the first error. Foreign code the merge calls (the
    port parser, the network resolver, the duration parser) is given as functions. */
module ParseSpec {
  import opened Common
  import opened SwarmApi
  import opened ClientSpec
  import opened ParseSpecContainer
  import opened ParseSpecNetwork
  import opened ParseSpecRestart
  import opened ParseSpecUpdate
  import opened ParseSpecPlacement
  import opened ParseSpecBind
  import opened ParseSpecVolume

  /** The endpoint the port parser leaves and the error it reports, if any. */
  datatype PortsOutcome = PortsOutcome(endpoint: Option<Endpoint>, err: Option<Error>)

  /** The port parser, which is not part of this model. The source hands it the whole
      specification; this type assumes that it reads only the port list and the
      endpoint block and writes only the endpoint block. */
  type PortParser = (seq<string>, Option<Endpoint>) -> PortsOutcome

  /** The foreign functions the merge depends on. */
  datatype MergeEnv = MergeEnv(parsePorts: PortParser, resolveNetwork: NetworkResolver, parseDuration: DurationParser)

  /** Name and labels: a name that is non-blank after trimming is stored untrimmed; a
      non-empty label map replaces the labels wholesale. Only the annotations change. */
  function AnnotateStep(cs: CreateSpec, s: Spec): (r: Spec)
    ensures r == s.(annotations := r.annotations)
    ensures r.annotations.name == if Blank(cs.name) then s.annotations.name else cs.name
    ensures r.annotations.labels == if cs.labels == map[] then s.annotations.labels else cs.labels
  {
    TrimSpaceEmptyIffBlank(cs.name);
    assert |cs.labels| == 0 <==> cs.labels == map[];
    var a1 := if |TrimSpace(cs.name)| > 0 then s.annotations.(name := cs.name) else s.annotations;
    var a2 := if |cs.labels| > 0 then a1.(labels := cs.labels) else a1;
    s.(annotations := a2)
  }

  /** The mode after the switch of parseMode: "global" and "replicated" switch to that
      mode unless the specification is already in it (switching to replicated starts
      with no replicas); any other string leaves the mode as it is. */
  function SwitchMode(mode: string, m: Option<Mode>): (r: Option<Mode>)
    ensures mode == "global" ==> r == Some(Global)
    ensures mode == "replicated" ==> r.Some? && r.value.Replicated?
    ensures mode == "replicated" && m.Some? && m.value.Replicated? ==> r == m
    ensures mode == "replicated" && !(m.Some? && m.value.Replicated?) ==> r == Some(Replicated(0))
    ensures mode != "global" && mode != "replicated" ==> r == m
  {
    if |TrimSpace(mode)| > 0 then
      if mode == "global" then (if m == Some(Global) then m else Some(Global))
      else if mode == "replicated" then (if m.Some? && m.value.Replicated? then m else Some(Replicated(0)))
      else m
    else m
  }

  /** parseMode: the switch, then a positive replica count, which is only allowed
      when the mode after the switch is replicated and then sets the count. A zero
      count changes nothing. Only the mode can change, and a failure leaves the switch
      made. */
  function ModeStep(cs: CreateSpec, s: Spec): (r: Applied)
    ensures r.spec == s.(mode := r.spec.mode)
    ensures r.err.Some? <==> cs.replicas > 0 && !(SwitchMode(cs.mode, s.mode).Some? && SwitchMode(cs.mode, s.mode).value.Replicated?)
    ensures r.err.Some? ==> r == Applied(s.(mode := SwitchMode(cs.mode, s.mode)), Some(ReplicasNeedReplicatedMode))
    ensures r.err.None? && cs.replicas > 0 ==> r.spec.mode == Some(Replicated(cs.replicas))
    ensures cs.replicas == 0 ==> r == Applied(s.(mode := SwitchMode(cs.mode, s.mode)), None)
  {
    var m := SwitchMode(cs.mode, s.mode);
    if cs.replicas > 0 then
      if m.Some? && m.value.Replicated? then Applied(s.(mode := Some(Replicated(cs.replicas))), None)
      else Applied(s.(mode := m), Some(ReplicasNeedReplicatedMode))
    else Applied(s.(mode := m), None)
  }

  /** The port parser's step: only the endpoint is handed over and written back. */
  function PortsStep(cs: CreateSpec, parsePorts: PortParser, s: Spec): (r: Applied)
    ensures r.spec == s.(endpoint := r.spec.endpoint)
    ensures r.err == parsePorts(cs.ports, s.endpoint).err
  {
    var o := parsePorts(cs.ports, s.endpoint);
    Applied(s.(endpoint := o.endpoint), o.err)
  }

  /** merge as a function: name and labels, mode, container, ports, networks, restart,
      update, placement, bind, volume; the first error stops the rest, with the writes
      of the earlier steps (and of the failing step before it failed) kept. */
  function MergeSpec(cs: CreateSpec, env: MergeEnv, s: Spec): Applied {
    var s0 := AnnotateStep(cs, s);
    var a := ModeStep(cs, s0);
    if a.err.Some? then a else
    var s1 := ContainerStep(cs, a.spec);
    var b := PortsStep(cs, env.parsePorts, s1);
    if b.err.Some? then b else
    var c := NetworkStep(cs, env.resolveNetwork, b.spec);
    if c.err.Some? then c else
    var d := RestartStep(cs, env.parseDuration, c.spec);
    if d.err.Some? then d else
    var e := UpdateStep(cs, env.parseDuration, d.spec);
    if e.err.Some? then e else
    var s2 := PlacementStep(cs, e.spec);
    var f := BindStep(cs, s2);
    if f.err.Some? then f else
    VolumeStep(cs, f.spec)
  }

  /** An empty request changes nothing and cannot fail, given that the port parser
      leaves the endpoint alone when there are no ports. */
  lemma MergeAbsent(env: MergeEnv, s: Spec)
    requires env.parsePorts([], s.endpoint) == PortsOutcome(s.endpoint, None)
    ensures MergeSpec(Absent, env, s) == Applied(s, None)
  {
    assert Blank("");
    assert AnnotateStep(Absent, s) == s;
    assert SwitchMode("", s.mode) == s.mode;
    UpdateStepSpec(Absent, env.parseDuration, s);
  }

  /** The merge never calls the resource parser, so the task's resource requirements
      come out as they went in, whatever the request says. */
  lemma MergeKeepsResources(cs: CreateSpec, env: MergeEnv, s: Spec)
    ensures MergeSpec(cs, env, s).spec.task.resources == s.task.resources
  {
    var s0 := AnnotateStep(cs, s);
    var a := ModeStep(cs, s0);
    if a.err.None? {
      var b := PortsStep(cs, env.parsePorts, ContainerStep(cs, a.spec));
      if b.err.None? {
        var c := NetworkStep(cs, env.resolveNetwork, b.spec);
        if c.err.None? {
          var d := RestartStep(cs, env.parseDuration, c.spec);
          if d.err.None? {
            UpdateStepSpec(cs, env.parseDuration, d.spec);
          }
        }
      }
    }
  }

  /** A request naming neither mode (an unknown mode string is ignored) nor a replica
      count leaves the service mode as it was. */
  lemma MergeKeepsMode(cs: CreateSpec, env: MergeEnv, s: Spec)
    requires cs.mode != "global" && cs.mode != "replicated" && cs.replicas == 0
    ensures MergeSpec(cs, env, s).spec.mode == s.mode
  {
    var s0 := AnnotateStep(cs, s);
    var a := ModeStep(cs, s0);
    assert a.spec.mode == s.mode;
    var b := PortsStep(cs, env.parsePorts, ContainerStep(cs, a.spec));
    if b.err.None? {
      var c := NetworkStep(cs, env.resolveNetwork, b.spec);
      if c.err.None? {
        var d := RestartStep(cs, env.parseDuration, c.spec);
        if d.err.None? {
          UpdateStepSpec(cs, env.parseDuration, d.spec);
        }
      }
    }
  }

  /** A successful merge leaves the name and the image as the request gives them, or
      as they were when the request leaves them blank. */
  lemma MergeNameAndImage(cs: CreateSpec, env: MergeEnv, s: Spec)
    requires MergeSpec(cs, env, s).err.None?
    ensures var r := MergeSpec(cs, env, s).spec;
      && r.annotations.name == (if Blank(cs.name) then s.annotations.name else cs.name)
      && r.task.container.image == (if Blank(cs.image) then s.task.container.image else cs.image)
  {
    var s0 := AnnotateStep(cs, s);
    var a := ModeStep(cs, s0);
    var b := PortsStep(cs, env.parsePorts, ContainerStep(cs, a.spec));
    var c := NetworkStep(cs, env.resolveNetwork, b.spec);
    var d := RestartStep(cs, env.parseDuration, c.spec);
    UpdateStepSpec(cs, env.parseDuration, d.spec);
  }

  /** A replica count outside replicated mode stops the merge at the mode step: the
      name and labels already written stay written, the mode switch stays made, and
      nothing after it (container, ports, networks, policies, mounts) is applied. */
  lemma MergeStopsAtMode(cs: CreateSpec, env: MergeEnv, s: Spec)
    requires cs.replicas > 0
    requires var m := SwitchMode(cs.mode, s.mode); !(m.Some? && m.value.Replicated?)
    ensures var r := MergeSpec(cs, env, s);
      && r.err == Some(ReplicasNeedReplicatedMode)
      && r.spec == AnnotateStep(cs, s).(mode := SwitchMode(cs.mode, s.mode))
  {
    assert AnnotateStep(cs, s).mode == s.mode;
  }

  /** The port parser is settled on `ports` when parsing them again into the endpoint
      it produced changes nothing. */
  ghost predicate PortsSettled(parsePorts: PortParser, ports: seq<string>) {
    forall e :: parsePorts(ports, e).err.None? ==>
      parsePorts(ports, parsePorts(ports, e).endpoint) == PortsOutcome(parsePorts(ports, e).endpoint, None)
  }

  /** A mode that already holds what the mode step wrote is left as it is. */
  lemma ModeSettled(cs: CreateSpec, x: Spec, t: Spec)
    requires ModeStep(cs, x).err.None? && t.mode == ModeStep(cs, x).spec.mode
    ensures ModeStep(cs, t) == Applied(t, None)
  {
  }

  /** A restart block that already holds what the restart step wrote is left as it
      is. */
  lemma RestartSettled(cs: CreateSpec, parse: DurationParser, x: Spec, t: Spec)
    requires RestartStep(cs, parse, x).err.None? && t.task.restart == RestartStep(cs, parse, x).spec.task.restart
    ensures RestartStep(cs, parse, t) == Applied(t, None)
  {
  }

  /** An update block that already holds what the update step wrote is left as it
      is. */
  lemma UpdateSettled(cs: CreateSpec, parse: DurationParser, x: Spec, t: Spec)
    requires UpdateStep(cs, parse, x).err.None? && t.update == UpdateStep(cs, parse, x).spec.update
    ensures UpdateStep(cs, parse, t) == Applied(t, None)
  {
    UpdateStepSpec(cs, parse, x);
    UpdateStepSpec(cs, parse, t);
  }

  /** Every step of the merge leaves `t` as it is. */
  ghost predicate Settled(cs: CreateSpec, env: MergeEnv, t: Spec) {
    && AnnotateStep(cs, t) == t
    && ModeStep(cs, t) == Applied(t, None)
    && ContainerStep(cs, t) == t
    && PortsStep(cs, env.parsePorts, t) == Applied(t, None)
    && NetworkStep(cs, env.resolveNetwork, t) == Applied(t, None)
    && RestartStep(cs, env.parseDuration, t) == Applied(t, None)
    && UpdateStep(cs, env.parseDuration, t) == Applied(t, None)
    && PlacementStep(cs, t) == t
    && BindStep(cs, t) == Applied(t, None)
    && VolumeStep(cs, t) == Applied(t, None)
  }

  /** The steps up to the network attachment are settled on the result of a
      successful merge. */
  lemma {:induction false} MergeSettledFront(cs: CreateSpec, env: MergeEnv, s: Spec)
    requires cs.bind == [] && cs.volume == []
    requires PortsSettled(env.parsePorts, cs.ports)
    requires MergeSpec(cs, env, s).err.None?
    ensures var t := MergeSpec(cs, env, s).spec;
      && AnnotateStep(cs, t) == t
      && ModeStep(cs, t) == Applied(t, None)
      && ContainerStep(cs, t) == t
      && PortsStep(cs, env.parsePorts, t) == Applied(t, None)
      && NetworkStep(cs, env.resolveNetwork, t) == Applied(t, None)
  {
    var s0 := AnnotateStep(cs, s);
    var a := ModeStep(cs, s0);
    var b := PortsStep(cs, env.parsePorts, ContainerStep(cs, a.spec));
    var d := RestartStep(cs, env.parseDuration, NetworkStep(cs, env.resolveNetwork, b.spec).spec);
    UpdateStepSpec(cs, env.parseDuration, d.spec);
    var t := MergeSpec(cs, env, s).spec;
    ModeSettled(cs, s0, t);
  }

  /** The remaining steps are settled on the result of a successful merge. */
  lemma {:induction false} MergeSettledBack(cs: CreateSpec, env: MergeEnv, s: Spec)
    requires cs.bind == [] && cs.volume == []
    requires MergeSpec(cs, env, s).err.None?
    ensures var t := MergeSpec(cs, env, s).spec;
      && RestartStep(cs, env.parseDuration, t) == Applied(t, None)
      && UpdateStep(cs, env.parseDuration, t) == Applied(t, None)
      && PlacementStep(cs, t) == t
      && BindStep(cs, t) == Applied(t, None)
      && VolumeStep(cs, t) == Applied(t, None)
  {
    var a := ModeStep(cs, AnnotateStep(cs, s));
    var b := PortsStep(cs, env.parsePorts, ContainerStep(cs, a.spec));
    var c := NetworkStep(cs, env.resolveNetwork, b.spec);
    var d := RestartStep(cs, env.parseDuration, c.spec);
    var e := UpdateStep(cs, env.parseDuration, d.spec);
    UpdateStepSpec(cs, env.parseDuration, d.spec);
    var t := MergeSpec(cs, env, s).spec;
    RestartSettled(cs, env.parseDuration, c.spec, t);
    UpdateSettled(cs, env.parseDuration, d.spec, t);
  }

  /** A settled specification is a fixed point of the merge. */
  lemma SettledMerge(cs: CreateSpec, env: MergeEnv, t: Spec)
    requires Settled(cs, env, t)
    ensures MergeSpec(cs, env, t) == Applied(t, None)
  {
  }

  /** A successful merge without mounts is idempotent: merging the same request into
      its result changes nothing, provided the port parser is settled on the request's
      ports. So an update that repeats the request a service was created with comes out
      equal to the stored specification. Bind and volume entries are excluded because
      they append: see BindRepeatAppends. */
  lemma MergeIdempotent(cs: CreateSpec, env: MergeEnv, s: Spec)
    requires cs.bind == [] && cs.volume == []
    requires PortsSettled(env.parsePorts, cs.ports)
    requires MergeSpec(cs, env, s).err.None?
    ensures var t := MergeSpec(cs, env, s).spec; MergeSpec(cs, env, t) == Applied(t, None)
  {
    MergeSettledFront(cs, env, s);
    MergeSettledBack(cs, env, s);
    SettledMerge(cs, env, MergeSpec(cs, env, s).spec);
  }

  /** merge: the steps in order on the specification in place, returning at the first
      error. parsePorts is applied to the endpoint block only. */
  method Merge(cspec: CreateSpec, spec: ServiceSpec, env: MergeEnv) returns (err: Option<Error>)
    modifies spec
    ensures Applied(spec.Value(), err) == MergeSpec(cspec, env, old(spec.Value()))
  {
    if |TrimSpace(cspec.name)| > 0 {
      spec.annotations := spec.annotations.(name := cspec.name);
    }
    if |cspec.labels| > 0 {
      spec.annotations := spec.annotations.(labels := cspec.labels);
    }
    ghost var s0 := spec.Value();
    assert s0 == AnnotateStep(cspec, old(spec.Value()));
    err := ParseMode(cspec, spec);
    if err.Some? {
      return;
    }
    err := ParseContainer(cspec, spec);
    var ports := env.parsePorts(cspec.ports, spec.endpoint);
    spec.endpoint := ports.endpoint;
    if ports.err.Some? {
      return ports.err;
    }
    ghost var s1 := spec.Value();
    err := ParseNetworks(cspec, spec, env.resolveNetwork);
    if err.Some? {
      return;
    }
    ghost var s2 := spec.Value();
    err := ParseRestart(cspec, spec, env.parseDuration);
    if err.Some? {
      return;
    }
    ghost var s3 := spec.Value();
    err := ParseUpdate(cspec, spec, env.parseDuration);
    if err.Some? {
      return;
    }
    ghost var s4 := spec.Value();
    err := ParsePlacement(cspec, spec);
    err := ParseBind(cspec, spec);
    if err.Some? {
      return;
    }
    ghost var s5 := spec.Value();
    err := ParseVolume(cspec, spec);
  }

  /** parseMode: switches the mode in place, then checks and writes the replica
      count. */
  method ParseMode(cspec: CreateSpec, spec: ServiceSpec) returns (err: Option<Error>)
    modifies spec
    ensures Applied(spec.Value(), err) == ModeStep(cspec, old(spec.Value()))
  {
    if |TrimSpace(cspec.mode)| > 0 {
      if cspec.mode == "global" {
        if spec.mode != Some(Global) {
          spec.mode := Some(Global);
        }
      } else if cspec.mode == "replicated" {
        if !(spec.mode.Some? && spec.mode.value.Replicated?) {
          spec.mode := Some(Replicated(0));
        }
      }
    }
    if cspec.replicas > 0 {
      if !(spec.mode.Some? && spec.mode.value.Replicated?) {
        return Some(ReplicasNeedReplicatedMode);
      }
      spec.mode := Some(Replicated(cspec.replicas));
    }
    err := None;
  }
}
