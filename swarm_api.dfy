/** The parts of the orchestrator's service specification that the merge engine reads
    and writes. A Go pointer that may be nil is an `Option`, so that a block that was
    never allocated (None) and one that was allocated empty (Some of a zero record) stay
    distinct, as `reflect.DeepEqual` distinguishes them. Durations are nanosecond counts. */
module SwarmApi {
  import opened Common

  datatype Annotations = Annotations(name: string, labels: map<string, string>)

  /** The service mode is a one-of: replicated with a count, or global. */
  datatype Mode = Replicated(replicas: nat) | Global

  datatype MountType = BindMount | VolumeMount

  datatype Mount = Mount(kind: MountType, source: string, target: string, writable: bool)

  datatype ContainerSpec = ContainerSpec(image: string, args: seq<string>, env: seq<string>, mounts: seq<Mount>)

  /** One reservation or limit block. */
  datatype Resources = Resources(nanoCPUs: int, memoryBytes: int)

  datatype ResourceRequirements = ResourceRequirements(limits: Option<Resources>, reservations: Option<Resources>)

  /** The restart condition enum; `OnNone` is its zero value. */
  datatype RestartCondition = OnNone | OnFailure | OnAny

  datatype RestartPolicy = RestartPolicy(condition: RestartCondition, delay: Option<int>, maxAttempts: nat, window: Option<int>)

  datatype Placement = Placement(constraints: seq<string>)

  datatype TaskSpec = TaskSpec(
    container: ContainerSpec,
    resources: Option<ResourceRequirements>,
    restart: Option<RestartPolicy>,
    placement: Option<Placement>)

  /** The rolling-update block; its delay is a value, not a pointer. */
  datatype UpdateConfig = UpdateConfig(parallelism: nat, delay: int)

  datatype NetworkAttachment = NetworkAttachment(target: string)

  /** The endpoint block written by the port parser, which is not part of this model. */
  datatype Endpoint = Endpoint(ports: seq<string>)

  /** The value of a service specification. */
  datatype Spec = Spec(
    annotations: Annotations,
    mode: Option<Mode>,
    task: TaskSpec,
    update: Option<UpdateConfig>,
    networks: seq<NetworkAttachment>,
    endpoint: Option<Endpoint>)

  const EmptyContainer := ContainerSpec("", [], [], [])
  const EmptyResources := Resources(0, 0)
  const EmptyRequirements := ResourceRequirements(None, None)
  const EmptyRestart := RestartPolicy(OnNone, None, 0, None)
  const EmptyUpdate := UpdateConfig(0, 0)

  /** The outcome of one step of the merge: the specification as the step leaves it and
      the error it reports, if any. A failing step can still have written to the
      specification before failing. */
  datatype Applied = Applied(spec: Spec, err: Option<Error>)

  /** The specification with the container's mount list replaced by `ms`. */
  function WithMounts(s: Spec, ms: seq<Mount>): Spec {
    s.(task := s.task.(container := s.task.container.(mounts := ms)))
  }

  /** The outcome of appending mounts one entry at a time: the mount list reached and the
      error that stopped the loop, if any. */
  datatype Appended = Appended(mounts: seq<Mount>, err: Option<Error>)

  /** A stored service: opaque ID, version stamp and specification. */
  datatype Service = Service(id: string, version: nat, spec: Spec)

  /** Task states are the orchestrator's ordered enum values; `Running` is 512. */
  type TaskState = nat
  const TaskStateRunning: TaskState := 512

  /** A task: its ID, the service and node it belongs to, the state it should reach
      and the state last observed. */
  datatype Task = Task(id: string, serviceID: string, nodeID: string, desiredState: TaskState, observedState: TaskState)

  /** The service specification the handlers build and the parsers change in place. */
  class ServiceSpec {
    var annotations: Annotations
    var mode: Option<Mode>
    var task: TaskSpec
    var update: Option<UpdateConfig>
    var networks: seq<NetworkAttachment>
    var endpoint: Option<Endpoint>

    /** The specification this object currently holds. */
    function Value(): Spec
      reads this
    {
      Spec(annotations, mode, task, update, networks, endpoint)
    }

    /** A fresh object holding `v` (the deep copy made by `Spec.Copy()`). */
    constructor (v: Spec)
      ensures Value() == v
    {
      annotations, mode, task := v.annotations, v.mode, v.task;
      update, networks, endpoint := v.update, v.networks, v.endpoint;
    }
  }
}
