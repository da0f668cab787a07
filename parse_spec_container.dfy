/** The container part of the merge: image, arguments and environment. */
module ParseSpecContainer {
  import opened Common
  import opened SwarmApi
  import opened ClientSpec

  /** The specification after the client's image, args and env are applied. An image
      that is blank after trimming leaves the image alone, but a non-blank one is stored
      untrimmed; args and env are replaced wholesale when non-empty. Only these three
      fields of the container can change. */
  function ContainerStep(cs: CreateSpec, s: Spec): (r: Spec)
    ensures r == s.(task := s.task.(container := r.task.container))
    ensures r.task.container.mounts == s.task.container.mounts
    ensures r.task.container.image == if Blank(cs.image) then s.task.container.image else cs.image
    ensures r.task.container.args == if cs.args == [] then s.task.container.args else cs.args
    ensures r.task.container.env == if cs.env == [] then s.task.container.env else cs.env
  {
    TrimSpaceEmptyIffBlank(cs.image);
    var c := s.task.container;
    var c1 := if |TrimSpace(cs.image)| > 0 then c.(image := cs.image) else c;
    var c2 := if |cs.args| > 0 then c1.(args := cs.args) else c1;
    var c3 := if |cs.env| > 0 then c2.(env := cs.env) else c2;
    s.(task := s.task.(container := c3))
  }

  /** Applying the same container fields twice is the same as applying them once. */
  lemma ContainerStepIdempotent(cs: CreateSpec, s: Spec)
    ensures ContainerStep(cs, ContainerStep(cs, s)) == ContainerStep(cs, s)
  {
  }

  /** parseContainer: writes through the container pointer and never fails. */
  method ParseContainer(cspec: CreateSpec, spec: ServiceSpec) returns (err: Option<Error>)
    modifies spec
    ensures err == None
    ensures spec.Value() == ContainerStep(cspec, old(spec.Value()))
  {
    if |TrimSpace(cspec.image)| > 0 {
      spec.task := spec.task.(container := spec.task.container.(image := cspec.image));
    }
    if |cspec.args| > 0 {
      spec.task := spec.task.(container := spec.task.container.(args := cspec.args));
    }
    if |cspec.env| > 0 {
      spec.task := spec.task.(container := spec.task.container.(env := cspec.env));
    }
    err := None;
  }
}
