/** The placement part of the merge. */
module ParseSpecPlacement {
  import opened Common
  import opened SwarmApi
  import opened ClientSpec

  /** A non-empty constraint list replaces the constraints wholesale, allocating the
      placement block if it was nil; an empty list leaves the specification as it is
      (a nil block stays nil). Nothing but the task's placement can change. */
  function PlacementStep(cs: CreateSpec, s: Spec): (r: Spec)
    ensures r == s.(task := s.task.(placement := r.task.placement))
    ensures cs.constraint == [] ==> r == s
    ensures cs.constraint != [] ==> r.task.placement == Some(Placement(cs.constraint))
  {
    if |cs.constraint| > 0 then
      var p := s.task.placement.GetOr(Placement([]));
      s.(task := s.task.(placement := Some(p.(constraints := cs.constraint))))
    else s
  }

  /** parsePlacement: allocates the placement block lazily and never fails. */
  method ParsePlacement(cspec: CreateSpec, spec: ServiceSpec) returns (err: Option<Error>)
    modifies spec
    ensures err == None
    ensures spec.Value() == PlacementStep(cspec, old(spec.Value()))
  {
    if |cspec.constraint| > 0 {
      if spec.task.placement.None? {
        spec.task := spec.task.(placement := Some(Placement([])));
      }
      spec.task := spec.task.(placement := Some(spec.task.placement.value.(constraints := cspec.constraint)));
    }
    err := None;
  }
}
