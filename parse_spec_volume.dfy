/** Anonymous volume mounts: each entry without ':' appends one writable volume mount
    whose target is the entry. */
module ParseSpecVolume {
  import opened Common
  import opened SwarmApi
  import opened ClientSpec

  /** The mount an entry denotes: none when it contains ':' anywhere, otherwise a
      writable volume mount with an empty source and the entry (the empty string
      included) as its target. */
  function VolumeOf(entry: string): (r: Option<Mount>)
    ensures r.None? <==> ':' in entry
    ensures r.Some? ==> r.value == Mount(VolumeMount, "", entry, true)
  {
    if ':' in entry then None else Some(Mount(VolumeMount, "", entry, true))
  }

  /** The loop of parseVolume: mounts are appended after `ms` in input order; the first
      entry containing ':' stops the loop, naming that entry, with the mounts of the
      earlier entries already appended. */
  function AppendVolumes(volumes: seq<string>, ms: seq<Mount>): (r: Appended)
    decreases |volumes|
    ensures |ms| <= |r.mounts| <= |ms| + |volumes| && r.mounts[..|ms|] == ms
    ensures forall k :: |ms| <= k < |r.mounts| ==> r.mounts[k] == Mount(VolumeMount, "", volumes[k - |ms|], true)
    ensures r.err.None? <==> forall j :: 0 <= j < |volumes| ==> ':' !in volumes[j]
    ensures r.err.None? ==> |r.mounts| == |ms| + |volumes|
    ensures r.err.Some? ==> && |r.mounts| - |ms| < |volumes|
                            && ':' in volumes[|r.mounts| - |ms|]
                            && r.err == Some(VolumeFormat(volumes[|r.mounts| - |ms|]))
  {
    if volumes == [] then Appended(ms, None)
    else match VolumeOf(volumes[0])
      case None => Appended(ms, Some(VolumeFormat(volumes[0])))
      case Some(m) =>
        var r := AppendVolumes(volumes[1..], ms + [m]);
        assert r.mounts[..|ms|] == (ms + [m])[..|ms|];
        assert forall j :: 1 <= j < |volumes| ==> volumes[j] == volumes[1..][j - 1];
        r
  }

  /** parseVolume as a function on the specification: only the container's mounts can
      change, and an empty list changes nothing. */
  function VolumeStep(cs: CreateSpec, s: Spec): (r: Applied)
    ensures r.spec == WithMounts(s, r.spec.task.container.mounts)
    ensures cs.volume == [] ==> r == Applied(s, None)
    ensures cs.volume != [] ==> Appended(r.spec.task.container.mounts, r.err) == AppendVolumes(cs.volume, s.task.container.mounts)
  {
    if |cs.volume| > 0 then
      var a := AppendVolumes(cs.volume, s.task.container.mounts);
      Applied(WithMounts(s, a.mounts), a.err)
    else Applied(s, None)
  }

  /** parseVolume: appends to the container's mounts entry by entry, returning at the
      first malformed entry. */
  method ParseVolume(cspec: CreateSpec, spec: ServiceSpec) returns (err: Option<Error>)
    modifies spec
    ensures Applied(spec.Value(), err) == VolumeStep(cspec, old(spec.Value()))
  {
    err := None;
    if |cspec.volume| > 0 {
      ghost var s0 := spec.Value();
      var i := 0;
      while i < |cspec.volume|
        invariant 0 <= i <= |cspec.volume|
        invariant spec.Value() == WithMounts(s0, spec.task.container.mounts)
        invariant AppendVolumes(cspec.volume, s0.task.container.mounts) == AppendVolumes(cspec.volume[i..], spec.task.container.mounts)
      {
        var volume := cspec.volume[i];
        if ':' in volume {
          return Some(VolumeFormat(volume));
        }
        spec.task := spec.task.(container := spec.task.container.(mounts := spec.task.container.mounts + [Mount(VolumeMount, "", volume, true)]));
        assert cspec.volume[i..][1..] == cspec.volume[i + 1..];
        i := i + 1;
      }
    }
  }
}
