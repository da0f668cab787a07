/** Bind mounts: each `source:target` entry appends one writable bind mount. */
module ParseSpecBind {
  import opened Common
  import opened SwarmApi
  import opened ClientSpec

  /** The mount an entry denotes: split at its first ':', so that further colons stay in
      the target and either side may be empty. An entry without ':' denotes none. */
  function BindOf(entry: string): (r: Option<Mount>)
    ensures r.None? <==> ':' !in entry
    ensures r.Some? ==> r.value.kind == BindMount && r.value.writable
  {
    match IndexOf(entry, ':')
    case None => None
    case Some(i) => Some(Mount(BindMount, entry[..i], entry[i + 1..], true))
  }

  /** Source, ':' and target put back together give the entry again, and the source
      holds no ':'. */
  lemma BindOfRoundTrip(entry: string)
    requires ':' in entry
    ensures ':' !in BindOf(entry).value.source
    ensures BindOf(entry).value.source + ":" + BindOf(entry).value.target == entry
  {
    var i := IndexOf(entry, ':').value;
    assert entry == entry[..i] + ":" + entry[i + 1..];
  }

  /** The loop of parseBind: entries are turned into mounts in order and appended after
      `ms`; the first entry without ':' stops the loop, naming that entry, with the
      mounts of the earlier entries already appended. */
  function AppendBinds(binds: seq<string>, ms: seq<Mount>): (r: Appended)
    decreases |binds|
    ensures |ms| <= |r.mounts| <= |ms| + |binds| && r.mounts[..|ms|] == ms
    ensures forall k :: |ms| <= k < |r.mounts| ==> BindOf(binds[k - |ms|]) == Some(r.mounts[k])
    ensures r.err.None? ==> |r.mounts| == |ms| + |binds|
    ensures r.err.Some? ==> && |r.mounts| - |ms| < |binds|
                            && ':' !in binds[|r.mounts| - |ms|]
                            && r.err == Some(BindFormat(binds[|r.mounts| - |ms|]))
  {
    if binds == [] then Appended(ms, None)
    else match BindOf(binds[0])
      case None => Appended(ms, Some(BindFormat(binds[0])))
      case Some(m) =>
        var r := AppendBinds(binds[1..], ms + [m]);
        assert r.mounts[..|ms|] == (ms + [m])[..|ms|];
        forall k | |ms| <= k < |r.mounts|
          ensures BindOf(binds[k - |ms|]) == Some(r.mounts[k])
        {
          if k == |ms| {
            assert r.mounts[k] == (ms + [m])[k];
          } else {
            assert binds[k - |ms|] == binds[1..][k - |ms + [m]|];
          }
        }
        assert r.err.Some? ==> binds[|r.mounts| - |ms|] == binds[1..][|r.mounts| - |ms + [m]|];
        r
  }

  /** parseBind as a function on the specification: only the container's mounts can
      change, and an empty list changes nothing. */
  function BindStep(cs: CreateSpec, s: Spec): (r: Applied)
    ensures r.spec == WithMounts(s, r.spec.task.container.mounts)
    ensures cs.bind == [] ==> r == Applied(s, None)
    ensures cs.bind != [] ==> Appended(r.spec.task.container.mounts, r.err) == AppendBinds(cs.bind, s.task.container.mounts)
  {
    if |cs.bind| > 0 then
      var a := AppendBinds(cs.bind, s.task.container.mounts);
      Applied(WithMounts(s, a.mounts), a.err)
    else Applied(s, None)
  }

  /** Every entry has a ':' exactly when the step succeeds; then every entry gives one
      mount, appended in input order after the existing mounts, which are never
      replaced. */
  lemma {:induction false} AppendBindsSucceeds(binds: seq<string>, ms: seq<Mount>)
    ensures AppendBinds(binds, ms).err.None? <==> forall j :: 0 <= j < |binds| ==> ':' in binds[j]
  {
    if binds != [] && BindOf(binds[0]).Some? {
      AppendBindsSucceeds(binds[1..], ms + [BindOf(binds[0]).value]);
      assert forall j :: 1 <= j < |binds| ==> binds[j] == binds[1..][j - 1];
    }
  }

  /** Mounts accumulate: applying the same well-formed bind list twice appends its
      mounts twice, so the step is not idempotent and a repeated update is never seen
      as unchanged. */
  lemma BindRepeatAppends(cs: CreateSpec, s: Spec)
    requires cs.bind != [] && forall j :: 0 <= j < |cs.bind| ==> ':' in cs.bind[j]
    ensures var r1 := BindStep(cs, s);
      var r2 := BindStep(cs, r1.spec);
      && r1.err.None? && r2.err.None?
      && |r2.spec.task.container.mounts| == |s.task.container.mounts| + 2 * |cs.bind|
      && r2.spec != r1.spec
  {
    var r1 := BindStep(cs, s);
    AppendBindsSucceeds(cs.bind, s.task.container.mounts);
    AppendBindsSucceeds(cs.bind, r1.spec.task.container.mounts);
  }

  /** parseBind: appends to the container's mounts entry by entry, returning at the
      first malformed entry. */
  method ParseBind(cspec: CreateSpec, spec: ServiceSpec) returns (err: Option<Error>)
    modifies spec
    ensures Applied(spec.Value(), err) == BindStep(cspec, old(spec.Value()))
  {
    err := None;
    if |cspec.bind| > 0 {
      ghost var s0 := spec.Value();
      var i := 0;
      while i < |cspec.bind|
        invariant 0 <= i <= |cspec.bind|
        invariant spec.Value() == WithMounts(s0, spec.task.container.mounts)
        invariant AppendBinds(cspec.bind, s0.task.container.mounts) == AppendBinds(cspec.bind[i..], spec.task.container.mounts)
      {
        var bind := cspec.bind[i];
        var parts := BindOf(bind);
        if parts.None? {
          return Some(BindFormat(bind));
        }
        spec.task := spec.task.(container := spec.task.container.(mounts := spec.task.container.mounts + [parts.value]));
        assert cspec.bind[i..][1..] == cspec.bind[i + 1..];
        i := i + 1;
      }
    }
  }
}
