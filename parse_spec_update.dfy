/** The rolling-update part of the merge. Durations are parsed by a function outside this
    model (Go's time.ParseDuration), given as a parameter. */
module ParseSpecUpdate {
  import opened Common
  import opened SwarmApi
  import opened ClientSpec

  /** A duration parser: nanoseconds, or the parser's error. */
  type DurationParser = string -> Result<int>

  /** parseUpdate as a function: a positive parallelism is written into the update
      block, allocating it when nil; a non-blank delay is parsed and, on success, written
      the same way. */
  function UpdateStep(cs: CreateSpec, parse: DurationParser, s: Spec): Applied {
    var u := if cs.updateParallelism > 0 then Some(s.update.GetOr(EmptyUpdate).(parallelism := cs.updateParallelism)) else s.update;
    if |TrimSpace(cs.updateDelay)| > 0 then
      match parse(cs.updateDelay)
      case Err(e) => Applied(s.(update := u), Some(e))
      case Ok(d) => Applied(s.(update := Some(u.GetOr(EmptyUpdate).(delay := d))), None)
    else Applied(s.(update := u), None)
  }

  /** Parallelism is written only when positive (zero means "not supplied"); a
      non-blank delay is parsed first and, when that fails, the error is reported before
      the update block is touched for the delay. The block is allocated exactly when a
      field is written to it, so a nil block stays nil when the only field supplied is a
      delay that fails to parse; an existing block is reused, and a fresh one starts
      from zero values, so each slot not written keeps the old value or zero. Nothing
      but the update block can change, and with neither field supplied it is
      unchanged, a nil block included. */
  lemma UpdateStepSpec(cs: CreateSpec, parse: DurationParser, s: Spec)
    ensures var r := UpdateStep(cs, parse, s);
      && r.spec == s.(update := r.spec.update)
      && (cs.updateParallelism == 0 && Blank(cs.updateDelay) ==> r == Applied(s, None))
      && (s.update.Some? ==> r.spec.update.Some?)
      && (r.err.Some? <==> !Blank(cs.updateDelay) && parse(cs.updateDelay).Err?)
      && (r.err.Some? ==> r.err.value == parse(cs.updateDelay).error)
      && (cs.updateParallelism > 0 ==> r.spec.update.Some? && r.spec.update.value.parallelism == cs.updateParallelism)
      && (r.spec.update.Some? <==>
            s.update.Some? || cs.updateParallelism > 0 || (!Blank(cs.updateDelay) && parse(cs.updateDelay).Ok?))
      && (r.spec.update.Some? && cs.updateParallelism == 0 ==>
            r.spec.update.value.parallelism == s.update.GetOr(EmptyUpdate).parallelism)
      && (r.err.None? && !Blank(cs.updateDelay) ==> r.spec.update.Some? && r.spec.update.value.delay == parse(cs.updateDelay).value)
      && (r.spec.update.Some? && (r.err.Some? || Blank(cs.updateDelay)) ==>
            r.spec.update.value.delay == s.update.GetOr(EmptyUpdate).delay)
  {
    TrimSpaceEmptyIffBlank(cs.updateDelay);
  }

  /** parseUpdate: lazy allocation of the update block, then parallelism and delay. */
  method ParseUpdate(cspec: CreateSpec, spec: ServiceSpec, parse: DurationParser) returns (err: Option<Error>)
    modifies spec
    ensures Applied(spec.Value(), err) == UpdateStep(cspec, parse, old(spec.Value()))
  {
    err := None;
    if cspec.updateParallelism > 0 {
      if spec.update.None? {
        spec.update := Some(EmptyUpdate);
      }
      spec.update := Some(spec.update.value.(parallelism := cspec.updateParallelism));
    }
    if |TrimSpace(cspec.updateDelay)| > 0 {
      var d := parse(cspec.updateDelay);
      if d.Err? {
        return Some(d.error);
      }
      if spec.update.None? {
        spec.update := Some(EmptyUpdate);
      }
      spec.update := Some(spec.update.value.(delay := d.value));
    }
  }
}
