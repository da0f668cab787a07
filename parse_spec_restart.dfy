/** The restart-policy part of the merge: condition, delay, maximum attempts and window,
    applied in that order, each writing its own slot of a lazily allocated block. */
module ParseSpecRestart {
  import opened Common
  import opened SwarmApi
  import opened ClientSpec
  import opened ParseSpecUpdate

  /** The restart condition a client string names; the comparison is exact, so a string
      with surrounding spaces names none. */
  function ConditionOf(c: string): (r: Option<RestartCondition>)
    ensures r.None? <==> c !in {"none", "failure", "any"}
    ensures r.Some? ==> ConditionName(r.value) == c
    ensures r == Some(OnNone) <==> c == "none"
    ensures r == Some(OnFailure) <==> c == "failure"
    ensures r == Some(OnAny) <==> c == "any"
  {
    if c == "none" then Some(OnNone)
    else if c == "failure" then Some(OnFailure)
    else if c == "any" then Some(OnAny)
    else None
  }

  /** The client spelling of each restart condition. */
  function ConditionName(k: RestartCondition): string {
    match k
    case OnNone => "none"
    case OnFailure => "failure"
    case OnAny => "any"
  }

  /** Every restart condition is named by its spelling, and by nothing else. */
  lemma ConditionNameRoundTrip(k: RestartCondition, c: string)
    ensures ConditionOf(ConditionName(k)) == Some(k)
    ensures ConditionOf(c) == Some(k) ==> c == ConditionName(k)
  {
  }

  /** The specification with its restart block replaced by `p`. */
  function WithRestart(s: Spec, p: RestartPolicy): Spec {
    s.(task := s.task.(restart := Some(p)))
  }

  /** The restart block as it is, or a fresh zero block when it is nil. */
  function RestartOrEmpty(s: Spec): RestartPolicy {
    s.task.restart.GetOr(EmptyRestart)
  }

  /** Step 1: a non-blank condition allocates the block first and then either sets the
      condition or fails naming the condition, leaving the allocated block behind. */
  function ConditionStep(cond: string, s: Spec): (r: Applied)
    ensures Blank(cond) ==> r == Applied(s, None)
    ensures !Blank(cond) && ConditionOf(cond).None? ==>
      r == Applied(WithRestart(s, RestartOrEmpty(s)), Some(InvalidRestartCondition(cond)))
    ensures !Blank(cond) && ConditionOf(cond).Some? ==>
      r == Applied(WithRestart(s, RestartOrEmpty(s).(condition := ConditionOf(cond).value)), None)
  {
    TrimSpaceEmptyIffBlank(cond);
    if |TrimSpace(cond)| > 0 then
      var p := RestartOrEmpty(s);
      match ConditionOf(cond)
      case None => Applied(WithRestart(s, p), Some(InvalidRestartCondition(cond)))
      case Some(c) => Applied(WithRestart(s, p.(condition := c)), None)
    else Applied(s, None)
  }

  /** The two duration slots of the restart block. */
  datatype DurationSlot = DelaySlot | WindowSlot

  /** The block with duration `d` stored in `slot`, the other slots kept. */
  function WithDuration(p: RestartPolicy, slot: DurationSlot, d: int): (r: RestartPolicy)
    ensures slot == DelaySlot ==> r == p.(delay := Some(d))
    ensures slot == WindowSlot ==> r == p.(window := Some(d))
  {
    if slot == DelaySlot then p.(delay := Some(d)) else p.(window := Some(d))
  }

  /** Steps 2 and 4: a non-blank delay or window is parsed before anything is
      allocated, and stored in its slot on success. */
  function DurationStep(text: string, slot: DurationSlot, parse: DurationParser, s: Spec): (r: Applied)
    ensures Blank(text) ==> r == Applied(s, None)
    ensures !Blank(text) && parse(text).Err? ==> r == Applied(s, Some(parse(text).error))
    ensures !Blank(text) && parse(text).Ok? ==>
      r == Applied(WithRestart(s, WithDuration(RestartOrEmpty(s), slot, parse(text).value)), None)
  {
    TrimSpaceEmptyIffBlank(text);
    if |TrimSpace(text)| > 0 then
      match parse(text)
      case Err(e) => Applied(s, Some(e))
      case Ok(d) => Applied(WithRestart(s, WithDuration(RestartOrEmpty(s), slot, d)), None)
    else Applied(s, None)
  }

  /** Step 3: a positive maximum is stored; zero means "not supplied". */
  function MaxAttemptsStep(max: nat, s: Spec): (r: Spec)
    ensures max == 0 ==> r == s
    ensures max > 0 ==> r == WithRestart(s, RestartOrEmpty(s).(maxAttempts := max))
  {
    if max > 0 then WithRestart(s, RestartOrEmpty(s).(maxAttempts := max)) else s
  }

  /** The four steps in order; the first error stops the rest. */
  function RestartStep(cs: CreateSpec, parse: DurationParser, s: Spec): (r: Applied)
    ensures r.spec == s.(task := s.task.(restart := r.spec.task.restart))
    ensures s.task.restart.Some? ==> r.spec.task.restart.Some?
    ensures Blank(cs.restartCondition) && Blank(cs.restartDelay) && cs.restartMaxAttempts == 0 && Blank(cs.restartWindow)
      ==> r == Applied(s, None)
    // an unknown condition fails, naming it, with the block already allocated
    ensures !Blank(cs.restartCondition) && ConditionOf(cs.restartCondition).None? ==>
      r == Applied(WithRestart(s, RestartOrEmpty(s)), Some(InvalidRestartCondition(cs.restartCondition)))
    // with no condition, a bad delay fails before anything is allocated
    ensures Blank(cs.restartCondition) && !Blank(cs.restartDelay) && parse(cs.restartDelay).Err? ==>
      r == Applied(s, Some(parse(cs.restartDelay).error))
    // on success every supplied field is stored in its own slot ...
    ensures r.err.None? && !Blank(cs.restartCondition) ==>
      r.spec.task.restart.Some? && Some(r.spec.task.restart.value.condition) == ConditionOf(cs.restartCondition)
    ensures r.err.None? && !Blank(cs.restartDelay) ==>
      r.spec.task.restart.Some? && parse(cs.restartDelay).Ok? && r.spec.task.restart.value.delay == Some(parse(cs.restartDelay).value)
    ensures r.err.None? && cs.restartMaxAttempts > 0 ==>
      r.spec.task.restart.Some? && r.spec.task.restart.value.maxAttempts == cs.restartMaxAttempts
    ensures r.err.None? && !Blank(cs.restartWindow) ==>
      r.spec.task.restart.Some? && parse(cs.restartWindow).Ok? && r.spec.task.restart.value.window == Some(parse(cs.restartWindow).value)
    // ... and every slot that was not supplied keeps its value
    ensures r.err.None? && s.task.restart.Some? ==>
      var old_ := s.task.restart.value;
      var new_ := r.spec.task.restart.value;
      && (Blank(cs.restartCondition) ==> new_.condition == old_.condition)
      && (Blank(cs.restartDelay) ==> new_.delay == old_.delay)
      && (cs.restartMaxAttempts == 0 ==> new_.maxAttempts == old_.maxAttempts)
      && (Blank(cs.restartWindow) ==> new_.window == old_.window)
  {
    var a := ConditionStep(cs.restartCondition, s);
    if a.err.Some? then a else
    var b := DurationStep(cs.restartDelay, DelaySlot, parse, a.spec);
    if b.err.Some? then b else
    var c := MaxAttemptsStep(cs.restartMaxAttempts, b.spec);
    DurationStep(cs.restartWindow, WindowSlot, parse, c)
  }

  /** The condition is either not supplied or names a restart condition. */
  predicate ConditionAccepted(cs: CreateSpec) {
    Blank(cs.restartCondition) || ConditionOf(cs.restartCondition).Some?
  }

  /** A duration is either not supplied or parses. */
  predicate DurationAccepted(text: string, parse: DurationParser) {
    Blank(text) || parse(text).Ok?
  }

  /** The error the restart fields of a request give, if any: the first of an unknown
      condition, an unparsable delay and an unparsable window. */
  function FirstRestartError(cs: CreateSpec, parse: DurationParser): (r: Option<Error>)
    ensures r.None? <==>
      ConditionAccepted(cs) && DurationAccepted(cs.restartDelay, parse) && DurationAccepted(cs.restartWindow, parse)
  {
    if !ConditionAccepted(cs) then Some(InvalidRestartCondition(cs.restartCondition))
    else if !DurationAccepted(cs.restartDelay, parse) then Some(parse(cs.restartDelay).error)
    else if !DurationAccepted(cs.restartWindow, parse) then Some(parse(cs.restartWindow).error)
    else None
  }

  /** The outcome of the restart step in every case. The error is the first one among
      the fields; a field is stored exactly when it is supplied, valid, and no earlier
      field failed; every other slot keeps the value of the old block or, for a block
      the step allocates, the zero value; and a block is allocated exactly when a
      condition is supplied, or a later field is stored. */
  lemma RestartStepSpec(cs: CreateSpec, parse: DurationParser, s: Spec)
    ensures RestartStep(cs, parse, s).err == FirstRestartError(cs, parse)
    ensures var r := RestartStep(cs, parse, s);
      r.spec.task.restart.Some? <==>
        || s.task.restart.Some?
        || !Blank(cs.restartCondition)
        || (ConditionAccepted(cs) && !Blank(cs.restartDelay) && parse(cs.restartDelay).Ok?)
        || (ConditionAccepted(cs) && DurationAccepted(cs.restartDelay, parse) && cs.restartMaxAttempts > 0)
        || (ConditionAccepted(cs) && DurationAccepted(cs.restartDelay, parse)
            && !Blank(cs.restartWindow) && parse(cs.restartWindow).Ok?)
    ensures var r := RestartStep(cs, parse, s);
      r.spec.task.restart.Some? ==>
        var p, q := r.spec.task.restart.value, RestartOrEmpty(s);
        && p.condition == (if !Blank(cs.restartCondition) && ConditionAccepted(cs)
                           then ConditionOf(cs.restartCondition).value else q.condition)
        && p.delay == (if ConditionAccepted(cs) && !Blank(cs.restartDelay) && parse(cs.restartDelay).Ok?
                       then Some(parse(cs.restartDelay).value) else q.delay)
        && p.maxAttempts == (if ConditionAccepted(cs) && DurationAccepted(cs.restartDelay, parse) && cs.restartMaxAttempts > 0
                             then cs.restartMaxAttempts else q.maxAttempts)
        && p.window == (if ConditionAccepted(cs) && DurationAccepted(cs.restartDelay, parse)
                           && !Blank(cs.restartWindow) && parse(cs.restartWindow).Ok?
                        then Some(parse(cs.restartWindow).value) else q.window)
  {
    var a := ConditionStep(cs.restartCondition, s);
    if a.err.Some? {
      return;
    }
    var b := DurationStep(cs.restartDelay, DelaySlot, parse, a.spec);
    if b.err.Some? {
      return;
    }
    var c := MaxAttemptsStep(cs.restartMaxAttempts, b.spec);
    var d := DurationStep(cs.restartWindow, WindowSlot, parse, c);
    assert RestartStep(cs, parse, s) == d;
  }

  /** parseRestart: the four fields in sequence, returning at the first error. */
  method ParseRestart(cspec: CreateSpec, spec: ServiceSpec, parse: DurationParser) returns (err: Option<Error>)
    modifies spec
    ensures Applied(spec.Value(), err) == RestartStep(cspec, parse, old(spec.Value()))
  {
    TrimSpaceEmptyIffBlank(cspec.restartCondition);
    TrimSpaceEmptyIffBlank(cspec.restartDelay);
    TrimSpaceEmptyIffBlank(cspec.restartWindow);
    ghost var s0 := spec.Value();
    err := None;
    if |TrimSpace(cspec.restartCondition)| > 0 {
      if spec.task.restart.None? {
        spec.task := spec.task.(restart := Some(EmptyRestart));
      }
      var c := ConditionOf(cspec.restartCondition);
      if c.None? {
        return Some(InvalidRestartCondition(cspec.restartCondition));
      }
      spec.task := spec.task.(restart := Some(spec.task.restart.value.(condition := c.value)));
    }
    ghost var s1 := spec.Value();
    assert ConditionStep(cspec.restartCondition, s0) == Applied(s1, None);
    if |TrimSpace(cspec.restartDelay)| > 0 {
      var d := parse(cspec.restartDelay);
      if d.Err? {
        return Some(d.error);
      }
      if spec.task.restart.None? {
        spec.task := spec.task.(restart := Some(EmptyRestart));
      }
      spec.task := spec.task.(restart := Some(spec.task.restart.value.(delay := Some(d.value))));
    }
    ghost var s2 := spec.Value();
    assert DurationStep(cspec.restartDelay, DelaySlot, parse, s1) == Applied(s2, None);
    if cspec.restartMaxAttempts > 0 {
      if spec.task.restart.None? {
        spec.task := spec.task.(restart := Some(EmptyRestart));
      }
      spec.task := spec.task.(restart := Some(spec.task.restart.value.(maxAttempts := cspec.restartMaxAttempts)));
    }
    ghost var s3 := spec.Value();
    assert MaxAttemptsStep(cspec.restartMaxAttempts, s2) == s3;
    if |TrimSpace(cspec.restartWindow)| > 0 {
      var w := parse(cspec.restartWindow);
      if w.Err? {
        return Some(w.error);
      }
      if spec.task.restart.None? {
        spec.task := spec.task.(restart := Some(EmptyRestart));
      }
      spec.task := spec.task.(restart := Some(spec.task.restart.value.(window := Some(w.value))));
    }
  }
}
