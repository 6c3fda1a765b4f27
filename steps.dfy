/**
 * Steps and the test specification of test_spec.py: common steps drive
 * control signals, special steps name an out-of-band device action, and a
 * test specification is an initial state followed by a list of steps.
 */
module Steps {
  import opened Outcomes
  import opened Dicts
  import opened Lists
  import opened Waveforms
  import opened TestSpec

  /** step_type */
  datatype StepType = NotDefinedStep | Common | Special

  const StepTypes: seq<StepType> := [NotDefinedStep, Common, Special]

  /** `step_type(v)`: raises ValueError for a number that names no step type. */
  function StepTypeFromValue(v: int): (r: Result<StepType>)
    ensures r.Ok? <==> 0 <= v <= 2
    ensures r.Ok? ==> (r.value == Common <==> v == 1) && (r.value == Special <==> v == 2)
    ensures r.Err? ==> r.error == InvalidEnumValue(v)
  {
    if 0 <= v < |StepTypes| then Ok(StepTypes[v]) else Err(InvalidEnumValue(v))
  }

  /** special_step_action */
  datatype SpecialAction =
    | NotDefinedAction | Reboot | ResetPowerSupply | PowerOff | PowerOn | GetInfo
    | GetParameters | UpdateParameters | UpdateFirmware | GetReport | GetFram

  const Actions: seq<SpecialAction> :=
    [NotDefinedAction, Reboot, ResetPowerSupply, PowerOff, PowerOn, GetInfo,
     GetParameters, UpdateParameters, UpdateFirmware, GetReport, GetFram]

  /** `special_step_action(v)`: raises ValueError for a number that names no action. */
  function ActionFromValue(v: int): (r: Result<SpecialAction>)
    ensures r.Ok? <==> 0 <= v <= 10
    ensures r.Err? ==> r.error == InvalidEnumValue(v)
  {
    if 0 <= v < |Actions| then Ok(Actions[v]) else Err(InvalidEnumValue(v))
  }

  /** The part of a step that only one of the two kinds has. */
  datatype StepDetail =
    | Controls(controls: Dict<string, ControlSignal>)           // common_step.control_signals
    | Action(stepAction: SpecialAction, actionDetails: string)   // special_step.step_action / action_details

  /**
   * step, with common_step and special_step as the two kinds of `detail`.
   * `stepType` is the 'type' field of the step's own record.
   */
  datatype Step = Step(
    stepType: StepType,
    action: string,
    durationMs: real,
    monitored: Dict<string, MonitoredSignal>,
    logged: Dict<string, LoggedSignal>,
    detail: StepDetail)

  /**
   * A step record of the test file. The optional keys are `Option`s; 'type',
   * 'action' and 'duration_ms' are always present. The opaque 'action_details'
   * value is kept as text.
   */
  datatype StepRecord = StepRecord(
    stepType: int,
    action: string,
    durationMs: real,
    monitored: Option<Dict<string, MonitoredRecord>>,
    logged: Option<Dict<string, LoggedRecord>>,
    control: Option<Dict<string, ControlRecord>>,
    stepAction: Option<int>,
    actionDetails: Option<string>)
  {
    ghost predicate Valid()
    {
      && (monitored.Some? ==> monitored.value.Valid())
      && (logged.Some? ==> logged.value.Valid())
      && (control.Some? ==> control.value.Valid())
    }
  }

  // -------------------------------------------------------------------------
  // Building steps

  /** What step.create_from_spec needs: resolvable signal maps and a known type. */
  ghost predicate BaseBuildable(spec: StepRecord, signals: map<string, Signal>)
  {
    && (spec.monitored.Some? ==> MonitoredResolvable(spec.monitored.value, signals))
    && (spec.logged.Some? ==> LoggedResolvable(spec.logged.value, signals))
    && 0 <= spec.stepType <= 2
  }

  /** `s` carries the fields step.create_from_spec takes from `spec`. */
  ghost predicate BaseBuiltFrom(s: Step, spec: StepRecord, signals: map<string, Signal>)
    requires BaseBuildable(spec, signals)
  {
    && StepTypeFromValue(spec.stepType) == Ok(s.stepType)
    && s.action == spec.action
    && s.durationMs == spec.durationMs
    && (if spec.monitored.Some? then MonitoredResolved(s.monitored, spec.monitored.value, signals)
        else s.monitored == Empty())
    && (if spec.logged.Some? then LoggedResolved(s.logged, spec.logged.value, signals)
        else s.logged == Empty())
  }

  /** step.create_from_spec: monitored signals, then logged signals, then the type. */
  method BaseFromSpec(spec: StepRecord, signals: map<string, Signal>)
    returns (r: Result<Step>)
    requires spec.Valid()
    ensures r.Ok? <==> BaseBuildable(spec, signals)
    ensures r.Ok? ==> BaseBuiltFrom(r.value, spec, signals) && r.value.detail == Controls(Empty())
    ensures r.Err? && r.error.UnresolvedSignal? ==> r.error.name !in signals
    ensures r.Err? ==> BuildError(r.error)
  {
    var monitored: Dict<string, MonitoredSignal> := Empty();
    if spec.monitored.Some? {
      var m := PrepareMonitoredSignals(spec.monitored.value, signals);
      if m.Err? {
        return Err(m.error);
      }
      monitored := m.value;
    }
    var logged: Dict<string, LoggedSignal> := Empty();
    if spec.logged.Some? {
      var l := PrepareLoggedSignals(spec.logged.value, signals);
      if l.Err? {
        return Err(l.error);
      }
      logged := l.value;
    }
    var t := StepTypeFromValue(spec.stepType);
    if t.Err? {
      return Err(t.error);
    }
    return Ok(Step(t.value, spec.action, spec.durationMs, monitored, logged, Controls(Empty())));
  }

  ghost predicate CommonBuildable(spec: StepRecord, signals: map<string, Signal>)
  {
    && BaseBuildable(spec, signals)
    && spec.control.Some? && ControlResolvable(spec.control.value, signals)
  }

  ghost predicate CommonBuiltFrom(s: Step, spec: StepRecord, signals: map<string, Signal>)
    requires CommonBuildable(spec, signals)
  {
    && BaseBuiltFrom(s, spec, signals)
    && s.detail.Controls? && ControlResolved(s.detail.controls, spec.control.value, signals)
  }

  /** common_step.create_from_spec: a record without 'control_signals' is a KeyError. */
  method CommonFromSpec(spec: StepRecord, signals: map<string, Signal>)
    returns (r: Result<Step>)
    requires spec.Valid()
    ensures r.Ok? <==> CommonBuildable(spec, signals)
    ensures r.Ok? ==> CommonBuiltFrom(r.value, spec, signals)
    ensures BaseBuildable(spec, signals) && spec.control.None? ==> r == Err(MissingKey("control_signals"))
    ensures r.Err? && r.error.UnresolvedSignal? ==> r.error.name !in signals
    ensures r.Err? ==> BuildError(r.error)
  {
    var base := BaseFromSpec(spec, signals);
    if base.Err? {
      return base;
    }
    if spec.control.None? {
      return Err(MissingKey("control_signals"));
    }
    var c := PrepareControlSignals(spec.control.value, signals);
    if c.Err? {
      return Err(c.error);
    }
    return Ok(base.value.(detail := Controls(c.value)));
  }

  ghost predicate SpecialBuildable(spec: StepRecord, signals: map<string, Signal>)
  {
    && BaseBuildable(spec, signals)
    && spec.stepAction.Some? && 0 <= spec.stepAction.value <= 10
    && spec.actionDetails.Some?
  }

  ghost predicate SpecialBuiltFrom(s: Step, spec: StepRecord, signals: map<string, Signal>)
    requires SpecialBuildable(spec, signals)
  {
    && BaseBuiltFrom(s, spec, signals)
    && s.detail.Action?
    && ActionFromValue(spec.stepAction.value) == Ok(s.detail.stepAction)
    && s.detail.actionDetails == spec.actionDetails.value
  }

  /** special_step.create_from_spec: 'step_action' and 'action_details' are mandatory. */
  method SpecialFromSpec(spec: StepRecord, signals: map<string, Signal>)
    returns (r: Result<Step>)
    requires spec.Valid()
    ensures r.Ok? <==> SpecialBuildable(spec, signals)
    ensures r.Ok? ==> SpecialBuiltFrom(r.value, spec, signals)
    ensures r.Err? && r.error.UnresolvedSignal? ==> r.error.name !in signals
    ensures r.Err? ==> BuildError(r.error)
  {
    var base := BaseFromSpec(spec, signals);
    if base.Err? {
      return base;
    }
    if spec.stepAction.None? {
      return Err(MissingKey("step_action"));
    }
    var a := ActionFromValue(spec.stepAction.value);
    if a.Err? {
      return Err(a.error);
    }
    if spec.actionDetails.None? {
      return Err(MissingKey("action_details"));
    }
    return Ok(base.value.(detail := Action(a.value, spec.actionDetails.value)));
  }

  /** What test_spec.__prepare_steps accepts: a COMMON or SPECIAL record that builds. */
  ghost predicate StepBuildable(spec: StepRecord, signals: map<string, Signal>)
  {
    || (spec.stepType == 1 && CommonBuildable(spec, signals))
    || (spec.stepType == 2 && SpecialBuildable(spec, signals))
  }

  ghost predicate StepBuiltFrom(s: Step, spec: StepRecord, signals: map<string, Signal>)
    requires StepBuildable(spec, signals)
  {
    if spec.stepType == 1 then CommonBuiltFrom(s, spec, signals) else SpecialBuiltFrom(s, spec, signals)
  }

  /**
   * test_spec.__prepare_steps: COMMON and SPECIAL records become steps of that
   * kind, in order; a NOT_DEFINED type is 'Type 0 is not implemented'.
   */
  method PrepareSteps(specs: seq<StepRecord>, signals: map<string, Signal>)
    returns (r: Result<seq<Step>>)
    requires forall i :: 0 <= i < |specs| ==> specs[i].Valid()
    ensures r.Ok? <==> forall i :: 0 <= i < |specs| ==> StepBuildable(specs[i], signals)
    ensures r.Ok? ==> |r.value| == |specs|
    ensures r.Ok? ==> forall i :: 0 <= i < |specs| ==> StepBuiltFrom(r.value[i], specs[i], signals)
    ensures r.Err? && r.error.UnsupportedStepType? ==> r.error.value == 0
  {
    var steps: seq<Step> := [];
    for i := 0 to |specs|
      invariant |steps| == i
      invariant forall k :: 0 <= k < i ==> StepBuildable(specs[k], signals)
      invariant forall k :: 0 <= k < i ==> StepBuiltFrom(steps[k], specs[k], signals)
    {
      var t := StepTypeFromValue(specs[i].stepType);
      if t.Err? {
        return Err(t.error);
      }
      var s: Result<Step>;
      if t.value == Common {
        s := CommonFromSpec(specs[i], signals);
      } else if t.value == Special {
        s := SpecialFromSpec(specs[i], signals);
      } else {
        return Err(UnsupportedStepType(specs[i].stepType));
      }
      if s.Err? {
        return Err(s.error);
      }
      steps := steps + [s.value];
    }
    return Ok(steps);
  }

  /** A step of either kind fixes its type: COMMON steps drive controls, SPECIAL steps act. */
  lemma StepKindMatchesType(s: Step, spec: StepRecord, signals: map<string, Signal>)
    requires StepBuildable(spec, signals) && StepBuiltFrom(s, spec, signals)
    ensures s.stepType == Common <==> s.detail.Controls?
    ensures s.stepType == Special <==> s.detail.Action?
  {
  }

  // -------------------------------------------------------------------------
  // The test specification

  /** test_spec */
  datatype TestSpecification = TestSpecification(
    name: string,
    dscr: string,
    xrayId: string,
    initialState: Step,
    steps: seq<Step>,
    usedSignals: seq<string>)
  {
    /**
     * What construction guarantees: the initial state carries control
     * signals, and a step's kind agrees with its type.
     */
    ghost predicate WellFormed()
    {
      && initialState.detail.Controls?
      && forall i :: 0 <= i < |steps| ==>
           (steps[i].stepType == Common <==> steps[i].detail.Controls?)
    }
  }

  /** The test-file record of a specification; 'xray_id' is optional. */
  datatype SpecRecord = SpecRecord(
    name: string,
    dscr: string,
    xrayId: Option<string>,
    usedSignals: seq<string>,
    initialState: StepRecord,
    steps: seq<StepRecord>)
  {
    ghost predicate Valid()
    {
      initialState.Valid() && forall i :: 0 <= i < |steps| ==> steps[i].Valid()
    }
  }

  /**
   * test_spec.__init__: deriving an id from the name is not implemented and
   * always raises, so a test without an id cannot be built.
   */
  function NewTestSpec(name: string, dscr: string, initialState: Step, steps: seq<Step>,
                       usedSignals: seq<string>, xrayId: Option<string>): (r: Result<TestSpecification>)
    ensures r.Err? <==> xrayId.None?
    ensures r.Err? ==> r.error == MissingTestId
    ensures r.Ok? ==> r.value.xrayId == xrayId.value && r.value.name == name && r.value.dscr == dscr
                      && r.value.initialState == initialState && r.value.steps == steps
                      && r.value.usedSignals == usedSignals
  {
    match xrayId
    case None => Err(MissingTestId)
    case Some(id) => Ok(TestSpecification(name, dscr, id, initialState, steps, usedSignals))
  }

  /**
   * test_spec.create_from_spec: the id is checked first (by the constructor),
   * then the initial state is built as a common step, then the steps.
   */
  method TestSpecFromSpec(spec: SpecRecord, signals: map<string, Signal>)
    returns (r: Result<TestSpecification>)
    requires spec.Valid()
    ensures spec.xrayId.None? ==> r == Err(MissingTestId)
    ensures r.Ok? <==> && spec.xrayId.Some?
                       && CommonBuildable(spec.initialState, signals)
                       && forall i :: 0 <= i < |spec.steps| ==> StepBuildable(spec.steps[i], signals)
    ensures r.Ok? ==> && r.value.xrayId == spec.xrayId.value
                      && r.value.name == spec.name && r.value.dscr == spec.dscr
                      && r.value.usedSignals == spec.usedSignals
                      && CommonBuiltFrom(r.value.initialState, spec.initialState, signals)
                      && |r.value.steps| == |spec.steps|
                      && (forall i :: 0 <= i < |spec.steps| ==>
                            StepBuiltFrom(r.value.steps[i], spec.steps[i], signals))
                      && r.value.WellFormed()
  {
    var placeholder := Step(NotDefinedStep, "", 0.0, Empty(), Empty(), Controls(Empty()));
    var ts := NewTestSpec(spec.name, spec.dscr, placeholder, [], spec.usedSignals, spec.xrayId);
    if ts.Err? {
      return ts;
    }
    var initial := CommonFromSpec(spec.initialState, signals);
    if initial.Err? {
      return Err(initial.error);
    }
    var steps := PrepareSteps(spec.steps, signals);
    if steps.Err? {
      return Err(steps.error);
    }
    forall i | 0 <= i < |spec.steps|
      ensures steps.value[i].stepType == Common <==> steps.value[i].detail.Controls?
    {
      StepKindMatchesType(steps.value[i], spec.steps[i], signals);
    }
    return Ok(ts.value.(initialState := initial.value, steps := steps.value));
  }

  // -------------------------------------------------------------------------
  // The list of used signals

  function ControlNames(s: Step): seq<string>
  {
    match s.detail
    case Controls(c) => c.keys
    case Action(_, _) => []
  }

  /** The names one step contributes, in the order the source visits them. */
  function StepNames(s: Step): seq<string>
  {
    (if s.stepType == Common then ControlNames(s) else []) + s.monitored.keys + s.logged.keys
  }

  function StepsNames(steps: seq<Step>): seq<string>
  {
    if steps == [] then [] else StepsNames(steps[..|steps| - 1]) + StepNames(steps[|steps| - 1])
  }

  /**
   * Every signal name the specification refers to, with repetitions: the
   * initial state's control, monitored and logged signals, then each step's.
   */
  function ReferencedNames(ts: TestSpecification): seq<string>
  {
    ControlNames(ts.initialState) + ts.initialState.monitored.keys + ts.initialState.logged.keys
    + StepsNames(ts.steps)
  }

  /** One of the source's `for signal in ...: if not signal in ret_val: ret_val.append(signal)` loops. */
  method AppendNew(acc: seq<string>, names: seq<string>) returns (r: seq<string>)
    ensures r == AddNew(acc, names)
  {
    r := acc;
    for i := 0 to |names|
      invariant r == AddNew(acc, names[..i])
    {
      assert names[..i + 1][..i] == names[..i];
      if !(names[i] in r) {
        r := r + [names[i]];
      }
    }
    assert names[..|names|] == names;
  }

  /** Folding three name lists one after the other is folding their concatenation. */
  lemma {:induction false} AddNewThree(before: seq<string>, a: seq<string>, b: seq<string>, c: seq<string>)
    ensures AddNew(AddNew(AddNew(AddNew([], before), a), b), c) == AddNew([], before + (a + b + c))
  {
    var x := before + a;
    var y := x + b;
    assert y + c == before + (a + b + c);
    AddNewAppend([], before, a);
    AddNewAppend([], x, b);
    AddNewAppend([], y, c);
  }

  /** Processing step `i` extends the fold over the names of the steps before it. */
  lemma {:induction false} StepFold(head: seq<string>, steps: seq<Step>, i: nat)
    requires i < |steps|
    ensures AddNew(AddNew(AddNew(AddNew([], head + StepsNames(steps[..i])),
                                 if steps[i].stepType == Common then ControlNames(steps[i]) else []),
                          steps[i].monitored.keys),
                   steps[i].logged.keys)
            == AddNew([], head + StepsNames(steps[..i + 1]))
  {
    var s := steps[i];
    var cs := if s.stepType == Common then ControlNames(s) else [];
    AddNewThree(head + StepsNames(steps[..i]), cs, s.monitored.keys, s.logged.keys);
    assert steps[..i + 1][..i] == steps[..i];
    assert StepsNames(steps[..i + 1]) == StepsNames(steps[..i]) + StepNames(s);
    assert head + StepsNames(steps[..i]) + (cs + s.monitored.keys + s.logged.keys)
           == head + StepsNames(steps[..i + 1]);
  }

  /** test_spec.__prepare_list_of_used_signals */
  method PrepareListOfUsedSignals(ts: TestSpecification) returns (r: seq<string>)
    requires ts.WellFormed()
    ensures r == Dedup(ReferencedNames(ts))
  {
    var init := ts.initialState;
    r := AppendNew([], init.detail.controls.keys);
    r := AppendNew(r, init.monitored.keys);
    r := AppendNew(r, init.logged.keys);
    ghost var head := ControlNames(init) + init.monitored.keys + init.logged.keys;
    assert r == AddNew([], head + StepsNames(ts.steps[..0])) by {
      AddNewThree([], init.detail.controls.keys, init.monitored.keys, init.logged.keys);
      assert ts.steps[..0] == [];
      assert [] + head == head && head + [] == head;
    }
    for i := 0 to |ts.steps|
      invariant r == AddNew([], head + StepsNames(ts.steps[..i]))
    {
      var s := ts.steps[i];
      if s.stepType == Common {
        r := AppendNew(r, s.detail.controls.keys);
      }
      r := AppendNew(r, s.monitored.keys);
      r := AppendNew(r, s.logged.keys);
      StepFold(head, ts.steps, i);
    }
    assert ts.steps[..|ts.steps|] == ts.steps;
  }

  /**
   * The used-signal list has no duplicates, holds exactly the names the
   * specification refers to, and lists them by first appearance.
   */
  lemma UsedSignalsProperties(ts: TestSpecification)
    ensures Distinct(Dedup(ReferencedNames(ts)))
    ensures forall x :: x in Dedup(ReferencedNames(ts)) <==> x in ReferencedNames(ts)
    ensures forall i, j :: 0 <= i < j < |Dedup(ReferencedNames(ts))| ==>
              FirstIndex(ReferencedNames(ts), Dedup(ReferencedNames(ts))[i])
              < FirstIndex(ReferencedNames(ts), Dedup(ReferencedNames(ts))[j])
  {
    DedupOrder(ReferencedNames(ts));
  }

  /** Only COMMON steps contribute control names; every step contributes monitored and logged names. */
  lemma {:induction false} StepsNamesCover(steps: seq<Step>, i: nat, x: string)
    requires i < |steps|
    requires x in steps[i].monitored.keys || x in steps[i].logged.keys
             || (steps[i].stepType == Common && x in ControlNames(steps[i]))
    ensures x in StepsNames(steps)
  {
    if i < |steps| - 1 {
      StepsNamesCover(steps[..|steps| - 1], i, x);
    }
  }
}
