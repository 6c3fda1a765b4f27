/**
 * The decisions test_spec_runner.py makes while it drives a test: which
 * device commands a special step issues, how a common step groups its
 * control values by owning bus message before starting one sending task per
 * message, which sending tasks the initial state stops, and what one step
 * contributes to the command trace and to the test log.
 */
module Scenario {
  import opened Outcomes
  import opened Dicts
  import opened Waveforms
  import opened Descriptors
  import opened TestSpec
  import opened Steps
  import opened Monitor
  import opened Lists

  /** dut_info: the bus a device sits on and its J1939 source address. */
  datatype DeviceInfo = DeviceInfo(can: string, j1939Sa: string)

  /** A call into an adapter, recorded in the order the runner makes it. */
  datatype Command =
    | ConnectGateway             // e2e_gateway.set_connection()
    | RebootDevice
    | ConfigureReadingTask
    | PowerOffDevice
    | PowerOnDevice
    | ReadParameters
    | WriteParameters(parameters: string)
    | ReadFram
    | CalibrateSignal(definition: Origin, value: Option<real>)
    | StartTask(message: DbcMessage, can: string, sa: string, da: string,
                signals: Dict<string, Option<real>>, e2e: bool)
    | StopAdapterTasks(ids: seq<string>)   // adapter.stop_sending_tasks
    | StopDeviceTasks(ids: seq<string>)    // dut.stop_sending_tasks

  /** A line of the test log. */
  datatype LogEntry =
    | TestHeader(xrayId: string, name: string, dscr: string, info: DeviceInfo)
    | StepHeader(number: int, action: string)
    | DeviceSummary(info: DeviceInfo)
    | ParametersDump(parameters: string)
    | FaultLine(fault: Fault)
    | StepStatus(status: bool)
    | TestStatus(status: bool)

  /**
   * What the runner is wired to: the parsed bus messages, the device under
   * test, the optional end-to-end gateway, the protection flag, the
   * parameters the device reports, and the id the device gives a started
   * sending task.
   */
  datatype Bench = Bench(
    dbcMessages: map<string, DbcMessage>,
    dut: DeviceInfo,
    gateway: Option<DeviceInfo>,
    e2e: bool,
    parameters: string,
    taskId: Command -> string)

  // -------------------------------------------------------------------------
  // perform_special_step

  /** The actions perform_special_step has a branch for. */
  predicate Implemented(a: SpecialAction)
  {
    a in {SpecialAction.Reboot, PowerOff, PowerOn, GetInfo, GetParameters, UpdateParameters, GetFram}
  }

  /** The commands and log lines of a special step. */
  datatype Effects = Effects(commands: seq<Command>, log: seq<LogEntry>)

  function SpecialEffects(a: SpecialAction, details: string, bench: Bench): (r: Result<Effects>)
    ensures r.Ok? <==> Implemented(a)
    ensures r.Err? ==> r.error == UnsupportedAction
    ensures r.Ok? ==> (ConfigureReadingTask in r.value.commands <==> a == SpecialAction.Reboot)
    ensures r.Ok? ==> (r.value.log != [] <==> a in {GetInfo, GetParameters})
    ensures r.Ok? ==> |r.value.commands| <= 2
  {
    match a
    case Reboot => Ok(Effects([RebootDevice, ConfigureReadingTask], []))
    case PowerOff => Ok(Effects([PowerOffDevice], []))
    case PowerOn => Ok(Effects([PowerOnDevice], []))
    case GetInfo => Ok(Effects([], [DeviceSummary(bench.dut)]))
    case GetParameters => Ok(Effects([ReadParameters], [ParametersDump(bench.parameters)]))
    case UpdateParameters => Ok(Effects([WriteParameters(details)], []))
    case GetFram => Ok(Effects([ReadFram], []))
    case _ => Err(UnsupportedAction)
  }

  // -------------------------------------------------------------------------
  // perform_common_step: grouping by owning message

  /** `dbc_signals`: message name to signal name to reference value. */
  type Groups = Dict<string, Dict<string, Option<real>>>

  ghost predicate GroupsValid(g: Groups)
  {
    g.Valid() && forall p | p in g.entries :: g.entries[p].Valid()
  }

  /** The grouping built so far, the calibrations made while building it, and the exception that stopped it. */
  datatype Grouping = Grouping(groups: Groups, calibrations: seq<Command>, error: Option<Error>)

  /** Is the i-th control signal of the step sourced from a bus message? */
  predicate OnBus(controls: Dict<string, ControlSignal>, i: nat)
    requires controls.Valid() && i < |controls.keys|
  {
    controls.entries[controls.keys[i]].signal.sourceType == SignalSource.Dbc
  }

  /** The value `calculate_reference(0.0)` gives the i-th control signal. */
  function Reference(controls: Dict<string, ControlSignal>, i: nat): Result<Option<real>>
    requires controls.Valid() && i < |controls.keys|
  {
    var c := controls.entries[controls.keys[i]];
    Evaluate(c.form, c.coef, 0.0)
  }

  /** One iteration of the grouping loop, given the control signal's reference value. */
  function GroupControl(g: Grouping, c: ControlSignal, value: Result<Option<real>>): Grouping
  {
    match value
    case Err(e) => Grouping(g.groups, g.calibrations, Some(e))
    case Ok(v) =>
      if c.signal.sourceType == SignalSource.Dbc then
        var parent := c.signal.parent;
        var inner := if parent in g.groups.entries then g.groups.entries[parent] else Empty();
        Grouping(Put(g.groups, parent, Put(inner, c.signal.name, v)), g.calibrations, None)
      else if c.signal.sourceType == SignalSource.A2l then
        Grouping(g.groups, g.calibrations + [CalibrateSignal(c.signal.origin, v)], None)
      else
        Grouping(g.groups, g.calibrations, Some(UnsupportedSource))
  }

  /** The grouping after the first `n` control signals, stopping at the first exception. */
  function Grouped(controls: Dict<string, ControlSignal>, n: nat): Grouping
    requires controls.Valid() && n <= |controls.keys|
  {
    if n == 0 then Grouping(Empty(), [], None)
    else
      var g := Grouped(controls, n - 1);
      if g.error.Some? then g
      else GroupControl(g, controls.entries[controls.keys[n - 1]], Reference(controls, n - 1))
  }

  /** Assigning one signal value under its parent message keeps the grouping valid. */
  lemma PutNestedValid(g: Groups, parent: string, name: string, v: Option<real>)
    requires GroupsValid(g)
    ensures var inner := if parent in g.entries then g.entries[parent] else Empty();
            GroupsValid(Put(g, parent, Put(inner, name, v)))
  {
    var inner: Dict<string, Option<real>> := if parent in g.entries then g.entries[parent] else Empty();
    PutValid(inner, name, v);
    PutValid(g, parent, Put(inner, name, v));
  }

  /** Grouping only ever builds valid dicts of valid dicts. */
  lemma {:induction false} GroupedValid(controls: Dict<string, ControlSignal>, n: nat)
    requires controls.Valid() && n <= |controls.keys|
    ensures GroupsValid(Grouped(controls, n).groups)
  {
    if n > 0 {
      GroupedValid(controls, n - 1);
      var g := Grouped(controls, n - 1);
      var c := controls.entries[controls.keys[n - 1]];
      if g.error.None? && Reference(controls, n - 1).Ok? && c.signal.sourceType == SignalSource.Dbc {
        PutNestedValid(g.groups, c.signal.parent, c.signal.name, Reference(controls, n - 1).value);
      }
    }
  }

  /** A control signal can be grouped: its reference evaluates and its source is a bus or a calibration file. */
  predicate Groupable(controls: Dict<string, ControlSignal>, i: nat)
    requires controls.Valid() && i < |controls.keys|
  {
    Reference(controls, i).Ok? &&
    var source := controls.entries[controls.keys[i]].signal.sourceType;
    source == SignalSource.Dbc || source == SignalSource.A2l
  }

  /** After an exception the grouping stays as it was. */
  lemma {:induction false} GroupedSticks(controls: Dict<string, ControlSignal>, i: nat, n: nat)
    requires controls.Valid() && i <= n <= |controls.keys|
    requires Grouped(controls, i).error.Some?
    ensures Grouped(controls, n) == Grouped(controls, i)
  {
    if i < n {
      GroupedSticks(controls, i, n - 1);
      var g := Grouped(controls, n - 1);
      assert g.error.Some?;
      assert Grouped(controls, n) == g;
    }
  }

  /** What one iteration does to the error, the calibrations and its own entry. */
  lemma GroupControlStep(g: Grouping, c: ControlSignal, value: Result<Option<real>>)
    ensures var r := GroupControl(g, c, value);
            && (r.error.None? <==>
                  value.Ok? && (c.signal.sourceType == SignalSource.Dbc || c.signal.sourceType == SignalSource.A2l))
            && r.calibrations ==
                 g.calibrations +
                 (if value.Ok? && c.signal.sourceType == SignalSource.A2l
                  then [CalibrateSignal(c.signal.origin, value.value)] else [])
            && (r.error.None? && c.signal.sourceType == SignalSource.Dbc ==>
                  c.signal.parent in r.groups.entries &&
                  c.signal.name in r.groups.entries[c.signal.parent].entries &&
                  r.groups.entries[c.signal.parent].entries[c.signal.name] == value.value)
            && (!(r.error.None? && c.signal.sourceType == SignalSource.Dbc) ==> r.groups == g.groups)
  {
  }

  /** One iteration leaves every other entry as it was. */
  lemma GroupControlFrame(g: Grouping, c: ControlSignal, value: Result<Option<real>>, p: string, name: string)
    requires p != c.signal.parent || name != c.signal.name
    ensures var r := GroupControl(g, c, value);
            && (p in r.groups.entries && name in r.groups.entries[p].entries <==>
                  p in g.groups.entries && name in g.groups.entries[p].entries)
            && (p in g.groups.entries && name in g.groups.entries[p].entries ==>
                  r.groups.entries[p].entries[name] == g.groups.entries[p].entries[name])
  {
  }

  /** Grouping raises exactly when some control signal cannot be grouped. */
  lemma {:induction false} GroupedError(controls: Dict<string, ControlSignal>, n: nat)
    requires controls.Valid() && n <= |controls.keys|
    ensures Grouped(controls, n).error.None? <==> forall i :: 0 <= i < n ==> Groupable(controls, i)
  {
    if n > 0 {
      GroupedError(controls, n - 1);
      var prev := Grouped(controls, n - 1);
      if prev.error.None? {
        var c := controls.entries[controls.keys[n - 1]];
        assert Grouped(controls, n) == GroupControl(prev, c, Reference(controls, n - 1));
        GroupControlStep(prev, c, Reference(controls, n - 1));
        assert Grouped(controls, n).error.None? <==> Groupable(controls, n - 1);
        assert (forall i :: 0 <= i < n ==> Groupable(controls, i)) <==>
               (forall i :: 0 <= i < n - 1 ==> Groupable(controls, i)) && Groupable(controls, n - 1);
      } else {
        assert Grouped(controls, n) == prev;
        var i :| 0 <= i < n - 1 && !Groupable(controls, i);
      }
    }
  }

  /**
   * Each bus control signal is grouped under its parent message, at its own
   * name, with the reference value of the last bus control signal that has
   * that parent and that name.
   */
  lemma {:induction false} GroupedValue(controls: Dict<string, ControlSignal>, n: nat, i: nat)
    requires controls.Valid() && i < n <= |controls.keys|
    requires Grouped(controls, n).error.None? && OnBus(controls, i)
    requires var s := controls.entries[controls.keys[i]].signal;
             forall j :: i < j < n && OnBus(controls, j) ==>
               controls.entries[controls.keys[j]].signal.parent != s.parent ||
               controls.entries[controls.keys[j]].signal.name != s.name
    ensures var g := Grouped(controls, n).groups;
            var s := controls.entries[controls.keys[i]].signal;
            s.parent in g.entries && s.name in g.entries[s.parent].entries &&
            Ok(g.entries[s.parent].entries[s.name]) == Reference(controls, i)
  {
    var prev := Grouped(controls, n - 1);
    assert prev.error.None?;
    var c := controls.entries[controls.keys[n - 1]];
    var s := controls.entries[controls.keys[i]].signal;
    GroupControlStep(prev, c, Reference(controls, n - 1));
    if i < n - 1 {
      GroupedValue(controls, n - 1, i);
      if c.signal.sourceType == SignalSource.Dbc {
        assert OnBus(controls, n - 1);
        GroupControlFrame(prev, c, Reference(controls, n - 1), s.parent, s.name);
      }
    }
  }

  /** Every grouped entry comes from a bus control signal with that parent and that name. */
  lemma {:induction false} GroupedSound(controls: Dict<string, ControlSignal>, n: nat, p: string, name: string)
    requires controls.Valid() && n <= |controls.keys|
    requires var g := Grouped(controls, n).groups; p in g.entries && name in g.entries[p].entries
    ensures exists i :: 0 <= i < n && OnBus(controls, i) &&
              controls.entries[controls.keys[i]].signal.parent == p &&
              controls.entries[controls.keys[i]].signal.name == name
  {
    assert n > 0;
    var prev := Grouped(controls, n - 1);
    var c := controls.entries[controls.keys[n - 1]];
    if prev.error.Some? {
      assert Grouped(controls, n) == prev;
      GroupedSound(controls, n - 1, p, name);
    } else if c.signal.parent == p && c.signal.name == name && OnBus(controls, n - 1) {
      assert 0 <= n - 1 < n && OnBus(controls, n - 1) &&
             controls.entries[controls.keys[n - 1]].signal.parent == p &&
             controls.entries[controls.keys[n - 1]].signal.name == name;
    } else {
      GroupedEarlier(controls, n, p, name);
      GroupedSound(controls, n - 1, p, name);
    }
  }

  /** An entry the last control signal does not write was already there. */
  lemma GroupedEarlier(controls: Dict<string, ControlSignal>, n: nat, p: string, name: string)
    requires controls.Valid() && 0 < n <= |controls.keys|
    requires var g := Grouped(controls, n).groups; p in g.entries && name in g.entries[p].entries
    requires Grouped(controls, n - 1).error.None?
    requires var c := controls.entries[controls.keys[n - 1]];
             !(c.signal.parent == p && c.signal.name == name && OnBus(controls, n - 1))
    ensures var g := Grouped(controls, n - 1).groups; p in g.entries && name in g.entries[p].entries
  {
    var prev := Grouped(controls, n - 1);
    var c := controls.entries[controls.keys[n - 1]];
    assert Grouped(controls, n) == GroupControl(prev, c, Reference(controls, n - 1));
    GroupControlStep(prev, c, Reference(controls, n - 1));
    if c.signal.parent != p || c.signal.name != name {
      GroupControlFrame(prev, c, Reference(controls, n - 1), p, name);
    }
  }

  /** Each calibration made comes from a calibration-file control signal and its reference value. */
  lemma {:induction false} CalibrationsSound(controls: Dict<string, ControlSignal>, n: nat, k: nat)
    requires controls.Valid() && n <= |controls.keys|
    requires k < |Grouped(controls, n).calibrations|
    ensures exists i :: 0 <= i < n &&
              controls.entries[controls.keys[i]].signal.sourceType == SignalSource.A2l &&
              Reference(controls, i).Ok? &&
              Grouped(controls, n).calibrations[k] ==
                CalibrateSignal(controls.entries[controls.keys[i]].signal.origin, Reference(controls, i).value)
  {
    var prev := Grouped(controls, n - 1);
    if prev.error.Some? {
      CalibrationsSound(controls, n - 1, k);
    } else {
      GroupControlStep(prev, controls.entries[controls.keys[n - 1]], Reference(controls, n - 1));
      if k < |prev.calibrations| {
        CalibrationsSound(controls, n - 1, k);
      }
    }
  }

  /** Without an exception, every calibration-file control signal is calibrated with its reference value. */
  lemma {:induction false} CalibrationsComplete(controls: Dict<string, ControlSignal>, n: nat, i: nat)
    requires controls.Valid() && i < n <= |controls.keys|
    requires Grouped(controls, n).error.None?
    requires controls.entries[controls.keys[i]].signal.sourceType == SignalSource.A2l
    ensures Reference(controls, i).Ok?
    ensures CalibrateSignal(controls.entries[controls.keys[i]].signal.origin, Reference(controls, i).value)
              in Grouped(controls, n).calibrations
  {
    var prev := Grouped(controls, n - 1);
    assert prev.error.None?;
    GroupControlStep(prev, controls.entries[controls.keys[n - 1]], Reference(controls, n - 1));
    if i < n - 1 {
      CalibrationsComplete(controls, n - 1, i);
    }
  }

  // -------------------------------------------------------------------------
  // perform_common_step: one sending task per grouped message

  /** Tasks are addressed to the gateway when there is one, else to the device. */
  function Target(bench: Bench): DeviceInfo
  {
    if bench.gateway.Some? then bench.gateway.value else bench.dut
  }

  /** The sending-task command for grouped message `p`. */
  function TaskFor(bench: Bench, groups: Groups, p: string): Command
    requires p in bench.dbcMessages && p in groups.entries
  {
    StartTask(bench.dbcMessages[p], Target(bench).can, "FE", Target(bench).j1939Sa, groups.entries[p], bench.e2e)
  }

  /** The commands and task ids of the sending loop so far, and the exception that stopped it. */
  datatype Sending = Sending(commands: seq<Command>, ids: seq<string>, error: Option<Error>)

  /** The sending loop over the first `n` grouped messages; a message the bus files lack raises KeyError. */
  function Sent(bench: Bench, groups: Groups, n: nat): (r: Sending)
    requires groups.Valid() && n <= |groups.keys|
    ensures |r.commands| == |r.ids|
  {
    if n == 0 then Sending([], [], None)
    else
      var s := Sent(bench, groups, n - 1);
      var p := groups.keys[n - 1];
      if s.error.Some? then s
      else if p !in bench.dbcMessages then Sending(s.commands, s.ids, Some(MissingKey(p)))
      else
        var command := TaskFor(bench, groups, p);
        Sending(s.commands + [command], s.ids + [bench.taskId(command)], None)
  }

  /** After an exception the sending loop stays as it was. */
  lemma {:induction false} SentSticks(bench: Bench, groups: Groups, i: nat, n: nat)
    requires groups.Valid() && i <= n <= |groups.keys|
    requires Sent(bench, groups, i).error.Some?
    ensures Sent(bench, groups, n) == Sent(bench, groups, i)
  {
    if i < n {
      SentSticks(bench, groups, i, n - 1);
    }
  }

  /** The sending loop raises exactly when a grouped message is missing from the bus files. */
  lemma {:induction false} SentError(bench: Bench, groups: Groups, n: nat)
    requires groups.Valid() && n <= |groups.keys|
    ensures Sent(bench, groups, n).error.None? <==>
              forall i :: 0 <= i < n ==> groups.keys[i] in bench.dbcMessages
  {
    if n > 0 {
      SentError(bench, groups, n - 1);
      if Sent(bench, groups, n - 1).error.Some? {
        var i :| 0 <= i < n - 1 && groups.keys[i] !in bench.dbcMessages;
      }
    }
  }

  /**
   * Without an exception one task is started per grouped message, in the
   * order the messages were first grouped, each with that message's signals
   * and addressed as Target says, and its id is the one the device returns.
   */
  lemma {:induction false} SentTasks(bench: Bench, groups: Groups, n: nat)
    requires groups.Valid() && n <= |groups.keys|
    requires Sent(bench, groups, n).error.None?
    ensures var s := Sent(bench, groups, n);
            && |s.commands| == n
            && forall i :: 0 <= i < n ==>
                 groups.keys[i] in bench.dbcMessages &&
                 s.commands[i] == TaskFor(bench, groups, groups.keys[i]) &&
                 s.ids[i] == bench.taskId(s.commands[i])
  {
    if n > 0 {
      var prev := Sent(bench, groups, n - 1);
      assert prev.error.None?;
      SentTasks(bench, groups, n - 1);
    }
  }

  /** The exception is the KeyError of the first grouped message the bus files lack. */
  lemma {:induction false} SentFirstMissing(bench: Bench, groups: Groups, n: nat)
    requires groups.Valid() && n <= |groups.keys|
    requires Sent(bench, groups, n).error.Some?
    ensures exists i :: 0 <= i < n && groups.keys[i] !in bench.dbcMessages &&
              Sent(bench, groups, n).error == Some(MissingKey(groups.keys[i])) &&
              forall k :: 0 <= k < i ==> groups.keys[k] in bench.dbcMessages
  {
    var prev := Sent(bench, groups, n - 1);
    if prev.error.Some? {
      SentFirstMissing(bench, groups, n - 1);
    } else {
      SentError(bench, groups, n - 1);
      assert groups.keys[n - 1] !in bench.dbcMessages;
    }
  }

  /** The effects of the whole of perform_common_step. */
  datatype CommonRun = CommonRun(commands: seq<Command>, ids: seq<string>, error: Option<Error>)

  function CommonStep(controls: Dict<string, ControlSignal>, bench: Bench): CommonRun
    requires controls.Valid()
  {
    var g := Grouped(controls, |controls.keys|);
    if g.error.Some? then CommonRun(g.calibrations, [], g.error)
    else
      GroupedValid(controls, |controls.keys|);
      var s := Sent(bench, g.groups, |g.groups.keys|);
      CommonRun(g.calibrations + s.commands, s.ids, s.error)
  }

  /** CommonStep in terms of its two loops, with the appends regrouped as the runner makes them. */
  lemma CommonStepParts(controls: Dict<string, ControlSignal>, bench: Bench)
    requires controls.Valid()
    ensures var g := Grouped(controls, |controls.keys|);
            var run := CommonStep(controls, bench);
            && g.groups.Valid()
            && (g.error.Some? ==> run == CommonRun(g.calibrations, [], g.error))
            && (g.error.None? ==>
                  var s := Sent(bench, g.groups, |g.groups.keys|);
                  && run.ids == s.ids && run.error == s.error
                  && forall before: seq<Command> ::
                       before + run.commands == (before + g.calibrations) + s.commands)
  {
    GroupedValid(controls, |controls.keys|);
  }

  // -------------------------------------------------------------------------
  // perform_step

  /** What running the action of one step does, before its faults are drained. */
  datatype StepRun = StepRun(commands: seq<Command>, ids: seq<string>, log: seq<LogEntry>, error: Option<Error>)

  /**
   * The dispatch on the step's type. A step whose kind lacks the attribute
   * its type's handler reads raises AttributeError.
   */
  function StepAction(step: Step, bench: Bench): (r: StepRun)
    requires Dispatchable(step)
    ensures step.stepType == NotDefinedStep ==> r.error == Some(UnsupportedTestType)
    ensures r.error.Some? ==> r.log == []
    ensures r.ids != [] ==> step.stepType == Common
  {
    match step.stepType
    case NotDefinedStep => StepRun([], [], [], Some(UnsupportedTestType))
    case Common =>
      if !step.detail.Controls? then StepRun([], [], [], Some(MissingAttribute("control_signals")))
      else
        var c := CommonStep(step.detail.controls, bench);
        StepRun(c.commands, c.ids, [], c.error)
    case Special =>
      if !step.detail.Action? then StepRun([], [], [], Some(MissingAttribute("step_action")))
      else
        match SpecialEffects(step.detail.stepAction, step.detail.actionDetails, bench)
        case Err(e) => StepRun([], [], [], Some(e))
        case Ok(eff) => StepRun(eff.commands, [], eff.log, None)
  }

  /** A step of a well-formed specification never lacks the attribute its type reads. */
  lemma WellFormedDispatch(spec: TestSpecification, i: nat, bench: Bench)
    requires spec.WellFormed() && i < |spec.steps|
    requires spec.steps[i].detail.Controls? ==> spec.steps[i].detail.controls.Valid()
    ensures StepAction(spec.steps[i], bench).error.Some? ==>
              !StepAction(spec.steps[i], bench).error.value.MissingAttribute?
  {
    var s := spec.steps[i];
    if s.stepType == Common {
      var c := s.detail.controls;
      var g := Grouped(c, |c.keys|);
      GroupedErrorKind(c, |c.keys|);
      GroupedValid(c, |c.keys|);
      if g.error.None? && Sent(bench, g.groups, |g.groups.keys|).error.Some? {
        SentFirstMissing(bench, g.groups, |g.groups.keys|);
      }
    }
  }

  /** The exceptions grouping can raise. */
  lemma {:induction false} GroupedErrorKind(controls: Dict<string, ControlSignal>, n: nat)
    requires controls.Valid() && n <= |controls.keys|
    ensures Grouped(controls, n).error.Some? ==>
              Grouped(controls, n).error.value in {UnsupportedSource, UnsupportedWaveform, CoefficientMissing}
  {
    if n > 0 {
      GroupedErrorKind(controls, n - 1);
      var c := controls.entries[controls.keys[n - 1]];
      var e := Evaluate(c.form, c.coef, 0.0);
      assert e.Err? ==> e.error in {UnsupportedWaveform, CoefficientMissing};
    }
  }

  /** The log lines of draining the fault queue. */
  function FaultLines(q: seq<Fault>): (lines: seq<LogEntry>)
    ensures |lines| == |q|
    ensures forall i :: 0 <= i < |q| ==> lines[i] == FaultLine(q[i])
  {
    if q == [] then [] else [FaultLine(q[0])] + FaultLines(q[1..])
  }

  // -------------------------------------------------------------------------
  // set_initial_state

  /** A sending task addressed to the device, or to the gateway when there is one. */
  predicate Addressed(task: map<string, string>, bench: Bench)
  {
    "da" in task &&
    (task["da"] == bench.dut.j1939Sa || (bench.gateway.Some? && task["da"] == bench.gateway.value.j1939Sa))
  }

  /** The ids one task contributes: once per address it matches; a matching task without an id raises KeyError. */
  function TaskStops(task: map<string, string>, bench: Bench): Result<seq<string>>
  {
    var toDut := "da" in task && task["da"] == bench.dut.j1939Sa;
    var toGateway := bench.gateway.Some? && "da" in task && task["da"] == bench.gateway.value.j1939Sa;
    if (toDut || toGateway) && "id" !in task then Err(MissingKey("id"))
    else Ok((if toDut then [task["id"]] else []) + (if toGateway then [task["id"]] else []))
  }

  /** tasks_to_stop after the first `n` tasks. */
  function StopList(tasks: seq<map<string, string>>, bench: Bench, n: nat): Result<seq<string>>
    requires n <= |tasks|
  {
    if n == 0 then Ok([])
    else
      match StopList(tasks, bench, n - 1)
      case Err(e) => Err(e)
      case Ok(ids) =>
        match TaskStops(tasks[n - 1], bench)
        case Err(e) => Err(e)
        case Ok(more) => Ok(ids + more)
  }

  /** After a KeyError the stop list stays failed. */
  lemma {:induction false} StopListSticks(tasks: seq<map<string, string>>, bench: Bench, i: nat, n: nat)
    requires i <= n <= |tasks|
    requires StopList(tasks, bench, i).Err?
    ensures StopList(tasks, bench, n) == StopList(tasks, bench, i)
  {
    if i < n {
      StopListSticks(tasks, bench, i, n - 1);
    }
  }

  /**
   * The stop list holds exactly the ids of the tasks addressed to the device
   * or the gateway, and fails exactly when one of those tasks has no id.
   */
  lemma {:induction false} StopListExact(tasks: seq<map<string, string>>, bench: Bench, n: nat)
    requires n <= |tasks|
    ensures StopList(tasks, bench, n).Ok? <==>
              forall i :: 0 <= i < n && Addressed(tasks[i], bench) ==> "id" in tasks[i]
    ensures StopList(tasks, bench, n).Ok? ==>
              forall x :: x in StopList(tasks, bench, n).value <==>
                exists i :: 0 <= i < n && Addressed(tasks[i], bench) && "id" in tasks[i] && tasks[i]["id"] == x
  {
    if n > 0 {
      StopListExact(tasks, bench, n - 1);
      var r := StopList(tasks, bench, n);
      if r.Ok? {
        var ids := StopList(tasks, bench, n - 1).value;
        var more := TaskStops(tasks[n - 1], bench).value;
        assert r.value == ids + more;
        forall x
          ensures x in r.value <==>
                    exists i :: 0 <= i < n && Addressed(tasks[i], bench) && "id" in tasks[i] && tasks[i]["id"] == x
        {
          if x in more {
            assert Addressed(tasks[n - 1], bench) && tasks[n - 1]["id"] == x;
          }
        }
      }
    }
  }

  // -------------------------------------------------------------------------
  // The test run

  /** What StepAction needs of a step: the control signals of a common step form a dict. */
  ghost predicate Dispatchable(step: Step)
  {
    step.detail.Controls? ==> step.detail.controls.Valid()
  }

  /** What the action of each step does. */
  function Runs(steps: seq<Step>, bench: Bench): (runs: seq<StepRun>)
    requires forall i :: 0 <= i < |steps| ==> Dispatchable(steps[i])
    ensures |runs| == |steps|
    ensures forall i :: 0 <= i < |steps| ==> runs[i] == StepAction(steps[i], bench)
  {
    seq(|steps|, i requires 0 <= i < |steps| => StepAction(steps[i], bench))
  }

  /**
   * The runner's state during a test: the adapter calls made, the log lines,
   * active_sending_tasks and the fault queue; then how far the run got: the
   * steps completed, whether every step counted so far passed, and the
   * exception that stopped it.
   */
  datatype RunState = RunState(commands: seq<Command>, log: seq<LogEntry>, tasks: seq<string>,
                               queue: seq<Fault>, completed: nat, passed: bool, error: Option<Error>)

  /** The opening of test_scenario_thread_handle: the gateway connection when there is a gateway, then the log header. */
  function Opened(s: RunState, spec: TestSpecification, bench: Bench): RunState
  {
    s.(commands := s.commands + (if bench.gateway.Some? then [ConnectGateway] else []),
       log := s.log + [TestHeader(spec.xrayId, spec.name, spec.dscr, bench.dut)])
  }

  /** The calls set_initial_state makes before the initial step: stop the addressed tasks when there are any, then reboot. */
  function Prepared(s: RunState, tasks: seq<map<string, string>>, bench: Bench): RunState
  {
    match StopList(tasks, bench, |tasks|)
    case Err(e) => s.(error := Some(e))
    case Ok(ids) => s.(commands := s.commands + (if |ids| > 0 then [StopAdapterTasks(ids)] else []) + [RebootDevice])
  }

  /**
   * perform_step as written, given the step's header line and what its
   * action does: once the action returns, asyncio.gather receives two values
   * that are not awaitable and raises TypeError. Nothing happens after an
   * exception.
   */
  function StepAsWritten(s: RunState, header: LogEntry, run: StepRun): (r: RunState)
    ensures r.error.Some?
  {
    if s.error.Some? then s
    else
      s.(commands := s.commands + run.commands, log := s.log + [header] + run.log,
         tasks := AddNew(s.tasks, run.ids), error := Some(if run.error.Some? then run.error.value else NotAwaitable))
  }

  /**
   * perform_step as intended: when the action returns, the queue (its
   * earlier content followed by the faults `pushed` while the step ran) is
   * drained into the log, then the step's status. Nothing happens after an
   * exception.
   */
  function StepIntended(s: RunState, header: LogEntry, run: StepRun, pushed: seq<Fault>): RunState
  {
    if s.error.Some? then s
    else
      var ran := s.(commands := s.commands + run.commands, log := s.log + [header] + run.log,
                    tasks := AddNew(s.tasks, run.ids));
      if run.error.Some? then ran.(error := run.error)
      else
        var drained := s.queue + pushed;
        ran.(log := ran.log + FaultLines(drained) + [StepStatus(drained == [])], queue := [],
             completed := s.completed + 1, passed := s.passed && drained == [])
  }

  /**
   * The step loop of test_scenario_thread_handle as intended, after its first
   * `k` steps, with `runs[i]` what the action of step i does.
   */
  function StepsRun(steps: seq<Step>, runs: seq<StepRun>, s: RunState, pushed: seq<seq<Fault>>, k: nat): RunState
    requires k <= |steps| == |runs| == |pushed|
  {
    if k == 0 then s
    else StepIntended(StepsRun(steps, runs, s, pushed, k - 1), StepHeader(k, steps[k - 1].action),
                      runs[k - 1], pushed[k - 1])
  }

  /** The end of test_scenario_thread_handle: the test status, then the stop of the active sending tasks. */
  function Finished(s: RunState): RunState
  {
    if s.error.Some? then s
    else s.(log := s.log + [TestStatus(s.passed)], commands := s.commands + [StopDeviceTasks(s.tasks)])
  }

  /** The state of `s` as a run that has neither completed a step nor failed one. */
  function Fresh(s: RunState): RunState
  {
    s.(completed := 0, passed := true)
  }

  /**
   * What a step does to the commands, the log, the tasks and the queue
   * depends neither on the steps completed before it nor on their verdicts.
   */
  lemma StepIntendedFresh(s: RunState, header: LogEntry, run: StepRun, pushed: seq<Fault>)
    ensures var a := StepIntended(s, header, run, pushed);
            var b := StepIntended(Fresh(s), header, run, pushed);
            && a.commands == b.commands && a.log == b.log && a.tasks == b.tasks && a.queue == b.queue
            && a.error == b.error
            && (s.error.None? && a.error.None? ==> a.completed == s.completed + 1 && (a.passed <==> s.passed && b.passed))
  {
  }

  /** After an exception the step loop does nothing more. */
  lemma {:induction false} StepsRunSticks(steps: seq<Step>, runs: seq<StepRun>, s: RunState,
                                          pushed: seq<seq<Fault>>, i: nat, n: nat)
    requires i <= n <= |steps| == |runs| == |pushed|
    requires StepsRun(steps, runs, s, pushed, i).error.Some?
    ensures StepsRun(steps, runs, s, pushed, n) == StepsRun(steps, runs, s, pushed, i)
  {
    if i < n {
      StepsRunSticks(steps, runs, s, pushed, i, n - 1);
    }
  }

  /** The step loop raises iff some step's action raises, and then with the first such exception. */
  lemma {:induction false} StepsRunError(steps: seq<Step>, runs: seq<StepRun>, s: RunState,
                                         pushed: seq<seq<Fault>>, k: nat)
    requires k <= |steps| == |runs| == |pushed|
    requires s.error.None?
    ensures StepsRun(steps, runs, s, pushed, k).error.Some? <==>
              exists i :: 0 <= i < k && runs[i].error.Some?
    ensures StepsRun(steps, runs, s, pushed, k).error.Some? ==>
              exists i :: 0 <= i < k && StepsRun(steps, runs, s, pushed, k).error == runs[i].error &&
                forall j :: 0 <= j < i ==> runs[j].error.None?
  {
    if k > 0 {
      StepsRunError(steps, runs, s, pushed, k - 1);
      var p := StepsRun(steps, runs, s, pushed, k - 1);
      if p.error.None? && runs[k - 1].error.Some? {
        assert forall j :: 0 <= j < k - 1 ==> runs[j].error.None?;
      }
    }
  }

  /**
   * When no step raises, every step completes, and the queue ends empty once
   * a step has drained it.
   */
  lemma {:induction false} StepsRunCompleted(steps: seq<Step>, runs: seq<StepRun>, s: RunState,
                                             pushed: seq<seq<Fault>>, k: nat)
    requires k <= |steps| == |runs| == |pushed|
    ensures var p := StepsRun(steps, runs, s, pushed, k);
            p.error.None? ==> p.completed == s.completed + k && p.queue == (if k == 0 then s.queue else [])
  {
    if k > 0 {
      StepsRunCompleted(steps, runs, s, pushed, k - 1);
      var p := StepsRun(steps, runs, s, pushed, k - 1);
      if p.error.Some? {
        StepsRunSticks(steps, runs, s, pushed, k - 1, k);
      }
    }
  }

  /**
   * When no step raises, the run passes iff it passed at the start, the
   * queue was then empty or no step ran, and no fault was pushed during any
   * step.
   */
  lemma {:induction false} StepsRunPassed(steps: seq<Step>, runs: seq<StepRun>, s: RunState,
                                          pushed: seq<seq<Fault>>, k: nat)
    requires k <= |steps| == |runs| == |pushed|
    ensures var p := StepsRun(steps, runs, s, pushed, k);
            p.error.None? ==>
              (p.passed <==> s.passed && (k == 0 || s.queue == []) && forall i :: 0 <= i < k ==> pushed[i] == [])
  {
    if k > 0 {
      var p := StepsRun(steps, runs, s, pushed, k - 1);
      if p.error.Some? {
        StepsRunSticks(steps, runs, s, pushed, k - 1, k);
      } else {
        StepsRunPassed(steps, runs, s, pushed, k - 1);
        StepsRunCompleted(steps, runs, s, pushed, k - 1);
        assert (forall i :: 0 <= i < k ==> pushed[i] == []) <==>
               (forall i :: 0 <= i < k - 1 ==> pushed[i] == []) && pushed[k - 1] == [];
      }
    }
  }

  /**
   * test_scenario_thread_handle as written: the opening, then
   * set_initial_state, whose perform_step always raises.
   */
  function ScenarioAsWritten(spec: TestSpecification, tasks: seq<map<string, string>>, bench: Bench, s: RunState): RunState
    requires Dispatchable(spec.initialState)
  {
    StepAsWritten(Prepared(Opened(s, spec, bench), tasks, bench), StepHeader(0, spec.initialState.action),
                  StepAction(spec.initialState, bench))
  }

  /**
   * test_scenario_thread_handle as intended: the opening, set_initial_state
   * with the initial state as step 0, whose status is discarded, the reading
   * task, the steps, the test status and the stop of the active tasks.
   */
  function ScenarioRun(spec: TestSpecification, tasks: seq<map<string, string>>, bench: Bench, s: RunState,
                       pushedInitially: seq<Fault>, pushed: seq<seq<Fault>>): RunState
    requires |pushed| == |spec.steps|
    requires Dispatchable(spec.initialState)
    requires forall i :: 0 <= i < |spec.steps| ==> Dispatchable(spec.steps[i])
  {
    var init := StepIntended(Prepared(Opened(s, spec, bench), tasks, bench), StepHeader(0, spec.initialState.action),
                             StepAction(spec.initialState, bench), pushedInitially);
    if init.error.Some? then init
    else
      var reading := init.(commands := init.commands + [ConfigureReadingTask], completed := 0, passed := true);
      Finished(StepsRun(spec.steps, Runs(spec.steps, bench), reading, pushed, |spec.steps|))
  }

  /**
   * A run as intended completes iff the stop list, the initial state and
   * every step go through; it then passes iff the monitor pushed no fault
   * during any step, whatever happened during the initial state.
   */
  lemma ScenarioVerdict(spec: TestSpecification, tasks: seq<map<string, string>>, bench: Bench, s: RunState,
                        pushedInitially: seq<Fault>, pushed: seq<seq<Fault>>)
    requires |pushed| == |spec.steps|
    requires Dispatchable(spec.initialState)
    requires forall i :: 0 <= i < |spec.steps| ==> Dispatchable(spec.steps[i])
    requires s.error.None?
    ensures var r := ScenarioRun(spec, tasks, bench, s, pushedInitially, pushed);
            && (r.error.None? <==>
                  && StopList(tasks, bench, |tasks|).Ok?
                  && StepAction(spec.initialState, bench).error.None?
                  && forall i :: 0 <= i < |spec.steps| ==> StepAction(spec.steps[i], bench).error.None?)
            && (r.error.None? ==>
                  && r.completed == |spec.steps|
                  && (r.passed <==> forall i :: 0 <= i < |pushed| ==> pushed[i] == []))
  {
    var init := StepIntended(Prepared(Opened(s, spec, bench), tasks, bench), StepHeader(0, spec.initialState.action),
                             StepAction(spec.initialState, bench), pushedInitially);
    if init.error.None? {
      var reading := init.(commands := init.commands + [ConfigureReadingTask], completed := 0, passed := true);
      StepsRunError(spec.steps, Runs(spec.steps, bench), reading, pushed, |spec.steps|);
      StepsRunCompleted(spec.steps, Runs(spec.steps, bench), reading, pushed, |spec.steps|);
      StepsRunPassed(spec.steps, Runs(spec.steps, bench), reading, pushed, |spec.steps|);
    }
  }

  /**
   * The run as written always raises: with the exception of the stop list or
   * of the initial state's action, and otherwise with TypeError.
   */
  lemma ScenarioAsWrittenRaises(spec: TestSpecification, tasks: seq<map<string, string>>, bench: Bench, s: RunState)
    requires Dispatchable(spec.initialState)
    requires s.error.None?
    ensures ScenarioAsWritten(spec, tasks, bench, s).error.Some?
    ensures StopList(tasks, bench, |tasks|).Ok? && StepAction(spec.initialState, bench).error.None? ==>
              ScenarioAsWritten(spec, tasks, bench, s).error == Some(NotAwaitable)
    ensures StopList(tasks, bench, |tasks|).Err? ==>
              ScenarioAsWritten(spec, tasks, bench, s).error == Some(StopList(tasks, bench, |tasks|).error)
  {
  }

  /**
   * A specification whose initial state is a common step without control
   * signals and which has no steps, run with no sending task on the bus:
   * the run as intended passes, the run as written raises TypeError.
   */
  lemma EmptyScenario(spec: TestSpecification, bench: Bench, s: RunState)
    requires spec.initialState.stepType == Common && spec.initialState.detail == Controls(Empty())
    requires spec.steps == [] && s.error.None?
    ensures ScenarioAsWritten(spec, [], bench, s).error == Some(NotAwaitable)
    ensures ScenarioRun(spec, [], bench, s, [], []).error.None?
    ensures ScenarioRun(spec, [], bench, s, [], []).passed
  {
    var c: Dict<string, ControlSignal> := Empty();
    assert Grouped(c, 0).error.None?;
    assert Sent(bench, Grouped(c, 0).groups, 0).error.None?;
  }
}
