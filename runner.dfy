/**
 * test_spec_runner.py as a state machine. The module-level globals it
 * mutates (logged_data, faults_queue, active_sending_tasks, new_step_event),
 * the monitor thread's locals (step_cntr, current_step, step_timestamp_ns),
 * the adapter calls it makes and the lines it writes to the test log and the
 * CSV log are the fields of a RunContext; each function of the runner is a
 * method proved against the decision functions of Monitor and Scenario.
 */
module Runner {
  import opened Outcomes
  import opened Dicts
  import opened Lists
  import opened Waveforms
  import opened TestSpec
  import opened Steps
  import opened Monitor
  import opened Scenario

  /** prepare_caption */
  method PrepareCaption(data: Dict<string, real>) returns (caption: string)
    ensures caption == Caption(data)
  {
    caption := "timestamp,";
    for i := 0 to |data.keys|
      invariant caption == "timestamp," + Joined(data.keys[..i])
    {
      assert data.keys[..i + 1][..i] == data.keys[..i];
      caption := caption + data.keys[i] + ",";
    }
    assert data.keys[..|data.keys|] == data.keys;
    caption := caption + "\n";
  }

  /** prepare_data, with the time of day and the rendering of a value given. */
  method PrepareData(timestamp: string, data: Dict<string, real>, render: real -> string) returns (row: string)
    requires data.Valid()
    ensures row == DataRow(timestamp, data, render)
  {
    ghost var values := RenderedValues(data, render);
    row := timestamp + ",";
    for i := 0 to |data.keys|
      invariant row == timestamp + "," + Joined(values[..i])
    {
      assert values[..i + 1][..i] == values[..i];
      row := row + render(data.entries[data.keys[i]]) + ",";
    }
    assert values[..|data.keys|] == values;
    row := row + "\n";
  }

  /** The search for the first window that contains `t`. */
  method FindRange(ranges: seq<MonitoredRange>, t: real) returns (index: Option<nat>)
    ensures index == FirstInWindow(ranges, t)
  {
    for k := 0 to |ranges|
      invariant forall j :: 0 <= j < k ==> !InWindow(ranges[j], t)
    {
      if t >= ranges[k].startMs && t <= ranges[k].stopMs {
        return Some(k);
      }
    }
    return None;
  }

  /** The check of one monitored value inside process_message's loop. */
  method CheckValue(name: string, ms: MonitoredSignal, t: real, measured: real) returns (r: Result<Option<Fault>>)
    ensures r == Judge(name, ms, t, measured)
  {
    var index := FindRange(ms.ranges, t);
    if index.None? {
      return Ok(None);
    }
    var expected := Evaluate(ms.form, ms.coef, t);
    if expected.Err? {
      return Err(expected.error);
    }
    if expected.value.None? {
      return Err(NotANumber);
    }
    var e := expected.value.value;
    var tolerance := ms.ranges[index.value].tolerance;
    var base := tolerance / 100.0 * Abs(e);
    if base == 0.0 {
      base := tolerance;
    }
    assert base == Bound(tolerance, e);
    if Abs(e - measured) > base {
      return Ok(Some(Fault(name, e, tolerance, measured, index.value, t)));
    }
    return Ok(None);
  }

  class RunContext {
    /** logged_data */
    var loggedData: Dict<string, real>
    /** faults_queue */
    var faults: seq<Fault>
    /** active_sending_tasks */
    var activeSendingTasks: seq<string>
    /** new_step_event */
    var newStepEvent: bool
    /** The adapter calls made so far. */
    var commands: seq<Command>
    /** The lines of the test log. */
    var log: seq<LogEntry>
    /** The rows of the CSV log. */
    var csvRows: seq<string>
    /** The monitor thread's step_cntr, current_step and step_timestamp_ns. */
    var stepCntr: nat
    var currentStep: Step
    var stepTimestampNs: int

    /** The globals as the module defines them, and the monitor as it starts. */
    constructor (spec: TestSpecification, nowNs: int)
      ensures loggedData == Empty() && faults == [] && activeSendingTasks == [] && !newStepEvent
      ensures commands == [] && log == [] && csvRows == []
      ensures stepCntr == 0 && stepTimestampNs == nowNs
      ensures PointerValid(spec)
    {
      loggedData := Empty();
      faults := [];
      activeSendingTasks := [];
      newStepEvent := false;
      commands := [];
      log := [];
      csvRows := [];
      stepCntr := 0;
      currentStep := spec.initialState;
      stepTimestampNs := nowNs;
    }

    /** The monitor's current step is the one its counter designates. */
    ghost predicate PointerValid(spec: TestSpecification)
      reads this
    {
      currentStep == CurrentStep(spec, stepCntr)
    }

    /** The runner's state, as that of a run that has neither completed a step nor raised. */
    ghost function State(): RunState
      reads this
    {
      RunState(commands, log, activeSendingTasks, faults, 0, true, None)
    }

    /** The commands, log, active sending tasks and fault queue are those of `s`. */
    ghost predicate Reached(s: RunState)
      reads this
    {
      commands == s.commands && log == s.log && activeSendingTasks == s.tasks && faults == s.queue
    }

    // -----------------------------------------------------------------------
    // The monitor thread

    /** process_message, with one clock reading `nowNs` for the whole feedback. */
    method ProcessMessage(step: Step, fb: Feedback, stepStartNs: int, nowNs: int) returns (err: Option<Error>)
      requires fb.signals.Valid()
      modifies this`loggedData, this`faults
      ensures Outcome(Cache(loggedData, faults), err) ==
              Processed(Cache(old(loggedData), old(faults)), step, fb, ElapsedMs(stepStartNs, nowNs),
                        |fb.signals.keys|)
    {
      var t := ElapsedMs(stepStartNs, nowNs);
      ghost var c0 := Cache(loggedData, faults);
      for i := 0 to |fb.signals.keys|
        invariant Processed(c0, step, fb, t, i) == Outcome(Cache(loggedData, faults), None)
      {
        err := ProcessSignalOf(step, fb, t, fb.signals.keys[i]);
        if err.Some? {
          ErrorSticks(c0, step, fb, t, i + 1, |fb.signals.keys|);
          return;
        }
      }
      return None;
    }

    /** The body of the loop of process_message, for the feedback's signal `signal`. */
    method ProcessSignalOf(step: Step, fb: Feedback, t: real, signal: string) returns (err: Option<Error>)
      requires signal in fb.signals.entries
      modifies this`loggedData, this`faults
      ensures Outcome(Cache(loggedData, faults), err) ==
              ProcessSignal(Cache(old(loggedData), old(faults)), step, fb, t, signal)
    {
      var name := fb.messageName + "_" + signal;
      var measured := fb.signals.entries[signal];
      if name in step.logged.entries {
        loggedData := Put(loggedData, name, measured);
      }
      if name in step.monitored.entries {
        var judged := CheckValue(name, step.monitored.entries[name], t, measured);
        if judged.Err? {
          return Some(judged.error);
        }
        if judged.value.Some? {
          faults := faults + [judged.value.value];
        }
      }
      return None;
    }

    /**
     * The monitor's handling of one batch of feedbacks: each feedback with a
     * non-empty payload is processed against the current step, then the
     * logged values are written as a CSV row. `nowNs` is one clock reading
     * for the whole batch.
     */
    method ProcessFeedbacks(batch: seq<Option<Feedback>>, nowNs: int, timestamp: string, render: real -> string)
      returns (err: Option<Error>)
      requires loggedData.Valid() && BatchValid(batch)
      modifies this`loggedData, this`faults, this`csvRows
      ensures loggedData.Valid()
      ensures var o := BatchProcessed(Cache(old(loggedData), old(faults)), currentStep, batch,
                                      ElapsedMs(stepTimestampNs, nowNs), |batch|);
              && o.cache == Cache(loggedData, faults)
              && o.error == err
              && csvRows == old(csvRows) + (if err.None? then [DataRow(timestamp, loggedData, render)] else [])
    {
      ghost var c0 := Cache(loggedData, faults);
      ghost var t := ElapsedMs(stepTimestampNs, nowNs);
      BatchProcessedValid(c0, currentStep, batch, t, |batch|);
      for i := 0 to |batch|
        invariant csvRows == old(csvRows)
        invariant BatchProcessed(c0, currentStep, batch, t, i) == Outcome(Cache(loggedData, faults), None)
      {
        if batch[i].Some? {
          var e := ProcessMessage(currentStep, batch[i].value, stepTimestampNs, nowNs);
          if e.Some? {
            BatchSticks(c0, currentStep, batch, t, i + 1, |batch|);
            return e;
          }
        }
      }
      var row := PrepareData(timestamp, loggedData, render);
      csvRows := csvRows + [row];
      return None;
    }

    /**
     * One look at new_step_event: when it is set, it is cleared, the step
     * clock restarts and the monitor moves on to the next step, if any.
     */
    method MonitorTick(spec: TestSpecification, nowNs: int)
      requires PointerValid(spec)
      modifies this`newStepEvent, this`stepTimestampNs, this`currentStep, this`stepCntr
      ensures PointerValid(spec) && !newStepEvent
      ensures stepCntr == old(stepCntr) + (if old(newStepEvent) then 1 else 0)
      ensures stepTimestampNs == if old(newStepEvent) then nowNs else old(stepTimestampNs)
    {
      if newStepEvent {
        newStepEvent := false;
        stepTimestampNs := nowNs;
        if stepCntr < |spec.steps| {
          currentStep := spec.steps[stepCntr];
        }
        stepCntr := stepCntr + 1;
      }
    }

    /** The caption put in front of the CSV rows when the monitor stops. */
    method WriteCaption()
      modifies this`csvRows
      ensures csvRows == [Caption(loggedData)] + old(csvRows)
    {
      var caption := PrepareCaption(loggedData);
      csvRows := [caption] + csvRows;
    }

    // -----------------------------------------------------------------------
    // The scenario thread

    /** perform_special_step */
    method PerformSpecialStep(action: SpecialAction, details: string, bench: Bench) returns (err: Option<Error>)
      modifies this`commands, this`log
      ensures var r := SpecialEffects(action, details, bench);
              && (r.Err? ==> err == Some(r.error) && commands == old(commands) && log == old(log))
              && (r.Ok? ==> err.None? && commands == old(commands) + r.value.commands &&
                            log == old(log) + r.value.log)
    {
      if action == SpecialAction.Reboot {
        commands := commands + [RebootDevice];
        commands := commands + [ConfigureReadingTask];
      } else if action == PowerOff {
        commands := commands + [PowerOffDevice];
      } else if action == PowerOn {
        commands := commands + [PowerOnDevice];
      } else if action == GetInfo {
        log := log + [DeviceSummary(bench.dut)];
      } else if action == GetParameters {
        commands := commands + [ReadParameters];
        log := log + [ParametersDump(bench.parameters)];
      } else if action == UpdateParameters {
        commands := commands + [WriteParameters(details)];
      } else if action == GetFram {
        commands := commands + [ReadFram];
      } else {
        return Some(UnsupportedAction);
      }
      return None;
    }

    /** perform_common_step */
    method PerformCommonStep(controls: Dict<string, ControlSignal>, bench: Bench) returns (err: Option<Error>)
      requires controls.Valid()
      modifies this`commands, this`activeSendingTasks
      ensures var run := CommonStep(controls, bench);
              && commands == old(commands) + run.commands
              && activeSendingTasks == AddNew(old(activeSendingTasks), run.ids)
              && err == run.error
    {
      CommonStepParts(controls, bench);
      var groups;
      groups, err := GroupSignals(controls);
      if err.None? {
        err := StartTasks(groups, bench);
      }
    }

    /** The first loop of perform_common_step: group bus values by message, calibrate the others. */
    method GroupSignals(controls: Dict<string, ControlSignal>) returns (groups: Groups, err: Option<Error>)
      requires controls.Valid()
      modifies this`commands
      ensures var g := Grouped(controls, |controls.keys|);
              && commands == old(commands) + g.calibrations
              && err == g.error
              && (err.None? ==> groups == g.groups)
    {
      groups := Empty();
      for i := 0 to |controls.keys|
        invariant Grouped(controls, i).error.None? && Grouped(controls, i).groups == groups
        invariant commands == old(commands) + Grouped(controls, i).calibrations
      {
        var next;
        next, err := GroupOne(controls, i, groups, old(commands));
        if err.Some? {
          GroupedSticks(controls, i + 1, |controls.keys|);
          return;
        }
        groups := next;
      }
      return groups, None;
    }

    /** The body of the first loop of perform_common_step, for the `i`-th control signal. */
    method GroupOne(controls: Dict<string, ControlSignal>, i: nat, groups: Groups, ghost base: seq<Command>)
      returns (next: Groups, err: Option<Error>)
      requires controls.Valid() && i < |controls.keys|
      requires Grouped(controls, i).error.None? && Grouped(controls, i).groups == groups
      requires commands == base + Grouped(controls, i).calibrations
      modifies this`commands
      ensures err == Grouped(controls, i + 1).error
      ensures err.None? ==> next == Grouped(controls, i + 1).groups
      ensures commands == base + Grouped(controls, i + 1).calibrations
    {
      var control := controls.entries[controls.keys[i]];
      var value := Evaluate(control.form, control.coef, 0.0);
      if value.Err? {
        return groups, Some(value.error);
      }
      next := groups;
      if control.signal.sourceType == SignalSource.Dbc {
        var parent := control.signal.parent;
        if parent !in next.entries {
          next := Put(next, parent, Empty());
        }
        next := Put(next, parent, Put(next.entries[parent], control.signal.name, value.value));
        assert next == Grouped(controls, i + 1).groups;
      } else if control.signal.sourceType == SignalSource.A2l {
        commands := commands + [CalibrateSignal(control.signal.origin, value.value)];
      } else {
        return next, Some(UnsupportedSource);
      }
      return next, None;
    }

    /** The second loop of perform_common_step: one sending task per grouped message. */
    method StartTasks(groups: Groups, bench: Bench) returns (err: Option<Error>)
      requires groups.Valid()
      modifies this`commands, this`activeSendingTasks
      ensures var s := Sent(bench, groups, |groups.keys|);
              && commands == old(commands) + s.commands
              && activeSendingTasks == AddNew(old(activeSendingTasks), s.ids)
              && err == s.error
    {
      for j := 0 to |groups.keys|
        invariant Sent(bench, groups, j).error.None?
        invariant commands == old(commands) + Sent(bench, groups, j).commands
        invariant activeSendingTasks == AddNew(old(activeSendingTasks), Sent(bench, groups, j).ids)
      {
        err := StartOne(groups, bench, j, old(commands), old(activeSendingTasks));
        if err.Some? {
          SentSticks(bench, groups, j + 1, |groups.keys|);
          return;
        }
      }
      return None;
    }

    /** The body of the second loop of perform_common_step, for the `j`-th grouped message. */
    method StartOne(groups: Groups, bench: Bench, j: nat, ghost baseCommands: seq<Command>,
                    ghost baseTasks: seq<string>) returns (err: Option<Error>)
      requires groups.Valid() && j < |groups.keys| && Sent(bench, groups, j).error.None?
      requires commands == baseCommands + Sent(bench, groups, j).commands
      requires activeSendingTasks == AddNew(baseTasks, Sent(bench, groups, j).ids)
      modifies this`commands, this`activeSendingTasks
      ensures err == Sent(bench, groups, j + 1).error
      ensures commands == baseCommands + Sent(bench, groups, j + 1).commands
      ensures activeSendingTasks == AddNew(baseTasks, Sent(bench, groups, j + 1).ids)
    {
      ghost var s := Sent(bench, groups, j);
      var message := groups.keys[j];
      if message !in bench.dbcMessages {
        return Some(MissingKey(message));
      }
      var task := TaskFor(bench, groups, message);
      commands := commands + [task];
      var id := bench.taskId(task);
      if id !in activeSendingTasks {
        activeSendingTasks := activeSendingTasks + [id];
      }
      assert (s.ids + [id])[..|s.ids|] == s.ids;
      return None;
    }

    /**
     * perform_step as written: the header, the action, the step's duration,
     * then asyncio.gather called on the two results already awaited. Both are
     * None, which gather cannot wait on, so every step whose action returns
     * raises TypeError there; the drain and the status line are never reached.
     */
    method PerformStep(step: Step, number: int, bench: Bench) returns (r: Result<bool>)
      requires Dispatchable(step)
      modifies this`commands, this`activeSendingTasks, this`log
      ensures var s := StepAsWritten(old(State()), StepHeader(number, step.action), StepAction(step, bench));
              Reached(s) && r == Err(s.error.value)
    {
      log := log + [StepHeader(number, step.action)];
      var err := RunAction(step, bench);
      if err.Some? {
        return Err(err.value);
      }
      return Err(NotAwaitable);
    }

    /**
     * perform_step as intended, with `pushed` the faults the monitor pushes
     * while the step runs: the step passes iff the queue it drains is empty.
     */
    method PerformStepIntended(step: Step, number: int, bench: Bench, pushed: seq<Fault>) returns (r: Result<bool>)
      requires Dispatchable(step)
      modifies this`commands, this`activeSendingTasks, this`log, this`faults
      ensures var s := StepIntended(old(State()), StepHeader(number, step.action), StepAction(step, bench), pushed);
              Reached(s) && r == (if s.error.Some? then Err(s.error.value) else Ok(s.passed))
      ensures r.Err? <==> StepAction(step, bench).error.Some?
      ensures r.Ok? ==> (r.value <==> old(faults) + pushed == []) && faults == []
    {
      log := log + [StepHeader(number, step.action)];
      var err := RunAction(step, bench);
      if err.Some? {
        return Err(err.value);
      }
      r := Drain(pushed);
    }

    /** The dispatch of perform_step on the step's type. */
    method RunAction(step: Step, bench: Bench) returns (err: Option<Error>)
      requires Dispatchable(step)
      modifies this`commands, this`activeSendingTasks, this`log
      ensures var run := StepAction(step, bench);
              && commands == old(commands) + run.commands
              && activeSendingTasks == AddNew(old(activeSendingTasks), run.ids)
              && log == old(log) + run.log
              && err == run.error
    {
      if step.stepType == Common {
        if !step.detail.Controls? {
          return Some(MissingAttribute("control_signals"));
        }
        err := PerformCommonStep(step.detail.controls, bench);
      } else if step.stepType == Special {
        if !step.detail.Action? {
          return Some(MissingAttribute("step_action"));
        }
        err := PerformSpecialStep(step.detail.stepAction, step.detail.actionDetails, bench);
      } else {
        return Some(UnsupportedTestType);
      }
    }

    /** The end of perform_step: the step's faults arrive, the queue is drained into the log. */
    method Drain(pushed: seq<Fault>) returns (r: Result<bool>)
      modifies this`log, this`faults
      ensures r.Ok? && (r.value <==> old(faults) + pushed == []) && faults == []
      ensures log == old(log) + FaultLines(old(faults) + pushed) + [StepStatus(r.value)]
    {
      faults := faults + pushed;
      var status := true;
      ghost var drained: seq<Fault> := [];
      while faults != []
        invariant drained + faults == old(faults) + pushed
        invariant log == old(log) + FaultLines(drained)
        invariant status <==> drained == []
        decreases |faults|
      {
        status := false;
        log := log + [FaultLine(faults[0])];
        assert FaultLines(drained + [faults[0]]) == FaultLines(drained) + [FaultLine(faults[0])];
        drained := drained + [faults[0]];
        faults := faults[1..];
      }
      log := log + [StepStatus(status)];
      return Ok(status);
    }

    /** The part of set_initial_state before the initial step: stop the addressed tasks, then reboot. */
    method Prepare(tasks: seq<map<string, string>>, bench: Bench) returns (err: Option<Error>)
      modifies this`commands
      ensures var s := Prepared(old(State()), tasks, bench);
              Reached(s) && err == s.error
    {
      var stop := StopIds(tasks, bench);
      if stop.Err? {
        return Some(stop.error);
      }
      if |stop.value| > 0 {
        commands := commands + [StopAdapterTasks(stop.value)];
      }
      commands := commands + [RebootDevice];
      return None;
    }

    /**
     * set_initial_state as written, with `tasks` the sending tasks the
     * adapter reports: it always raises, at the latest when perform_step
     * reaches asyncio.gather.
     */
    method SetInitialState(tasks: seq<map<string, string>>, initial: Step, bench: Bench) returns (err: Error)
      requires Dispatchable(initial)
      modifies this`commands, this`activeSendingTasks, this`log
      ensures var s := StepAsWritten(Prepared(old(State()), tasks, bench), StepHeader(0, initial.action),
                                     StepAction(initial, bench));
              Reached(s) && err == s.error.value
    {
      var prep := Prepare(tasks, bench);
      if prep.Some? {
        return prep.value;
      }
      var r := PerformStep(initial, 0, bench);
      return r.error;
    }

    /**
     * set_initial_state as intended: stop the tasks addressed to the device
     * or the gateway, reboot, then perform the initial state as step 0, whose
     * verdict is discarded.
     */
    method SetInitialStateIntended(tasks: seq<map<string, string>>, initial: Step, bench: Bench, pushed: seq<Fault>)
      returns (err: Option<Error>)
      requires Dispatchable(initial)
      modifies this`commands, this`activeSendingTasks, this`log, this`faults
      ensures var s := StepIntended(Prepared(old(State()), tasks, bench), StepHeader(0, initial.action),
                                    StepAction(initial, bench), pushed);
              Reached(s) && err == s.error
    {
      var prep := Prepare(tasks, bench);
      if prep.Some? {
        return prep;
      }
      var r := PerformStepIntended(initial, 0, bench, pushed);
      if r.Err? {
        return Some(r.error);
      }
      return None;
    }

    /** The task filter of set_initial_state. */
    static method StopIds(tasks: seq<map<string, string>>, bench: Bench) returns (r: Result<seq<string>>)
      ensures r == StopList(tasks, bench, |tasks|)
    {
      var stop: seq<string> := [];
      for i := 0 to |tasks|
        invariant StopList(tasks, bench, i) == Ok(stop)
      {
        var more := TaskIds(tasks[i], bench);
        if more.Err? {
          StopListSticks(tasks, bench, i + 1, |tasks|);
          return Err(more.error);
        }
        stop := stop + more.value;
      }
      return Ok(stop);
    }

    /** The body of the task filter of set_initial_state, for one task. */
    static method TaskIds(task: map<string, string>, bench: Bench) returns (r: Result<seq<string>>)
      ensures r == TaskStops(task, bench)
    {
      ghost var toDut := "da" in task && task["da"] == bench.dut.j1939Sa;
      ghost var toGateway := bench.gateway.Some? && "da" in task && task["da"] == bench.gateway.value.j1939Sa;
      var stop: seq<string> := [];
      if "da" in task && task["da"] == bench.dut.j1939Sa {
        if "id" !in task {
          return Err(MissingKey("id"));
        }
        stop := stop + [task["id"]];
      }
      assert stop == if toDut then [task["id"]] else [];
      if bench.gateway.Some? {
        if "da" in task && task["da"] == bench.gateway.value.j1939Sa {
          if "id" !in task {
            return Err(MissingKey("id"));
          }
          stop := stop + [task["id"]];
        }
      }
      assert stop == (if toDut then [task["id"]] else []) + (if toGateway then [task["id"]] else []);
      return Ok(stop);
    }

    /**
     * test_scenario_thread_handle as written: the gateway connection, the log
     * header, then set_initial_state, which always raises, so the run ends
     * in an exception before the reading task and the steps.
     */
    method RunScenario(spec: TestSpecification, tasks: seq<map<string, string>>, bench: Bench) returns (r: Result<bool>)
      requires Dispatchable(spec.initialState)
      modifies this`commands, this`activeSendingTasks, this`log
      ensures var s := ScenarioAsWritten(spec, tasks, bench, old(State()));
              Reached(s) && r == Err(s.error.value)
    {
      if bench.gateway.Some? {
        commands := commands + [ConnectGateway];
      }
      log := log + [TestHeader(spec.xrayId, spec.name, spec.dscr, bench.dut)];
      assert State() == Opened(old(State()), spec, bench);
      var err := SetInitialState(tasks, spec.initialState, bench);
      return Err(err);
    }

    /**
     * The verdict loop of test_scenario_thread_handle as intended, with
     * `pushed[i]` the faults the monitor pushes while step i runs, followed
     * by the test status and the stop of the active sending tasks.
     */
    method RunStepsIntended(spec: TestSpecification, bench: Bench, pushed: seq<seq<Fault>>) returns (r: Result<bool>)
      requires |pushed| == |spec.steps|
      requires forall i :: 0 <= i < |spec.steps| ==> Dispatchable(spec.steps[i])
      modifies this`commands, this`activeSendingTasks, this`log, this`faults, this`newStepEvent
      ensures var s := Finished(StepsRun(spec.steps, Runs(spec.steps, bench), old(State()), pushed, |spec.steps|));
              && Reached(s)
              && r == (if s.error.Some? then Err(s.error.value) else Ok(s.passed))
              && newStepEvent == (old(newStepEvent) || s.completed > 0)
    {
      ghost var runs := Runs(spec.steps, bench);
      ghost var s0 := State();
      var testStatus, failure, i, p := StepLoop(spec, bench, pushed, runs, s0);
      if failure.Some? {
        StepsRunSticks(spec.steps, runs, s0, pushed, i, |spec.steps|);
        r := Err(failure.value);
      } else {
        r := Finish(testStatus, p);
      }
    }

    /** The loop over the steps, up to the first step that raises. */
    method StepLoop(spec: TestSpecification, bench: Bench, pushed: seq<seq<Fault>>, ghost runs: seq<StepRun>,
                    ghost s0: RunState) returns (testStatus: bool, failure: Option<Error>, i: nat, ghost p: RunState)
      requires |pushed| == |spec.steps|
      requires forall k :: 0 <= k < |spec.steps| ==> Dispatchable(spec.steps[k])
      requires runs == Runs(spec.steps, bench) && Reached(s0) && s0.error.None? && s0.completed == 0 && s0.passed
      modifies this`commands, this`activeSendingTasks, this`log, this`faults, this`newStepEvent
      ensures i <= |spec.steps| && (failure.None? ==> i == |spec.steps|)
      ensures p == StepsRun(spec.steps, runs, s0, pushed, i) && p.error == failure
      ensures Reached(p) && testStatus == p.passed
      ensures newStepEvent == (old(newStepEvent) || p.completed > 0)
    {
      p := s0;
      testStatus := true;
      failure := None;
      i := 0;
      while i < |spec.steps| && failure.None?
        invariant i <= |spec.steps|
        invariant p == StepsRun(spec.steps, runs, s0, pushed, i) && p.error == failure
        invariant Reached(p) && testStatus == p.passed
        invariant newStepEvent == (old(newStepEvent) || p.completed > 0)
      {
        testStatus, failure, p := NextStep(spec, bench, pushed, runs, s0, i, p, testStatus, old(newStepEvent));
        i := i + 1;
      }
    }

    /** The end of test_scenario_thread_handle, after a run `p` of the steps that raised nothing. */
    method Finish(testStatus: bool, ghost p: RunState) returns (r: Result<bool>)
      requires Reached(p) && p.error.None? && testStatus == p.passed
      modifies this`commands, this`log
      ensures Reached(Finished(p)) && r == Ok(p.passed)
    {
      log := log + [TestStatus(testStatus)];
      commands := commands + [StopDeviceTasks(activeSendingTasks)];
      r := Ok(testStatus);
    }

    /**
     * One iteration of the verdict loop: step `i` after the run `p` of the
     * steps before it, then the test status and new_step_event.
     */
    method NextStep(spec: TestSpecification, bench: Bench, pushed: seq<seq<Fault>>, ghost runs: seq<StepRun>,
                    ghost s0: RunState, i: nat, ghost p: RunState, testStatus: bool, ghost event: bool)
      returns (status: bool, failure: Option<Error>, ghost q: RunState)
      requires forall k :: 0 <= k < |spec.steps| ==> Dispatchable(spec.steps[k])
      requires runs == Runs(spec.steps, bench) && i < |spec.steps| == |pushed|
      requires p == StepsRun(spec.steps, runs, s0, pushed, i) && Reached(p) && p.error.None?
      requires testStatus == p.passed && newStepEvent == (event || p.completed > 0)
      modifies this`commands, this`activeSendingTasks, this`log, this`faults, this`newStepEvent
      ensures q == StepsRun(spec.steps, runs, s0, pushed, i + 1) && Reached(q) && q.error == failure
      ensures status == q.passed && newStepEvent == (event || q.completed > 0)
    {
      var passed;
      passed, q := StepAfter(spec.steps[i], i + 1, bench, pushed[i], p, runs[i]);
      status := testStatus;
      if passed.Err? {
        return status, Some(passed.error), q;
      }
      if !passed.value {
        status := false;
      }
      newStepEvent := true;
      failure := None;
    }

    /** perform_step after the run `p`, with `run` what the step's action does. */
    method StepAfter(step: Step, number: int, bench: Bench, pushed: seq<Fault>, ghost p: RunState, ghost run: StepRun)
      returns (r: Result<bool>, ghost q: RunState)
      requires Dispatchable(step) && run == StepAction(step, bench) && Reached(p) && p.error.None?
      modifies this`commands, this`activeSendingTasks, this`log, this`faults
      ensures q == StepIntended(p, StepHeader(number, step.action), run, pushed)
      ensures && Reached(q)
              && (r.Err? <==> q.error.Some?)
              && (r.Err? ==> r.error == q.error.value)
              && (r.Ok? ==> q.completed == p.completed + 1 && (q.passed <==> p.passed && r.value))
              && (r.Err? ==> q.completed == p.completed && q.passed == p.passed)
    {
      assert State() == Fresh(p);
      r := PerformStepIntended(step, number, bench, pushed);
      StepIntendedFresh(p, StepHeader(number, step.action), run, pushed);
      q := StepIntended(p, StepHeader(number, step.action), run, pushed);
    }

    /**
     * test_scenario_thread_handle as intended: the gateway connection, the
     * log header, the initial state, the reading task, then the steps.
     * Faults drained with the initial state do not count against the test.
     */
    method RunScenarioIntended(spec: TestSpecification, tasks: seq<map<string, string>>, bench: Bench,
                               pushedInitially: seq<Fault>, pushed: seq<seq<Fault>>) returns (r: Result<bool>)
      requires |pushed| == |spec.steps|
      requires Dispatchable(spec.initialState)
      requires forall i :: 0 <= i < |spec.steps| ==> Dispatchable(spec.steps[i])
      modifies this`commands, this`activeSendingTasks, this`log, this`faults, this`newStepEvent
      ensures var s := ScenarioRun(spec, tasks, bench, old(State()), pushedInitially, pushed);
              Reached(s) && r == (if s.error.Some? then Err(s.error.value) else Ok(s.passed))
      ensures newStepEvent == (old(newStepEvent) ||
                               (StopList(tasks, bench, |tasks|).Ok? && StepAction(spec.initialState, bench).error.None?))
      ensures r.Ok? ==> (r.value <==> forall i :: 0 <= i < |pushed| ==> pushed[i] == [])
    {
      ScenarioVerdict(spec, tasks, bench, old(State()), pushedInitially, pushed);
      if bench.gateway.Some? {
        commands := commands + [ConnectGateway];
      }
      log := log + [TestHeader(spec.xrayId, spec.name, spec.dscr, bench.dut)];
      assert State() == Opened(old(State()), spec, bench);
      var err := SetInitialStateIntended(tasks, spec.initialState, bench, pushedInitially);
      if err.Some? {
        return Err(err.value);
      }
      newStepEvent := true;
      commands := commands + [ConfigureReadingTask];
      r := RunStepsIntended(spec, bench, pushed);
    }
  }

  /** After an exception the rest of a batch is not processed. */
  lemma {:induction false} BatchSticks(c: Cache, step: Step, batch: seq<Option<Feedback>>, t: real, i: nat, n: nat)
    requires BatchValid(batch) && i <= n <= |batch|
    requires BatchProcessed(c, step, batch, t, i).error.Some?
    ensures BatchProcessed(c, step, batch, t, n) == BatchProcessed(c, step, batch, t, i)
  {
    if i < n {
      BatchSticks(c, step, batch, t, i, n - 1);
    }
  }
}
