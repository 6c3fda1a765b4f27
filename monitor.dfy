/**
 * The monitoring rules of test_spec_runner.py: for each bus feedback the
 * runner caches the values of logged signals and checks each monitored signal
 * against its expectation inside the first time window that contains the
 * time elapsed since the step began, pushing a fault when the measured value
 * is farther from the expectation than the step's tolerance allows.
 */
module Monitor {
  import opened Outcomes
  import opened Dicts
  import opened Waveforms
  import opened TestSpec
  import opened Steps

  /** One entry of faults_queue: the values its message text is made of. */
  datatype Fault = Fault(
    signalName: string,
    expected: real,
    tolerance: real,
    measured: real,
    rangeIndex: nat,
    timeFromStartMs: real)

  /** `message[4]` of a bus feedback: the message name and its decoded signal values. */
  datatype Feedback = Feedback(messageName: string, signals: Dict<string, real>)

  /** Milliseconds elapsed between the two clock readings, in nanoseconds. */
  function ElapsedMs(stepTimestampNs: int, nowNs: int): real
  {
    (nowNs - stepTimestampNs) as real / 1000000.0
  }

  /** The key a feedback signal has among the step's logged and monitored signals. */
  function SignalName(messageName: string, signal: string): (n: string)
    ensures |n| == |messageName| + 1 + |signal|
  {
    messageName + "_" + signal
  }

  /** Different signals of one message never share a key. */
  lemma SignalNameInjective(messageName: string, s1: string, s2: string)
    requires SignalName(messageName, s1) == SignalName(messageName, s2)
    ensures s1 == s2
  {
    var p := messageName + "_";
    assert s1 == SignalName(messageName, s1)[|p|..];
    assert s2 == SignalName(messageName, s2)[|p|..];
  }

  // -------------------------------------------------------------------------
  // Window and tolerance

  /** Both ends of a monitored window are inclusive. */
  predicate InWindow(r: MonitoredRange, t: real)
  {
    r.startMs <= t && t <= r.stopMs
  }

  /** The index of the first window that contains `t`, as the `break` of the search loop picks it. */
  function FirstInWindow(ranges: seq<MonitoredRange>, t: real): (r: Option<nat>)
    ensures r.None? <==> forall k :: 0 <= k < |ranges| ==> !InWindow(ranges[k], t)
    ensures r.Some? ==> r.value < |ranges| && InWindow(ranges[r.value], t)
    ensures r.Some? ==> forall k :: 0 <= k < r.value ==> !InWindow(ranges[k], t)
  {
    if ranges == [] then None
    else if InWindow(ranges[0], t) then Some(0)
    else
      match FirstInWindow(ranges[1..], t)
      case None => None
      case Some(i) => Some(i + 1)
  }

  function Abs(x: real): real
  {
    if x < 0.0 then -x else x
  }

  /**
   * The admissible deviation: `tolerance` percent of |expected|, or
   * `tolerance` itself when that product is 0.
   */
  function Bound(tolerance: real, expected: real): real
  {
    var base := tolerance / 100.0 * Abs(expected);
    if base == 0.0 then tolerance else base
  }

  /** The measured value is farther from the expectation than the bound allows. */
  predicate Exceeds(tolerance: real, expected: real, measured: real)
  {
    Abs(expected - measured) > Bound(tolerance, expected)
  }

  /**
   * A value passes iff it lies in the closed band around the expectation:
   * relative when both the tolerance and the expectation are non-zero,
   * absolute (width `tolerance`) otherwise. The band's ends pass.
   */
  lemma ToleranceBand(tolerance: real, expected: real, measured: real)
    ensures tolerance != 0.0 && expected != 0.0 ==>
              (!Exceeds(tolerance, expected, measured) <==>
                 var d := tolerance * Abs(expected) / 100.0;
                 expected - d <= measured <= expected + d)
    ensures tolerance == 0.0 || expected == 0.0 ==>
              (!Exceeds(tolerance, expected, measured) <==>
                 expected - tolerance <= measured <= expected + tolerance)
  {
    var base := tolerance / 100.0 * Abs(expected);
    if tolerance != 0.0 && expected != 0.0 {
      assert Abs(expected) > 0.0;
      assert base == tolerance * Abs(expected) / 100.0;
      assert base != 0.0;
    } else {
      assert base == 0.0;
    }
  }

  // -------------------------------------------------------------------------
  // The check of one monitored value

  /**
   * The decision for one monitored value at elapsed time `t`: no fault when
   * no window contains `t` or the value is within bound, a fault when it is
   * outside, an error when the expectation cannot be computed (a reserved
   * waveform, a missing coefficient, or the `None` of NOT_DEFINED that
   * `abs()` rejects).
   */
  function Judge(name: string, ms: MonitoredSignal, t: real, measured: real): Result<Option<Fault>>
  {
    match FirstInWindow(ms.ranges, t)
    case None => Ok(None)
    case Some(i) =>
      match Evaluate(ms.form, ms.coef, t)
      case Err(e) => Err(e)
      case Ok(None) => Err(NotANumber)
      case Ok(Some(expected)) =>
        var tolerance := ms.ranges[i].tolerance;
        if Exceeds(tolerance, expected, measured)
        then Ok(Some(Fault(name, expected, tolerance, measured, i, t)))
        else Ok(None)
  }

  /** What Judge decides, stated case by case. */
  lemma JudgeMeaning(name: string, ms: MonitoredSignal, t: real, measured: real)
    ensures FirstInWindow(ms.ranges, t).None? ==> Judge(name, ms, t, measured) == Ok(None)
    ensures Judge(name, ms, t, measured).Err? <==>
              FirstInWindow(ms.ranges, t).Some? &&
              !(Evaluate(ms.form, ms.coef, t).Ok? && Evaluate(ms.form, ms.coef, t).value.Some?)
    ensures Judge(name, ms, t, measured).Ok? && Judge(name, ms, t, measured).value.Some? ==>
              var f := Judge(name, ms, t, measured).value.value;
              var i := FirstInWindow(ms.ranges, t);
              && i == Some(f.rangeIndex)
              && f.signalName == name
              && f.tolerance == ms.ranges[f.rangeIndex].tolerance
              && f.measured == measured
              && f.timeFromStartMs == t
              && Evaluate(ms.form, ms.coef, t) == Ok(Some(f.expected))
              && Exceeds(f.tolerance, f.expected, measured)
    ensures Judge(name, ms, t, measured) == Ok(None) && FirstInWindow(ms.ranges, t).Some? ==>
              var i := FirstInWindow(ms.ranges, t).value;
              && Evaluate(ms.form, ms.coef, t).Ok?
              && Evaluate(ms.form, ms.coef, t).value.Some?
              && !Exceeds(ms.ranges[i].tolerance, Evaluate(ms.form, ms.coef, t).value.value, measured)
  {
  }

  // -------------------------------------------------------------------------
  // process_message over a whole feedback

  /** The runner state one feedback touches: logged_data and faults_queue. */
  datatype Cache = Cache(logged: Dict<string, real>, faults: seq<Fault>)

  /** The state after processing, and the exception that stopped it, if any. */
  datatype Outcome = Outcome(cache: Cache, error: Option<Error>)

  /** One iteration of the loop over the feedback's signals. */
  function ProcessSignal(c: Cache, step: Step, fb: Feedback, t: real, s: string): (o: Outcome)
    requires s in fb.signals.entries
  {
    var name := SignalName(fb.messageName, s);
    var value := fb.signals.entries[s];
    var logged := if name in step.logged.entries then Put(c.logged, name, value) else c.logged;
    if name !in step.monitored.entries then Outcome(Cache(logged, c.faults), None)
    else
      match Judge(name, step.monitored.entries[name], t, value)
      case Err(e) => Outcome(Cache(logged, c.faults), Some(e))
      case Ok(None) => Outcome(Cache(logged, c.faults), None)
      case Ok(Some(f)) => Outcome(Cache(logged, c.faults + [f]), None)
  }

  /** The state after the first `n` signals of the feedback, stopping at the first exception. */
  function Processed(c: Cache, step: Step, fb: Feedback, t: real, n: nat): (o: Outcome)
    requires fb.signals.Valid() && n <= |fb.signals.keys|
  {
    if n == 0 then Outcome(c, None)
    else
      var o := Processed(c, step, fb, t, n - 1);
      if o.error.Some? then o
      else ProcessSignal(o.cache, step, fb, t, fb.signals.keys[n - 1])
  }

  /** Processing keeps logged_data a well-formed dict. */
  lemma {:induction false} ProcessedValid(c: Cache, step: Step, fb: Feedback, t: real, n: nat)
    requires c.logged.Valid() && fb.signals.Valid() && n <= |fb.signals.keys|
    ensures Processed(c, step, fb, t, n).cache.logged.Valid()
  {
    if n > 0 {
      ProcessedValid(c, step, fb, t, n - 1);
      var o := Processed(c, step, fb, t, n - 1);
      var s := fb.signals.keys[n - 1];
      if o.error.None? && SignalName(fb.messageName, s) in step.logged.entries {
        PutValid(o.cache.logged, SignalName(fb.messageName, s), fb.signals.entries[s]);
      }
    }
  }

  /** The fault signal `s` of the feedback contributes, if any. */
  function Pushed(step: Step, fb: Feedback, t: real, s: string): Option<Fault>
    requires s in fb.signals.entries
  {
    var name := SignalName(fb.messageName, s);
    if name !in step.monitored.entries then None
    else
      match Judge(name, step.monitored.entries[name], t, fb.signals.entries[s])
      case Ok(f) => f
      case Err(_) => None
  }

  /** Signal `s` raises no exception. */
  predicate Checkable(step: Step, fb: Feedback, t: real, s: string)
    requires s in fb.signals.entries
  {
    var name := SignalName(fb.messageName, s);
    name in step.monitored.entries ==>
      Judge(name, step.monitored.entries[name], t, fb.signals.entries[s]).Ok?
  }

  /** One iteration, in terms of the signal's fault and whether it can be checked. */
  lemma SignalStep(c: Cache, step: Step, fb: Feedback, t: real, s: string)
    requires s in fb.signals.entries
    ensures var o := ProcessSignal(c, step, fb, t, s);
            && (o.error.None? <==> Checkable(step, fb, t, s))
            && o.cache.faults ==
                 c.faults + (if Pushed(step, fb, t, s).Some? then [Pushed(step, fb, t, s).value] else [])
  {
  }

  /** One iteration touches only the logged entry of its own signal. */
  lemma SignalStepLogged(c: Cache, step: Step, fb: Feedback, t: real, s: string, k: string)
    requires s in fb.signals.entries
    requires k !in step.logged.entries || k != SignalName(fb.messageName, s)
    ensures var o := ProcessSignal(c, step, fb, t, s);
            && (k in o.cache.logged.entries <==> k in c.logged.entries)
            && (k in c.logged.entries ==> o.cache.logged.entries[k] == c.logged.entries[k])
  {
  }

  /** After an exception nothing more happens. */
  lemma {:induction false} ErrorSticks(c: Cache, step: Step, fb: Feedback, t: real, i: nat, n: nat)
    requires fb.signals.Valid() && i <= n <= |fb.signals.keys|
    requires Processed(c, step, fb, t, i).error.Some?
    ensures Processed(c, step, fb, t, n) == Processed(c, step, fb, t, i)
  {
    if i < n {
      ErrorSticks(c, step, fb, t, i, n - 1);
    }
  }

  /** Processing stops with an exception exactly when some signal cannot be checked. */
  lemma {:induction false} ProcessedError(c: Cache, step: Step, fb: Feedback, t: real, n: nat)
    requires fb.signals.Valid() && n <= |fb.signals.keys|
    ensures Processed(c, step, fb, t, n).error.None? <==>
              forall i :: 0 <= i < n ==> Checkable(step, fb, t, fb.signals.keys[i])
  {
    if n > 0 {
      ProcessedError(c, step, fb, t, n - 1);
      var p := Processed(c, step, fb, t, n - 1);
      if p.error.None? {
        SignalStep(p.cache, step, fb, t, fb.signals.keys[n - 1]);
      }
    }
  }

  /**
   * Keys of logged_data that are not the name of a processed signal, or are
   * not logged by the step, keep their presence and value.
   */
  lemma {:induction false} LoggedFrame(c: Cache, step: Step, fb: Feedback, t: real, n: nat, k: string)
    requires fb.signals.Valid() && n <= |fb.signals.keys|
    requires k !in step.logged.entries ||
             forall i :: 0 <= i < n ==> k != SignalName(fb.messageName, fb.signals.keys[i])
    ensures var o := Processed(c, step, fb, t, n);
            && (k in o.cache.logged.entries <==> k in c.logged.entries)
            && (k in c.logged.entries ==> o.cache.logged.entries[k] == c.logged.entries[k])
  {
    if n > 0 {
      LoggedFrame(c, step, fb, t, n - 1, k);
      var p := Processed(c, step, fb, t, n - 1);
      if p.error.None? {
        SignalStepLogged(p.cache, step, fb, t, fb.signals.keys[n - 1], k);
      }
    }
  }

  /**
   * Every processed signal whose key the step logs is cached with the
   * feedback's value (the signals of one feedback have distinct keys, so no
   * later signal overwrites it).
   */
  lemma {:induction false} LoggedValues(c: Cache, step: Step, fb: Feedback, t: real, n: nat, i: nat)
    requires fb.signals.Valid() && i < n <= |fb.signals.keys|
    requires Processed(c, step, fb, t, n).error.None?
    requires SignalName(fb.messageName, fb.signals.keys[i]) in step.logged.entries
    ensures var name := SignalName(fb.messageName, fb.signals.keys[i]);
            var o := Processed(c, step, fb, t, n);
            name in o.cache.logged.entries &&
            o.cache.logged.entries[name] == fb.signals.entries[fb.signals.keys[i]]
  {
    var o := Processed(c, step, fb, t, n - 1);
    assert o.error.None?;
    if i < n - 1 {
      LoggedValues(c, step, fb, t, n - 1, i);
      var last := fb.signals.keys[n - 1];
      if SignalName(fb.messageName, last) == SignalName(fb.messageName, fb.signals.keys[i]) {
        KeysDistinct(fb.signals, n - 1, i);
        SignalNameInjective(fb.messageName, last, fb.signals.keys[i]);
        assert false;
      }
    }
  }

  /** The fault a signal pushes names that signal. */
  lemma PushedName(step: Step, fb: Feedback, t: real, s: string)
    requires s in fb.signals.entries
    ensures Pushed(step, fb, t, s).Some? ==>
              Pushed(step, fb, t, s).value.signalName == SignalName(fb.messageName, s)
  {
    var name := SignalName(fb.messageName, s);
    if name in step.monitored.entries {
      JudgeMeaning(name, step.monitored.entries[name], t, fb.signals.entries[s]);
    }
  }

  /**
   * The fault queue is only appended to, and each appended fault is the
   * fault of one of the processed signals.
   */
  lemma {:induction false} FaultsAppended(c: Cache, step: Step, fb: Feedback, t: real, n: nat)
    requires fb.signals.Valid() && n <= |fb.signals.keys|
    ensures var o := Processed(c, step, fb, t, n);
            |o.cache.faults| >= |c.faults| && o.cache.faults[..|c.faults|] == c.faults
    ensures var o := Processed(c, step, fb, t, n);
            forall j :: |c.faults| <= j < |o.cache.faults| ==>
              exists i :: 0 <= i < n && Pushed(step, fb, t, fb.signals.keys[i]) == Some(o.cache.faults[j])
  {
    if n > 0 {
      FaultsAppended(c, step, fb, t, n - 1);
      var p := Processed(c, step, fb, t, n - 1);
      if p.error.None? {
        SignalStep(p.cache, step, fb, t, fb.signals.keys[n - 1]);
        var o := Processed(c, step, fb, t, n);
        assert o.cache.faults[..|p.cache.faults|] == p.cache.faults;
        assert o.cache.faults[..|c.faults|] == p.cache.faults[..|c.faults|];
      }
    }
  }

  /** Each signal pushes at most one fault: the appended faults name distinct signals. */
  lemma {:induction false} FaultsDistinct(c: Cache, step: Step, fb: Feedback, t: real, n: nat)
    requires fb.signals.Valid() && n <= |fb.signals.keys|
    ensures var o := Processed(c, step, fb, t, n);
            forall j1, j2 :: |c.faults| <= j1 < j2 < |o.cache.faults| ==>
              o.cache.faults[j1].signalName != o.cache.faults[j2].signalName
  {
    if n > 0 {
      FaultsDistinct(c, step, fb, t, n - 1);
      FaultsAppended(c, step, fb, t, n - 1);
      var p := Processed(c, step, fb, t, n - 1);
      if p.error.None? {
        var s := fb.signals.keys[n - 1];
        var name := SignalName(fb.messageName, s);
        SignalStep(p.cache, step, fb, t, s);
        var o := Processed(c, step, fb, t, n);
        if Pushed(step, fb, t, s).Some? {
          PushedName(step, fb, t, s);
          forall j | |c.faults| <= j < |p.cache.faults|
            ensures p.cache.faults[j].signalName != name
          {
            var i :| 0 <= i < n - 1 && Pushed(step, fb, t, fb.signals.keys[i]) == Some(p.cache.faults[j]);
            PushedName(step, fb, t, fb.signals.keys[i]);
            if p.cache.faults[j].signalName == name {
              KeysDistinct(fb.signals, i, n - 1);
              SignalNameInjective(fb.messageName, fb.signals.keys[i], s);
            }
          }
        }
      }
    }
  }

  /** Without an exception, the fault processed signal `i` pushes is in the queue, after the old entries. */
  lemma {:induction false} FaultsComplete(c: Cache, step: Step, fb: Feedback, t: real, n: nat, i: nat)
    requires fb.signals.Valid() && i < n <= |fb.signals.keys|
    requires Processed(c, step, fb, t, n).error.None?
    requires Pushed(step, fb, t, fb.signals.keys[i]).Some?
    ensures var o := Processed(c, step, fb, t, n);
            exists j :: |c.faults| <= j < |o.cache.faults| &&
                        o.cache.faults[j] == Pushed(step, fb, t, fb.signals.keys[i]).value
  {
    FaultsAppended(c, step, fb, t, n - 1);
    var p := Processed(c, step, fb, t, n - 1);
    assert p.error.None?;
    var s := fb.signals.keys[n - 1];
    var o := ProcessSignal(p.cache, step, fb, t, s);
    assert o == Processed(c, step, fb, t, n);
    SignalStep(p.cache, step, fb, t, s);
    if i < n - 1 {
      FaultsComplete(c, step, fb, t, n - 1, i);
      var j :| |c.faults| <= j < |p.cache.faults| &&
               p.cache.faults[j] == Pushed(step, fb, t, fb.signals.keys[i]).value;
      assert o.cache.faults[j] == p.cache.faults[j];
    } else {
      assert o.cache.faults[|p.cache.faults|] == Pushed(step, fb, t, s).value;
    }
  }

  /** Every non-empty payload of a batch is a well-formed dict. */
  ghost predicate BatchValid(batch: seq<Option<Feedback>>)
  {
    forall i :: 0 <= i < |batch| && batch[i].Some? ==> batch[i].value.signals.Valid()
  }

  /**
   * The monitor's loop over one batch of feedbacks: a feedback with an empty
   * payload (`None`) is skipped, an exception ends the batch.
   */
  function BatchProcessed(c: Cache, step: Step, batch: seq<Option<Feedback>>, t: real, n: nat): (o: Outcome)
    requires BatchValid(batch) && n <= |batch|
  {
    if n == 0 then Outcome(c, None)
    else
      var o := BatchProcessed(c, step, batch, t, n - 1);
      if o.error.Some? || batch[n - 1].None? then o
      else Processed(o.cache, step, batch[n - 1].value, t, |batch[n - 1].value.signals.keys|)
  }

  /** A batch keeps logged_data a well-formed dict. */
  lemma {:induction false} BatchProcessedValid(c: Cache, step: Step, batch: seq<Option<Feedback>>, t: real, n: nat)
    requires c.logged.Valid() && BatchValid(batch) && n <= |batch|
    ensures BatchProcessed(c, step, batch, t, n).cache.logged.Valid()
  {
    if n > 0 {
      BatchProcessedValid(c, step, batch, t, n - 1);
      var o := BatchProcessed(c, step, batch, t, n - 1);
      if o.error.None? && batch[n - 1].Some? {
        ProcessedValid(o.cache, step, batch[n - 1].value, t, |batch[n - 1].value.signals.keys|);
      }
    }
  }

  /** A batch only appends to the fault queue. */
  lemma {:induction false} BatchAppends(c: Cache, step: Step, batch: seq<Option<Feedback>>, t: real, n: nat)
    requires BatchValid(batch) && n <= |batch|
    ensures var o := BatchProcessed(c, step, batch, t, n);
            |o.cache.faults| >= |c.faults| && o.cache.faults[..|c.faults|] == c.faults
  {
    if n > 0 {
      BatchAppends(c, step, batch, t, n - 1);
      var o := BatchProcessed(c, step, batch, t, n - 1);
      if o.error.None? && batch[n - 1].Some? {
        var fb := batch[n - 1].value;
        FaultsAppended(o.cache, step, fb, t, |fb.signals.keys|);
        var r := BatchProcessed(c, step, batch, t, n);
        assert r.cache.faults[..|o.cache.faults|] == o.cache.faults;
        assert r.cache.faults[..|c.faults|] == o.cache.faults[..|c.faults|];
      }
    }
  }

  // -------------------------------------------------------------------------
  // The monitor's step pointer

  /**
   * The step the monitor checks feedbacks against after `k` new-step events:
   * the initial state before the first, then the steps in order, staying on
   * the last one once they are used up.
   */
  function CurrentStep(spec: TestSpecification, k: nat): Step
  {
    if k == 0 || |spec.steps| == 0 then spec.initialState
    else if k <= |spec.steps| then spec.steps[k - 1]
    else spec.steps[|spec.steps| - 1]
  }

  // -------------------------------------------------------------------------
  // CSV rows

  /** `field + ','` for each field in turn. */
  function Joined(fields: seq<string>): string
  {
    if fields == [] then "" else Joined(fields[..|fields| - 1]) + fields[|fields| - 1] + ","
  }

  /** The number of occurrences of `c` in `s`. */
  function Count(s: string, c: char): nat
  {
    if s == [] then 0 else Count(s[..|s| - 1], c) + (if s[|s| - 1] == c then 1 else 0)
  }

  lemma {:induction false} CountAppend(a: string, b: string, c: char)
    ensures Count(a + b, c) == Count(a, c) + Count(b, c)
  {
    if b != [] {
      assert (a + b)[..|a + b| - 1] == a + b[..|b| - 1];
      CountAppend(a, b[..|b| - 1], c);
    } else {
      assert a + b == a;
    }
  }

  predicate NoComma(s: string)
  {
    forall i :: 0 <= i < |s| ==> s[i] != ','
  }

  lemma {:induction false} NoCommaCount(s: string)
    requires NoComma(s)
    ensures Count(s, ',') == 0
  {
    if s != [] {
      NoCommaCount(s[..|s| - 1]);
    }
  }

  /** Fields without commas give one comma each. */
  lemma {:induction false} JoinedCommas(fields: seq<string>)
    requires forall i :: 0 <= i < |fields| ==> NoComma(fields[i])
    ensures Count(Joined(fields), ',') == |fields|
  {
    if fields != [] {
      var init := fields[..|fields| - 1];
      var last := fields[|fields| - 1];
      JoinedCommas(init);
      NoCommaCount(last);
      CountAppend(Joined(init), last, ',');
      CountAppend(Joined(init) + last, ",", ',');
      assert Count(",", ',') == 1 by {
        assert ","[..0] == [];
      }
    }
  }

  /** The rendered values of a logged_data dict, in key order. */
  function RenderedValues(data: Dict<string, real>, render: real -> string): (vs: seq<string>)
    requires data.Valid()
    ensures |vs| == |data.keys|
    ensures forall i :: 0 <= i < |vs| ==> vs[i] == render(data.entries[data.keys[i]])
  {
    seq(|data.keys|, i requires 0 <= i < |data.keys| => render(data.entries[data.keys[i]]))
  }

  /** The header line prepare_caption builds from the keys of logged_data. */
  function Caption(data: Dict<string, real>): string
  {
    "timestamp," + Joined(data.keys) + "\n"
  }

  /** The data line prepare_data builds: the time of day, then each value. */
  function DataRow(timestamp: string, data: Dict<string, real>, render: real -> string): string
    requires data.Valid()
  {
    timestamp + "," + Joined(RenderedValues(data, render)) + "\n"
  }

  /**
   * The header and a row built from the same dict have the same number of
   * columns (one per key plus the timestamp) when no key, no rendered value
   * and not the timestamp holds a comma.
   */
  lemma ColumnsAgree(timestamp: string, data: Dict<string, real>, render: real -> string)
    requires data.Valid() && NoComma(timestamp)
    requires forall i :: 0 <= i < |data.keys| ==> NoComma(data.keys[i])
    requires forall i :: 0 <= i < |data.keys| ==> NoComma(render(data.entries[data.keys[i]]))
    ensures Count(Caption(data), ',') == |data.keys| + 1
    ensures Count(DataRow(timestamp, data, render), ',') == |data.keys| + 1
  {
    var vs := RenderedValues(data, render);
    JoinedCommas(data.keys);
    JoinedCommas(vs);
    NoCommaCount(timestamp);
    NoCommaCount("\n");
    assert Count("timestamp", ',') == 0 by { NoCommaCount("timestamp"); }
    assert Count(",", ',') == 1 by { assert ","[..0] == []; }
    assert "timestamp," == "timestamp" + ",";
    CountAppend("timestamp", ",", ',');
    CountAppend("timestamp,", Joined(data.keys), ',');
    CountAppend("timestamp," + Joined(data.keys), "\n", ',');
    CountAppend(timestamp, ",", ',');
    CountAppend(timestamp + ",", Joined(vs), ',');
    CountAppend(timestamp + "," + Joined(vs), "\n", ',');
  }
}
