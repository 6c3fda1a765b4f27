/**
 * The test specification of test_spec.py: signals, control/monitored/logged
 * signal wrappers, steps and the specification itself, built from the JSON
 * records of a test file against the map of resolved signals.
 */
module TestSpec {
  import opened Outcomes
  import opened Dicts
  import opened Waveforms
  import opened Descriptors

  /** signal_source */
  datatype SignalSource = NotDefinedSource | Dbc | A2l

  /** signal_direction (OUTOUT is the source's own spelling) */
  datatype Direction = NotDefinedDirection | Input | Outout | Both

  /** The descriptor a signal was converted from. */
  datatype Origin = NoOrigin | DbcOrigin(dbc: DbcSignal) | A2lOrigin(a2l: A2lSignal)

  /** signal; a freshly built signal has value 0.0. */
  datatype Signal = Signal(
    name: string,
    parent: string,
    sourceType: SignalSource,
    source: string,
    direction: Direction,
    value: real,
    origin: Origin)

  /**
   * `!=` on two origins: the descriptor classes define no __eq__, so two
   * descriptors are the same exactly when they are the same object.
   */
  predicate SameOrigin(o1: Origin, o2: Origin)
  {
    match (o1, o2)
    case (NoOrigin, NoOrigin) => true
    case (DbcOrigin(d1), DbcOrigin(d2)) => d1.ident == d2.ident
    case (A2lOrigin(a1), A2lOrigin(a2)) => a1.ident == a2.ident
    case _ => false
  }

  /** Descriptors that are one object carry one set of fields. */
  predicate Coherent(o1: Origin, o2: Origin)
  {
    && (o1.DbcOrigin? && o2.DbcOrigin? && o1.dbc.ident == o2.dbc.ident ==> o1.dbc == o2.dbc)
    && (o1.A2lOrigin? && o2.A2lOrigin? && o1.a2l.ident == o2.a2l.ident ==> o1.a2l == o2.a2l)
  }

  /** signal.check_signals_equality: compares every field in turn, the origin by identity. */
  function CheckSignalsEquality(s1: Signal, s2: Signal): (r: bool)
    ensures r <==> s1.(origin := s2.origin) == s2 && SameOrigin(s1.origin, s2.origin)
    ensures s1 == s2 ==> r
  {
    if s1.name != s2.name then false
    else if s1.parent != s2.parent then false
    else if s1.sourceType != s2.sourceType then false
    else if s1.source != s2.source then false
    else if s1.direction != s2.direction then false
    else if s1.value != s2.value then false
    else if !SameOrigin(s1.origin, s2.origin) then false
    else true
  }

  /** Where every identity names one descriptor, the check is structural equality. */
  lemma SignalsEqualityStructural(s1: Signal, s2: Signal)
    requires Coherent(s1.origin, s2.origin)
    ensures CheckSignalsEquality(s1, s2) <==> s1 == s2
  {
  }

  // -------------------------------------------------------------------------
  // Signal wrappers

  /** control_signal */
  datatype ControlSignal = ControlSignal(signal: Signal, form: Form, coef: seq<real>)

  /** monitored_range: both ends of the window are inclusive. */
  datatype MonitoredRange = MonitoredRange(startMs: real, stopMs: real, tolerance: real)

  /** monitored_signal */
  datatype MonitoredSignal = MonitoredSignal(
    signal: Signal, ranges: seq<MonitoredRange>, form: Form, coef: seq<real>)

  /** logged_signal */
  datatype LoggedSignal = LoggedSignal(signal: Signal)

  /** The JSON record of a range, and what monitored_range.to_dict produces. */
  type RangeRecord = map<string, real>

  /** The JSON record of a control signal, and what control_signal.to_dict produces. */
  datatype ControlRecord = ControlRecord(form: int, coef: seq<real>)

  /** The JSON record of a monitored signal, and what monitored_signal.to_dict produces. */
  datatype MonitoredRecord = MonitoredRecord(ranges: seq<RangeRecord>, form: int, coef: seq<real>)

  /** The JSON record of a logged signal; logged_signal.to_dict produces an empty dict. */
  datatype LoggedRecord = LoggedRecord

  /** The exceptions building a specification can raise: KeyError, ValueError, or an unresolved name. */
  predicate BuildError(e: Error)
  {
    e.UnresolvedSignal? || e.MissingKey? || e.InvalidEnumValue?
  }

  /** monitored_range.create_from_spec: a missing key is a KeyError. */
  function RangeFromSpec(spec: RangeRecord): (r: Result<MonitoredRange>)
    ensures r.Ok? <==> "start_ms" in spec && "stop_ms" in spec && "tolerance" in spec
    ensures r.Ok? ==> r.value.startMs == spec["start_ms"] && r.value.stopMs == spec["stop_ms"]
                      && r.value.tolerance == spec["tolerance"]
    ensures r.Err? ==> r.error.MissingKey? && r.error.key !in spec
  {
    if "start_ms" !in spec then Err(MissingKey("start_ms"))
    else if "stop_ms" !in spec then Err(MissingKey("stop_ms"))
    else if "tolerance" !in spec then Err(MissingKey("tolerance"))
    else Ok(MonitoredRange(spec["start_ms"], spec["stop_ms"], spec["tolerance"]))
  }

  /** monitored_range.to_dict: three keys, and reading them back gives the range. */
  function RangeToDict(m: MonitoredRange): (d: RangeRecord)
    ensures d.Keys == {"start_ms", "stop_ms", "tolerance"}
    ensures RangeFromSpec(d) == Ok(m)
  {
    map["start_ms" := m.startMs, "stop_ms" := m.stopMs, "tolerance" := m.tolerance]
  }

  /** monitored_range.check_ranges_equality */
  function CheckRangesEquality(r1: MonitoredRange, r2: MonitoredRange): (r: bool)
    ensures r <==> r1 == r2
  {
    if r1.startMs != r2.startMs then false
    else if r1.stopMs != r2.stopMs then false
    else if r1.tolerance != r2.tolerance then false
    else true
  }

  /** The coefficient loop of the check_signals_equality functions. */
  method CoefsEqual(c1: seq<real>, c2: seq<real>) returns (r: bool)
    ensures r <==> c1 == c2
  {
    if |c1| != |c2| {
      return false;
    }
    for i := 0 to |c1|
      invariant forall k :: 0 <= k < i ==> c1[k] == c2[k]
    {
      if c1[i] != c2[i] {
        return false;
      }
    }
    return true;
  }

  /** control_signal.check_signals_equality: form and coefficients; the signal is not compared. */
  method CheckControlEquality(s1: ControlSignal, s2: ControlSignal) returns (r: bool)
    ensures r <==> s1.form == s2.form && s1.coef == s2.coef
  {
    if s1.form != s2.form {
      return false;
    }
    r := CoefsEqual(s1.coef, s2.coef);
  }

  /**
   * monitored_signal.check_signals_equality as written: range lists of equal,
   * non-zero length are indexed with the (index, range) tuple of `enumerate`,
   * which is a TypeError.
   */
  method CheckMonitoredEquality(s1: MonitoredSignal, s2: MonitoredSignal) returns (r: Result<bool>)
    ensures |s1.ranges| != |s2.ranges| ==> r == Ok(false)
    ensures |s1.ranges| == |s2.ranges| > 0 ==> r == Err(TupleIndex)
    ensures s1.ranges == s2.ranges == [] ==> r == Ok(s1.form == s2.form && s1.coef == s2.coef)
  {
    if |s1.ranges| != |s2.ranges| {
      return Ok(false);
    }
    if |s1.ranges| > 0 {
      return Err(TupleIndex);
    }
    if s1.form != s2.form {
      return Ok(false);
    }
    var same := CoefsEqual(s1.coef, s2.coef);
    return Ok(same);
  }

  /**
   * monitored_signal.check_signals_equality as evidently intended: the ranges
   * are compared pairwise by position, and the signals differ as soon as one
   * pair of ranges differs.
   */
  method CheckMonitoredEqualityFixed(s1: MonitoredSignal, s2: MonitoredSignal) returns (r: bool)
    ensures r <==> s1.ranges == s2.ranges && s1.form == s2.form && s1.coef == s2.coef
  {
    if |s1.ranges| != |s2.ranges| {
      return false;
    }
    for i := 0 to |s1.ranges|
      invariant forall k :: 0 <= k < i ==> s1.ranges[k] == s2.ranges[k]
    {
      if !CheckRangesEquality(s1.ranges[i], s2.ranges[i]) {
        return false;
      }
    }
    if s1.form != s2.form {
      return false;
    }
    r := CoefsEqual(s1.coef, s2.coef);
  }

  /** control_signal.create_from_spec: `signal_form(spec['form'])` may raise ValueError. */
  function ControlFromSpec(sig: Signal, spec: ControlRecord): (r: Result<ControlSignal>)
    ensures r.Ok? <==> 0 <= spec.form <= 8
    ensures r.Err? ==> r.error == InvalidEnumValue(spec.form)
    ensures r.Ok? ==> r.value.signal == sig && FormValue(r.value.form) == spec.form
                      && r.value.coef == spec.coef
  {
    match FormFromValue(spec.form)
    case Err(e) => Err(e)
    case Ok(f) => Ok(ControlSignal(sig, f, spec.coef))
  }

  /** control_signal.to_dict: reading the record back gives the control signal. */
  function ControlToDict(c: ControlSignal): (d: ControlRecord)
    ensures ControlFromSpec(c.signal, d) == Ok(c)
  {
    FormRoundTrip(c.form);
    ControlRecord(FormValue(c.form), c.coef)
  }

  /** logged_signal.create_from_spec ignores its record. */
  function LoggedFromSpec(sig: Signal, spec: LoggedRecord): (l: LoggedSignal)
    ensures l.signal == sig
  {
    LoggedSignal(sig)
  }

  /** A monitored record every range of which has its keys, with a valid form. */
  ghost predicate Buildable(spec: MonitoredRecord)
  {
    && (forall i :: 0 <= i < |spec.ranges| ==> RangeFromSpec(spec.ranges[i]).Ok?)
    && 0 <= spec.form <= 8
  }

  /** `m` is what monitored_signal.create_from_spec makes of `sig` and `spec`. */
  ghost predicate BuiltFrom(m: MonitoredSignal, sig: Signal, spec: MonitoredRecord)
  {
    && m.signal == sig
    && |m.ranges| == |spec.ranges|
    && (forall i :: 0 <= i < |spec.ranges| ==> RangeFromSpec(spec.ranges[i]) == Ok(m.ranges[i]))
    && FormFromValue(spec.form) == Ok(m.form)
    && m.coef == spec.coef
  }

  /** monitored_signal.__prepare_monitored_ranges */
  method PrepareMonitoredRanges(spec: seq<RangeRecord>) returns (r: Result<seq<MonitoredRange>>)
    ensures r.Ok? <==> forall i :: 0 <= i < |spec| ==> RangeFromSpec(spec[i]).Ok?
    ensures r.Ok? ==> |r.value| == |spec|
                      && forall i :: 0 <= i < |spec| ==> RangeFromSpec(spec[i]) == Ok(r.value[i])
    ensures r.Err? ==> exists i :: 0 <= i < |spec| && RangeFromSpec(spec[i]) == Err(r.error)
  {
    var ranges: seq<MonitoredRange> := [];
    for i := 0 to |spec|
      invariant |ranges| == i
      invariant forall k :: 0 <= k < i ==> RangeFromSpec(spec[k]) == Ok(ranges[k])
    {
      var m := RangeFromSpec(spec[i]);
      if m.Err? {
        return Err(m.error);
      }
      ranges := ranges + [m.value];
    }
    return Ok(ranges);
  }

  /** monitored_signal.create_from_spec: the ranges are built before the form is looked up. */
  method MonitoredFromSpec(sig: Signal, spec: MonitoredRecord) returns (r: Result<MonitoredSignal>)
    ensures r.Ok? <==> Buildable(spec)
    ensures r.Ok? ==> BuiltFrom(r.value, sig, spec)
    ensures r.Err? ==> r.error.MissingKey? || r.error == InvalidEnumValue(spec.form)
  {
    var ranges := PrepareMonitoredRanges(spec.ranges);
    if ranges.Err? {
      return Err(ranges.error);
    }
    var form := FormFromValue(spec.form);
    if form.Err? {
      return Err(form.error);
    }
    return Ok(MonitoredSignal(sig, ranges.value, form.value, spec.coef));
  }

  /** monitored_signal.to_dict */
  method MonitoredToDict(m: MonitoredSignal) returns (d: MonitoredRecord)
    ensures |d.ranges| == |m.ranges|
    ensures forall i :: 0 <= i < |m.ranges| ==> d.ranges[i] == RangeToDict(m.ranges[i])
    ensures d.form == FormValue(m.form) && d.coef == m.coef
  {
    var ranges: seq<RangeRecord> := [];
    for i := 0 to |m.ranges|
      invariant |ranges| == i
      invariant forall k :: 0 <= k < i ==> ranges[k] == RangeToDict(m.ranges[k])
    {
      ranges := ranges + [RangeToDict(m.ranges[i])];
    }
    d := MonitoredRecord(ranges, FormValue(m.form), m.coef);
  }

  /** Serialising a monitored signal and reading it back gives the same monitored signal. */
  method MonitoredRoundTrip(m: MonitoredSignal) returns (back: Result<MonitoredSignal>)
    ensures back == Ok(m)
  {
    var d := MonitoredToDict(m);
    FormRoundTrip(m.form);
    assert Buildable(d);
    back := MonitoredFromSpec(m.signal, d);
    assert back.value.ranges == m.ranges;
  }

  // -------------------------------------------------------------------------
  // Signal resolution of a step: every name a step record uses must be a key
  // of the resolved signal map, else 'Signal is missing in the input files'.

  ghost predicate MonitoredResolvable(spec: Dict<string, MonitoredRecord>, signals: map<string, Signal>)
  {
    forall k :: k in spec.entries ==> k in signals && Buildable(spec.entries[k])
  }

  ghost predicate MonitoredResolved(res: Dict<string, MonitoredSignal>,
                                    spec: Dict<string, MonitoredRecord>, signals: map<string, Signal>)
    requires MonitoredResolvable(spec, signals)
  {
    && res.Valid() && res.keys == spec.keys
    && forall k :: k in spec.entries ==> k in res.entries && BuiltFrom(res.entries[k], signals[k], spec.entries[k])
  }

  /** The first `i` monitored records are resolved into `acc`, in declaration order. */
  ghost predicate MonitoredPrefix(acc: Dict<string, MonitoredSignal>, spec: Dict<string, MonitoredRecord>,
                      signals: map<string, Signal>, i: nat)
    requires spec.Valid() && i <= |spec.keys|
  {
    && acc.Valid() && acc.keys == spec.keys[..i]
    && (forall j :: 0 <= j < i ==> spec.keys[j] in signals && Buildable(spec.entries[spec.keys[j]]))
    && (forall j :: 0 <= j < i ==>
          spec.keys[j] in signals && spec.keys[j] in acc.entries &&
          BuiltFrom(acc.entries[spec.keys[j]], signals[spec.keys[j]], spec.entries[spec.keys[j]]))
  }

  /** Resolving the next record extends the prefix by one. */
  lemma MonitoredPrefixNext(acc: Dict<string, MonitoredSignal>, spec: Dict<string, MonitoredRecord>,
                    signals: map<string, Signal>, i: nat, v: MonitoredSignal)
    requires spec.Valid() && i < |spec.keys| && MonitoredPrefix(acc, spec, signals, i)
    requires spec.keys[i] in signals && Buildable(spec.entries[spec.keys[i]])
    requires BuiltFrom(v, signals[spec.keys[i]], spec.entries[spec.keys[i]])
    ensures MonitoredPrefix(Put(acc, spec.keys[i], v), spec, signals, i + 1)
  {
    PutNext(acc, spec, i, v);
  }

  /** A prefix that covers every record is the resolved dict. */
  lemma MonitoredPrefixAll(acc: Dict<string, MonitoredSignal>, spec: Dict<string, MonitoredRecord>, signals: map<string, Signal>)
    requires spec.Valid() && MonitoredPrefix(acc, spec, signals, |spec.keys|)
    ensures MonitoredResolvable(spec, signals) && MonitoredResolved(acc, spec, signals)
  {
    assert spec.keys[..|spec.keys|] == spec.keys;
  }

  /** step.__prepare_monitored_signals */
  method PrepareMonitoredSignals(spec: Dict<string, MonitoredRecord>, signals: map<string, Signal>)
    returns (r: Result<Dict<string, MonitoredSignal>>)
    requires spec.Valid()
    ensures r.Ok? <==> MonitoredResolvable(spec, signals)
    ensures r.Ok? ==> MonitoredResolved(r.value, spec, signals)
    ensures r.Err? && r.error.UnresolvedSignal? ==> r.error.name in spec.entries && r.error.name !in signals
    ensures r.Err? && (forall k :: k in spec.entries ==> Buildable(spec.entries[k])) ==> r.error.UnresolvedSignal?
    ensures r.Err? ==> BuildError(r.error)
  {
    var acc: Dict<string, MonitoredSignal> := Empty();
    for i := 0 to |spec.keys|
      invariant MonitoredPrefix(acc, spec, signals, i)
    {
      var name := spec.keys[i];
      if name !in signals {
        return Err(UnresolvedSignal(name));
      }
      var m := MonitoredFromSpec(signals[name], spec.entries[name]);
      if m.Err? {
        assert !Buildable(spec.entries[name]);
        return Err(m.error);
      }
      MonitoredPrefixNext(acc, spec, signals, i, m.value);
      acc := Put(acc, name, m.value);
    }
    MonitoredPrefixAll(acc, spec, signals);
    return Ok(acc);
  }

  ghost predicate LoggedResolvable(spec: Dict<string, LoggedRecord>, signals: map<string, Signal>)
  {
    forall k :: k in spec.entries ==> k in signals
  }

  ghost predicate LoggedResolved(res: Dict<string, LoggedSignal>,
                                 spec: Dict<string, LoggedRecord>, signals: map<string, Signal>)
    requires LoggedResolvable(spec, signals)
  {
    && res.Valid() && res.keys == spec.keys
    && forall k :: k in spec.entries ==> k in res.entries && res.entries[k] == LoggedSignal(signals[k])
  }

  /** step.__prepare_logged_signals */
  method PrepareLoggedSignals(spec: Dict<string, LoggedRecord>, signals: map<string, Signal>)
    returns (r: Result<Dict<string, LoggedSignal>>)
    requires spec.Valid()
    ensures r.Ok? <==> LoggedResolvable(spec, signals)
    ensures r.Ok? ==> LoggedResolved(r.value, spec, signals)
    ensures r.Err? ==> r.error.UnresolvedSignal? && r.error.name in spec.entries && r.error.name !in signals
  {
    var acc: Dict<string, LoggedSignal> := Empty();
    for i := 0 to |spec.keys|
      invariant acc.Valid() && acc.keys == spec.keys[..i]
      invariant forall j :: 0 <= j < i ==> spec.keys[j] in signals
      invariant forall j :: 0 <= j < i ==> acc.entries[spec.keys[j]] == LoggedSignal(signals[spec.keys[j]])
    {
      var name := spec.keys[i];
      if name !in signals {
        return Err(UnresolvedSignal(name));
      }
      PutNext(acc, spec, i, LoggedFromSpec(signals[name], spec.entries[name]));
      acc := Put(acc, name, LoggedFromSpec(signals[name], spec.entries[name]));
    }
    assert spec.keys[..|spec.keys|] == spec.keys;
    return Ok(acc);
  }

  /** A control record whose form names a waveform. */
  predicate ControlBuildable(spec: ControlRecord)
  {
    0 <= spec.form <= 8
  }

  ghost predicate ControlResolvable(spec: Dict<string, ControlRecord>, signals: map<string, Signal>)
  {
    forall k :: k in spec.entries ==> k in signals && ControlBuildable(spec.entries[k])
  }

  /** `c` is what control_signal.create_from_spec makes of `sig` and `spec`. */
  ghost predicate ControlBuiltFrom(c: ControlSignal, sig: Signal, spec: ControlRecord)
  {
    c.signal == sig && FormFromValue(spec.form) == Ok(c.form) && c.coef == spec.coef
  }

  ghost predicate ControlResolved(res: Dict<string, ControlSignal>,
                                  spec: Dict<string, ControlRecord>, signals: map<string, Signal>)
    requires ControlResolvable(spec, signals)
  {
    && res.Valid() && res.keys == spec.keys
    && forall k :: k in spec.entries ==> k in res.entries && ControlBuiltFrom(res.entries[k], signals[k], spec.entries[k])
  }

  /** The first `i` control records are resolved into `acc`, in declaration order. */
  ghost predicate ControlPrefix(acc: Dict<string, ControlSignal>, spec: Dict<string, ControlRecord>,
                      signals: map<string, Signal>, i: nat)
    requires spec.Valid() && i <= |spec.keys|
  {
    && acc.Valid() && acc.keys == spec.keys[..i]
    && (forall j :: 0 <= j < i ==> spec.keys[j] in signals && ControlBuildable(spec.entries[spec.keys[j]]))
    && (forall j :: 0 <= j < i ==>
          spec.keys[j] in signals && spec.keys[j] in acc.entries &&
          ControlBuiltFrom(acc.entries[spec.keys[j]], signals[spec.keys[j]], spec.entries[spec.keys[j]]))
  }

  /** Resolving the next record extends the prefix by one. */
  lemma ControlPrefixNext(acc: Dict<string, ControlSignal>, spec: Dict<string, ControlRecord>,
                    signals: map<string, Signal>, i: nat, v: ControlSignal)
    requires spec.Valid() && i < |spec.keys| && ControlPrefix(acc, spec, signals, i)
    requires spec.keys[i] in signals && ControlBuildable(spec.entries[spec.keys[i]])
    requires ControlBuiltFrom(v, signals[spec.keys[i]], spec.entries[spec.keys[i]])
    ensures ControlPrefix(Put(acc, spec.keys[i], v), spec, signals, i + 1)
  {
    PutNext(acc, spec, i, v);
  }

  /** A prefix that covers every record is the resolved dict. */
  lemma ControlPrefixAll(acc: Dict<string, ControlSignal>, spec: Dict<string, ControlRecord>, signals: map<string, Signal>)
    requires spec.Valid() && ControlPrefix(acc, spec, signals, |spec.keys|)
    ensures ControlResolvable(spec, signals) && ControlResolved(acc, spec, signals)
  {
    assert spec.keys[..|spec.keys|] == spec.keys;
  }

  /** common_step.__prepare_control_signals */
  method PrepareControlSignals(spec: Dict<string, ControlRecord>, signals: map<string, Signal>)
    returns (r: Result<Dict<string, ControlSignal>>)
    requires spec.Valid()
    ensures r.Ok? <==> ControlResolvable(spec, signals)
    ensures r.Ok? ==> ControlResolved(r.value, spec, signals)
    ensures r.Err? && r.error.UnresolvedSignal? ==> r.error.name in spec.entries && r.error.name !in signals
    ensures r.Err? && (forall k :: k in spec.entries ==> ControlBuildable(spec.entries[k])) ==> r.error.UnresolvedSignal?
    ensures r.Err? ==> BuildError(r.error)
  {
    var acc: Dict<string, ControlSignal> := Empty();
    for i := 0 to |spec.keys|
      invariant ControlPrefix(acc, spec, signals, i)
    {
      var name := spec.keys[i];
      if name !in signals {
        return Err(UnresolvedSignal(name));
      }
      var c := ControlFromSpec(signals[name], spec.entries[name]);
      if c.Err? {
        assert !ControlBuildable(spec.entries[name]);
        return Err(c.error);
      }
      ControlPrefixNext(acc, spec, signals, i, c.value);
      acc := Put(acc, name, c.value);
    }
    ControlPrefixAll(acc, spec, signals);
    return Ok(acc);
  }
}
