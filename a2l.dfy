/**
 * The calibration side of the description files (a2l_file.py): calibration
 * points, their conversion into test-specification signals, and the lookup
 * of a test file's `a2l_<name>` signal names.
 */
module A2lFile {
  import opened Outcomes
  import opened Descriptors
  import opened TestSpec
  import opened Strings

  /** The prefix that marks a calibration point in a test file. */
  const Prefix: string := "a2l_"

  /**
   * a2l_signal.__init__: the parent of every calibration point is 'a2l'.
   * `ident` is the identity of the newly allocated object.
   */
  function NewA2lSignal(name: string, dscr: string, address: string, upperLimit: string,
                        lowerLimit: string, recordLayout: string, source: string, ident: nat): (a: A2lSignal)
    ensures a.parent == "a2l" && a.ident == ident
    ensures a.name == name && a.dscr == dscr && a.address == address && a.source == source
    ensures a.upperLimit == upperLimit && a.lowerLimit == lowerLimit && a.recordLayout == recordLayout
  {
    A2lSignal(name, dscr, address, upperLimit, lowerLimit, recordLayout, "a2l", source, ident)
  }

  /** a2l_signal.convert_to_test_spec_signal: an input signal taken from an A2L file. */
  function ToTestSpecSignal(a: A2lSignal): (s: Signal)
    ensures s.sourceType == SignalSource.A2l && s.direction == Direction.Input
    ensures s.name == a.name && s.parent == a.parent && s.source == a.source && s.value == 0.0
    ensures s.origin == A2lOrigin(a)
  {
    Signal(a.name, a.parent, SignalSource.A2l, a.source, Direction.Input, 0.0, A2lOrigin(a))
  }

  /**
   * The signal of a calibration point equals itself, but not the signal of
   * a second point built from the same record: the origins are different objects.
   */
  lemma ConvertedPointsCompareByIdentity(a: A2lSignal, b: A2lSignal)
    requires b == a.(ident := b.ident)
    ensures CheckSignalsEquality(ToTestSpecSignal(a), ToTestSpecSignal(b)) <==> a.ident == b.ident
    ensures CheckSignalsEquality(ToTestSpecSignal(a), ToTestSpecSignal(b)) <==> a == b
  {
  }

  /**
   * a2l_file.find_signal_from_spec: a name without the `a2l_` prefix is an
   * error; otherwise the point named by the rest, or None when there is none.
   */
  function FindSignalFromSpec(a2lSignals: map<string, A2lSignal>, signalName: string)
    : (r: Result<Option<A2lSignal>>)
    ensures r.Err? <==> !StartsWith(signalName, Prefix)
    ensures r.Err? ==> r.error == WrongSignalName
    ensures r.Ok? ==> (r.value.Some? <==> signalName[|Prefix|..] in a2lSignals)
    ensures r.Ok? && r.value.Some? ==> r.value.value == a2lSignals[signalName[|Prefix|..]]
  {
    if !StartsWith(signalName, Prefix) then Err(WrongSignalName)
    else
      var name := signalName[4..];
      if name in a2lSignals then Ok(Some(a2lSignals[name])) else Ok(None)
  }

  /** Looking up `a2l_<k>` finds the point stored under `k`, and an absent `k` gives None. */
  lemma FindPrefixed(a2lSignals: map<string, A2lSignal>, k: string)
    ensures k in a2lSignals ==> FindSignalFromSpec(a2lSignals, Prefix + k) == Ok(Some(a2lSignals[k]))
    ensures k !in a2lSignals ==> FindSignalFromSpec(a2lSignals, Prefix + k) == Ok(None)
  {
    JoinedStartsWith(Prefix, "", k);
    assert Prefix + "" + k == Prefix + k;
    assert (Prefix + k)[|Prefix|..] == k;
  }
}
