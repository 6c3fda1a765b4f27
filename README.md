# pil_framework core in Dafny

This project models the sequential core of pil_framework, a hardware-in-the-loop
test engine for CAN-connected control units. Four parts are modelled.

- **The frame codec of `dbc_message`** (`dbc.dfy`, with Python's
  two's-complement integer operators in `bits.dfy`). `prepare_data` starts from
  a 64-bit all-ones accumulator and clears the span of every declared signal.
  It range-checks each supplied physical value, converts it to a raw value with
  `int(value / factor)` (truncation toward zero) plus `int(start_value)`, and
  ORs it in at the signal's position. With end-to-end protection it then ORs in
  a 4-bit counter and an 8-bit CRC. Finally it renders the byte-reversed low
  8 bytes as 16 hexadecimal digits. `reverse_bytes`, `__e2e_protection_crc`,
  `dbc_file.find_signal_from_spec` and `dbc_signal.convert_to_test_spec_signal`
  are modelled as well. The accumulator is an unbounded integer, as in Python.
- **The test specification** (`waveforms.dfy`, `test_spec.dfy`, `steps.dfy`):
  - waveform evaluation: CONSTANT and LINE are defined, the other forms raise
    "Not implemented", and NOT_DEFINED gives `None`;
  - the equality checks and the `to_dict` / `create_from_spec` pairs of ranges,
    control signals and monitored signals;
  - resolution of signal names against the signal map;
  - step construction and the COMMON / SPECIAL dispatch;
  - the mandatory test id;
  - the ordered, de-duplicated list of used signals.
- **The runner** (`monitor.dfy`, `scenario.dfy`, `runner.dfy`). The module
  globals and the monitor thread's locals are the fields of the class
  `Runner.RunContext`:
  - `logged_data`, `faults_queue` and `active_sending_tasks`;
  - `new_step_event`;
  - `step_cntr`, `current_step` and `step_timestamp_ns`;
  - the adapter calls made so far, the test log and the CSV rows.

  Its methods are `process_message`, the monitor's batch loop and step pointer,
  `perform_special_step`, `perform_common_step`, `perform_step`,
  `set_initial_state` and `test_scenario_thread_handle` with its verdict loop.
  Each method is proved against a specification function (`Processed`,
  `BatchProcessed`, `CurrentStep`, `SpecialEffects`, `CommonStep`, `StepAction`,
  `StopList`, and for a whole run `StepAsWritten`, `StepIntended`, `StepsRun`,
  `ScenarioAsWritten` and `ScenarioRun` over a `Scenario.RunState`). The
  properties of those functions are proved as lemmas.
  `prepare_caption` and `prepare_data` build the CSV lines.

  As written, `perform_step` awaits the step's action and the sleep before it
  calls `asyncio.gather`, so gather receives two `None` values and raises
  TypeError (see Findings). Every run therefore ends in that exception inside
  `set_initial_state`. The model keeps both versions:
  - as written: `PerformStep`, `SetInitialState` and `RunScenario`;
  - as intended, where the drain and the step status follow the action:
    `PerformStepIntended`, `SetInitialStateIntended`, `RunStepsIntended` and
    `RunScenarioIntended`.
- **The calibration lookup of `a2l_file`** (`a2l.dfy`).

`outcomes.dfy` holds the `Option` / `Result` types and the exceptions the code
raises. `dicts.dfy` models an insertion-ordered Python dict as a key sequence
plus a map. `lists.dfy` models the "append if not already in the list" idiom.
`descriptors.dfy` holds the parsed bus and calibration descriptors.

The following are parameters rather than computations:
- the clock, as nanosecond readings;
- the time of day and the text rendering of a float;
- `crc8`, as a function of (data, length, seed) returning a byte;
- the ids the device returns for started sending tasks, as a function of the
  task;
- the faults the monitor thread pushes while a step runs.

Adapter and device calls are recorded as a sequence of commands:
`e2e_gateway.set_connection()` is `ConnectGateway`, `adapter.stop_sending_tasks`
is `StopAdapterTasks` and `dut.stop_sending_tasks` is `StopDeviceTasks`.

Descriptors carry an identity (`ident`): their classes define no `__eq__`, so
Python compares them as objects.

## Model

| member | source | states |
|---|---|---|
| DbcFile.Trunc | common/structures/dbc_file.py:148 | `int()` of a float truncates toward zero: the result is within 1 of the value, on the side of 0 |
| DbcFile.ReverseBytes | common/structures/dbc_file.py:106-115 | the loops compute ReversedBytes: the `length` low bytes of the input in the opposite order |
| DbcFile.ReversedBytes | common/structures/dbc_file.py:106-115 | the result is below 256^length |
| DbcFile.ReversedBytesAt | common/structures/dbc_file.py:106-115 | byte i of the result is byte length-1-i of the input |
| DbcFile.ReversedBytesInvolution | common/structures/dbc_file.py:106-115 | reversing twice gives back any x with 0 <= x < 256^length |
| DbcFile.BitSpanMask | common/structures/dbc_file.py:140-141 | bit i of `(2**length - 1) << position` is set iff i lies in the signal's span |
| DbcFile.MaskSpans | common/structures/dbc_file.py:137-141 | the masking loop computes the all-ones accumulator with the spans of all declared signals cleared |
| DbcFile.MaskedPrefixBits | common/structures/dbc_file.py:137-141 | after clearing the first n spans, a bit is set iff it is below 64 and in none of those spans |
| DbcFile.MaskedBits | common/structures/dbc_file.py:137-141 | after the masking pass a bit is set iff it is one of the 64 and no declared signal covers it |
| DbcFile.PackValue | common/structures/dbc_file.py:143-153 | one value is accepted iff its signal is declared, min <= v <= max (both ends accepted) and the factor is non-zero; an undeclared name is "Worng signal name", an out-of-range value is "out of the valid range" |
| DbcFile.PackValues | common/structures/dbc_file.py:142-153 | the value loop computes Packed: each accepted raw value ORed in, in the supplied order, stopping at the first rejected value |
| DbcFile.PackedOk | common/structures/dbc_file.py:142-153 | the value pass succeeds iff every supplied value is accepted |
| DbcFile.PackedFirstError | common/structures/dbc_file.py:142-153 | the value pass fails with the error of the first rejected value |
| DbcFile.PackedRejectedAt | common/structures/dbc_file.py:142-153 | once value i is rejected, the whole pass ends with its error |
| DbcFile.PackedBits | common/structures/dbc_file.py:151 | the value pass only ORs: a bit is set iff it was set before or some supplied value sets it |
| DbcFile.OnlyOwnerSetsBit | common/structures/dbc_file.py:148-151 | with non-overlapping spans and fitting raw values, only the value of the signal whose span holds bit i can set it |
| DbcFile.OwnValueBit | common/structures/dbc_file.py:148-151 | a supplied value sets bit i of its own span iff its raw value has bit i - position |
| DbcFile.SetterIsOwner | common/structures/dbc_file.py:148-151 | some supplied value sets bit i of a span iff the span's own signal was supplied, accepted, and its raw value has that bit |
| DbcFile.SpanBit | common/structures/dbc_file.py:137-153 | inside a declared span the accumulator holds exactly the bits of that signal's raw value, and 0 when no value was supplied |
| DbcFile.SignalRoundTrip | common/structures/dbc_file.py:137-153 | round trip: reading bits [position, position+length) back gives the raw value `int(v/factor)` (+ `int(start_value)`), or 0 when the signal was not supplied |
| DbcFile.PaddingKept | common/structures/dbc_file.py:137-153 | a bit of the 64 that no declared signal covers is still 1 after the value pass |
| DbcFile.AccumulateErrors | common/structures/dbc_file.py:137-153 | the value pass fails iff some supplied value is rejected, with the first rejection's error |
| DbcFile.WithSuffixMembers | common/structures/dbc_file.py:155 | the list comprehension keeps exactly the names with the suffix |
| DbcFile.WithSuffixFirst | common/structures/dbc_file.py:155-157 | its first element is the first name in declaration order that has the suffix |
| DbcFile.FirstWithSuffixSpec | common/structures/dbc_file.py:155-157 | no signal is chosen iff no declared name has the suffix; otherwise the chosen signal is that of the first such name |
| DbcFile.E2ECrcComplement | common/structures/dbc_file.py:98-104 | the CRC is a byte: 0xFF minus crc8 over the payload (length-1 bytes), seeded with crc8 of the data id's high byte, seeded with crc8 of its low byte seeded with 0xFF |
| DbcFile.ProtectBlock | common/structures/dbc_file.py:154-168 | the protection block computes Protect: the counter, then the CRC over the countered accumulator |
| DbcFile.ProtectErrors | common/structures/dbc_file.py:154-168 | no `_CNT` signal raises "E2E counter signal is missing"; with one but no `_CRC` signal it raises "E2E CRC signal is missing"; with both it succeeds |
| DbcFile.BitOrShiftedLow | common/structures/dbc_file.py:158-166 | ORing `(v & (2**w - 1)) << pos` sets exactly bits pos..pos+w-1 that v has, and nothing else |
| DbcFile.ProtectedBits | common/structures/dbc_file.py:154-168 | protection only sets bits: outside the counter nibble and the CRC byte nothing changes; inside them it ORs `cntr & 0x0F` and `crc & 0xFF` |
| DbcFile.FieldFromBits | common/structures/dbc_file.py:158-166 | bits [pos, pos+width) spelling v read back as v |
| DbcFile.CounterReadBack | common/structures/dbc_file.py:158 | when the counter nibble was clear and the CRC byte does not overlap it, the nibble reads back as `cntr & 0x0F` |
| DbcFile.ChecksumReadBack | common/structures/dbc_file.py:164-166 | when the CRC byte was clear and the nibble does not overlap it, the byte reads back as `crc & 0xFF` |
| DbcFile.ProtectKeepsOtherBits | common/structures/dbc_file.py:154-168 | outside the nibble and the CRC byte protection leaves every bit as it was |
| DbcFile.Render | common/structures/dbc_file.py:170 | the frame text is 16 lower-case hexadecimal digits whose value is `reverse_bytes(acc, 8)`, whatever the message length |
| DbcFile.RenderBytes | common/structures/dbc_file.py:170 | byte i of the number the frame text spells (counted from the least significant end) is byte 7-i of the payload, so the leftmost digit pair is payload byte 0 |
| DbcFile.PrepareData | common/structures/dbc_file.py:135-170 | prepare_data computes FrameText: the masking pass, the value pass, the optional protection and the rendering, or the first exception raised |
| DbcFile.FindSignalFromSpec | common/structures/dbc_file.py:179-185 | a signal is returned iff the name is `m + '_' + s` for a message m and its signal s; it is the signal of the first such message in file order; otherwise None |
| DbcFile.ToTestSpecSignal | common/structures/dbc_file.py:64-70 | a bus signal with the descriptor's name, parent and source; direction BOTH iff the message type is INPUT, else OUTOUT |
| Bits.Hex16 | common/structures/dbc_file.py:170 | `"{:016x}"` of a 64-bit number: 16 hexadecimal digits that read back as the number |
| Bits.HexRoundTrip | common/structures/dbc_file.py:170 | zero-padded hexadecimal digits of n read back as n when n fits in the width |
| Strings.JoinedStartsWith | common/structures/dbc_file.py:181-183 | `m + '_' + s` starts with m, so the prefix test never skips a matching message |
| A2lFile.NewA2lSignal | common/structures/a2l_file.py:13-22 | every calibration point has parent 'a2l'; the other fields are copied; its identity is that of the new object |
| A2lFile.ToTestSpecSignal | common/structures/a2l_file.py:31-34 | source type A2L and direction INPUT; name, parent and source copied; origin is the point |
| A2lFile.FindSignalFromSpec | common/structures/a2l_file.py:43-51 | a name without the `a2l_` prefix raises "Wrong signal name"; otherwise the point stored under `name[4:]`, or None when there is none |
| A2lFile.ConvertedPointsCompareByIdentity | common/structures/a2l_file.py:31-34 | the signals of two calibration points built from the same record compare equal iff the points are the same object |
| A2lFile.FindPrefixed | common/structures/a2l_file.py:43-51 | looking up `a2l_` + k finds the point stored under k, and gives None when k is absent |
| Waveforms.FormFromValue | common/structures/test_spec.py:23-32 | `signal_form(v)` succeeds iff 0 <= v <= 8, with the form of that value; otherwise it is a ValueError |
| Waveforms.FormRoundTrip | common/structures/test_spec.py:23-32 | converting a form's value back gives the form |
| Waveforms.Evaluate | common/structures/test_spec.py:156-175 | PWM, PARABOLA, ROOT, HYPERBOLA, EXPONENTA and SINUS raise "Not implemented"; NOT_DEFINED gives None; CONSTANT and LINE give a value iff their coefficients are present, and raise IndexError otherwise |
| Waveforms.ConstantIsFlat | common/structures/test_spec.py:158-159 | CONSTANT gives coef[0] at every timestamp |
| Waveforms.LineIsAffine | common/structures/test_spec.py:162-164 | LINE gives coef[1] at 0 and rises by coef[0]·Δt/1000 |
| TestSpec.CheckSignalsEquality | common/structures/test_spec.py:115-130 | true iff the two signals agree on every field except the origin and their origins are the same descriptor object (or both None); equal signals always pass |
| TestSpec.SignalsEqualityStructural | common/structures/test_spec.py:115-130 | where each identity names one descriptor, the check is plain equality of the signals |
| TestSpec.CoefsEqual | common/structures/test_spec.py:149-153 | the length check and the coefficient loop return true iff the lists are equal |
| TestSpec.CheckControlEquality | common/structures/test_spec.py:145-154 | true iff form and coefficients agree; the signals are not compared |
| TestSpec.CheckRangesEquality | common/structures/test_spec.py:195-203 | true iff start, stop and tolerance agree |
| TestSpec.CheckMonitoredEquality | common/structures/test_spec.py:229-244 | as written: different range counts give False; equal non-zero counts raise TypeError; with no ranges, form and coefficients decide |
| TestSpec.CheckMonitoredEqualityFixed | common/structures/test_spec.py:229-244 | as intended: true iff the ranges, the form and the coefficients all agree |
| TestSpec.RangeFromSpec | common/structures/test_spec.py:190-192 | succeeds iff the record has start_ms, stop_ms and tolerance, and copies them; otherwise it is a KeyError for a missing key |
| TestSpec.RangeToDict | common/structures/test_spec.py:205-210 | the record has exactly those three keys, and reading it back gives the range |
| TestSpec.ControlFromSpec | common/structures/test_spec.py:140-142 | succeeds iff the form value names a form; the signal and coefficients are copied |
| TestSpec.ControlToDict | common/structures/test_spec.py:177-181 | reading the record back gives the control signal |
| TestSpec.LoggedFromSpec | common/structures/test_spec.py:292-293 | the record is ignored; only the signal is kept |
| TestSpec.PrepareMonitoredRanges | common/structures/test_spec.py:247-255 | succeeds iff every range record has its keys; the ranges are built in order; an error is one of the records' errors |
| TestSpec.MonitoredFromSpec | common/structures/test_spec.py:221-226 | succeeds iff all ranges build and the form is valid; the fields are copied; errors are KeyError or ValueError |
| TestSpec.MonitoredToDict | common/structures/test_spec.py:278-285 | one record per range, the form's value and the coefficients |
| TestSpec.MonitoredRoundTrip | common/structures/test_spec.py:278-285 | building from the serialised record gives back the monitored signal |
| TestSpec.PrepareMonitoredSignals | common/structures/test_spec.py:327-335 | succeeds iff every name resolves and every record builds; the result has the spec's keys in order, each wrapping `signals[name]`; an unresolved name is one in the spec and absent from the signal map |
| TestSpec.PrepareLoggedSignals | common/structures/test_spec.py:338-346 | succeeds iff every name resolves; the keys are the spec's and each entry wraps `signals[name]`; otherwise "Signal is missing in the input files" for a missing name |
| TestSpec.PrepareControlSignals | common/structures/test_spec.py:392-400 | as for monitored signals, for control records |
| Steps.StepTypeFromValue | common/structures/test_spec.py:78-81 | `step_type(v)` succeeds iff 0 <= v <= 2; 1 is COMMON and 2 is SPECIAL |
| Steps.ActionFromValue | common/structures/test_spec.py:83-94 | `special_step_action(v)` succeeds iff 0 <= v <= 10 |
| Steps.BaseFromSpec | common/structures/test_spec.py:311-324 | builds the step iff its monitored and logged signals resolve and its type is valid; the optional maps default to empty |
| Steps.CommonFromSpec | common/structures/test_spec.py:375-382 | as for a base step, plus control signals; a record without 'control_signals' is a KeyError |
| Steps.SpecialFromSpec | common/structures/test_spec.py:423-430 | as for a base step, plus a valid step_action and the action details |
| Steps.PrepareSteps | common/structures/test_spec.py:452-464 | succeeds iff every record is a buildable COMMON or SPECIAL step; the steps keep order and length; a NOT_DEFINED type is "Type 0 is not implemented" |
| Steps.StepKindMatchesType | common/structures/test_spec.py:456-461 | a built COMMON step carries control signals and a built SPECIAL step carries an action |
| Steps.NewTestSpec | common/structures/test_spec.py:439-449 | construction fails iff the id is None, since deriving an id always raises; the fields are copied otherwise |
| Steps.TestSpecFromSpec | common/structures/test_spec.py:471-483 | a missing 'xray_id' is fatal; otherwise success iff the initial state and every step build; the result is well formed |
| Steps.AppendNew | common/structures/test_spec.py:493-495 | one "append if not already in the list" loop computes AddNew |
| Lists.AddNewContents | common/structures/test_spec.py:493-495 | the loop keeps the old list as a prefix and holds exactly the old elements and the candidates |
| Lists.AddNewDistinct | common/structures/test_spec.py:493-495 | a duplicate-free list stays duplicate-free |
| Lists.AddNewAppend | common/structures/test_spec.py:491-513 | looping over xs + ys is looping over xs, then over ys |
| Lists.DedupOrder | common/structures/test_spec.py:491-513 | the de-duplicated list is duplicate-free, holds exactly the input's elements, and lists them by first occurrence |
| Steps.AddNewThree | common/structures/test_spec.py:493-501 | three consecutive loops are one loop over the concatenation |
| Steps.StepFold | common/structures/test_spec.py:502-512 | processing step i extends the loop over the names of the steps before it, with control names for COMMON steps only |
| Steps.PrepareListOfUsedSignals | common/structures/test_spec.py:491-513 | the used-signal list is the de-duplication of the initial control, monitored and logged names, then each step's control (COMMON only), monitored and logged names |
| Steps.UsedSignalsProperties | common/structures/test_spec.py:491-513 | that list has no duplicates, holds exactly the referenced names, and is in first-seen order |
| Steps.StepsNamesCover | common/structures/test_spec.py:502-512 | every monitored or logged name of a step, and every control name of a COMMON step, is referenced |
| Runner.PrepareCaption | test_spec_runner.py:36-40 | the loop builds 'timestamp,', then `key + ','` for each key of logged_data in order, then a newline |
| Runner.PrepareData | test_spec_runner.py:42-46 | the loop builds the time of day and ',', then `value + ','` for each value in key order, then a newline |
| Monitor.RenderedValues | test_spec_runner.py:44-45 | one rendered value per key, in key order |
| Monitor.ColumnsAgree | test_spec_runner.py:36-46 | without commas in keys, values and timestamp, the header and a row both have one column per key plus the timestamp |
| Monitor.SignalName | test_spec_runner.py:52 | the key of a feedback signal is `message_name + '_' + signal` |
| Monitor.SignalNameInjective | test_spec_runner.py:52 | different signals of one message get different keys |
| Runner.FindRange | test_spec_runner.py:57-63 | the search loop computes FirstInWindow |
| Monitor.FirstInWindow | test_spec_runner.py:57-63 | None iff no window holds t (both ends inclusive); otherwise the smallest index whose window holds t |
| Monitor.ToleranceBand | test_spec_runner.py:69-72 | a value passes iff it is in the closed band expected ± tolerance·\|expected\|/100, or ± tolerance when that product is 0; a value at the bound passes |
| Runner.CheckValue | test_spec_runner.py:59-76 | the check of one monitored value computes Judge |
| Monitor.JudgeMeaning | test_spec_runner.py:59-76 | no window: no fault; an error iff a window matches and the expectation cannot be computed; a fault carries the first matching window's index and tolerance, the expectation, the measured value and the time, and exceeds the bound; no fault in a window means within the bound |
| Runner.RunContext.ProcessSignalOf | test_spec_runner.py:51-76 | one loop iteration computes ProcessSignal on logged_data and the fault queue |
| Runner.RunContext.ProcessMessage | test_spec_runner.py:48-76 | process_message computes Processed over the feedback's signals, stopping at the first exception |
| Monitor.ProcessedValid | test_spec_runner.py:53-54 | processing keeps logged_data a well-formed dict |
| Monitor.SignalStep | test_spec_runner.py:51-76 | one iteration raises iff its signal cannot be checked, and appends its fault, if any, to the queue |
| Monitor.SignalStepLogged | test_spec_runner.py:53-54 | one iteration touches only the logged entry of its own signal |
| Monitor.ErrorSticks | test_spec_runner.py:48-76 | after an exception nothing more changes |
| Monitor.ProcessedError | test_spec_runner.py:48-76 | processing raises iff some processed signal cannot be checked |
| Monitor.LoggedFrame | test_spec_runner.py:53-54 | keys not logged by the step, or not the key of a processed signal, keep their presence and value |
| Monitor.LoggedValues | test_spec_runner.py:53-54 | every processed signal the step logs is cached with the feedback's value |
| Monitor.PushedName | test_spec_runner.py:73-76 | a pushed fault names its signal |
| Monitor.FaultsAppended | test_spec_runner.py:55-76 | the fault queue is only appended to, and each new fault is the fault of a processed signal |
| Monitor.FaultsDistinct | test_spec_runner.py:55-76 | each signal pushes at most one fault: the new faults name distinct signals |
| Monitor.FaultsComplete | test_spec_runner.py:55-76 | without an exception, every fault a processed signal raises is in the queue |
| Runner.RunContext.ProcessFeedbacks | test_spec_runner.py:86-92 | the batch loop computes BatchProcessed against the current step, then appends a CSV row unless an exception ended it; logged_data stays well formed |
| Monitor.BatchProcessedValid | test_spec_runner.py:86-92 | a batch keeps logged_data a well-formed dict |
| Monitor.BatchAppends | test_spec_runner.py:86-92 | a batch only appends to the fault queue |
| Runner.BatchSticks | test_spec_runner.py:86-92 | after an exception the rest of the batch is not processed |
| Runner.RunContext.MonitorTick | test_spec_runner.py:94-99 | a set event is cleared, the step clock restarts and the counter advances; the current step stays the one CurrentStep designates (the initial state, then steps[min(k,n)-1]) |
| Runner.RunContext.WriteCaption | test_spec_runner.py:105-109 | the caption of logged_data goes in front of the rows |
| Scenario.SpecialEffects | test_spec_runner.py:114-133 | only REBOOT, POWER_OFF, POWER_ON, GET_INFO, GET_PARAMETERS, UPDATE_PARAMETERS and GET_FRAM are handled, the rest raise; only REBOOT reconfigures the reading task; only GET_INFO and GET_PARAMETERS write to the log |
| Runner.RunContext.PerformSpecialStep | test_spec_runner.py:114-133 | the dispatch appends exactly the effects SpecialEffects gives, or nothing on an exception |
| Runner.RunContext.GroupSignals | test_spec_runner.py:139-152 | the first loop computes Grouped: bus values by message, calibrations issued in order, stopping at the first exception |
| Runner.RunContext.GroupOne | test_spec_runner.py:141-152 | one iteration of that loop advances Grouped by one control signal |
| Scenario.GroupedValid | test_spec_runner.py:139-147 | the grouping is a well-formed dict of well-formed dicts |
| Scenario.PutNestedValid | test_spec_runner.py:144-147 | assigning one value under its parent message keeps it so |
| Scenario.GroupedSticks | test_spec_runner.py:139-152 | after an exception the grouping stays as it was |
| Scenario.GroupControlStep | test_spec_runner.py:141-152 | one iteration raises iff the reference fails or the source is neither bus nor calibration; it calibrates A2L signals and writes bus values under parent and name |
| Scenario.GroupControlFrame | test_spec_runner.py:144-147 | one iteration leaves every other entry as it was |
| Scenario.GroupedError | test_spec_runner.py:139-152 | grouping raises iff some control signal cannot be grouped |
| Scenario.GroupedErrorKind | test_spec_runner.py:139-152 | the exceptions are an unsupported source or a failing reference |
| Scenario.GroupedValue | test_spec_runner.py:142-147 | each bus signal is grouped under its parent at its name with `calculate_reference(0.0)`, unless a later one with the same parent and name overwrites it |
| Scenario.GroupedSound | test_spec_runner.py:142-147 | every grouped entry comes from a bus control signal with that parent and name |
| Scenario.GroupedEarlier | test_spec_runner.py:142-147 | an entry the last signal does not write was already there |
| Scenario.CalibrationsSound | test_spec_runner.py:148-150 | each calibration comes from an A2L control signal and its reference value |
| Scenario.CalibrationsComplete | test_spec_runner.py:148-150 | without an exception every A2L control signal is calibrated with its reference value |
| Runner.RunContext.StartTasks | test_spec_runner.py:153-165 | the second loop computes Sent; each returned id is added to active_sending_tasks only if absent |
| Runner.RunContext.StartOne | test_spec_runner.py:154-165 | one iteration of that loop advances Sent by one message |
| Scenario.Sent | test_spec_runner.py:153-165 | one task id per started task |
| Scenario.SentSticks | test_spec_runner.py:153-165 | after an exception the sending loop stays as it was |
| Scenario.SentError | test_spec_runner.py:153-165 | the loop raises iff a grouped message is missing from the bus files |
| Scenario.SentFirstMissing | test_spec_runner.py:161 | the exception is the KeyError of the first missing message |
| Scenario.SentTasks | test_spec_runner.py:153-165 | one task per grouped message in grouping order, with its signals, addressed to the gateway when there is one, else to the device |
| Scenario.CommonStepParts | test_spec_runner.py:135-165 | perform_common_step is the grouping loop followed, when it does not raise, by the sending loop |
| Runner.RunContext.PerformCommonStep | test_spec_runner.py:135-165 | the commands are the calibrations then the task starts; active_sending_tasks gains each new id once |
| Scenario.StepAction | test_spec_runner.py:174-184 | a NOT_DEFINED type raises; a failing action writes no log; only COMMON steps start tasks |
| Scenario.WellFormedDispatch | test_spec_runner.py:174-184 | a step of a well-formed specification never lacks the attribute its handler reads |
| Runner.RunContext.RunAction | test_spec_runner.py:174-184 | the dispatch appends exactly the effects StepAction gives |
| Scenario.FaultLines | test_spec_runner.py:185-187 | one log line per drained fault, in order |
| Runner.RunContext.Drain | test_spec_runner.py:185-189 | the step passes iff the queue was empty at drain; the queue is left empty and each fault is logged before the status |
| Runner.RunContext.PerformStep | test_spec_runner.py:167-184 | as written: the header, then the action's commands, log lines and task ids, then always an exception: the action's own, else TypeError from asyncio.gather; the queue is not drained and no status is written |
| Scenario.StepAsWritten | test_spec_runner.py:167-184 | a step as written always ends in an exception |
| Runner.RunContext.PerformStepIntended | test_spec_runner.py:167-189 | as intended: header, action, drain and status; it raises iff the action raises; otherwise the step passes iff no fault was queued before it or pushed while it ran, and the queue ends empty |
| Scenario.StepIntendedFresh | test_spec_runner.py:167-189 | what a step does to the commands, log, tasks and queue does not depend on the steps before it or their verdicts; its verdict is the earlier verdict and its own |
| Scenario.StopListSticks | test_spec_runner.py:196-201 | after a KeyError the stop list stays failed |
| Scenario.StopListExact | test_spec_runner.py:194-203 | the stop list holds exactly the ids of tasks whose 'da' is the device's or the gateway's j1939_sa, and fails iff such a task has no id |
| Runner.RunContext.StopIds | test_spec_runner.py:195-201 | the filter loop computes StopList |
| Runner.RunContext.TaskIds | test_spec_runner.py:197-201 | one task contributes its id once per address it matches |
| Runner.RunContext.Prepare | test_spec_runner.py:191-204 | the adapter stops the addressed tasks only when there are some, then the device reboots; a matching task without 'id' raises KeyError before any call |
| Runner.RunContext.SetInitialState | test_spec_runner.py:191-207 | as written: Prepare, then the initial state as step 0 as written, so it always raises |
| Runner.RunContext.SetInitialStateIntended | test_spec_runner.py:191-207 | as intended: Prepare, then the initial state as step 0; only its exception is reported, its verdict is discarded |
| Runner.RunContext.RunScenario | test_spec_runner.py:222-240 | as written: the gateway connection when there is a gateway, the log header, then set_initial_state; the run always ends in an exception, before the reading task and the steps |
| Scenario.ScenarioAsWrittenRaises | test_spec_runner.py:222-240 | the run as written raises: the stop list's KeyError, else the initial action's exception, else TypeError |
| Runner.RunContext.StepLoop | test_spec_runner.py:245-250 | the loop over the steps reaches StepsRun of the steps done; it stops only at a step that raises; test_status is the run's verdict; new_step_event is set once a step completed |
| Runner.RunContext.NextStep | test_spec_runner.py:246-250 | one iteration advances StepsRun by one step; test_status is cleared iff the step fails; new_step_event is set after a completed step |
| Runner.RunContext.Finish | test_spec_runner.py:252-255 | the test status line, then the device stops the active sending tasks |
| Runner.RunContext.RunStepsIntended | test_spec_runner.py:245-255 | the loop, then the test status and the stop of the active tasks, computes Finished(StepsRun) over all steps; it raises with the first exception of a step |
| Scenario.StepsRunSticks | test_spec_runner.py:245-250 | after an exception the step loop does nothing more |
| Scenario.StepsRunError | test_spec_runner.py:245-250 | the loop raises iff some step's action raises, and then with the first such exception |
| Scenario.StepsRunCompleted | test_spec_runner.py:245-250 | without an exception every step completes and the fault queue is left empty |
| Scenario.StepsRunPassed | test_spec_runner.py:245-250 | without an exception the verdict holds iff it held before, the queue was empty or no step ran, and no fault was pushed during any step |
| Runner.RunContext.RunScenarioIntended | test_spec_runner.py:222-255 | as intended: the run computes ScenarioRun; new_step_event is set iff the stop list and the initial action go through; the verdict is True iff the monitor pushed no fault during any step |
| Scenario.ScenarioVerdict | test_spec_runner.py:222-255 | a run as intended completes iff the stop list, the initial state and every step go through; it then completes every step and passes iff no fault was pushed during any step |
| Scenario.EmptyScenario | test_spec_runner.py:222-255 | an initial state without control signals, no steps and no tasks: the run as intended passes, the run as written raises TypeError |
| Runner.RunContext.constructor | test_spec_runner.py:28-34 | globals start empty, the monitor on the initial state with the clock started |

## Left out

- Threads, asyncio, `threading.Event` and `multiprocessing.Queue`: the two threads are not interleaved. The faults the monitor pushes during a step are a parameter of `PerformStepIntended`, so the race at step boundaries is not modelled.
- File and log I/O, `json.dumps` and `to_json`: log lines and CSV rows are sequences of entries and strings. The log lines are not rendered to text.
- Clocks: `time.time_ns()` and `datetime.now()` are parameters. Runner.RunContext.ProcessMessage reads the clock once per message, and Runner.RunContext.ProcessFeedbacks uses one reading for the whole batch, where the source reads it afresh for each monitored signal of each message. The elapsed time of a batch is therefore the same for all its signals, and a window boundary crossed during a batch is not modelled.
- Runner.PrepareData: the text of a float is a rendering function given as a parameter, because Python's float formatting is not modelled.
- Adapters (`adapter`, `dut_adapter`, `can_worker_adapter`) are recorded as commands. A sending task's id is a function of the task, and `dut_info.print()` and `get_parameters()` are given values.
- `configure_reading_task`, `read_feedbacks`, `start_test_scenario_thread` and `run_test_spec` (argument handling, adapter choice, file discovery) are external wiring and are not modelled.
- The parsers `dbc_parser` and `a2l_parser` and the `create_from_spec` of descriptors: descriptors are given values. `crc8` (common/tools/crc8.py) and `str_to_type` are not part of this model; `crc8` is a function parameter.
- IEEE floats are idealised as `real`: no rounding, infinities or NaN. `int(float(x))` is truncation toward zero.
- Negative signal positions or lengths: positions and lengths are natural numbers, so Python's ValueError for a negative shift count is not modelled.
- `to_dict` of a step and of a whole test specification, and `create_empty`: serialisation of whole specifications is not modelled, only the ranges, control and monitored signals.
- KeyErrors on record keys that the parsed records always hold (such as 'name' or 'type') are not modelled: records are typed, and only the optional keys are `Option` values.
- `time.sleep` and `asyncio.sleep(duration_ms)` have no effect in the model.
- The verdict of the initial state is discarded, as in the source: Runner.RunContext.SetInitialState reports only exceptions.
- The steps after `set_initial_state` are unreachable as written; the loop over them is modelled for the run as intended only (`RunStepsIntended`).
- `finish_event.set()` and `log_file.close()`: `finish_event` only stops the monitor thread, which is not interleaved with the steps.
- `control_signal.calculate_reference` and `monitored_signal.calculate_estimation` are the same dispatch, modelled once as Waveforms.Evaluate; that the two agree holds by construction.

## Findings

| source | as written | input that shows it | evidently intended | confidence | as-written member | corrected member |
|---|---|---|---|---|---|---|
| test_spec_runner.py:180-184 | `asyncio.gather(await step_action(...), await asyncio.sleep(...))` awaits both first and passes their results, `None` and `None`, to gather, which raises TypeError for an argument that is not awaitable | a COMMON initial state without control signals, no steps and no sending tasks: set_initial_state raises TypeError and the test never reaches its steps (Scenario.EmptyScenario) | gather the action and the sleep, then drain the fault queue and write the step status | high (not executed) | Runner.RunContext.PerformStep | Runner.RunContext.PerformStepIntended |
| common/structures/test_spec.py:233-236 | `for index in enumerate(ranges)` indexes the range list with an (index, range) tuple, and the loop returns False when two ranges are equal | two identical monitored signals with one range: TypeError instead of True | compare the ranges pairwise and return False when a pair differs | high (not executed) | TestSpec.CheckMonitoredEquality | TestSpec.CheckMonitoredEqualityFixed |
