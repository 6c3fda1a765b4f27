/**
 * The records the description-file parsers hand to the core: bus signals and
 * messages from a DBC file, calibration points from an A2L file. The parsers
 * themselves are not part of this model; these records are their output.
 */
module Descriptors {
  import opened Outcomes
  import opened Dicts

  /** dbc_message_type: the classification of a bus message. */
  datatype MessageType = NotDefinedType | Unused | Input | Output | Health

  /** dbc_signal: one signal of a bus message. */
  datatype DbcSignal = DbcSignal(
    name: string,
    position: nat,           // first bit of the signal in the frame accumulator
    length: nat,             // number of bits
    factor: real,
    offset: real,
    min: real,
    max: real,
    unit: string,
    dscr: string,
    signalType: Option<string>,
    startValue: Option<real>,
    values: Option<map<int, string>>,
    parent: string,          // name of the owning message
    source: string,
    messageType: MessageType,
    ident: nat)              // identity of the object; the class defines no __eq__

  /** dbc_message: a bus frame and its signals, keyed by signal name in file order. */
  datatype DbcMessage = DbcMessage(
    name: string,
    id: string,
    length: int,             // frame length in bytes
    signals: Dict<string, DbcSignal>,
    dscr: string,
    messageType: MessageType,
    periodMs: Option<int>,
    frameFormat: Option<string>,
    source: string)

  /** a2l_signal: one calibration point. */
  datatype A2lSignal = A2lSignal(
    name: string,
    dscr: string,
    address: string,
    upperLimit: string,
    lowerLimit: string,
    recordLayout: string,
    parent: string,
    source: string,
    ident: nat)              // identity of the object; the class defines no __eq__
}
