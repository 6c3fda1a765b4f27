/**
 * The bus-frame codec of dbc_file.py. A message packs named physical values
 * into a payload accumulator that starts as 64 one bits: the spans of all
 * declared signals are cleared, each supplied value is range checked, scaled
 * to a raw integer and ORed in at its position, an optional end-to-end block
 * ORs in a 4-bit counter and an 8-bit checksum, and the low 8 bytes are
 * rendered byte-reversed as 16 hexadecimal digits.
 */
module DbcFile {
  import opened Outcomes
  import opened Dicts
  import opened Bits
  import opened Descriptors
  import opened TestSpec
  import opened Strings

  type Octet = x: int | 0 <= x < 256

  /** crc8(data, length, seed) of common/tools/crc8.py, which is not part of this model. */
  type Crc8 = (int, int, int) -> Octet

  /** Python's `int()` of a float: truncation toward zero. */
  function Trunc(x: real): (n: int)
    ensures 0.0 <= x ==> n as real <= x < n as real + 1.0
    ensures x <= 0.0 ==> n as real - 1.0 < x <= n as real
  {
    if x >= 0.0 then x.Floor else -((-x).Floor)
  }

  // -------------------------------------------------------------------------
  // reverse_bytes

  /** The `length` low bytes of `input`, in the opposite order. */
  function ReversedBytes(input: int, length: nat): (r: int)
    ensures 0 <= r < Pow256(length)
  {
    var bs := ToBytes(input, length);
    ToBytesAreBytes(input, length);
    assert IsBytes(Reverse(bs));
    FromBytesBound(Reverse(bs));
    FromBytes(Reverse(bs))
  }

  /** reverse_bytes: collect the bytes least significant first, reverse the list, OR them back. */
  method ReverseBytes(input: int, length: nat) returns (r: int)
    ensures r == ReversedBytes(input, length)
  {
    r := 0;
    var tmp: seq<int> := [];
    for index := 0 to length
      invariant tmp == ToBytes(input, length)[..index]
    {
      ToBytesNext(input, length, index);
      tmp := tmp + [Low(Shr(input, index * 8), 8)];
    }
    assert tmp == ToBytes(input, length);
    ToBytesAreBytes(input, length);
    tmp := Reverse(tmp);
    assert IsBytes(tmp);
    for index := 0 to length
      invariant r == FromBytes(tmp[..index])
    {
      OrNextByte(tmp, index);
      r := Or(r, Shl(tmp[index], index * 8));
    }
    assert tmp[..length] == tmp;
  }

  /** Byte `i` of the result is byte `length - 1 - i` of the input. */
  lemma ReversedBytesAt(x: int, length: nat, i: nat)
    requires i < length
    ensures Byte(ReversedBytes(x, length), i) == Byte(x, length - 1 - i)
  {
    var bs := Reverse(ToBytes(x, length));
    ToBytesAreBytes(x, length);
    assert IsBytes(bs);
    ToFromBytes(bs);
    ToBytesAt(FromBytes(bs), length, i);
    ToBytesAt(x, length, length - 1 - i);
  }

  /** Reversing twice gives back any number of at most `length` bytes. */
  lemma ReversedBytesInvolution(x: int, length: nat)
    requires 0 <= x < Pow256(length)
    ensures ReversedBytes(ReversedBytes(x, length), length) == x
  {
    var bs := ToBytes(x, length);
    ToBytesAreBytes(x, length);
    assert IsBytes(Reverse(bs));
    ToFromBytes(Reverse(bs));
    ReverseReverse(bs);
    FromToBytes(x, length);
    DivModUnique(x, Pow2(8 * length), 0, x);
  }

  // -------------------------------------------------------------------------
  // Masking pass

  /** The bits of the accumulator a signal occupies: `position` up to, not including, `position + length`. */
  predicate InSpan(d: DbcSignal, i: nat)
  {
    d.position <= i < d.position + d.length
  }

  /** Some declared signal occupies bit `i`. */
  ghost predicate Covered(sigs: Dict<string, DbcSignal>, i: nat)
  {
    exists name :: name in sigs.entries && InSpan(sigs.entries[name], i)
  }

  /** `(2 ** length - 1) << position` */
  function SpanMask(d: DbcSignal): int
  {
    Shl(Pow2(d.length) - 1, d.position)
  }

  lemma BitSpanMask(d: DbcSignal, i: nat)
    ensures Bit(SpanMask(d), i) == InSpan(d, i)
  {
    BitShl(Pow2(d.length) - 1, d.position, i);
    if i >= d.position {
      BitAllOnes(d.length, i - d.position);
    }
  }

  /** The accumulator's start value 0xFFFFFFFFFFFFFFFF. */
  const AllOnes64: int := 0xFFFF_FFFF_FFFF_FFFF

  lemma Pow2SixtyFour()
    ensures Pow2(64) == AllOnes64 + 1
  {
    Pow2Eight();
    Pow2Add(8, 8);
    assert Pow2(16) == 0x1_0000;
    Pow2Add(16, 16);
    assert Pow2(32) == 0x1_0000_0000;
    Pow2Add(32, 32);
  }

  lemma BitAllOnes64(i: nat)
    ensures Bit(AllOnes64, i) == (i < 64)
  {
    Pow2SixtyFour();
    BitAllOnes(64, i);
  }

  /** The accumulator once the spans of the first `n` declared signals are cleared. */
  function Masked(sigs: Dict<string, DbcSignal>, n: nat): int
    requires sigs.Valid() && n <= |sigs.keys|
  {
    if n == 0 then AllOnes64
    else And(Masked(sigs, n - 1), Not(SpanMask(sigs.entries[sigs.keys[n - 1]])))
  }

  lemma {:induction false} MaskedPrefixBits(sigs: Dict<string, DbcSignal>, n: nat, i: nat)
    requires sigs.Valid() && n <= |sigs.keys|
    ensures Bit(Masked(sigs, n), i) <==>
              i < 64 && forall k :: 0 <= k < n ==> !InSpan(sigs.entries[sigs.keys[k]], i)
  {
    if n == 0 {
      BitAllOnes64(i);
    } else {
      var d := sigs.entries[sigs.keys[n - 1]];
      MaskedPrefixBits(sigs, n - 1, i);
      BitAnd(Masked(sigs, n - 1), Not(SpanMask(d)), i);
      BitNot(SpanMask(d), i);
      BitSpanMask(d, i);
    }
  }

  /** After the masking pass a bit is set iff it is one of the 64 and no declared signal occupies it. */
  lemma MaskedBits(sigs: Dict<string, DbcSignal>, i: nat)
    requires sigs.Valid()
    ensures Bit(Masked(sigs, |sigs.keys|), i) <==> i < 64 && !Covered(sigs, i)
  {
    MaskedPrefixBits(sigs, |sigs.keys|, i);
    if Covered(sigs, i) {
      var name :| name in sigs.entries && InSpan(sigs.entries[name], i);
      var k :| 0 <= k < |sigs.keys| && sigs.keys[k] == name;
    }
  }

  // -------------------------------------------------------------------------
  // Value pass

  /** `int(value / factor)`, plus `int(start_value)` when the signal declares one. */
  function RawValue(d: DbcSignal, v: real): int
    requires d.factor != 0.0
  {
    Trunc(v / d.factor) + (if d.startValue.Some? then Trunc(d.startValue.value) else 0)
  }

  /** The value pass accepts `v` for `name`: a declared signal, inside `[min, max]`, with a usable factor. */
  predicate Accepts(sigs: Dict<string, DbcSignal>, name: string, v: real)
  {
    name in sigs.entries && sigs.entries[name].min <= v <= sigs.entries[name].max
    && sigs.entries[name].factor != 0.0
  }

  /** The checks on one supplied value, in the order the source makes them, and its raw value. */
  function PackValue(sigs: Dict<string, DbcSignal>, name: string, v: real): (r: Result<int>)
    ensures r.Ok? <==> Accepts(sigs, name, v)
    ensures r.Ok? ==> r.value == RawValue(sigs.entries[name], v)
    ensures name !in sigs.entries ==> r == Err(WrongSignalName)
    ensures (name in sigs.entries && (v < sigs.entries[name].min || v > sigs.entries[name].max)) ==>
              r == Err(OutOfRange)
    ensures Accepts(sigs, name, v) || r.error in {WrongSignalName, OutOfRange, DivisionByZero}
  {
    if name !in sigs.entries then Err(WrongSignalName)
    else
      var d := sigs.entries[name];
      if v > d.max || v < d.min then Err(OutOfRange)
      else if d.factor == 0.0 then Err(DivisionByZero)
      else Ok(RawValue(d, v))
  }

  /** Supplied value `j` is accepted. */
  ghost predicate AcceptsAt(sigs: Dict<string, DbcSignal>, values: Dict<string, real>, j: nat)
    requires values.Valid() && j < |values.keys|
  {
    Accepts(sigs, values.keys[j], values.entries[values.keys[j]])
  }

  /** The accumulator once the first `n` supplied values were ORed into `acc0`. */
  function Packed(sigs: Dict<string, DbcSignal>, values: Dict<string, real>, acc0: int, n: nat): Result<int>
    requires values.Valid() && n <= |values.keys|
  {
    if n == 0 then Ok(acc0)
    else match Packed(sigs, values, acc0, n - 1)
      case Err(e) => Err(e)
      case Ok(acc) =>
        var name := values.keys[n - 1];
        match PackValue(sigs, name, values.entries[name])
        case Err(e) => Err(e)
        case Ok(raw) => Ok(Or(acc, Shl(raw, sigs.entries[name].position)))
  }

  /** The value pass succeeds exactly when every supplied value is accepted. */
  lemma {:induction false} PackedOk(sigs: Dict<string, DbcSignal>, values: Dict<string, real>,
                                    acc0: int, n: nat)
    requires values.Valid() && n <= |values.keys|
    ensures Packed(sigs, values, acc0, n).Ok? <==> forall j :: 0 <= j < n ==> AcceptsAt(sigs, values, j)
  {
    if n > 0 {
      PackedOk(sigs, values, acc0, n - 1);
      assert Packed(sigs, values, acc0, n).Ok? <==>
             Packed(sigs, values, acc0, n - 1).Ok? && AcceptsAt(sigs, values, n - 1);
    }
  }

  /** The value pass stops at the first rejected value, with that value's error. */
  lemma {:induction false} PackedFirstError(sigs: Dict<string, DbcSignal>, values: Dict<string, real>,
                                            acc0: int, n: nat, j: nat)
    requires values.Valid() && j < n <= |values.keys|
    requires !AcceptsAt(sigs, values, j) && forall k :: 0 <= k < j ==> AcceptsAt(sigs, values, k)
    ensures Packed(sigs, values, acc0, n)
              == Err(PackValue(sigs, values.keys[j], values.entries[values.keys[j]]).error)
  {
    if n - 1 == j {
      PackedOk(sigs, values, acc0, j);
    } else {
      PackedFirstError(sigs, values, acc0, n - 1, j);
    }
  }

  /** Supplied value `j`, shifted to its position, has bit `i` set. */
  ghost predicate SetsBit(sigs: Dict<string, DbcSignal>, values: Dict<string, real>, j: nat, i: nat)
    requires values.Valid() && j < |values.keys|
  {
    var name := values.keys[j];
    AcceptsAt(sigs, values, j)
    && Bit(Shl(RawValue(sigs.entries[name], values.entries[name]), sigs.entries[name].position), i)
  }

  /** The value pass only ORs: a bit is set iff it was set before or some supplied value sets it. */
  lemma {:induction false} PackedBits(sigs: Dict<string, DbcSignal>, values: Dict<string, real>,
                                      acc0: int, n: nat, i: nat)
    requires values.Valid() && n <= |values.keys|
    requires Packed(sigs, values, acc0, n).Ok?
    ensures Bit(Packed(sigs, values, acc0, n).value, i) <==>
              Bit(acc0, i) || exists j :: 0 <= j < n && SetsBit(sigs, values, j, i)
  {
    if n > 0 {
      PackedBits(sigs, values, acc0, n - 1, i);
      var name := values.keys[n - 1];
      var acc := Packed(sigs, values, acc0, n - 1).value;
      var raw := RawValue(sigs.entries[name], values.entries[name]);
      BitOr(acc, Shl(raw, sigs.entries[name].position), i);
      if SetsBit(sigs, values, n - 1, i) {
      } else if exists j :: 0 <= j < n && SetsBit(sigs, values, j, i) {
        var j :| 0 <= j < n && SetsBit(sigs, values, j, i);
        assert j < n - 1;
      }
    }
  }

  /** The masking pass followed by the value pass. */
  function Accumulate(msg: DbcMessage, values: Dict<string, real>): Result<int>
    requires msg.signals.Valid() && values.Valid()
  {
    Packed(msg.signals, values, Masked(msg.signals, |msg.signals.keys|), |values.keys|)
  }

  /** Reading a signal back: `(acc >> position) & (2 ** length - 1)`. */
  function Field(acc: int, d: DbcSignal): int
  {
    Low(Shr(acc, d.position), d.length)
  }

  /** No two declared signals share a bit. */
  ghost predicate NonOverlapping(sigs: Dict<string, DbcSignal>)
  {
    forall a, b {:trigger Disjoint(sigs.entries[a], sigs.entries[b])} ::
      a in sigs.entries && b in sigs.entries && a != b ==> Disjoint(sigs.entries[a], sigs.entries[b])
  }

  /** The spans of two signals share no bit. */
  predicate Disjoint(d: DbcSignal, e: DbcSignal)
  {
    d.position + d.length <= e.position || e.position + e.length <= d.position
  }

  /** The raw value of every accepted supplied value fits in its signal's width. */
  ghost predicate Fits(sigs: Dict<string, DbcSignal>, values: Dict<string, real>)
  {
    forall name :: name in values.entries && Accepts(sigs, name, values.entries[name]) ==>
      0 <= RawValue(sigs.entries[name], values.entries[name]) < Pow2(sigs.entries[name].length)
  }

  /** Under Fits and NonOverlapping, only the value of the signal that owns bit `i` can set it. */
  lemma OnlyOwnerSetsBit(sigs: Dict<string, DbcSignal>, values: Dict<string, real>, j: nat, i: nat,
                         name: string)
    requires values.Valid() && j < |values.keys|
    requires NonOverlapping(sigs) && Fits(sigs, values)
    requires name in sigs.entries && InSpan(sigs.entries[name], i)
    requires SetsBit(sigs, values, j, i)
    ensures values.keys[j] == name
  {
    var other := values.keys[j];
    var d := sigs.entries[other];
    var raw := RawValue(d, values.entries[other]);
    BitShl(raw, d.position, i);
    if i >= d.position + d.length {
      BitsAboveBound(raw, d.length, i - d.position);
    }
    assert InSpan(d, i);
    assert other != name ==> Disjoint(d, sigs.entries[name]);
  }

  /** For the supplied value of the signal itself, setting bit `i` is having bit `i - position`. */
  lemma OwnValueBit(sigs: Dict<string, DbcSignal>, values: Dict<string, real>, j: nat, i: nat)
    requires values.Valid() && j < |values.keys| && AcceptsAt(sigs, values, j)
    requires InSpan(sigs.entries[values.keys[j]], i)
    ensures SetsBit(sigs, values, j, i) <==>
              Bit(RawValue(sigs.entries[values.keys[j]], values.entries[values.keys[j]]),
                  i - sigs.entries[values.keys[j]].position)
  {
    var d := sigs.entries[values.keys[j]];
    BitShl(RawValue(d, values.entries[values.keys[j]]), d.position, i);
  }

  /** Under Fits and NonOverlapping, some supplied value sets bit `i` of a span iff the span's own value has it. */
  lemma SetterIsOwner(sigs: Dict<string, DbcSignal>, values: Dict<string, real>, name: string, i: nat)
    requires values.Valid() && NonOverlapping(sigs) && Fits(sigs, values)
    requires name in sigs.entries && InSpan(sigs.entries[name], i)
    ensures (exists j :: 0 <= j < |values.keys| && SetsBit(sigs, values, j, i)) <==>
              name in values.entries && Accepts(sigs, name, values.entries[name]) &&
              Bit(RawValue(sigs.entries[name], values.entries[name]), i - sigs.entries[name].position)
  {
    if exists j :: 0 <= j < |values.keys| && SetsBit(sigs, values, j, i) {
      var j :| 0 <= j < |values.keys| && SetsBit(sigs, values, j, i);
      OnlyOwnerSetsBit(sigs, values, j, i, name);
      OwnValueBit(sigs, values, j, i);
    } else if name in values.entries {
      var j :| 0 <= j < |values.keys| && values.keys[j] == name;
      if Accepts(sigs, name, values.entries[name]) {
        OwnValueBit(sigs, values, j, i);
      }
    }
  }

  /** Inside a declared span, the accumulator holds exactly the bits of that signal's own value. */
  lemma SpanBit(msg: DbcMessage, values: Dict<string, real>, name: string, i: nat)
    requires msg.signals.Valid() && values.Valid()
    requires Accumulate(msg, values).Ok?
    requires NonOverlapping(msg.signals) && Fits(msg.signals, values)
    requires name in msg.signals.entries && InSpan(msg.signals.entries[name], i)
    ensures Bit(Accumulate(msg, values).value, i) <==>
              name in values.entries && Accepts(msg.signals, name, values.entries[name]) &&
              Bit(RawValue(msg.signals.entries[name], values.entries[name]),
                  i - msg.signals.entries[name].position)
  {
    var acc0 := Masked(msg.signals, |msg.signals.keys|);
    assert Covered(msg.signals, i);
    MaskedBits(msg.signals, i);
    assert !Bit(acc0, i);
    assert Accumulate(msg, values) == Packed(msg.signals, values, acc0, |values.keys|);
    PackedBits(msg.signals, values, acc0, |values.keys|, i);
    SetterIsOwner(msg.signals, values, name, i);
  }

  /**
   * Round trip: with non-overlapping spans and raw values that fit, reading a
   * declared signal back gives its raw value, or 0 when no value was supplied.
   */
  lemma SignalRoundTrip(msg: DbcMessage, values: Dict<string, real>, name: string)
    requires msg.signals.Valid() && values.Valid()
    requires Accumulate(msg, values).Ok?
    requires NonOverlapping(msg.signals) && Fits(msg.signals, values)
    requires name in msg.signals.entries
    ensures name in values.entries ==>
              Accepts(msg.signals, name, values.entries[name]) &&
              Field(Accumulate(msg, values).value, msg.signals.entries[name])
                == RawValue(msg.signals.entries[name], values.entries[name])
    ensures name !in values.entries ==>
              Field(Accumulate(msg, values).value, msg.signals.entries[name]) == 0
  {
    var sigs := msg.signals;
    var d := sigs.entries[name];
    var acc := Accumulate(msg, values).value;
    PackedOk(sigs, values, Masked(sigs, |sigs.keys|), |values.keys|);
    var expected := 0;
    if name in values.entries {
      var j :| 0 <= j < |values.keys| && values.keys[j] == name;
      assert AcceptsAt(sigs, values, j);
      expected := RawValue(d, values.entries[name]);
    }
    assert 0 <= expected < Pow2(d.length);
    forall t: nat
      ensures Bit(Field(acc, d), t) == Bit(expected, t)
    {
      BitLow(Shr(acc, d.position), d.length, t);
      BitShr(acc, d.position, t);
      if t < d.length {
        SpanBit(msg, values, name, t + d.position);
        if name !in values.entries {
          BitZero(t);
        }
      } else {
        BitsAboveBound(expected, d.length, t);
      }
    }
    BitsExt(Field(acc, d), expected);
  }

  /** Padding stays 1: a bit of the 64 that no declared signal occupies is set after the value pass. */
  lemma PaddingKept(msg: DbcMessage, values: Dict<string, real>, i: nat)
    requires msg.signals.Valid() && values.Valid()
    requires Accumulate(msg, values).Ok?
    requires i < 64 && !Covered(msg.signals, i)
    ensures Bit(Accumulate(msg, values).value, i)
  {
    MaskedBits(msg.signals, i);
    PackedBits(msg.signals, values, Masked(msg.signals, |msg.signals.keys|), |values.keys|, i);
  }

  /** The value pass fails iff some supplied value is rejected; the error is the first rejection's. */
  lemma AccumulateErrors(msg: DbcMessage, values: Dict<string, real>)
    requires msg.signals.Valid() && values.Valid()
    ensures Accumulate(msg, values).Ok? <==>
              forall name :: name in values.entries ==> Accepts(msg.signals, name, values.entries[name])
    ensures forall j :: 0 <= j < |values.keys| && !AcceptsAt(msg.signals, values, j) &&
                        (forall k :: 0 <= k < j ==> AcceptsAt(msg.signals, values, k)) ==>
              Accumulate(msg, values)
                == Err(PackValue(msg.signals, values.keys[j], values.entries[values.keys[j]]).error)
  {
    var sigs := msg.signals;
    PackedOk(sigs, values, Masked(sigs, |sigs.keys|), |values.keys|);
    forall j | 0 <= j < |values.keys| && !AcceptsAt(sigs, values, j) &&
               (forall k :: 0 <= k < j ==> AcceptsAt(sigs, values, k))
      ensures Accumulate(msg, values)
                == Err(PackValue(sigs, values.keys[j], values.entries[values.keys[j]]).error)
    {
      PackedFirstError(sigs, values, Masked(sigs, |sigs.keys|), |values.keys|, j);
    }
    if forall j :: 0 <= j < |values.keys| ==> AcceptsAt(sigs, values, j) {
      forall name | name in values.entries
        ensures Accepts(sigs, name, values.entries[name])
      {
        var j :| 0 <= j < |values.keys| && values.keys[j] == name;
        assert AcceptsAt(sigs, values, j);
      }
    }
  }

  // -------------------------------------------------------------------------
  // End-to-end protection

  /** `[s for s in names if s.endswith(suffix)]` */
  function WithSuffix(names: seq<string>, suffix: string): seq<string>
  {
    if names == [] then []
    else (if EndsWith(names[0], suffix) then [names[0]] else []) + WithSuffix(names[1..], suffix)
  }

  /** The filter keeps exactly the names with the suffix. */
  lemma {:induction false} WithSuffixMembers(names: seq<string>, suffix: string)
    ensures forall x :: x in WithSuffix(names, suffix) <==> x in names && EndsWith(x, suffix)
  {
    if names != [] {
      WithSuffixMembers(names[1..], suffix);
      assert names == [names[0]] + names[1..];
    }
  }

  /** The first name of the filtered list is the first name in `names` with the suffix. */
  lemma {:induction false} WithSuffixFirst(names: seq<string>, suffix: string)
    requires WithSuffix(names, suffix) != []
    ensures exists k :: 0 <= k < |names| && names[k] == WithSuffix(names, suffix)[0] &&
              forall m :: 0 <= m < k ==> !EndsWith(names[m], suffix)
  {
    if !EndsWith(names[0], suffix) {
      WithSuffixFirst(names[1..], suffix);
      var k :| 0 <= k < |names[1..]| && names[1..][k] == WithSuffix(names[1..], suffix)[0] &&
                forall m :: 0 <= m < k ==> !EndsWith(names[1..][m], suffix);
      assert names[k + 1] == WithSuffix(names, suffix)[0];
      forall m | 0 <= m < k + 1
        ensures !EndsWith(names[m], suffix)
      {
        if m > 0 {
          assert names[m] == names[1..][m - 1];
        }
      }
    } else {
      assert names[0] == WithSuffix(names, suffix)[0];
    }
  }

  /** The first declared signal whose name ends in `suffix`. */
  function FirstWithSuffix(sigs: Dict<string, DbcSignal>, suffix: string): Option<DbcSignal>
    requires sigs.Valid()
  {
    var found := WithSuffix(sigs.keys, suffix);
    if found == [] then None
    else
      WithSuffixMembers(sigs.keys, suffix);
      Some(sigs.entries[found[0]])
  }

  /** No signal is found exactly when no name has the suffix; otherwise the first such name in declaration order wins. */
  lemma FirstWithSuffixSpec(sigs: Dict<string, DbcSignal>, suffix: string)
    requires sigs.Valid()
    ensures var r := FirstWithSuffix(sigs, suffix);
      && (r.None? <==> forall name :: name in sigs.entries ==> !EndsWith(name, suffix))
      && (r.Some? ==>
            exists k :: 0 <= k < |sigs.keys| && EndsWith(sigs.keys[k], suffix) &&
              r.value == sigs.entries[sigs.keys[k]] &&
              forall m :: 0 <= m < k ==> !EndsWith(sigs.keys[m], suffix))
  {
    WithSuffixMembers(sigs.keys, suffix);
    var found := WithSuffix(sigs.keys, suffix);
    if found != [] {
      WithSuffixFirst(sigs.keys, suffix);
      assert found[0] in found;
    } else {
      forall name | name in sigs.entries
        ensures !EndsWith(name, suffix)
      {
        assert name in sigs.keys;
      }
    }
  }

  /** __e2e_protection_crc */
  function E2ECrc(crc8: Crc8, data: int, dataLen: int, dataId: int): int
  {
    var c1 := crc8(Low(dataId, 8), 1, 0xFF);  // the seed 0x00 ^ 0xFF
    var c2 := crc8(Low(Shr(dataId, 8), 8), 1, c1);
    var c3 := crc8(data, dataLen, c2);
    Xor(c3, 0xFF)
  }

  /**
   * The checksum is a byte: the complement of crc8 over the payload, seeded
   * with crc8 over the data id's high byte, seeded with crc8 over its low byte
   * seeded with 0xFF.
   */
  lemma E2ECrcComplement(crc8: Crc8, data: int, dataLen: int, dataId: int)
    ensures 0 <= E2ECrc(crc8, data, dataLen, dataId) < 256
    ensures E2ECrc(crc8, data, dataLen, dataId)
              == 0xFF - crc8(data, dataLen, crc8(Byte(dataId, 1), 1, crc8(Byte(dataId, 0), 1, 0xFF)))
  {
    assert Byte(dataId, 0) == Low(dataId, 8);
    XorByteOnes(crc8(data, dataLen, crc8(Byte(dataId, 1), 1, crc8(Byte(dataId, 0), 1, 0xFF))));
  }

  /** The accumulator with `cntr & 0x0F` ORed in at the counter signal's position. */
  function WithCounter(acc: int, counter: DbcSignal, cntr: int): int
  {
    Or(acc, Shl(Low(cntr, 4), counter.position))
  }

  /** The accumulator with `crc & 0xFF` ORed in at the checksum signal's position. */
  function WithChecksum(data: int, checksum: DbcSignal, crc: int): int
  {
    Or(data, Shl(Low(crc, 8), checksum.position))
  }

  /** The protection block: counter first, then the checksum over the countered accumulator. */
  function Protect(msg: DbcMessage, acc: int, dataId: int, cntr: int, crc8: Crc8): Result<int>
    requires msg.signals.Valid()
  {
    match FirstWithSuffix(msg.signals, "_CNT")
    case None => Err(CounterSignalMissing)
    case Some(counter) =>
      var data := WithCounter(acc, counter, cntr);
      match FirstWithSuffix(msg.signals, "_CRC")
      case None => Err(CrcSignalMissing)
      case Some(checksum) => Ok(WithChecksum(data, checksum, E2ECrc(crc8, data, msg.length - 1, dataId)))
  }

  /** A missing `_CNT` signal is reported first, then a missing `_CRC` signal. */
  lemma ProtectErrors(msg: DbcMessage, acc: int, dataId: int, cntr: int, crc8: Crc8)
    requires msg.signals.Valid()
    ensures (forall name :: name in msg.signals.entries ==> !EndsWith(name, "_CNT")) ==>
              Protect(msg, acc, dataId, cntr, crc8) == Err(CounterSignalMissing)
    ensures (exists name :: name in msg.signals.entries && EndsWith(name, "_CNT")) &&
            (forall name :: name in msg.signals.entries ==> !EndsWith(name, "_CRC")) ==>
              Protect(msg, acc, dataId, cntr, crc8) == Err(CrcSignalMissing)
    ensures (exists name :: name in msg.signals.entries && EndsWith(name, "_CNT")) &&
            (exists name :: name in msg.signals.entries && EndsWith(name, "_CRC")) ==>
              Protect(msg, acc, dataId, cntr, crc8).Ok?
  {
    FirstWithSuffixSpec(msg.signals, "_CNT");
    FirstWithSuffixSpec(msg.signals, "_CRC");
  }

  /** The counter nibble and the checksum byte of the protected accumulator. */
  predicate InNibble(counter: DbcSignal, i: nat)
  {
    counter.position <= i < counter.position + 4
  }

  predicate InChecksumByte(checksum: DbcSignal, i: nat)
  {
    checksum.position <= i < checksum.position + 8
  }

  lemma BitOrShiftedLow(acc: int, v: int, width: nat, pos: nat, i: nat)
    ensures Bit(Or(acc, Shl(Low(v, width), pos)), i) <==>
              Bit(acc, i) || (pos <= i < pos + width && Bit(v, i - pos))
  {
    BitOr(acc, Shl(Low(v, width), pos), i);
    BitShl(Low(v, width), pos, i);
    if i >= pos {
      BitLow(v, width, i - pos);
    }
  }

  /**
   * Protection only sets bits: outside the counter nibble and the checksum
   * byte every bit is unchanged; inside them it ORs `cntr & 0x0F` and `crc & 0xFF`.
   */
  lemma ProtectedBits(acc: int, counter: DbcSignal, checksum: DbcSignal, cntr: int, crc: int, i: nat)
    ensures Bit(WithChecksum(WithCounter(acc, counter, cntr), checksum, crc), i) <==>
              Bit(acc, i) || (InNibble(counter, i) && Bit(cntr, i - counter.position))
              || (InChecksumByte(checksum, i) && Bit(crc, i - checksum.position))
  {
    BitOrShiftedLow(acc, cntr, 4, counter.position, i);
    BitOrShiftedLow(WithCounter(acc, counter, cntr), crc, 8, checksum.position, i);
  }

  /** Bits `[pos, pos + width)` of `x` spell `v`, so reading them back gives `v`. */
  lemma FieldFromBits(x: int, v: int, pos: nat, width: nat)
    requires 0 <= v < Pow2(width)
    requires forall t: nat :: t < width ==> Bit(x, pos + t) == Bit(v, t)
    ensures Low(Shr(x, pos), width) == v
  {
    forall t: nat
      ensures Bit(Low(Shr(x, pos), width), t) == Bit(v, t)
    {
      BitLow(Shr(x, pos), width, t);
      BitShr(x, pos, t);
      if t >= width {
        BitsAboveBound(v, width, t);
      }
    }
    BitsExt(Low(Shr(x, pos), width), v);
  }

  /**
   * When the accumulator leaves the counter nibble clear and the checksum byte
   * does not overlap it, the nibble reads back as `cntr & 0x0F`, whatever the checksum.
   */
  lemma CounterReadBack(acc: int, counter: DbcSignal, checksum: DbcSignal, cntr: int, crc: int)
    requires forall i: nat :: InNibble(counter, i) ==> !Bit(acc, i) && !InChecksumByte(checksum, i)
    ensures Low(Shr(WithChecksum(WithCounter(acc, counter, cntr), checksum, crc), counter.position), 4)
              == Low(cntr, 4)
  {
    var out := WithChecksum(WithCounter(acc, counter, cntr), checksum, crc);
    forall t: nat | t < 4
      ensures Bit(out, counter.position + t) == Bit(Low(cntr, 4), t)
    {
      assert InNibble(counter, counter.position + t);
      ProtectedBits(acc, counter, checksum, cntr, crc, counter.position + t);
      BitLow(cntr, 4, t);
    }
    FieldFromBits(out, Low(cntr, 4), counter.position, 4);
  }

  /**
   * When the accumulator and the counter nibble leave the checksum byte clear,
   * it reads back as `crc & 0xFF`.
   */
  lemma ChecksumReadBack(acc: int, counter: DbcSignal, checksum: DbcSignal, cntr: int, crc: int)
    requires forall i: nat :: InChecksumByte(checksum, i) ==> !Bit(acc, i) && !InNibble(counter, i)
    ensures Low(Shr(WithChecksum(WithCounter(acc, counter, cntr), checksum, crc), checksum.position), 8)
              == Low(crc, 8)
  {
    var out := WithChecksum(WithCounter(acc, counter, cntr), checksum, crc);
    forall t: nat | t < 8
      ensures Bit(out, checksum.position + t) == Bit(Low(crc, 8), t)
    {
      assert InChecksumByte(checksum, checksum.position + t);
      ProtectedBits(acc, counter, checksum, cntr, crc, checksum.position + t);
      BitLow(crc, 8, t);
    }
    FieldFromBits(out, Low(crc, 8), checksum.position, 8);
  }

  /** Outside the counter nibble and the checksum byte, protection leaves every bit as it was. */
  lemma ProtectKeepsOtherBits(acc: int, counter: DbcSignal, checksum: DbcSignal, cntr: int, crc: int,
                              i: nat)
    requires !InNibble(counter, i) && !InChecksumByte(checksum, i)
    ensures Bit(WithChecksum(WithCounter(acc, counter, cntr), checksum, crc), i) == Bit(acc, i)
  {
    ProtectedBits(acc, counter, checksum, cntr, crc, i);
  }

  // -------------------------------------------------------------------------
  // prepare_data

  /** The accumulator prepare_data renders: value pass, then protection when asked for. */
  function Payload(msg: DbcMessage, values: Dict<string, real>, e2e: bool, dataId: int, cntr: int,
                   crc8: Crc8): Result<int>
    requires msg.signals.Valid() && values.Valid()
  {
    match Accumulate(msg, values)
    case Err(e) => Err(e)
    case Ok(acc) => if e2e then Protect(msg, acc, dataId, cntr, crc8) else Ok(acc)
  }

  /** The frame text: 16 lower-case hexadecimal digits of the byte-reversed low 8 bytes. */
  function Render(acc: int): (s: string)
    ensures |s| == 16 && forall k :: 0 <= k < 16 ==> IsHexDigit(s[k])
    ensures FromHex(s) == ReversedBytes(acc, 8)
  {
    Hex16(ReversedBytes(acc, 8))
  }

  /** What prepare_data returns: the rendered payload, or the exception it raises. */
  function FrameText(msg: DbcMessage, values: Dict<string, real>, e2e: bool, dataId: int, cntr: int,
                     crc8: Crc8): Result<string>
    requires msg.signals.Valid() && values.Valid()
  {
    match Payload(msg, values, e2e, dataId, cntr, crc8)
    case Ok(acc) => Ok(Render(acc))
    case Err(e) => Err(e)
  }

  /** The value pass stops at the first rejected value, with that value's error. */
  lemma PackedRejectedAt(sigs: Dict<string, DbcSignal>, values: Dict<string, real>, acc0: int, i: nat)
    requires values.Valid() && i < |values.keys|
    requires Packed(sigs, values, acc0, i).Ok?
    requires !AcceptsAt(sigs, values, i)
    ensures Packed(sigs, values, acc0, |values.keys|) ==
              Err(PackValue(sigs, values.keys[i], values.entries[values.keys[i]]).error)
  {
    PackedOk(sigs, values, acc0, i);
    PackedFirstError(sigs, values, acc0, |values.keys|, i);
  }

  /** The masking pass of prepare_data. */
  method MaskSpans(sigs: Dict<string, DbcSignal>) returns (acc: int)
    requires sigs.Valid()
    ensures acc == Masked(sigs, |sigs.keys|)
  {
    acc := 0xFFFF_FFFF_FFFF_FFFF;
    for i := 0 to |sigs.keys|
      invariant acc == Masked(sigs, i)
    {
      var d := sigs.entries[sigs.keys[i]];
      acc := And(acc, Not(Shl(Pow2(d.length) - 1, d.position)));
    }
  }

  /** The value pass of prepare_data, starting from the masked accumulator `acc0`. */
  method PackValues(sigs: Dict<string, DbcSignal>, values: Dict<string, real>, acc0: int)
    returns (r: Result<int>)
    requires values.Valid()
    ensures r == Packed(sigs, values, acc0, |values.keys|)
  {
    var acc := acc0;
    for i := 0 to |values.keys|
      invariant Packed(sigs, values, acc0, i) == Ok(acc)
    {
      var name := values.keys[i];
      var v := values.entries[name];
      if name in sigs.entries {
        var d := sigs.entries[name];
        if v > d.max || v < d.min {
          PackedRejectedAt(sigs, values, acc0, i);
          return Err(OutOfRange);
        }
        if d.factor == 0.0 {
          PackedRejectedAt(sigs, values, acc0, i);
          return Err(DivisionByZero);
        }
        var value := Trunc(v / d.factor);
        if d.startValue.Some? {
          value := Trunc(d.startValue.value) + value;
        }
        acc := Or(acc, Shl(value, d.position));
      } else {
        PackedRejectedAt(sigs, values, acc0, i);
        return Err(WrongSignalName);
      }
    }
    return Ok(acc);
  }

  /** The end-to-end protection block of prepare_data. */
  method ProtectBlock(msg: DbcMessage, acc0: int, dataId: int, cntr: int, crc8: Crc8)
    returns (r: Result<int>)
    requires msg.signals.Valid()
    ensures r == Protect(msg, acc0, dataId, cntr, crc8)
  {
    var counter := FirstWithSuffix(msg.signals, "_CNT");
    if counter.None? {
      return Err(CounterSignalMissing);
    }
    var acc := WithCounter(acc0, counter.value, cntr);
    var checksum := FirstWithSuffix(msg.signals, "_CRC");
    if checksum.None? {
      return Err(CrcSignalMissing);
    }
    var crc := E2ECrc(crc8, acc, msg.length - 1, dataId);
    acc := WithChecksum(acc, checksum.value, crc);
    return Ok(acc);
  }

  /** prepare_data */
  method PrepareData(msg: DbcMessage, values: Dict<string, real>, e2e: bool, dataId: int, cntr: int,
                     crc8: Crc8) returns (r: Result<string>)
    requires msg.signals.Valid() && values.Valid()
    ensures r == FrameText(msg, values, e2e, dataId, cntr, crc8)
  {
    var sigs := msg.signals;
    var acc := MaskSpans(sigs);
    var packed := PackValues(sigs, values, acc);
    if packed.Err? {
      return Err(packed.error);
    }
    acc := packed.value;
    if e2e {
      var protected := ProtectBlock(msg, acc, dataId, cntr, crc8);
      if protected.Err? {
        return Err(protected.error);
      }
      acc := protected.value;
    }
    var reversed := ReverseBytes(acc, 8);
    return Ok(Hex16(reversed));
  }

  /** The frame text lists the payload's low 8 bytes, most significant digit pair = payload byte 0. */
  lemma RenderBytes(acc: int, i: nat)
    requires i < 8
    ensures Byte(FromHex(Render(acc)), i) == Byte(acc, 7 - i)
  {
    ReversedBytesAt(acc, 8, i);
  }

  // -------------------------------------------------------------------------
  // Signal lookup and conversion

  /** `name` is `m + '_' + s` for message `m` and one of its signals `s`. */
  ghost predicate Names(messages: Dict<string, DbcMessage>, name: string, m: string, s: string)
  {
    m in messages.entries && s in messages.entries[m].signals.entries && name == m + "_" + s
  }

  ghost predicate HasMatch(messages: Dict<string, DbcMessage>, name: string, m: string)
  {
    exists s :: Names(messages, name, m, s)
  }

  /**
   * dbc_file.find_signal_from_spec: the signal of the first message (in file
   * order) that has a signal `s` with `name == m + '_' + s`, or None.
   */
  method FindSignalFromSpec(messages: Dict<string, DbcMessage>, signalName: string)
    returns (r: Option<DbcSignal>)
    requires messages.Valid()
    requires forall m :: m in messages.entries ==> messages.entries[m].signals.Valid()
    ensures r.None? <==> forall m, s :: !Names(messages, signalName, m, s)
    ensures r.Some? ==>
              exists i, s :: 0 <= i < |messages.keys| &&
                Names(messages, signalName, messages.keys[i], s) &&
                r.value == messages.entries[messages.keys[i]].signals.entries[s] &&
                forall j :: 0 <= j < i ==> !HasMatch(messages, signalName, messages.keys[j])
  {
    for i := 0 to |messages.keys|
      invariant forall j :: 0 <= j < i ==> !HasMatch(messages, signalName, messages.keys[j])
    {
      var message := messages.keys[i];
      var sigs := messages.entries[message].signals;
      if StartsWith(signalName, message) {
        for k := 0 to |sigs.keys|
          invariant forall k' :: 0 <= k' < k ==> signalName != message + "_" + sigs.keys[k']
        {
          var s := sigs.keys[k];
          if signalName == message + "_" + s {
            assert Names(messages, signalName, message, s);
            return Some(sigs.entries[s]);
          }
        }
      }
      forall s | s in sigs.entries
        ensures signalName != message + "_" + s
      {
        JoinedStartsWith(message, "_", s);
        var k' :| 0 <= k' < |sigs.keys| && sigs.keys[k'] == s;
      }
    }
    forall m, s | m in messages.entries
      ensures !Names(messages, signalName, m, s)
    {
      var j :| 0 <= j < |messages.keys| && messages.keys[j] == m;
      assert !HasMatch(messages, signalName, m);
    }
    return None;
  }

  /** dbc_signal.convert_to_test_spec_signal */
  function ToTestSpecSignal(d: DbcSignal): (s: Signal)
    ensures s.name == d.name && s.parent == d.parent && s.source == d.source && s.value == 0.0
    ensures s.sourceType == SignalSource.Dbc && s.origin == DbcOrigin(d)
    ensures s.direction == Direction.Both <==> d.messageType == MessageType.Input
    ensures s.direction in {Direction.Both, Direction.Outout}
  {
    var direction := if d.messageType == MessageType.Input then Direction.Both else Direction.Outout;
    Signal(d.name, d.parent, SignalSource.Dbc, d.source, direction, 0.0, DbcOrigin(d))
  }
}
