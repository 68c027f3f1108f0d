/** A BTHome v2 device: it tells plaintext from encrypted service data by
    bit 0 of the first byte, prepares an encrypted payload for AES-128-CCM
    (key check, length check, split into ciphertext, counter and tag, replay
    check, 13-byte nonce), walks the object records of the plaintext into a
    sparse reading, and keeps the last reading it decoded. */
module BTHome {
  import opened Buffers

  /** The BTHome service UUID 0xFCD2, most significant byte first. */
  const UUID: seq<byte> := [0xFC, 0xD2]

  /** The service UUID in little-endian order, as it goes into the nonce. */
  const UUID_LE: seq<byte> := [UUID[1], UUID[0]]

  /** The largest value a 32-bit counter can hold. */
  const MAX_COUNTER_VALUE: int := 4294967295

  /** A decoded reading; a field is present only when the payload set it. */
  datatype SensorData = SensorData(
    id: Option<int>,
    counter: Option<int>,
    temperature: Option<real>,
    humidity: Option<real>,
    battery: Option<int>)

  const NoData: SensorData := SensorData(None, None, None, None, None)

  /** What a decode can throw: `OutOfRange` is the RangeError of a buffer
      read past the end; the other four are the decryption errors. */
  datatype DecodeError = OutOfRange | MissingKey | InvalidPayload | ReplayedCounter | DecryptionFailed

  /** How a decode ends. `Stuck(code)` stands for the source's endless loop
      on an object type it does not know: its offset no longer moves. */
  datatype Outcome<T> = Done(value: T) | Thrown(error: DecodeError) | Stuck(code: byte)

  /** AES-128-CCM with a 4-byte tag, applied to (key, nonce, ciphertext,
      tag): the plaintext, or nothing when the library throws (wrong key
      length, wrong nonce length, a tag that does not authenticate). */
  type Cipher = (seq<byte>, seq<byte>, seq<byte>, seq<byte>) -> Option<seq<byte>>

  /// Object records

  /** Total width, type byte included, of each record type the walker knows. */
  function ObjectWidth(code: byte): (w: Option<nat>)
    ensures w.Some? <==> code in {0x00, 0x01, 0x02, 0x03, 0x2E, 0x45, 0x57, 0x58}
    ensures w == Some(2) <==> code in {0x00, 0x01, 0x57, 0x58, 0x2E}
    ensures w == Some(3) <==> code in {0x02, 0x45, 0x03}
  {
    if code in {0x00, 0x01, 0x57, 0x58, 0x2E} then Some(2)
    else if code in {0x02, 0x45, 0x03} then Some(3)
    else None
  }

  /** The value one record carries, tagged with the field it sets. */
  datatype Reading =
    | IdReading(id: int)
    | BatteryReading(percent: int)
    | TemperatureReading(celsius: real)
    | HumidityReading(relative: real)

  datatype Field = IdField | BatteryField | TemperatureField | HumidityField

  function FieldOf(rd: Reading): (f: Field) {
    match rd
    case IdReading(_) => IdField
    case BatteryReading(_) => BatteryField
    case TemperatureReading(_) => TemperatureField
    case HumidityReading(_) => HumidityField
  }

  /** The value of a record with type `code` and value bytes `value`. The
      scalings are exact here; type 0x58 divides by 0.35 as the source does. */
  function DecodeObject(code: byte, value: seq<byte>): (r: Reading)
    requires ObjectWidth(code) == Some(|value| + 1)
    ensures FieldOf(r) == IdField <==> code == 0x00
    ensures FieldOf(r) == BatteryField <==> code == 0x01
    ensures FieldOf(r) == TemperatureField <==> code in {0x02, 0x45, 0x58, 0x57}
    ensures FieldOf(r) == HumidityField <==> code in {0x03, 0x2E}
    ensures r.IdReading? ==> 0 <= r.id < 0x100
    ensures r.BatteryReading? ==> 0 <= r.percent < 0x100
  {
    if code == 0x00 then IdReading(value[0])
    else if code == 0x01 then BatteryReading(value[0])
    else if code == 0x02 then TemperatureReading(S16LE(value[0], value[1]) as real / 100.0)
    else if code == 0x45 then TemperatureReading(S16LE(value[0], value[1]) as real / 10.0)
    else if code == 0x58 then TemperatureReading((S8(value[0]) * 100) as real / 35.0)
    else if code == 0x57 then TemperatureReading(S8(value[0]) as real)
    else if code == 0x03 then HumidityReading(U16LE(value[0], value[1]) as real / 100.0)
    else HumidityReading(value[0] as real)
  }

  /** The reading a result holds for field `f`, if it has one. */
  function Lookup(r: SensorData, f: Field): (rd: Option<Reading>) {
    match f
    case IdField => if r.id.Some? then Some(IdReading(r.id.value)) else None
    case BatteryField => if r.battery.Some? then Some(BatteryReading(r.battery.value)) else None
    case TemperatureField => if r.temperature.Some? then Some(TemperatureReading(r.temperature.value)) else None
    case HumidityField => if r.humidity.Some? then Some(HumidityReading(r.humidity.value)) else None
  }

  /** Writing one record's value into the result: its own field is
      overwritten and every other field, the counter among them, is kept. */
  function Store(acc: SensorData, rd: Reading): (r: SensorData)
    ensures Lookup(r, FieldOf(rd)) == Some(rd)
    ensures forall f :: f != FieldOf(rd) ==> Lookup(r, f) == Lookup(acc, f)
    ensures r.counter == acc.counter
  {
    match rd
    case IdReading(i) => acc.(id := Some(i))
    case BatteryReading(b) => acc.(battery := Some(b))
    case TemperatureReading(t) => acc.(temperature := Some(t))
    case HumidityReading(h) => acc.(humidity := Some(h))
  }

  /** The walk over the object bytes from the current offset on, `acc`
      being the result built so far. */
  function WalkObjects(data: seq<byte>, acc: SensorData): (r: Outcome<SensorData>)
    decreases |data|
    ensures r.Done? ==> r.value.counter == acc.counter
    ensures r.Thrown? ==> r.error == OutOfRange
    ensures r.Stuck? ==> ObjectWidth(r.code).None?
  {
    if data == [] then Done(acc)
    else match ObjectWidth(data[0])
      case None => Stuck(data[0])
      case Some(w) =>
        if |data| < w then Thrown(OutOfRange)
        else WalkObjects(data[w..], Store(acc, DecodeObject(data[0], data[1..w])))
  }

  /** One pass of the loop's switch at `offset`: either the walk goes on
      from a new offset with a new result, or it ends with `outcome`. */
  datatype Step = Advance(offset: nat, result: SensorData) | Halt(outcome: Outcome<SensorData>)

  function StepAt(data: seq<byte>, offset: nat, acc: SensorData): (s: Step)
    requires offset < |data|
  {
    match ObjectWidth(data[offset])
    case None => Halt(Stuck(data[offset]))
    case Some(w) =>
      if offset + w > |data| then Halt(Thrown(OutOfRange))
      else Advance(offset + w, Store(acc, DecodeObject(data[offset], data[offset + 1..offset + w])))
  }

  /** The walk from `offset` is the walk from where one step leads. */
  lemma WalkAt(data: seq<byte>, offset: nat, acc: SensorData)
    requires offset < |data|
    ensures match StepAt(data, offset, acc)
            case Advance(next, r) => next <= |data| && WalkObjects(data[offset..], acc) == WalkObjects(data[next..], r)
            case Halt(outcome) => WalkObjects(data[offset..], acc) == outcome
  {
  }

  /** The value of the record at `offset`, in terms of the bytes after its type byte. */
  lemma ObjectAt(data: seq<byte>, offset: nat)
    requires offset < |data| && ObjectWidth(data[offset]).Some?
    requires offset + ObjectWidth(data[offset]).value <= |data|
    ensures var code := data[offset];
      DecodeObject(code, data[offset + 1..offset + ObjectWidth(code).value])
      == if code == 0x00 then IdReading(data[offset + 1])
         else if code == 0x01 then BatteryReading(data[offset + 1])
         else if code == 0x02 then TemperatureReading(S16LE(data[offset + 1], data[offset + 2]) as real / 100.0)
         else if code == 0x45 then TemperatureReading(S16LE(data[offset + 1], data[offset + 2]) as real / 10.0)
         else if code == 0x58 then TemperatureReading((S8(data[offset + 1]) * 100) as real / 35.0)
         else if code == 0x57 then TemperatureReading(S8(data[offset + 1]) as real)
         else if code == 0x03 then HumidityReading(U16LE(data[offset + 1], data[offset + 2]) as real / 100.0)
         else HumidityReading(data[offset + 1] as real)
  {
  }

  /** `decodeSensorData`: a loop over an offset that overwrites one field
      of its result per record. */
  method DecodeSensorData(data: seq<byte>) returns (r: Outcome<SensorData>)
    ensures r == WalkObjects(data, NoData)
  {
    var result := NoData;
    var offset := 0;
    while offset < |data|
      invariant 0 <= offset <= |data|
      invariant WalkObjects(data[offset..], result) == WalkObjects(data, NoData)
      decreases |data| - offset
    {
      var code := data[offset];
      WalkAt(data, offset, result);
      ghost var step := StepAt(data, offset, result);
      if ObjectWidth(code).Some? && offset + ObjectWidth(code).value <= |data| {
        ObjectAt(data, offset);
      }
      match code {
        case 0x00 =>
          var v := ReadU8(data, offset + 1);
          if v.None? { return Thrown(OutOfRange); }
          result := result.(id := Some(v.value));
          offset := offset + 2;
        case 0x01 =>
          var v := ReadU8(data, offset + 1);
          if v.None? { return Thrown(OutOfRange); }
          result := result.(battery := Some(v.value));
          offset := offset + 2;
        case 0x02 =>
          var v := ReadS16LE(data, offset + 1);
          if v.None? { return Thrown(OutOfRange); }
          result := result.(temperature := Some(v.value as real / 100.0));
          offset := offset + 3;
        case 0x45 =>
          var v := ReadS16LE(data, offset + 1);
          if v.None? { return Thrown(OutOfRange); }
          result := result.(temperature := Some(v.value as real / 10.0));
          offset := offset + 3;
        case 0x58 =>
          var v := ReadS8(data, offset + 1);
          if v.None? { return Thrown(OutOfRange); }
          result := result.(temperature := Some((v.value * 100) as real / 35.0));
          offset := offset + 2;
        case 0x57 =>
          var v := ReadS8(data, offset + 1);
          if v.None? { return Thrown(OutOfRange); }
          result := result.(temperature := Some(v.value as real));
          offset := offset + 2;
        case 0x03 =>
          var v := ReadU16LE(data, offset + 1);
          if v.None? { return Thrown(OutOfRange); }
          result := result.(humidity := Some(v.value as real / 100.0));
          offset := offset + 3;
        case 0x2E =>
          var v := ReadU8(data, offset + 1);
          if v.None? { return Thrown(OutOfRange); }
          result := result.(humidity := Some(v.value as real));
          offset := offset + 2;
        case _ =>
          return Stuck(code);
      }
      assert step == Advance(offset, result);
    }
    return Done(result);
  }

  /// A reference description of well-formed object streams

  /** One object record: its type byte and its value bytes. */
  datatype SensorObject = SensorObject(code: byte, value: seq<byte>)

  predicate WellFormedObject(o: SensorObject) {
    ObjectWidth(o.code) == Some(|o.value| + 1)
  }

  predicate WellFormedObjects(objs: seq<SensorObject>) {
    forall i :: 0 <= i < |objs| ==> WellFormedObject(objs[i])
  }

  function ObjectReading(o: SensorObject): (rd: Reading)
    requires WellFormedObject(o)
  {
    DecodeObject(o.code, o.value)
  }

  function EncodeObjects(objs: seq<SensorObject>): (r: seq<byte>)
    requires WellFormedObjects(objs)
  {
    if objs == [] then [] else [objs[0].code] + objs[0].value + EncodeObjects(objs[1..])
  }

  /** Applying the records in order, first to last. */
  function ApplyAll(objs: seq<SensorObject>, acc: SensorData): (r: SensorData)
    requires WellFormedObjects(objs)
  {
    if objs == [] then acc else ApplyAll(objs[1..], Store(acc, ObjectReading(objs[0])))
  }

  /** The reading of the last record that sets field `f`, or `none` when
      no record sets it. */
  function LastReading(objs: seq<SensorObject>, f: Field, none: Option<Reading>): (r: Option<Reading>)
    requires WellFormedObjects(objs)
  {
    if objs == [] then none
    else if FieldOf(ObjectReading(objs[|objs| - 1])) == f then Some(ObjectReading(objs[|objs| - 1]))
    else LastReading(objs[..|objs| - 1], f, none)
  }

  lemma {:induction false} LastReadingCons(o: SensorObject, objs: seq<SensorObject>, f: Field, none: Option<Reading>)
    requires WellFormedObject(o) && WellFormedObjects(objs)
    ensures WellFormedObjects([o] + objs)
    ensures LastReading([o] + objs, f, none) == LastReading(objs, f, LastReading([o], f, none))
    decreases |objs|
  {
    assert WellFormedObjects([o] + objs) by {
      forall i | 0 <= i < |[o] + objs| ensures WellFormedObject(([o] + objs)[i]) {
        if i > 0 { assert ([o] + objs)[i] == objs[i - 1]; }
      }
    }
    assert [o][..0] == [];
    if objs != [] {
      var n := |objs|;
      assert ([o] + objs)[..n] == [o] + objs[..n - 1];
      assert ([o] + objs)[n] == objs[n - 1];
      if FieldOf(ObjectReading(objs[n - 1])) != f {
        LastReadingCons(o, objs[..n - 1], f, none);
      }
    }
  }

  /** A field no record sets keeps its starting value: absent when decoding
      starts from an empty result. */
  lemma {:induction false} LastReadingUnset(objs: seq<SensorObject>, f: Field, none: Option<Reading>)
    requires WellFormedObjects(objs)
    requires forall i :: 0 <= i < |objs| ==> FieldOf(ObjectReading(objs[i])) != f
    ensures LastReading(objs, f, none) == none
  {
    if objs != [] {
      LastReadingUnset(objs[..|objs| - 1], f, none);
    }
  }

  /** After all records are applied, each field holds the value of the last
      record that sets it, and the counter is untouched. */
  lemma {:induction false} ApplyAllFields(objs: seq<SensorObject>, acc: SensorData)
    requires WellFormedObjects(objs)
    ensures forall f :: Lookup(ApplyAll(objs, acc), f) == LastReading(objs, f, Lookup(acc, f))
    ensures ApplyAll(objs, acc).counter == acc.counter
  {
    if objs != [] {
      var o := objs[0];
      var next := Store(acc, ObjectReading(o));
      ApplyAllFields(objs[1..], next);
      assert objs == [o] + objs[1..];
      assert [o][..0] == [];
      forall f ensures Lookup(ApplyAll(objs, acc), f) == LastReading(objs, f, Lookup(acc, f)) {
        LastReadingCons(o, objs[1..], f, Lookup(acc, f));
      }
    }
  }

  /** Walking well-formed records then a tail is walking the tail from the
      result of the records. */
  lemma {:induction false} WalkEncoded(objs: seq<SensorObject>, tail: seq<byte>, acc: SensorData)
    requires WellFormedObjects(objs)
    ensures WalkObjects(EncodeObjects(objs) + tail, acc) == WalkObjects(tail, ApplyAll(objs, acc))
  {
    if objs == [] {
      assert EncodeObjects(objs) + tail == tail;
    } else {
      var o := objs[0];
      var w := |o.value| + 1;
      var rest := EncodeObjects(objs[1..]) + tail;
      var data := EncodeObjects(objs) + tail;
      assert data == [o.code] + o.value + rest;
      assert data[0] == o.code && data[1..w] == o.value && data[w..] == rest;
      WalkEncoded(objs[1..], tail, Store(acc, ObjectReading(o)));
    }
  }

  /** Well-formed records decode without error to the result of applying
      them, whose fields come from the last record that sets each. */
  lemma DecodeEncodedObjects(objs: seq<SensorObject>)
    requires WellFormedObjects(objs)
    ensures WalkObjects(EncodeObjects(objs), NoData) == Done(ApplyAll(objs, NoData))
    ensures forall f :: Lookup(ApplyAll(objs, NoData), f) == LastReading(objs, f, None)
    ensures ApplyAll(objs, NoData).counter == None
  {
    assert EncodeObjects(objs) + [] == EncodeObjects(objs);
    WalkEncoded(objs, [], NoData);
    ApplyAllFields(objs, NoData);
    forall f ensures Lookup(NoData, f) == None { }
  }

  /** The records a walk that ends normally has consumed: the parse
      behind `WalkDoneParses`. */
  lemma {:induction false} ParseWalk(data: seq<byte>, acc: SensorData) returns (objs: seq<SensorObject>)
    requires WalkObjects(data, acc).Done?
    ensures WellFormedObjects(objs) && EncodeObjects(objs) == data
    ensures WalkObjects(data, acc) == Done(ApplyAll(objs, acc))
    decreases |data|
  {
    if data == [] {
      objs := [];
    } else {
      var o := ObjectStep(data, acc);
      var w := |o.value| + 1;
      var rest := ParseWalk(data[w..], Store(acc, ObjectReading(o)));
      objs := ConsObject(o, rest, acc);
      assert data == [o.code] + o.value + data[w..];
    }
  }

  /** The record at the front of a walk that goes on, and the walk past it. */
  lemma ObjectStep(data: seq<byte>, acc: SensorData) returns (o: SensorObject)
    requires data != [] && WalkObjects(data, acc).Done?
    ensures WellFormedObject(o) && |o.value| + 1 <= |data|
    ensures data[..|o.value| + 1] == [o.code] + o.value
    ensures WalkObjects(data, acc) == WalkObjects(data[|o.value| + 1..], Store(acc, ObjectReading(o)))
  {
    var w := ObjectWidth(data[0]).value;
    o := SensorObject(data[0], data[1..w]);
    assert data[..w] == [data[0]] + data[1..w];
  }

  /** Putting one more record in front of a parsed stream. */
  lemma ConsObject(o: SensorObject, rest: seq<SensorObject>, acc: SensorData) returns (objs: seq<SensorObject>)
    requires WellFormedObject(o) && WellFormedObjects(rest)
    ensures objs == [o] + rest && WellFormedObjects(objs)
    ensures EncodeObjects(objs) == [o.code] + o.value + EncodeObjects(rest)
    ensures ApplyAll(objs, acc) == ApplyAll(rest, Store(acc, ObjectReading(o)))
  {
    objs := [o] + rest;
    assert objs[0] == o && objs[1..] == rest;
    assert WellFormedObjects(objs) by {
      forall i | 0 <= i < |objs| ensures WellFormedObject(objs[i]) {
        if i > 0 { assert objs[i] == rest[i - 1]; }
      }
    }
  }

  /** Conversely, every walk that ends normally consumed a sequence of
      well-formed records and nothing else. */
  lemma WalkDoneParses(data: seq<byte>, acc: SensorData)
    requires WalkObjects(data, acc).Done?
    ensures exists objs :: WellFormedObjects(objs) && EncodeObjects(objs) == data
                        && WalkObjects(data, acc) == Done(ApplyAll(objs, acc))
  {
    var objs := ParseWalk(data, acc);
  }

  /** An unknown type after well-formed records is where the walk stops
      making progress. */
  lemma UnknownObjectStuck(objs: seq<SensorObject>, code: byte, rest: seq<byte>, acc: SensorData)
    requires WellFormedObjects(objs) && ObjectWidth(code).None?
    ensures WalkObjects(EncodeObjects(objs) + [code] + rest, acc) == Stuck(code)
  {
    assert EncodeObjects(objs) + [code] + rest == EncodeObjects(objs) + ([code] + rest);
    WalkEncoded(objs, [code] + rest, acc);
  }

  /** A known record whose value bytes run past the end makes the read throw,
      whatever the records before it set. */
  lemma TruncatedObject(objs: seq<SensorObject>, code: byte, short: seq<byte>, acc: SensorData)
    requires WellFormedObjects(objs) && ObjectWidth(code).Some?
    requires |short| + 1 < ObjectWidth(code).value
    ensures WalkObjects(EncodeObjects(objs) + [code] + short, acc) == Thrown(OutOfRange)
  {
    assert EncodeObjects(objs) + [code] + short == EncodeObjects(objs) + ([code] + short);
    WalkEncoded(objs, [code] + short, acc);
  }

  /** The value of each record type, in terms of the number its bytes encode. */
  lemma ObjectValues(b: byte, s16: int, u16: nat, s8: int)
    requires -0x8000 <= s16 < 0x8000 && u16 < 0x1_0000 && -0x80 <= s8 < 0x80
    ensures DecodeObject(0x00, [b]) == IdReading(b)
    ensures DecodeObject(0x01, [b]) == BatteryReading(b)
    ensures DecodeObject(0x02, EncodeS16LE(s16)) == TemperatureReading(s16 as real / 100.0)
    ensures DecodeObject(0x45, EncodeS16LE(s16)) == TemperatureReading(s16 as real / 10.0)
    ensures DecodeObject(0x58, [EncodeS8(s8)]) == TemperatureReading(s8 as real * 100.0 / 35.0)
    ensures DecodeObject(0x57, [EncodeS8(s8)]) == TemperatureReading(s8 as real)
    ensures DecodeObject(0x03, EncodeU16LE(u16)) == HumidityReading(u16 as real / 100.0)
    ensures DecodeObject(0x2E, [b]) == HumidityReading(b as real)
  {
    S16LEOfEncode(s16);
    U16LEOfEncode(u16);
    S8OfEncode(s8);
  }

  /** Worked examples: 2.28 degrees from type 0x02, 90 % battery from type
      0x01, and type 0x58 with raw value 35, which comes out as 100 degrees
      (35 / 0.35) where the BTHome object table gives 35 * 0.35 = 12.25. */
  lemma ObjectExamples()
    ensures WalkObjects([0x02, 0xE4, 0x00], NoData) == Done(NoData.(temperature := Some(2.28)))
    ensures WalkObjects([0x01, 0x5A], NoData) == Done(NoData.(battery := Some(90)))
    ensures WalkObjects([0x58, 0x23], NoData) == Done(NoData.(temperature := Some(100.0)))
    ensures WalkObjects([0x01, 0x5A, 0xFF], NoData) == Stuck(0xFF)
  {
    var d1: seq<byte> := [0x02, 0xE4, 0x00];
    assert d1[3..] == [] && d1[1..3] == [0xE4, 0x00];
    var d2: seq<byte> := [0x01, 0x5A];
    assert d2[2..] == [] && d2[1..2] == [0x5A];
    var d3: seq<byte> := [0x58, 0x23];
    assert d3[2..] == [] && d3[1..2] == [0x23];
    var d4: seq<byte> := [0x01, 0x5A, 0xFF];
    assert d4[2..] == [0xFF] && d4[1..2] == [0x5A];
  }

  /// Type 0x58 as the BTHome object table defines it

  /** A record's value with type 0x58 scaled as the BTHome v2 object table
      says (signed byte, factor 0.35); every other type as the walker
      decodes it. */
  function DecodeObjectIntended(code: byte, value: seq<byte>): (r: Reading)
    requires ObjectWidth(code) == Some(|value| + 1)
    ensures code != 0x58 ==> r == DecodeObject(code, value)
    ensures code == 0x58 ==> r.TemperatureReading? && r.celsius / 0.35 == S8(value[0]) as real
  {
    if code == 0x58 then TemperatureReading(S8(value[0]) as real * 0.35)
    else DecodeObject(code, value)
  }

  /** The walker's type 0x58 applies the factor the other way round: the
      raw value is the temperature times 0.35, not divided by it. The two
      agree only on a raw value of 0; raw 35 gives 100 degrees, not 12.25. */
  lemma Temperature58Discrepancy(s8: int)
    requires -0x80 <= s8 < 0x80
    ensures DecodeObject(0x58, [EncodeS8(s8)]).celsius * 0.35 == s8 as real
    ensures DecodeObject(0x58, [EncodeS8(s8)]) == DecodeObjectIntended(0x58, [EncodeS8(s8)]) <==> s8 == 0
    ensures s8 == 35 ==> DecodeObject(0x58, [EncodeS8(s8)]) == TemperatureReading(100.0)
    ensures s8 == 35 ==> DecodeObjectIntended(0x58, [EncodeS8(s8)]) == TemperatureReading(12.25)
  {
    S8OfEncode(s8);
    var x := s8 as real;
    assert DecodeObject(0x58, [EncodeS8(s8)]).celsius == x * 100.0 / 35.0;
    assert DecodeObjectIntended(0x58, [EncodeS8(s8)]).celsius == x * 0.35;
    assert x * 100.0 / 35.0 - x * 0.35 == x * (100.0 / 35.0 - 0.35);
  }

  /// Encrypted payloads

  /** Bit 0 of the flags byte marks an encrypted payload. */
  function IsEncrypted(flags: byte): (e: bool)
    ensures e <==> (flags as bv8) & 1 != 0
  {
    flags % 2 == 1
  }

  /** The stored counter the replay rule compares against: an absent
      reading, an absent counter and a counter of 0 all count as -1. */
  function PreviousCounter(last: Option<SensorData>): (p: int)
    ensures p != 0
    ensures p != -1 ==> last.Some? && last.value.counter == Some(p)
    ensures last.Some? && last.value.counter.Some? && last.value.counter.value != 0
            ==> p == last.value.counter.value
  {
    if last.Some? && last.value.counter.Some? && last.value.counter.value != 0
    then last.value.counter.value
    else -1
  }

  /** A counter below the stored one is a replay, unless the stored one is
      the largest 32-bit value. */
  function IsReplay(previous: int, next: int): (r: bool)
    ensures r ==> next < previous
    ensures previous >= MAX_COUNTER_VALUE ==> !r
    ensures previous < MAX_COUNTER_VALUE && next < previous ==> r
  {
    previous < MAX_COUNTER_VALUE && next < previous
  }

  /** The constants: the UUID bytes reversed, and the counter limit is the
      value of four 0xFF bytes, the largest a 32-bit counter read gives. */
  lemma ConstantValues()
    ensures UUID_LE == [0xD2, 0xFC]
    ensures U32LE([0xFF, 0xFF, 0xFF, 0xFF]) == MAX_COUNTER_VALUE
    ensures forall b: seq<byte> :: |b| == 4 ==> U32LE(b) <= MAX_COUNTER_VALUE
  {
  }

  /** The replay rule in terms of the stored reading: only a present,
      non-maximal counter can reject, and only a strictly smaller one. */
  lemma ReplayRule(last: Option<SensorData>, next: nat)
    ensures IsReplay(PreviousCounter(last), next)
        <==> last.Some? && last.value.counter.Some?
             && next < last.value.counter.value < MAX_COUNTER_VALUE
  {
  }

  /** The CCM nonce: MAC, service UUID little-endian, flags, counter bytes. */
  function Nonce(mac: seq<byte>, flags: byte, counter: seq<byte>): (n: seq<byte>)
    ensures |n| == |mac| + 3 + |counter|
    ensures n[..|mac|] == mac && n[|mac| + 3..] == counter
  {
    mac + UUID_LE + [flags] + counter
  }

  lemma NonceLayout(mac: seq<byte>, flags: byte, counter: seq<byte>)
    requires |mac| == 6 && |counter| == 4
    ensures var n := Nonce(mac, flags, counter);
      |n| == 13 && n[..6] == mac && n[6..8] == [0xD2, 0xFC] && n[8] == flags && n[9..] == counter
  {
    var n := Nonce(mac, flags, counter);
    assert n == mac + [0xD2, 0xFC] + [flags] + counter;
  }

  /** The counter field of an encrypted payload of length `n`: bytes
      `n - 8` to `n - 4`. */
  function CounterBytes(payload: seq<byte>): (b: seq<byte>)
    requires |payload| >= 10
    ensures |b| == 4
  {
    payload[|payload| - 8..|payload| - 4]
  }

  datatype Decryption = Decryption(data: seq<byte>, counter: nat)

  /** `decryptPayload`: the checks in the source's order, then the cipher. */
  function DecryptPayload(mac: seq<byte>, key: Option<seq<byte>>, last: Option<SensorData>,
                          flags: byte, payload: seq<byte>, cipher: Cipher): (r: Outcome<Decryption>)
    ensures !r.Stuck?
    ensures key.None? ==> r == Thrown(MissingKey)
    ensures key.Some? && |payload| < 10 ==> r == Thrown(InvalidPayload)
    ensures r.Done? ==> |payload| >= 10 && r.value.counter == U32LE(CounterBytes(payload))
    ensures r == Thrown(ReplayedCounter) <==>
      key.Some? && |payload| >= 10 && IsReplay(PreviousCounter(last), U32LE(CounterBytes(payload)))
    ensures r == Thrown(DecryptionFailed) <==>
      key.Some? && |payload| >= 10 && !IsReplay(PreviousCounter(last), U32LE(CounterBytes(payload)))
      && cipher(key.value, Nonce(mac, flags, CounterBytes(payload)),
                payload[1..|payload| - 8], payload[|payload| - 4..]).None?
  {
    if key.None? then Thrown(MissingKey)
    else if |payload| < 10 then Thrown(InvalidPayload)
    else
      var n := |payload|;
      var cipherText := payload[1..n - 8];
      var counter := payload[n - 8..n - 4];
      var mic := payload[n - 4..];
      var newCounter := U32LE(counter);
      if IsReplay(PreviousCounter(last), newCounter) then Thrown(ReplayedCounter)
      else match cipher(key.value, Nonce(mac, flags, counter), cipherText, mic)
        case None => Thrown(DecryptionFailed)
        case Some(plain) => Done(Decryption(plain, newCounter))
  }

  /** The wire layout of an encrypted payload: flags, ciphertext, the
      counter little-endian, the 4-byte tag. */
  function EncryptedPayload(flags: byte, cipherText: seq<byte>, counter: nat, tag: seq<byte>): (p: seq<byte>)
    requires counter < 0x1_0000_0000
  {
    [flags] + cipherText + EncodeU32LE(counter) + tag
  }

  /** Splitting recovers the parts of the layout exactly: the cipher sees
      the ciphertext, the tag and a nonce with the counter bytes, and the
      counter returned is the one encoded. */
  lemma DecryptEncryptedPayload(mac: seq<byte>, key: seq<byte>, last: Option<SensorData>, flags: byte,
                                cipherText: seq<byte>, counter: nat, tag: seq<byte>, cipher: Cipher)
    requires counter < 0x1_0000_0000 && |tag| == 4
    ensures DecryptPayload(mac, Some(key), last, flags, EncryptedPayload(flags, cipherText, counter, tag), cipher)
      == if cipherText == [] then Thrown(InvalidPayload)
         else if IsReplay(PreviousCounter(last), counter) then Thrown(ReplayedCounter)
         else match cipher(key, Nonce(mac, flags, EncodeU32LE(counter)), cipherText, tag)
           case None => Thrown(DecryptionFailed)
           case Some(plain) => Done(Decryption(plain, counter))
  {
    var p := EncryptedPayload(flags, cipherText, counter, tag);
    var n := |p|;
    assert n == |cipherText| + 9;
    if cipherText != [] {
      assert p[1..n - 8] == cipherText;
      assert p[n - 8..n - 4] == EncodeU32LE(counter);
      assert p[n - 4..] == tag;
      U32LEOfEncode(counter);
    }
  }

  /// Whole payloads

  /** `decodePayload`: what decoding one service-data payload yields, given
      the device's MAC and key, the stored reading and the cipher. */
  function PayloadOutcome(mac: seq<byte>, key: Option<seq<byte>>, last: Option<SensorData>,
                          payload: seq<byte>, cipher: Cipher): (r: Outcome<SensorData>)
    ensures |payload| == 0 ==> r == Thrown(OutOfRange)
    ensures |payload| > 0 && IsEncrypted(payload[0]) && key.None? ==> r == Thrown(MissingKey)
    ensures r.Done? && !IsEncrypted(payload[0]) ==> r.value.counter == None
    ensures r.Done? && IsEncrypted(payload[0]) ==>
      |payload| >= 10 && key.Some? && r.value.counter == Some(U32LE(CounterBytes(payload)))
  {
    if |payload| == 0 then Thrown(OutOfRange)
    else if IsEncrypted(payload[0]) then
      match DecryptPayload(mac, key, last, payload[0], payload, cipher)
      case Done(d) =>
        (match WalkObjects(d.data, NoData)
         case Done(s) => Done(s.(counter := Some(d.counter)))
         case Thrown(e) => Thrown(e)
         case Stuck(c) => Stuck(c))
      case Thrown(e) => Thrown(e)
      case Stuck(c) => Stuck(c)
    else WalkObjects(payload[1..], NoData)
  }

  /** An encrypted payload that passes the key, length and replay checks
      decodes as the walk of whatever plaintext the cipher returns for its
      ciphertext, nonce and tag, with the payload's counter added; the
      cipher's refusal is `DecryptionFailed`. */
  lemma EncryptedPayloadDecodes(mac: seq<byte>, key: seq<byte>, last: Option<SensorData>,
                                payload: seq<byte>, cipher: Cipher)
    requires |payload| >= 10 && IsEncrypted(payload[0])
    requires !IsReplay(PreviousCounter(last), U32LE(CounterBytes(payload)))
    ensures var n := |payload|;
      var counter := U32LE(CounterBytes(payload));
      var r := PayloadOutcome(mac, Some(key), last, payload, cipher);
      match cipher(key, Nonce(mac, payload[0], CounterBytes(payload)), payload[1..n - 8], payload[n - 4..])
      case None => r == Thrown(DecryptionFailed)
      case Some(plain) =>
        r == match WalkObjects(plain, NoData)
             case Done(s) => Done(s.(counter := Some(counter)))
             case Thrown(e) => Thrown(e)
             case Stuck(c) => Stuck(c)
  {
  }

  /** A plaintext payload decodes from byte 1 on, whatever the key, the
      stored reading or the cipher. */
  lemma PlaintextIgnoresState(mac: seq<byte>, key: Option<seq<byte>>, last: Option<SensorData>, cipher: Cipher,
                              mac': seq<byte>, key': Option<seq<byte>>, last': Option<SensorData>, cipher': Cipher,
                              payload: seq<byte>)
    requires |payload| > 0 && !IsEncrypted(payload[0])
    ensures PayloadOutcome(mac, key, last, payload, cipher) == PayloadOutcome(mac', key', last', payload, cipher')
    ensures PayloadOutcome(mac, key, last, payload, cipher) == WalkObjects(payload[1..], NoData)
  {
  }

  /** Once an encrypted payload with counter c1 is accepted and stored, a
      later encrypted payload with counter c2 is rejected as a replay
      exactly when c2 < c1 and c1 is not the largest 32-bit value. */
  lemma ReplayAfterAccepted(mac: seq<byte>, key: Option<seq<byte>>, last: Option<SensorData>,
                            p1: seq<byte>, p2: seq<byte>, cipher: Cipher)
    requires |p1| > 0 && IsEncrypted(p1[0]) && PayloadOutcome(mac, key, last, p1, cipher).Done?
    requires |p2| >= 10 && IsEncrypted(p2[0])
    ensures var stored := PayloadOutcome(mac, key, last, p1, cipher).value;
      PayloadOutcome(mac, key, Some(stored), p2, cipher) == Thrown(ReplayedCounter)
      <==> U32LE(CounterBytes(p2)) < U32LE(CounterBytes(p1)) < MAX_COUNTER_VALUE
  {
  }

  /** A plaintext reading carries no counter, so storing it clears the
      replay baseline: no encrypted payload after it is a replay. */
  lemma PlaintextClearsBaseline(mac: seq<byte>, key: Option<seq<byte>>, last: Option<SensorData>,
                                p1: seq<byte>, p2: seq<byte>, cipher: Cipher)
    requires |p1| > 0 && !IsEncrypted(p1[0]) && PayloadOutcome(mac, key, last, p1, cipher).Done?
    ensures var stored := PayloadOutcome(mac, key, last, p1, cipher).value;
      PayloadOutcome(mac, key, Some(stored), p2, cipher) != Thrown(ReplayedCounter)
  {
  }

  /// Configuration

  /** `mac.replaceAll(':', '')`. */
  function StripColons(s: string): (r: string)
    ensures forall i :: 0 <= i < |r| ==> r[i] != ':'
    ensures forall c :: c != ':' ==> multiset(r)[c] == multiset(s)[c]
  {
    if s == [] then []
    else
      assert s == [s[0]] + s[1..];
      (if s[0] == ':' then [] else [s[0]]) + StripColons(s[1..])
  }

  lemma {:induction false} StripColonsWithoutColons(s: string)
    requires forall i :: 0 <= i < |s| ==> s[i] != ':'
    ensures StripColons(s) == s
  {
    if s != [] {
      StripColonsWithoutColons(s[1..]);
      assert s == [s[0]] + s[1..];
    }
  }

  /** The key is the hex decoding of the key text, and an absent or empty
      key text configures no key. */
  function ConfiguredKey(keyText: Option<string>, hex: string -> seq<byte>): (k: Option<seq<byte>>)
    ensures k.Some? <==> keyText.Some? && |keyText.value| > 0
    ensures k.Some? ==> k.value == hex(keyText.value)
  {
    if keyText.Some? && |keyText.value| > 0 then Some(hex(keyText.value)) else None
  }

  /** Stripping works piece by piece, so the characters it keeps stay in
      their order. */
  lemma {:induction false} StripColonsAppend(a: string, b: string)
    ensures StripColons(a + b) == StripColons(a) + StripColons(b)
  {
    if a != [] {
      assert (a + b)[0] == a[0] && (a + b)[1..] == a[1..] + b;
      StripColonsAppend(a[1..], b);
    } else {
      assert a + b == b;
    }
  }

  /** A colon is dropped, and any other character is kept. */
  lemma StripColonsOne(c: char)
    ensures StripColons([c]) == if c == ':' then [] else [c]
  {
    assert [c][1..] == [];
  }

  /** A colon-separated MAC text loses exactly its colons:
      "aa:bb" becomes "aabb". */
  lemma StripColonsExample()
    ensures StripColons("aa:bb") == "aabb"
  {
    StripColonsAppend("aa", ":bb");
    StripColonsAppend(":", "bb");
    StripColonsOne(':');
    StripColonsWithoutColons("aa");
    StripColonsWithoutColons("bb");
  }

  /// The device

  class BTHomeDevice {
    const mac: seq<byte>
    const encryptionKey: Option<seq<byte>>
    const cipher: Cipher
    var lastSensorData: Option<SensorData>
    /** Every reading handed to the update listeners, oldest first. */
    ghost var emitted: seq<SensorData>

    /** The stored reading is the one most recently emitted. */
    ghost predicate Valid()
      reads this
    {
      if emitted == [] then lastSensorData == None
      else lastSensorData == Some(emitted[|emitted| - 1])
    }

    /** `hex` stands for `Buffer.from(_, 'hex')` and `cipher` for the
        AES-128-CCM decipher of the crypto library. */
    constructor (macText: string, keyText: Option<string>, hex: string -> seq<byte>, cipher: Cipher)
      ensures Valid()
      ensures mac == hex(StripColons(macText))
      ensures encryptionKey == ConfiguredKey(keyText, hex)
      ensures this.cipher == cipher
      ensures lastSensorData == None && emitted == []
    {
      mac := hex(StripColons(macText));
      encryptionKey := ConfiguredKey(keyText, hex);
      this.cipher := cipher;
      lastSensorData := None;
      emitted := [];
    }

    /** `decodePayload`, against the stored reading; changes nothing. */
    method DecodePayload(payload: seq<byte>) returns (r: Outcome<SensorData>)
      ensures r == PayloadOutcome(mac, encryptionKey, lastSensorData, payload, cipher)
    {
      var flags := ReadU8(payload, 0);
      if flags.None? {
        return Thrown(OutOfRange);
      }
      if IsEncrypted(flags.value) {
        var decryption := DecryptPayload(mac, encryptionKey, lastSensorData, flags.value, payload, cipher);
        if !decryption.Done? {
          return Thrown(decryption.error);
        }
        r := DecodeSensorData(decryption.value.data);
        if r.Done? {
          r := Done(r.value.(counter := Some(decryption.value.counter)));
        }
      } else {
        r := DecodeSensorData(payload[1..]);
      }
    }

    /** `update`: on success the reading replaces the stored one and is
        emitted once; on any failure nothing changes and nothing is emitted. */
    method Update(payload: seq<byte>) returns (r: Outcome<SensorData>)
      requires Valid()
      modifies this
      ensures Valid()
      ensures r == PayloadOutcome(mac, encryptionKey, old(lastSensorData), payload, cipher)
      ensures r.Done? ==> lastSensorData == Some(r.value) && emitted == old(emitted) + [r.value]
      ensures !r.Done? ==> lastSensorData == old(lastSensorData) && emitted == old(emitted)
    {
      r := DecodePayload(payload);
      if r.Done? {
        lastSensorData := Some(r.value);
        emitted := emitted + [r.value];
      }
    }
  }
}
