/** SET frames, and the expectation that tells when the cooler has confirmed one. */
module Writes {
  import opened Common
  import opened Frames
  import opened Floats
  import opened Codecs
  import opened Topics
  import opened Sessions

  datatype WriteError =
    | UnknownTopic
    | NotWritable
    | StateUnknown
    | NoSuchCompartment
    | OutOfRange
    | NotEncodable(error: EncodeError)

  datatype Expectation = Expectation(topic: Topic, expected: Value, tolerance: real)

  const TRUE_WORDS: set<string> := {"1", "true", "on", "yes"}

  /** `_coerce`. */
  function Coerce(fl: real -> real, c: Codec, v: Value): Result<Value, EncodeError> {
    match c
    case Bool => Ok(Flag(if v.Text? then Lower(Trim(v.text)) in TRUE_WORDS else Truthy(v)))
    case Bools => Ok(Flag(if v.Text? then Lower(Trim(v.text)) in TRUE_WORDS else Truthy(v)))
    case Milli => CoerceFloat(fl, v)
    case Millis => CoerceFloat(fl, v)
    case Enum(cls) =>
      (match EncodeEnum(cls, v)
       case Err(e) => Err(e)
       case Ok(p) => Ok(Int(Int32At(p, 0))))
    case _ => Ok(v)
  }

  function CoerceFloat(fl: real -> real, v: Value): Result<Value, EncodeError> {
    match Float64(fl, v)
    case Err(e) => Err(e)
    case Ok(x) => Ok(Float(x))
  }

  /** The allowed set-point range of a compartment, when the cooler has published one. */
  function RangeOf(values: map<Topic, Value>, idx: int): Option<(real, real)> {
    if Ctemprng in values && values[Ctemprng].List? && 0 <= idx < |values[Ctemprng].items|
       && values[Ctemprng].items[idx].Pair?
    then Some((values[Ctemprng].items[idx].lo, values[Ctemprng].items[idx].hi))
    else None
  }

  predicate RangeAllows(values: map<Topic, Value>, idx: int, v: Value) {
    match RangeOf(values, idx)
    case None => true
    case Some((lo, hi)) => v.Float? && lo <= v.x <= hi
  }

  function Tolerance(t: Topic): real {
    match CodecOf(t)
    case Milli | Millis | MilliPairs => 0.051
    case _ => 0.0
  }

  function SetArray(fl: real -> real, values: map<Topic, Value>, t: Topic, v: Value, idx: int)
    : Result<(Frame, Expectation), WriteError>
  {
    if t !in values || !values[t].List? || values[t].items == [] then Err(StateUnknown)
    else if idx < 0 || |values[t].items| <= idx then Err(NoSuchCompartment)
    else match Coerce(fl, CodecOf(t), v)
         case Err(e) => Err(NotEncodable(e))
         case Ok(x) =>
           var items := values[t].items[idx := x];
           if t == Csettemp && !RangeAllows(values, idx, x) then Err(OutOfRange)
           else match Codecs.Encode(fl, CodecOf(t), List(items))
                case Err(e) => Err(NotEncodable(e))
                case Ok(p) => Ok((Frame(SET, AddressOf(t), p), Expectation(t, List(items), Tolerance(t))))
  }

  function SetScalar(fl: real -> real, t: Topic, v: Value): Result<(Frame, Expectation), WriteError> {
    match Coerce(fl, CodecOf(t), v)
    case Err(e) => Err(NotEncodable(e))
    case Ok(x) =>
      match Codecs.Encode(fl, CodecOf(t), x)
      case Err(e) => Err(NotEncodable(e))
      case Ok(p) =>
        Ok((Frame(SET, AddressOf(t), p), Expectation(t, ValueOf(fl, t, p), Tolerance(t))))
  }

  /** `Session.set_frame`, on the session's cached values. */
  function SetFrame(fl: real -> real, values: map<Topic, Value>, r: TopicRef, v: Value, compartment: Option<int>)
    : Result<(Frame, Expectation), WriteError>
  {
    match Resolve(r)
    case None => Err(UnknownTopic)
    case Some(t) =>
      if !IsWritable(t) then Err(NotWritable)
      else if PerCompartment(t) then
        SetArray(fl, values, t, v, if compartment.Some? then compartment.value else 0)
      else if compartment.Some? && compartment.value != 0 then Err(NoSuchCompartment)
      else SetScalar(fl, t, v)
  }

  /** What an event says about an expected write: confirmed, refused, or nothing yet. */
  function Verdict(fl: real -> real, e: Expectation, ev: Event): Option<bool> {
    match ev
    case Refused(a, _) => if a == AddressOf(e.topic) then Some(false) else None
    case Published(a, _, v, _) =>
      if a == AddressOf(e.topic) && Close(fl, v, e.expected, e.tolerance) then Some(true) else None
    case Unhandled(_) => None
  }

  class WriteExpectation {
    const fl: real -> real
    const expectation: Expectation
    var observed: Option<Value>

    constructor (fl: real -> real, expectation: Expectation)
      ensures this.fl == fl && this.expectation == expectation && observed == None
    {
      this.fl := fl;
      this.expectation := expectation;
      observed := None;
    }

    method Matches(event: Event) returns (verdict: Option<bool>)
      modifies this
      ensures verdict == Verdict(fl, expectation, event)
      ensures observed == if event.Published? && event.address == AddressOf(expectation.topic)
                          then Some(event.value) else old(observed)
      ensures verdict == Some(true) ==>
                observed.Some? && Close(fl, observed.value, expectation.expected, expectation.tolerance)
    {
      if event.Refused? {
        return if event.address == AddressOf(expectation.topic) then Some(false) else None;
      }
      if !event.Published? || event.address != AddressOf(expectation.topic) {
        return None;
      }
      observed := Some(event.value);
      if Close(fl, event.value, expectation.expected, expectation.tolerance) {
        return Some(true);
      }
      return None;
    }
  }

  // ---- what is sent

  /** Whatever is asked of it, a session sends SET frames for the five writable topics only,
      never to an address of the never-write list, and expects the answer there. */
  lemma OnlyWritableTopicsAreSet(fl: real -> real, values: map<Topic, Value>, r: TopicRef, v: Value,
                                 compartment: Option<int>, frame: Frame, e: Expectation)
    requires SetFrame(fl, values, r, v, compartment) == Ok((frame, e))
    ensures frame.action == SET && IsWritable(e.topic)
    ensures frame.address == AddressOf(e.topic) && TopicAt(frame.address) == Some(e.topic)
    ensures frame.address !in NEVER_WRITE
  {
    SetFrameIs(fl, values, r, v, compartment, frame, e);
    WritableIsSafe(e.topic);
    TopicAtIff(frame.address, e.topic);
  }

  /** The int32s last published for a topic. */
  function Units(c: Cache, t: Topic): seq<int> {
    if AddressOf(t) in c.raw then Int32s(c.raw[AddressOf(t)]) else []
  }

  lemma ItemsOfUnits(fl: real -> real, c: Cache, t: Topic)
    requires Consistent(fl, c) && t in c.values
    ensures CodecOf(t) == Millis ==> c.values[t] == List(MilliList(fl, Units(c, t)))
    ensures CodecOf(t) == Bools ==> c.values[t] == List(FlagList(Units(c, t)))
    ensures CodecOf(t) == MilliPairs ==> c.values[t] == List(PairList(fl, Units(c, t)))
  {
    assert ConsistentAt(fl, c, t);
  }

  /** What a set-point write puts on the wire: the array last published, with the one
      compartment replaced by the milli-units of the request and every other int32 exactly as
      it was published, whatever the rounding of doubles. */
  lemma SetPointFrame(fl: real -> real, c: Cache, v: Value, idx: int, frame: Frame, e: Expectation)
    requires IsRounding(fl) && Consistent(fl, c)
    requires SetArray(fl, c.values, Csettemp, v, idx) == Ok((frame, e))
    ensures 0 <= idx < |Units(c, Csettemp)|
    ensures Float64(fl, v).Ok? && FitsInt32(ToMilli(fl, Float64(fl, v).value))
    ensures Int32s(frame.payload) == Units(c, Csettemp)[idx := ToMilli(fl, Float64(fl, v).value)]
    ensures |frame.payload| == 4 * |Units(c, Csettemp)|
    ensures e == Expectation(Csettemp, List(MilliList(fl, Units(c, Csettemp))[idx := Float(Float64(fl, v).value)]),
                             0.051)
  {
    ItemsOfUnits(fl, c, Csettemp);
    Int32sFitAll(c, Csettemp);
    ReplacedEncodes(fl, Units(c, Csettemp), idx, Float64(fl, v).value);
  }

  /** The same for compartment power, where each int32 sent is the truth value published. */
  lemma PowerFrame(fl: real -> real, c: Cache, v: Value, idx: int, frame: Frame, e: Expectation)
    requires Consistent(fl, c)
    requires SetArray(fl, c.values, Cpow, v, idx) == Ok((frame, e))
    ensures var units, sent := Units(c, Cpow), Int32s(frame.payload);
            && 0 <= idx < |units| == |sent|
            && (forall j :: 0 <= j < |units| && j != idx ==> sent[j] == if units[j] != 0 then 1 else 0)
            && sent[idx] in {0, 1}
            && (!v.Text? ==> (sent[idx] == 1 <==> Truthy(v)))
            && e == Expectation(Cpow, List(FlagList(sent)), 0.0)
  {
    ItemsOfUnits(fl, c, Cpow);
    var units := Units(c, Cpow);
    var items := FlagList(units)[idx := Coerce(fl, Bools, v).value];
    EncodeEachIs(fl, true, items);
    var p := EncodeEach(fl, true, items).value;
    forall j | 0 <= j < |units| ensures Int32s(p)[j] == (if items[j].on then 1 else 0) {
      assert Sent(fl, true, items[j]) == Ok(Int32s(p)[j]);
    }
    assert items == FlagList(Int32s(p));
  }

  /** A set-point that passes the range check stays inside the published bounds after it is
      rounded to milli-units: the int32 sent lies between the two int32s published. */
  lemma SetPointStaysInRange(fl: real -> real, c: Cache, v: Value, idx: int, frame: Frame, e: Expectation)
    requires IsRounding(fl) && Consistent(fl, c)
    requires SetArray(fl, c.values, Csettemp, v, idx) == Ok((frame, e))
    requires 2 * idx + 1 < |Units(c, Ctemprng)|
    ensures 0 <= idx < |Int32s(frame.payload)|
    ensures Units(c, Ctemprng)[2 * idx] <= Int32s(frame.payload)[idx] <= Units(c, Ctemprng)[2 * idx + 1]
  {
    SetPointFrame(fl, c, v, idx, frame, e);
    SetPointWasAllowed(fl, c.values, v, idx);
    RangeIs(fl, c, idx);
    var lo, hi := Units(c, Ctemprng)[2 * idx], Units(c, Ctemprng)[2 * idx + 1];
    Int32sFitAll(c, Ctemprng);
    RoundsWithin(fl, lo, hi, Float64(fl, v).value);
  }

  lemma SetPointWasAllowed(fl: real -> real, values: map<Topic, Value>, v: Value, idx: int)
    requires SetArray(fl, values, Csettemp, v, idx).Ok?
    ensures Float64(fl, v).Ok? && RangeAllows(values, idx, Float(Float64(fl, v).value))
  {
  }

  lemma Int32sFitAll(c: Cache, t: Topic)
    ensures forall u <- Units(c, t) :: FitsInt32(u)
  {
  }

  lemma RoundsWithin(fl: real -> real, lo: int, hi: int, x: real)
    requires IsRounding(fl) && FitsInt32(lo) && FitsInt32(hi)
    requires FromMilli(fl, lo) <= x <= FromMilli(fl, hi)
    ensures lo <= ToMilli(fl, x) <= hi
  {
    MilliRoundTrip(fl, lo);
    MilliRoundTrip(fl, hi);
    ToMilliMonotone(fl, FromMilli(fl, lo), x);
    ToMilliMonotone(fl, x, FromMilli(fl, hi));
  }

  /** A set-point write goes through exactly when the array has been published, the compartment
      is one of its own, the value is a number whose milli-units fit an int32, and it lies
      within the range published for the compartment, if any. */
  lemma SetPointAcceptedIff(fl: real -> real, c: Cache, v: Value, idx: int)
    requires IsRounding(fl) && Consistent(fl, c)
    ensures SetArray(fl, c.values, Csettemp, v, idx).Ok? <==>
            && 0 <= idx < |Units(c, Csettemp)|
            && Float64(fl, v).Ok?
            && FitsInt32(ToMilli(fl, Float64(fl, v).value))
            && (2 * idx + 1 < |Units(c, Ctemprng)| ==>
                  FromMilli(fl, Units(c, Ctemprng)[2 * idx]) <= Float64(fl, v).value
                  <= FromMilli(fl, Units(c, Ctemprng)[2 * idx + 1]))
  {
    var units := Units(c, Csettemp);
    if 0 <= idx < |units| {
      assert ConsistentAt(fl, c, Csettemp);
      ItemsOfUnits(fl, c, Csettemp);
      RangeIs(fl, c, idx);
      if Float64(fl, v).Ok? {
        ReplacedEncodes(fl, units, idx, Float64(fl, v).value);
      }
    } else if SetArray(fl, c.values, Csettemp, v, idx).Ok? {
      var (frame, e) := SetArray(fl, c.values, Csettemp, v, idx).value;
      SetPointFrame(fl, c, v, idx, frame, e);
    }
  }

  /** A published array with one compartment replaced encodes exactly when the replacement
      fits, and then to the published int32s with that one replaced. */
  lemma ReplacedEncodes(fl: real -> real, units: seq<int>, idx: nat, x: real)
    requires IsRounding(fl) && idx < |units| && forall u <- units :: FitsInt32(u)
    ensures var p := EncodeEach(fl, false, MilliList(fl, units)[idx := Float(x)]);
            && (p.Ok? <==> FitsInt32(ToMilli(fl, x)))
            && (p.Ok? ==> Int32s(p.value) == units[idx := ToMilli(fl, x)] && |p.value| == 4 * |units|)
  {
    var items := MilliList(fl, units)[idx := Float(x)];
    EncodeEachIs(fl, false, items);
    forall j | 0 <= j < |units| && j != idx ensures Sent(fl, false, items[j]) == Ok(units[j]) {
      MilliRoundTrip(fl, units[j]);
    }
    assert items[idx] in items;
    var p := EncodeEach(fl, false, items);
    if p.Ok? {
      forall j | 0 <= j < |units| ensures Int32s(p.value)[j] == units[idx := ToMilli(fl, x)][j] {
        assert Sent(fl, false, items[j]) == Ok(Int32s(p.value)[j]);
      }
    }
  }

  lemma RangeIs(fl: real -> real, c: Cache, idx: nat)
    requires Consistent(fl, c)
    ensures var bounds := Units(c, Ctemprng);
            RangeOf(c.values, idx) ==
              if 2 * idx + 1 < |bounds| then Some((FromMilli(fl, bounds[2 * idx]), FromMilli(fl, bounds[2 * idx + 1])))
              else None
  {
    assert ConsistentAt(fl, c, Ctemprng);
    if Ctemprng in c.values {
      ItemsOfUnits(fl, c, Ctemprng);
    }
  }

  /** Of two set-point writes to different compartments that start from the same published
      array, the second frame carries the first compartment as it was published: the first
      write survives it exactly when the array held the value asked for already. */
  lemma UnconfirmedWritesOverwrite(fl: real -> real, c: Cache, v: Value, i: int, first: Frame, e1: Expectation,
                                   w: Value, j: int, second: Frame, e2: Expectation)
    requires IsRounding(fl) && Consistent(fl, c) && i != j
    requires SetArray(fl, c.values, Csettemp, v, i) == Ok((first, e1))
    requires SetArray(fl, c.values, Csettemp, w, j) == Ok((second, e2))
    ensures 0 <= i < |Int32s(second.payload)| == |Int32s(first.payload)| == |Units(c, Csettemp)|
    ensures Int32s(second.payload)[i] == Units(c, Csettemp)[i]
    ensures Int32s(second.payload)[i] == Int32s(first.payload)[i] <==>
            Units(c, Csettemp)[i] == ToMilli(fl, Float64(fl, v).value)
  {
    SetPointFrame(fl, c, v, i, first, e1);
    SetPointFrame(fl, c, w, j, second, e2);
  }

  /** The cache of a session that has heard one set-point array and nothing else. */
  function Showing(fl: real -> real, units: seq<int>): Cache
    requires forall u <- units :: FitsInt32(u)
  {
    Absorb(fl, EMPTY.cache, Frame(PUBLISH, AddressOf(Csettemp), Pack(units)))
  }

  lemma ShowingIs(fl: real -> real, units: seq<int>)
    requires forall u <- units :: FitsInt32(u)
    ensures Consistent(fl, Showing(fl, units))
    ensures Units(Showing(fl, units), Csettemp) == units && Units(Showing(fl, units), Ctemprng) == []
    ensures AddressOf(Csettemp) in Showing(fl, units).raw
    ensures Showing(fl, units).raw[AddressOf(Csettemp)] == Pack(units)
  {
    assert Consistent(fl, EMPTY.cache);
    AbsorbKeepsConsistent(fl, EMPTY.cache, Frame(PUBLISH, AddressOf(Csettemp), Pack(units)));
    Int32sOfPack(units);
  }

  lemma WholeMillis(fl: real -> real, x: real, n: int)
    requires IsRounding(fl) && FitsInt32(n) && x * 1000.0 == n as real
    ensures ToMilli(fl, x) == n
  {
    RoundsNear(fl, n as real);
    RoundIs(fl(n as real), n);
  }

  /** A lost write: with 2.0 and 3.0 published, 5.0 is asked for compartment 0 and then, before
      anything new is published, 6.0 for compartment 1. The second frame sends 2.0 again. */
  lemma LostWrite(fl: real -> real) returns (first: Frame, second: Frame)
    requires IsRounding(fl)
    ensures var c := Showing(fl, [2000, 3000]);
            && SetFrame(fl, c.values, ByTopic(Csettemp), Float(5.0), Some(0)).Ok?
            && SetFrame(fl, c.values, ByTopic(Csettemp), Float(5.0), Some(0)).value.0 == first
            && SetFrame(fl, c.values, ByTopic(Csettemp), Float(6.0), Some(1)).Ok?
            && SetFrame(fl, c.values, ByTopic(Csettemp), Float(6.0), Some(1)).value.0 == second
    ensures Int32s(first.payload) == [5000, 3000] && Int32s(second.payload) == [2000, 6000]
  {
    var c := Showing(fl, [2000, 3000]);
    var e1, e2;
    first, e1 := AcceptedSetPoint(fl, [2000, 3000], 5.0, 5000, 0);
    second, e2 := AcceptedSetPoint(fl, [2000, 3000], 6.0, 6000, 1);
  }

  lemma AcceptedSetPoint(fl: real -> real, units: seq<int>, x: real, n: int, idx: nat)
    returns (frame: Frame, e: Expectation)
    requires IsRounding(fl) && (forall u <- units :: FitsInt32(u)) && idx < |units|
    requires FitsInt32(n) && x * 1000.0 == n as real
    ensures SetFrame(fl, Showing(fl, units).values, ByTopic(Csettemp), Float(x), Some(idx)) == Ok((frame, e))
    ensures SetArray(fl, Showing(fl, units).values, Csettemp, Float(x), idx) == Ok((frame, e))
    ensures Int32s(frame.payload) == units[idx := n]
  {
    var c := Showing(fl, units);
    ShowingIs(fl, units);
    WholeMillis(fl, x, n);
    SetPointAcceptedIff(fl, c, Float(x), idx);
    var made := SetArray(fl, c.values, Csettemp, Float(x), idx).value;
    frame, e := made.0, made.1;
    SetPointFrame(fl, c, Float(x), idx, frame, e);
  }

  // ---- what confirms it

  /** The event the session reports when the cooler publishes `payload` for topic `t`. */
  function EchoOf(fl: real -> real, t: Topic, payload: Bytes): Event {
    EventOf(fl, Frame(PUBLISH, AddressOf(t), payload))
  }

  lemma EchoIs(fl: real -> real, t: Topic, payload: Bytes)
    ensures EchoOf(fl, t, payload) == Published(AddressOf(t), Some(t), ValueOf(fl, t, payload), payload)
  {
    TopicAtIff(AddressOf(t), t);
  }

  lemma EchoVerdict(fl: real -> real, e: Expectation, payload: Bytes)
    ensures Verdict(fl, e, EchoOf(fl, e.topic, payload)) ==
            if Close(fl, ValueOf(fl, e.topic, payload), e.expected, e.tolerance) then Some(true) else None
  {
    EchoIs(fl, e.topic, payload);
  }

  /** The cooler keeps tenths of a degree. If it publishes, for every compartment, the int32 it
      was sent rounded to the nearest hundred milli-units, the write is confirmed. */
  lemma RoundedEchoConfirms(fl: real -> real, c: Cache, v: Value, idx: int, frame: Frame, e: Expectation,
                            stored: seq<int>)
    requires IsRounding(fl) && Consistent(fl, c)
    requires SetArray(fl, c.values, Csettemp, v, idx) == Ok((frame, e))
    requires IsRoundingOf(stored, Int32s(frame.payload))
    ensures Verdict(fl, e, EchoOf(fl, Csettemp, Pack(stored))) == Some(true)
  {
    SetPointFrame(fl, c, v, idx, frame, e);
    ShownIs(fl, stored);
    var x := Float64(fl, v).value;
    ToMilliNear(fl, x);
    Int32sFitAll(c, Csettemp);
    StoredArrayIsClose(fl, Units(c, Csettemp), idx, x, stored);
    EchoVerdict(fl, e, Pack(stored));
  }

  /** Element by element, an int32 at most half a tenth of a degree away. */
  predicate IsRoundingOf(stored: seq<int>, sent: seq<int>) {
    && |stored| == |sent|
    && (forall u <- stored :: FitsInt32(u))
    && (forall i :: 0 <= i < |sent| ==> -50 <= stored[i] - sent[i] <= 50)
  }

  lemma StoredArrayIsClose(fl: real -> real, units: seq<int>, idx: nat, x: real, stored: seq<int>)
    requires IsRounding(fl) && idx < |units| == |stored|
    requires forall u <- units :: FitsInt32(u)
    requires Abs(ToMilli(fl, x) as real - x * 1000.0) <= 0.501
    requires IsRoundingOf(stored, units[idx := ToMilli(fl, x)])
    ensures Close(fl, List(MilliList(fl, stored)), List(MilliList(fl, units)[idx := Float(x)]), 0.051)
  {
    var wanted := MilliList(fl, units)[idx := Float(x)];
    forall i | 0 <= i < |stored| ensures Close(fl, MilliList(fl, stored)[i], wanted[i], 0.051) {
      if i != idx {
        FromMilliNear(fl, units[i]);
      }
      StoredIsClose(fl, stored[i], units[idx := ToMilli(fl, x)][i], wanted[i].x);
    }
  }

  lemma StoredIsClose(fl: real -> real, stored: int, sent: int, wanted: real)
    requires IsRounding(fl) && FitsInt32(stored) && -50 <= stored - sent <= 50
    requires Abs(sent as real - wanted * 1000.0) <= 0.501
    ensures Within(fl, FromMilli(fl, stored), wanted, 0.051)
  {
    FromMilliNear(fl, stored);
    WithinIf(fl, FromMilli(fl, stored), wanted, 0.051);
  }

  /** Before the cooler publishes the new array it publishes the old one. That is taken for the
      confirmation exactly when the value asked for is within the tolerance of the one
      published: such a write counts as confirmed before anything has been stored. */
  lemma OldArrayConfirmsIff(fl: real -> real, c: Cache, v: Value, idx: int, frame: Frame, e: Expectation)
    requires IsRounding(fl) && Consistent(fl, c)
    requires SetArray(fl, c.values, Csettemp, v, idx) == Ok((frame, e))
    ensures AddressOf(Csettemp) in c.raw && 0 <= idx < |Units(c, Csettemp)| && Float64(fl, v).Ok?
    ensures Verdict(fl, e, EchoOf(fl, Csettemp, c.raw[AddressOf(Csettemp)])) ==
            if Within(fl, FromMilli(fl, Units(c, Csettemp)[idx]), Float64(fl, v).value, 0.051) then Some(true)
            else None
  {
    SetPointFrame(fl, c, v, idx, frame, e);
    OneReplaced(fl, Units(c, Csettemp), idx, Float64(fl, v).value);
    EchoVerdict(fl, e, c.raw[AddressOf(Csettemp)]);
  }

  lemma OneReplaced(fl: real -> real, units: seq<int>, idx: nat, x: real)
    requires IsRounding(fl) && idx < |units|
    ensures Close(fl, List(MilliList(fl, units)), List(MilliList(fl, units)[idx := Float(x)]), 0.051) <==>
            Within(fl, FromMilli(fl, units[idx]), x, 0.051)
  {
    var shown := MilliList(fl, units);
    var wanted := shown[idx := Float(x)];
    forall i | 0 <= i < |units| && i != idx ensures Close(fl, shown[i], wanted[i], 0.051) {
      WithinIf(fl, FromMilli(fl, units[i]), FromMilli(fl, units[i]), 0.051);
    }
    assert Close(fl, shown[idx], wanted[idx], 0.051) <==> Within(fl, FromMilli(fl, units[idx]), x, 0.051);
  }

  /** With 2.2 published, 2.25 is asked for: the old array, published again, confirms it. */
  lemma ConfirmedByTheOldArray(fl: real -> real) returns (frame: Frame, e: Expectation)
    requires IsRounding(fl)
    ensures SetFrame(fl, Showing(fl, [2200]).values, ByTopic(Csettemp), Float(2.25), Some(0)) == Ok((frame, e))
    ensures Int32s(frame.payload) == [2250]
    ensures Verdict(fl, e, EchoOf(fl, Csettemp, Pack([2200]))) == Some(true)
  {
    frame, e := AcceptedSetPoint(fl, [2200], 2.25, 2250, 0);
    ShowingIs(fl, [2200]);
    FromMilliNear(fl, 2200);
    WithinIf(fl, FromMilli(fl, 2200), 2.25, 0.051);
    OldArrayConfirmsIff(fl, Showing(fl, [2200]), Float(2.25), 0, frame, e);
  }

  /** A request on the tenth-degree grid is never confirmed by another grid value. */
  lemma {:induction false} OtherGridValueDoesNotConfirm(fl: real -> real, e: Expectation, stored: seq<int>, i: nat,
                                                        wanted: int)
    requires IsRounding(fl)
    requires e.topic == Csettemp && e.tolerance == 0.051 && e.expected.List?
    requires forall u <- stored :: FitsInt32(u)
    requires i < |stored| && i < |e.expected.items| && FitsInt32(wanted)
    requires e.expected.items[i] == Float(FromMilli(fl, wanted))
    requires stored[i] % 100 == 0 && wanted % 100 == 0 && stored[i] != wanted
    ensures Verdict(fl, e, EchoOf(fl, Csettemp, Pack(stored))) == None
  {
    ShownIs(fl, stored);
    GridValuesAreApart(fl, stored[i], wanted);
    FarFloats(fl, FromMilli(fl, stored[i]), FromMilli(fl, wanted));
    OneFarElement(fl, MilliList(fl, stored), e.expected.items, i, 0.051);
    EchoVerdict(fl, e, Pack(stored));
  }

  lemma ShownIs(fl: real -> real, stored: seq<int>)
    requires forall u <- stored :: FitsInt32(u)
    ensures ValueOf(fl, Csettemp, Pack(stored)) == List(MilliList(fl, stored))
  {
    Int32sOfPack(stored);
  }

  lemma FarFloats(fl: real -> real, x: real, y: real)
    requires !Within(fl, x, y, 0.051)
    ensures !Close(fl, Float(x), Float(y), 0.051)
  {
  }

  lemma OneFarElement(fl: real -> real, xs: seq<Value>, ys: seq<Value>, i: nat, tol: real)
    requires i < |xs| && i < |ys| && !Close(fl, xs[i], ys[i], tol)
    ensures !Close(fl, List(xs), List(ys), tol)
  {
  }

  lemma GridValuesAreApart(fl: real -> real, a: int, b: int)
    requires IsRounding(fl) && FitsInt32(a) && FitsInt32(b)
    requires a % 100 == 0 && b % 100 == 0 && a != b
    ensures !Within(fl, FromMilli(fl, a), FromMilli(fl, b), 0.051)
  {
    FromMilliNear(fl, a);
    FromMilliNear(fl, b);
    GridIsCoarse(a, b, FromMilli(fl, a), FromMilli(fl, b));
    NotWithinIf(fl, FromMilli(fl, a), FromMilli(fl, b));
  }

  lemma GridIsCoarse(a: int, b: int, x: real, y: real)
    requires a % 100 == 0 && b % 100 == 0 && a != b
    requires Abs(x - a as real / 1000.0) <= 0.000002 && Abs(y - b as real / 1000.0) <= 0.000002
    ensures 0.052 <= Abs(x - y)
  {
    assert a >= b + 100 || b >= a + 100;
  }

  /** A cooler that publishes exactly the payload it was sent confirms the write, whichever of
      the five topics it is. */
  lemma ExactEchoConfirms(fl: real -> real, c: Cache, r: TopicRef, v: Value, compartment: Option<int>,
                          frame: Frame, e: Expectation)
    requires IsRounding(fl) && Consistent(fl, c)
    requires SetFrame(fl, c.values, r, v, compartment) == Ok((frame, e))
    ensures Verdict(fl, e, EchoOf(fl, e.topic, frame.payload)) == Some(true)
  {
    SetFrameIs(fl, c.values, r, v, compartment, frame, e);
    var idx := if compartment.Some? then compartment.value else 0;
    if e.topic == Csettemp {
      ExactSetPointEcho(fl, c, v, idx, frame, e);
    } else if e.topic == Cpow {
      ExactPowerEcho(fl, c, v, idx, frame, e);
    } else {
      ExactScalarEcho(fl, e.topic, v, frame, e);
    }
  }

  lemma SetFrameIs(fl: real -> real, values: map<Topic, Value>, r: TopicRef, v: Value, compartment: Option<int>,
                   frame: Frame, e: Expectation)
    requires SetFrame(fl, values, r, v, compartment) == Ok((frame, e))
    ensures Resolve(r) == Some(e.topic) && IsWritable(e.topic)
    ensures PerCompartment(e.topic) ==>
              SetArray(fl, values, e.topic, v, if compartment.Some? then compartment.value else 0) == Ok((frame, e))
    ensures !PerCompartment(e.topic) ==> SetScalar(fl, e.topic, v) == Ok((frame, e))
  {
  }

  lemma ExactSetPointEcho(fl: real -> real, c: Cache, v: Value, idx: int, frame: Frame, e: Expectation)
    requires IsRounding(fl) && Consistent(fl, c)
    requires SetArray(fl, c.values, Csettemp, v, idx) == Ok((frame, e))
    ensures Verdict(fl, e, EchoOf(fl, Csettemp, frame.payload)) == Some(true)
  {
    SetPointFrame(fl, c, v, idx, frame, e);
    PackOfInt32s(frame.payload);
    assert frame.payload[..|frame.payload| / 4 * 4] == frame.payload;
    RoundedEchoConfirms(fl, c, v, idx, frame, e, Int32s(frame.payload));
  }

  lemma ExactPowerEcho(fl: real -> real, c: Cache, v: Value, idx: int, frame: Frame, e: Expectation)
    requires Consistent(fl, c)
    requires SetArray(fl, c.values, Cpow, v, idx) == Ok((frame, e))
    ensures Verdict(fl, e, EchoOf(fl, Cpow, frame.payload)) == Some(true)
  {
    PowerFrame(fl, c, v, idx, frame, e);
    FlagsAreClose(fl, Int32s(frame.payload));
    EchoVerdict(fl, e, frame.payload);
  }

  lemma FlagsAreClose(fl: real -> real, units: seq<int>)
    ensures Close(fl, List(FlagList(units)), List(FlagList(units)), 0.0)
  {
  }

  lemma ExactScalarEcho(fl: real -> real, t: Topic, v: Value, frame: Frame, e: Expectation)
    requires IsRounding(fl) && IsWritable(t) && !PerCompartment(t)
    requires SetScalar(fl, t, v) == Ok((frame, e))
    ensures Verdict(fl, e, EchoOf(fl, t, frame.payload)) == Some(true)
  {
    ScalarExpectation(fl, t, v, frame, e);
    ScalarEqualsItself(fl, t, frame.payload);
    EchoVerdict(fl, e, frame.payload);
  }

  lemma ScalarExpectation(fl: real -> real, t: Topic, v: Value, frame: Frame, e: Expectation)
    requires IsWritable(t) && !PerCompartment(t) && SetScalar(fl, t, v) == Ok((frame, e))
    ensures e == Expectation(t, ValueOf(fl, t, frame.payload), 0.0) && |frame.payload| == 4
  {
  }

  lemma ScalarEqualsItself(fl: real -> real, t: Topic, p: Bytes)
    requires IsRounding(fl) && IsWritable(t) && !PerCompartment(t) && |p| == 4
    ensures Close(fl, ValueOf(fl, t, p), ValueOf(fl, t, p), 0.0)
  {
    if t == Batprotlvl {
      var n := Int32At(p, 0);
      WithinIf(fl, fl(n as real), fl(n as real), 0.0);
    }
  }
}
