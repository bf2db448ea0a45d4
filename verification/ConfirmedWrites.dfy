/** Set-point writes that are each confirmed before the next one is built, with a cooler that
    repeats the old array first and keeps tenths of a degree. */
module ConfirmedWrites {
  import opened Common
  import opened Frames
  import opened Floats
  import opened Codecs
  import opened Topics
  import opened Sessions
  import opened Writes

  /** A confirmed write, with how often the cooler publishes the old array first and the array
      it stores and publishes then; or any other frame heard in between. */
  datatype Act = Write(value: Value, compartment: int, repeats: nat, stored: seq<int>) | Hear(frame: Frame)

  /** What a cooler that keeps tenths of a degree makes of one int32: the same, or a tenth at
      most half a tenth away. */
  predicate Kept(sent: int, stored: int) {
    stored == sent || (stored % 100 == 0 && -50 <= stored - sent <= 50)
  }

  predicate StoredAs(stored: seq<int>, sent: seq<int>) {
    && |stored| == |sent|
    && (forall u <- stored :: FitsInt32(u))
    && (forall i :: 0 <= i < |sent| ==> Kept(sent[i], stored[i]))
  }

  predicate IsSetPointPublish(f: Frame) {
    f.action == PUBLISH && f.address == AddressOf(Csettemp)
  }

  function Publishing(payload: Bytes): Frame {
    Frame(PUBLISH, AddressOf(Csettemp), payload)
  }

  /** The session hears frames up to the first that confirms the write. */
  function HearUntil(fl: real -> real, c: Cache, e: Expectation, fs: seq<Frame>): Cache
    decreases |fs|
  {
    if fs == [] then c
    else
      var c' := Absorb(fl, c, fs[0]);
      if Verdict(fl, e, EventOf(fl, fs[0])) == Some(true) then c' else HearUntil(fl, c', e, fs[1..])
  }

  /** The session after one act, that is, when the next may be built; `None` when the write is
      refused before it is sent, when the cooler would store something else, or when the frame
      heard is a set-point publish of another array than the one published last. */
  function After(fl: real -> real, c: Cache, act: Act): Option<Cache> {
    var a := AddressOf(Csettemp);
    match act
    case Hear(f) =>
      if IsSetPointPublish(f) && !(a in c.raw && f.payload == c.raw[a]) then None else Some(Absorb(fl, c, f))
    case Write(v, idx, repeats, stored) =>
      match SetArray(fl, c.values, Csettemp, v, idx)
      case Err(_) => None
      case Ok((frame, e)) =>
        if a in c.raw && StoredAs(stored, Int32s(frame.payload)) then
          Some(HearUntil(fl, c, e, Times(repeats, Publishing(c.raw[a])) + [Publishing(Pack(stored))]))
        else None
  }

  function AfterAll(fl: real -> real, c: Cache, acts: seq<Act>): Option<Cache> {
    if acts == [] then Some(c)
    else match AfterAll(fl, c, acts[..|acts| - 1])
         case None => None
         case Some(c') => After(fl, c', acts[|acts| - 1])
  }

  /** The old array does not pass for the new one: it is not published again, or the value asked
      for is further from the published one than the tolerance. */
  predicate Clear(fl: real -> real, c: Cache, act: Act) {
    act.Write? && act.repeats > 0 && 0 <= act.compartment < |Units(c, Csettemp)| && Float64(fl, act.value).Ok? ==>
      !Within(fl, FromMilli(fl, Units(c, Csettemp)[act.compartment]), Float64(fl, act.value).value, 0.051)
  }

  predicate AllClear(fl: real -> real, c: Cache, acts: seq<Act>) {
    acts == [] ||
    (AllClear(fl, c, acts[..|acts| - 1]) &&
     var before := AfterAll(fl, c, acts[..|acts| - 1]);
     before.Some? ==> Clear(fl, before.value, acts[|acts| - 1]))
  }

  /** The value last written to compartment `j`. */
  function LastWrite(acts: seq<Act>, j: int): Option<Value> {
    if acts == [] then None
    else
      var last := acts[|acts| - 1];
      if last.Write? && last.compartment == j then Some(last.value)
      else LastWrite(acts[..|acts| - 1], j)
  }

  /** The milli-units that `acts`, on top of the array `before`, ask for in compartment `j`. */
  function Wanted(fl: real -> real, before: seq<int>, acts: seq<Act>, j: nat): int
    requires j < |before|
  {
    match LastWrite(acts, j)
    case None => before[j]
    case Some(v) => match Float64(fl, v) case Ok(x) => ToMilli(fl, x) case Err(_) => 0
  }

  /** The int32s that a write sends; none if it is refused. */
  function SentBy(fl: real -> real, c: Cache, act: Act): seq<int> {
    if act.Hear? then []
    else match SetArray(fl, c.values, Csettemp, act.value, act.compartment)
         case Ok((frame, _)) => Int32s(frame.payload)
         case Err(_) => []
  }

  /** The cooler stores compartment `j` of this write otherwise than it was sent. */
  predicate Rounds(fl: real -> real, c: Cache, act: Act, j: nat) {
    act.Write? && j < |act.stored| && j < |SentBy(fl, c, act)| && act.stored[j] != SentBy(fl, c, act)[j]
  }

  /** At the last write to compartment `j`, or at one since, the cooler has rounded it. */
  predicate Rounded(fl: real -> real, c: Cache, acts: seq<Act>, j: nat) {
    acts != [] &&
    var last, before := acts[|acts| - 1], AfterAll(fl, c, acts[..|acts| - 1]);
    && before.Some?
    && (Rounds(fl, before.value, last, j)
        || (!(last.Write? && last.compartment == j) && Rounded(fl, c, acts[..|acts| - 1], j)))
  }

  /** `y` is `x`; or, once the cooler has rounded it, the tenth of a degree it was rounded to. */
  predicate Carried(rounded: bool, x: int, y: int) {
    if rounded then y % 100 == 0 && -50 <= y - x <= 50 else y == x
  }

  /** Compartment `j` is at the milli-units of the value last written to it, or unwritten as it
      was in `c`: exactly, unless the cooler has rounded it since. */
  predicate HoldsAt(fl: real -> real, c: Cache, acts: seq<Act>, j: nat, now: int) {
    && j < |Units(c, Csettemp)|
    && (LastWrite(acts, j).Some? ==> Float64(fl, LastWrite(acts, j).value).Ok?)
    && Carried(Rounded(fl, c, acts, j), Wanted(fl, Units(c, Csettemp), acts, j), now)
  }

  ghost predicate Updated(fl: real -> real, c: Cache, acts: seq<Act>, now: seq<int>) {
    |now| == |Units(c, Csettemp)| && forall j :: 0 <= j < |now| ==> HoldsAt(fl, c, acts, j, now[j])
  }

  /** The cooler has stored every write as it was sent. */
  predicate AllExact(fl: real -> real, c: Cache, acts: seq<Act>) {
    acts == [] ||
    (AllExact(fl, c, acts[..|acts| - 1]) &&
     var last, before := acts[|acts| - 1], AfterAll(fl, c, acts[..|acts| - 1]);
     last.Write? && before.Some? ==> last.stored == SentBy(fl, before.value, last))
  }

  // ---- what the cooler keeps

  /** Once on the tenth-degree grid a value stays what it is. */
  lemma OnTheGridIsExact(sent: int, stored: int)
    requires Kept(sent, stored) && sent % 100 == 0
    ensures stored == sent
  {
  }

  lemma StoredIsRounding(stored: seq<int>, sent: seq<int>)
    requires StoredAs(stored, sent)
    ensures IsRoundingOf(stored, sent)
  {
    forall i | 0 <= i < |sent| ensures -50 <= stored[i] - sent[i] <= 50 {
      assert Kept(sent[i], stored[i]);
    }
  }

  // ---- one write

  lemma HearingTheOldChangesNothing(fl: real -> real, c: Cache)
    requires Consistent(fl, c) && AddressOf(Csettemp) in c.raw
    ensures Absorb(fl, c, Publishing(c.raw[AddressOf(Csettemp)])) == c
  {
    TopicAtIff(AddressOf(Csettemp), Csettemp);
    assert ConsistentAt(fl, c, Csettemp);
  }

  lemma {:induction false} HearingUntilConfirmed(fl: real -> real, c: Cache, e: Expectation, n: nat, was: Frame,
                                                 now: Frame)
    requires Absorb(fl, c, was) == c && Verdict(fl, e, EventOf(fl, now)) == Some(true)
    ensures HearUntil(fl, c, e, Times(n, was) + [now]) ==
            if n > 0 && Verdict(fl, e, EventOf(fl, was)) == Some(true) then c else Absorb(fl, c, now)
    decreases n
  {
    if n > 0 {
      var fs := Times(n - 1, was) + [now];
      assert Times(n, was) + [now] == [was] + fs && ([was] + fs)[1..] == fs;
      HearingUntilConfirmed(fl, c, e, n - 1, was, now);
    } else {
      Unit([now]);
    }
  }

  /** A write leaves the session with the array the cooler stored, or, exactly when the old array
      passes for it, with the old one. */
  lemma WriteLeaves(fl: real -> real, c: Cache, v: Value, idx: int, n: nat, stored: seq<int>, frame: Frame,
                    e: Expectation)
    requires IsRounding(fl) && Consistent(fl, c)
    requires SetArray(fl, c.values, Csettemp, v, idx) == Ok((frame, e)) && StoredAs(stored, Int32s(frame.payload))
    ensures AddressOf(Csettemp) in c.raw
    ensures After(fl, c, Write(v, idx, n, stored)) ==
            Some(if Clear(fl, c, Write(v, idx, n, stored)) then Absorb(fl, c, Publishing(Pack(stored))) else c)
  {
    OldArrayConfirmsIff(fl, c, v, idx, frame, e);
    HearingTheOldChangesNothing(fl, c);
    StoredIsRounding(stored, Int32s(frame.payload));
    RoundedEchoConfirms(fl, c, v, idx, frame, e, stored);
    HearingUntilConfirmed(fl, c, e, n, Publishing(c.raw[AddressOf(Csettemp)]), Publishing(Pack(stored)));
  }

  lemma StoredUnits(fl: real -> real, c: Cache, stored: seq<int>)
    requires forall u <- stored :: FitsInt32(u)
    ensures Units(Absorb(fl, c, Publishing(Pack(stored))), Csettemp) == stored
  {
    Int32sOfPack(stored);
  }

  /** So the next write starts from what the cooler stored exactly when the old array did not pass
      for the new one, or was the same. */
  lemma NextStartsFromStoredIff(fl: real -> real, c: Cache, v: Value, idx: int, n: nat, stored: seq<int>, frame: Frame,
                                e: Expectation)
    requires IsRounding(fl) && Consistent(fl, c)
    requires SetArray(fl, c.values, Csettemp, v, idx) == Ok((frame, e)) && StoredAs(stored, Int32s(frame.payload))
    ensures After(fl, c, Write(v, idx, n, stored)).Some?
    ensures Units(After(fl, c, Write(v, idx, n, stored)).value, Csettemp) == stored <==>
            Clear(fl, c, Write(v, idx, n, stored)) || stored == Units(c, Csettemp)
  {
    WriteLeaves(fl, c, v, idx, n, stored, frame, e);
    StoredUnits(fl, c, stored);
  }

  // ---- sequences of writes

  lemma AfterKeepsConsistent(fl: real -> real, c: Cache, act: Act)
    requires IsRounding(fl) && Consistent(fl, c) && After(fl, c, act).Some?
    ensures Consistent(fl, After(fl, c, act).value)
  {
    match act
    case Hear(f) => AbsorbKeepsConsistent(fl, c, f);
    case Write(v, idx, n, stored) =>
      var (frame, e) := SetArray(fl, c.values, Csettemp, v, idx).value;
      WriteLeaves(fl, c, v, idx, n, stored, frame, e);
      AbsorbKeepsConsistent(fl, c, Publishing(Pack(stored)));
  }

  lemma {:induction false} AfterAllKeepsConsistent(fl: real -> real, c: Cache, acts: seq<Act>)
    requires IsRounding(fl) && Consistent(fl, c) && AfterAll(fl, c, acts).Some?
    ensures Consistent(fl, AfterAll(fl, c, acts).value)
  {
    if acts != [] {
      AfterAllKeepsConsistent(fl, c, acts[..|acts| - 1]);
      AfterKeepsConsistent(fl, AfterAll(fl, c, acts[..|acts| - 1]).value, acts[|acts| - 1]);
    }
  }

  lemma HearingKeepsUnits(fl: real -> real, c: Cache, f: Frame)
    requires Consistent(fl, c) && After(fl, c, Hear(f)).Some?
    ensures Units(After(fl, c, Hear(f)).value, Csettemp) == Units(c, Csettemp)
  {
  }

  /** One more write, from the array that earlier ones left, as the cooler stores it. */
  lemma OneMoreWrite(fl: real -> real, c: Cache, acts: seq<Act>, c': Cache, last: Act, frame: Frame, e: Expectation)
    requires IsRounding(fl) && Consistent(fl, c') && AfterAll(fl, c, acts) == Some(c')
    requires Updated(fl, c, acts, Units(c', Csettemp)) && last.Write?
    requires SetArray(fl, c'.values, Csettemp, last.value, last.compartment) == Ok((frame, e))
    requires StoredAs(last.stored, Int32s(frame.payload))
    ensures Updated(fl, c, acts + [last], last.stored)
  {
    SetPointFrame(fl, c', last.value, last.compartment, frame, e);
    forall j | 0 <= j < |last.stored| ensures HoldsAt(fl, c, acts + [last], j, last.stored[j]) {
      OneMoreWriteAt(fl, c, acts, c', last, Int32s(frame.payload), j);
    }
  }

  lemma OneMoreWriteAt(fl: real -> real, c: Cache, acts: seq<Act>, c': Cache, last: Act, sent: seq<int>, j: nat)
    requires AfterAll(fl, c, acts) == Some(c') && last.Write? && SentBy(fl, c', last) == sent
    requires |sent| == |last.stored| == |Units(c, Csettemp)| == |Units(c', Csettemp)| && j < |sent|
    requires Kept(sent[j], last.stored[j]) && HoldsAt(fl, c, acts, j, Units(c', Csettemp)[j])
    requires 0 <= last.compartment < |sent| && Float64(fl, last.value).Ok?
    requires sent == Units(c', Csettemp)[last.compartment := ToMilli(fl, Float64(fl, last.value).value)]
    ensures HoldsAt(fl, c, acts + [last], j, last.stored[j])
  {
    RoundedOfMore(fl, c, acts, c', last, j);
    LastWriteOfMore(acts, last, j);
    var rounded := last.compartment != j && Rounded(fl, c, acts, j);
    CarriedOn(rounded, Wanted(fl, Units(c, Csettemp), acts + [last], j), sent[j], last.stored[j]);
  }

  lemma RoundedOfMore(fl: real -> real, c: Cache, acts: seq<Act>, c': Cache, last: Act, j: nat)
    requires AfterAll(fl, c, acts) == Some(c')
    ensures Rounded(fl, c, acts + [last], j) <==>
            Rounds(fl, c', last, j) || (!(last.Write? && last.compartment == j) && Rounded(fl, c, acts, j))
  {
    var more := acts + [last];
    assert more[..|more| - 1] == acts && more[|more| - 1] == last;
  }

  lemma LastWriteOfMore(acts: seq<Act>, last: Act, j: int)
    ensures LastWrite(acts + [last], j) ==
            if last.Write? && last.compartment == j then Some(last.value) else LastWrite(acts, j)
  {
    var more := acts + [last];
    assert more[..|more| - 1] == acts && more[|more| - 1] == last;
  }

  /** An int32 is rounded at most once: a tenth of a degree stays what it is. */
  lemma CarriedOn(rounded: bool, x: int, sent: int, stored: int)
    requires Carried(rounded, x, sent) && Kept(sent, stored)
    ensures Carried(rounded || stored != sent, x, stored)
  {
    if sent % 100 == 0 {
      OnTheGridIsExact(sent, stored);
    }
  }

  lemma OneMoreFrame(fl: real -> real, c: Cache, acts: seq<Act>, f: Frame, now: seq<int>)
    requires AfterAll(fl, c, acts).Some? && Updated(fl, c, acts, now)
    ensures Updated(fl, c, acts + [Hear(f)], now)
  {
    forall j | 0 <= j < |now| ensures HoldsAt(fl, c, acts + [Hear(f)], j, now[j]) {
      assert HoldsAt(fl, c, acts, j, now[j]);
      RoundedOfMore(fl, c, acts, AfterAll(fl, c, acts).value, Hear(f), j);
      LastWriteOfMore(acts, Hear(f), j);
    }
  }

  /** Confirmed writes add up. After any sequence of them, the old array published any number of
      times before each new one, and any other frames heard in between, the session's array is
      the first one with every written compartment at its last written value, and every other
      int32 as it was: exactly, but for the compartments that the cooler itself has rounded
      since, which are where it rounded them to. */
  lemma {:induction false} ConfirmedWritesAddUp(fl: real -> real, c: Cache, acts: seq<Act>)
    requires IsRounding(fl) && Consistent(fl, c) && AfterAll(fl, c, acts).Some? && AllClear(fl, c, acts)
    ensures Updated(fl, c, acts, Units(AfterAll(fl, c, acts).value, Csettemp))
  {
    if acts != [] {
      var before, last := acts[..|acts| - 1], acts[|acts| - 1];
      ConfirmedWritesAddUp(fl, c, before);
      AfterAllKeepsConsistent(fl, c, before);
      var c' := AfterAll(fl, c, before).value;
      assert acts == before + [last];
      match last
      case Hear(f) =>
        HearingKeepsUnits(fl, c', f);
        OneMoreFrame(fl, c, before, f, Units(c', Csettemp));
      case Write(v, idx, n, stored) =>
        var (frame, e) := SetArray(fl, c'.values, Csettemp, v, idx).value;
        WriteLeaves(fl, c', v, idx, n, stored, frame, e);
        StoredUnits(fl, c', stored);
        OneMoreWrite(fl, c, before, c', last, frame, e);
    }
  }

  /** And every frame sent along the way carries, int32 by int32, the session's array with the one
      compartment at exactly the milli-units asked for: so it carries every other compartment at
      its last written value, or as it was, unless the cooler has rounded it since. */
  lemma {:induction false} EveryFrameCarriesTheWholeArray(fl: real -> real, c: Cache, acts: seq<Act>, v: Value,
                                                          idx: int, frame: Frame, e: Expectation)
    requires IsRounding(fl) && Consistent(fl, c) && AfterAll(fl, c, acts).Some? && AllClear(fl, c, acts)
    requires SetArray(fl, AfterAll(fl, c, acts).value.values, Csettemp, v, idx) == Ok((frame, e))
    ensures 0 <= idx < |Units(c, Csettemp)| == |Units(AfterAll(fl, c, acts).value, Csettemp)| && Float64(fl, v).Ok?
    ensures |frame.payload| == 4 * |Units(c, Csettemp)|
    ensures Int32s(frame.payload) ==
            Units(AfterAll(fl, c, acts).value, Csettemp)[idx := ToMilli(fl, Float64(fl, v).value)]
    ensures forall j :: 0 <= j < |Int32s(frame.payload)| && j != idx ==>
              HoldsAt(fl, c, acts, j, Int32s(frame.payload)[j])
  {
    ConfirmedWritesAddUp(fl, c, acts);
    AfterAllKeepsConsistent(fl, c, acts);
    SetPointFrame(fl, AfterAll(fl, c, acts).value, v, idx, frame, e);
  }

  lemma {:induction false} ExactIsNotRounded(fl: real -> real, c: Cache, acts: seq<Act>, j: nat)
    requires AllExact(fl, c, acts)
    ensures !Rounded(fl, c, acts, j)
  {
    if acts != [] {
      ExactIsNotRounded(fl, c, acts[..|acts| - 1], j);
    }
  }

  /** With a cooler that stores what it is sent, nothing is lost and nothing else changes: the
      array, and every frame, holds exactly the last value written to each compartment, and
      exactly the first int32 of each that was not written. */
  lemma ExactWritesAddUp(fl: real -> real, c: Cache, acts: seq<Act>)
    requires IsRounding(fl) && Consistent(fl, c) && AfterAll(fl, c, acts).Some? && AllClear(fl, c, acts)
    requires AllExact(fl, c, acts)
    ensures var before, now := Units(c, Csettemp), Units(AfterAll(fl, c, acts).value, Csettemp);
            |now| == |before| && forall j :: 0 <= j < |now| ==> now[j] == Wanted(fl, before, acts, j)
  {
    ConfirmedWritesAddUp(fl, c, acts);
    var now := Units(AfterAll(fl, c, acts).value, Csettemp);
    forall j | 0 <= j < |now| ensures now[j] == Wanted(fl, Units(c, Csettemp), acts, j) {
      ExactIsNotRounded(fl, c, acts, j);
      assert HoldsAt(fl, c, acts, j, now[j]);
    }
  }

  /** Where the old array passes for the new one, writes do not add up: `x` is asked for one
      compartment, close to what is published, and stored in some way; the write counts as
      confirmed at once, and one for another compartment sends the old value again. */
  lemma EarlyWriteIsLost(fl: real -> real, units: seq<int>, x: real, n: int, idx: nat, stored: seq<int>, y: real,
                         m: int, jdx: nat)
    returns (second: Frame, e: Expectation)
    requires IsRounding(fl) && (forall u <- units :: FitsInt32(u)) && idx < |units| && jdx < |units|
    requires FitsInt32(n) && x * 1000.0 == n as real && FitsInt32(m) && y * 1000.0 == m as real
    requires StoredAs(stored, units[idx := n]) && -50 <= units[idx] - n <= 50
    ensures var next := After(fl, Showing(fl, units), Write(Float(x), idx, 1, stored));
            next.Some? && SetArray(fl, next.value.values, Csettemp, Float(y), jdx) == Ok((second, e))
    ensures Int32s(second.payload) == units[jdx := m]
  {
    second, e := AcceptedSetPoint(fl, units, y, m, jdx);
    EarlyWriteLeavesTheOld(fl, units, x, n, idx, stored);
  }

  lemma EarlyWriteLeavesTheOld(fl: real -> real, units: seq<int>, x: real, n: int, idx: nat, stored: seq<int>)
    requires IsRounding(fl) && (forall u <- units :: FitsInt32(u)) && idx < |units|
    requires FitsInt32(n) && x * 1000.0 == n as real
    requires StoredAs(stored, units[idx := n]) && -50 <= units[idx] - n <= 50
    ensures After(fl, Showing(fl, units), Write(Float(x), idx, 1, stored)) == Some(Showing(fl, units))
  {
    var frame, e := AcceptedSetPoint(fl, units, x, n, idx);
    ShowingIs(fl, units);
    WriteLeaves(fl, Showing(fl, units), Float(x), idx, 1, stored, frame, e);
    FromMilliNear(fl, units[idx]);
    CloseTo(fl, units[idx], n, FromMilli(fl, units[idx]), x);
    NearIsNotClear(fl, Showing(fl, units), x, idx, stored);
  }

  lemma NearIsNotClear(fl: real -> real, c: Cache, x: real, idx: nat, stored: seq<int>)
    requires idx < |Units(c, Csettemp)| && Within(fl, FromMilli(fl, Units(c, Csettemp)[idx]), x, 0.051)
    requires Float64(fl, Float(x)) == Ok(x)
    ensures !Clear(fl, c, Write(Float(x), idx, 1, stored))
  {
  }

  lemma CloseTo(fl: real -> real, u: int, n: int, shown: real, x: real)
    requires IsRounding(fl) && -50 <= u - n <= 50 && x * 1000.0 == n as real
    requires Abs(shown - u as real / 1000.0) <= 0.000002
    ensures Within(fl, shown, x, 0.051)
  {
    WithinIf(fl, shown, x, 0.051);
  }

  /** With 2.2 and 3.0 published, 2.25 is asked for compartment 0 and stored as 2.3, but confirmed
      by the old array; 6.0 for compartment 1 then sends 2.2 again. */
  lemma EarlyConfirmationLosesTheWrite(fl: real -> real) returns (second: Frame, e: Expectation)
    requires IsRounding(fl)
    ensures var next := After(fl, Showing(fl, [2200, 3000]), Write(Float(2.25), 0, 1, [2300, 3000]));
            next.Some? && SetArray(fl, next.value.values, Csettemp, Float(6.0), 1) == Ok((second, e))
    ensures Int32s(second.payload) == [2200, 6000]
  {
    second, e := EarlyWriteIsLost(fl, [2200, 3000], 2.25, 2250, 0, [2300, 3000], 6.0, 6000, 1);
  }
}
