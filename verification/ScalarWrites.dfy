/** What each write puts on the wire, from the value asked for, and which published payloads
    confirm it, from their bytes. */
module ScalarWrites {
  import opened Common
  import opened Frames
  import opened Floats
  import opened Codecs
  import opened Topics
  import opened Sessions
  import opened Readings
  import opened Writes

  // ---- words and truth values

  /** `s` is the word, in small letters or capitals. */
  predicate Spells(s: string, word: string) {
    && |s| == |word|
    && forall i :: 0 <= i < |s| ==>
         s[i] == word[i] || ('a' <= word[i] <= 'z' && s[i] as int + 32 == word[i] as int)
  }

  lemma LowerSpells(s: string, word: string)
    requires forall c <- word :: c < 'A' || 'Z' < c
    ensures Lower(s) == word <==> Spells(s, word)
  {
    if Lower(s) == word {
      forall i | 0 <= i < |s| ensures s[i] == word[i] || ('a' <= word[i] <= 'z' && s[i] as int + 32 == word[i] as int) {
        assert word[i] == LowerChar(s[i]);
      }
    }
    if Spells(s, word) {
      forall i | 0 <= i < |s| ensures Lower(s)[i] == word[i] {
        assert word[i] in word;
      }
    }
  }

  lemma UpperSpells(s: string, word: string, capitals: string)
    requires |word| == |capitals|
    requires forall i :: 0 <= i < |word| ==> 'a' <= word[i] <= 'z' && capitals[i] as int + 32 == word[i] as int
    ensures Upper(s) == capitals <==> Spells(s, word)
  {
    if Upper(s) == capitals {
      forall i | 0 <= i < |s| ensures s[i] == word[i] || ('a' <= word[i] <= 'z' && s[i] as int + 32 == word[i] as int) {
        assert capitals[i] == UpperChar(s[i]);
      }
    }
    if Spells(s, word) {
      forall i | 0 <= i < |s| ensures Upper(s)[i] == capitals[i] {
      }
    }
  }

  /** All values but these six are true. */
  lemma TruthyIff(v: Value)
    ensures Truthy(v) <==>
            v != Flag(false) && v != Int(0) && v != Float(0.0) && v != Text("") && v != Raw([]) && v != List([])
  {
  }

  /** What switches something on: a word for it, white space around it or not, and of other
      values the true ones. */
  predicate SwitchesOn(v: Value) {
    if v.Text? then
      var word := Trim(v.text);
      Spells(word, "1") || Spells(word, "true") || Spells(word, "on") || Spells(word, "yes")
    else Truthy(v)
  }

  lemma OnWords(s: string)
    ensures Lower(s) in TRUE_WORDS <==> Spells(s, "1") || Spells(s, "true") || Spells(s, "on") || Spells(s, "yes")
  {
    LowerSpells(s, "1");
    LowerSpells(s, "true");
    LowerSpells(s, "on");
    LowerSpells(s, "yes");
  }

  lemma FlagCoerces(fl: real -> real, c: Codec, v: Value)
    requires c == Bool || c == Bools
    ensures Coerce(fl, c, v) == Ok(Flag(SwitchesOn(v)))
  {
    if v.Text? {
      OnWords(Trim(v.text));
    }
  }

  // ---- the scalar topics

  function OnOff(on: bool): Bytes {
    [if on then 1 else 0, 0, 0, 0]
  }

  lemma OnOffIs(on: bool)
    ensures Int32Bytes(if on then 1 else 0) == OnOff(on)
  {
  }

  lemma ScalarIs(fl: real -> real, values: map<Topic, Value>, t: Topic, v: Value, compartment: Option<int>)
    requires t in {Coolerpow, Batprotlvl, Icepow}
    ensures SetFrame(fl, values, ByTopic(t), v, compartment) ==
            if compartment.Some? && compartment.value != 0 then Err(NoSuchCompartment) else SetScalar(fl, t, v)
  {
  }

  lemma ScalarSent(fl: real -> real, t: Topic, v: Value, x: Value, p: Bytes)
    requires Coerce(fl, CodecOf(t), v) == Ok(x) && Codecs.Encode(fl, CodecOf(t), x) == Ok(p)
    ensures SetScalar(fl, t, v) == Ok((Frame(0x11, AddressOf(t), p), Expectation(t, ValueOf(fl, t, p), Tolerance(t))))
  {
  }

  lemma FlagEncodes(fl: real -> real, on: bool)
    ensures Codecs.Encode(fl, Bool, Flag(on)) == Ok(OnOff(on))
  {
    OnOffIs(on);
  }

  lemma SwitchScalar(fl: real -> real, t: Topic, v: Value)
    requires t == Coolerpow || t == Icepow
    ensures var a := Address(if t == Coolerpow then 0x0B else 0x11, 0, 0, 0x1A);
            SetScalar(fl, t, v) ==
              Ok((Frame(0x11, a, OnOff(SwitchesOn(v))), Expectation(t, Flag(SwitchesOn(v)), 0.0)))
  {
    FlagCoerces(fl, Bool, v);
    FlagEncodes(fl, SwitchesOn(v));
    ScalarSent(fl, t, v, Flag(SwitchesOn(v)), OnOff(SwitchesOn(v)));
    SwitchReading(fl, t, OnOff(SwitchesOn(v)));
  }

  /** Cooler power and the ice maker: any value is taken, for no compartment or the first, and one
      int32 is sent, 1 to switch on and 0 to switch off. */
  lemma SwitchFrame(fl: real -> real, values: map<Topic, Value>, t: Topic, v: Value, compartment: Option<int>)
    requires t == Coolerpow || t == Icepow
    ensures var a := Address(if t == Coolerpow then 0x0B else 0x11, 0, 0, 0x1A);
            SetFrame(fl, values, ByTopic(t), v, compartment) ==
              if compartment.Some? && compartment.value != 0 then Err(NoSuchCompartment)
              else Ok((Frame(0x11, a, OnOff(SwitchesOn(v))), Expectation(t, Flag(SwitchesOn(v)), 0.0)))
  {
    SwitchScalar(fl, t, v);
    ScalarIs(fl, values, t, v, compartment);
  }

  /** The number that a battery protection level stands for. */
  predicate IsLevel(v: Value, n: int) {
    match v
    case Text(s) => (Spells(s, "low") && n == 0) || (Spells(s, "medium") && n == 1) || (Spells(s, "high") && n == 2)
    case Int(i) => n == i
    case Flag(on) => n == if on then 1 else 0
    case Float(x) =>
      if x < 0.0 then n as real - 1.0 < x <= n as real <= 0.0 else 0.0 <= n as real <= x < n as real + 1.0
    case _ => false
  }

  lemma LevelWords(s: string)
    ensures Upper(s) == "LOW" <==> Spells(s, "low")
    ensures Upper(s) == "MEDIUM" <==> Spells(s, "medium")
    ensures Upper(s) == "HIGH" <==> Spells(s, "high")
  {
    UpperSpells(s, "low", "LOW");
    UpperSpells(s, "medium", "MEDIUM");
    UpperSpells(s, "high", "HIGH");
  }

  lemma Truncates(x: real, n: int)
    requires IsLevel(Float(x), n)
    ensures Integer(Float(x)) == Ok(n)
  {
  }

  lemma LevelEncodes(v: Value, n: int)
    requires IsLevel(v, n)
    ensures EncodeEnum(BatteryProtection, v) == PackOne(n)
  {
    match v
    case Text(s) => LevelWords(s);
    case Float(x) => Truncates(x, n);
    case _ =>
  }

  /** Numbers and flags have a level, and of words these three. */
  predicate HasLevel(v: Value) {
    || v.Int? || v.Flag? || v.Float?
    || (v.Text? && (Spells(v.text, "low") || Spells(v.text, "medium") || Spells(v.text, "high")))
  }

  lemma LevelOf(v: Value) returns (n: int)
    requires HasLevel(v)
    ensures IsLevel(v, n)
  {
    n := match v
         case Text(s) => if Spells(s, "low") then 0 else if Spells(s, "medium") then 1 else 2
         case Int(i) => i
         case Flag(on) => if on then 1 else 0
         case Float(x) => if x < 0.0 then -(-x).Floor else x.Floor
         case _ => 0;
  }

  lemma NoLevelEncodes(v: Value)
    requires !HasLevel(v)
    ensures EncodeEnum(BatteryProtection, v) == Err(BadValue)
  {
    if v.Text? {
      LevelWords(v.text);
    }
  }

  /** Battery protection: the word or number of a level is taken, and its int32 is sent. */
  lemma ProtectionFrame(fl: real -> real, values: map<Topic, Value>, v: Value, compartment: Option<int>, n: int)
    requires IsLevel(v, n)
    ensures SetFrame(fl, values, ByTopic(Batprotlvl), v, compartment) ==
            if compartment.Some? && compartment.value != 0 then Err(NoSuchCompartment)
            else if !FitsInt32(n) then Err(NotEncodable(OutOfInt32))
            else Ok((Frame(0x11, Address(0x0D, 0, 0, 0x1A), Int32Bytes(n)), Expectation(Batprotlvl, Int(n), 0.0)))
  {
    ProtectionScalar(fl, v, n);
    ScalarIs(fl, values, Batprotlvl, v, compartment);
  }

  lemma ProtectionScalar(fl: real -> real, v: Value, n: int)
    requires IsLevel(v, n)
    ensures SetScalar(fl, Batprotlvl, v) ==
            if !FitsInt32(n) then Err(NotEncodable(OutOfInt32))
            else Ok((Frame(0x11, Address(0x0D, 0, 0, 0x1A), Int32Bytes(n)), Expectation(Batprotlvl, Int(n), 0.0)))
  {
    LevelEncodes(v, n);
    if FitsInt32(n) {
      LevelCoerces(fl, v, n);
      ScalarSent(fl, Batprotlvl, v, Int(n), Int32Bytes(n));
    } else {
      LevelOverflows(fl, v);
    }
  }

  lemma LevelOverflows(fl: real -> real, v: Value)
    requires EncodeEnum(BatteryProtection, v) == Err(OutOfInt32)
    ensures SetScalar(fl, Batprotlvl, v) == Err(NotEncodable(OutOfInt32))
  {
  }

  lemma LevelCoerces(fl: real -> real, v: Value, n: int)
    requires FitsInt32(n) && EncodeEnum(BatteryProtection, v) == Ok(Int32Bytes(n))
    ensures Coerce(fl, Enum(BatteryProtection), v) == Ok(Int(n))
    ensures EncodeEnum(BatteryProtection, Int(n)) == Ok(Int32Bytes(n))
    ensures ValueOf(fl, Batprotlvl, Int32Bytes(n)) == Int(n)
  {
    Int32RoundTrip(n);
  }

  /** And any other word, a list or a pair is refused. */
  lemma NoLevelIsRefused(fl: real -> real, values: map<Topic, Value>, v: Value, compartment: Option<int>)
    requires !HasLevel(v) && !v.Raw?
    ensures SetFrame(fl, values, ByTopic(Batprotlvl), v, compartment) ==
            if compartment.Some? && compartment.value != 0 then Err(NoSuchCompartment)
            else Err(NotEncodable(BadValue))
  {
    NoLevelEncodes(v);
  }

  // ---- compartment power

  /** The published array is sent again, as truth values, but for the compartment asked for. */
  lemma PowerWordFrame(fl: real -> real, c: Cache, v: Value, idx: int, frame: Frame, e: Expectation)
    requires Consistent(fl, c) && SetArray(fl, c.values, Cpow, v, idx) == Ok((frame, e))
    ensures frame.action == 0x11 && frame.address == Address(0x03, 0, 0, 0x1A)
    ensures 0 <= idx < |Int32s(frame.payload)|
    ensures Int32s(frame.payload)[idx] == if SwitchesOn(v) then 1 else 0
  {
    PowerFrame(fl, c, v, idx, frame, e);
    FlagCoerces(fl, Bools, v);
    ItemsOfUnits(fl, c, Cpow);
    var items := FlagList(Units(c, Cpow))[idx := Flag(SwitchesOn(v))];
    EncodeEachIs(fl, true, items);
    assert Sent(fl, true, items[idx]) == Ok(Int32s(frame.payload)[idx]);
  }

  /** It is accepted exactly when the array has been published and has the compartment. */
  lemma PowerAcceptedIff(fl: real -> real, c: Cache, v: Value, idx: int)
    requires Consistent(fl, c)
    ensures SetArray(fl, c.values, Cpow, v, idx).Ok? <==> 0 <= idx < |Units(c, Cpow)|
  {
    assert ConsistentAt(fl, c, Cpow);
    FlagCoerces(fl, Bools, v);
    if Cpow in c.values {
      ItemsOfUnits(fl, c, Cpow);
      if 0 <= idx < |Units(c, Cpow)| {
        EncodeEachIs(fl, true, FlagList(Units(c, Cpow))[idx := Flag(SwitchesOn(v))]);
      }
    }
  }

  // ---- set-points

  /** The milli-units sent for a number of degrees: a whole number and a truth value exactly. */
  predicate MilliDegrees(v: Value, sent: int) {
    match v
    case Int(n) => sent == 1000 * n
    case Flag(on) => sent == if on then 1000 else 0
    case Float(x) => Abs(x * 1000.0 - sent as real) <= 0.501
    case _ => false
  }

  /** The compartment asked for is sent as the degrees asked for, in thousandths. */
  lemma DegreesFrame(fl: real -> real, c: Cache, v: Value, idx: int, frame: Frame, e: Expectation)
    requires IsRounding(fl) && Consistent(fl, c) && SetArray(fl, c.values, Csettemp, v, idx) == Ok((frame, e))
    ensures frame.action == 0x11 && frame.address == Address(0x05, 0, 0, 0x1A)
    ensures 0 <= idx < |Int32s(frame.payload)| && MilliDegrees(v, Int32s(frame.payload)[idx])
  {
    SetPointFrame(fl, c, v, idx, frame, e);
    match v
    case Int(n) => WholeDegreesFit(fl, n);
    case Flag(on) => Whole(fl, if on then 1 else 0, if on then 1.0 else 0.0);
    case Float(x) => ToMilliNear(fl, x);
  }

  lemma Whole(fl: real -> real, n: int, x: real)
    requires IsRounding(fl) && -5000000 <= n <= 5000000 && Near(n as real, x)
    ensures ToMilli(fl, x) == 1000 * n
  {
    RoundsNear(fl, x * 1000.0);
    RoundIs(fl(x * 1000.0), 1000 * n);
  }

  lemma WholeDegreesFit(fl: real -> real, n: int)
    requires IsRounding(fl)
    ensures FitsInt32(ToMilli(fl, fl(n as real))) <==> FitsInt32(1000 * n)
    ensures FitsInt32(1000 * n) ==> ToMilli(fl, fl(n as real)) == 1000 * n
  {
    var m := if n > 5000000 then 5000000 else if n < -5000000 then -5000000 else n;
    RoundsNear(fl, m as real);
    Whole(fl, m, fl(m as real));
    if m < n {
      Monotone(fl, m as real, n as real);
      ToMilliMonotone(fl, fl(m as real), fl(n as real));
    } else if n < m {
      Monotone(fl, n as real, m as real);
      ToMilliMonotone(fl, fl(n as real), fl(m as real));
    }
  }

  /** A whole number of degrees is accepted exactly when the array is known and has the
      compartment, and the thousandths fit an int32 and the range published for it, if any. */
  lemma WholeDegreesAcceptedIff(fl: real -> real, c: Cache, n: int, idx: int)
    requires IsRounding(fl) && Consistent(fl, c)
    ensures SetArray(fl, c.values, Csettemp, Int(n), idx).Ok? <==>
            && 0 <= idx < |Units(c, Csettemp)| && FitsInt32(1000 * n)
            && (2 * idx + 1 < |Units(c, Ctemprng)| ==>
                  Units(c, Ctemprng)[2 * idx] <= 1000 * n <= Units(c, Ctemprng)[2 * idx + 1])
  {
    SetPointAcceptedIff(fl, c, Int(n), idx);
    WholeDegreesFit(fl, n);
    if 0 <= idx && FitsInt32(1000 * n) && 2 * idx + 1 < |Units(c, Ctemprng)| {
      Int32sFitAll(c, Ctemprng);
      WholeDegreesLie(fl, Units(c, Ctemprng)[2 * idx], n);
      WholeDegreesLie(fl, Units(c, Ctemprng)[2 * idx + 1], n);
    }
  }

  lemma WholeDegreesLie(fl: real -> real, bound: int, n: int)
    requires IsRounding(fl) && FitsInt32(bound) && FitsInt32(1000 * n)
    ensures FromMilli(fl, bound) <= fl(n as real) <==> bound <= 1000 * n
    ensures fl(n as real) <= FromMilli(fl, bound) <==> 1000 * n <= bound
  {
    var q := bound as real / 1000.0;
    MilliRoundTrip(fl, bound);
    WholeDegreesFit(fl, n);
    if FromMilli(fl, bound) <= fl(n as real) {
      ToMilliMonotone(fl, FromMilli(fl, bound), fl(n as real));
    }
    if fl(n as real) <= FromMilli(fl, bound) {
      ToMilliMonotone(fl, fl(n as real), FromMilli(fl, bound));
    }
    if q <= n as real {
      Monotone(fl, q, n as real);
    }
    if n as real <= q {
      Monotone(fl, n as real, q);
    }
  }

  /** A truth value is a number and is accepted when there is no range; a list or a pair is none
      and is refused. */
  lemma OtherDegrees(fl: real -> real, c: Cache, v: Value, idx: int)
    requires IsRounding(fl) && Consistent(fl, c)
    requires 0 <= idx < |Units(c, Csettemp)| && Units(c, Ctemprng) == []
    ensures v.Flag? ==> SetArray(fl, c.values, Csettemp, v, idx).Ok?
    ensures v.List? || v.Pair? ==> SetArray(fl, c.values, Csettemp, v, idx) == Err(NotEncodable(BadValue))
  {
    SetPointAcceptedIff(fl, c, v, idx);
    assert ConsistentAt(fl, c, Csettemp);
    ItemsOfUnits(fl, c, Csettemp);
    if v.Flag? {
      Whole(fl, if v.on then 1 else 0, if v.on then 1.0 else 0.0);
    }
  }

  // ---- which payloads confirm

  /** Whether a payload shows something switched on: one of four bytes or more by its first int32,
      a shorter one, which is compared as it is, unless it is empty. */
  predicate ShowsOn(p: Bytes) {
    if |p| >= 4 then p[..4] != [0, 0, 0, 0] else p != []
  }

  /** A published switch confirms exactly when it shows what was asked for. */
  lemma SwitchConfirmsIff(fl: real -> real, t: Topic, v: Value, e: Expectation, p: Bytes)
    requires (t == Coolerpow || t == Icepow) && e == Expectation(t, Flag(SwitchesOn(v)), 0.0)
    ensures Verdict(fl, e, EchoOf(fl, t, p)) == if ShowsOn(p) == SwitchesOn(v) then Some(true) else None
  {
    EchoVerdict(fl, e, p);
    if |p| >= 4 {
      SwitchReading(fl, t, p);
    } else {
      ShortIsRaw(fl, t, p);
    }
  }

  /** A published level confirms exactly when it is the one sent. */
  lemma ProtectionConfirmsIff(fl: real -> real, e: Expectation, n: int, p: Bytes)
    requires IsRounding(fl) && FitsInt32(n) && e == Expectation(Batprotlvl, Int(n), 0.0)
    ensures Verdict(fl, e, EchoOf(fl, Batprotlvl, p)) == if Holds(p, n) then Some(true) else None
  {
    EchoVerdict(fl, e, p);
    if |p| >= 4 {
      HoldsIff(p, n);
      var m := Int32At(p, 0);
      HoldsIff(p, m);
      NumberReading(fl, Batprotlvl, p, m);
      WholeNumbersAreExact(fl, m, n);
    } else {
      ShortIsRaw(fl, Batprotlvl, p);
    }
  }

  lemma WholeNumbersAreExact(fl: real -> real, m: int, n: int)
    requires IsRounding(fl) && FitsInt32(m) && FitsInt32(n)
    ensures Within(fl, fl(m as real), fl(n as real), 0.0) <==> m == n
  {
    RoundsNear(fl, m as real);
    RoundsNear(fl, n as real);
    RoundsNear(fl, fl(m as real) - fl(n as real));
    RoundsNear(fl, 0.0);
    if m == n {
      WithinIf(fl, fl(m as real), fl(n as real), 0.0);
    }
  }

  /** A published array of compartment power confirms exactly when it has as many compartments as
      were sent, and each is on or off as it was sent. */
  lemma PowerConfirmsIff(fl: real -> real, c: Cache, v: Value, idx: int, frame: Frame, e: Expectation, p: Bytes)
    requires Consistent(fl, c) && SetArray(fl, c.values, Cpow, v, idx) == Ok((frame, e))
    ensures Verdict(fl, e, EchoOf(fl, Cpow, p)) == if SamePower(p, frame.payload) then Some(true) else None
  {
    PowerFrame(fl, c, v, idx, frame, e);
    EchoVerdict(fl, e, p);
    SamePowerIff(fl, p, frame.payload);
  }

  predicate SamePower(p: Bytes, q: Bytes) {
    |p| / 4 == |q| / 4 && forall i :: 0 <= i < |p| / 4 ==> SameAt(p, q, i)
  }

  predicate SameAt(p: Bytes, q: Bytes, i: nat)
    requires i < |p| / 4 && i < |q| / 4
  {
    p[4 * i..4 * i + 4] == [0, 0, 0, 0] <==> q[4 * i..4 * i + 4] == [0, 0, 0, 0]
  }

  lemma SamePowerIff(fl: real -> real, p: Bytes, q: Bytes)
    ensures Close(fl, List(FlagList(Int32s(p))), List(FlagList(Int32s(q))), 0.0) <==> SamePower(p, q)
  {
    var xs, ys := FlagList(Int32s(p)), FlagList(Int32s(q));
    if |xs| == |ys| {
      forall i | 0 <= i < |xs| ensures Close(fl, xs[i], ys[i], 0.0) <==> SameAt(p, q, i) {
        FlagAt(p, i);
        FlagAt(q, i);
      }
    }
  }

  lemma FlagAt(p: Bytes, i: nat)
    requires i < |p| / 4
    ensures FlagList(Int32s(p))[i] == Flag(p[4 * i..4 * i + 4] != [0, 0, 0, 0])
  {
    FlagsReading(x => x, Cpow, p, i);
  }

  /** A published array of set-points confirms exactly when it has as many compartments as were
      sent, the one asked for is within the tolerance of the request, and each other within the
      tolerance of what was published before. */
  lemma SetPointConfirmsIff(fl: real -> real, c: Cache, v: Value, idx: int, frame: Frame, e: Expectation, p: Bytes)
    requires IsRounding(fl) && Consistent(fl, c) && SetArray(fl, c.values, Csettemp, v, idx) == Ok((frame, e))
    ensures 0 <= idx < |Units(c, Csettemp)| && Float64(fl, v).Ok?
    ensures Verdict(fl, e, EchoOf(fl, Csettemp, p)) ==
            if SameSetPoints(fl, Int32s(p), Units(c, Csettemp), idx, Float64(fl, v).value) then Some(true) else None
  {
    SetPointFrame(fl, c, v, idx, frame, e);
    EchoVerdict(fl, e, p);
    SameSetPointsIff(fl, Int32s(p), Units(c, Csettemp), idx, Float64(fl, v).value);
  }

  predicate SameSetPoints(fl: real -> real, shown: seq<int>, units: seq<int>, idx: nat, x: real) {
    && |shown| == |units|
    && forall i :: 0 <= i < |shown| ==>
         Within(fl, FromMilli(fl, shown[i]), if i == idx then x else FromMilli(fl, units[i]), 0.051)
  }

  lemma SameSetPointsIff(fl: real -> real, shown: seq<int>, units: seq<int>, idx: nat, x: real)
    requires idx < |units|
    ensures Close(fl, List(MilliList(fl, shown)), List(MilliList(fl, units)[idx := Float(x)]), 0.051) <==>
            SameSetPoints(fl, shown, units, idx, x)
  {
    var xs, ys := MilliList(fl, shown), MilliList(fl, units)[idx := Float(x)];
    if |xs| == |ys| {
      forall i | 0 <= i < |xs|
        ensures Close(fl, xs[i], ys[i], 0.051) <==>
                Within(fl, FromMilli(fl, shown[i]), if i == idx then x else FromMilli(fl, units[i]), 0.051)
      {
      }
    }
  }

  // ---- what is refused, and as what

  /** A topic that is not there, or not one of the five, is refused before anything else. */
  lemma NotWritableIff(fl: real -> real, values: map<Topic, Value>, a: Address, v: Value, compartment: Option<int>)
    ensures var r := SetFrame(fl, values, ByAddress(a), v, compartment);
            && (r == Err(UnknownTopic) <==> forall t: Topic :: AddressOf(t) != a)
            && (r == Err(NotWritable) <==>
                  (exists t: Topic :: AddressOf(t) == a)
                  && !(a.inst == 0 && a.subclass == 0 && a.cls == 0x1A && a.param in {0x03, 0x05, 0x0B, 0x0D, 0x11}))
  {
    WritableIff(a);
    forall t: Topic ensures AddressOf(t) == a <==> TopicAt(a) == Some(t) {
      TopicAtIff(a, t);
    }
    if TopicAt(a).Some? {
      assert AddressOf(TopicAt(a).value) == a;
    }
  }

  /** The arrays need a published state, and then a compartment of it; no compartment is the
      first. */
  lemma ArrayRefusals(fl: real -> real, c: Cache, t: Topic, v: Value, compartment: Option<int>)
    requires Consistent(fl, c) && (t == Cpow || t == Csettemp)
    ensures var r := SetFrame(fl, c.values, ByTopic(t), v, compartment);
            var idx := if compartment.Some? then compartment.value else 0;
            && (r == Err(StateUnknown) <==> Units(c, t) == [])
            && (r == Err(NoSuchCompartment) <==> Units(c, t) != [] && !(0 <= idx < |Units(c, t)|))
            && (0 <= idx < |Units(c, t)| ==> r == SetArray(fl, c.values, t, v, idx))
  {
    assert ConsistentAt(fl, c, t);
    if t in c.values {
      ItemsOfUnits(fl, c, t);
    }
  }
}
