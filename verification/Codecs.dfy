/** Python values as the library holds them, and the payload codecs. */
module Codecs {
  import opened Common
  import opened Floats

  datatype Value =
    | Raw(raw: Bytes)
    | Text(text: string)
    | Flag(on: bool)
    | Int(i: int)
    | Float(x: real)
    | Pair(lo: real, hi: real)
    | List(items: seq<Value>)

  /** Python's `bool(v)`. */
  predicate Truthy(v: Value) {
    match v
    case Raw(b) => b != []
    case Text(s) => s != ""
    case Flag(b) => b
    case Int(i) => i != 0
    case Float(x) => x != 0.0
    case Pair(_, _) => true
    case List(items) => items != []
  }

  // ---- little-endian int32

  function Int32Bytes(v: int): Bytes
    requires FitsInt32(v)
  {
    var u := if v < 0 then v + 0x1_0000_0000 else v;
    [u % 256, u / 256 % 256, u / 256 / 256 % 256, u / 256 / 256 / 256]
  }

  function LittleEndian(a: int, b: int, c: int, d: int): int {
    a + 256 * (b + 256 * (c + 256 * d))
  }

  function Int32At(p: Bytes, o: nat): (v: int)
    requires o + 4 <= |p|
    ensures FitsInt32(v)
  {
    var u: int := LittleEndian(p[o], p[o + 1], p[o + 2], p[o + 3]);
    if u <= INT32_MAX then u else u - 0x1_0000_0000
  }

  /** The int32s of a payload; one to three trailing bytes are ignored. */
  function Int32s(p: Bytes): seq<int> {
    seq(|p| / 4, i requires 0 <= i < |p| / 4 => Int32At(p, 4 * i))
  }

  function Pack(vs: seq<int>): Bytes
    requires forall v <- vs :: FitsInt32(v)
  {
    if vs == [] then [] else Int32Bytes(vs[0]) + Pack(vs[1..])
  }

  lemma Int32RoundTrip(v: int)
    requires FitsInt32(v)
    ensures Int32At(Int32Bytes(v), 0) == v
  {
  }

  lemma DivideBy256(b: int, n: int)
    requires 0 <= b < 256
    ensures (b + 256 * n) / 256 == n && (b + 256 * n) % 256 == b
  {
  }

  lemma BytesRoundTrip(p: Bytes)
    requires |p| == 4
    ensures Int32Bytes(Int32At(p, 0)) == p
  {
    DivideBy256(p[0], LittleEndian(p[1], p[2], p[3], 0));
    DivideBy256(p[1], LittleEndian(p[2], p[3], 0, 0));
    DivideBy256(p[2], p[3]);
  }

  lemma {:induction false} PackSlice(vs: seq<int>, i: nat)
    requires forall v <- vs :: FitsInt32(v)
    requires i < |vs|
    ensures |Pack(vs)| == 4 * |vs|
    ensures Pack(vs)[4 * i..4 * i + 4] == Int32Bytes(vs[i])
  {
    PackLength(vs);
    PackLength(vs[1..]);
    if i > 0 {
      PackSlice(vs[1..], i - 1);
      assert Pack(vs)[4 * i..4 * i + 4] == Pack(vs[1..])[4 * (i - 1)..4 * (i - 1) + 4];
    }
  }

  lemma {:induction false} PackLength(vs: seq<int>)
    requires forall v <- vs :: FitsInt32(v)
    ensures |Pack(vs)| == 4 * |vs|
  {
    if vs != [] {
      PackLength(vs[1..]);
    }
  }

  lemma Int32AtSlice(p: Bytes, o: nat)
    requires o + 4 <= |p|
    ensures Int32At(p, o) == Int32At(p[o..o + 4], 0)
  {
  }

  /** Packing int32s and reading them back is the identity. */
  lemma Int32sOfPack(vs: seq<int>)
    requires forall v <- vs :: FitsInt32(v)
    ensures Int32s(Pack(vs)) == vs
  {
    PackLength(vs);
    forall i | 0 <= i < |vs| ensures Int32At(Pack(vs), 4 * i) == vs[i] {
      PackSlice(vs, i);
      Int32AtSlice(Pack(vs), 4 * i);
      Int32RoundTrip(vs[i]);
    }
  }

  /** Reading a payload and packing it again loses only the one to three odd bytes. */
  lemma PackOfInt32s(p: Bytes)
    ensures forall v <- Int32s(p) :: FitsInt32(v)
    ensures Pack(Int32s(p)) == p[..|p| / 4 * 4]
  {
    var vs := Int32s(p);
    PackLength(vs);
    forall k | 0 <= k < 4 * |vs| ensures Pack(vs)[k] == p[k] {
      var i := k / 4;
      PackSlice(vs, i);
      Int32AtSlice(p, 4 * i);
      BytesRoundTrip(p[4 * i..4 * i + 4]);
      assert Pack(vs)[k] == Pack(vs)[4 * i..4 * i + 4][k - 4 * i];
    }
  }

  // ---- codecs

  datatype EnumClass = BatteryProtection | PowerSource | ProductType

  datatype Codec = Int32 | Bool | Bools | Milli | Millis | MilliPairs | Enum(cls: EnumClass) | Str | Mac | U16s

  function Member(cls: EnumClass, name: string): Option<int> {
    match cls
    case BatteryProtection =>
      if name == "LOW" then Some(0) else if name == "MEDIUM" then Some(1)
      else if name == "HIGH" then Some(2) else None
    case PowerSource =>
      if name == "AC" then Some(0) else if name == "DC" then Some(1) else None
    case ProductType =>
      if name == "UNCONFIGURED" then Some(0) else if name == "SINGLE_ZONE" then Some(1)
      else if name == "SINGLE_ZONE_ICEMAKER" then Some(2) else if name == "DUAL_ZONE" then Some(3) else None
  }

  function LowerChar(c: char): char {
    if 'A' <= c <= 'Z' then c + 32 as char else c
  }

  function UpperChar(c: char): char {
    if 'a' <= c <= 'z' then c - 32 as char else c
  }

  function Lower(s: string): string {
    seq(|s|, i requires 0 <= i < |s| => LowerChar(s[i]))
  }

  function Upper(s: string): string {
    seq(|s|, i requires 0 <= i < |s| => UpperChar(s[i]))
  }

  /** The white space of ASCII, as stripping a text takes it. */
  predicate IsBlank(c: char) {
    c == ' ' || '\t' <= c <= '\r' || 28 <= c as int <= 31
  }

  function Trim(s: string): string {
    Strip(s, IsBlank)
  }

  /** The text before the first NUL, one character a byte. */
  function UntilNul(p: Bytes): string {
    if p == [] || p[0] == 0 then "" else [p[0] as char] + UntilNul(p[1..])
  }

  function HexDigit(d: int): char
    requires 0 <= d < 16
  {
    "0123456789abcdef"[d]
  }

  function MacText(p: Bytes): string {
    if p == [] then ""
    else [HexDigit(p[0] / 16), HexDigit(p[0] % 16)] + (if |p| == 1 then "" else ":") + MacText(p[1..])
  }

  function Uint16s(p: Bytes): seq<Value> {
    seq(|p| / 2, i requires 0 <= i < |p| / 2 => Int(LittleEndian(p[2 * i], p[2 * i + 1], 0, 0)))
  }

  function MilliList(fl: real -> real, vs: seq<int>): seq<Value> {
    seq(|vs|, i requires 0 <= i < |vs| => Float(FromMilli(fl, vs[i])))
  }

  function PairList(fl: real -> real, vs: seq<int>): seq<Value> {
    seq(|vs| / 2, i requires 0 <= i < |vs| / 2 =>
      Pair(FromMilli(fl, vs[2 * i]), FromMilli(fl, vs[2 * i + 1])))
  }

  function FlagList(vs: seq<int>): seq<Value> {
    seq(|vs|, i requires 0 <= i < |vs| => Flag(vs[i] != 0))
  }

  /** `codec.decode`; `None` stands for `DecodeError`. */
  function Decode(fl: real -> real, c: Codec, p: Bytes): Option<Value> {
    match c
    case Int32 => if |p| < 4 then None else Some(Int(Int32At(p, 0)))
    case Bool => if |p| < 4 then None else Some(Flag(Int32At(p, 0) != 0))
    case Bools => Some(List(FlagList(Int32s(p))))
    case Milli => if |p| < 4 then None else Some(Float(FromMilli(fl, Int32At(p, 0))))
    case Millis => Some(List(MilliList(fl, Int32s(p))))
    case MilliPairs => Some(List(PairList(fl, Int32s(p))))
    case Enum(_) => if |p| < 4 then None else Some(Int(Int32At(p, 0)))
    case Str => Some(Text(Trim(UntilNul(p))))
    case Mac => if |p| < 6 then None else Some(Text(MacText(p[..6])))
    case U16s => Some(List(Uint16s(p)))
  }

  datatype EncodeError = BadValue | OutOfInt32

  function Float64(fl: real -> real, v: Value): Result<real, EncodeError> {
    match v
    case Float(x) => Ok(x)
    case Int(i) => Ok(fl(i as real))
    case Flag(b) => Ok(if b then 1.0 else 0.0)
    case _ => Err(BadValue)
  }

  /** Python's `int(v)`, which truncates. */
  function Integer(v: Value): Result<int, EncodeError> {
    match v
    case Int(i) => Ok(i)
    case Flag(b) => Ok(if b then 1 else 0)
    case Float(x) => Ok(if x < 0.0 then -(-x).Floor else x.Floor)
    case _ => Err(BadValue)
  }

  function PackOne(v: int): Result<Bytes, EncodeError> {
    if FitsInt32(v) then Ok(Int32Bytes(v)) else Err(OutOfInt32)
  }

  function EncodeMilli(fl: real -> real, v: Value): Result<Bytes, EncodeError> {
    match Float64(fl, v)
    case Err(e) => Err(e)
    case Ok(x) => PackOne(ToMilli(fl, x))
  }

  function EncodeFlag(v: Value): Bytes {
    Int32Bytes(if Truthy(v) then 1 else 0)
  }

  function EncodeEnum(cls: EnumClass, v: Value): Result<Bytes, EncodeError> {
    match v
    case Text(s) =>
      (match Member(cls, Upper(s))
       case None => Err(BadValue)
       case Some(i) => PackOne(i))
    case _ =>
      match Integer(v)
      case Err(e) => Err(e)
      case Ok(i) => PackOne(i)
  }

  function EncodeEach(fl: real -> real, flags: bool, items: seq<Value>): Result<Bytes, EncodeError> {
    if items == [] then Ok([])
    else
      match if flags then Ok(EncodeFlag(items[0])) else EncodeMilli(fl, items[0])
      case Err(e) => Err(e)
      case Ok(head) =>
        match EncodeEach(fl, flags, items[1..])
        case Err(e) => Err(e)
        case Ok(tail) => Ok(head + tail)
  }

  /** `codec.encode`, for the codecs of writable topics. */
  function Encode(fl: real -> real, c: Codec, v: Value): Result<Bytes, EncodeError> {
    match c
    case Bool => Ok(EncodeFlag(v))
    case Bools => if v.List? then EncodeEach(fl, true, v.items) else Err(BadValue)
    case Milli => EncodeMilli(fl, v)
    case Millis => if v.List? then EncodeEach(fl, false, v.items) else Err(BadValue)
    case Enum(cls) => EncodeEnum(cls, v)
    case _ => Err(BadValue)
  }

  /** The pair codec's encoder, which no writable topic uses. */
  function EncodePairs(fl: real -> real, pairs: seq<Value>): Result<Bytes, EncodeError> {
    if pairs == [] then Ok([])
    else if !pairs[0].Pair? then Err(BadValue)
    else
      match EncodeEach(fl, false, [Float(pairs[0].lo), Float(pairs[0].hi)])
      case Err(e) => Err(e)
      case Ok(head) =>
        match EncodePairs(fl, pairs[1..])
        case Err(e) => Err(e)
        case Ok(tail) => Ok(head + tail)
  }

  // ---- what the array codecs do

  /** The integer that the array codecs send for one element. */
  function Sent(fl: real -> real, flags: bool, v: Value): Result<int, EncodeError> {
    if flags then Ok(if Truthy(v) then 1 else 0)
    else match Float64(fl, v)
         case Err(e) => Err(e)
         case Ok(x) => if FitsInt32(ToMilli(fl, x)) then Ok(ToMilli(fl, x)) else Err(OutOfInt32)
  }

  predicate AllSendable(fl: real -> real, flags: bool, items: seq<Value>) {
    forall i :: 0 <= i < |items| ==> Sent(fl, flags, items[i]).Ok?
  }

  /** An array is encoded element by element: it succeeds exactly when every element has an
      int32, and then the payload holds those int32s. */
  lemma {:induction false} EncodeEachIs(fl: real -> real, flags: bool, items: seq<Value>)
    ensures var r := EncodeEach(fl, flags, items);
            && (r.Ok? <==> AllSendable(fl, flags, items))
            && (r.Ok? ==>
                  && |Int32s(r.value)| == |items| && |r.value| == 4 * |items|
                  && forall i :: 0 <= i < |items| ==> Sent(fl, flags, items[i]) == Ok(Int32s(r.value)[i]))
  {
    if items != [] {
      EncodeEachIs(fl, flags, items[1..]);
      EncodeHead(fl, flags, items);
      AllSendableCons(fl, flags, items);
      var head, tail := Sent(fl, flags, items[0]), EncodeEach(fl, flags, items[1..]);
      if head.Ok? && tail.Ok? {
        Int32sCons(head.value, tail.value);
      }
    }
  }

  lemma AllSendableCons(fl: real -> real, flags: bool, items: seq<Value>)
    requires items != []
    ensures AllSendable(fl, flags, items) <==> Sent(fl, flags, items[0]).Ok? && AllSendable(fl, flags, items[1..])
  {
    if AllSendable(fl, flags, items[1..]) && Sent(fl, flags, items[0]).Ok? {
      forall i | 0 <= i < |items| ensures Sent(fl, flags, items[i]).Ok? {
        assert i > 0 ==> items[i] == items[1..][i - 1];
      }
    }
    if AllSendable(fl, flags, items) {
      forall i | 0 <= i < |items[1..]| ensures Sent(fl, flags, items[1..][i]).Ok? {
        assert items[1..][i] == items[i + 1];
      }
    }
  }

  lemma EncodeHead(fl: real -> real, flags: bool, items: seq<Value>)
    requires items != []
    ensures var (head, tail) := (Sent(fl, flags, items[0]), EncodeEach(fl, flags, items[1..]));
            && (head.Ok? ==> FitsInt32(head.value))
            && EncodeEach(fl, flags, items) ==
               if head.Err? then Err(head.error)
               else if tail.Err? then Err(tail.error) else Ok(Int32Bytes(head.value) + tail.value)
  {
  }

  lemma Int32sCons(n: int, tail: Bytes)
    requires FitsInt32(n) && |tail| % 4 == 0
    ensures Int32s(Int32Bytes(n) + tail) == [n] + Int32s(tail)
  {
    var p := Int32Bytes(n) + tail;
    assert p[..4] == Int32Bytes(n);
    Int32AtSlice(p, 0);
    assert p[0..4] == p[..4];
    Int32RoundTrip(n);
    forall i | 0 <= i < |tail| / 4 ensures Int32At(p, 4 * (i + 1)) == Int32At(tail, 4 * i) {
    }
  }

  /** A decoded milli array encodes to the int32s it came from, whatever the rounding. */
  lemma MillisRoundTrip(fl: real -> real, p: Bytes)
    requires IsRounding(fl)
    ensures Decode(fl, Millis, p).Some?
    ensures Encode(fl, Millis, Decode(fl, Millis, p).value) == Ok(p[..|p| / 4 * 4])
  {
    var vs := Int32s(p);
    var items := MilliList(fl, vs);
    forall i | 0 <= i < |vs| ensures Sent(fl, false, items[i]) == Ok(vs[i]) {
      MilliRoundTrip(fl, vs[i]);
    }
    EncodeEachIs(fl, false, items);
    var q := EncodeEach(fl, false, items).value;
    assert Int32s(q) == vs;
    PackOfInt32s(p);
    PackOfInt32s(q);
    assert q[..|q| / 4 * 4] == q;
  }

  lemma PairListTail(fl: real -> real, vs: seq<int>)
    requires |vs| >= 2
    ensures PairList(fl, vs)[1..] == PairList(fl, vs[2..])
    ensures PairList(fl, vs)[0] == Pair(FromMilli(fl, vs[0]), FromMilli(fl, vs[1]))
  {
    var tail := PairList(fl, vs)[1..];
    forall i | 0 <= i < |tail| ensures tail[i] == PairList(fl, vs[2..])[i] {
      assert vs[2..][2 * i] == vs[2 * (i + 1)];
    }
  }

  lemma {:induction false} EvenPairsRoundTrip(fl: real -> real, vs: seq<int>)
    requires IsRounding(fl) && |vs| % 2 == 0 && forall v <- vs :: FitsInt32(v)
    ensures EncodePairs(fl, PairList(fl, vs)) == Ok(Pack(vs))
  {
    if vs != [] {
      var rest := vs[2..];
      EvenPairsRoundTrip(fl, rest);
      PairListTail(fl, vs);
      EncodePair(fl, vs[0], vs[1]);
      EncodePairsHead(fl, PairList(fl, vs), Int32Bytes(vs[0]) + Int32Bytes(vs[1]));
      assert vs == [vs[0], vs[1]] + rest;
      PackTwo(vs[0], vs[1], rest);
    }
  }

  /** A payload of whole int32s. */
  lemma WholeInt32s(p: Bytes, n: nat)
    requires |p| == 4 * n
    ensures |Int32s(p)| == n && (forall u <- Int32s(p) :: FitsInt32(u)) && Pack(Int32s(p)) == p
  {
    PackOfInt32s(p);
    assert p[..|p| / 4 * 4] == p;
  }

  lemma Int32sOfPrefix(p: Bytes, n: nat)
    requires 4 * n <= |p|
    ensures Int32s(p[..4 * n]) == Int32s(p)[..n]
  {
    var q := p[..4 * n];
    forall i | 0 <= i < n ensures Int32At(q, 4 * i) == Int32At(p, 4 * i) {
    }
  }

  lemma PairListOfPrefix(fl: real -> real, vs: seq<int>, n: nat)
    requires |vs| / 2 == n
    ensures PairList(fl, vs) == PairList(fl, vs[..2 * n])
  {
  }

  lemma PairsOfPrefix(fl: real -> real, p: Bytes, n: nat)
    requires IsRounding(fl) && 8 * n <= |p| < 8 * n + 8
    ensures EncodePairs(fl, PairList(fl, Int32s(p))) == Ok(p[..8 * n])
  {
    var q := p[..4 * (2 * n)];
    Int32sOfPrefix(p, 2 * n);
    PairListOfPrefix(fl, Int32s(p), n);
    WholeInt32s(q, 2 * n);
    EvenPairsRoundTrip(fl, Int32s(q));
  }

  /** The same for pairs; an odd last int32 is lost as well. */
  lemma PairsRoundTrip(fl: real -> real, p: Bytes)
    requires IsRounding(fl)
    ensures Decode(fl, MilliPairs, p).Some?
    ensures EncodePairs(fl, Decode(fl, MilliPairs, p).value.items) == Ok(p[..|p| / 8 * 8])
  {
    PairsOfPrefix(fl, p, |p| / 8);
  }

  lemma EncodePairsHead(fl: real -> real, pairs: seq<Value>, head: Bytes)
    requires pairs != [] && pairs[0].Pair?
    requires EncodeEach(fl, false, [Float(pairs[0].lo), Float(pairs[0].hi)]) == Ok(head)
    requires EncodePairs(fl, pairs[1..]).Ok?
    ensures EncodePairs(fl, pairs) == Ok(head + EncodePairs(fl, pairs[1..]).value)
  {
  }

  lemma EncodePair(fl: real -> real, a: int, b: int)
    requires IsRounding(fl) && FitsInt32(a) && FitsInt32(b)
    ensures EncodeEach(fl, false, [Float(FromMilli(fl, a)), Float(FromMilli(fl, b))]) ==
            Ok(Int32Bytes(a) + Int32Bytes(b))
  {
    MilliRoundTrip(fl, a);
    MilliRoundTrip(fl, b);
    var pair := [Float(FromMilli(fl, a)), Float(FromMilli(fl, b))];
    EncodeHead(fl, false, pair);
    EncodeHead(fl, false, pair[1..]);
    assert Int32Bytes(b) + [] == Int32Bytes(b);
  }

  lemma PackTwo(a: int, b: int, vs: seq<int>)
    requires FitsInt32(a) && FitsInt32(b) && forall v <- vs :: FitsInt32(v)
    ensures Pack([a, b] + vs) == Int32Bytes(a) + Int32Bytes(b) + Pack(vs)
  {
    assert ([a, b] + vs)[1..] == [b] + vs;
    assert ([b] + vs)[1..] == vs;
  }

  // ---- comparison

  predicate CloseScalars(fl: real -> real, a: Value, b: Value, tol: real) {
    if a.Flag? || b.Flag? then Truthy(a) == Truthy(b)
    else if (a.Int? || a.Float?) && (b.Int? || b.Float?) then
      Within(fl, Float64(fl, a).value, Float64(fl, b).value, tol)
    else a == b
  }

  /** `_close`: lists and tuples element by element, flags by truth value, numbers within the
      tolerance, anything else by equality. */
  predicate Close(fl: real -> real, a: Value, b: Value, tol: real)
    decreases a
  {
    match (a, b)
    case (List(xs), List(ys)) =>
      |xs| == |ys| && forall i :: 0 <= i < |xs| ==> Close(fl, xs[i], ys[i], tol)
    case (Pair(l, h), Pair(m, k)) =>
      Within(fl, l, m, tol) && Within(fl, h, k, tol)
    case (List(xs), Pair(l, h)) =>
      |xs| == 2 && CloseScalars(fl, xs[0], Float(l), tol) && CloseScalars(fl, xs[1], Float(h), tol)
    case (Pair(l, h), List(ys)) =>
      |ys| == 2 && CloseScalars(fl, Float(l), ys[0], tol) && CloseScalars(fl, Float(h), ys[1], tol)
    case _ => CloseScalars(fl, a, b, tol)
  }
}
