/** What payloads mean, topic by topic, from their bytes. */
module Readings {
  import opened Common
  import opened Floats
  import opened Codecs
  import opened Topics
  import opened Sessions

  /** The number that four bytes hold, low byte first, as 32 bits without a sign. */
  function Unsigned(p: Bytes): int
    requires |p| >= 4
  {
    var b0: int, b1: int, b2: int, b3: int := p[0], p[1], p[2], p[3];
    b0 + 256 * b1 + 65536 * b2 + 16777216 * b3
  }

  /** The first four bytes are the 32 bits of `v` in two's complement, low byte first. */
  predicate Holds(p: Bytes, v: int) {
    |p| >= 4 && FitsInt32(v) && Unsigned(p) == if v < 0 then v + 4294967296 else v
  }

  lemma HoldsIff(p: Bytes, v: int)
    requires |p| >= 4
    ensures Holds(p, v) <==> Int32At(p, 0) == v
  {
  }

  /** Writing an int32 is the inverse: those are its bytes. */
  lemma WrittenHolds(v: int)
    requires FitsInt32(v)
    ensures |Int32Bytes(v)| == 4 && Holds(Int32Bytes(v), v)
  {
    Int32RoundTrip(v);
  }

  const ZERO: Bytes := [0, 0, 0, 0]

  lemma ZeroIff(p: Bytes)
    requires |p| >= 4
    ensures Int32At(p, 0) == 0 <==> p[..4] == ZERO
  {
    assert p[..4] == [p[0], p[1], p[2], p[3]];
  }

  /** The topics that hold one number. */
  predicate HoldsOne(t: Topic) {
    t in {Ptype, Nocpt, Acpt, Coolerpow, V, Batprotlvl, Comppow, I, Powsrc, Icepow}
  }

  /** A payload too short for it is shown as it is. */
  lemma ShortIsRaw(fl: real -> real, t: Topic, p: Bytes)
    requires HoldsOne(t) && |p| < 4
    ensures ValueOf(fl, t, p) == Raw(p)
  {
  }

  /** Switches: on unless all four bytes are zero. */
  lemma SwitchReading(fl: real -> real, t: Topic, p: Bytes)
    requires t in {Coolerpow, Comppow, Icepow} && |p| >= 4
    ensures ValueOf(fl, t, p) == Flag(p[..4] != ZERO)
  {
    ZeroIff(p);
  }

  /** Numbers and codes: the int32 itself. */
  lemma NumberReading(fl: real -> real, t: Topic, p: Bytes, v: int)
    requires t in {Nocpt, Acpt, Ptype, Batprotlvl, Powsrc} && Holds(p, v)
    ensures ValueOf(fl, t, p) == Int(v)
  {
    HoldsIff(p, v);
  }

  /** Volts and amperes: a thousandth of the int32, as near as a double is. */
  lemma MilliReading(fl: real -> real, t: Topic, p: Bytes, v: int)
    requires IsRounding(fl) && t in {V, I} && Holds(p, v)
    ensures ValueOf(fl, t, p).Float? && Abs(ValueOf(fl, t, p).x - v as real / 1000.0) <= 0.000002
  {
    HoldsIff(p, v);
    FromMilliNear(fl, v);
  }

  /** Temperatures: one number for every four bytes, a thousandth of the int32 there. */
  lemma TemperaturesReading(fl: real -> real, t: Topic, p: Bytes, i: nat, v: int)
    requires IsRounding(fl) && t in {Ctemp, Csettemp, Ctempofs} && i < |p| / 4 && Holds(p[4 * i..], v)
    ensures var r := ValueOf(fl, t, p);
            && r.List? && |r.items| == |p| / 4 && r.items[i].Float?
            && Abs(r.items[i].x - v as real / 1000.0) <= 0.000002
  {
    HoldsIff(p[4 * i..], v);
    FromMilliNear(fl, v);
  }

  /** Compartments on or off, doors open or not: one flag for every four bytes. */
  lemma FlagsReading(fl: real -> real, t: Topic, p: Bytes, i: nat)
    requires t in {Cpow, Cdoor} && i < |p| / 4
    ensures var r := ValueOf(fl, t, p);
            r.List? && |r.items| == |p| / 4 && r.items[i] == Flag(p[4 * i..4 * i + 4] != ZERO)
  {
    ZeroIff(p[4 * i..]);
    assert p[4 * i..][..4] == p[4 * i..4 * i + 4];
  }

  /** Ranges: a lowest and a highest value for every eight bytes. */
  lemma RangesReading(fl: real -> real, t: Topic, p: Bytes, i: nat, lo: int, hi: int)
    requires IsRounding(fl) && t in {Ctemprng, Crecdrng} && i < |p| / 8
    requires Holds(p[8 * i..], lo) && Holds(p[8 * i + 4..], hi)
    ensures var r := ValueOf(fl, t, p);
            && r.List? && |r.items| == |p| / 8 && r.items[i].Pair?
            && Abs(r.items[i].lo - lo as real / 1000.0) <= 0.000002
            && Abs(r.items[i].hi - hi as real / 1000.0) <= 0.000002
  {
    HoldsIff(p[8 * i..], lo);
    HoldsIff(p[8 * i + 4..], hi);
    PairIndex(p, i);
    FromMilliNear(fl, lo);
    FromMilliNear(fl, hi);
  }

  lemma PairIndex(p: Bytes, i: nat)
    requires i < |p| / 8
    ensures |Int32s(p)| / 2 == |p| / 8 && 2 * i + 1 < |Int32s(p)|
    ensures Int32s(p)[2 * i] == Int32At(p[8 * i..], 0) && Int32s(p)[2 * i + 1] == Int32At(p[8 * i + 4..], 0)
  {
  }

  /** Error codes: one for every two bytes, low byte first, without a sign. */
  lemma CodesReading(fl: real -> real, p: Bytes, i: nat)
    requires i < |p| / 2
    ensures var r := ValueOf(fl, Errst, p);
            var low: int, high: int := p[2 * i], p[2 * i + 1];
            r.List? && |r.items| == |p| / 2 && r.items[i] == Int(low + 256 * high)
  {
  }

  function Chars(p: Bytes): string {
    seq(|p|, i requires 0 <= i < |p| => p[i] as char)
  }

  lemma {:induction false} UntilNulIs(p: Bytes, body: Bytes, rest: Bytes)
    requires 0 !in body && (p == body || p == body + ([0] + rest))
    ensures UntilNul(p) == Chars(body)
    decreases |body|
  {
    if body != [] {
      UntilNulIs(p[1..], body[1..], rest);
      assert body[0] in body && Chars(body) == [body[0] as char] + Chars(body[1..]);
    }
  }

  /** Texts end at the first NUL, if there is one, and are shown without white space around. */
  lemma TextReading(fl: real -> real, t: Topic, p: Bytes, before: Bytes, text: Bytes, after: Bytes, rest: Bytes)
    requires t in {GwFwver, CfgFwid, ProductName, CmsSku, Sn, Sku, Fwver}
    requires var body := before + (text + after);
             0 !in body && (p == body || p == body + ([0] + rest))
    requires (forall c <- before :: IsBlank(c as char)) && (forall c <- after :: IsBlank(c as char))
    requires text != [] ==> !IsBlank(text[0] as char) && !IsBlank(text[|text| - 1] as char)
    ensures ValueOf(fl, t, p) == Text(Chars(text))
  {
    UntilNulIs(p, before + (text + after), rest);
    TrimmedChars(before, text, after);
  }

  lemma TrimmedChars(before: Bytes, text: Bytes, after: Bytes)
    requires (forall c <- before :: IsBlank(c as char)) && (forall c <- after :: IsBlank(c as char))
    requires text != [] ==> !IsBlank(text[0] as char) && !IsBlank(text[|text| - 1] as char)
    ensures Trim(Chars(before + (text + after))) == Chars(text)
  {
    CharsConcat(text, after);
    CharsConcat(before, text + after);
    BlankChars(before);
    BlankChars(after);
    StripIff(Chars(before) + (Chars(text) + Chars(after)), IsBlank, Chars(before), Chars(text), Chars(after));
  }

  lemma CharsConcat(a: Bytes, b: Bytes)
    ensures Chars(a + b) == Chars(a) + Chars(b)
  {
  }

  lemma BlankChars(p: Bytes)
    requires forall c <- p :: IsBlank(c as char)
    ensures forall c <- Chars(p) :: IsBlank(c)
  {
    forall i | 0 <= i < |p| ensures IsBlank(Chars(p)[i]) {
      assert p[i] in p;
    }
  }

  /** White space is a blank, the controls 9 to 13, and the separators 28 to 31. */
  lemma BlankIff(c: byte)
    ensures IsBlank(c as char) <==> c == 32 || c in {9, 10, 11, 12, 13} || c in {28, 29, 30, 31}
  {
  }

  /** The hardware address: six bytes in hexadecimal, a colon between them. */
  lemma MacReading(fl: real -> real, p: Bytes, i: nat)
    requires |p| >= 6 && i < 6
    ensures var r := ValueOf(fl, GwMac, p);
            && r.Text? && |r.text| == 17
            && r.text[3 * i] == "0123456789abcdef"[p[i] / 16] && r.text[3 * i + 1] == "0123456789abcdef"[p[i] % 16]
            && (i < 5 ==> r.text[3 * i + 2] == ':')
  {
    MacTextIs(p[..6], i);
  }

  lemma {:induction false} MacTextIs(p: Bytes, i: nat)
    requires i < |p|
    ensures |MacText(p)| == 3 * |p| - 1
    ensures MacText(p)[3 * i] == "0123456789abcdef"[p[i] / 16]
    ensures MacText(p)[3 * i + 1] == "0123456789abcdef"[p[i] % 16]
    ensures i + 1 < |p| ==> MacText(p)[3 * i + 2] == ':'
    decreases |p|
  {
    if |p| == 1 {
      assert p[1..] == [];
    } else {
      MacTextIs(p[1..], if i > 0 then i - 1 else 0);
    }
  }
}
