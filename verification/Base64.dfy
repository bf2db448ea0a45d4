/** The base64 encoding of section 4 of RFC 4648, with the standard alphabet of table 1. */
module Base64 {
  import opened Common

  const PAD: byte := 61

  /** Whether the decoder takes pad characters after a full last quantum, as some releases of the
      standard library do and others do not. Nothing here depends on which. */
  const TAKES_EXCESS: bool

  function Letter(s: byte): byte
    requires s < 64
  {
    if s < 26 then s + 65
    else if s < 52 then s + 71
    else if s < 62 then s - 4
    else if s == 62 then 43
    else 47
  }

  /** The letters are those of table 1, in its order. */
  lemma LetterIsTable1(s: byte)
    requires s < 64
    ensures s < 26 ==> Letter(s) == "ABCDEFGHIJKLMNOPQRSTUVWXYZ"[s] as int
    ensures 26 <= s < 52 ==> Letter(s) == "abcdefghijklmnopqrstuvwxyz"[s - 26] as int
    ensures 52 <= s ==> Letter(s) == "0123456789+/"[s - 52] as int
  {
  }

  /** The first sextet from `s` on whose letter is `c`. */
  function Find(c: byte, s: nat): (d: Option<byte>)
    ensures d.Some? ==> s <= d.value < 64
    decreases 64 - s, c
  {
    if s >= 64 then None else if Letter(s) == c then Some(s) else Find(c, s + 1)
  }

  function Digit(c: byte): (d: Option<byte>)
    ensures d.Some? ==> d.value < 64
  {
    Find(c, 0)
  }

  function Encode1(b0: byte): Bytes {
    [Letter(b0 / 4), Letter(b0 % 4 * 16), PAD, PAD]
  }

  function Encode2(b0: byte, b1: byte): Bytes {
    [Letter(b0 / 4), Letter(b0 % 4 * 16 + b1 / 16), Letter(b1 % 16 * 4), PAD]
  }

  function Encode3(b0: byte, b1: byte, b2: byte): Bytes {
    [Letter(b0 / 4), Letter(b0 % 4 * 16 + b1 / 16), Letter(b1 % 16 * 4 + b2 / 64), Letter(b2 % 64)]
  }

  function Encode(b: Bytes): Bytes {
    if |b| == 0 then []
    else if |b| == 1 then Encode1(b[0])
    else if |b| == 2 then Encode2(b[0], b[1])
    else Encode3(b[0], b[1], b[2]) + Encode(b[3..])
  }

  function Join3(w: byte, x: byte, y: byte, z: byte): Bytes
    requires w < 64 && x < 64 && y < 64 && z < 64
  {
    [w * 4 + x / 16, x % 16 * 16 + y / 4, y % 4 * 64 + z]
  }

  /** The bytes of the quantum `c`: three, or two or one when it is padded. */
  function DecodeQuantum(c: Bytes): Option<Bytes>
    requires |c| == 4
  {
    match (Digit(c[0]), Digit(c[1]), Digit(c[2]), Digit(c[3]))
    case (Some(w), Some(x), Some(y), Some(z)) => Some(Join3(w, x, y, z))
    case (Some(w), Some(x), Some(y), None) =>
      if c[3] == PAD then Some([w * 4 + x / 16, x % 16 * 16 + y / 4]) else None
    case (Some(w), Some(x), None, None) =>
      if c[2] == PAD && c[3] == PAD then Some([w * 4 + x / 16]) else None
    case _ => None
  }

  predicate OnlyPads(s: Bytes) {
    forall c <- s :: c == PAD
  }

  /** The validating decoder: only whole quanta of alphabet characters, padding in the last
      quantum and, where excess is taken, after a full last one. Pad bits are not looked at
      (section 3.5 leaves that open). */
  function Decode(s: Bytes): Option<Bytes> {
    if s == [] then Some([])
    else if |s| < 4 then None
    else match DecodeQuantum(s[..4])
         case None => None
         case Some(b) =>
           if |s| == 4 then Some(b)
           else if |b| < 3 then None
           else if TAKES_EXCESS && OnlyPads(s[4..]) then Some(b)
           else match Decode(s[4..])
                case None => None
                case Some(rest) => Some(b + rest)
  }

  /** The bits of a padded last quantum that carry no data are all zero. */
  predicate ZeroPadBits(s: Bytes) {
    |s| >= 4 ==>
      var c := s[|s| - 4..];
      && (c[3] == PAD && c[2] != PAD ==> Digit(c[2]).Some? && Digit(c[2]).value % 4 == 0)
      && (c[3] == PAD && c[2] == PAD ==> Digit(c[1]).Some? && Digit(c[1]).value % 16 == 0)
  }

  lemma LetterInjective(s: byte, t: byte)
    requires s < 64 && t < 64 && Letter(s) == Letter(t)
    ensures s == t
  {
  }

  lemma {:induction false} FindIff(c: byte, from: nat, s: byte)
    requires from <= s < 64
    ensures Find(c, from) == Some(s) <==> Letter(s) == c
    decreases 64 - from
  {
    if from < s {
      FindIff(c, from + 1, s);
      if Letter(from) == Letter(s) {
        LetterInjective(from, s);
      }
    }
  }

  lemma LetterOfDigit(c: byte)
    requires Digit(c).Some?
    ensures Letter(Digit(c).value) == c
  {
    FindIff(c, 0, Digit(c).value);
  }

  lemma DigitOfLetter(s: byte)
    requires s < 64
    ensures Digit(Letter(s)) == Some(s)
  {
    FindIff(Letter(s), 0, s);
  }

  lemma PadIsNoLetter(s: byte)
    requires s < 64
    ensures Letter(s) != PAD && Digit(PAD) == None
  {
    if Digit(PAD).Some? {
      LetterOfDigit(PAD);
    }
  }

  lemma QuantumOfLetters(w: byte, x: byte, y: byte, z: byte)
    requires w < 64 && x < 64 && y < 64 && z < 64
    ensures DecodeQuantum([Letter(w), Letter(x), Letter(y), Letter(z)]) == Some(Join3(w, x, y, z))
    ensures DecodeQuantum([Letter(w), Letter(x), Letter(y), PAD]) == Some([w * 4 + x / 16, x % 16 * 16 + y / 4])
    ensures DecodeQuantum([Letter(w), Letter(x), PAD, PAD]) == Some([w * 4 + x / 16])
  {
    DigitOfLetter(w);
    DigitOfLetter(x);
    DigitOfLetter(y);
    DigitOfLetter(z);
    PadIsNoLetter(w);
  }

  lemma Regroup(b0: byte, b1: byte, b2: byte)
    ensures Join3(b0 / 4, b0 % 4 * 16 + b1 / 16, b1 % 16 * 4 + b2 / 64, b2 % 64) == [b0, b1, b2]
  {
    assert b0 / 4 * 4 + (b0 % 4 * 16 + b1 / 16) / 16 == b0;
    assert (b0 % 4 * 16 + b1 / 16) % 16 * 16 + (b1 % 16 * 4 + b2 / 64) / 4 == b1;
    assert (b1 % 16 * 4 + b2 / 64) % 4 * 64 + b2 % 64 == b2;
  }

  lemma Regroup4(w: byte, x: byte, y: byte, z: byte)
    requires w < 64 && x < 64 && y < 64 && z < 64
    ensures var b := Join3(w, x, y, z);
            b[0] / 4 == w && b[0] % 4 * 16 + b[1] / 16 == x &&
            b[1] % 16 * 4 + b[2] / 64 == y && b[2] % 64 == z
  {
  }

  /** The letters of a quantum are the sextets of its 24 bits, from left to right; bytes that are
      missing count as zero, and the letters that hold nothing of the others are padding. */
  lemma QuantumIsBits(b0: byte, b1: byte, b2: byte)
    ensures var n := 65536 * b0 + 256 * b1 + b2;
            Encode([b0, b1, b2]) == [Letter(n / 262144), Letter(n / 4096 % 64), Letter(n / 64 % 64), Letter(n % 64)]
    ensures var n := 65536 * b0 + 256 * b1;
            Encode([b0, b1]) == [Letter(n / 262144), Letter(n / 4096 % 64), Letter(n / 64 % 64), PAD]
    ensures var n := 65536 * b0;
            Encode([b0]) == [Letter(n / 262144), Letter(n / 4096 % 64), PAD, PAD]
  {
    Sextets(b0, b1, b2);
    Sextets(b0, b1, 0);
    Sextets(b0, 0, 0);
    Encode3IsLast(b0, b1, b2);
  }

  lemma Encode3IsLast(b0: byte, b1: byte, b2: byte)
    ensures Encode([b0, b1, b2]) == Encode3(b0, b1, b2)
  {
    assert [b0, b1, b2][3..] == [];
    Unit(Encode3(b0, b1, b2));
  }

  lemma Quotients(n: nat, a: nat, b: nat, c: nat, d: nat)
    requires n == 262144 * a + 4096 * b + 64 * c + d && a < 64 && b < 64 && c < 64 && d < 64
    ensures n / 262144 == a && n / 4096 == 64 * a + b && n / 64 == 4096 * a + 64 * b + c && n % 64 == d
    ensures n / 4096 % 64 == b && n / 64 % 64 == c
  {
  }

  lemma Sextets(b0: byte, b1: byte, b2: byte)
    ensures var n := 65536 * b0 + 256 * b1 + b2;
            && n / 262144 == b0 / 4 && n / 4096 % 64 == b0 % 4 * 16 + b1 / 16
            && n / 64 % 64 == b1 % 16 * 4 + b2 / 64 && n % 64 == b2 % 64
  {
    var n: nat := 65536 * b0 + 256 * b1 + b2;
    Quotients(n, b0 / 4, b0 % 4 * 16 + b1 / 16, b1 % 16 * 4 + b2 / 64, b2 % 64);
  }

  lemma DecodeOneByte(b0: byte)
    ensures DecodeQuantum(Encode1(b0)) == Some([b0])
  {
    QuantumOfLetters(b0 / 4, b0 % 4 * 16, 0, 0);
  }

  lemma DecodeTwoBytes(b0: byte, b1: byte)
    ensures DecodeQuantum(Encode2(b0, b1)) == Some([b0, b1])
  {
    QuantumOfLetters(b0 / 4, b0 % 4 * 16 + b1 / 16, b1 % 16 * 4, 0);
    Regroup(b0, b1, 0);
  }

  lemma DecodeThreeBytes(b0: byte, b1: byte, b2: byte)
    ensures DecodeQuantum(Encode3(b0, b1, b2)) == Some([b0, b1, b2])
  {
    QuantumOfLetters(b0 / 4, b0 % 4 * 16 + b1 / 16, b1 % 16 * 4 + b2 / 64, b2 % 64);
    Regroup(b0, b1, b2);
  }

  lemma PadsAreNoLine(s: Bytes)
    requires s != [] && OnlyPads(s)
    ensures Decode(s) == None
  {
    assert s[0] in s;
    if |s| >= 4 {
      PadFirst(s[..4]);
    }
  }

  lemma PadFirst(c: Bytes)
    requires |c| == 4 && c[0] == PAD
    ensures DecodeQuantum(c) == None
  {
    PadIsNoLetter(0);
  }

  lemma DecodeCons(q: Bytes, head: Bytes, s: Bytes, rest: Bytes)
    requires |q| == 4 && DecodeQuantum(q) == Some(head) && |head| == 3 && Decode(s) == Some(rest)
    ensures Decode(q + s) == Some(head + rest)
  {
    assert (q + s)[..4] == q && (q + s)[4..] == s;
    if s == [] {
      assert head + rest == head;
    } else if OnlyPads(s) {
      PadsAreNoLine(s);
    }
  }

  lemma DecodeLast(q: Bytes)
    requires |q| == 4
    ensures Decode(q) == DecodeQuantum(q)
  {
    assert q[..4] == q;
  }

  /** Decoding inverts encoding. */
  lemma {:induction false} DecodeEncode(b: Bytes)
    ensures Decode(Encode(b)) == Some(b)
  {
    if |b| == 0 {
    } else if |b| == 1 {
      DecodeOneByte(b[0]);
      DecodeLast(Encode1(b[0]));
      assert b == [b[0]];
    } else if |b| == 2 {
      DecodeTwoBytes(b[0], b[1]);
      DecodeLast(Encode2(b[0], b[1]));
      assert b == [b[0], b[1]];
    } else {
      DecodeThreeBytes(b[0], b[1], b[2]);
      DecodeEncode(b[3..]);
      DecodeCons(Encode3(b[0], b[1], b[2]), [b[0], b[1], b[2]], Encode(b[3..]), b[3..]);
      assert b == [b[0], b[1], b[2]] + b[3..];
    }
  }

  lemma EncodeJoined(w: byte, x: byte, y: byte, z: byte)
    requires w < 64 && x < 64 && y < 64 && z < 64
    ensures var b := Join3(w, x, y, z);
            Encode3(b[0], b[1], b[2]) == [Letter(w), Letter(x), Letter(y), Letter(z)]
  {
    Regroup4(w, x, y, z);
  }

  lemma EncodeDecodeFull(c: Bytes)
    requires |c| == 4 && Digit(c[0]).Some? && Digit(c[1]).Some? && Digit(c[2]).Some? && Digit(c[3]).Some?
    ensures var b := DecodeQuantum(c).value;
            |b| == 3 && Encode3(b[0], b[1], b[2]) == c && c[3] != PAD
  {
    EncodeJoined(Digit(c[0]).value, Digit(c[1]).value, Digit(c[2]).value, Digit(c[3]).value);
    LetterOfDigit(c[0]);
    LetterOfDigit(c[1]);
    LetterOfDigit(c[2]);
    LetterOfDigit(c[3]);
    PadIsNoLetter(Digit(c[3]).value);
  }

  lemma RegroupPadded(w: byte, x: byte, y: byte)
    requires w < 64 && x < 64 && y < 64
    ensures var b0, b1 := w * 4 + x / 16, x % 16 * 16 + y / 4;
            b0 / 4 == w && b0 % 4 * 16 + b1 / 16 == x && b1 % 16 * 4 == y / 4 * 4
  {
  }

  /** A letter with its low bits cleared is the same letter exactly when they were clear. */
  lemma ClearedLetter(y: byte, unit: int)
    requires y < 64 && (unit == 4 || unit == 16)
    ensures Letter(y / unit * unit) == Letter(y) <==> y % unit == 0
  {
    if Letter(y / unit * unit) == Letter(y) {
      LetterInjective(y / unit * unit, y);
    }
  }

  lemma EncodeDecodePadded1(c: Bytes)
    requires |c| == 4 && Digit(c[0]).Some? && Digit(c[1]).Some? && Digit(c[2]).Some? && c[3] == PAD
    ensures var b := DecodeQuantum(c).value;
            |b| == 2 && (Encode2(b[0], b[1]) == c <==> Digit(c[2]).value % 4 == 0) && c[2] != PAD
  {
    var w, x, y := Digit(c[0]).value, Digit(c[1]).value, Digit(c[2]).value;
    PadIsNoLetter(y);
    LetterOfDigit(c[0]);
    LetterOfDigit(c[1]);
    LetterOfDigit(c[2]);
    RegroupPadded(w, x, y);
    ClearedLetter(y, 4);
    var b := DecodeQuantum(c).value;
    assert Encode2(b[0], b[1]) == [c[0], c[1], Letter(y / 4 * 4), PAD];
    assert c == [c[0], c[1], c[2], PAD];
  }

  lemma EncodeDecodePadded2(c: Bytes)
    requires |c| == 4 && Digit(c[0]).Some? && Digit(c[1]).Some? && c[2] == PAD && c[3] == PAD
    ensures DecodeQuantum(c).Some?
    ensures var b := DecodeQuantum(c).value;
            |b| == 1 && (Encode1(b[0]) == c <==> Digit(c[1]).value % 16 == 0)
  {
    var w, x := Digit(c[0]).value, Digit(c[1]).value;
    PadIsNoLetter(w);
    LetterOfDigit(c[0]);
    LetterOfDigit(c[1]);
    ClearedLetter(x, 16);
    var b := DecodeQuantum(c).value;
    assert b[0] / 4 == w && b[0] % 4 * 16 == x / 16 * 16;
    assert Encode1(b[0]) == [c[0], Letter(x / 16 * 16), PAD, PAD];
    assert c == [c[0], c[1], PAD, PAD];
  }

  lemma EncodeDecodeQuantum(c: Bytes, b: Bytes)
    requires |c| == 4 && DecodeQuantum(c) == Some(b)
    ensures 1 <= |b| <= 3 && |Encode(b)| == 4
    ensures |b| == 3 ==> Encode(b) == Encode3(b[0], b[1], b[2]) == c
    ensures Encode(b) == c <==> ZeroPadBits(c)
  {
    assert c[4 - 4..] == c;
    if Digit(c[3]).Some? {
      EncodeDecodeFull(c);
    } else if Digit(c[2]).Some? {
      EncodeDecodePadded1(c);
    } else {
      EncodeDecodePadded2(c);
    }
  }

  lemma LettersAreDigits(w: byte, x: byte, y: byte, z: byte)
    requires w < 64 && x < 64 && y < 64 && z < 64
    ensures forall c <- [Letter(w), Letter(x), Letter(y), Letter(z)] :: Digit(c).Some? && c > 32
  {
    DigitOfLetter(w);
    DigitOfLetter(x);
    DigitOfLetter(y);
    DigitOfLetter(z);
  }

  lemma {:induction false} EncodeLength(b: Bytes)
    ensures |Encode(b)| == (|b| + 2) / 3 * 4
  {
    if |b| >= 3 {
      EncodeLength(b[3..]);
    }
  }

  /** Every byte of an encoding is an alphabet letter or the pad character, and so no control
      character and no blank. */
  lemma {:induction false} EncodeAlphabet(b: Bytes)
    ensures |Encode(b)| == (|b| + 2) / 3 * 4
    ensures forall c <- Encode(b) :: (c == PAD || Digit(c).Some?) && c > 32
  {
    EncodeLength(b);
    if |b| == 1 {
      LettersAreDigits(b[0] / 4, b[0] % 4 * 16, 0, 0);
    } else if |b| == 2 {
      LettersAreDigits(b[0] / 4, b[0] % 4 * 16 + b[1] / 16, b[1] % 16 * 4, 0);
    } else if |b| >= 3 {
      LettersAreDigits(b[0] / 4, b[0] % 4 * 16 + b[1] / 16, b[1] % 16 * 4 + b[2] / 64, b[2] % 64);
      EncodeAlphabet(b[3..]);
    }
  }

  /** `line` is an encoding of `b`, but for its pad bits. */
  predicate Images(line: Bytes, b: Bytes) {
    |line| == |Encode(b)| && (line == Encode(b) <==> ZeroPadBits(line))
  }

  lemma ImageOfMore(c: Bytes, head: Bytes, line: Bytes, rest: Bytes)
    requires |c| == 4 && DecodeQuantum(c) == Some(head) && |head| == 3
    requires Images(line, rest) && rest != []
    ensures Images(c + line, head + rest) && |Encode(head + rest)| == 4 + |line|
  {
    EncodeDecodeQuantum(c, head);
    EncodeAlphabet(rest);
    assert (head + rest)[3..] == rest;
    assert Encode(head + rest) == c + Encode(rest);
    assert (c + line)[4..] == line && (c + Encode(rest))[4..] == Encode(rest);
    assert (c + line)[|c + line| - 4..] == line[|line| - 4..];
  }

  lemma ImageOfLonger(s: Bytes, c: Bytes, head: Bytes, line: Bytes, rest: Bytes, n: nat)
    requires s == c + line && |c| == 4 && DecodeQuantum(c) == Some(head) && |head| == 3
    requires n <= |line| && Images(line[..n], rest) && rest != []
    ensures |Encode(head + rest)| == 4 + n && Images(s[..4 + n], head + rest) && s[4 + n..] == line[n..]
  {
    ImageOfMore(c, head, line[..n], rest);
    assert s[..4 + n] == c + line[..n] && s[4 + n..] == line[n..];
  }

  lemma ImageBeforeExcess(s: Bytes, c: Bytes, b: Bytes)
    requires |c| == 4 <= |s| && c == s[..4] && DecodeQuantum(c) == Some(b) && |b| == 3
    ensures |Encode(b)| == 4 && Images(s[..|Encode(b)|], b)
  {
    EncodeDecodeQuantum(c, b);
  }

  /** What else decodes: a line that decodes to `b` begins with a line of the length of `b`'s
      encoding, which is that encoding exactly when its pad bits are zero; anything after it is
      excess padding behind a full quantum, where that is taken. */
  lemma {:induction false} DecodeImage(s: Bytes, b: Bytes)
    requires Decode(s) == Some(b)
    ensures |Encode(b)| <= |s| && Images(s[..|Encode(b)|], b)
    ensures |Encode(b)| < |s| ==> TAKES_EXCESS && OnlyPads(s[|Encode(b)|..]) && 4 * |b| == 3 * |Encode(b)| > 0
    ensures s != [] ==> b != []
  {
    if s == [] {
    } else if |s| == 4 {
      assert s[..4] == s;
      EncodeDecodeQuantum(s, b);
    } else {
      var c, line := s[..4], s[4..];
      if TAKES_EXCESS && OnlyPads(line) {
        ImageBeforeExcess(s, c, b);
      } else {
        DecodeImage(line, Decode(line).value);
        ImageOfLonger(s, c, DecodeQuantum(c).value, line, Decode(line).value, |Encode(Decode(line).value)|);
      }
    }
  }
}
