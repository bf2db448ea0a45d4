/** Frames, and the decoder that turns the inbound byte stream into frames. */
module Frames {
  import opened Common
  import Base64

  const CR: byte := 13

  const NAK: byte := 0x05
  const PUBLISH: byte := 0x10
  const SET: byte := 0x11
  const SUBSCRIBE: byte := 0x12

  datatype Address = Address(param: byte, inst: byte, subclass: byte, cls: byte)

  datatype Frame = Frame(action: byte, address: Address, payload: Bytes)

  function Encode(f: Frame): Bytes {
    [f.action, f.address.param, f.address.inst, f.address.subclass, f.address.cls] + f.payload
  }

  function Decode(raw: Bytes): Option<Frame> {
    if |raw| < 5 then None
    else Some(Frame(raw[0], Address(raw[1], raw[2], raw[3], raw[4]), raw[5..]))
  }

  function EncodeLine(f: Frame): Bytes {
    Base64.Encode(Encode(f)) + [CR]
  }

  lemma DecodeEncode(f: Frame)
    ensures Decode(Encode(f)) == Some(f)
  {
    assert Encode(f)[5..] == f.payload;
  }
}

/** `LineDecoder`: splits the stream at carriage returns, skips blank lines, counts the lines
    that hold no frame. */
module LineStream {
  import opened Common
  import opened Frames
  import Base64

  predicate IsSpace(c: byte) {
    c == 32 || 9 <= c <= 13
  }

  /** `bytes.strip`. */
  function Trim(s: Bytes): Bytes {
    Strip(s, IsSpace)
  }

  datatype Reading = Blank | Garbage | Good(frame: Frame)

  /** What one line, without its terminator, stands for. */
  function Read(line: Bytes): Reading {
    var text := Trim(line);
    if text == [] then Blank
    else match Base64.Decode(text)
         case None => Garbage
         case Some(raw) =>
           match Frames.Decode(raw)
           case None => Garbage
           case Some(f) => Good(f)
  }

  /** The position of the first CR, or the length when there is none. */
  function FirstCR(s: Bytes): (i: nat)
    ensures i <= |s| && (i < |s| ==> s[i] == CR)
  {
    if s == [] || s[0] == CR then 0 else 1 + FirstCR(s[1..])
  }

  lemma {:induction false} NoCRBefore(s: Bytes)
    ensures CR !in s[..FirstCR(s)]
  {
    if s != [] && s[0] != CR {
      NoCRBefore(s[1..]);
      assert s[..FirstCR(s)] == [s[0]] + s[1..][..FirstCR(s[1..])];
    }
  }

  /** The complete lines of a stream. */
  function Lines(s: Bytes): seq<Bytes> {
    var i := FirstCR(s);
    if i == |s| then [] else [s[..i]] + Lines(s[i + 1..])
  }

  /** What follows the last CR of a stream. */
  function Rest(s: Bytes): Bytes {
    var i := FirstCR(s);
    if i == |s| then s else Rest(s[i + 1..])
  }

  function ReadAll(lines: seq<Bytes>): seq<Reading> {
    seq(|lines|, i requires 0 <= i < |lines| => Read(lines[i]))
  }

  function FramesOf(rs: seq<Reading>): seq<Frame> {
    if rs == [] then [] else (if rs[0].Good? then [rs[0].frame] else []) + FramesOf(rs[1..])
  }

  function Count(r: Reading, rs: seq<Reading>): nat {
    if rs == [] then 0 else (if rs[0] == r then 1 else 0) + Count(r, rs[1..])
  }

  /** The decoder's state, and what one `feed` does to it. */
  datatype Decoder = Decoder(buf: Bytes, dropped: nat)

  const FRESH := Decoder([], 0)

  function Fed(d: Decoder, data: Bytes): (Decoder, seq<Frame>) {
    FedStream(d.dropped, d.buf + data)
  }

  function FedStream(dropped: nat, stream: Bytes): (Decoder, seq<Frame>) {
    var rs := ReadAll(Lines(stream));
    (Decoder(Rest(stream), dropped + Count(Garbage, rs)), FramesOf(rs))
  }

  function FedAll(d: Decoder, chunks: seq<Bytes>): (Decoder, seq<Frame>)
    decreases |chunks|
  {
    if chunks == [] then (d, [])
    else
      var (d1, f1) := Fed(d, chunks[0]);
      var (d2, f2) := FedAll(d1, chunks[1..]);
      (d2, f1 + f2)
  }

  class LineDecoder {
    var buf: Bytes
    var dropped: nat

    constructor ()
      ensures State() == FRESH
    {
      buf, dropped := [], 0;
    }

    ghost function State(): Decoder
      reads this
    {
      Decoder(buf, dropped)
    }

    method Feed(data: Bytes) returns (frames: seq<Frame>)
      modifies this
      ensures (State(), frames) == Fed(old(State()), data)
    {
      buf := buf + data;
      ghost var stream, rs, dropped0 := buf, [], dropped;
      frames := [];
      while true
        invariant Rest(buf) == Rest(stream)
        invariant rs + ReadAll(Lines(buf)) == ReadAll(Lines(stream))
        invariant frames == FramesOf(rs) && dropped == dropped0 + Count(Garbage, rs)
        decreases |buf|
      {
        var end := FirstCR(buf);
        if end == |buf| {
          assert rs == ReadAll(Lines(stream));
          break;
        }
        TakeLine(buf, rs);
        var reading := ReadLine(buf[..end]);
        Tally(rs, reading);
        rs := rs + [reading];
        buf := buf[end + 1..];
        match reading {
          case Blank =>
          case Garbage =>
            dropped := dropped + 1;
          case Good(f) =>
            frames := frames + [f];
        }
      }
    }
  }

  /** What one turn of the decoder's loop makes of its line. */
  method ReadLine(line: Bytes) returns (reading: Reading)
    ensures reading == Read(line)
  {
    var text := Trim(line);
    if text == [] {
      return Blank;
    }
    var raw := Base64.Decode(text);
    if raw.None? {
      return Garbage;
    }
    var frame := Frames.Decode(raw.value);
    return if frame.None? then Garbage else Good(frame.value);
  }

  /** One turn of the decoder's loop, after the readings `rs`. */
  lemma TakeLine(s: Bytes, rs: seq<Reading>)
    requires FirstCR(s) < |s|
    ensures var rest := s[FirstCR(s) + 1..];
            && Rest(s) == Rest(rest)
            && rs + ReadAll(Lines(s)) == (rs + [Read(s[..FirstCR(s)])]) + ReadAll(Lines(rest))
  {
    var line, rest := s[..FirstCR(s)], s[FirstCR(s) + 1..];
    ReadAllCons(line, Lines(rest));
    Assoc(rs, [Read(line)], ReadAll(Lines(rest)));
  }

  lemma ReadAllCons(line: Bytes, ls: seq<Bytes>)
    ensures ReadAll([line] + ls) == [Read(line)] + ReadAll(ls)
  {
  }

  lemma Tally(rs: seq<Reading>, r: Reading)
    ensures FramesOf(rs + [r]) == FramesOf(rs) + if r.Good? then [r.frame] else []
    ensures Count(Garbage, rs + [r]) == Count(Garbage, rs) + if r == Garbage then 1 else 0
  {
    FramesOfConcat(rs, [r]);
    CountConcat(Garbage, rs, [r]);
  }

  // ---- the split is the only one there is

  /** Lines joined again, each with its terminator. */
  function Unlines(lines: seq<Bytes>): Bytes {
    if lines == [] then [] else lines[0] + [CR] + Unlines(lines[1..])
  }

  lemma CutAt(s: Bytes, i: nat)
    requires i < |s| && s[i] == CR
    ensures s == s[..i] + [CR] + s[i + 1..]
  {
  }

  lemma {:induction false} LinesRebuild(s: Bytes)
    ensures s == Unlines(Lines(s)) + Rest(s)
    decreases |s|
  {
    var i := FirstCR(s);
    if i == |s| {
      assert Unlines([]) + s == s;
    } else {
      LinesRebuild(s[i + 1..]);
      UnlinesCons(s[..i], Lines(s[i + 1..]), Rest(s[i + 1..]));
      CutAt(s, i);
    }
  }

  lemma UnlinesCons(line: Bytes, ls: seq<Bytes>, rest: Bytes)
    ensures Unlines([line] + ls) + rest == line + [CR] + (Unlines(ls) + rest)
  {
    assert ([line] + ls)[1..] == ls;
  }

  lemma {:induction false} LinesHaveNoCR(s: Bytes)
    ensures forall l <- Lines(s) :: CR !in l
    decreases |s|
  {
    var i := FirstCR(s);
    if i < |s| {
      NoCRBefore(s);
      LinesHaveNoCR(s[i + 1..]);
    }
  }

  lemma {:induction false} LinesOfUnlines(ls: seq<Bytes>, rest: Bytes)
    requires CR !in rest && forall l <- ls :: CR !in l
    ensures Lines(Unlines(ls) + rest) == ls && Rest(Unlines(ls) + rest) == rest
  {
    if ls == [] {
      assert [] + rest == rest;
      FirstCRUnique(rest, |rest|);
    } else {
      LinesOfUnlines(ls[1..], rest);
      assert Unlines(ls) + rest == ls[0] + [CR] + (Unlines(ls[1..]) + rest);
      assert ls[0] in ls;
      SplitFirstLine(ls[0], Unlines(ls[1..]) + rest);
    }
  }

  /** A stream has one reading as CR-terminated lines and an unterminated remainder, and
      `Lines` and `Rest` find it. */
  lemma LinesIff(s: Bytes, ls: seq<Bytes>, rest: Bytes)
    ensures ls == Lines(s) && rest == Rest(s) <==>
            s == Unlines(ls) + rest && CR !in rest && forall l <- ls :: CR !in l
  {
    LinesRebuild(s);
    LinesHaveNoCR(s);
    RestHasNoCR(s);
    if s == Unlines(ls) + rest && CR !in rest && forall l <- ls :: CR !in l {
      LinesOfUnlines(ls, rest);
    }
  }

  // ---- chunking

  lemma {:induction false} LinesOfConcat(a: Bytes, b: Bytes)
    ensures Lines(a + b) == Lines(a) + Lines(Rest(a) + b)
    ensures Rest(a + b) == Rest(Rest(a) + b)
    decreases |a|
  {
    var i := FirstCR(a);
    if i < |a| {
      NoCRBefore(a);
      assert (a + b)[..i] == a[..i];
      FirstCRUnique(a + b, i);
      var rest := a[i + 1..];
      assert (a + b)[i + 1..] == rest + b;
      LinesOfConcat(rest, b);
      Assoc([a[..i]], Lines(rest), Lines(Rest(rest) + b));
    } else {
      Unit(Lines(a + b));
    }
  }

  lemma {:induction false} FirstCRUnique(s: Bytes, i: nat)
    requires i <= |s| && (i < |s| ==> s[i] == CR)
    requires CR !in s[..i]
    ensures FirstCR(s) == i
  {
    if i > 0 {
      assert s[0] == s[..i][0] && s[1..][..i - 1] == s[..i][1..];
      FirstCRUnique(s[1..], i - 1);
    }
  }

  lemma {:induction false} FramesOfConcat(x: seq<Reading>, y: seq<Reading>)
    ensures FramesOf(x + y) == FramesOf(x) + FramesOf(y)
  {
    if x == [] {
      Unit(y);
      Unit(FramesOf(y));
    } else {
      assert (x + y)[1..] == x[1..] + y;
      FramesOfConcat(x[1..], y);
      Assoc(if x[0].Good? then [x[0].frame] else [], FramesOf(x[1..]), FramesOf(y));
    }
  }

  lemma {:induction false} CountConcat(r: Reading, x: seq<Reading>, y: seq<Reading>)
    ensures Count(r, x + y) == Count(r, x) + Count(r, y)
  {
    if x == [] {
      Unit(y);
    } else {
      assert (x + y)[1..] == x[1..] + y;
      CountConcat(r, x[1..], y);
    }
  }

  lemma ReadAllConcat(x: seq<Bytes>, y: seq<Bytes>)
    ensures ReadAll(x + y) == ReadAll(x) + ReadAll(y)
  {
  }

  lemma StreamOfConcat(dropped: nat, s: Bytes, b: Bytes)
    ensures var (d1, f1) := FedStream(dropped, s);
            var (d2, f2) := FedStream(d1.dropped, d1.buf + b);
            FedStream(dropped, s + b) == (d2, f1 + f2)
  {
    var x, y := ReadAll(Lines(s)), ReadAll(Lines(Rest(s) + b));
    LinesOfConcat(s, b);
    ReadAllConcat(Lines(s), Lines(Rest(s) + b));
    FramesOfConcat(x, y);
    CountConcat(Garbage, x, y);
  }

  /** Feeding two chunks, from any state, is feeding their concatenation. */
  lemma FeedConcat(d: Decoder, a: Bytes, b: Bytes)
    ensures var (d1, f1) := Fed(d, a);
            var (d2, f2) := Fed(d1, b);
            Fed(d, a + b) == (d2, f1 + f2)
  {
    Assoc(d.buf, a, b);
    StreamOfConcat(d.dropped, d.buf + a, b);
  }

  lemma {:induction false} RestHasNoCR(s: Bytes)
    ensures CR !in Rest(s)
    ensures Rest(Rest(s)) == Rest(s) && Lines(Rest(s)) == []
    decreases |s|
  {
    var i := FirstCR(s);
    if i < |s| {
      RestHasNoCR(s[i + 1..]);
    } else {
      NoCRBefore(s);
      assert s[..i] == s;
    }
  }

  /** However a stream is cut into chunks, the frames and the final state are those of the
      whole stream fed at once. */
  lemma {:induction false} ChunkingIsInvisible(d: Decoder, chunks: seq<Bytes>)
    requires CR !in d.buf
    ensures FedAll(d, chunks) == Fed(d, Flatten(chunks))
    decreases |chunks|
  {
    if chunks == [] {
      Unit(d.buf);
      assert d.buf[..|d.buf|] == d.buf;
      FirstCRUnique(d.buf, |d.buf|);
    } else {
      RestHasNoCR(d.buf + chunks[0]);
      ChunkingIsInvisible(Fed(d, chunks[0]).0, chunks[1..]);
      FeedConcat(d, chunks[0], Flatten(chunks[1..]));
    }
  }

  // ---- accounting

  function CRs(s: Bytes): nat {
    if s == [] then 0 else (if s[0] == CR then 1 else 0) + CRs(s[1..])
  }

  lemma {:induction false} CRsConcat(a: Bytes, b: Bytes)
    ensures CRs(a + b) == CRs(a) + CRs(b)
  {
    if a == [] {
      assert a + b == b;
    } else {
      assert (a + b)[1..] == a[1..] + b;
      CRsConcat(a[1..], b);
    }
  }

  lemma {:induction false} NoCRs(s: Bytes)
    ensures CRs(s) == 0 <==> CR !in s
  {
    if s != [] {
      NoCRs(s[1..]);
    }
  }

  lemma {:induction false} LineCount(s: Bytes)
    ensures |Lines(s)| == CRs(s)
    decreases |s|
  {
    var i := FirstCR(s);
    NoCRBefore(s);
    NoCRs(s[..i]);
    CRsConcat(s[..i], s[i..]);
    assert s == s[..i] + s[i..];
    if i < |s| {
      LineCount(s[i + 1..]);
      assert s[i..][1..] == s[i + 1..];
    }
  }

  lemma {:induction false} EveryReadingIsCounted(rs: seq<Reading>)
    ensures |FramesOf(rs)| + Count(Garbage, rs) + Count(Blank, rs) == |rs|
  {
    if rs != [] {
      EveryReadingIsCounted(rs[1..]);
    }
  }

  /** Every CR that a feed consumes ends a frame, a dropped line or a blank line, and no CR
      stays behind. */
  lemma FeedAccountsForEveryCR(d: Decoder, data: Bytes)
    ensures var (d', fs) := Fed(d, data);
            && CR !in d'.buf
            && CRs(d.buf + data) == |fs| + (d'.dropped - d.dropped) + Count(Blank, ReadAll(Lines(d.buf + data)))
  {
    RestHasNoCR(d.buf + data);
    LineCount(d.buf + data);
    EveryReadingIsCounted(ReadAll(Lines(d.buf + data)));
  }

  // ---- transmission

  /** What a sender, or a noisy line, puts on the wire: a frame, or a line that is no frame. */
  datatype Item = Sent(frame: Frame) | Junk(line: Bytes)

  predicate Admissible(it: Item) {
    it.Junk? ==> CR !in it.line && !Read(it.line).Good?
  }

  function Wire(items: seq<Item>): Bytes {
    if items == [] then []
    else (match items[0] case Sent(f) => EncodeLine(f) case Junk(l) => l + [CR]) + Wire(items[1..])
  }

  function SentFrames(items: seq<Item>): seq<Frame> {
    if items == [] then []
    else (match items[0] case Sent(f) => [f] case Junk(_) => []) + SentFrames(items[1..])
  }

  function BadLines(items: seq<Item>): nat {
    if items == [] then 0
    else (match items[0] case Sent(_) => 0 case Junk(l) => if Trim(l) == [] then 0 else 1)
         + BadLines(items[1..])
  }

  lemma {:induction false} StripNothing(s: Bytes)
    requires forall c <- s :: !IsSpace(c)
    ensures Trim(s) == s
  {
  }

  /** The line of a frame holds no terminator and reads back as that frame. */
  lemma ReadEncodeLine(f: Frame)
    ensures var line := Base64.Encode(Frames.Encode(f));
            CR !in line && Read(line) == Good(f)
  {
    var raw := Frames.Encode(f);
    Base64.EncodeAlphabet(raw);
    StripNothing(Base64.Encode(raw));
    Base64.DecodeEncode(raw);
    Frames.DecodeEncode(f);
  }

  /** White space is that of ASCII: a blank, a tab, a line feed, a vertical tab, a form feed, a CR. */
  lemma SpaceIff(c: byte)
    ensures IsSpace(c) <==> c as char in " \t\n\r" || c == 11 || c == 12
  {
  }

  /** White space around a frame's line does not matter; a CR ends the line, so LF after it is
      the next one's. */
  lemma ReadPaddedLine(f: Frame, before: Bytes, after: Bytes)
    requires (forall c <- before :: IsSpace(c)) && (forall c <- after :: IsSpace(c))
    ensures Read(before + (Base64.Encode(Frames.Encode(f)) + after)) == Good(f)
  {
    var text := Base64.Encode(Frames.Encode(f));
    ReadEncodeLine(f);
    Base64.EncodeAlphabet(Frames.Encode(f));
    StripNothing(text);
    assert text[0] in text && text[|text| - 1] in text;
    StripIff(before + (text + after), IsSpace, before, text, after);
  }

  /** And a line of nothing else is blank. */
  lemma ReadBlankLine(line: Bytes)
    requires forall c <- line :: IsSpace(c)
    ensures Read(line) == Blank
  {
    Unit(line);
    StripIff(line, IsSpace, line, [], []);
  }

  lemma SplitFirstLine(line: Bytes, rest: Bytes)
    requires CR !in line
    ensures Lines(line + [CR] + rest) == [line] + Lines(rest)
    ensures Rest(line + [CR] + rest) == Rest(rest)
  {
    var s := line + [CR] + rest;
    FirstCRUnique(s, |line|);
    assert s[..|line|] == line && s[|line| + 1..] == rest;
  }

  function LineOf(it: Item): Bytes {
    match it
    case Sent(f) => Base64.Encode(Frames.Encode(f))
    case Junk(l) => l
  }

  lemma {:induction false} LinesOfWire(items: seq<Item>)
    requires forall it <- items :: Admissible(it)
    ensures Rest(Wire(items)) == []
    ensures FramesOf(ReadAll(Lines(Wire(items)))) == SentFrames(items)
    ensures Count(Garbage, ReadAll(Lines(Wire(items)))) == BadLines(items)
  {
    if items != [] {
      assert Admissible(items[0]);
      LinesOfWire(items[1..]);
      var line, rest := LineOf(items[0]), Wire(items[1..]);
      if items[0].Sent? {
        ReadEncodeLine(items[0].frame);
      }
      assert Wire(items) == line + [CR] + rest;
      SplitFirstLine(line, rest);
      ReadAllCons(line, Lines(rest));
    }
  }

  lemma WireIsRead(items: seq<Item>)
    requires forall it <- items :: Admissible(it)
    ensures Fed(FRESH, Wire(items)) == (Decoder([], BadLines(items)), SentFrames(items))
  {
    LinesOfWire(items);
    FedFresh(Wire(items));
  }

  lemma FedFresh(data: Bytes)
    ensures var rs := ReadAll(Lines(data));
            Fed(FRESH, data) == (Decoder(Rest(data), Count(Garbage, rs)), FramesOf(rs))
  {
    Unit(data);
  }

  lemma WireOfOne(f: Frame, line: Bytes)
    requires line == EncodeLine(f)
    ensures Wire([Sent(f)]) == line && SentFrames([Sent(f)]) == [f] && BadLines([Sent(f)]) == 0
  {
    Unit(line);
    assert [Sent(f)][1..] == [];
  }

  lemma SameButForTheCount(d: Decoder, data: Bytes, fs: seq<Frame>)
    requires d.buf == [] && Fed(FRESH, data) == (FRESH, fs)
    ensures Fed(d, data) == (d, fs)
  {
  }

  /** A decoder between two lines reads the line of a frame as that frame. */
  lemma LineIsFed(d: Decoder, f: Frame, line: Bytes)
    requires d.buf == [] && line == EncodeLine(f)
    ensures Fed(d, line) == (d, [f])
  {
    WireOfOne(f, line);
    WireIsRead([Sent(f)]);
    SameButForTheCount(d, line, [f]);
  }

  /** Any frames, with blank or undecodable lines between them, cut into chunks in any way:
      the decoder yields exactly those frames in order, counts exactly the non-blank bad lines
      and keeps nothing. */
  lemma TransmissionIsExact(items: seq<Item>, chunks: seq<Bytes>)
    requires forall it <- items :: Admissible(it)
    requires Flatten(chunks) == Wire(items)
    ensures FedAll(FRESH, chunks) == (Decoder([], BadLines(items)), SentFrames(items))
  {
    ChunkingIsInvisible(FRESH, chunks);
    WireIsRead(items);
  }

  function AllSent(fs: seq<Frame>): seq<Item> {
    seq(|fs|, i requires 0 <= i < |fs| => Sent(fs[i]))
  }

  lemma {:induction false} AllSentAre(fs: seq<Frame>)
    ensures SentFrames(AllSent(fs)) == fs && BadLines(AllSent(fs)) == 0
    ensures fs != [] ==> Wire(AllSent(fs)) == EncodeLine(fs[0]) + Wire(AllSent(fs[1..]))
  {
    if fs != [] {
      AllSentAre(fs[1..]);
      assert AllSent(fs)[1..] == AllSent(fs[1..]);
    }
  }
}
