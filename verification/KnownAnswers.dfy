/** Whole lines, payloads and messages, byte for byte. */
module KnownAnswers {
  import opened Common
  import opened Frames
  import opened LineStream
  import opened Floats
  import opened Codecs
  import opened Topics
  import opened Sessions
  import opened Readings
  import opened Writes
  import opened ScalarWrites
  import opened DnsNames
  import opened DnsMessages
  import Base64
  import Collectors
  import Queries

  // ---- lines

  lemma EncodeTail(b0: byte, b1: byte, b2: byte, rest: Bytes)
    ensures Base64.Encode([b0, b1, b2] + rest) == Base64.Encode3(b0, b1, b2) + Base64.Encode(rest)
  {
    assert ([b0, b1, b2] + rest)[3..] == rest;
  }

  /** The subscription to the measured temperatures, 12 04 00 00 1A, is the line "EgQAABo=". */
  lemma SubscribeLine()
    ensures EncodeLine(Frame(SUBSCRIBE, AddressOf(Ctemp), [])) == [69, 103, 81, 65, 65, 66, 111, 61, 13]
  {
    var raw := [0x12, 0x04, 0, 0, 0x1A];
    assert Frames.Encode(Frame(SUBSCRIBE, AddressOf(Ctemp), [])) == raw == [0x12, 0x04, 0] + [0, 0x1A];
    EncodeTail(0x12, 0x04, 0, [0, 0x1A]);
  }

  /** 2.0 degrees in one compartment, 10 04 00 00 1A D0 07 00 00, is the line "EAQAABrQBwAA". */
  const TWO_DEGREES: Frame := Frame(0x10, Address(0x04, 0, 0, 0x1A), [0xD0, 0x07, 0, 0])

  lemma PublishLine()
    ensures EncodeLine(TWO_DEGREES) == [69, 65, 81, 65, 65, 66, 114, 81, 66, 119, 65, 65, 13]
  {
    assert Frames.Encode(TWO_DEGREES) == [0x10, 0x04, 0] + ([0, 0x1A, 0xD0] + [0x07, 0, 0]);
    EncodeTail(0x10, 0x04, 0, [0, 0x1A, 0xD0] + [0x07, 0, 0]);
    EncodeTail(0, 0x1A, 0xD0, [0x07, 0, 0]);
    EncodeTail(0x07, 0, 0, []);
    Unit<byte>([0x07, 0, 0]);
  }

  /** Fed to a new session, in two pieces, it is the one event, and is cached. */
  lemma PublishIsHeard(fl: real -> real, k: nat)
    requires IsRounding(fl) && k <= 13
    ensures var line := [69, 65, 81, 65, 65, 66, 114, 81, 66, 119, 65, 65, 13];
            var (s1, e1) := Received(fl, EMPTY, line[..k]);
            var (s2, e2) := Received(fl, s1, line[k..]);
            && e1 + e2 ==
                 [Published(Address(0x04, 0, 0, 0x1A), Some(Ctemp), List([Float(fl(2.0))]), [0xD0, 0x07, 0, 0])]
            && s2.cache.values == map[Ctemp := List([Float(fl(2.0))])]
            && s2.decoder == FRESH
  {
    var line: Bytes := [69, 65, 81, 65, 65, 66, 114, 81, 66, 119, 65, 65, 13];
    PublishLine();
    LineIsFed(FRESH, TWO_DEGREES, line);
    ReceivedConcat(fl, EMPTY, line[..k], line[k..]);
    assert line == line[..k] + line[k..];
    TwoDegreesAreHeard(fl);
  }

  lemma TwoDegreesAreHeard(fl: real -> real)
    ensures EventOf(fl, TWO_DEGREES) ==
            Published(Address(0x04, 0, 0, 0x1A), Some(Ctemp), List([Float(fl(2.0))]), [0xD0, 0x07, 0, 0])
    ensures EventsOf(fl, [TWO_DEGREES]) == [EventOf(fl, TWO_DEGREES)]
    ensures AbsorbAll(fl, EMPTY.cache, [TWO_DEGREES]).values == map[Ctemp := List([Float(fl(2.0))])]
  {
    TwoDegreesIs(fl);
    assert AbsorbAll(fl, EMPTY.cache, [TWO_DEGREES]) == Absorb(fl, EMPTY.cache, TWO_DEGREES);
  }

  lemma TwoDegreesIs(fl: real -> real)
    ensures ValueOf(fl, Ctemp, [0xD0, 0x07, 0, 0]) == List([Float(fl(2.0))])
  {
    HoldsIff([0xD0, 0x07, 0, 0], 2000);
    assert Int32s([0xD0, 0x07, 0, 0]) == [2000];
    assert MilliList(fl, [2000]) == [Float(fl(2.0))];
  }

  /** Minus eighteen degrees, B0 B9 FF FF: two's complement, low byte first. */
  lemma BelowZero(fl: real -> real)
    ensures ValueOf(fl, V, [0xB0, 0xB9, 0xFF, 0xFF]) == Float(fl(-18.0))
    ensures Int32Bytes(-18000) == [0xB0, 0xB9, 0xFF, 0xFF]
  {
    HoldsIff([0xB0, 0xB9, 0xFF, 0xFF], -18000);
  }

  /** A refusal, 05 05 00 00 1A, and an action of no meaning here, 06 00 00 00 00; a publish of no
      topic is shown as it is. */
  lemma OtherFrames(fl: real -> real)
    ensures EventOf(fl, Frame(0x05, Address(0x05, 0, 0, 0x1A), [])) == Refused(Address(0x05, 0, 0, 0x1A), [])
    ensures EventOf(fl, Frame(0x06, Address(0, 0, 0, 0), [])) == Unhandled(Frame(0x06, Address(0, 0, 0, 0), []))
    ensures EventOf(fl, Frame(0x10, Address(0x63, 0, 0, 0x1A), [1])) ==
            Published(Address(0x63, 0, 0, 0x1A), None, Raw([1]), [1])
  {
  }

  /** The parameters of the cooler, in the order of their numbers, and the five others. */
  lemma LiveAddresses(param: byte)
    requires 1 <= param <= 0x15
    ensures TopicAt(Address(param, 0, 0, 0x1A)) ==
            Some([Ptype, Nocpt, Cpow, Ctemp, Csettemp, Acpt, Cdoor, Ctemprng, Crecdrng, Ctempofs, Coolerpow, V,
                  Batprotlvl, Comppow, I, Powsrc, Icepow, Errst, Sn, Sku, Fwver][param - 1])
    ensures TopicAt(Address(0x02, 0, 0, 0)) == Some(GwFwver) && TopicAt(Address(0x11, 0, 0, 0)) == Some(GwMac)
    ensures TopicAt(Address(0x07, 0, 1, 0)) == Some(CfgFwid)
    ensures TopicAt(Address(0x01, 0, 0, 0x1C)) == Some(ProductName)
    ensures TopicAt(Address(0x03, 0, 0, 0x1C)) == Some(CmsSku)
  {
  }

  // ---- writes

  /** With 1.0 published, 2.0 is asked for: 11 05 00 00 1A D0 07 00 00. */
  lemma SetTwoDegrees(fl: real -> real) returns (frame: Frame, e: Expectation)
    requires IsRounding(fl)
    ensures SetFrame(fl, Showing(fl, [1000]).values, ByTopic(Csettemp), Float(2.0), None) == Ok((frame, e))
    ensures Frames.Encode(frame) == [0x11, 0x05, 0, 0, 0x1A, 0xD0, 0x07, 0, 0]
  {
    frame, e := AcceptedSetPoint(fl, [1000], 2.0, 2000, 0);
    ShowingIs(fl, [1000]);
    SetPointFrame(fl, Showing(fl, [1000]), Float(2.0), 0, frame, e);
    OneInt32(frame.payload);
  }

  lemma OneInt32(p: Bytes)
    requires |p| == 4 && Int32s(p) == [2000]
    ensures p == [0xD0, 0x07, 0, 0]
  {
    WholeInt32s(p, 1);
    assert [2000][1..] == [];
    Unit(Int32Bytes(2000));
  }

  /** Switching the cooler on, 11 0B 00 00 1A 01 00 00 00, and off. */
  lemma SwitchCooler(fl: real -> real, values: map<Topic, Value>)
    ensures SetFrame(fl, values, ByTopic(Coolerpow), Flag(true), None).Ok?
    ensures Frames.Encode(SetFrame(fl, values, ByTopic(Coolerpow), Flag(true), None).value.0) ==
            [0x11, 0x0B, 0, 0, 0x1A, 1, 0, 0, 0]
    ensures SetFrame(fl, values, ByTopic(Coolerpow), Text("Off"), None).Ok?
    ensures Frames.Encode(SetFrame(fl, values, ByTopic(Coolerpow), Text("Off"), None).value.0) ==
            [0x11, 0x0B, 0, 0, 0x1A, 0, 0, 0, 0]
  {
    SwitchFrame(fl, values, Coolerpow, Flag(true), None);
    SwitchFrame(fl, values, Coolerpow, Text("Off"), None);
    OffIsOff();
    SwitchBytes(0x0B, 0);
    SwitchBytes(0x0B, 1);
  }

  lemma OffIsOff()
    ensures !SwitchesOn(Text("Off"))
  {
    StripIff("Off", IsBlank, "", "Off", "");
  }

  /** Battery protection medium, 11 0D 00 00 1A 01 00 00 00. */
  lemma MediumProtection(fl: real -> real, values: map<Topic, Value>)
    ensures SetFrame(fl, values, ByTopic(Batprotlvl), Text("Medium"), None).Ok?
    ensures Frames.Encode(SetFrame(fl, values, ByTopic(Batprotlvl), Text("Medium"), None).value.0) ==
            [0x11, 0x0D, 0, 0, 0x1A, 1, 0, 0, 0]
  {
    ProtectionFrame(fl, values, Text("Medium"), None, 1);
    OnOffIs(true);
    SwitchBytes(0x0D, 1);
  }

  lemma SwitchBytes(param: byte, b: byte)
    ensures Frames.Encode(Frame(0x11, Address(param, 0, 0, 0x1A), [b, 0, 0, 0])) ==
            [0x11, param, 0, 0, 0x1A, b, 0, 0, 0]
  {
  }

  // ---- messages

  /** An answer of an A and a TXT record, the second's owner a pointer, C0 0C, to the first's. */
  const HEADER: Bytes := [0, 0, 0x84, 0, 0, 0, 0, 2, 0, 0, 0, 0]
  const HOST_BYTES: Bytes := [1, 97, 0, 0, 1, 0, 1, 0, 0, 0, 120, 0, 4, 192, 168, 1, 2]
  const TEXT_BYTES: Bytes := [0xC0, 0x0C, 0, 16, 0, 1, 0, 0, 0, 120, 0, 4, 3, 107, 61, 118]

  function Answer(): Bytes {
    HEADER + (HOST_BYTES + TEXT_BYTES)
  }

  lemma AnswerParts()
    ensures |Answer()| == 45
    ensures At(Answer(), 0, HEADER) && At(Answer(), 12, HOST_BYTES) && At(Answer(), 29, TEXT_BYTES)
  {
    AtSplit(Answer(), 0, HEADER, HOST_BYTES + TEXT_BYTES);
    AtSplit(Answer(), 12, HOST_BYTES, TEXT_BYTES);
  }

  lemma ShortName(data: Bytes, o: nat, c: byte)
    requires o + 2 < |data| && data[o] == 1 && data[o + 1] == c && data[o + 2] == 0
    ensures Names(data, o, [[c]], 0) && ReadNameSpec(data, o) == Ok(([[c]], o + 3))
  {
    assert Clip(data, o + 1, 1) == [data[o + 1]] + Clip(data, o + 2, 0);
    assert [[c]][1..] == [];
    assert Names(data, o + 2, [], 0) && NameEnd(data, o + 2) == o + 3;
    WalkIsComplete(data, o, [[c]], 0, 0);
  }

  lemma RecordStands(data: Bytes, o: nat, labels: seq<Label>, end: nat, next: nat)
    requires ReadNameSpec(data, o) == Ok((labels, end)) && end + 10 <= |data|
    requires data[end + 8] == 0 && next == end + 10 + data[end + 9] && next <= |data|
    ensures NextRecord(data, NameReader(data), o) ==
            Some((Record(Join(labels), U16At(data, end), data[end + 10..next], end + 10), next))
  {
    ClipIsSlice(data, end + 10, data[end + 9]);
  }

  lemma TwoRecords(data: Bytes, read: Reader, o: nat, r1: Record, next: nat, r2: Record, last: nat)
    requires NextRecord(data, read, o) == Some((r1, next)) && NextRecord(data, read, next) == Some((r2, last))
    ensures ReadRecords(data, read, o, 2) == [r1, r2]
  {
    assert ReadRecords(data, read, next, 1) == [r2] + ReadRecords(data, read, last, 0);
  }

  const HOST_RECORD: Record := Record([97], 1, [192, 168, 1, 2], 25)
  const TEXT_RECORD: Record := Record([97], 16, [3, 107, 61, 118], 41)

  lemma HostRecordStands(data: Bytes)
    requires |data| == 45 && At(data, 12, HOST_BYTES)
    ensures NextRecord(data, NameReader(data), 12) == Some((HOST_RECORD, 29))
  {
    assert data[12] == HOST_BYTES[0] && data[13] == HOST_BYTES[1] && data[14] == HOST_BYTES[2];
    assert data[15] == HOST_BYTES[3] && data[16] == HOST_BYTES[4];
    assert data[23] == HOST_BYTES[11] && data[24] == HOST_BYTES[12];
    ShortName(data, 12, 97);
    RecordStands(data, 12, [[97]], 15, 29);
    assert data[25..29] == HOST_BYTES[13..] == [192, 168, 1, 2];
  }

  lemma TextRecordStands(data: Bytes)
    requires |data| == 45 && At(data, 12, HOST_BYTES) && At(data, 29, TEXT_BYTES)
    ensures NextRecord(data, NameReader(data), 29) == Some((TEXT_RECORD, 45))
  {
    assert data[12] == HOST_BYTES[0] && data[13] == HOST_BYTES[1] && data[14] == HOST_BYTES[2];
    assert data[29] == TEXT_BYTES[0] && data[30] == TEXT_BYTES[1] && data[31] == TEXT_BYTES[2];
    assert data[32] == TEXT_BYTES[3] && data[39] == TEXT_BYTES[10] && data[40] == TEXT_BYTES[11];
    assert data[41..45] == TEXT_BYTES[12..] == [3, 107, 61, 118];
    PointedRecordStands(data);
  }

  lemma PointedRecordStands(data: Bytes)
    requires |data| == 45 && data[12] == 1 && data[13] == 97 && data[14] == 0
    requires data[29] == 0xC0 && data[30] == 0x0C && data[31] == 0 && data[32] == 16 && data[39] == 0 && data[40] == 4
    requires data[41..45] == [3, 107, 61, 118]
    ensures NextRecord(data, NameReader(data), 29) == Some((TEXT_RECORD, 45))
  {
    ShortName(data, 12, 97);
    PointerLeads(data, 29, 12, [[97]], 0);
    RecordStands(data, 29, [[97]], 31, 45);
  }

  /** It is parsed into the two records of the name "a". */
  lemma AnswerIsParsed()
    ensures Parse(Answer()) == [HOST_RECORD, TEXT_RECORD]
  {
    var data := Answer();
    AnswerParts();
    HostRecordStands(data);
    TextRecordStands(data);
    TwoRecords(data, NameReader(data), 12, HOST_RECORD, 29, TEXT_RECORD, 45);
    CountsOf(data);
    TwoWithoutQuestions(data, NameReader(data));
  }

  lemma CountAt(data: Bytes, o: nat, n: byte)
    requires o + 2 <= 12 <= |data| && At(data, 0, HEADER) && HEADER[o] == 0 && HEADER[o + 1] == n
    ensures U16At(data, o) == n
  {
    assert data[o] == HEADER[o] && data[o + 1] == HEADER[o + 1];
  }

  predicate CountsTwo(data: Bytes)
    requires |data| >= 12
  {
    U16At(data, 4) == 0 && U16At(data, 6) == 2 && U16At(data, 8) == 0 && U16At(data, 10) == 0
  }

  lemma CountsOf(data: Bytes)
    requires |data| >= 12 && At(data, 0, HEADER)
    ensures CountsTwo(data)
  {
    CountAt(data, 4, 0);
    CountAt(data, 6, 2);
    CountAt(data, 8, 0);
    CountAt(data, 10, 0);
  }

  lemma TwoWithoutQuestions(data: Bytes, read: Reader)
    requires |data| >= 12 && CountsTwo(data)
    ensures ParseWith(data, read) == ReadRecords(data, read, 12, 2)
  {
    assert SkipQuestions(read, 12, 0) == Some(12);
  }

  /** A collector learns from it the address of the host "a" and one attribute of that name,
      "k" with the value "v". */
  lemma AnswerIsLearned(service: Bytes)
    ensures Collectors.Facts(service, Answer(), Parse(Answer())) ==
            [Collectors.Host([97], [192, 168, 1, 2]), Collectors.Text([97], map[[107] := [118]])]
  {
    AnswerIsParsed();
    RecordsAreLearned(service, Answer());
  }

  lemma RecordsAreLearned(service: Bytes, data: Bytes)
    ensures Collectors.Facts(service, data, [HOST_RECORD, TEXT_RECORD]) ==
            [Collectors.Host([97], [192, 168, 1, 2]), Collectors.Text([97], map[[107] := [118]])]
  {
    assert Collectors.Lower([97]) == [97];
    OneAttribute();
    assert [HOST_RECORD, TEXT_RECORD][1..] == [TEXT_RECORD] && [TEXT_RECORD][1..] == [];
    assert Collectors.Facts(service, data, [TEXT_RECORD]) == [Collectors.Text([97], map[[107] := [118]])];
  }

  lemma OneAttribute()
    ensures Collectors.TxtFrom([3, 107, 61, 118], 0, map[]) == map[[107] := [118]]
  {
    var e := Collectors.Entry([107], Some([118]));
    assert [e][1..] == [];
    assert Collectors.EntryBytes(e) == [107, 61, 118];
    assert Collectors.EncodeTxt([e]) == [3, 107, 61, 118];
    Collectors.TxtRoundTrip([3, 107, 61, 118], 0, [e], map[]);
    StripIff<byte>([118], Collectors.IsBlankByte, [], [118], []);
    assert Collectors.Entered(map[], [e]) == Collectors.Enter(map[], e);
  }

  /** The query for a service "a", that asks for a unicast answer or not. */
  lemma DefaultQuery(unicast: bool)
    ensures Queries.QuerySpec(Queries.Asked([97], []), Queries.QueryClass(unicast)) ==
            Some([0, 0, 0, 0, 0, 1, 0, 0, 0, 0, 0, 0, 1, 97, 0, 0, 12, if unicast then 128 else 0, 1])
  {
    var qclass, flag: byte := Queries.QueryClass(unicast), if unicast then 128 else 0;
    OneQuestion(qclass, flag);
    assert Queries.QueryHeader(1) == [0, 0, 0, 0, 0, 1, 0, 0, 0, 0, 0, 0] by {
      Queries.HeaderIs(1);
    }
    assert [0, 0, 0, 0, 0, 1, 0, 0, 0, 0, 0, 0] + [1, 97, 0, 0, 12, flag, 1] ==
           [0, 0, 0, 0, 0, 1, 0, 0, 0, 0, 0, 0, 1, 97, 0, 0, 12, flag, 1];
    Queries.ClassIs(unicast);
  }

  lemma OneQuestion(qclass: nat, flag: byte)
    requires qclass < 65536 && (Queries.U16Bytes(qclass) == [flag, 1])
    ensures Queries.QuestionsBytes([([97], 12)], qclass) == Some([1, 97, 0, 0, 12, flag, 1])
  {
    EncodedA();
    assert [([97], 12)][1..] == [];
    assert [1, 97, 0] + ([0, 12] + [flag, 1]) + [] == [1, 97, 0, 0, 12, flag, 1];
  }

  lemma EncodedA()
    ensures EncodeNameSpec([97]) == Some([1, 97, 0])
  {
    StripIff<byte>([97], IsDot, [], [97], []);
    assert StripDots([97]) == [97];
    SplitLabel([97]);
    assert [[97]][1..] == [];
    assert EncodeLabels([[97]]) == [1, 97] && [1, 97] + [0] == [1, 97, 0];
  }

  /** Dots separate labels, and those around a name do not count: ".a.b." is 1 "a" 1 "b" 0. */
  lemma DottedName()
    ensures EncodeNameSpec([46, 97, 46, 98, 46]) == Some([1, 97, 1, 98, 0])
  {
    StripIff<byte>([46, 97, 46, 98, 46], IsDot, [46], [97, 46, 98], [46]);
    SplitLabel([98]);
    SplitAtDot([97], [98]);
    assert [97] + [DOT] + [98] == [97, 46, 98];
    TwoLabels();
  }

  lemma TwoLabels()
    ensures Fit([[97], [98]]) && EncodeLabels([[97], [98]]) + [0] == [1, 97, 1, 98, 0]
  {
    assert [[97], [98]][1..] == [[98]] && [[98]][1..] == [];
    assert EncodeLabels([[98]]) == [1, 98];
    assert EncodeLabels([[97], [98]]) == [1, 97, 1, 98] && [1, 97, 1, 98] + [0] == [1, 97, 1, 98, 0];
  }
}
