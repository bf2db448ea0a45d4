/** DNS messages: a header, questions and records (sections 4.1.1 to 4.1.3 of RFC 1035). */
module DnsMessages {
  import opened Common
  import opened DnsNames

  datatype Record = Record(name: Bytes, rtype: nat, rdata: Bytes, offset: nat)

  function U16At(data: Bytes, o: nat): (n: nat)
    requires o + 2 <= |data|
    ensures n < 65536
  {
    var hi: int, lo: int := data[o], data[o + 1];
    256 * hi + lo
  }

  // ---- reading

  /** How the names of one message are read. The walk over its records knows no more of them,
      so what holds of the walk is stated for any reader. */
  type Reader = nat -> Result<(seq<Label>, nat), NameError>

  function NameReader(data: Bytes): Reader {
    offset => ReadNameSpec(data, offset)
  }

  /** Where the question at `offset` ends; its type and class are skipped unread. */
  function NextQuestion(read: Reader, offset: nat): Option<nat> {
    match read(offset)
    case Err(_) => None
    case Ok((_, end)) => Some(end + 4)
  }

  /** The record whose name has been read up to `end`. */
  function RecordAt(data: Bytes, name: Bytes, end: nat): Record
    requires end + 10 <= |data|
  {
    Record(name, U16At(data, end), Clip(data, end + 10, U16At(data, end + 8)), end + 10)
  }

  /** The record at `offset` and where the next one begins. */
  function NextRecord(data: Bytes, read: Reader, offset: nat): Option<(Record, nat)> {
    match read(offset)
    case Err(_) => None
    case Ok((labels, end)) =>
      if end + 10 > |data| then None
      else Some((RecordAt(data, Join(labels), end), end + 10 + U16At(data, end + 8)))
  }

  /** The offset after `n` questions, or `None` when a name in them cannot be read. */
  function SkipQuestions(read: Reader, offset: nat, n: nat): Option<nat>
    decreases n
  {
    if n == 0 then Some(offset)
    else match NextQuestion(read, offset)
         case None => None
         case Some(next) => SkipQuestions(read, next, n - 1)
  }

  /** At most `n` records from `offset` on; reading stops at the first that is not there. */
  function ReadRecords(data: Bytes, read: Reader, offset: nat, n: nat): seq<Record>
    decreases n
  {
    if n == 0 then []
    else match NextRecord(data, read, offset)
         case None => []
         case Some((r, next)) => [r] + ReadRecords(data, read, next, n - 1)
  }

  function ParseBody(data: Bytes, read: Reader, offset: nat, qd: nat, total: nat): seq<Record> {
    match SkipQuestions(read, offset, qd)
    case None => []
    case Some(first) => ReadRecords(data, read, first, total)
  }

  function ParseWith(data: Bytes, read: Reader): seq<Record> {
    if |data| < 12 then []
    else ParseBody(data, read, 12, U16At(data, 4), U16At(data, 6) + U16At(data, 8) + U16At(data, 10))
  }

  function Parse(data: Bytes): seq<Record> {
    ParseWith(data, NameReader(data))
  }

  /** `parse_response`, whose two loops are the next two methods. */
  method ParseResponse(data: Bytes) returns (records: seq<Record>)
    ensures records == Parse(data)
  {
    if |data| < 12 {
      return [];
    }
    ghost var read := NameReader(data);
    var qd, total := U16At(data, 4), U16At(data, 6) + U16At(data, 8) + U16At(data, 10);
    var first := PassQuestions(data, read, 12, qd);
    if first.None? {
      return [];
    }
    records := CollectRecords(data, read, first.value, total);
  }

  /** One call of `_read_name`, seen as the reader of the message. */
  method ReadNext(data: Bytes, ghost read: Reader, offset: nat) returns (r: Result<(Bytes, nat), NameError>)
    requires read == NameReader(data)
    ensures r == match read(offset)
                 case Ok((labels, end)) => Ok((Join(labels), end))
                 case Err(e) => Err(e)
  {
    r := ReadName(data, offset);
  }

  method PassQuestions(data: Bytes, ghost read: Reader, start: nat, n: nat) returns (end: Option<nat>)
    requires read == NameReader(data)
    ensures end == SkipQuestions(read, start, n)
  {
    var offset: nat := start;
    for i := 0 to n
      invariant SkipQuestions(read, start, n) == SkipQuestions(read, offset, n - i)
    {
      var name := ReadNext(data, read, offset);
      if name.Err? {
        return None;
      }
      offset := name.value.1 + 4;
    }
    end := Some(offset);
  }

  method CollectRecords(data: Bytes, ghost read: Reader, start: nat, n: nat) returns (records: seq<Record>)
    requires read == NameReader(data)
    ensures records == ReadRecords(data, read, start, n)
  {
    records := [];
    var offset: nat := start;
    ghost var all := ReadRecords(data, read, start, n);
    Unit(all);
    for i := 0 to n
      invariant Completes(data, read, offset, n - i, records, all)
    {
      var next := ReadRecord(data, read, offset);
      RecordsStep(data, read, offset, n - i, records, all);
      if next.None? {
        return;
      }
      records := records + [next.value.0];
      offset := next.value.1;
    }
    Unit(records);
  }

  /** `before` and the records still to be read from `offset` on make up `all`. */
  predicate Completes(data: Bytes, read: Reader, offset: nat, n: nat, before: seq<Record>, all: seq<Record>) {
    before + ReadRecords(data, read, offset, n) == all
  }

  lemma RecordsStep(data: Bytes, read: Reader, offset: nat, n: nat, before: seq<Record>, all: seq<Record>)
    requires n > 0 && Completes(data, read, offset, n, before, all)
    ensures match NextRecord(data, read, offset)
            case None => before == all
            case Some((r, next)) => Completes(data, read, next, n - 1, before + [r], all)
  {
    match NextRecord(data, read, offset)
    case None => Unit(before);
    case Some((r, next)) => Assoc(before, [r], ReadRecords(data, read, next, n - 1));
  }

  /** One turn of that loop: the record at `offset` and where the next begins. */
  method ReadRecord(data: Bytes, ghost read: Reader, offset: nat) returns (r: Option<(Record, nat)>)
    requires read == NameReader(data)
    ensures r == NextRecord(data, read, offset)
  {
    var name := ReadNext(data, read, offset);
    if name.Err? || name.value.1 + 10 > |data| {
      return None;
    }
    var end := name.value.1;
    r := Some((RecordAt(data, name.value.0, end), end + 10 + U16At(data, end + 8)));
  }

  // ---- bounds

  /** Every name read takes at least one byte, inside the `size` bytes. */
  ghost predicate Advances(read: Reader, size: nat) {
    forall o: nat :: read(o).Ok? ==> o < read(o).value.1 <= size
  }

  lemma NamesAdvance(data: Bytes)
    ensures Advances(NameReader(data), |data|)
  {
    forall o: nat | ReadNameSpec(data, o).Ok? ensures o < ReadNameSpec(data, o).value.1 <= |data| {
      WalkIsSound(data, o, 0);
      var labels := Walk(data, o, 0).value;
      var k :| 0 <= k <= MAX_HOPS && Names(data, o, labels, k);
      NameStaysInside(data, o, labels, k);
    }
  }

  /** All records lie in the `size` bytes from `offset` on, at least eleven bytes each, in
      order. */
  predicate Inside(rs: seq<Record>, offset: nat, size: nat) {
    && (rs != [] ==> offset + 11 * |rs| <= size)
    && (forall i :: 0 <= i < |rs| ==> offset + 11 <= rs[i].offset && rs[i].offset + |rs[i].rdata| <= size)
    && (forall i, j :: 0 <= i < j < |rs| ==> rs[i].offset < rs[j].offset)
  }

  lemma InsideCons(r: Record, rs: seq<Record>, offset: nat, next: nat, size: nat)
    requires Inside(rs, next, size) && offset + 11 <= r.offset <= next && r.offset + |r.rdata| <= size
    ensures Inside([r] + rs, offset, size)
  {
  }

  lemma {:induction false} RecordsAreInside(data: Bytes, read: Reader, offset: nat, n: nat)
    requires Advances(read, |data|)
    ensures Inside(ReadRecords(data, read, offset, n), offset, |data|)
    decreases n
  {
    if n > 0 && NextRecord(data, read, offset).Some? {
      var (r, next) := NextRecord(data, read, offset).value;
      RecordsAreInside(data, read, next, n - 1);
      InsideCons(r, ReadRecords(data, read, next, n - 1), offset, next, |data|);
    }
  }

  lemma {:induction false} QuestionsAdvance(read: Reader, offset: nat, n: nat, size: nat)
    requires Advances(read, size)
    ensures SkipQuestions(read, offset, n).Some? ==> offset <= SkipQuestions(read, offset, n).value
    decreases n
  {
    if n > 0 && NextQuestion(read, offset).Some? {
      QuestionsAdvance(read, NextQuestion(read, offset).value, n - 1, size);
    }
  }

  lemma InsideFrom(rs: seq<Record>, offset: nat, later: nat, size: nat)
    requires Inside(rs, later, size) && offset <= later
    ensures Inside(rs, offset, size)
  {
  }

  lemma BodyIsInside(data: Bytes, read: Reader, offset: nat, qd: nat, total: nat)
    requires Advances(read, |data|)
    ensures Inside(ParseBody(data, read, offset, qd, total), offset, |data|)
  {
    QuestionsAdvance(read, offset, qd, |data|);
    var first := SkipQuestions(read, offset, qd);
    if first.Some? {
      RecordsAreInside(data, read, first.value, total);
      InsideFrom(ReadRecords(data, read, first.value, total), offset, first.value, |data|);
    }
  }

  lemma ParseWithIsInside(data: Bytes, read: Reader)
    requires Advances(read, |data|)
    ensures Inside(ParseWith(data, read), 12, |data|)
  {
    if |data| >= 12 {
      BodyIsInside(data, read, 12, U16At(data, 4), U16At(data, 6) + U16At(data, 8) + U16At(data, 10));
    }
  }

  /** On every byte string, whatever counts the header claims: each record takes at least
      eleven bytes after the header, all rdata lies inside the message, and the rdata offsets
      strictly increase. */
  lemma ParseIsBounded(data: Bytes)
    ensures var rs := Parse(data);
            && (rs != [] ==> 12 + 11 * |rs| <= |data|)
            && (forall i :: 0 <= i < |rs| ==> 23 <= rs[i].offset && rs[i].offset + |rs[i].rdata| <= |data|)
            && (forall i, j :: 0 <= i < j < |rs| ==> rs[i].offset < rs[j].offset)
  {
    NamesAdvance(data);
    ParseWithIsInside(data, NameReader(data));
  }

  // ---- truncation

  /** `short` are the first records of `long`, except that the rdata of the last may be cut. */
  predicate CutOf(short: seq<Record>, long: seq<Record>) {
    && |short| <= |long|
    && (forall i :: 0 <= i < |short| - 1 ==> short[i] == long[i])
    && (short != [] ==>
          var s, l := short[|short| - 1], long[|short| - 1];
          s == l.(rdata := s.rdata) && s.rdata <= l.rdata)
  }

  lemma CutCons(r: Record, short: seq<Record>, long: seq<Record>)
    requires CutOf(short, long)
    ensures CutOf([r] + short, [r] + long)
  {
  }

  /** What the one reader can read, the other reads the same. */
  ghost predicate Extends(read: Reader, wider: Reader) {
    forall o: nat :: read(o).Ok? ==> wider(o) == read(o)
  }

  lemma NamesExtend(data: Bytes, more: Bytes)
    ensures Extends(NameReader(data), NameReader(data + more))
  {
    forall o: nat | ReadNameSpec(data, o).Ok? ensures ReadNameSpec(data + more, o) == ReadNameSpec(data, o) {
      ReadNameMonotone(data, more, o);
    }
  }

  /** The first record of a message cut after `data` is the first of the whole, and where its
      rdata is cut, nothing follows it. */
  lemma NextRecordOfConcat(data: Bytes, more: Bytes, read: Reader, wider: Reader, offset: nat, s: Record, next: nat)
    requires Extends(read, wider) && NextRecord(data, read, offset) == Some((s, next))
    ensures NextRecord(data + more, wider, offset).Some?
    ensures var (l, after) := NextRecord(data + more, wider, offset).value;
            && after == next && s == l.(rdata := s.rdata) && s.rdata <= l.rdata
            && (s == l || next > |data|)
  {
    var end := read(offset).value.1;
    NumbersOfConcat(data, more, end);
    NumbersOfConcat(data, more, end + 8);
    ClipOfConcat(data, more, end + 10, U16At(data, end + 8));
  }

  lemma NumbersOfConcat(data: Bytes, more: Bytes, o: nat)
    requires o + 2 <= |data|
    ensures U16At(data + more, o) == U16At(data, o)
  {
  }

  lemma {:induction false} CutRecords(data: Bytes, more: Bytes, read: Reader, wider: Reader, offset: nat, n: nat)
    requires Extends(read, wider) && Advances(read, |data|)
    ensures CutOf(ReadRecords(data, read, offset, n), ReadRecords(data + more, wider, offset, n))
    decreases n
  {
    if n > 0 && NextRecord(data, read, offset).Some? {
      var (s, next) := NextRecord(data, read, offset).value;
      NextRecordOfConcat(data, more, read, wider, offset, s, next);
      var l := NextRecord(data + more, wider, offset).value.0;
      var rest, long := ReadRecords(data, read, next, n - 1), ReadRecords(data + more, wider, next, n - 1);
      if next > |data| {
        assert rest == [];
        assert CutOf([s] + [], [l] + long);
      } else {
        CutRecords(data, more, read, wider, next, n - 1);
        CutCons(s, rest, long);
      }
    }
  }

  lemma {:induction false} QuestionsExtend(read: Reader, wider: Reader, offset: nat, n: nat)
    requires Extends(read, wider) && SkipQuestions(read, offset, n).Some?
    ensures SkipQuestions(wider, offset, n) == SkipQuestions(read, offset, n)
    decreases n
  {
    if n > 0 {
      QuestionsExtend(read, wider, NextQuestion(read, offset).value, n - 1);
    }
  }

  lemma CutBody(data: Bytes, more: Bytes, read: Reader, wider: Reader, offset: nat, qd: nat, total: nat)
    requires Extends(read, wider) && Advances(read, |data|)
    ensures CutOf(ParseBody(data, read, offset, qd, total), ParseBody(data + more, wider, offset, qd, total))
  {
    if SkipQuestions(read, offset, qd).Some? {
      QuestionsExtend(read, wider, offset, qd);
      CutRecords(data, more, read, wider, SkipQuestions(read, offset, qd).value, total);
    }
  }

  lemma CutParse(data: Bytes, more: Bytes, read: Reader, wider: Reader)
    requires Extends(read, wider) && Advances(read, |data|)
    ensures CutOf(ParseWith(data, read), ParseWith(data + more, wider))
  {
    if |data| >= 12 {
      var qd, total := U16At(data, 4), U16At(data, 6) + U16At(data, 8) + U16At(data, 10);
      NumbersOfConcat(data, more, 4);
      NumbersOfConcat(data, more, 6);
      NumbersOfConcat(data, more, 8);
      NumbersOfConcat(data, more, 10);
      assert ParseWith(data, read) == ParseBody(data, read, 12, qd, total);
      assert ParseWith(data + more, wider) == ParseBody(data + more, wider, 12, qd, total);
      CutBody(data, more, read, wider, 12, qd, total);
    }
  }

  /** Cutting a message anywhere loses records from the end only: what is still read are the
      first records of the whole, the last one possibly with shorter rdata. */
  lemma TruncationKeepsRecords(data: Bytes, more: Bytes)
    ensures CutOf(Parse(data), Parse(data + more))
  {
    NamesExtend(data, more);
    NamesAdvance(data);
    CutParse(data, more, NameReader(data), NameReader(data + more));
  }

  // ---- messages as they are laid out

  /** A name: labels, then the root or the two bytes of a pointer. */
  datatype WireName = WireName(labels: seq<Label>, pointer: Option<(byte, byte)>)

  /** A question: its name, then its type and class. */
  datatype WireQuestion = WireQuestion(name: WireName, fixed: Bytes)

  /** A record: its name, then type, class, time to live and rdata length, then the rdata. */
  datatype WireRecord = WireRecord(name: WireName, fixed: Bytes, rdata: Bytes)

  predicate Wellformed(w: WireName) {
    Short(w.labels) && (w.pointer.Some? ==> w.pointer.value.0 >= 192)
  }

  function EncodeWire(w: WireName): Bytes
    requires Wellformed(w)
  {
    EncodeLabels(w.labels) + match w.pointer case None => [0] case Some((hi, lo)) => [hi, lo]
  }

  predicate GoodQuestions(qs: seq<WireQuestion>) {
    forall i :: 0 <= i < |qs| ==> Wellformed(qs[i].name) && |qs[i].fixed| == 4
  }

  function EncodeQuestions(qs: seq<WireQuestion>): Bytes
    requires GoodQuestions(qs)
  {
    if qs == [] then [] else EncodeWire(qs[0].name) + (qs[0].fixed + EncodeQuestions(qs[1..]))
  }

  predicate GoodRecord(r: WireRecord) {
    Wellformed(r.name) && |r.fixed| == 10 && U16At(r.fixed, 8) == |r.rdata|
  }

  predicate GoodRecords(rs: seq<WireRecord>) {
    forall i :: 0 <= i < |rs| ==> GoodRecord(rs[i])
  }

  function EncodeRecord(r: WireRecord): Bytes
    requires GoodRecord(r)
  {
    EncodeWire(r.name) + (r.fixed + r.rdata)
  }

  function EncodeRecords(rs: seq<WireRecord>): Bytes
    requires GoodRecords(rs)
  {
    if rs == [] then [] else EncodeRecord(rs[0]) + EncodeRecords(rs[1..])
  }

  /** The header counts the questions, and the records of its three sections together. */
  predicate GoodHeader(h: Bytes, qd: nat, total: nat) {
    |h| == 12 && U16At(h, 4) == qd && U16At(h, 6) + U16At(h, 8) + U16At(h, 10) == total
  }

  function EncodeMessage(h: Bytes, qs: seq<WireQuestion>, rs: seq<WireRecord>): Bytes
    requires GoodHeader(h, |qs|, |rs|) && GoodQuestions(qs) && GoodRecords(rs)
  {
    h + (EncodeQuestions(qs) + EncodeRecords(rs))
  }

  // ---- reading names as they are laid out

  /** In this message the wire name stands for `full`, by way of `jumps` pointers. */
  ghost predicate Resolves(data: Bytes, w: WireName, full: seq<Label>, jumps: nat) {
    && jumps <= MAX_HOPS && w.labels <= full
    && match w.pointer
       case None => full == w.labels && jumps == 0
       case Some((hi, lo)) => hi >= 192 && jumps > 0 && Names(data, Pointer(hi, lo), full[|w.labels|..], jumps - 1)
  }

  /** A wire name, wherever it stands in the message, is read as the name it stands for, up to
      its own end. */
  lemma WireNameIsRead(data: Bytes, offset: nat, w: WireName, full: seq<Label>, jumps: nat)
    requires Wellformed(w) && At(data, offset, EncodeWire(w)) && Resolves(data, w, full, jumps)
    ensures ReadNameSpec(data, offset) == Ok((full, offset + |EncodeWire(w)|))
    ensures Names(data, offset, full, jumps)
  {
    TailIsRead(data, offset, w, full, jumps);
    LabelsThenTail(data, offset, w.labels, full[|w.labels|..], jumps, full, offset + |EncodeWire(w)|);
  }

  lemma LabelsThenTail(data: Bytes, offset: nat, labels: seq<Label>, more: seq<Label>, jumps: nat, full: seq<Label>,
                       end: nat)
    requires Short(labels) && At(data, offset, EncodeLabels(labels)) && full == labels + more && jumps <= MAX_HOPS
    requires Names(data, offset + |EncodeLabels(labels)|, more, jumps)
    requires NameEnd(data, offset + |EncodeLabels(labels)|) == end
    ensures ReadNameSpec(data, offset) == Ok((full, end)) && Names(data, offset, full, jumps)
  {
    EncodedIsSpelled(data, offset, labels);
    LabelsThenName(data, offset, labels, offset + |EncodeLabels(labels)|, more, jumps, full);
    WalkIsComplete(data, offset, full, jumps, 0);
  }

  lemma TailIsRead(data: Bytes, offset: nat, w: WireName, full: seq<Label>, jumps: nat)
    requires Wellformed(w) && At(data, offset, EncodeWire(w)) && Resolves(data, w, full, jumps)
    ensures var tail := offset + |EncodeLabels(w.labels)|;
            && At(data, offset, EncodeLabels(w.labels))
            && Names(data, tail, full[|w.labels|..], jumps)
            && NameEnd(data, tail) == offset + |EncodeWire(w)|
  {
    match w.pointer
    case None =>
      RootTail(data, offset, EncodeLabels(w.labels));
    case Some((hi, lo)) =>
      PointerTail(data, offset, EncodeLabels(w.labels), hi, lo, full[|w.labels|..], jumps);
  }

  lemma RootTail(data: Bytes, offset: nat, before: Bytes)
    requires At(data, offset, before + [0])
    ensures var tail := offset + |before|;
            At(data, offset, before) && Names(data, tail, [], 0) && NameEnd(data, tail) == tail + 1
  {
    AtSplit(data, offset, before, [0]);
    RootIsName(data, offset + |before|);
  }

  lemma PointerTail(data: Bytes, offset: nat, before: Bytes, hi: byte, lo: byte, more: seq<Label>, jumps: nat)
    requires hi >= 192 && At(data, offset, before + [hi, lo])
    requires jumps > 0 && Names(data, Pointer(hi, lo), more, jumps - 1)
    ensures var tail := offset + |before|;
            At(data, offset, before) && Names(data, tail, more, jumps) && NameEnd(data, tail) == tail + 2
  {
    AtSplit(data, offset, before, [hi, lo]);
    PointerIsName(data, offset + |before|, hi, lo, more, jumps);
  }

  /** Wherever the wire name stands, the reader reads it as `full`. */
  ghost predicate ReadsAs(data: Bytes, read: Reader, w: WireName, full: seq<Label>) {
    && Wellformed(w)
    && forall o: nat {:trigger At(data, o, EncodeWire(w))} ::
         At(data, o, EncodeWire(w)) ==> read(o) == Ok((full, o + |EncodeWire(w)|))
  }

  lemma ResolvedIsRead(data: Bytes, w: WireName, full: seq<Label>, jumps: nat)
    requires Wellformed(w) && Resolves(data, w, full, jumps)
    ensures ReadsAs(data, NameReader(data), w, full)
  {
    forall o: nat | At(data, o, EncodeWire(w))
      ensures NameReader(data)(o) == Ok((full, o + |EncodeWire(w)|))
    {
      WireNameIsRead(data, o, w, full, jumps);
    }
  }

  // ---- reading messages as they are laid out

  /** Where the rdata of a record laid out at `offset` stands, and where the record ends. */
  function RdataStart(offset: nat, r: WireRecord): nat
    requires GoodRecord(r)
  {
    offset + |EncodeWire(r.name)| + 10
  }

  function RecordEnd(offset: nat, r: WireRecord): nat
    requires GoodRecord(r)
  {
    RdataStart(offset, r) + |r.rdata|
  }

  /** What reading the records laid out from `offset` on must give. */
  function Reported(offset: nat, r: WireRecord, full: seq<Label>): Record
    requires GoodRecord(r)
  {
    Record(Join(full), U16At(r.fixed, 0), r.rdata, RdataStart(offset, r))
  }

  function Expected(offset: nat, rs: seq<WireRecord>, fulls: seq<seq<Label>>): seq<Record>
    requires GoodRecords(rs) && |fulls| == |rs|
    decreases |rs|
  {
    if rs == [] then []
    else [Reported(offset, rs[0], fulls[0])] + Expected(RecordEnd(offset, rs[0]), rs[1..], fulls[1..])
  }

  lemma AtSplitThree(data: Bytes, offset: nat, x: Bytes, y: Bytes, z: Bytes)
    requires At(data, offset, x + (y + z))
    ensures At(data, offset, x) && At(data, offset + |x|, y) && At(data, offset + |x| + |y|, z)
  {
    AtSplit(data, offset, x, y + z);
    AtSplit(data, offset + |x|, y, z);
  }

  lemma NumberIsRead(data: Bytes, offset: nat, part: Bytes, o: nat)
    requires At(data, offset, part) && o + 2 <= |part|
    ensures U16At(data, offset + o) == U16At(part, o)
  {
    assert data[offset + o] == part[o] && data[offset + (o + 1)] == part[o + 1];
  }

  lemma RecordIsRead(data: Bytes, read: Reader, offset: nat, r: WireRecord, full: seq<Label>)
    requires GoodRecord(r) && At(data, offset, EncodeRecord(r)) && ReadsAs(data, read, r.name, full)
    ensures NextRecord(data, read, offset) == Some((Reported(offset, r, full), RecordEnd(offset, r)))
  {
    AtSplitThree(data, offset, EncodeWire(r.name), r.fixed, r.rdata);
    RecordOfParts(data, read, offset, full, offset + |EncodeWire(r.name)|, r.fixed, r.rdata);
  }

  lemma RecordOfParts(data: Bytes, read: Reader, offset: nat, full: seq<Label>, end: nat, fixed: Bytes, rdata: Bytes)
    requires read(offset) == Ok((full, end))
    requires |fixed| == 10 && At(data, end, fixed) && At(data, end + 10, rdata) && U16At(fixed, 8) == |rdata|
    ensures NextRecord(data, read, offset) ==
            Some((Record(Join(full), U16At(fixed, 0), rdata, end + 10), end + 10 + |rdata|))
  {
    NumberIsRead(data, end, fixed, 0);
    NumberIsRead(data, end, fixed, 8);
    ClipIsPart(data, end + 10, rdata);
  }

  ghost predicate AllRead(data: Bytes, read: Reader, rs: seq<WireRecord>, fulls: seq<seq<Label>>)
    decreases |rs|
  {
    if rs == [] then fulls == []
    else fulls != [] && ReadsAs(data, read, rs[0].name, fulls[0]) && AllRead(data, read, rs[1..], fulls[1..])
  }

  lemma {:induction false} RecordsAreRead(data: Bytes, read: Reader, offset: nat, rs: seq<WireRecord>,
                                          fulls: seq<seq<Label>>)
    requires AllRead(data, read, rs, fulls) && |fulls| == |rs|
    requires GoodRecords(rs) && At(data, offset, EncodeRecords(rs))
    ensures ReadRecords(data, read, offset, |rs|) == Expected(offset, rs, fulls)
    decreases |rs|
  {
    if rs != [] {
      AtSplit(data, offset, EncodeRecord(rs[0]), EncodeRecords(rs[1..]));
      RecordIsRead(data, read, offset, rs[0], fulls[0]);
      var end := RecordEnd(offset, rs[0]);
      RecordsAreRead(data, read, end, rs[1..], fulls[1..]);
      FirstThenRest(data, read, offset, |rs| - 1, Reported(offset, rs[0], fulls[0]), end,
                    Expected(end, rs[1..], fulls[1..]));
    }
  }

  lemma FirstThenRest(data: Bytes, read: Reader, offset: nat, n: nat, r: Record, next: nat, rest: seq<Record>)
    requires NextRecord(data, read, offset) == Some((r, next)) && ReadRecords(data, read, next, n) == rest
    ensures ReadRecords(data, read, offset, n + 1) == [r] + rest
  {
  }

  ghost predicate AllAsked(data: Bytes, read: Reader, qs: seq<WireQuestion>, fulls: seq<seq<Label>>)
    decreases |qs|
  {
    if qs == [] then fulls == []
    else fulls != [] && ReadsAs(data, read, qs[0].name, fulls[0]) && AllAsked(data, read, qs[1..], fulls[1..])
  }

  lemma {:induction false} QuestionsAreSkipped(data: Bytes, read: Reader, offset: nat, qs: seq<WireQuestion>,
                                               fulls: seq<seq<Label>>)
    requires GoodQuestions(qs) && At(data, offset, EncodeQuestions(qs)) && AllAsked(data, read, qs, fulls)
    ensures SkipQuestions(read, offset, |qs|) == Some(offset + |EncodeQuestions(qs)|)
    decreases |qs|
  {
    if qs != [] {
      var name := EncodeWire(qs[0].name);
      AtSplitThree(data, offset, name, qs[0].fixed, EncodeQuestions(qs[1..]));
      QuestionsAreSkipped(data, read, offset + |name| + 4, qs[1..], fulls[1..]);
    }
  }

  lemma MessageParts(data: Bytes, h: Bytes, q: Bytes, r: Bytes)
    requires data == h + (q + r) && |h| == 12
    ensures At(data, 0, h) && At(data, 12, q) && At(data, 12 + |q|, r)
  {
    assert At(data, 0, h + (q + r));
    AtSplitThree(data, 0, h, q, r);
  }

  lemma BodyIsRead(data: Bytes, read: Reader, h: Bytes, qd: nat, total: nat, first: nat)
    requires At(data, 0, h) && GoodHeader(h, qd, total) && SkipQuestions(read, 12, qd) == Some(first)
    ensures ParseWith(data, read) == ReadRecords(data, read, first, total)
  {
    NumberIsRead(data, 0, h, 4);
    NumberIsRead(data, 0, h, 6);
    NumberIsRead(data, 0, h, 8);
    NumberIsRead(data, 0, h, 10);
  }

  lemma MessageIsRead(data: Bytes, read: Reader, h: Bytes, qs: seq<WireQuestion>, rs: seq<WireRecord>,
                      qfulls: seq<seq<Label>>, fulls: seq<seq<Label>>)
    requires GoodHeader(h, |qs|, |rs|) && GoodQuestions(qs) && GoodRecords(rs)
    requires At(data, 0, h) && At(data, 12, EncodeQuestions(qs))
    requires At(data, 12 + |EncodeQuestions(qs)|, EncodeRecords(rs))
    requires AllAsked(data, read, qs, qfulls) && AllRead(data, read, rs, fulls) && |fulls| == |rs|
    ensures ParseWith(data, read) == Expected(12 + |EncodeQuestions(qs)|, rs, fulls)
  {
    QuestionsAreSkipped(data, read, 12, qs, qfulls);
    RecordsAreRead(data, read, 12 + |EncodeQuestions(qs)|, rs, fulls);
    BodyIsRead(data, read, h, |qs|, |rs|, 12 + |EncodeQuestions(qs)|);
  }

  ghost predicate RecordsResolve(data: Bytes, rs: seq<WireRecord>, fulls: seq<seq<Label>>, jumps: seq<nat>) {
    |rs| == |fulls| == |jumps| && forall i :: 0 <= i < |rs| ==> Resolves(data, rs[i].name, fulls[i], jumps[i])
  }

  ghost predicate QuestionsResolve(data: Bytes, qs: seq<WireQuestion>, fulls: seq<seq<Label>>, jumps: seq<nat>) {
    |qs| == |fulls| == |jumps| && forall i :: 0 <= i < |qs| ==> Resolves(data, qs[i].name, fulls[i], jumps[i])
  }

  /** Every message whose names resolve in it, in full or through chains of at most 64 pointers,
      is parsed into exactly its records, each with its owner name, its type, its rdata and the
      offset where the rdata stands. */
  lemma ParseInvertsEncode(data: Bytes, h: Bytes, qs: seq<WireQuestion>, rs: seq<WireRecord>,
                           qfulls: seq<seq<Label>>, qjumps: seq<nat>, fulls: seq<seq<Label>>, jumps: seq<nat>)
    requires GoodHeader(h, |qs|, |rs|) && GoodQuestions(qs) && GoodRecords(rs) && data == EncodeMessage(h, qs, rs)
    requires QuestionsResolve(data, qs, qfulls, qjumps) && RecordsResolve(data, rs, fulls, jumps)
    ensures Parse(data) == Expected(12 + |EncodeQuestions(qs)|, rs, fulls)
  {
    MessageParts(data, h, EncodeQuestions(qs), EncodeRecords(rs));
    ResolvedQuestionsAreRead(data, qs, qfulls, qjumps);
    ResolvedRecordsAreRead(data, rs, fulls, jumps);
    MessageIsRead(data, NameReader(data), h, qs, rs, qfulls, fulls);
  }

  lemma {:induction false} ResolvedQuestionsAreRead(data: Bytes, qs: seq<WireQuestion>, fulls: seq<seq<Label>>,
                                                    jumps: seq<nat>)
    requires GoodQuestions(qs) && QuestionsResolve(data, qs, fulls, jumps)
    ensures AllAsked(data, NameReader(data), qs, fulls)
    decreases |qs|
  {
    if qs != [] {
      ResolvedIsRead(data, qs[0].name, fulls[0], jumps[0]);
      ResolvedQuestionsAreRead(data, qs[1..], fulls[1..], jumps[1..]);
    }
  }

  lemma {:induction false} ResolvedRecordsAreRead(data: Bytes, rs: seq<WireRecord>, fulls: seq<seq<Label>>,
                                                  jumps: seq<nat>)
    requires GoodRecords(rs) && RecordsResolve(data, rs, fulls, jumps)
    ensures AllRead(data, NameReader(data), rs, fulls)
    decreases |rs|
  {
    if rs != [] {
      ResolvedIsRead(data, rs[0].name, fulls[0], jumps[0]);
      ResolvedRecordsAreRead(data, rs[1..], fulls[1..], jumps[1..]);
    }
  }

  /** Where the rdata of record `i` is laid out. */
  function RdataOffset(offset: nat, rs: seq<WireRecord>, i: nat): nat
    requires GoodRecords(rs) && i < |rs|
    decreases i
  {
    if i == 0 then RdataStart(offset, rs[0]) else RdataOffset(RecordEnd(offset, rs[0]), rs[1..], i - 1)
  }

  lemma {:induction false} ExpectedLength(offset: nat, rs: seq<WireRecord>, fulls: seq<seq<Label>>)
    requires GoodRecords(rs) && |fulls| == |rs|
    ensures |Expected(offset, rs, fulls)| == |rs|
    decreases |rs|
  {
    if rs != [] {
      ExpectedLength(RecordEnd(offset, rs[0]), rs[1..], fulls[1..]);
    }
  }

  lemma {:induction false} ExpectedAt(offset: nat, rs: seq<WireRecord>, fulls: seq<seq<Label>>, i: nat)
    requires GoodRecords(rs) && |fulls| == |rs| == |Expected(offset, rs, fulls)| && i < |rs|
    ensures Expected(offset, rs, fulls)[i] ==
            Record(Join(fulls[i]), U16At(rs[i].fixed, 0), rs[i].rdata, RdataOffset(offset, rs, i))
    decreases i
  {
    if i > 0 {
      var next := RecordEnd(offset, rs[0]);
      ExpectedLength(next, rs[1..], fulls[1..]);
      ExpectedAt(next, rs[1..], fulls[1..], i - 1);
    }
  }

  lemma {:induction false} RdataStands(data: Bytes, offset: nat, rs: seq<WireRecord>, i: nat)
    requires GoodRecords(rs) && At(data, offset, EncodeRecords(rs)) && i < |rs|
    ensures At(data, RdataOffset(offset, rs, i), rs[i].rdata)
    decreases i
  {
    var r := rs[0];
    AtSplit(data, offset, EncodeRecord(r), EncodeRecords(rs[1..]));
    if i == 0 {
      AtSplitThree(data, offset, EncodeWire(r.name), r.fixed, r.rdata);
    } else {
      RdataStands(data, RecordEnd(offset, r), rs[1..], i - 1);
    }
  }

  /** Every record of an encoded message is reported with its own owner name, type and rdata, at
      the offset where that rdata stands; so a name that ends the rdata, after `skip` bytes (0
      for PTR, 6 for SRV), is read from there as the name it stands for. */
  lemma TargetsAreRead(data: Bytes, offset: nat, rs: seq<WireRecord>, fulls: seq<seq<Label>>, i: nat,
                       skip: nat, w: WireName, full: seq<Label>, jumps: nat)
    requires GoodRecords(rs) && At(data, offset, EncodeRecords(rs)) && |fulls| == |rs| && i < |rs|
    requires Wellformed(w) && skip <= |rs[i].rdata| && rs[i].rdata[skip..] == EncodeWire(w)
    requires Resolves(data, w, full, jumps)
    ensures |Expected(offset, rs, fulls)| == |rs|
    ensures var r := Expected(offset, rs, fulls)[i];
            && r == Record(Join(fulls[i]), U16At(rs[i].fixed, 0), rs[i].rdata, r.offset)
            && At(data, r.offset, r.rdata)
            && ReadNameSpec(data, r.offset + skip) == Ok((full, r.offset + |r.rdata|))
  {
    ExpectedLength(offset, rs, fulls);
    ExpectedAt(offset, rs, fulls, i);
    RdataStands(data, offset, rs, i);
    TailNameIsRead(data, RdataOffset(offset, rs, i), rs[i].rdata, skip, w, full, jumps);
  }

  lemma TailNameIsRead(data: Bytes, o: nat, rdata: Bytes, skip: nat, w: WireName, full: seq<Label>, jumps: nat)
    requires At(data, o, rdata) && Wellformed(w) && skip <= |rdata| && rdata[skip..] == EncodeWire(w)
    requires Resolves(data, w, full, jumps)
    ensures ReadNameSpec(data, o + skip) == Ok((full, o + |rdata|))
  {
    assert rdata == rdata[..skip] + rdata[skip..];
    AtSplit(data, o, rdata[..skip], rdata[skip..]);
    WireNameIsRead(data, o + skip, w, full, jumps);
  }
}
