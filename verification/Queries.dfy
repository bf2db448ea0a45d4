/** DNS queries, and that a reader of messages finds in them the questions they were built
    from. */
module Queries {
  import opened Common
  import opened DnsNames
  import opened DnsMessages

  const PTR: nat := 12

  function U16Bytes(n: nat): (b: Bytes)
    requires n < 65536
    ensures |b| == 2 && U16At(b, 0) == n
  {
    [n / 256, n % 256]
  }

  function QueryClass(unicast: bool): nat {
    if unicast then 0x8001 else 1
  }

  /** One question, or `None` where its name or type cannot be packed. */
  function QuestionBytes(name: Bytes, qtype: nat, qclass: nat): Option<Bytes>
    requires qclass < 65536
  {
    match EncodeNameSpec(name)
    case None => None
    case Some(n) => if qtype >= 65536 then None else Some(n + (U16Bytes(qtype) + U16Bytes(qclass)))
  }

  function QuestionsBytes(qs: seq<(Bytes, nat)>, qclass: nat): Option<Bytes>
    requires qclass < 65536
  {
    if qs == [] then Some([])
    else match QuestionBytes(qs[0].0, qs[0].1, qclass)
         case None => None
         case Some(q) =>
           match QuestionsBytes(qs[1..], qclass)
           case None => None
           case Some(rest) => Some(q + rest)
  }

  function QueryHeader(n: nat): (h: Bytes)
    requires n < 65536
    ensures GoodHeader(h, n, 0)
  {
    [0, 0, 0, 0] + U16Bytes(n) + [0, 0, 0, 0, 0, 0]
  }

  function Asked(service: Bytes, questions: seq<(Bytes, nat)>): seq<(Bytes, nat)> {
    if questions == [] then [(service, PTR)] else questions
  }

  /** The class is IN; its top bit asks for a unicast answer (section 5.4 of RFC 6762). */
  lemma ClassIs(unicast: bool)
    ensures U16Bytes(QueryClass(unicast)) == [if unicast then 128 else 0, 1]
  {
  }

  /** The header has no identifier and no flags, the number of questions, and no records. */
  lemma HeaderIs(n: nat)
    requires n < 65536
    ensures |QueryHeader(n)| == 12
    ensures forall i :: 0 <= i < 12 && i != 4 && i != 5 ==> QueryHeader(n)[i] == 0
    ensures var high: int := QueryHeader(n)[4];
            256 * high + QueryHeader(n)[5] as int == n
  {
  }

  /** Asked about nothing in particular, it is the PTR records of the service, of type 12. */
  lemma AskedIs(service: Bytes, questions: seq<(Bytes, nat)>)
    ensures Asked(service, []) == [(service, 12)]
    ensures questions != [] ==> Asked(service, questions) == questions
  {
  }

  function QuerySpec(qs: seq<(Bytes, nat)>, qclass: nat): Option<Bytes>
    requires qclass < 65536
  {
    if |qs| >= 65536 then None
    else match QuestionsBytes(qs, qclass)
         case None => None
         case Some(q) => Some(QueryHeader(|qs|) + q)
  }

  /** `build_query`; `None` stands for the errors of packing. */
  method BuildQuery(service: Bytes, unicast: bool, questions: seq<(Bytes, nat)>) returns (r: Option<Bytes>)
    ensures r == QuerySpec(Asked(service, questions), QueryClass(unicast))
  {
    var qclass, qs := QueryClass(unicast), Asked(service, questions);
    if |qs| >= 65536 {
      return None;
    }
    var out: Bytes := QueryHeader(|qs|);
    for i := 0 to |qs|
      invariant QuerySpec(qs, qclass) == Prefixed(out, QuestionsBytes(qs[i..], qclass))
    {
      assert qs[i..][0] == qs[i] && qs[i..][1..] == qs[i + 1..];
      var name := EncodeName(qs[i].0);
      if name.None? || qs[i].1 >= 65536 {
        return None;
      }
      var q := name.value + (U16Bytes(qs[i].1) + U16Bytes(qclass));
      PrefixedTwice(out, q, QuestionsBytes(qs[i + 1..], qclass));
      out := out + q;
    }
    Unit(out);
    r := Some(out);
  }

  function Prefixed(out: Bytes, rest: Option<Bytes>): Option<Bytes> {
    match rest
    case None => None
    case Some(b) => Some(out + b)
  }

  lemma PrefixedTwice(out: Bytes, q: Bytes, rest: Option<Bytes>)
    ensures Prefixed(out, Prefixed(q, rest)) == Prefixed(out + q, rest)
  {
    if rest.Some? {
      Assoc(out, q, rest.value);
    }
  }

  // ---- reading a query

  predicate Ordinary(names: seq<seq<Label>>) {
    forall i :: 0 <= i < |names| ==> Proper(names[i]) && Short(names[i])
  }

  /** The questions that ask for `types` of the names with these labels. */
  function Questions(names: seq<seq<Label>>, types: seq<nat>): seq<(Bytes, nat)>
    requires |names| == |types|
  {
    if names == [] then [] else [(Join(names[0]), types[0])] + Questions(names[1..], types[1..])
  }

  predicate Types(types: seq<nat>) {
    forall i :: 0 <= i < |types| ==> types[i] < 65536
  }

  /** The same questions as they are laid out in a message. */
  function Laid(names: seq<seq<Label>>, types: seq<nat>, qclass: nat): (qs: seq<WireQuestion>)
    requires |names| == |types| && Ordinary(names) && Types(types) && qclass < 65536
    ensures |qs| == |names| && GoodQuestions(qs)
    ensures forall i :: 0 <= i < |qs| ==> qs[i].name == WireName(names[i], None)
  {
    if names == [] then []
    else [WireQuestion(WireName(names[0], None), U16Bytes(types[0]) + U16Bytes(qclass))] +
         Laid(names[1..], types[1..], qclass)
  }

  lemma {:induction false} QuestionsAreLaid(names: seq<seq<Label>>, types: seq<nat>, qclass: nat)
    requires |names| == |types| && Ordinary(names) && Types(types) && qclass < 65536
    ensures QuestionsBytes(Questions(names, types), qclass) == Some(EncodeQuestions(Laid(names, types, qclass)))
    decreases |names|
  {
    if names != [] {
      QuestionsAreLaid(names[1..], types[1..], qclass);
      var fixed := U16Bytes(types[0]) + U16Bytes(qclass);
      var more := Laid(names[1..], types[1..], qclass);
      NameIsLaid(names[0]);
      Assoc(EncodeWire(WireName(names[0], None)), fixed, EncodeQuestions(more));
      FirstQuestion(WireQuestion(WireName(names[0], None), fixed), more);
    }
  }

  lemma NameIsLaid(labels: seq<Label>)
    requires Proper(labels) && Short(labels)
    ensures EncodeNameSpec(Join(labels)) == Some(EncodeWire(WireName(labels, None)))
  {
    SplitOfJoin(labels);
  }

  lemma FirstQuestion(q: WireQuestion, more: seq<WireQuestion>)
    requires Wellformed(q.name) && |q.fixed| == 4 && GoodQuestions(more)
    ensures GoodQuestions([q] + more)
    ensures EncodeQuestions([q] + more) == EncodeWire(q.name) + (q.fixed + EncodeQuestions(more))
  {
    assert ([q] + more)[1..] == more;
  }

  lemma {:induction false} QuestionsLength(names: seq<seq<Label>>, types: seq<nat>)
    requires |names| == |types|
    ensures |Questions(names, types)| == |names|
  {
    if names != [] {
      QuestionsLength(names[1..], types[1..]);
    }
  }

  lemma FullNamesResolve(data: Bytes, names: seq<seq<Label>>, types: seq<nat>, qclass: nat)
    requires |names| == |types| && Ordinary(names) && Types(types) && qclass < 65536
    ensures QuestionsResolve(data, Laid(names, types, qclass), names, seq(|names|, _ => 0))
  {
  }

  lemma AloneParts(data: Bytes, h: Bytes, q: Bytes)
    requires data == h + (q + []) && |h| == 12
    ensures At(data, 0, h) && At(data, 12, q) && |data| == 12 + |q|
  {
    MessageParts(data, h, q, []);
  }

  /** A message of questions alone, with names in full, is passed over to its end. */
  lemma QuestionsAlone(data: Bytes, h: Bytes, qs: seq<WireQuestion>, names: seq<seq<Label>>, jumps: seq<nat>)
    requires GoodQuestions(qs) && GoodHeader(h, |qs|, 0) && QuestionsResolve(data, qs, names, jumps)
    requires At(data, 0, h) && At(data, 12, EncodeQuestions(qs)) && |data| == 12 + |EncodeQuestions(qs)|
    ensures SkipQuestions(NameReader(data), 12, |qs|) == Some(|data|) && Parse(data) == []
  {
    ResolvedQuestionsAreRead(data, qs, names, jumps);
    QuestionsAreSkipped(data, NameReader(data), 12, qs, names);
    BodyIsRead(data, NameReader(data), h, |qs|, 0, |data|);
  }

  lemma QueryIsLaid(names: seq<seq<Label>>, types: seq<nat>, qclass: nat)
    requires |names| == |types| < 65536 && Ordinary(names) && Types(types) && qclass < 65536
    ensures QuerySpec(Questions(names, types), qclass) ==
            Some(EncodeMessage(QueryHeader(|names|), Laid(names, types, qclass), []))
  {
    QuestionsLength(names, types);
    QuestionsAreLaid(names, types, qclass);
    Unit(EncodeQuestions(Laid(names, types, qclass)));
  }

  /** A query for ordinary names is a message of just these questions, in order, with these
      types and this class; a reader passes over them to its very end and finds no record. */
  lemma {:induction false} QueryIsRead(names: seq<seq<Label>>, types: seq<nat>, qclass: nat)
    requires |names| == |types| < 65536 && Ordinary(names) && Types(types) && qclass < 65536
    ensures var qs := Laid(names, types, qclass);
            var data := EncodeMessage(QueryHeader(|names|), qs, []);
            && QuerySpec(Questions(names, types), qclass) == Some(data)
            && SkipQuestions(NameReader(data), 12, |names|) == Some(|data|)
            && Parse(data) == []
  {
    var qs, h := Laid(names, types, qclass), QueryHeader(|names|);
    var data := EncodeMessage(h, qs, []);
    QueryIsLaid(names, types, qclass);
    AloneParts(data, h, EncodeQuestions(qs));
    FullNamesResolve(data, names, types, qclass);
    QuestionsAlone(data, h, qs, names, seq(|names|, _ => 0));
  }

  /** Where question `i` of those laid out from `offset` on begins. */
  function QuestionStart(offset: nat, qs: seq<WireQuestion>, i: nat): nat
    requires GoodQuestions(qs) && i < |qs|
    decreases i
  {
    if i == 0 then offset else QuestionStart(offset + |EncodeWire(qs[0].name)| + 4, qs[1..], i - 1)
  }

  lemma {:induction false} QuestionStands(data: Bytes, offset: nat, qs: seq<WireQuestion>, i: nat)
    requires GoodQuestions(qs) && At(data, offset, EncodeQuestions(qs)) && i < |qs|
    ensures var start := QuestionStart(offset, qs, i);
            At(data, start, EncodeWire(qs[i].name)) && At(data, start + |EncodeWire(qs[i].name)|, qs[i].fixed)
    decreases i
  {
    AtSplitThree(data, offset, EncodeWire(qs[0].name), qs[0].fixed, EncodeQuestions(qs[1..]));
    if i > 0 {
      QuestionStands(data, offset + |EncodeWire(qs[0].name)| + 4, qs[1..], i - 1);
    }
  }

  /** A reader finds at `start` this name in full, and then this type and this class. */
  predicate Found(data: Bytes, start: nat, labels: seq<Label>, qtype: nat, qclass: nat)
    requires Short(labels)
  {
    var end := start + |EncodeWire(WireName(labels, None))|;
    && ReadNameSpec(data, start) == Ok((labels, end))
    && end + 4 <= |data| && U16At(data, end) == qtype && U16At(data, end + 2) == qclass
  }

  lemma QuestionIsFound(data: Bytes, start: nat, labels: seq<Label>, fixed: Bytes, qtype: nat, qclass: nat)
    requires Short(labels) && qtype < 65536 && qclass < 65536 && fixed == U16Bytes(qtype) + U16Bytes(qclass)
    requires At(data, start, EncodeWire(WireName(labels, None)))
    requires At(data, start + |EncodeWire(WireName(labels, None))|, fixed)
    ensures Found(data, start, labels, qtype, qclass)
  {
    var end := start + |EncodeWire(WireName(labels, None))|;
    WireNameIsRead(data, start, WireName(labels, None), labels, 0);
    AtSplit(data, end, U16Bytes(qtype), U16Bytes(qclass));
    NumberIsRead(data, end, U16Bytes(qtype), 0);
    NumberIsRead(data, end + 2, U16Bytes(qclass), 0);
  }

  lemma {:induction false} LaidAt(names: seq<seq<Label>>, types: seq<nat>, qclass: nat, i: nat)
    requires |names| == |types| && Ordinary(names) && Types(types) && qclass < 65536 && i < |names|
    ensures Laid(names, types, qclass)[i] ==
            WireQuestion(WireName(names[i], None), U16Bytes(types[i]) + U16Bytes(qclass))
    decreases i
  {
    if i > 0 {
      LaidAt(names[1..], types[1..], qclass, i - 1);
    }
  }

  lemma QueryHasItsQuestions(names: seq<seq<Label>>, types: seq<nat>, qclass: nat, data: Bytes)
    requires |names| == |types| < 65536 && Ordinary(names) && Types(types) && qclass < 65536
    requires QuerySpec(Questions(names, types), qclass) == Some(data)
    ensures At(data, 12, EncodeQuestions(Laid(names, types, qclass)))
  {
    QueryIsLaid(names, types, qclass);
    AloneParts(data, QueryHeader(|names|), EncodeQuestions(Laid(names, types, qclass)));
  }

  lemma WrittenQuestionIsFound(data: Bytes, qs: seq<WireQuestion>, i: nat, labels: seq<Label>, qtype: nat, qclass: nat)
    requires GoodQuestions(qs) && At(data, 12, EncodeQuestions(qs)) && i < |qs|
    requires Short(labels) && qtype < 65536 && qclass < 65536
    requires qs[i] == WireQuestion(WireName(labels, None), U16Bytes(qtype) + U16Bytes(qclass))
    ensures Found(data, QuestionStart(12, qs, i), labels, qtype, qclass)
  {
    QuestionStands(data, 12, qs, i);
    QuestionIsFound(data, QuestionStart(12, qs, i), labels, qs[i].fixed, qtype, qclass);
  }

  /** And at the start of each of its questions a reader finds the name, the type and the class
      that were asked for. */
  lemma QueryIsFound(names: seq<seq<Label>>, types: seq<nat>, qclass: nat, data: Bytes, i: nat)
    requires |names| == |types| < 65536 && Ordinary(names) && Types(types) && qclass < 65536
    requires QuerySpec(Questions(names, types), qclass) == Some(data) && i < |names|
    ensures Found(data, QuestionStart(12, Laid(names, types, qclass), i), names[i], types[i], qclass)
  {
    QueryHasItsQuestions(names, types, qclass, data);
    LaidAt(names, types, qclass, i);
    WrittenQuestionIsFound(data, Laid(names, types, qclass), i, names[i], types[i], qclass);
  }
}
