/** The mDNS collector: what datagrams tell about the instances of a service (DNS-SD,
    RFC 6763). */
module Collectors {
  import Codecs
  import opened Common
  import opened DnsNames
  import opened DnsMessages

  // ---- TXT records

  const EQUALS: byte := 61

  predicate IsBlankByte(b: byte) {
    Codecs.IsBlank(b as char)
  }

  function StripSpace(s: Bytes): Bytes {
    Strip(s, IsBlankByte)
  }

  /** `item.partition("=")`: what stands before the first equals sign, and after it. */
  function Partition(item: Bytes): (Bytes, Bytes) {
    if item == [] then ([], [])
    else if item[0] == EQUALS then ([], item[1..])
    else
      var (key, value) := Partition(item[1..]);
      ([item[0]] + key, value)
  }

  function TxtFrom(rdata: Bytes, i: nat, txt: map<Bytes, Bytes>): map<Bytes, Bytes>
    decreases |rdata| - i
  {
    if i >= |rdata| then txt
    else
      var item := Clip(rdata, i + 1, rdata[i]);
      var (key, value) := Partition(item);
      TxtFrom(rdata, i + 1 + rdata[i], if item == [] then txt else txt[key := StripSpace(value)])
  }

  /** `_parse_txt`. */
  method ParseTxt(rdata: Bytes) returns (txt: map<Bytes, Bytes>)
    ensures txt == TxtFrom(rdata, 0, map[])
  {
    txt := map[];
    var i: nat := 0;
    while i < |rdata|
      invariant TxtFrom(rdata, i, txt) == TxtFrom(rdata, 0, map[])
      decreases |rdata| - i
    {
      var length := rdata[i];
      var item := Clip(rdata, i + 1, length);
      i := i + 1 + length;
      if item == [] {
        continue;
      }
      var (key, value) := Partition(item);
      txt := txt[key := StripSpace(value)];
    }
  }

  /** An attribute as RFC 6763 writes it (sections 6.3 and 6.4): a key, then, unless it has no
      value, an equals sign and the value. */
  datatype Entry = Entry(key: Bytes, value: Option<Bytes>)

  function EntryBytes(e: Entry): Bytes {
    match e.value
    case None => e.key
    case Some(v) => e.key + [EQUALS] + v
  }

  predicate GoodEntries(es: seq<Entry>) {
    forall i :: 0 <= i < |es| ==> EQUALS !in es[i].key && |EntryBytes(es[i])| < 256
  }

  function EncodeTxt(es: seq<Entry>): Bytes
    requires GoodEntries(es)
  {
    if es == [] then []
    else [|EntryBytes(es[0])|] + EntryBytes(es[0]) + EncodeTxt(es[1..])
  }

  /** An attribute without a value has an empty one; an empty attribute is none. */
  function Enter(txt: map<Bytes, Bytes>, e: Entry): map<Bytes, Bytes> {
    if EntryBytes(e) == [] then txt
    else txt[e.key := match e.value case None => [] case Some(v) => StripSpace(v)]
  }

  function Entered(txt: map<Bytes, Bytes>, es: seq<Entry>): map<Bytes, Bytes>
    decreases |es|
  {
    if es == [] then txt else Entered(Enter(txt, es[0]), es[1..])
  }

  lemma {:induction false} PartitionAtEquals(key: Bytes, value: Bytes)
    requires EQUALS !in key
    ensures Partition(key + [EQUALS] + value) == (key, value)
  {
    var item := key + [EQUALS] + value;
    if key == [] {
      assert item[1..] == value;
    } else {
      PartitionAtEquals(key[1..], value);
      assert item[1..] == key[1..] + [EQUALS] + value && [key[0]] + key[1..] == key;
    }
  }

  lemma {:induction false} PartitionWithoutEquals(key: Bytes)
    requires EQUALS !in key
    ensures Partition(key) == (key, [])
  {
    if key != [] {
      PartitionWithoutEquals(key[1..]);
      assert [key[0]] + key[1..] == key;
    }
  }

  lemma EntryIsTaken(e: Entry, txt: map<Bytes, Bytes>)
    requires EQUALS !in e.key
    ensures var item := EntryBytes(e);
            var (key, value) := Partition(item);
            Enter(txt, e) == if item == [] then txt else txt[key := StripSpace(value)]
  {
    match e.value
    case None => PartitionWithoutEquals(e.key);
    case Some(v) => PartitionAtEquals(e.key, v);
  }

  lemma ItemIsTaken(rdata: Bytes, i: nat, item: Bytes, txt: map<Bytes, Bytes>)
    requires |item| < 256 && At(rdata, i, [|item|] + item)
    ensures var (key, value) := Partition(item);
            TxtFrom(rdata, i, txt) ==
              TxtFrom(rdata, i + 1 + |item|, if item == [] then txt else txt[key := StripSpace(value)])
  {
    LabelIsSpelled(rdata, i, item);
  }

  lemma FirstEntryStands(rdata: Bytes, i: nat, es: seq<Entry>, item: Bytes)
    requires GoodEntries(es) && es != [] && item == EntryBytes(es[0]) && At(rdata, i, EncodeTxt(es))
    ensures GoodEntries(es[1..]) && EQUALS !in es[0].key && |item| < 256
    ensures At(rdata, i, [|item|] + item) && At(rdata, i + 1 + |item|, EncodeTxt(es[1..]))
    ensures |EncodeTxt(es)| == 1 + |item| + |EncodeTxt(es[1..])|
  {
    AtSplit(rdata, i, [|item|] + item, EncodeTxt(es[1..]));
  }

  /** A TXT record is read as its attributes, the last one of a key counting, each value without
      white space around it. */
  lemma {:induction false} TxtRoundTrip(rdata: Bytes, i: nat, es: seq<Entry>, txt: map<Bytes, Bytes>)
    requires GoodEntries(es) && At(rdata, i, EncodeTxt(es)) && i + |EncodeTxt(es)| == |rdata|
    ensures TxtFrom(rdata, i, txt) == Entered(txt, es)
    decreases |es|
  {
    if es != [] {
      var item := EntryBytes(es[0]);
      FirstEntryStands(rdata, i, es, item);
      EntryIsRead(rdata, i, es[0], item, txt);
      TxtRoundTrip(rdata, i + 1 + |item|, es[1..], Enter(txt, es[0]));
    }
  }

  lemma EntryIsRead(rdata: Bytes, i: nat, e: Entry, item: Bytes, txt: map<Bytes, Bytes>)
    requires item == EntryBytes(e) && EQUALS !in e.key && |item| < 256 && At(rdata, i, [|item|] + item)
    ensures TxtFrom(rdata, i, txt) == TxtFrom(rdata, i + 1 + |item|, Enter(txt, e))
  {
    ItemIsTaken(rdata, i, item, txt);
    EntryIsTaken(e, txt);
  }

  predicate WhiteSpace(s: Bytes) {
    forall c <- s :: c == 32 || 9 <= c <= 13 || 28 <= c <= 31
  }

  /** One attribute alone: its key as it stands, its value without the white space around it. */
  lemma AttributeIsRead(key: Bytes, before: Bytes, value: Bytes, after: Bytes, item: Bytes)
    requires 61 !in key && WhiteSpace(before) && WhiteSpace(after)
    requires value != [] ==> !WhiteSpace([value[0]]) && !WhiteSpace([value[|value| - 1]])
    requires item == key + [61] + (before + (value + after)) && |item| < 256
    ensures TxtFrom([|item|] + item, 0, map[]) == map[key := value]
  {
    PartitionAtEquals(key, before + (value + after));
    StripIff(before + (value + after), IsBlankByte, before, value, after);
    ItemIsTaken([|item|] + item, 0, item, map[]);
  }

  // ---- tables that remember the order of their keys

  function LowerByte(b: byte): byte {
    if 65 <= b <= 90 then b + 32 else b
  }

  function Lower(s: Bytes): Bytes {
    seq(|s|, i requires 0 <= i < |s| => LowerByte(s[i]))
  }

  /** Two names fold to the same exactly when they differ at most in the case of letters. */
  lemma LowerIff(a: Bytes, b: Bytes)
    ensures Lower(a) == Lower(b) <==> |a| == |b| && forall i :: 0 <= i < |a| ==> SameLetter(a[i], b[i])
  {
    if Lower(a) == Lower(b) {
      forall i | 0 <= i < |a| ensures SameLetter(a[i], b[i]) {
        assert Lower(a)[i] == Lower(b)[i];
      }
    }
  }

  predicate SameLetter(x: byte, y: byte) {
    || x == y
    || ('A' as int <= x <= 'Z' as int && y as int == x as int + 32)
    || ('a' as int <= x <= 'z' as int && y as int == x as int - 32)
  }

  /** What is compared with the service is in small letters. */
  lemma LowerIsSmall(s: Bytes)
    ensures forall i :: 0 <= i < |Lower(s)| ==> !('A' as int <= Lower(s)[i] <= 'Z' as int)
    ensures Lower(Lower(s)) == Lower(s)
  {
  }

  datatype Table<V> = Table(keys: seq<Bytes>, vals: map<Bytes, V>)

  predicate Tidy<V>(t: Table<V>) {
    (forall i :: 0 <= i < |t.keys| ==> t.keys[i] in t.vals) && (forall k <- t.vals :: k in t.keys)
  }

  function Put<V>(t: Table<V>, k: Bytes, v: V): Table<V> {
    Table(if k in t.vals then t.keys else t.keys + [k], t.vals[k := v])
  }

  /** The first key that is `lowered` in lower case. */
  function FirstFolded(keys: seq<Bytes>, lowered: Bytes): (k: Option<Bytes>)
    ensures k.Some? ==> k.value in keys && Lower(k.value) == lowered
    ensures k.None? ==> forall i :: 0 <= i < |keys| ==> Lower(keys[i]) != lowered
  {
    if keys == [] then None
    else if Lower(keys[0]) == lowered then Some(keys[0])
    else FirstFolded(keys[1..], lowered)
  }

  /** `_lookup`: by the name itself, else by the first key that differs in case only. */
  function Lookup<V>(t: Table<V>, name: Bytes): Option<V>
    requires Tidy(t)
  {
    if name in t.vals then Some(t.vals[name])
    else match FirstFolded(t.keys, Lower(name))
         case None => None
         case Some(k) => Some(t.vals[k])
  }

  /** A name finds the value under itself; else that of the first key that is the name but for
      case. */
  lemma LookupFinds<V>(t: Table<V>, name: Bytes, i: nat)
    requires Tidy(t) && i < |t.keys|
    requires if name in t.vals then t.keys[i] == name
             else Lower(t.keys[i]) == Lower(name) && forall j :: 0 <= j < i ==> Lower(t.keys[j]) != Lower(name)
    ensures Lookup(t, name) == Some(t.vals[t.keys[i]])
  {
    if name !in t.vals {
      FirstFoldedIs(t.keys, Lower(name), i);
    }
  }

  lemma {:induction false} FirstFoldedIs(keys: seq<Bytes>, lowered: Bytes, i: nat)
    requires i < |keys| && Lower(keys[i]) == lowered && forall j :: 0 <= j < i ==> Lower(keys[j]) != lowered
    ensures FirstFolded(keys, lowered) == Some(keys[i])
  {
    if i > 0 {
      FirstFoldedIs(keys[1..], lowered, i - 1);
    }
  }

  predicate HasFolded(keys: seq<Bytes>, name: Bytes) {
    exists i :: 0 <= i < |keys| && Lower(keys[i]) == Lower(name)
  }

  lemma LookupIff<V>(t: Table<V>, name: Bytes)
    requires Tidy(t)
    ensures Lookup(t, name).Some? <==> HasFolded(t.keys, name)
  {
    if name in t.vals {
      var i :| 0 <= i < |t.keys| && t.keys[i] == name;
      assert Lower(t.keys[i]) == Lower(name);
    } else if FirstFolded(t.keys, Lower(name)).Some? {
      var k := FirstFolded(t.keys, Lower(name)).value;
      var i :| 0 <= i < |t.keys| && t.keys[i] == k;
      assert Lower(t.keys[i]) == Lower(name);
    }
  }

  // ---- what a datagram tells

  datatype Fact =
    | Instance(name: Bytes)
    | Service(name: Bytes, port: nat, target: Bytes)
    | Text(name: Bytes, txt: map<Bytes, Bytes>)
    | Host(key: Bytes, address: Bytes)

  /** What one record tells, if anything. Reading the name in a PTR or SRV record raises
      `struct.error`, which nobody catches, where it meets a lone pointer byte. */
  datatype Finding = Nothing | Learned(fact: Fact) | Raises

  function FindingOf(service: Bytes, data: Bytes, r: Record): Finding {
    if r.rtype == 12 && Lower(r.name) == service then
      match ReadNameSpec(data, r.offset)
      case Ok((labels, _)) => Learned(Instance(Join(labels)))
      case Err(e) => if e == LonePointer then Raises else Nothing
    else if r.rtype == 33 && |r.rdata| >= 6 then
      match ReadNameSpec(data, r.offset + 6)
      case Ok((labels, _)) => Learned(Service(r.name, U16At(r.rdata, 4), Join(labels)))
      case Err(e) => if e == LonePointer then Raises else Nothing
    else if r.rtype == 16 then Learned(Text(r.name, TxtFrom(r.rdata, 0, map[])))
    else if r.rtype == 1 && |r.rdata| == 4 then Learned(Host(Lower(r.name), r.rdata))
    else Nothing
  }

  function Facts(service: Bytes, data: Bytes, rs: seq<Record>): seq<Fact>
    decreases |rs|
  {
    if rs == [] then []
    else match FindingOf(service, data, rs[0])
         case Raises => []
         case Nothing => Facts(service, data, rs[1..])
         case Learned(f) => [f] + Facts(service, data, rs[1..])
  }

  predicate Raising(service: Bytes, data: Bytes, rs: seq<Record>) {
    exists i :: 0 <= i < |rs| && FindingOf(service, data, rs[i]) == Raises
  }

  // ---- what the records of a message teach

  /** A PTR record of the service, whose rdata is the name of an instance. */
  lemma PtrTeaches(service: Bytes, data: Bytes, offset: nat, rs: seq<WireRecord>, fulls: seq<seq<Label>>, i: nat,
                   w: WireName, full: seq<Label>, jumps: nat)
    requires GoodRecords(rs) && At(data, offset, EncodeRecords(rs)) && |fulls| == |rs| && i < |rs|
    requires Wellformed(w) && rs[i].rdata == EncodeWire(w) && Resolves(data, w, full, jumps)
    requires U16At(rs[i].fixed, 0) == 12 && Lower(Join(fulls[i])) == service
    ensures |Expected(offset, rs, fulls)| == |rs|
    ensures FindingOf(service, data, Expected(offset, rs, fulls)[i]) == Learned(Instance(Join(full)))
  {
    assert rs[i].rdata[0..] == rs[i].rdata;
    TargetsAreRead(data, offset, rs, fulls, i, 0, w, full, jumps);
  }

  /** An SRV record: priority, weight and port, then the name of the host. */
  lemma SrvTeaches(service: Bytes, data: Bytes, offset: nat, rs: seq<WireRecord>, fulls: seq<seq<Label>>, i: nat,
                   w: WireName, full: seq<Label>, jumps: nat)
    requires GoodRecords(rs) && At(data, offset, EncodeRecords(rs)) && |fulls| == |rs| && i < |rs|
    requires |rs[i].rdata| >= 6 && Wellformed(w) && rs[i].rdata[6..] == EncodeWire(w) && Resolves(data, w, full, jumps)
    requires U16At(rs[i].fixed, 0) == 33
    ensures |Expected(offset, rs, fulls)| == |rs|
    ensures FindingOf(service, data, Expected(offset, rs, fulls)[i]) ==
            Learned(Service(Join(fulls[i]), U16At(rs[i].rdata, 4), Join(full)))
  {
    TargetsAreRead(data, offset, rs, fulls, i, 6, w, full, jumps);
  }

  /** A TXT record of entries, and an A record. */
  lemma TxtAndAddressTeach(service: Bytes, data: Bytes, offset: nat, rs: seq<WireRecord>, fulls: seq<seq<Label>>,
                           i: nat, es: seq<Entry>)
    requires GoodRecords(rs) && |fulls| == |rs| && i < |rs| && GoodEntries(es)
    ensures |Expected(offset, rs, fulls)| == |rs|
    ensures U16At(rs[i].fixed, 0) == 16 && rs[i].rdata == EncodeTxt(es) ==>
              FindingOf(service, data, Expected(offset, rs, fulls)[i]) ==
              Learned(Text(Join(fulls[i]), Entered(map[], es)))
    ensures U16At(rs[i].fixed, 0) == 1 && |rs[i].rdata| == 4 ==>
              FindingOf(service, data, Expected(offset, rs, fulls)[i]) ==
              Learned(Host(Lower(Join(fulls[i])), rs[i].rdata))
  {
    ExpectedLength(offset, rs, fulls);
    ExpectedAt(offset, rs, fulls, i);
    if rs[i].rdata == EncodeTxt(es) {
      TxtRoundTrip(rs[i].rdata, 0, es, map[]);
    }
  }

  datatype Collector = Collector(
    instances: set<Bytes>, srv: Table<(nat, Bytes)>, txt: Table<map<Bytes, Bytes>>, addresses: map<Bytes, seq<Bytes>>)

  const NOBODY := Collector({}, Table([], map[]), Table([], map[]), map[])

  function AddressesOf(m: map<Bytes, seq<Bytes>>, key: Bytes): seq<Bytes> {
    if key in m then m[key] else []
  }

  function Learn(c: Collector, f: Fact): Collector {
    match f
    case Instance(n) => c.(instances := c.instances + {n})
    case Service(n, port, target) => c.(srv := Put(c.srv, n, (port, target)))
    case Text(n, txt) => c.(txt := Put(c.txt, n, txt))
    case Host(key, a) => c.(addresses := c.addresses[key := AddressesOf(c.addresses, key) + [a]])
  }

  function LearnAll(c: Collector, fs: seq<Fact>): Collector
    decreases |fs|
  {
    if fs == [] then c else LearnAll(Learn(c, fs[0]), fs[1..])
  }

  predicate Valid(c: Collector) {
    Tidy(c.srv) && Tidy(c.txt)
  }

  lemma LearnIsValid(c: Collector, f: Fact)
    requires Valid(c)
    ensures Valid(Learn(c, f))
  {
  }

  lemma {:induction false} LearnAllIsValid(c: Collector, fs: seq<Fact>)
    requires Valid(c)
    ensures Valid(LearnAll(c, fs))
    decreases |fs|
  {
    if fs != [] {
      LearnIsValid(c, fs[0]);
      LearnAllIsValid(Learn(c, fs[0]), fs[1..]);
    }
  }

  // ---- what the collector says

  function Dedupe(s: seq<Bytes>): (r: seq<Bytes>)
    ensures forall x :: x in r <==> x in s
    ensures forall i, j :: 0 <= i < j < |r| ==> r[i] != r[j]
  {
    if s == [] then []
    else
      var before, last := Dedupe(s[..|s| - 1]), s[|s| - 1];
      assert s == s[..|s| - 1] + [last];
      if last in before then before else before + [last]
  }

  /** The addresses keep the order in which they were first heard. */
  lemma {:induction false} DedupeKeepsTheOrder(s: seq<Bytes>, i: nat, j: nat)
    requires i < j < |s| && s[i] !in s[..i] && s[j] !in s[..j]
    ensures exists k, l :: 0 <= k < l < |Dedupe(s)| && Dedupe(s)[k] == s[i] && Dedupe(s)[l] == s[j]
    decreases |s|
  {
    var before, last := s[..|s| - 1], s[|s| - 1];
    assert before[..i] == s[..i];
    if j < |before| {
      assert before[..j] == s[..j];
      DedupeKeepsTheOrder(before, i, j);
      var k, l :| 0 <= k < l < |Dedupe(before)| && Dedupe(before)[k] == s[i] && Dedupe(before)[l] == s[j];
      assert Dedupe(s)[k] == s[i] && Dedupe(s)[l] == s[j];
    } else {
      assert before[i] in before && before == s[..j];
      var k :| 0 <= k < |Dedupe(before)| && Dedupe(before)[k] == s[i];
      assert Dedupe(s) == Dedupe(before) + [last] && Dedupe(s)[k] == s[i] && Dedupe(s)[|Dedupe(before)|] == s[j];
    }
  }

  datatype MdnsService = MdnsService(
    inst: Bytes, hostname: Bytes, port: nat, addresses: seq<Bytes>, txt: map<Bytes, Bytes>)

  function ServiceOf(c: Collector, inst: Bytes): Option<MdnsService>
    requires Valid(c)
  {
    var srv: Option<(nat, Bytes)> := Lookup(c.srv, inst);
    match srv
    case None => None
    case Some((port, target)) =>
      Some(MdnsService(inst, target, port, Dedupe(AddressesOf(c.addresses, Lower(target))),
                       match Lookup(c.txt, inst) case Some(txt) => txt case None => map[]))
  }

  function QuestionsOf(c: Collector, inst: Bytes): seq<(Bytes, nat)>
    requires Valid(c)
  {
    var srv: Option<(nat, Bytes)> := Lookup(c.srv, inst);
    match srv
    case None => [(inst, 33), (inst, 16)]
    case Some((_, target)) =>
      (if Lookup(c.txt, inst) == None then [(inst, 16)] else []) +
      (if AddressesOf(c.addresses, Lower(target)) == [] then [(target, 1)] else [])
  }

  function Shown(c: Collector, inst: Bytes): seq<MdnsService>
    requires Valid(c)
  {
    match ServiceOf(c, inst)
    case Some(s) => [s]
    case None => []
  }

  function Services(c: Collector, order: seq<Bytes>): seq<MdnsService>
    requires Valid(c)
  {
    if order == [] then [] else Shown(c, order[0]) + Services(c, order[1..])
  }

  function Missing(c: Collector, order: seq<Bytes>): seq<(Bytes, nat)>
    requires Valid(c)
  {
    if order == [] then [] else QuestionsOf(c, order[0]) + Missing(c, order[1..])
  }

  /** `order` lists the instances, each once: `sorted(self.instances)` in its own order. */
  predicate Orders(order: seq<Bytes>, instances: set<Bytes>) {
    && (forall i :: 0 <= i < |order| ==> order[i] in instances)
    && (forall n <- instances :: n in order)
    && (forall i, j :: 0 <= i < j < |order| ==> order[i] != order[j])
  }

  // ---- services and questions are dual

  lemma {:induction false} ServicesIff(c: Collector, order: seq<Bytes>, s: MdnsService)
    requires Valid(c)
    ensures s in Services(c, order) <==> s.inst in order && ServiceOf(c, s.inst) == Some(s)
  {
    if order != [] {
      ServicesIff(c, order[1..], s);
      assert order == [order[0]] + order[1..];
    }
  }

  lemma {:induction false} MissingIff(c: Collector, order: seq<Bytes>, q: (Bytes, nat))
    requires Valid(c)
    ensures q in Missing(c, order) <==> exists i :: 0 <= i < |order| && q in QuestionsOf(c, order[i])
  {
    if order != [] {
      MissingIff(c, order[1..], q);
      if i :| 0 <= i < |order[1..]| && q in QuestionsOf(c, order[1..][i]) {
        assert q in QuestionsOf(c, order[i + 1]);
      }
      if i :| 0 < i < |order| && q in QuestionsOf(c, order[i]) {
        assert q in QuestionsOf(c, order[1..][i - 1]);
      }
    }
  }

  predicate Listed(ss: seq<MdnsService>, inst: Bytes) {
    exists i :: 0 <= i < |ss| && ss[i].inst == inst
  }

  lemma ListedIff(c: Collector, order: seq<Bytes>, inst: Bytes)
    requires Valid(c) && inst in order
    ensures Listed(Services(c, order), inst) <==> ServiceOf(c, inst).Some?
  {
    var ss, service := Services(c, order), ServiceOf(c, inst);
    if service.Some? {
      ServicesIff(c, order, service.value);
      var i :| 0 <= i < |ss| && ss[i] == service.value;
    }
    if i :| 0 <= i < |ss| && ss[i].inst == inst {
      ServicesIff(c, order, ss[i]);
    }
  }

  lemma SrvQuestionIff(c: Collector, n: Bytes, inst: Bytes)
    requires Valid(c)
    ensures (inst, 33) in QuestionsOf(c, n) <==> n == inst && ServiceOf(c, n).None?
  {
  }

  /** An instance has a service exactly when no SRV question is asked for it. */
  lemma ServiceOrQuestion(c: Collector, order: seq<Bytes>, inst: Bytes)
    requires Valid(c) && inst in order
    ensures Listed(Services(c, order), inst) <==> (inst, 33) !in Missing(c, order)
  {
    ListedIff(c, order, inst);
    MissingIff(c, order, (inst, 33));
    forall i | 0 <= i < |order|
      ensures (inst, 33) in QuestionsOf(c, order[i]) <==> order[i] == inst && ServiceOf(c, inst).None?
    {
      SrvQuestionIff(c, order[i], inst);
    }
  }

  /** The TXT questions are for the instances without a TXT entry or a service, the A questions
      for the hosts of services without an address; and there are no other questions. */
  lemma QuestionsAreExact(c: Collector, order: seq<Bytes>, q: (Bytes, nat))
    requires Valid(c)
    ensures q in Missing(c, order) <==> exists i :: 0 <= i < |order| && AsksFor(c, order[i], q)
  {
    MissingIff(c, order, q);
    forall i | 0 <= i < |order| ensures q in QuestionsOf(c, order[i]) <==> AsksFor(c, order[i], q) {
      QuestionIff(c, order[i], q);
    }
  }

  predicate AsksFor(c: Collector, inst: Bytes, q: (Bytes, nat))
    requires Valid(c)
  {
    var s := ServiceOf(c, inst);
    || (q == (inst, 33) && s.None?)
    || (q == (inst, 16) && (s.None? || Lookup(c.txt, inst).None?))
    || (s.Some? && q == (s.value.hostname, 1) && s.value.addresses == [])
  }

  lemma QuestionIff(c: Collector, inst: Bytes, q: (Bytes, nat))
    requires Valid(c)
    ensures q in QuestionsOf(c, inst) <==> AsksFor(c, inst, q)
  {
    var srv: Option<(nat, Bytes)> := Lookup(c.srv, inst);
    if srv.Some? {
      DedupeIsEmptyIff(AddressesOf(c.addresses, Lower(srv.value.1)));
    }
  }

  /** Both lists follow the order of the instances. */
  lemma ListsFollowTheOrder(c: Collector, first: seq<Bytes>, rest: seq<Bytes>)
    requires Valid(c)
    ensures Services(c, first + rest) == Services(c, first) + Services(c, rest)
    ensures Missing(c, first + rest) == Missing(c, first) + Missing(c, rest)
  {
    ServicesFollow(c, first, rest);
    MissingFollows(c, first, rest);
  }

  lemma {:induction false} ServicesFollow(c: Collector, first: seq<Bytes>, rest: seq<Bytes>)
    requires Valid(c)
    ensures Services(c, first + rest) == Services(c, first) + Services(c, rest)
    decreases |first|
  {
    if first == [] {
      Unit(rest);
    } else {
      var n, more := first[0], first[1..];
      Rotate(first, rest);
      ServicesFollow(c, more, rest);
      ServicesCons(c, n, more + rest);
      Assoc(Shown(c, n), Services(c, more), Services(c, rest));
    }
  }

  lemma {:induction false} MissingFollows(c: Collector, first: seq<Bytes>, rest: seq<Bytes>)
    requires Valid(c)
    ensures Missing(c, first + rest) == Missing(c, first) + Missing(c, rest)
    decreases |first|
  {
    if first == [] {
      Unit(rest);
    } else {
      var n, more := first[0], first[1..];
      Rotate(first, rest);
      MissingFollows(c, more, rest);
      MissingCons(c, n, more + rest);
      Assoc(QuestionsOf(c, n), Missing(c, more), Missing(c, rest));
    }
  }

  lemma Rotate(first: seq<Bytes>, rest: seq<Bytes>)
    requires first != []
    ensures first + rest == [first[0]] + (first[1..] + rest)
  {
  }

  lemma ServicesCons(c: Collector, n: Bytes, more: seq<Bytes>)
    requires Valid(c)
    ensures Services(c, [n] + more) == Shown(c, n) + Services(c, more)
  {
    assert ([n] + more)[1..] == more;
  }

  lemma MissingCons(c: Collector, n: Bytes, more: seq<Bytes>)
    requires Valid(c)
    ensures Missing(c, [n] + more) == QuestionsOf(c, n) + Missing(c, more)
  {
    assert ([n] + more)[1..] == more;
  }

  predicate Complete(c: Collector, inst: Bytes)
    requires Valid(c)
  {
    ServiceOf(c, inst).Some? && Lookup(c.txt, inst).Some? && ServiceOf(c, inst).value.addresses != []
  }

  /** Nothing is missing exactly when every instance has a service, with a TXT entry and an
      address. The addresses of a service never repeat. */
  lemma NothingMissingIff(c: Collector, order: seq<Bytes>)
    requires Valid(c)
    ensures Missing(c, order) == [] <==> forall i :: 0 <= i < |order| ==> Complete(c, order[i])
  {
    forall i | 0 <= i < |order| ensures QuestionsOf(c, order[i]) == [] <==> Complete(c, order[i]) {
      NoQuestionsIff(c, order[i]);
    }
    if Missing(c, order) != [] {
      MissingIff(c, order, Missing(c, order)[0]);
    }
    if i :| 0 <= i < |order| && QuestionsOf(c, order[i]) != [] {
      MissingIff(c, order, QuestionsOf(c, order[i])[0]);
    }
  }

  lemma NoQuestionsIff(c: Collector, inst: Bytes)
    requires Valid(c)
    ensures QuestionsOf(c, inst) == [] <==> Complete(c, inst)
  {
    var srv: Option<(nat, Bytes)> := Lookup(c.srv, inst);
    if srv.Some? {
      DedupeIsEmptyIff(AddressesOf(c.addresses, Lower(srv.value.1)));
    }
  }

  lemma DedupeIsEmptyIff(s: seq<Bytes>)
    ensures Dedupe(s) == [] <==> s == []
  {
    if s != [] {
      assert s[0] in Dedupe(s);
    }
  }

  // ---- over runs, what is resolved stays resolved

  predicate Resolved(c: Collector, inst: Bytes) {
    inst in c.instances && HasFolded(c.srv.keys, inst)
  }

  lemma FoldedStays(keys: seq<Bytes>, more: seq<Bytes>, name: Bytes)
    requires HasFolded(keys, name)
    ensures HasFolded(keys + more, name)
  {
    var i :| 0 <= i < |keys| && Lower(keys[i]) == Lower(name);
    assert Lower((keys + more)[i]) == Lower(name);
  }

  /** The instances that have a service only grow, and so do the addresses of every host. */
  lemma {:induction false} ResolvedStays(c: Collector, fs: seq<Fact>)
    ensures forall inst :: Resolved(c, inst) ==> Resolved(LearnAll(c, fs), inst)
    ensures forall key :: AddressesOf(c.addresses, key) <= AddressesOf(LearnAll(c, fs).addresses, key)
    decreases |fs|
  {
    if fs != [] {
      var d := Learn(c, fs[0]);
      forall inst | Resolved(c, inst) ensures Resolved(d, inst) {
        if fs[0].Service? {
          FoldedStays(c.srv.keys, [fs[0].name], inst);
        }
      }
      ResolvedStays(d, fs[1..]);
    }
  }

  lemma ResolvedIff(c: Collector, order: seq<Bytes>, inst: Bytes)
    requires Valid(c) && Orders(order, c.instances)
    ensures Resolved(c, inst) <==> Listed(Services(c, order), inst)
  {
    LookupIff(c.srv, inst);
    if inst in order {
      ListedIff(c, order, inst);
    } else {
      NotListed(c, order, inst);
    }
  }

  lemma NotListed(c: Collector, order: seq<Bytes>, inst: Bytes)
    requires Valid(c) && inst !in order
    ensures !Listed(Services(c, order), inst)
  {
    var ss := Services(c, order);
    if i :| 0 <= i < |ss| && ss[i].inst == inst {
      ServicesIff(c, order, ss[i]);
    }
  }

  // ---- the same datagram twice

  function PutAll<V>(t: Table<V>, ps: seq<(Bytes, V)>): Table<V>
    decreases |ps|
  {
    if ps == [] then t else PutAll(Put(t, ps[0].0, ps[0].1), ps[1..])
  }

  function LastOf<V>(ps: seq<(Bytes, V)>): map<Bytes, V> {
    if ps == [] then map[] else map[ps[0].0 := ps[0].1] + LastOf(ps[1..])
  }

  lemma {:induction false} PutAllVals<V>(t: Table<V>, ps: seq<(Bytes, V)>)
    ensures PutAll(t, ps).vals == t.vals + LastOf(ps)
    decreases |ps|
  {
    if ps == [] {
      assert t.vals + map[] == t.vals;
    } else {
      PutAllVals(Put(t, ps[0].0, ps[0].1), ps[1..]);
    }
  }

  lemma {:induction false} PutAllKnown<V>(t: Table<V>, ps: seq<(Bytes, V)>)
    requires forall k <- LastOf(ps) :: k in t.vals
    ensures PutAll(t, ps).keys == t.keys
    decreases |ps|
  {
    if ps != [] {
      var k := ps[0].0;
      assert k in LastOf(ps);
      PutAllKnown(Put(t, k, ps[0].1), ps[1..]);
    }
  }

  lemma PutAllCons<V>(t: Table<V>, k: Bytes, v: V, ps: seq<(Bytes, V)>)
    ensures PutAll(t, [(k, v)] + ps) == PutAll(Put(t, k, v), ps)
  {
    assert ([(k, v)] + ps)[1..] == ps;
  }

  lemma PutAllTwice<V>(t: Table<V>, ps: seq<(Bytes, V)>)
    ensures PutAll(PutAll(t, ps), ps) == PutAll(t, ps)
  {
    var once := PutAll(t, ps);
    PutAllVals(t, ps);
    PutAllKnown(once, ps);
    PutAllVals(once, ps);
    assert (t.vals + LastOf(ps)) + LastOf(ps) == t.vals + LastOf(ps);
  }

  function SrvPuts(fs: seq<Fact>): seq<(Bytes, (nat, Bytes))> {
    if fs == [] then []
    else if fs[0].Service? then [(fs[0].name, (fs[0].port, fs[0].target))] + SrvPuts(fs[1..])
    else SrvPuts(fs[1..])
  }

  function TxtPuts(fs: seq<Fact>): seq<(Bytes, map<Bytes, Bytes>)> {
    if fs == [] then []
    else if fs[0].Text? then [(fs[0].name, fs[0].txt)] + TxtPuts(fs[1..])
    else TxtPuts(fs[1..])
  }

  function Named(fs: seq<Fact>): set<Bytes> {
    if fs == [] then {} else (if fs[0].Instance? then {fs[0].name} else {}) + Named(fs[1..])
  }

  function Told(fs: seq<Fact>, key: Bytes): seq<Bytes> {
    if fs == [] then []
    else (if fs[0].Host? && fs[0].key == key then [fs[0].address] else []) + Told(fs[1..], key)
  }

  /** Learning works on the four parts separately. */
  lemma {:induction false} LearnAllParts(c: Collector, fs: seq<Fact>)
    ensures var d := LearnAll(c, fs);
            && d.instances == c.instances + Named(fs)
            && d.srv == PutAll(c.srv, SrvPuts(fs))
            && d.txt == PutAll(c.txt, TxtPuts(fs))
    decreases |fs|
  {
    if fs != [] {
      LearnAllParts(Learn(c, fs[0]), fs[1..]);
      match fs[0]
      case Service(n, port, target) => PutAllCons(c.srv, n, (port, target), SrvPuts(fs[1..]));
      case Text(n, txt) => PutAllCons(c.txt, n, txt, TxtPuts(fs[1..]));
      case _ =>
    }
  }

  lemma {:induction false} LearnAllAddresses(c: Collector, fs: seq<Fact>, key: Bytes)
    ensures AddressesOf(LearnAll(c, fs).addresses, key) == AddressesOf(c.addresses, key) + Told(fs, key)
    decreases |fs|
  {
    if fs == [] {
      Unit(AddressesOf(c.addresses, key));
    } else {
      LearnAllAddresses(Learn(c, fs[0]), fs[1..], key);
      Assoc(AddressesOf(c.addresses, key), Told(fs[..1], key), Told(fs[1..], key));
      Unit(AddressesOf(c.addresses, key));
    }
  }

  lemma {:induction false} DedupeAbsorbs(s: seq<Bytes>, more: seq<Bytes>)
    requires forall i :: 0 <= i < |more| ==> more[i] in s
    ensures Dedupe(s + more) == Dedupe(s)
    decreases |more|
  {
    if more == [] {
      Unit(s);
    } else {
      var before, last := more[..|more| - 1], more[|more| - 1];
      DedupeAbsorbs(s, before);
      assert (s + more)[..|s + more| - 1] == s + before && (s + more)[|s + more| - 1] == last;
      assert last in Dedupe(s);
    }
  }

  /** Two collectors that differ only in how often they heard an address say the same. */
  ghost predicate Alike(c: Collector, d: Collector) {
    && c.instances == d.instances && c.srv == d.srv && c.txt == d.txt
    && forall key :: Dedupe(AddressesOf(c.addresses, key)) == Dedupe(AddressesOf(d.addresses, key))
  }

  lemma {:induction false} AlikeSayTheSame(c: Collector, d: Collector, order: seq<Bytes>)
    requires Valid(c) && Valid(d) && Alike(c, d)
    ensures Services(c, order) == Services(d, order) && Missing(c, order) == Missing(d, order)
    decreases |order|
  {
    if order != [] {
      AlikeSayTheSame(c, d, order[1..]);
      var srv: Option<(nat, Bytes)> := Lookup(c.srv, order[0]);
      if srv.Some? {
        var key := Lower(srv.value.1);
        DedupeIsEmptyIff(AddressesOf(c.addresses, key));
        DedupeIsEmptyIff(AddressesOf(d.addresses, key));
      }
    }
  }

  lemma LearningTwice(c: Collector, fs: seq<Fact>)
    ensures Alike(LearnAll(LearnAll(c, fs), fs), LearnAll(c, fs))
  {
    var once := LearnAll(c, fs);
    LearnAllParts(c, fs);
    LearnAllParts(once, fs);
    PutAllTwice(c.srv, SrvPuts(fs));
    PutAllTwice(c.txt, TxtPuts(fs));
    forall key
      ensures Dedupe(AddressesOf(LearnAll(once, fs).addresses, key)) == Dedupe(AddressesOf(once.addresses, key))
    {
      LearnAllAddresses(c, fs, key);
      LearnAllAddresses(once, fs, key);
      DedupeAbsorbs(AddressesOf(once.addresses, key), Told(fs, key));
    }
  }

  /** Adding the same datagram twice changes neither the services nor the questions. */
  lemma SameDatagramTwice(service: Bytes, c: Collector, data: Bytes, order: seq<Bytes>)
    requires Valid(c)
    ensures var fs := Facts(service, data, Parse(data));
            var once := LearnAll(c, fs);
            var twice := LearnAll(once, fs);
            && Valid(once) && Valid(twice) && twice.instances == once.instances
            && Services(twice, order) == Services(once, order) && Missing(twice, order) == Missing(once, order)
  {
    var fs := Facts(service, data, Parse(data));
    LearnAllIsValid(c, fs);
    LearnAllIsValid(LearnAll(c, fs), fs);
    LearningTwice(c, fs);
    AlikeSayTheSame(LearnAll(LearnAll(c, fs), fs), LearnAll(c, fs), order);
  }

  // ---- one answer that tells everything

  predicate TeachesService(f: Finding) {
    f.Learned? && f.fact.Service?
  }

  predicate TeachesText(f: Finding) {
    f.Learned? && f.fact.Text?
  }

  predicate NoneRaises(service: Bytes, data: Bytes, rs: seq<Record>) {
    forall i :: 0 <= i < |rs| ==> FindingOf(service, data, rs[i]) != Raises
  }

  lemma {:induction false} NoServicePuts(service: Bytes, data: Bytes, rs: seq<Record>)
    requires NoneRaises(service, data, rs)
    requires forall i :: 0 <= i < |rs| ==> !TeachesService(FindingOf(service, data, rs[i]))
    ensures SrvPuts(Facts(service, data, rs)) == []
    decreases |rs|
  {
    if rs != [] {
      NoServicePuts(service, data, rs[1..]);
    }
  }

  lemma {:induction false} OneServicePut(service: Bytes, data: Bytes, rs: seq<Record>, s: nat, f: Fact)
    requires NoneRaises(service, data, rs) && s < |rs|
    requires FindingOf(service, data, rs[s]) == Learned(f) && f.Service?
    requires forall i :: 0 <= i < |rs| && i != s ==> !TeachesService(FindingOf(service, data, rs[i]))
    ensures SrvPuts(Facts(service, data, rs)) == [(f.name, (f.port, f.target))]
    decreases |rs|
  {
    if s == 0 {
      NoServicePuts(service, data, rs[1..]);
    } else {
      OneServicePut(service, data, rs[1..], s - 1, f);
    }
  }

  lemma {:induction false} NoTextPuts(service: Bytes, data: Bytes, rs: seq<Record>)
    requires NoneRaises(service, data, rs)
    requires forall i :: 0 <= i < |rs| ==> !TeachesText(FindingOf(service, data, rs[i]))
    ensures TxtPuts(Facts(service, data, rs)) == []
    decreases |rs|
  {
    if rs != [] {
      NoTextPuts(service, data, rs[1..]);
    }
  }

  lemma {:induction false} OneTextPut(service: Bytes, data: Bytes, rs: seq<Record>, t: nat, f: Fact)
    requires NoneRaises(service, data, rs) && t < |rs|
    requires FindingOf(service, data, rs[t]) == Learned(f) && f.Text?
    requires forall i :: 0 <= i < |rs| && i != t ==> !TeachesText(FindingOf(service, data, rs[i]))
    ensures TxtPuts(Facts(service, data, rs)) == [(f.name, f.txt)]
    decreases |rs|
  {
    if t == 0 {
      NoTextPuts(service, data, rs[1..]);
    } else {
      OneTextPut(service, data, rs[1..], t - 1, f);
    }
  }

  lemma {:induction false} NamesTaught(service: Bytes, data: Bytes, rs: seq<Record>, n: Bytes)
    requires NoneRaises(service, data, rs)
    ensures n in Named(Facts(service, data, rs)) <==>
            exists i :: 0 <= i < |rs| && FindingOf(service, data, rs[i]) == Learned(Instance(n))
    decreases |rs|
  {
    if rs != [] {
      NamesTaught(service, data, rs[1..], n);
      if i :| 0 <= i < |rs[1..]| && FindingOf(service, data, rs[1..][i]) == Learned(Instance(n)) {
        assert FindingOf(service, data, rs[i + 1]) == Learned(Instance(n));
      }
      if i :| 0 < i < |rs| && FindingOf(service, data, rs[i]) == Learned(Instance(n)) {
        assert FindingOf(service, data, rs[1..][i - 1]) == Learned(Instance(n));
      }
    }
  }

  lemma {:induction false} AddressTaught(service: Bytes, data: Bytes, rs: seq<Record>, a: nat, key: Bytes,
                                         address: Bytes)
    requires NoneRaises(service, data, rs) && a < |rs|
    requires FindingOf(service, data, rs[a]) == Learned(Host(key, address))
    ensures address in Told(Facts(service, data, rs), key)
    decreases |rs|
  {
    if a > 0 {
      AddressTaught(service, data, rs[1..], a - 1, key, address);
    }
  }

  lemma OneKeyIsFound<V>(t: Table<V>, k: Bytes, v: V, name: Bytes)
    requires t == PutAll(Table([], map[]), [(k, v)]) && Lower(k) == Lower(name)
    ensures Tidy(t) && Lookup(t, name) == Some(v)
  {
    assert t == Put(Table([], map[]), k, v);
  }

  /** A collector that has learned one instance, one service and one TXT entry for it, by names
      that differ in case at most, and an address of its host, lists it in full and asks
      nothing. */
  lemma FullFactsResolve(fs: seq<Fact>, inst: Bytes, n1: Bytes, port: nat, target: Bytes, n2: Bytes,
                         txt: map<Bytes, Bytes>)
    requires Named(fs) == {inst} && SrvPuts(fs) == [(n1, (port, target))] && TxtPuts(fs) == [(n2, txt)]
    requires Lower(n1) == Lower(inst) == Lower(n2) && Told(fs, Lower(target)) != []
    ensures var c := LearnAll(NOBODY, fs);
            && Valid(c) && c.instances == {inst} && Missing(c, [inst]) == []
            && Services(c, [inst]) == [MdnsService(inst, target, port, Dedupe(Told(fs, Lower(target))), txt)]
  {
    var c := LearnAll(NOBODY, fs);
    LearnAllParts(NOBODY, fs);
    LearnAllAddresses(NOBODY, fs, Lower(target));
    Unit(Told(fs, Lower(target)));
    OneKeyIsFound(c.srv, n1, (port, target), inst);
    OneKeyIsFound(c.txt, n2, txt, inst);
    ResolvedInstance(c, inst, port, target, txt);
  }

  lemma ResolvedInstance(c: Collector, inst: Bytes, port: nat, target: Bytes, txt: map<Bytes, Bytes>)
    requires Valid(c) && Lookup(c.srv, inst) == Some((port, target)) && Lookup(c.txt, inst) == Some(txt)
    requires AddressesOf(c.addresses, Lower(target)) != []
    ensures Missing(c, [inst]) == []
    ensures Services(c, [inst]) ==
            [MdnsService(inst, target, port, Dedupe(AddressesOf(c.addresses, Lower(target))), txt)]
  {
    assert [inst][1..] == [];
    assert QuestionsOf(c, inst) == [];
  }

  /** From a whole datagram to the service: whatever else it holds, a message with one PTR record
      of the service, one SRV and one TXT record of the instance it names, whose names may
      differ in case, and an A record of the host, resolves the instance at once. */
  lemma WholeAnswerResolves(service: Bytes, data: Bytes, h: Bytes, qs: seq<WireQuestion>, rs: seq<WireRecord>,
                            qfulls: seq<seq<Label>>, qjumps: seq<nat>, fulls: seq<seq<Label>>, jumps: seq<nat>,
                            p: nat, s: nat, t: nat, a: nat, pw: WireName, inst: seq<Label>, pj: nat,
                            sw: WireName, host: seq<Label>, sj: nat, es: seq<Entry>)
    requires GoodHeader(h, |qs|, |rs|) && GoodQuestions(qs) && GoodRecords(rs) && data == EncodeMessage(h, qs, rs)
    requires QuestionsResolve(data, qs, qfulls, qjumps) && RecordsResolve(data, rs, fulls, jumps)
    requires p < |rs| && s < |rs| && t < |rs| && a < |rs| && GoodEntries(es)
    requires forall i :: 0 <= i < |rs| ==>
               (U16At(rs[i].fixed, 0) == 12 && Lower(Join(fulls[i])) == service <==> i == p)
    requires forall i :: 0 <= i < |rs| ==> (U16At(rs[i].fixed, 0) == 33 && |rs[i].rdata| >= 6 <==> i == s)
    requires forall i :: 0 <= i < |rs| ==> (U16At(rs[i].fixed, 0) == 16 <==> i == t)
    requires Wellformed(pw) && rs[p].rdata == EncodeWire(pw) && Resolves(data, pw, inst, pj)
    requires Wellformed(sw) && rs[s].rdata[6..] == EncodeWire(sw) && Resolves(data, sw, host, sj)
    requires rs[t].rdata == EncodeTxt(es)
    requires Lower(Join(fulls[s])) == Lower(Join(inst)) == Lower(Join(fulls[t]))
    requires U16At(rs[a].fixed, 0) == 1 && |rs[a].rdata| == 4 && Lower(Join(fulls[a])) == Lower(Join(host))
    ensures var fs := Facts(service, data, Parse(data));
            var c := LearnAll(NOBODY, fs);
            && !Raising(service, data, Parse(data)) && Valid(c) && c.instances == {Join(inst)}
            && Missing(c, [Join(inst)]) == []
            && Services(c, [Join(inst)]) ==
                 [MdnsService(Join(inst), Join(host), U16At(rs[s].rdata, 4), Dedupe(Told(fs, Lower(Join(host)))),
                              Entered(map[], es))]
            && rs[a].rdata in Services(c, [Join(inst)])[0].addresses
  {
    var start := 12 + |EncodeQuestions(qs)|;
    ParseInvertsEncode(data, h, qs, rs, qfulls, qjumps, fulls, jumps);
    MessageParts(data, h, EncodeQuestions(qs), EncodeRecords(rs));
    LaidAnswerResolves(service, data, start, rs, fulls, Expected(start, rs, fulls), p, s, t, a, pw, inst, pj, sw, host,
                       sj, es);
  }

  lemma LaidAnswerResolves(service: Bytes, data: Bytes, start: nat, rs: seq<WireRecord>, fulls: seq<seq<Label>>,
                           got: seq<Record>, p: nat, s: nat, t: nat, a: nat, pw: WireName, inst: seq<Label>, pj: nat,
                           sw: WireName, host: seq<Label>, sj: nat, es: seq<Entry>)
    requires GoodRecords(rs) && At(data, start, EncodeRecords(rs)) && |fulls| == |rs|
    requires got == Expected(start, rs, fulls)
    requires p < |rs| && s < |rs| && t < |rs| && a < |rs| && GoodEntries(es)
    requires forall i :: 0 <= i < |rs| ==>
               (U16At(rs[i].fixed, 0) == 12 && Lower(Join(fulls[i])) == service <==> i == p)
    requires forall i :: 0 <= i < |rs| ==> (U16At(rs[i].fixed, 0) == 33 && |rs[i].rdata| >= 6 <==> i == s)
    requires forall i :: 0 <= i < |rs| ==> (U16At(rs[i].fixed, 0) == 16 <==> i == t)
    requires Wellformed(pw) && rs[p].rdata == EncodeWire(pw) && Resolves(data, pw, inst, pj)
    requires Wellformed(sw) && rs[s].rdata[6..] == EncodeWire(sw) && Resolves(data, sw, host, sj)
    requires rs[t].rdata == EncodeTxt(es)
    requires Lower(Join(fulls[s])) == Lower(Join(inst)) == Lower(Join(fulls[t]))
    requires U16At(rs[a].fixed, 0) == 1 && |rs[a].rdata| == 4 && Lower(Join(fulls[a])) == Lower(Join(host))
    ensures var fs := Facts(service, data, got);
            var c := LearnAll(NOBODY, fs);
            && !Raising(service, data, got) && Valid(c) && c.instances == {Join(inst)}
            && Missing(c, [Join(inst)]) == []
            && Services(c, [Join(inst)]) ==
                 [MdnsService(Join(inst), Join(host), U16At(rs[s].rdata, 4), Dedupe(Told(fs, Lower(Join(host)))),
                              Entered(map[], es))]
            && rs[a].rdata in Services(c, [Join(inst)])[0].addresses
  {
    RecordsAreReported(start, rs, fulls, got);
    PtrTeaches(service, data, start, rs, fulls, p, pw, inst, pj);
    SrvTeaches(service, data, start, rs, fulls, s, sw, host, sj);
    TxtAndAddressTeach(service, data, start, rs, fulls, t, es);
    TxtAndAddressTeach(service, data, start, rs, fulls, a, []);
    FoundAnswerResolves(service, data, got, p, s, t, a, Join(inst), Join(fulls[s]), U16At(rs[s].rdata, 4), Join(host),
                        Join(fulls[t]), Entered(map[], es), rs[a].rdata);
  }

  lemma RecordsAreReported(start: nat, rs: seq<WireRecord>, fulls: seq<seq<Label>>, got: seq<Record>)
    requires GoodRecords(rs) && |fulls| == |rs| && got == Expected(start, rs, fulls)
    ensures |got| == |rs|
    ensures forall i :: 0 <= i < |rs| ==>
              got[i].rtype == U16At(rs[i].fixed, 0) && got[i].rdata == rs[i].rdata && got[i].name == Join(fulls[i])
  {
    ExpectedLength(start, rs, fulls);
    forall i | 0 <= i < |rs|
      ensures got[i].rtype == U16At(rs[i].fixed, 0) && got[i].rdata == rs[i].rdata && got[i].name == Join(fulls[i])
    {
      ExpectedAt(start, rs, fulls, i);
    }
  }

  lemma FoundAnswerResolves(service: Bytes, data: Bytes, got: seq<Record>, p: nat, s: nat, t: nat, a: nat, inst: Bytes,
                            n1: Bytes, port: nat, target: Bytes, n2: Bytes, txt: map<Bytes, Bytes>, address: Bytes)
    requires p < |got| && s < |got| && t < |got| && a < |got|
    requires forall i :: 0 <= i < |got| ==> (got[i].rtype == 12 && Lower(got[i].name) == service <==> i == p)
    requires forall i :: 0 <= i < |got| ==> (got[i].rtype == 33 && |got[i].rdata| >= 6 <==> i == s)
    requires forall i :: 0 <= i < |got| ==> (got[i].rtype == 16 <==> i == t)
    requires FindingOf(service, data, got[p]) == Learned(Instance(inst))
    requires FindingOf(service, data, got[s]) == Learned(Service(n1, port, target))
    requires FindingOf(service, data, got[t]) == Learned(Text(n2, txt))
    requires FindingOf(service, data, got[a]) == Learned(Host(Lower(target), address))
    requires Lower(n1) == Lower(inst) == Lower(n2)
    ensures var fs := Facts(service, data, got);
            var c := LearnAll(NOBODY, fs);
            && !Raising(service, data, got) && Valid(c) && c.instances == {inst} && Missing(c, [inst]) == []
            && Services(c, [inst]) == [MdnsService(inst, target, port, Dedupe(Told(fs, Lower(target))), txt)]
            && address in Services(c, [inst])[0].addresses
  {
    forall i | 0 <= i < |got|
      ensures FindingOf(service, data, got[i]) != Raises
      ensures TeachesService(FindingOf(service, data, got[i])) ==> i == s
      ensures TeachesText(FindingOf(service, data, got[i])) ==> i == t
      ensures forall n :: FindingOf(service, data, got[i]) == Learned(Instance(n)) ==> i == p
    {
      OtherRecords(service, data, got[i], i == p, i == s, i == t);
    }
    var fs := Facts(service, data, got);
    OneServicePut(service, data, got, s, Service(n1, port, target));
    OneTextPut(service, data, got, t, Text(n2, txt));
    AddressTaught(service, data, got, a, Lower(target), address);
    forall n ensures n in Named(fs) <==> n in {inst} {
      NamesTaught(service, data, got, n);
    }
    FullFactsResolve(fs, inst, n1, port, target, n2, txt);
  }

  lemma OtherRecords(service: Bytes, data: Bytes, r: Record, isPtr: bool, isSrv: bool, isTxt: bool)
    requires isPtr <==> r.rtype == 12 && Lower(r.name) == service
    requires isSrv <==> r.rtype == 33 && |r.rdata| >= 6
    requires isTxt <==> r.rtype == 16
    ensures var f := FindingOf(service, data, r);
            && (f == Raises ==> isPtr || isSrv)
            && (TeachesService(f) ==> isSrv) && (TeachesText(f) ==> isTxt)
            && (forall n :: f == Learned(Instance(n)) ==> isPtr)
  {
  }

  // ---- rounds of questions and answers

  lemma {:induction false} FirstFoldedOfMore(keys: seq<Bytes>, k: Bytes, lowered: Bytes)
    ensures FirstFolded(keys + [k], lowered) ==
            if FirstFolded(keys, lowered).Some? then FirstFolded(keys, lowered)
            else if Lower(k) == lowered then Some(k) else None
    decreases |keys|
  {
    if keys == [] {
      Unit([k]);
      assert [k][1..] == [];
    } else {
      assert (keys + [k])[1..] == keys[1..] + [k];
      FirstFoldedOfMore(keys[1..], k, lowered);
    }
  }

  /** After one entry more a name is looked up as before, or to that entry. */
  lemma LookupAfterPut<V>(t: Table<V>, k: Bytes, v: V, name: Bytes)
    requires Tidy(t)
    ensures Tidy(Put(t, k, v))
    ensures var found := Lookup(Put(t, k, v), name);
            || (Lower(k) == Lower(name) && found == Some(v))
            || (found == Lookup(t, name) && (Lower(k) == Lower(name) ==> found.Some?))
  {
    if name !in t.vals && name != k && k !in t.vals {
      FirstFoldedOfMore(t.keys, k, Lower(name));
    }
  }

  predicate Gives<V(==)>(ps: seq<(Bytes, V)>, name: Bytes, v: V) {
    exists i :: 0 <= i < |ps| && Lower(ps[i].0) == Lower(name) && ps[i].1 == v
  }

  predicate GivesSome<V>(ps: seq<(Bytes, V)>, name: Bytes) {
    exists i :: 0 <= i < |ps| && Lower(ps[i].0) == Lower(name)
  }

  lemma {:induction false} LookupAfter<V>(t: Table<V>, ps: seq<(Bytes, V)>, name: Bytes)
    requires Tidy(t)
    ensures Tidy(PutAll(t, ps))
    ensures var found := Lookup(PutAll(t, ps), name);
            && (Lookup(t, name).Some? || GivesSome(ps, name) ==> found.Some?)
            && (found.Some? ==> Lookup(t, name) == found || Gives(ps, name, found.value))
    decreases |ps|
  {
    if ps != [] {
      var d, rest := Put(t, ps[0].0, ps[0].1), ps[1..];
      LookupAfterPut(t, ps[0].0, ps[0].1, name);
      LookupAfter(d, rest, name);
      if i :| 0 <= i < |ps| && Lower(ps[i].0) == Lower(name) && i > 0 {
        assert Lower(rest[i - 1].0) == Lower(name);
      }
      var found := Lookup(PutAll(d, rest), name);
      if found.Some? && Gives(rest, name, found.value) {
        var i :| 0 <= i < |rest| && Lower(rest[i].0) == Lower(name) && rest[i].1 == found.value;
        assert Lower(ps[i + 1].0) == Lower(name) && ps[i + 1].1 == found.value;
      } else if found.Some? && Lookup(d, name) == found != Lookup(t, name) {
        assert Gives(ps, name, found.value);
      }
    }
  }

  predicate TellsService(fs: seq<Fact>, name: Bytes) {
    exists f <- fs :: f.Service? && Lower(f.name) == Lower(name)
  }

  predicate TellsText(fs: seq<Fact>, name: Bytes) {
    exists f <- fs :: f.Text? && Lower(f.name) == Lower(name)
  }

  predicate TellsHost(fs: seq<Fact>, key: Bytes) {
    exists f <- fs :: f.Host? && f.key == key
  }

  /** The facts answer the question: as the SRV, TXT and A record that it asks for does. */
  predicate Answered(fs: seq<Fact>, q: (Bytes, nat)) {
    match q.1
    case 33 => TellsService(fs, q.0)
    case 16 => TellsText(fs, q.0)
    case 1 => TellsHost(fs, Lower(q.0))
    case _ => false
  }

  /** Some service among the facts is on this host. */
  predicate NamesHost(fs: seq<Fact>, target: Bytes) {
    exists f <- fs :: f.Service? && f.target == target
  }

  lemma {:induction false} SrvPutsOf(fs: seq<Fact>)
    ensures forall p <- SrvPuts(fs) :: Service(p.0, p.1.0, p.1.1) in fs
    ensures forall f <- fs :: f.Service? ==> (f.name, (f.port, f.target)) in SrvPuts(fs)
    decreases |fs|
  {
    if fs != [] {
      SrvPutsOf(fs[1..]);
      assert fs == [fs[0]] + fs[1..];
    }
  }

  lemma {:induction false} TxtPutsOf(fs: seq<Fact>)
    ensures forall f <- fs :: f.Text? ==> (f.name, f.txt) in TxtPuts(fs)
    decreases |fs|
  {
    if fs != [] {
      TxtPutsOf(fs[1..]);
      assert fs == [fs[0]] + fs[1..];
    }
  }

  lemma {:induction false} ToldIff(fs: seq<Fact>, key: Bytes)
    ensures Told(fs, key) != [] <==> TellsHost(fs, key)
    decreases |fs|
  {
    if fs != [] {
      ToldIff(fs[1..], key);
      assert fs == [fs[0]] + fs[1..];
    }
  }

  lemma ServiceIsFound(c: Collector, fs: seq<Fact>, inst: Bytes)
    requires Valid(c)
    ensures Valid(LearnAll(c, fs))
    ensures var found: Option<(nat, Bytes)> := Lookup(LearnAll(c, fs).srv, inst);
            && (Lookup(c.srv, inst).Some? || TellsService(fs, inst) ==> found.Some?)
            && (found.Some? ==> Lookup(c.srv, inst) == found || NamesHost(fs, found.value.1))
  {
    LearnAllIsValid(c, fs);
    LearnAllParts(c, fs);
    SrvPutsOf(fs);
    LookupAfter(c.srv, SrvPuts(fs), inst);
  }

  lemma TextIsFound(c: Collector, fs: seq<Fact>, inst: Bytes)
    requires Valid(c)
    ensures Valid(LearnAll(c, fs))
    ensures Lookup(c.txt, inst).Some? || TellsText(fs, inst) ==> Lookup(LearnAll(c, fs).txt, inst).Some?
  {
    LearnAllIsValid(c, fs);
    LearnAllParts(c, fs);
    TxtPutsOf(fs);
    LookupAfter(c.txt, TxtPuts(fs), inst);
  }

  lemma AddressIsFound(c: Collector, fs: seq<Fact>, key: Bytes)
    ensures AddressesOf(LearnAll(c, fs).addresses, key) == [] <==>
            AddressesOf(c.addresses, key) == [] && !TellsHost(fs, key)
  {
    LearnAllAddresses(c, fs, key);
    ToldIff(fs, key);
  }

  /** The question is for the address of a host that the facts have named, and not known yet. */
  predicate LeftOver(c: Collector, fs: seq<Fact>, q: (Bytes, nat)) {
    && q.1 == 1 && NamesHost(fs, q.0)
    && AddressesOf(c.addresses, Lower(q.0)) == [] && !TellsHost(fs, Lower(q.0))
  }

  /** What is still asked for one instance once its questions have been answered. */
  lemma AnsweredInstance(c: Collector, fs: seq<Fact>, inst: Bytes, q: (Bytes, nat))
    requires Valid(c) && forall asked <- QuestionsOf(c, inst) :: Answered(fs, asked)
    ensures Valid(LearnAll(c, fs))
    ensures q in QuestionsOf(LearnAll(c, fs), inst) ==> LeftOver(c, fs, q)
  {
    ServiceIsFound(c, fs, inst);
    TextIsFound(c, fs, inst);
    AddressIsFound(c, fs, Lower(q.0));
    var before: Option<(nat, Bytes)> := Lookup(c.srv, inst);
    if before.None? {
      assert Answered(fs, QuestionsOf(c, inst)[0]) && Answered(fs, QuestionsOf(c, inst)[1]);
    } else {
      if Lookup(c.txt, inst).None? {
        assert (inst, 16) in QuestionsOf(c, inst);
      }
      if AddressesOf(c.addresses, Lower(before.value.1)) == [] {
        assert (before.value.1, 1) in QuestionsOf(c, inst);
      }
    }
  }

  /** What a sequence of datagrams tells, and the collector that has added them. */
  function Heard(service: Bytes, datagrams: seq<Bytes>): seq<Fact> {
    if datagrams == [] then []
    else Facts(service, datagrams[0], Parse(datagrams[0])) + Heard(service, datagrams[1..])
  }

  function AddAll(service: Bytes, c: Collector, datagrams: seq<Bytes>): Collector
    decreases |datagrams|
  {
    if datagrams == [] then c
    else AddAll(service, LearnAll(c, Facts(service, datagrams[0], Parse(datagrams[0]))), datagrams[1..])
  }

  lemma {:induction false} LearnAllConcat(c: Collector, x: seq<Fact>, y: seq<Fact>)
    ensures LearnAll(c, x + y) == LearnAll(LearnAll(c, x), y)
    decreases |x|
  {
    if x == [] {
      Unit(y);
    } else {
      assert (x + y)[1..] == x[1..] + y;
      LearnAllConcat(Learn(c, x[0]), x[1..], y);
    }
  }

  lemma {:induction false} AddAllLearns(service: Bytes, c: Collector, datagrams: seq<Bytes>)
    ensures AddAll(service, c, datagrams) == LearnAll(c, Heard(service, datagrams))
    decreases |datagrams|
  {
    if datagrams != [] {
      var fs := Facts(service, datagrams[0], Parse(datagrams[0]));
      AddAllLearns(service, LearnAll(c, fs), datagrams[1..]);
      LearnAllConcat(c, fs, Heard(service, datagrams[1..]));
    }
  }

  predicate NoneRaisesBefore(service: Bytes, data: Bytes, rs: seq<Record>, i: nat)
    requires i <= |rs|
  {
    forall k :: 0 <= k < i ==> FindingOf(service, data, rs[k]) != Raises
  }

  /** A record before any that raises is heard, in whichever datagram it comes. */
  lemma {:induction false} RecordIsHeard(service: Bytes, datagrams: seq<Bytes>, d: nat, i: nat, f: Fact)
    requires d < |datagrams| && i < |Parse(datagrams[d])|
    requires NoneRaisesBefore(service, datagrams[d], Parse(datagrams[d]), i)
    requires FindingOf(service, datagrams[d], Parse(datagrams[d])[i]) == Learned(f)
    ensures f in Heard(service, datagrams)
    decreases |datagrams|
  {
    if d == 0 {
      RecordIsTaken(service, datagrams[0], Parse(datagrams[0]), i, f);
    } else {
      RecordIsHeard(service, datagrams[1..], d - 1, i, f);
    }
  }

  lemma {:induction false} RecordIsTaken(service: Bytes, data: Bytes, rs: seq<Record>, i: nat, f: Fact)
    requires i < |rs| && NoneRaisesBefore(service, data, rs, i) && FindingOf(service, data, rs[i]) == Learned(f)
    ensures f in Facts(service, data, rs)
    decreases |rs|
  {
    if i > 0 {
      RecordIsTaken(service, data, rs[1..], i - 1, f);
    }
  }

  /** The datagrams answer every question asked, and name no other instance. */
  predicate AnswersAll(service: Bytes, c: Collector, order: seq<Bytes>, datagrams: seq<Bytes>)
    requires Valid(c)
  {
    && (forall q <- Missing(c, order) :: Answered(Heard(service, datagrams), q))
    && Named(Heard(service, datagrams)) <= c.instances
  }

  /** Once every question has been answered, by whatever datagrams and in whatever order, only
      addresses of hosts that the answers named are asked for, of which none is known. */
  lemma RoundLeaves(service: Bytes, c: Collector, order: seq<Bytes>, datagrams: seq<Bytes>)
    requires Valid(c) && Orders(order, c.instances) && AnswersAll(service, c, order, datagrams)
    ensures var d, fs := AddAll(service, c, datagrams), Heard(service, datagrams);
            && Valid(d) && d.instances == c.instances
            && forall i :: 0 <= i < |Missing(d, order)| ==> LeftOver(c, fs, Missing(d, order)[i])
  {
    var d, fs := AddAll(service, c, datagrams), Heard(service, datagrams);
    AddAllLearns(service, c, datagrams);
    LearnAllIsValid(c, fs);
    LearnAllParts(c, fs);
    forall k | 0 <= k < |Missing(d, order)| ensures LeftOver(c, fs, Missing(d, order)[k]) {
      var q := Missing(d, order)[k];
      MissingIff(d, order, q);
      var i :| 0 <= i < |order| && q in QuestionsOf(d, order[i]);
      forall asked | asked in QuestionsOf(c, order[i]) ensures Answered(fs, asked) {
        MissingIff(c, order, asked);
      }
      AnsweredInstance(c, fs, order[i], q);
    }
  }

  /** The facts give, or the collector has, an address for the host of each service they tell of. */
  predicate HostsKnown(c: Collector, fs: seq<Fact>) {
    forall f <- fs :: f.Service? ==>
      TellsHost(fs, Lower(f.target)) || AddressesOf(c.addresses, Lower(f.target)) != []
  }

  lemma KnownIsNotLeftOver(c: Collector, fs: seq<Fact>, q: (Bytes, nat))
    requires HostsKnown(c, fs)
    ensures !LeftOver(c, fs, q)
  {
  }

  /** So if the answers come with the addresses of the hosts they name, nothing is missing. */
  lemma RoundSettles(service: Bytes, c: Collector, order: seq<Bytes>, datagrams: seq<Bytes>)
    requires Valid(c) && Orders(order, c.instances) && AnswersAll(service, c, order, datagrams)
    requires HostsKnown(c, Heard(service, datagrams))
    ensures var d := AddAll(service, c, datagrams);
            Valid(d) && d.instances == c.instances && Missing(d, order) == []
  {
    RoundLeaves(service, c, order, datagrams);
    var left := Missing(AddAll(service, c, datagrams), order);
    if left != [] {
      KnownIsNotLeftOver(c, Heard(service, datagrams), left[0]);
    }
  }

  /** And if they do not, a second round settles it: its questions are for those addresses. */
  lemma TwoRoundsSettle(service: Bytes, c: Collector, order: seq<Bytes>, first: seq<Bytes>, second: seq<Bytes>)
    requires Valid(c) && Orders(order, c.instances) && AnswersAll(service, c, order, first)
    requires var c1 := AddAll(service, c, first);
             Valid(c1) && AnswersAll(service, c1, order, second) && HostsKnown(c1, Heard(service, second))
    ensures var d := AddAll(service, AddAll(service, c, first), second);
            Valid(d) && d.instances == c.instances && Missing(d, order) == []
  {
    RoundLeaves(service, c, order, first);
    RoundSettles(service, AddAll(service, c, first), order, second);
  }

  /** It begins with a datagram that only names an instance: all else is asked for then. */
  lemma NamedOnlyIsAsked(service: Bytes, data: Bytes, inst: Bytes)
    requires Facts(service, data, Parse(data)) == [Instance(inst)]
    ensures var c := AddAll(service, NOBODY, [data]);
            && Valid(c) && Orders([inst], c.instances) && Missing(c, [inst]) == [(inst, 33), (inst, 16)]
  {
    AddAllLearns(service, NOBODY, [data]);
    assert [data][1..] == [] && Heard(service, []) == [];
    OnlyNamed(inst);
  }

  lemma OnlyNamed(inst: Bytes)
    ensures var c := LearnAll(NOBODY, [Instance(inst)] + []);
            && Valid(c) && Orders([inst], c.instances) && Missing(c, [inst]) == [(inst, 33), (inst, 16)]
  {
    var c := NOBODY.(instances := {} + {inst});
    Unit([Instance(inst)]);
    assert [Instance(inst)][1..] == [];
    assert LearnAll(NOBODY, [Instance(inst)]) == c;
    NothingIsKnown(c, inst);
  }

  lemma NothingIsKnown(c: Collector, inst: Bytes)
    requires c.srv == Table([], map[]) && c.txt == Table([], map[])
    ensures Valid(c) && Missing(c, [inst]) == [(inst, 33), (inst, 16)]
  {
    assert [inst][1..] == [];
    assert QuestionsOf(c, inst) == [(inst, 33), (inst, 16)];
  }

  // ---- when adding a datagram raises

  /** Reading on from `offset`, past at most `hops` pointers, one comes to the last byte, and
      that byte begins a pointer. */
  ghost predicate EndsInLonePointer(data: Bytes, offset: nat, hops: nat) {
    data != [] && data[|data| - 1] >= 192 && ReachesWithin(data, offset, |data| - 1, hops)
  }

  ghost predicate ReachesWithin(data: Bytes, offset: nat, there: nat, hops: nat) {
    exists j :: 0 <= j <= hops && Reaches(data, offset, there, j)
  }

  lemma PastALabel(data: Bytes, offset: nat, there: nat, hops: nat)
    requires offset < |data| && 0 < data[offset] < 192 && offset != there
    ensures ReachesWithin(data, offset, there, hops) <==> ReachesWithin(data, offset + 1 + data[offset], there, hops)
  {
    var next := offset + 1 + data[offset];
    if j :| 0 <= j <= hops && Reaches(data, offset, there, j) {
      assert Reaches(data, next, there, j);
    }
    if j :| 0 <= j <= hops && Reaches(data, next, there, j) {
      assert Reaches(data, offset, there, j);
    }
  }

  lemma {:induction false} WalkMeetsLonePointerIff(data: Bytes, offset: nat, hops: nat)
    requires hops <= MAX_HOPS
    ensures Walk(data, offset, hops) == Err(LonePointer) <==> EndsInLonePointer(data, offset, MAX_HOPS - hops)
    decreases MAX_HOPS - hops, |data| - offset
  {
    if offset < |data| && data[offset] != 0 {
      var length, last := data[offset], |data| - 1;
      if length >= 192 {
        if offset == last {
          assert Reaches(data, offset, last, 0);
        } else if hops < MAX_HOPS {
          var target := Pointer(length, data[offset + 1]);
          WalkMeetsLonePointerIff(data, target, hops + 1);
          if j :| 0 <= j <= MAX_HOPS - hops && Reaches(data, offset, last, j) {
            assert Reaches(data, target, last, j - 1);
          }
          if j :| 0 <= j <= MAX_HOPS - hops - 1 && Reaches(data, target, last, j) {
            assert Reaches(data, offset, last, j + 1);
          }
        }
      } else {
        WalkMeetsLonePointerIff(data, offset + 1 + length, hops);
        if data[last] >= 192 {
          PastALabel(data, offset, last, MAX_HOPS - hops);
        }
      }
    }
  }

  /** Where the collector reads a name inside the rdata of a record, if it does. */
  function NameStart(service: Bytes, r: Record): Option<nat> {
    if r.rtype == 12 && Lower(r.name) == service then Some(r.offset)
    else if r.rtype == 33 && |r.rdata| >= 6 then Some(r.offset + 6)
    else None
  }

  /** `add` raises exactly when the name in some PTR record of the service or some SRV record
      leads, past at most 64 pointers, to a lone pointer byte at the end of the datagram. */
  lemma AddRaisesIff(service: Bytes, data: Bytes)
    ensures Raising(service, data, Parse(data)) <==>
            exists i :: 0 <= i < |Parse(data)| && NameStart(service, Parse(data)[i]).Some? &&
                        EndsInLonePointer(data, NameStart(service, Parse(data)[i]).value, MAX_HOPS)
  {
    var rs := Parse(data);
    forall i | 0 <= i < |rs|
      ensures FindingOf(service, data, rs[i]) == Raises <==>
              NameStart(service, rs[i]).Some? && EndsInLonePointer(data, NameStart(service, rs[i]).value, MAX_HOPS)
    {
      FindingRaisesIff(service, data, rs[i]);
    }
  }

  lemma FindingRaisesIff(service: Bytes, data: Bytes, r: Record)
    ensures FindingOf(service, data, r) == Raises <==>
            NameStart(service, r).Some? && EndsInLonePointer(data, NameStart(service, r).value, MAX_HOPS)
  {
    var start := NameStart(service, r);
    if start.Some? {
      WalkMeetsLonePointerIff(data, start.value, 0);
    }
  }

  /** No datagram that ends in a byte below 192 makes `add` raise. */
  lemma OrdinaryEndsNeverRaise(service: Bytes, data: Bytes)
    requires data == [] || data[|data| - 1] < 192
    ensures !Raising(service, data, Parse(data))
  {
    AddRaisesIff(service, data);
  }

  lemma LastByteIsLone(data: Bytes)
    requires data != [] && data[|data| - 1] >= 192
    ensures ReadNameSpec(data, |data| - 1) == Err(LonePointer)
  {
  }

  lemma OnlyRecordIsReported(r: WireRecord)
    requires GoodRecord(r) && EncodeWire(r.name) == [0]
    ensures Expected(12, [r], [[]]) == [Record([], U16At(r.fixed, 0), r.rdata, 23)]
  {
    assert Expected(RecordEnd(12, r), [r][1..], [[]][1..]) == [];
  }

  lemma OnlyRecordIsParsed(data: Bytes, h: Bytes, r: WireRecord)
    requires GoodHeader(h, 0, 1) && r.name == WireName([], None) && GoodRecord(r) && data == EncodeMessage(h, [], [r])
    ensures |data| == 23 + |r.rdata| && At(data, 23, r.rdata)
    ensures Parse(data) == [Record([], U16At(r.fixed, 0), r.rdata, 23)]
  {
    assert EncodeWire(r.name) == [0];
    ParseInvertsEncode(data, h, [], [r], [], [], [[]], [0]);
    OnlyRecordIsReported(r);
    MessageParts(data, h, EncodeQuestions([]), EncodeRecords([r]));
    RdataStands(data, 12, [r], 0);
    assert EncodeRecords([r][1..]) == [];
  }

  /** A response of one SRV record whose target is a single byte, at least 192, makes `add`
      raise, whatever service is browsed. */
  lemma LoneByteRaises(service: Bytes, data: Bytes, h: Bytes, r: WireRecord)
    requires GoodHeader(h, 0, 1) && r.name == WireName([], None) && GoodRecord(r) && data == EncodeMessage(h, [], [r])
    requires U16At(r.fixed, 0) == 33 && |r.rdata| == 7 && r.rdata[6] >= 192
    ensures Raising(service, data, Parse(data))
  {
    OnlyRecordIsParsed(data, h, r);
    assert r.rdata[6] == data[23 + 6];
    LastByteIsLone(data);
    assert FindingOf(service, data, Parse(data)[0]) == Raises;
  }

  /** Header and record of such a response. */
  lemma LoneByteParts() returns (h: Bytes, r: WireRecord)
    ensures GoodHeader(h, 0, 1) && r.name == WireName([], None) && GoodRecord(r)
    ensures U16At(r.fixed, 0) == 33 && |r.rdata| == 7 && r.rdata[6] >= 192
  {
    h := [0, 0, 0, 0, 0, 0, 0, 1, 0, 0, 0, 0];
    r := WireRecord(WireName([], None), [0, 33, 0, 1, 0, 0, 0, 0, 0, 7], [0, 0, 0, 0, 31, 144, 192]);
  }

  /** So there is a datagram that makes `add` raise, whatever service is browsed. */
  lemma LoneByteExists(service: Bytes) returns (data: Bytes)
    ensures Raising(service, data, Parse(data))
  {
    var h, r := LoneByteParts();
    data := EncodeMessage(h, [], [r]);
    LoneByteRaises(service, data, h, r);
  }

  // ---- the collector object

  class MdnsCollector {
    const service: Bytes
    var instances: set<Bytes>
    var srv: Table<(nat, Bytes)>
    var txt: Table<map<Bytes, Bytes>>
    var addresses: map<Bytes, seq<Bytes>>

    constructor (service: Bytes)
      ensures this.service == Lower(StripDots(service)) && State() == NOBODY
    {
      this.service := Lower(StripDots(service));
      instances, srv, txt, addresses := {}, Table([], map[]), Table([], map[]), map[];
    }

    function State(): Collector
      reads this
    {
      Collector(instances, srv, txt, addresses)
    }

    /** `add`. What the records before a lone pointer tell is kept when it raises. */
    method Add(data: Bytes) returns (raised: bool)
      modifies this`instances, this`srv, this`txt, this`addresses
      ensures State() == LearnAll(old(State()), Facts(service, data, Parse(data)))
      ensures raised <==> Raising(service, data, Parse(data))
    {
      var records := ParseResponse(data);
      for i := 0 to |records|
        invariant LearnAll(State(), Facts(service, data, records[i..])) ==
                  LearnAll(old(State()), Facts(service, data, records))
        invariant forall j :: 0 <= j < i ==> FindingOf(service, data, records[j]) != Raises
      {
        raised := AddRecord(data, records[i]);
        assert records[i..][0] == records[i] && records[i..][1..] == records[i + 1..];
        if raised {
          return;
        }
      }
      raised := false;
    }

    /** One turn of the loop in `add`. */
    method AddRecord(data: Bytes, r: Record) returns (raised: bool)
      modifies this`instances, this`srv, this`txt, this`addresses
      ensures raised <==> FindingOf(service, data, r) == Raises
      ensures State() == match FindingOf(service, data, r)
                         case Learned(f) => Learn(old(State()), f)
                         case _ => old(State())
    {
      raised := false;
      var key := Lower(r.name);
      if r.rtype == 12 && key == service {
        var name := ReadName(data, r.offset);
        if name.Err? {
          return name.error == LonePointer;
        }
        instances := instances + {name.value.0};
      } else if r.rtype == 33 && |r.rdata| >= 6 {
        var port := U16At(r.rdata, 4);
        var target := ReadName(data, r.offset + 6);
        if target.Err? {
          return target.error == LonePointer;
        }
        srv := Put(srv, r.name, (port, target.value.0));
      } else if r.rtype == 16 {
        var entries := ParseTxt(r.rdata);
        txt := Put(txt, r.name, entries);
      } else if r.rtype == 1 && |r.rdata| == 4 {
        addresses := addresses[key := AddressesOf(addresses, key) + [r.rdata]];
      }
    }

    method ListServices(order: seq<Bytes>) returns (out: seq<MdnsService>)
      requires Valid(State()) && Orders(order, instances)
      ensures out == Services(State(), order)
    {
      out := [];
      for i := 0 to |order|
        invariant out + Services(State(), order[i..]) == Services(State(), order)
      {
        assert order[i..][0] == order[i] && order[i..][1..] == order[i + 1..];
        var found: Option<(nat, Bytes)> := Lookup(srv, order[i]);
        ghost var rest := Services(State(), order[i + 1..]);
        if found.None? {
          Unit(rest);
          continue;
        }
        var (port, target) := found.value;
        var addrs := Dedupe(AddressesOf(addresses, Lower(target)));
        var entries := Lookup(txt, order[i]);
        var next := MdnsService(order[i], target, port, addrs, if entries.Some? then entries.value else map[]);
        Assoc(out, [next], rest);
        out := out + [next];
      }
      Unit(out);
    }

    /** One turn of the loop in `missing`. */
    method Ask(inst: Bytes) returns (questions: seq<(Bytes, nat)>)
      requires Valid(State())
      ensures questions == QuestionsOf(State(), inst)
    {
      var found: Option<(nat, Bytes)> := Lookup(srv, inst);
      if found.None? {
        return [(inst, 33), (inst, 16)];
      }
      questions := [];
      if Lookup(txt, inst).None? {
        questions := questions + [(inst, 16)];
      }
      var (_, target) := found.value;
      if AddressesOf(addresses, Lower(target)) == [] {
        questions := questions + [(target, 1)];
      }
    }

    method ListMissing(order: seq<Bytes>) returns (questions: seq<(Bytes, nat)>)
      requires Valid(State()) && Orders(order, instances)
      ensures questions == Missing(State(), order)
    {
      questions := [];
      for i := 0 to |order|
        invariant questions + Missing(State(), order[i..]) == Missing(State(), order)
      {
        assert order[i..][0] == order[i] && order[i..][1..] == order[i + 1..];
        Assoc(questions, QuestionsOf(State(), order[i]), Missing(State(), order[i + 1..]));
        var now := Ask(order[i]);
        questions := questions + now;
      }
      Unit(questions);
    }
  }
}
