/** A session and a cooler joined by two byte channels that keep order but cut the stream
    anywhere. */
module Links {
  import opened Common
  import opened Frames
  import opened LineStream
  import opened Topics
  import opened Sessions

  datatype Cooler = Cooler(inbox: Decoder, stored: map<Address, Bytes>)

  /** `asked`, `served`, `sent` and `heard` record the frames put on and taken off each
      channel. */
  datatype World = World(
    client: SessionState, cooler: Cooler, up: Bytes, down: Bytes,
    asked: seq<Frame>, served: seq<Frame>, sent: seq<Frame>, heard: seq<Frame>)

  datatype Step =
    | ClientSends(frame: Frame)
    | ClientReads(n: nat)
    | CoolerReads(n: nat, repeats: nat, refused: set<Address>)
    | CoolerAnnounces(address: Address)
    | CoolerChanges(address: Address, payload: Bytes)
    | CoolerSays(frame: Frame)

  const START := World(EMPTY, Cooler(FRESH, map[]), [], [], [], [], [], [])

  /** How the cooler answers one frame: a SUBSCRIBE with the stored value, an accepted SET with
      the old value, any number of times, before it stores the new one. */
  function Answer(stored: map<Address, Bytes>, repeats: nat, refused: set<Address>, f: Frame)
    : (seq<Frame>, map<Address, Bytes>)
  {
    var a := f.address;
    var current := if a in stored then [Frame(PUBLISH, a, stored[a])] else [];
    if f.action == SUBSCRIBE then (current, stored)
    else if f.action == SET then
      if a in refused then ([Frame(NAK, a, [])], stored)
      else (if a in stored then Times(repeats, current[0]) else [], stored[a := f.payload])
    else ([], stored)
  }

  function AnswerAll(stored: map<Address, Bytes>, repeats: nat, refused: set<Address>, fs: seq<Frame>)
    : (seq<Frame>, map<Address, Bytes>)
    decreases |fs|
  {
    if fs == [] then ([], stored)
    else
      var (r1, s1) := Answer(stored, repeats, refused, fs[0]);
      var (r2, s2) := AnswerAll(s1, repeats, refused, fs[1..]);
      (r1 + r2, s2)
  }

  /** The bytes of a sequence of frames, one line each. */
  function EncodeLines(fs: seq<Frame>): Bytes {
    Wire(AllSent(fs))
  }

  function Say(w: World, fs: seq<Frame>): World {
    w.(down := w.down + EncodeLines(fs), sent := w.sent + fs)
  }

  function AtMost(n: nat, s: Bytes): nat {
    if n <= |s| then n else |s|
  }

  /** The frames that the cooler takes off its channel when it reads `n` bytes. */
  function Taken(w: World, n: nat): seq<Frame> {
    Fed(w.cooler.inbox, w.up[..AtMost(n, w.up)]).1
  }

  function Next(fl: real -> real, w: World, step: Step): World {
    match step
    case ClientSends(f) =>
      w.(up := w.up + EncodeLines([f]), asked := w.asked + [f])
    case ClientReads(n) =>
      var k := AtMost(n, w.down);
      w.(client := Received(fl, w.client, w.down[..k]).0, down := w.down[k..],
         heard := w.heard + Fed(w.client.decoder, w.down[..k]).1)
    case CoolerReads(n, repeats, refused) =>
      var k := AtMost(n, w.up);
      var (inbox, fs) := Fed(w.cooler.inbox, w.up[..k]);
      var (replies, stored) := AnswerAll(w.cooler.stored, repeats, refused, fs);
      Say(w.(cooler := Cooler(inbox, stored), up := w.up[k..], served := w.served + fs), replies)
    case CoolerAnnounces(a) =>
      if a in w.cooler.stored then Say(w, [Frame(PUBLISH, a, w.cooler.stored[a])]) else w
    case CoolerChanges(a, payload) =>
      w.(cooler := w.cooler.(stored := w.cooler.stored[a := payload]))
    case CoolerSays(f) =>
      if f.action != PUBLISH then Say(w, [f]) else w
  }

  function Run(fl: real -> real, w: World, steps: seq<Step>): World
    decreases |steps|
  {
    if steps == [] then w else Run(fl, Next(fl, w, steps[0]), steps[1..])
  }

  /** The last payload published for each address, on top of `m`. */
  function Announced(m: map<Address, Bytes>, fs: seq<Frame>): map<Address, Bytes>
    decreases |fs|
  {
    if fs == [] then m
    else Announced(if fs[0].action == PUBLISH then m[fs[0].address := fs[0].payload] else m, fs[1..])
  }

  // ---- one channel

  /** Everything sent has been decoded already or will be, in order, once the bytes in flight
      are fed; nothing is dropped and nothing is left over. */
  predicate Faithful(d: Decoder, wire: Bytes, got: seq<Frame>, sent: seq<Frame>) {
    && CR !in d.buf
    && Fed(d, wire).0 == FRESH
    && got + Fed(d, wire).1 == sent
  }

  lemma FaithfulRead(d: Decoder, wire: Bytes, got: seq<Frame>, sent: seq<Frame>, k: nat)
    requires Faithful(d, wire, got, sent) && k <= |wire|
    ensures var (d', fs) := Fed(d, wire[..k]);
            Faithful(d', wire[k..], got + fs, sent)
  {
    assert wire == wire[..k] + wire[k..];
    FeedConcat(d, wire[..k], wire[k..]);
    RestHasNoCR(d.buf + wire[..k]);
    var (d1, f1) := Fed(d, wire[..k]);
    var (d2, f2) := Fed(d1, wire[k..]);
    Assoc(got, f1, f2);
  }

  lemma {:induction false} FreshReadsLines(fs: seq<Frame>)
    ensures Fed(FRESH, EncodeLines(fs)) == (FRESH, fs)
  {
    AllSentAre(fs);
    WireIsRead(AllSent(fs));
  }

  lemma FaithfulMore(d: Decoder, wire: Bytes, got: seq<Frame>, sent: seq<Frame>, more: Bytes, fs: seq<Frame>)
    requires Faithful(d, wire, got, sent) && Fed(FRESH, more) == (FRESH, fs)
    ensures Faithful(d, wire + more, got, sent + fs)
  {
    var held := Fed(d, wire).1;
    FeedConcat(d, wire, more);
    Assoc(got, held, fs);
  }

  lemma FaithfulSend(d: Decoder, wire: Bytes, got: seq<Frame>, sent: seq<Frame>, fs: seq<Frame>)
    requires Faithful(d, wire, got, sent)
    ensures Faithful(d, wire + EncodeLines(fs), got, sent + fs)
  {
    FreshReadsLines(fs);
    FaithfulMore(d, wire, got, sent, EncodeLines(fs), fs);
  }

  lemma FaithfulDrained(d: Decoder, got: seq<Frame>, sent: seq<Frame>)
    requires Faithful(d, [], got, sent)
    ensures d == FRESH && got == sent
  {
    Unit(d.buf);
    assert d.buf[..|d.buf|] == d.buf;
    FirstCRUnique(d.buf, |d.buf|);
    Unit(got);
  }

  // ---- both channels

  predicate Inv(fl: real -> real, w: World) {
    && Faithful(w.client.decoder, w.down, w.heard, w.sent)
    && Faithful(w.cooler.inbox, w.up, w.served, w.asked)
    && w.client.cache == AbsorbAll(fl, EMPTY.cache, w.heard)
  }

  lemma NextKeepsInv(fl: real -> real, w: World, step: Step)
    requires Inv(fl, w)
    ensures Inv(fl, Next(fl, w, step))
  {
    match step
    case ClientSends(f) =>
      FaithfulSend(w.cooler.inbox, w.up, w.served, w.asked, [f]);
    case ClientReads(n) =>
      var k := AtMost(n, w.down);
      FaithfulRead(w.client.decoder, w.down, w.heard, w.sent, k);
      AbsorbConcat(fl, EMPTY.cache, w.heard, Fed(w.client.decoder, w.down[..k]).1);
    case CoolerReads(n, repeats, refused) =>
      var k := AtMost(n, w.up);
      FaithfulRead(w.cooler.inbox, w.up, w.served, w.asked, k);
      var replies := AnswerAll(w.cooler.stored, repeats, refused, Fed(w.cooler.inbox, w.up[..k]).1).0;
      FaithfulSend(w.client.decoder, w.down, w.heard, w.sent, replies);
    case CoolerAnnounces(a) =>
      if a in w.cooler.stored {
        FaithfulSend(w.client.decoder, w.down, w.heard, w.sent, [Frame(PUBLISH, a, w.cooler.stored[a])]);
      }
    case CoolerChanges(a, payload) =>
    case CoolerSays(f) =>
      FaithfulSend(w.client.decoder, w.down, w.heard, w.sent, [f]);
  }

  lemma {:induction false} RunKeepsInv(fl: real -> real, w: World, steps: seq<Step>)
    requires Inv(fl, w)
    ensures Inv(fl, Run(fl, w, steps))
    decreases |steps|
  {
    if steps != [] {
      NextKeepsInv(fl, w, steps[0]);
      RunKeepsInv(fl, Next(fl, w, steps[0]), steps[1..]);
    }
  }

  lemma StartIsInv(fl: real -> real)
    ensures Inv(fl, START)
  {
    FreshReadsLines([]);
  }

  lemma {:induction false} RawIsAnnounced(fl: real -> real, c: Cache, fs: seq<Frame>)
    ensures AbsorbAll(fl, c, fs).raw == Announced(c.raw, fs)
    decreases |fs|
  {
    if fs != [] {
      RawIsAnnounced(fl, Absorb(fl, c, fs[0]), fs[1..]);
    }
  }

  lemma {:induction false} AnnouncedConcat(m: map<Address, Bytes>, x: seq<Frame>, y: seq<Frame>)
    ensures Announced(m, x + y) == Announced(Announced(m, x), y)
    decreases |x|
  {
    if x == [] {
      assert x + y == y;
    } else {
      assert (x + y)[1..] == x[1..] + y;
      AnnouncedConcat(if x[0].action == PUBLISH then m[x[0].address := x[0].payload] else m, x[1..], y);
    }
  }

  lemma HeardOfSent(fl: real -> real, w: World)
    requires Inv(fl, w)
    ensures w.heard <= w.sent && w.client.decoder.dropped == 0 && Consistent(fl, w.client.cache)
    ensures Announced(w.client.cache.raw, Fed(w.client.decoder, w.down).1) == Announced(map[], w.sent)
    ensures w.down == [] ==> w.heard == w.sent && w.client.cache.raw == Announced(map[], w.sent)
  {
    RawIsAnnounced(fl, EMPTY.cache, w.heard);
    AnnouncedConcat(map[], w.heard, Fed(w.client.decoder, w.down).1);
    AbsorbAllKeepsConsistent(fl, EMPTY.cache, w.heard);
    if w.down == [] {
      FaithfulDrained(w.client.decoder, w.heard, w.sent);
    }
  }

  /** In every run the client has heard a prefix of what the cooler sent, without loss; adding
      the decoder's leftover and the bytes in flight to its cached payloads gives the last
      payload published for every address; once the channel is drained the two agree. */
  lemma ClientFollowsCooler(fl: real -> real, steps: seq<Step>)
    ensures var w := Run(fl, START, steps);
            && w.heard <= w.sent && w.client.decoder.dropped == 0
            && Announced(w.client.cache.raw, Fed(w.client.decoder, w.down).1) == Announced(map[], w.sent)
            && (w.down == [] ==> w.heard == w.sent && w.client.cache.raw == Announced(map[], w.sent))
            && Consistent(fl, w.client.cache)
  {
    StartIsInv(fl);
    RunKeepsInv(fl, START, steps);
    HeardOfSent(fl, Run(fl, START, steps));
  }

  /** The requests travel as faithfully: the cooler has served a prefix of what was asked, and
      all of it once the channel is drained. */
  lemma CoolerHearsClient(fl: real -> real, steps: seq<Step>)
    ensures var w := Run(fl, START, steps);
            w.served <= w.asked && (w.up == [] ==> w.served == w.asked)
  {
    StartIsInv(fl);
    RunKeepsInv(fl, START, steps);
    var w := Run(fl, START, steps);
    if w.up == [] {
      FaithfulDrained(w.cooler.inbox, w.served, w.asked);
    }
  }

  // ---- old value first, new value later

  /** The step leaves what the cooler stores for `a` alone. */
  predicate Quiet(w: World, step: Step, a: Address) {
    match step
    case CoolerChanges(b, _) => b != a
    case CoolerReads(n, _, _) => forall f <- Taken(w, n) :: !(f.action == SET && f.address == a)
    case _ => true
  }

  predicate AllQuiet(fl: real -> real, w: World, steps: seq<Step>, a: Address)
    decreases |steps|
  {
    steps != [] ==> Quiet(w, steps[0], a) && AllQuiet(fl, Next(fl, w, steps[0]), steps[1..], a)
  }

  /** The cooler stores `p` for `a`, and has said so last. */
  predicate Settled(w: World, a: Address, p: Bytes) {
    && a in w.cooler.stored && w.cooler.stored[a] == p
    && a in Announced(map[], w.sent) && Announced(map[], w.sent)[a] == p
  }

  predicate OnlySays(fs: seq<Frame>, a: Address, p: Bytes) {
    forall f <- fs :: f.action == PUBLISH && f.address == a ==> f.payload == p
  }

  lemma {:induction false} AnnouncedKeeps(m: map<Address, Bytes>, fs: seq<Frame>, a: Address, p: Bytes)
    requires a in m && m[a] == p && OnlySays(fs, a, p)
    ensures a in Announced(m, fs) && Announced(m, fs)[a] == p
    decreases |fs|
  {
    if fs != [] {
      AnnouncedKeeps(if fs[0].action == PUBLISH then m[fs[0].address := fs[0].payload] else m, fs[1..], a, p);
    }
  }

  lemma AnswerKeeps(stored: map<Address, Bytes>, repeats: nat, refused: set<Address>, f: Frame, a: Address, p: Bytes)
    requires a in stored && stored[a] == p && !(f.action == SET && f.address == a)
    ensures var (replies, stored') := Answer(stored, repeats, refused, f);
            a in stored' && stored'[a] == p && OnlySays(replies, a, p)
  {
    if f.address in stored {
      TimesAre(repeats, Frame(PUBLISH, f.address, stored[f.address]));
    }
  }

  lemma {:induction false} AnswersKeep(stored: map<Address, Bytes>, repeats: nat, refused: set<Address>,
                                       fs: seq<Frame>, a: Address, p: Bytes)
    requires a in stored && stored[a] == p
    requires forall f <- fs :: !(f.action == SET && f.address == a)
    ensures var (replies, stored') := AnswerAll(stored, repeats, refused, fs);
            a in stored' && stored'[a] == p && OnlySays(replies, a, p)
    decreases |fs|
  {
    if fs != [] {
      AnswerKeeps(stored, repeats, refused, fs[0], a, p);
      AnswersKeep(Answer(stored, repeats, refused, fs[0]).1, repeats, refused, fs[1..], a, p);
    }
  }

  lemma NextKeepsSettled(fl: real -> real, w: World, step: Step, a: Address, p: Bytes)
    requires Settled(w, a, p) && Quiet(w, step, a)
    ensures Settled(Next(fl, w, step), a, p)
  {
    var w' := Next(fl, w, step);
    var fs := w'.sent[|w.sent|..];
    if step.CoolerReads? {
      var k := AtMost(step.n, w.up);
      AnswersKeep(w.cooler.stored, step.repeats, step.refused, Fed(w.cooler.inbox, w.up[..k]).1, a, p);
    }
    assert w'.sent == w.sent + fs && OnlySays(fs, a, p);
    AnnouncedConcat(map[], w.sent, fs);
    AnnouncedKeeps(Announced(map[], w.sent), fs, a, p);
  }

  lemma {:induction false} RunKeepsSettled(fl: real -> real, w: World, steps: seq<Step>, a: Address, p: Bytes)
    requires Settled(w, a, p) && AllQuiet(fl, w, steps, a)
    ensures Settled(Run(fl, w, steps), a, p)
    decreases |steps|
  {
    if steps != [] {
      NextKeepsSettled(fl, w, steps[0], a, p);
      RunKeepsSettled(fl, Next(fl, w, steps[0]), steps[1..], a, p);
    }
  }

  lemma {:induction false} RunConcat(fl: real -> real, w: World, x: seq<Step>, y: seq<Step>)
    ensures Run(fl, w, x + y) == Run(fl, Run(fl, w, x), y)
    decreases |x|
  {
    if x == [] {
      assert x + y == y;
    } else {
      assert (x + y)[1..] == x[1..] + y;
      RunConcat(fl, Next(fl, w, x[0]), x[1..], y);
    }
  }

  /** A client that holds `p` for `a`, and its reading for the topic there. */
  predicate HoldsFor(fl: real -> real, cache: Cache, a: Address, p: Bytes) {
    && a in cache.raw && cache.raw[a] == p
    && forall t: Topic :: AddressOf(t) == a ==> t in cache.values && cache.values[t] == ValueOf(fl, t, p)
  }

  lemma SettledArrives(fl: real -> real, steps: seq<Step>, after: seq<Step>, a: Address, p: Bytes)
    requires Settled(Run(fl, START, steps), a, p) && AllQuiet(fl, Run(fl, START, steps), after, a)
    requires Run(fl, START, steps + after).down == []
    ensures HoldsFor(fl, Run(fl, START, steps + after).client.cache, a, p)
  {
    RunConcat(fl, START, steps, after);
    RunKeepsSettled(fl, Run(fl, START, steps), after, a, p);
    ClientFollowsCooler(fl, steps + after);
    var cache := Run(fl, START, steps + after).client.cache;
    forall t: Topic | AddressOf(t) == a ensures t in cache.values && cache.values[t] == ValueOf(fl, t, p) {
      assert ConsistentAt(fl, cache, t);
    }
  }

  /** However often the old value is repeated first: once the cooler has announced the payload
      it stores for `a`, and nothing writes `a` again, a client that has read everything holds
      that payload, and its reading if `a` is a topic. */
  lemma NewValueArrives(fl: real -> real, before: seq<Step>, a: Address, after: seq<Step>)
    requires a in Run(fl, START, before).cooler.stored
    requires AllQuiet(fl, Run(fl, START, before + [CoolerAnnounces(a)]), after, a)
    requires Run(fl, START, before + [CoolerAnnounces(a)] + after).down == []
    ensures HoldsFor(fl, Run(fl, START, before + [CoolerAnnounces(a)] + after).client.cache, a,
                     Run(fl, START, before).cooler.stored[a])
  {
    var w, p := Run(fl, START, before), Run(fl, START, before).cooler.stored[a];
    RunConcat(fl, START, before, [CoolerAnnounces(a)]);
    var said := [Frame(PUBLISH, a, p)];
    assert Run(fl, w, [CoolerAnnounces(a)]) == Say(w, said);
    AnnouncedConcat(map[], w.sent, said);
    SettledArrives(fl, before + [CoolerAnnounces(a)], after, a, p);
  }

  lemma {:induction false} SubscriptionIsAnswered(stored: map<Address, Bytes>, repeats: nat, refused: set<Address>,
                                                  fs: seq<Frame>, f: Frame)
    requires f in fs && f.action == SUBSCRIBE && f.address in stored
    requires forall g <- fs :: !(g.action == SET && g.address == f.address)
    ensures Frame(PUBLISH, f.address, stored[f.address]) in AnswerAll(stored, repeats, refused, fs).0
    decreases |fs|
  {
    if f != fs[0] {
      AnswerKeeps(stored, repeats, refused, fs[0], f.address, stored[f.address]);
      SubscriptionIsAnswered(Answer(stored, repeats, refused, fs[0]).1, repeats, refused, fs[1..], f);
    }
  }

  lemma {:induction false} AnnouncedHas(m: map<Address, Bytes>, fs: seq<Frame>, a: Address, p: Bytes)
    requires OnlySays(fs, a, p) && Frame(PUBLISH, a, p) in fs
    ensures a in Announced(m, fs) && Announced(m, fs)[a] == p
    decreases |fs|
  {
    var m' := if fs[0].action == PUBLISH then m[fs[0].address := fs[0].payload] else m;
    if fs[0] == Frame(PUBLISH, a, p) {
      AnnouncedKeeps(m', fs[1..], a, p);
    } else {
      AnnouncedHas(m', fs[1..], a, p);
    }
  }

  lemma SubscriptionSettles(fl: real -> real, w: World, n: nat, repeats: nat, refused: set<Address>, f: Frame)
    requires f in Taken(w, n) && f.action == SUBSCRIBE && f.address in w.cooler.stored
    requires Quiet(w, CoolerReads(n, repeats, refused), f.address)
    ensures Settled(Next(fl, w, CoolerReads(n, repeats, refused)), f.address, w.cooler.stored[f.address])
  {
    var p := w.cooler.stored[f.address];
    var replies := AnswerAll(w.cooler.stored, repeats, refused, Taken(w, n)).0;
    SubscriptionIsAnswered(w.cooler.stored, repeats, refused, Taken(w, n), f);
    AnswersKeep(w.cooler.stored, repeats, refused, Taken(w, n), f.address, p);
    AnnouncedConcat(map[], w.sent, replies);
    AnnouncedHas(Announced(map[], w.sent), replies, f.address, p);
  }

  /** A subscription brings what is stored: once the cooler has read it, among whatever else that
      does not write there, and nothing writes there again, a client that has read everything
      holds the payload that was stored. */
  lemma SubscribedValueArrives(fl: real -> real, before: seq<Step>, n: nat, repeats: nat, refused: set<Address>,
                               f: Frame, after: seq<Step>)
    requires var w := Run(fl, START, before);
             && f in Taken(w, n) && f.action == 0x12 && f.address in w.cooler.stored
             && Quiet(w, CoolerReads(n, repeats, refused), f.address)
    requires var steps := before + [CoolerReads(n, repeats, refused)];
             AllQuiet(fl, Run(fl, START, steps), after, f.address) && Run(fl, START, steps + after).down == []
    ensures HoldsFor(fl, Run(fl, START, before + [CoolerReads(n, repeats, refused)] + after).client.cache, f.address,
                     Run(fl, START, before).cooler.stored[f.address])
  {
    var w, step := Run(fl, START, before), CoolerReads(n, repeats, refused);
    RunConcat(fl, START, before, [step]);
    assert Run(fl, w, [step]) == Next(fl, w, step);
    SubscriptionSettles(fl, w, n, repeats, refused, f);
    SettledArrives(fl, before + [step], after, f.address, w.cooler.stored[f.address]);
  }
}
