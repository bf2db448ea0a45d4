/** The asyncio client and a cooler, joined by the two byte channels: what the one is told is what
    the other published. */
module ClientsAndCoolers {
  import opened Common
  import opened Frames
  import opened LineStream
  import opened Floats
  import opened Codecs
  import opened Topics
  import opened Sessions
  import opened Writes
  import A = AsyncClients
  import L = Links
  import N = Answers

  /** The client, and the world of its session, the cooler and the channels. */
  datatype Joint = Joint(client: A.Client, world: L.World)

  datatype Step =
    | ClientDoes(own: A.Step)
    | ClientSubscribes(topic: Topic)
    | ClientReads(n: nat)
    | CoolerDoes(step: L.Step)

  const JOINED := Joint(A.CONNECTED, L.START)

  function SendAll(fl: real -> real, w: L.World, fs: seq<Frame>): L.World
    decreases |fs|
  {
    if fs == [] then w else SendAll(fl, L.Next(fl, w, L.ClientSends(fs[0])), fs[1..])
  }

  predicate ByCooler(step: L.Step) {
    step.CoolerReads? || step.CoolerAnnounces? || step.CoolerChanges? || step.CoolerSays?
  }

  /** The client's own step that a joint step is, if any: it reads only what is in flight. */
  function ClientStep(j: Joint, step: Step): seq<A.Step> {
    match step
    case ClientDoes(s) => if s.ReaderGets? then [] else [s]
    case ClientReads(n) =>
      var k := L.AtMost(n, j.world.down);
      if j.client.reader == A.Reading && !j.client.cancelled && k > 0 then [A.ReaderGets(j.world.down[..k])] else []
    case _ => []
  }

  function WorldNext(fl: real -> real, j: Joint, step: Step): L.World {
    match step
    case ClientDoes(s) => SendAll(fl, j.world, A.FrameOf(fl, j.client, s))
    case ClientSubscribes(t) =>
      if j.client.closed then j.world
      else L.Next(fl, j.world, L.ClientSends(Frame(SUBSCRIBE, AddressOf(t), [])))
    case ClientReads(n) => if ClientStep(j, step) == [] then j.world else L.Next(fl, j.world, L.ClientReads(n))
    case CoolerDoes(s) => if ByCooler(s) then L.Next(fl, j.world, s) else j.world
  }

  function Next(fl: real -> real, j: Joint, step: Step): Joint {
    Joint(A.Run(fl, j.client, ClientStep(j, step)), WorldNext(fl, j, step))
  }

  function Run(fl: real -> real, j: Joint, steps: seq<Step>): Joint
    decreases |steps|
  {
    if steps == [] then j else Run(fl, Next(fl, j, steps[0]), steps[1..])
  }

  // ---- the two stay together

  ghost predicate Inv(fl: real -> real, j: Joint) {
    && A.Inv(fl, j.client) && L.Inv(fl, j.world)
    && j.client.session == j.world.client && j.client.log == EventsOf(fl, j.world.heard)
  }

  lemma {:induction false} SendAllKeeps(fl: real -> real, w: L.World, fs: seq<Frame>)
    requires L.Inv(fl, w)
    ensures var d := SendAll(fl, w, fs);
            L.Inv(fl, d) && d.client == w.client && d.heard == w.heard && d.asked == w.asked + fs
    decreases |fs|
  {
    if fs == [] {
      Unit(w.asked);
    } else {
      L.NextKeepsInv(fl, w, L.ClientSends(fs[0]));
      SendAllKeeps(fl, L.Next(fl, w, L.ClientSends(fs[0])), fs[1..]);
      Assoc(w.asked, [fs[0]], fs[1..]);
      assert fs == [fs[0]] + fs[1..];
    }
  }

  lemma EventsOfConcat(fl: real -> real, x: seq<Frame>, y: seq<Frame>)
    ensures EventsOf(fl, x + y) == EventsOf(fl, x) + EventsOf(fl, y)
  {
  }

  lemma RunOfOne(fl: real -> real, c: A.Client, step: A.Step)
    ensures A.Run(fl, c, [step]) == A.Next(fl, c, step) && A.Run(fl, c, []) == c
  {
    A.RunFirst(fl, c, step, []);
    Unit([step]);
  }

  lemma ReadingKeeps(fl: real -> real, j: Joint, n: nat)
    requires Inv(fl, j) && ClientStep(j, ClientReads(n)) != []
    ensures Inv(fl, Next(fl, j, ClientReads(n)))
  {
    var data := j.world.down[..L.AtMost(n, j.world.down)];
    RunOfOne(fl, j.client, A.ReaderGets(data));
    A.NextKeepsInv(fl, j.client, A.ReaderGets(data));
    A.NextLogs(fl, j.client, A.ReaderGets(data));
    L.NextKeepsInv(fl, j.world, L.ClientReads(n));
    EventsOfConcat(fl, j.world.heard, Fed(j.world.client.decoder, data).1);
  }

  lemma ActingKeeps(fl: real -> real, j: Joint, s: A.Step)
    requires Inv(fl, j) && !s.ReaderGets?
    ensures Inv(fl, Next(fl, j, ClientDoes(s)))
  {
    RunOfOne(fl, j.client, s);
    A.NextKeepsInv(fl, j.client, s);
    SendAllKeeps(fl, j.world, A.FrameOf(fl, j.client, s));
    QuietSteps(fl, j.client, s);
  }

  lemma QuietSteps(fl: real -> real, c: A.Client, s: A.Step)
    requires !s.ReaderGets?
    ensures A.Next(fl, c, s).session == c.session && A.Next(fl, c, s).log == c.log
  {
  }

  lemma CoolerLeavesTheClient(fl: real -> real, w: L.World, s: L.Step)
    requires ByCooler(s)
    ensures L.Next(fl, w, s).client == w.client && L.Next(fl, w, s).heard == w.heard
  {
  }

  lemma NextKeepsInv(fl: real -> real, j: Joint, step: Step)
    requires Inv(fl, j)
    ensures Inv(fl, Next(fl, j, step))
  {
    if ClientStep(j, step) == [] {
      RunOfOne(fl, j.client, A.CloseBegins);
    }
    match step
    case ClientDoes(s) =>
      if !s.ReaderGets? {
        ActingKeeps(fl, j, s);
      }
    case ClientSubscribes(t) => L.NextKeepsInv(fl, j.world, L.ClientSends(Frame(SUBSCRIBE, AddressOf(t), [])));
    case ClientReads(n) =>
      if ClientStep(j, step) != [] {
        ReadingKeeps(fl, j, n);
      }
    case CoolerDoes(s) =>
      if ByCooler(s) {
        L.NextKeepsInv(fl, j.world, s);
        CoolerLeavesTheClient(fl, j.world, s);
      }
  }

  lemma {:induction false} RunKeepsInv(fl: real -> real, j: Joint, steps: seq<Step>)
    requires Inv(fl, j)
    ensures Inv(fl, Run(fl, j, steps))
    decreases |steps|
  {
    if steps != [] {
      NextKeepsInv(fl, j, steps[0]);
      RunKeepsInv(fl, Next(fl, j, steps[0]), steps[1..]);
    }
  }

  lemma JoinedIsOk(fl: real -> real)
    ensures Inv(fl, JOINED)
  {
    A.ConnectedIsOk(fl);
    L.StartIsInv(fl);
    assert EventsOf(fl, []) == [];
  }

  // ---- the client's part of a run is a run of the client

  function ClientSteps(fl: real -> real, j: Joint, steps: seq<Step>): seq<A.Step>
    decreases |steps|
  {
    if steps == [] then [] else ClientStep(j, steps[0]) + ClientSteps(fl, Next(fl, j, steps[0]), steps[1..])
  }

  lemma {:induction false} RunConcat(fl: real -> real, c: A.Client, x: seq<A.Step>, y: seq<A.Step>)
    ensures A.Run(fl, c, x + y) == A.Run(fl, A.Run(fl, c, x), y)
    decreases |x|
  {
    if x == [] {
      Unit(y);
    } else {
      assert (x + y)[1..] == x[1..] + y;
      RunConcat(fl, A.Next(fl, c, x[0]), x[1..], y);
    }
  }

  lemma {:induction false} ClientRuns(fl: real -> real, j: Joint, steps: seq<Step>)
    ensures Run(fl, j, steps).client == A.Run(fl, j.client, ClientSteps(fl, j, steps))
    decreases |steps|
  {
    if steps != [] {
      ClientRuns(fl, Next(fl, j, steps[0]), steps[1..]);
      RunConcat(fl, j.client, ClientStep(j, steps[0]), ClientSteps(fl, Next(fl, j, steps[0]), steps[1..]));
    }
  }

  predicate NeverAbandoned(steps: seq<Step>, id: nat) {
    forall i :: 0 <= i < |steps| ==> steps[i].ClientDoes? ==> !A.Abandons(steps[i].own, id)
  }

  lemma {:induction false} ClientNeverAbandons(fl: real -> real, j: Joint, steps: seq<Step>, id: nat)
    requires NeverAbandoned(steps, id)
    ensures A.NeverAbandoned(ClientSteps(fl, j, steps), id)
    decreases |steps|
  {
    if steps != [] {
      ClientNeverAbandons(fl, Next(fl, j, steps[0]), steps[1..], id);
    }
  }

  // ---- what the client is told is what the cooler sent

  /** In every joint run the client's session has heard a prefix of what the cooler sent, and its
      cache, the decoder's leftover and the bytes in flight make what the cooler published last;
      its events are those of what it has heard. */
  lemma ClientAndCoolerAgree(fl: real -> real, steps: seq<Step>)
    ensures var j := Run(fl, JOINED, steps);
            && j.client.session == j.world.client && j.world.heard <= j.world.sent
            && j.client.log == EventsOf(fl, j.world.heard)
            && L.Announced(j.client.session.cache.raw, Fed(j.client.session.decoder, j.world.down).1) ==
                 L.Announced(map[], j.world.sent)
  {
    JoinedIsOk(fl);
    RunKeepsInv(fl, JOINED, steps);
    L.HeardOfSent(fl, Run(fl, JOINED, steps).world);
  }

  /** In every joint run: a value that a call returns was published by the cooler, at the topic's
      address and within the tolerance, and a rejected call was refused by the cooler there. */
  lemma AnswersComeFromTheCooler(fl: real -> real, steps: seq<Step>, id: nat)
    requires id < |Run(fl, JOINED, steps).client.calls|
    ensures var j := Run(fl, JOINED, steps);
            var call := j.client.calls[id];
            && (forall v :: call.phase == A.Returned(A.Confirmed(v)) ==>
                  && call.decided < |j.world.sent|
                  && var f := j.world.sent[call.decided];
                     && f.action == PUBLISH && f.address == AddressOf(call.expectation.topic)
                     && v == ValueOf(fl, call.expectation.topic, f.payload)
                     && Close(fl, v, call.expectation.expected, call.expectation.tolerance))
            && (call.phase == A.Returned(A.WriteRejected) ==>
                  && call.decided < |j.world.sent|
                  && var f := j.world.sent[call.decided];
                     f.action == NAK && f.address == AddressOf(call.expectation.topic))
  {
    JoinedIsOk(fl);
    RunKeepsInv(fl, JOINED, steps);
    var j := Run(fl, JOINED, steps);
    var call := j.client.calls[id];
    L.HeardOfSent(fl, j.world);
    if call.phase.Returned? {
      A.AnswerIsTrueNow(fl, j.client, id);
      if call.phase.outcome.Confirmed? || call.phase.outcome == A.WriteRejected {
        assert j.world.sent[call.decided] == j.world.heard[call.decided];
        TopicAtIff(AddressOf(call.expectation.topic), call.expectation.topic);
      }
    }
  }

  // ---- a set-point, from the client to the cooler and back

  /** Between two states of a joint run the client hears the frames that the world counts as
      heard. */
  lemma HeardInBetween(fl: real -> real, j: Joint, steps: seq<Step>)
    requires Inv(fl, j)
    ensures var d := Run(fl, j, steps);
            && j.world.heard <= d.world.heard
            && d.client.log == j.client.log + EventsOf(fl, d.world.heard[|j.world.heard|..])
  {
    var d := Run(fl, j, steps);
    RunKeepsInv(fl, j, steps);
    HeardGrows(fl, j, steps);
    EventsOfSuffix(fl, j.world.heard, d.world.heard);
  }

  lemma EventsOfSuffix(fl: real -> real, x: seq<Frame>, y: seq<Frame>)
    requires x <= y
    ensures EventsOf(fl, y) == EventsOf(fl, x) + EventsOf(fl, y[|x|..])
  {
    assert y == x + y[|x|..];
    EventsOfConcat(fl, x, y[|x|..]);
  }

  lemma {:induction false} SendAllHearsNothing(fl: real -> real, w: L.World, fs: seq<Frame>)
    ensures SendAll(fl, w, fs).heard == w.heard
    decreases |fs|
  {
    if fs != [] {
      SendAllHearsNothing(fl, L.Next(fl, w, L.ClientSends(fs[0])), fs[1..]);
    }
  }

  lemma WorldHearsMore(fl: real -> real, w: L.World, s: L.Step)
    ensures w.heard <= L.Next(fl, w, s).heard
  {
  }

  lemma {:induction false} HeardGrows(fl: real -> real, j: Joint, steps: seq<Step>)
    ensures j.world.heard <= Run(fl, j, steps).world.heard
    decreases |steps|
  {
    if steps != [] {
      match steps[0] {
        case ClientDoes(s) => SendAllHearsNothing(fl, j.world, A.FrameOf(fl, j.client, s));
        case ClientSubscribes(t) => WorldHearsMore(fl, j.world, L.ClientSends(Frame(SUBSCRIBE, AddressOf(t), [])));
        case ClientReads(n) => WorldHearsMore(fl, j.world, L.ClientReads(n));
        case CoolerDoes(s) => WorldHearsMore(fl, j.world, s);
      }
      HeardGrows(fl, Next(fl, j, steps[0]), steps[1..]);
    }
  }

  function Begun(fl: real -> real, j: Joint, ref: TopicRef, v: Value, compartment: Option<int>): Joint {
    Next(fl, j, ClientDoes(A.SetBegins(ref, v, compartment)))
  }

  lemma BegunIs(fl: real -> real, j: Joint, ref: TopicRef, v: Value, compartment: Option<int>, frame: Frame,
                e: Expectation)
    requires Inv(fl, j) && !j.client.closed
    requires SetFrame(fl, j.client.session.cache.values, ref, v, compartment) == Ok((frame, e))
    ensures var b := Begun(fl, j, ref, v, compartment);
            && Inv(fl, b) && b.client == A.Register(j.client, frame, e)
            && b.world.asked == j.world.asked + [frame] && b.world.heard == j.world.heard
  {
    NextKeepsInv(fl, j, ClientDoes(A.SetBegins(ref, v, compartment)));
    BeginningRegisters(fl, j.client, ref, v, compartment, frame, e);
    SendAllKeeps(fl, j.world, [frame]);
  }

  lemma BeginningRegisters(fl: real -> real, c: A.Client, ref: TopicRef, v: Value, compartment: Option<int>,
                           frame: Frame, e: Expectation)
    requires SetFrame(fl, c.session.cache.values, ref, v, compartment) == Ok((frame, e)) && !c.closed
    ensures A.Run(fl, c, [A.SetBegins(ref, v, compartment)]) == A.Register(c, frame, e)
    ensures A.FrameOf(fl, c, A.SetBegins(ref, v, compartment)) == [frame]
  {
    RunOfOne(fl, c, A.SetBegins(ref, v, compartment));
  }

  /** The call has registered with its expectation, and its future waits. */
  predicate Waits(c: A.Client, id: nat, e: Expectation) {
    A.Registered(c, id) && c.calls[id].fut == A.Waiting && c.calls[id].expectation == e
  }

  /** A waiting call whose confirmation the client has come to hear holds the value published. */
  lemma {:induction false} HeardConfirmationAnswers(fl: real -> real, b: Joint, steps: seq<Step>, id: nat,
                                                    e: Expectation, k: nat)
    requires Inv(fl, b) && Waits(b.client, id, e) && NeverAbandoned(steps, id)
    requires b.world.heard <= Run(fl, b, steps).world.heard
    requires N.FirstToDecide(fl, e, EventsOf(fl, Run(fl, b, steps).world.heard[|b.world.heard|..]), k, true)
    ensures var evs, d := EventsOf(fl, Run(fl, b, steps).world.heard[|b.world.heard|..]), Run(fl, b, steps).client;
            && evs[k].Published? && id < |d.calls| && d.calls[id].fut == A.Result(evs[k].value)
            && (A.Registered(d, id) || A.In(d, id, A.Returned(A.Confirmed(evs[k].value))))
  {
    var d := Run(fl, b, steps);
    var mine := ClientSteps(fl, b, steps);
    RunKeepsInv(fl, b, steps);
    HeardInBetween(fl, b, steps);
    ClientRuns(fl, b, steps);
    ClientNeverAbandons(fl, b, steps, id);
    A.FuturesSettleOnce(fl, b.client, mine);
    A.StaysOnItsWay(fl, b.client, mine, id);
    N.AnsweredInLog(fl, b.client, d.client, id, EventsOf(fl, d.world.heard[|b.world.heard|..]), k, true);
  }

  /** Since the client had heard what it had in the world `w`, the cooler has sent the payload
      `was` for `a` any number of times and then, as frame `k`, the payload `now`, and the client
      has read that far. */
  predicate ReadSoFar(w: L.World, d: L.World, k: nat, a: Address, was: Bytes, now: Bytes) {
    |w.heard| + k < |d.heard| <= |d.sent| && N.OldThenNew(d.sent[|w.heard|..], k, a, was, now)
  }

  lemma SameStart(heard: seq<Frame>, sent: seq<Frame>, from: nat, k: nat, a: Address, was: Bytes, now: Bytes)
    requires heard <= sent && from + k < |heard| && N.OldThenNew(sent[from..], k, a, was, now)
    ensures N.OldThenNew(heard[from..], k, a, was, now)
  {
    assert forall i :: 0 <= i <= k ==> heard[from..][i] == sent[from..][i];
  }

  /** A waiting call for which the cooler has sent an old payload, that does not confirm it, any
      number of times and then one that does: once the client has read that far, in chunks of any
      size, the call has returned that one's value, or has yet to run. */
  lemma {:induction false} WaitingWriteIsAnswered(fl: real -> real, b: Joint, steps: seq<Step>, id: nat,
                                                  e: Expectation, k: nat, was: Bytes, now: Bytes)
    requires Inv(fl, b) && Waits(b.client, id, e) && NeverAbandoned(steps, id)
    requires Verdict(fl, e, EchoOf(fl, e.topic, was)) == None
    requires Verdict(fl, e, EchoOf(fl, e.topic, now)) == Some(true)
    requires ReadSoFar(b.world, Run(fl, b, steps).world, k, AddressOf(e.topic), was, now)
    ensures Settles(Run(fl, b, steps).client, id, ValueOf(fl, e.topic, now))
  {
    var d := Run(fl, b, steps);
    RunKeepsInv(fl, b, steps);
    HeardGrows(fl, b, steps);
    L.HeardOfSent(fl, d.world);
    SameStart(d.world.heard, d.world.sent, |b.world.heard|, k, AddressOf(e.topic), was, now);
    N.NewDecides(fl, e, d.world.heard[|b.world.heard|..], k, was, now);
    HeardConfirmationAnswers(fl, b, steps, id, e, k);
  }

  /** The call holds this value, and has returned it or has yet to run. */
  predicate Settles(c: A.Client, id: nat, v: Value) {
    && id < |c.calls| && c.calls[id].fut == A.Result(v)
    && (A.Registered(c, id) || A.In(c, id, A.Returned(A.Confirmed(v))))
  }

  // ---- what the cooler sends while it serves a write

  /** The step serves every SET of `a`, and leaves there no payload but one of `news`. */
  predicate Honest(w: L.World, s: L.Step, a: Address, news: set<Bytes>) {
    match s
    case CoolerReads(n, _, refused) => a !in refused && SetsOnly(L.Taken(w, n), a, news)
    case CoolerChanges(b, p) => b == a ==> p in news
    case CoolerSays(f) => !(f.action == NAK && f.address == a)
    case _ => true
  }

  predicate SetsOnly(fs: seq<Frame>, a: Address, news: set<Bytes>) {
    forall f <- fs :: f.action == SET && f.address == a ==> f.payload in news
  }

  predicate AllHonest(fl: real -> real, j: Joint, steps: seq<Step>, a: Address, news: set<Bytes>)
    decreases |steps|
  {
    steps != [] ==>
      && (steps[0].CoolerDoes? ==> Honest(j.world, steps[0].step, a, news))
      && AllHonest(fl, Next(fl, j, steps[0]), steps[1..], a, news)
  }

  /** The frame says nothing of `a`, or publishes one of `news` for it. */
  predicate IsNew(f: Frame, a: Address, news: set<Bytes>) {
    f.action in {PUBLISH, NAK} && f.address == a ==> f.action == PUBLISH && f.payload in news
  }

  /** Of the frames sent, the first `m` say of `a` nothing but `was`, and the others nothing but
      new payloads; the cooler stores a new one, or is not that far yet. */
  predicate Turning(stored: map<Address, Bytes>, fs: seq<Frame>, m: nat, a: Address, was: Bytes, news: set<Bytes>) {
    && m <= |fs| && a in stored
    && (stored[a] in news || (stored[a] == was && m == |fs|))
    && (forall i :: 0 <= i < m ==> N.AsBefore(fs[i], a, was))
    && (forall i :: m <= i < |fs| ==> IsNew(fs[i], a, news))
  }

  predicate AllAsBefore(fs: seq<Frame>, a: Address, p: Bytes) {
    forall i :: 0 <= i < |fs| ==> N.AsBefore(fs[i], a, p)
  }

  /** Where the new payloads begin once `more` frames are sent. */
  function Turn(stored: map<Address, Bytes>, fs: seq<Frame>, m: nat, more: seq<Frame>, a: Address, news: set<Bytes>)
    : nat
    requires a in stored
  {
    if stored[a] in news then m else |fs| + |more|
  }

  lemma MoreFrames(stored: map<Address, Bytes>, fs: seq<Frame>, m: nat, more: seq<Frame>, a: Address, was: Bytes,
                   news: set<Bytes>)
    requires Turning(stored, fs, m, a, was, news) && AllAsBefore(more, a, stored[a])
    ensures Turning(stored, fs + more, Turn(stored, fs, m, more, a, news), a, was, news)
  {
    var m' := Turn(stored, fs, m, more, a, news);
    forall i | 0 <= i < |fs + more|
      ensures i < m' ==> N.AsBefore((fs + more)[i], a, was)
      ensures m' <= i ==> IsNew((fs + more)[i], a, news)
    {
      if i >= |fs| {
        assert N.AsBefore(more[i - |fs|], a, stored[a]);
      }
    }
  }

  lemma AnswerIsAsBefore(stored: map<Address, Bytes>, repeats: nat, refused: set<Address>, f: Frame, a: Address)
    requires a in stored && a !in refused
    ensures AllAsBefore(L.Answer(stored, repeats, refused, f).0, a, stored[a])
    ensures var after := L.Answer(stored, repeats, refused, f).1;
            a in after && after[a] == if f.action == SET && f.address == a then f.payload else stored[a]
  {
    if f.address in stored {
      var current := Frame(PUBLISH, f.address, stored[f.address]);
      TimesAre(repeats, current);
      var replies := L.Answer(stored, repeats, refused, f).0;
      forall i | 0 <= i < |replies| ensures N.AsBefore(replies[i], a, stored[a]) {
        assert replies[i] in replies;
      }
    }
  }

  lemma AnswerTurns(stored: map<Address, Bytes>, fs: seq<Frame>, m: nat, repeats: nat, refused: set<Address>, f: Frame,
                    a: Address, was: Bytes, news: set<Bytes>)
    requires Turning(stored, fs, m, a, was, news) && a !in refused && SetsOnly([f], a, news)
    ensures var (replies, after) := L.Answer(stored, repeats, refused, f);
            Turning(after, fs + replies, Turn(stored, fs, m, replies, a, news), a, was, news)
  {
    AnswerIsAsBefore(stored, repeats, refused, f, a);
    MoreFrames(stored, fs, m, L.Answer(stored, repeats, refused, f).0, a, was, news);
    assert f in [f];
  }

  predicate Sets(fs: seq<Frame>, a: Address) {
    exists i :: 0 <= i < |fs| && fs[i].action == SET && fs[i].address == a
  }

  lemma {:induction false} AnswersTurn(stored: map<Address, Bytes>, fs: seq<Frame>, m: nat, repeats: nat,
                                       refused: set<Address>, asked: seq<Frame>, a: Address, was: Bytes,
                                       news: set<Bytes>)
    returns (m': nat)
    requires Turning(stored, fs, m, a, was, news) && a !in refused && SetsOnly(asked, a, news)
    ensures var (replies, after) := L.AnswerAll(stored, repeats, refused, asked);
            && Turning(after, fs + replies, m', a, was, news)
            && (stored[a] in news ==> m' == m && after[a] in news)
            && (Sets(asked, a) ==> after[a] in news)
    decreases |asked|
  {
    if asked == [] {
      Unit(fs);
      return m;
    }
    var (replies, after) := L.Answer(stored, repeats, refused, asked[0]);
    assert asked[0] in asked;
    AnswerTurns(stored, fs, m, repeats, refused, asked[0], a, was, news);
    AnswerIsAsBefore(stored, repeats, refused, asked[0], a);
    m' := AnswersTurn(after, fs + replies, Turn(stored, fs, m, replies, a, news), repeats, refused, asked[1..], a, was,
                      news);
    Assoc(fs, replies, L.AnswerAll(after, repeats, refused, asked[1..]).0);
    if i :| 0 <= i < |asked| && asked[i].action == SET && asked[i].address == a && i > 0 {
      assert asked[1..][i - 1] == asked[i];
    }
  }

  /** What the world has done about `a` since `from` frames had been sent and `upto` served. */
  predicate Serving(w: L.World, from: nat, upto: nat, m: nat, a: Address, was: Bytes, news: set<Bytes>) {
    && from <= |w.sent| && upto <= |w.served|
    && Turning(w.cooler.stored, w.sent[from..], m, a, was, news)
    && (Sets(w.served[upto..], a) ==> w.cooler.stored[a] in news)
  }

  lemma CoolerServes(fl: real -> real, w: L.World, s: L.Step, from: nat, upto: nat, m: nat, a: Address, was: Bytes,
                     news: set<Bytes>)
    returns (m': nat)
    requires Serving(w, from, upto, m, a, was, news) && ByCooler(s) && Honest(w, s, a, news)
    ensures Serving(L.Next(fl, w, s), from, upto, m', a, was, news)
    ensures w.cooler.stored[a] in news ==> m' == m && L.Next(fl, w, s).cooler.stored[a] in news
  {
    match s
    case CoolerReads(n, repeats, refused) =>
      ReadingIs(fl, w, n, repeats, refused);
      m' := ReadingServes(w, L.Next(fl, w, s), L.Taken(w, n), repeats, refused, from, upto, m, a, was, news);
    case CoolerAnnounces(b) =>
      if b in w.cooler.stored {
        m' := SayingServes(w, Frame(PUBLISH, b, w.cooler.stored[b]), from, upto, m, a, was, news);
      } else {
        m' := m;
      }
    case CoolerChanges(b, p) => m' := m;
    case CoolerSays(f) =>
      if f.action != PUBLISH {
        m' := SayingServes(w, f, from, upto, m, a, was, news);
      } else {
        m' := m;
      }
  }

  lemma ReadingIs(fl: real -> real, w: L.World, n: nat, repeats: nat, refused: set<Address>)
    ensures var d := L.Next(fl, w, L.CoolerReads(n, repeats, refused));
            var (replies, stored) := L.AnswerAll(w.cooler.stored, repeats, refused, L.Taken(w, n));
            d.sent == w.sent + replies && d.served == w.served + L.Taken(w, n) && d.cooler.stored == stored
  {
  }

  lemma ReadingServes(w: L.World, d: L.World, asked: seq<Frame>, repeats: nat, refused: set<Address>, from: nat,
                      upto: nat, m: nat, a: Address, was: Bytes, news: set<Bytes>)
    returns (m': nat)
    requires Serving(w, from, upto, m, a, was, news) && a !in refused && SetsOnly(asked, a, news)
    requires var (replies, stored) := L.AnswerAll(w.cooler.stored, repeats, refused, asked);
             d.sent == w.sent + replies && d.served == w.served + asked && d.cooler.stored == stored
    ensures Serving(d, from, upto, m', a, was, news)
    ensures w.cooler.stored[a] in news ==> m' == m && d.cooler.stored[a] in news
  {
    var replies := L.AnswerAll(w.cooler.stored, repeats, refused, asked).0;
    m' := AnswersTurn(w.cooler.stored, w.sent[from..], m, repeats, refused, asked, a, was, news);
    assert (w.sent + replies)[from..] == w.sent[from..] + replies;
    assert (w.served + asked)[upto..] == w.served[upto..] + asked;
    SetsInEither(w.served[upto..], asked, a);
  }

  lemma SayingServes(w: L.World, f: Frame, from: nat, upto: nat, m: nat, a: Address, was: Bytes, news: set<Bytes>)
    returns (m': nat)
    requires Serving(w, from, upto, m, a, was, news) && N.AsBefore(f, a, w.cooler.stored[a])
    ensures Serving(L.Say(w, [f]), from, upto, m', a, was, news)
    ensures w.cooler.stored[a] in news ==> m' == m
  {
    MoreFrames(w.cooler.stored, w.sent[from..], m, [f], a, was, news);
    m' := Turn(w.cooler.stored, w.sent[from..], m, [f], a, news);
    assert (w.sent + [f])[from..] == w.sent[from..] + [f];
  }

  lemma CoolerNext(fl: real -> real, j: Joint, s: L.Step)
    requires ByCooler(s)
    ensures Next(fl, j, CoolerDoes(s)).world == L.Next(fl, j.world, s)
  {
  }

  lemma SetsInEither(x: seq<Frame>, y: seq<Frame>, a: Address)
    ensures Sets(x + y, a) ==> Sets(x, a) || Sets(y, a)
  {
    if i :| 0 <= i < |x + y| && (x + y)[i].action == SET && (x + y)[i].address == a {
      if i >= |x| {
        assert y[i - |x|] == (x + y)[i];
      } else {
        assert x[i] == (x + y)[i];
      }
    }
  }

  lemma {:induction false} SendingServesNothing(fl: real -> real, w: L.World, fs: seq<Frame>)
    ensures var d := SendAll(fl, w, fs);
            d.sent == w.sent && d.served == w.served && d.cooler == w.cooler && w.asked <= d.asked
    decreases |fs|
  {
    if fs != [] {
      SendingServesNothing(fl, L.Next(fl, w, L.ClientSends(fs[0])), fs[1..]);
    }
  }

  /** A step that is not the cooler's leaves the cooler and what it has sent and served. */
  lemma OthersServeNothing(fl: real -> real, j: Joint, step: Step)
    requires step.CoolerDoes? ==> !ByCooler(step.step)
    ensures var w, d := j.world, Next(fl, j, step).world;
            d.sent == w.sent && d.served == w.served && d.cooler == w.cooler && w.asked <= d.asked
  {
    match step
    case ClientDoes(s) => SendingServesNothing(fl, j.world, A.FrameOf(fl, j.client, s));
    case _ =>
  }

  /** Nothing asked or sent is taken back. */
  predicate Grown(w: L.World, d: L.World) {
    w.asked <= d.asked && w.sent <= d.sent
  }

  lemma CoolerGrows(fl: real -> real, w: L.World, s: L.Step)
    requires ByCooler(s)
    ensures Grown(w, L.Next(fl, w, s))
  {
  }

  lemma NextGrows(fl: real -> real, j: Joint, step: Step)
    ensures Grown(j.world, Next(fl, j, step).world)
  {
    if step.CoolerDoes? && ByCooler(step.step) {
      CoolerGrows(fl, j.world, step.step);
    } else {
      OthersServeNothing(fl, j, step);
    }
  }

  lemma {:induction false} RunServes(fl: real -> real, j: Joint, steps: seq<Step>, from: nat, upto: nat, m: nat,
                                     a: Address, was: Bytes, news: set<Bytes>)
    returns (m': nat)
    requires Serving(j.world, from, upto, m, a, was, news) && AllHonest(fl, j, steps, a, news)
    ensures Serving(Run(fl, j, steps).world, from, upto, m', a, was, news)
    ensures j.world.cooler.stored[a] in news ==> m' == m
    ensures Grown(j.world, Run(fl, j, steps).world)
    decreases |steps|
  {
    m' := m;
    if steps != [] {
      var d := Next(fl, j, steps[0]);
      if steps[0].CoolerDoes? && ByCooler(steps[0].step) {
        m' := CoolerServes(fl, j.world, steps[0].step, from, upto, m, a, was, news);
        CoolerNext(fl, j, steps[0].step);
      } else {
        OthersServeNothing(fl, j, steps[0]);
      }
      NextGrows(fl, j, steps[0]);
      m' := RunServes(fl, d, steps[1..], from, upto, m', a, was, news);
    }
  }

  /** The first of the new frames that publishes a payload for `a`; frame `q` is one. */
  lemma FirstNew(fs: seq<Frame>, m: nat, q: nat, a: Address, was: Bytes, news: set<Bytes>)
    returns (k: nat)
    requires m <= q < |fs| && fs[q].action == PUBLISH && fs[q].address == a
    requires forall i :: 0 <= i < m ==> N.AsBefore(fs[i], a, was)
    requires forall i :: m <= i < |fs| ==> IsNew(fs[i], a, news)
    ensures k <= q && fs[k].payload in news && N.OldThenNew(fs, k, a, was, fs[k].payload)
    decreases q - m
  {
    if fs[m].address == a && fs[m].action in {PUBLISH, NAK} {
      assert IsNew(fs[m], a, news);
      k := m;
    } else {
      k := FirstNew(fs, m + 1, q, a, was, news);
    }
  }

  // ---- a write, from the client to the cooler and back

  /** The cooler stores `was` for `a`, and nothing else about `a` is on its way to the client. */
  predicate AtRest(w: L.World, a: Address, was: Bytes) {
    && a in w.cooler.stored && w.cooler.stored[a] == was && |w.heard| <= |w.sent|
    && AllAsBefore(w.sent[|w.heard|..], a, was)
  }

  /** Up to where `b` begins, nothing new about `a` has been sent. */
  lemma RestServes(w: L.World, a: Address, was: Bytes, news: set<Bytes>)
    requires AtRest(w, a, was)
    ensures Serving(w, |w.heard|, |w.served|, |w.sent| - |w.heard|, a, was, news)
  {
    assert w.served[|w.served|..] == [];
  }

  /** Once the cooler has read all it was asked, it has served the frame asked for last at `b`. */
  lemma FrameIsServed(fl: real -> real, b: Joint, d: Joint, upto: nat, frame: Frame)
    requires Inv(fl, d) && d.world.up == [] && b.world.asked <= d.world.asked
    requires b.world.asked != [] && b.world.asked[|b.world.asked| - 1] == frame && upto < |b.world.asked|
    requires frame.action == SET
    ensures upto <= |d.world.served| && Sets(d.world.served[upto..], frame.address)
  {
    L.FaithfulDrained(d.world.cooler.inbox, d.world.served, d.world.asked);
    var last := |b.world.asked| - 1;
    assert d.world.served[upto..][last - upto] == frame;
  }

  lemma {:induction false} RunOfConcat(fl: real -> real, j: Joint, x: seq<Step>, y: seq<Step>)
    ensures Run(fl, j, x + y) == Run(fl, Run(fl, j, x), y)
    decreases |x|
  {
    if x == [] {
      Unit(y);
    } else {
      assert (x + y)[1..] == x[1..] + y;
      RunOfConcat(fl, Next(fl, j, x[0]), x[1..], y);
    }
  }

  /** The state after the cooler announces what it stores for `a`. */
  function Announcing(fl: real -> real, j: Joint, a: Address): Joint {
    Next(fl, j, CoolerDoes(L.CoolerAnnounces(a)))
  }

  /** The state after the run `early`, an announcement of what the cooler stores for `a`, and the
      run `late`. */
  function AfterServing(fl: real -> real, b: Joint, early: seq<Step>, a: Address, late: seq<Step>): Joint {
    Run(fl, Announcing(fl, Run(fl, b, early), a), late)
  }

  /** From a write put on the wire to the new payload sent: the cooler reads all it is asked and
      then announces what it stores; the first payload it has sent that is not the old one is
      one of `news`, sent no later than that. */
  lemma {:induction false} CoolerSendsOldThenNew(fl: real -> real, b: Joint, early: seq<Step>, late: seq<Step>,
                                                 upto: nat, m: nat, frame: Frame, was: Bytes, news: set<Bytes>)
    returns (k: nat, now: Bytes)
    requires Inv(fl, b) && frame.action == SET && upto < |b.world.asked|
    requires b.world.asked[|b.world.asked| - 1] == frame
    requires Serving(b.world, |b.world.heard|, upto, m, frame.address, was, news)
    requires AllHonest(fl, b, early, frame.address, news)
    requires AllHonest(fl, Announcing(fl, Run(fl, b, early), frame.address), late, frame.address, news)
    requires Run(fl, b, early).world.up == []
    ensures var mid, d := Run(fl, b, early).world, AfterServing(fl, b, early, frame.address, late).world;
            && now in news && |b.world.heard| + k <= |mid.sent| && |b.world.heard| <= |d.sent|
            && N.OldThenNew(d.sent[|b.world.heard|..], k, frame.address, was, now)
  {
    var a, from, mid := frame.address, |b.world.heard|, Run(fl, b, early);
    RunKeepsInv(fl, b, early);
    var m1 := RunServes(fl, b, early, from, upto, m, a, was, news);
    FrameIsServed(fl, b, mid, upto, frame);
    k, now := AnnouncedIsSent(fl, mid, late, from, upto, m1, a, was, news);
  }

  lemma {:induction false} AnnouncedIsSent(fl: real -> real, mid: Joint, late: seq<Step>, from: nat, upto: nat, m: nat,
                                           a: Address, was: Bytes, news: set<Bytes>)
    returns (k: nat, now: Bytes)
    requires Serving(mid.world, from, upto, m, a, was, news) && mid.world.cooler.stored[a] in news
    requires AllHonest(fl, Announcing(fl, mid, a), late, a, news)
    ensures var d := Run(fl, Announcing(fl, mid, a), late).world;
            && now in news && from + k <= |mid.world.sent| && from <= |d.sent|
            && N.OldThenNew(d.sent[from..], k, a, was, now)
  {
    var said := Announcing(fl, mid, a);
    var m2 := CoolerServes(fl, mid.world, L.CoolerAnnounces(a), from, upto, m, a, was, news);
    CoolerNext(fl, mid, L.CoolerAnnounces(a));
    var m3 := RunServes(fl, said, late, from, upto, m2, a, was, news);
    var sent, q := Run(fl, said, late).world.sent, |mid.world.sent| - from;
    SaidIs(fl, mid, a);
    assert sent[from..][q] == said.world.sent[|mid.world.sent|];
    k := FirstNew(sent[from..], m3, q, a, was, news);
    now := sent[from..][k].payload;
  }

  lemma SaidIs(fl: real -> real, j: Joint, a: Address)
    requires a in j.world.cooler.stored
    ensures Announcing(fl, j, a).world.sent == j.world.sent + [Frame(PUBLISH, a, j.world.cooler.stored[a])]
  {
  }

  lemma RegisteredWaits(c: A.Client, frame: Frame, e: Expectation)
    requires !c.closed
    ensures Waits(A.Register(c, frame, e), |c.calls|, e)
  {
  }

  lemma BegunServes(fl: real -> real, j: Joint, ref: TopicRef, v: Value, compartment: Option<int>, frame: Frame,
                    e: Expectation, was: Bytes, news: set<Bytes>)
    requires Inv(fl, j) && !j.client.closed && AtRest(j.world, frame.address, was)
    requires SetFrame(fl, j.client.session.cache.values, ref, v, compartment) == Ok((frame, e))
    ensures |j.world.served| <= |j.world.asked|
    ensures Serving(Begun(fl, j, ref, v, compartment).world, |j.world.heard|, |j.world.served|,
                    |j.world.sent| - |j.world.heard|, frame.address, was, news)
  {
    RestServes(j.world, frame.address, was, news);
    OthersServeNothing(fl, j, ClientDoes(A.SetBegins(ref, v, compartment)));
  }

  predicate Confirms(fl: real -> real, e: Expectation, news: set<Bytes>) {
    forall p <- news :: Verdict(fl, e, EchoOf(fl, e.topic, p)) == Some(true)
  }

  /** From `b` on the cooler refuses no SET of `a` and stores there no other payload than one of
      `news`; it has read all it was asked when it announces what it stores; the client reads
      that far, and nothing else ends call `id`. Otherwise both do what they like. */
  predicate Serves(fl: real -> real, b: Joint, early: seq<Step>, a: Address, late: seq<Step>, news: set<Bytes>,
                   id: nat)
  {
    var mid := Run(fl, b, early);
    && AllHonest(fl, b, early, a, news) && AllHonest(fl, Announcing(fl, mid, a), late, a, news)
    && NeverAbandoned(early, id) && NeverAbandoned(late, id)
    && mid.world.up == [] && |mid.world.sent| < |AfterServing(fl, b, early, a, late).world.heard|
  }

  lemma {:induction false} AfterServingIsARun(fl: real -> real, b: Joint, early: seq<Step>, a: Address,
                                              late: seq<Step>, id: nat)
    returns (steps: seq<Step>)
    requires NeverAbandoned(early, id) && NeverAbandoned(late, id)
    ensures Run(fl, b, steps) == AfterServing(fl, b, early, a, late) && NeverAbandoned(steps, id)
  {
    var rest := [CoolerDoes(L.CoolerAnnounces(a))] + late;
    assert rest[1..] == late;
    RunOfConcat(fl, b, early, rest);
    steps := early + rest;
  }

  /** The whole way round, for any write and over every joint run. The cooler stores `was`, which
      does not confirm the write, and has nothing else to say of it; the call to `set` puts its
      frame on the wire, and the cooler serves it, storing the frame's payload or another one of
      `news`, of which each confirms the write. Once the client has read as far as the payload
      announced, in chunks of any size, the call has returned what one of `news` reads as, or has
      yet to run. */
  lemma {:induction false} WriteRoundTrip(fl: real -> real, j: Joint, ref: TopicRef, v: Value,
                                          compartment: Option<int>, frame: Frame, e: Expectation, was: Bytes,
                                          news: set<Bytes>, early: seq<Step>, late: seq<Step>)
    returns (now: Bytes)
    requires Inv(fl, j) && !j.client.closed && AtRest(j.world, frame.address, was)
    requires SetFrame(fl, j.client.session.cache.values, ref, v, compartment) == Ok((frame, e))
    requires Verdict(fl, e, EchoOf(fl, e.topic, was)) == None && frame.payload in news && Confirms(fl, e, news)
    requires Serves(fl, Begun(fl, j, ref, v, compartment), early, frame.address, late, news, |j.client.calls|)
    ensures Begun(fl, j, ref, v, compartment).world.asked == j.world.asked + [frame]
    ensures now in news
    ensures var d := AfterServing(fl, Begun(fl, j, ref, v, compartment), early, frame.address, late).client;
            Settles(d, |j.client.calls|, ValueOf(fl, e.topic, now))
  {
    var b := Begun(fl, j, ref, v, compartment);
    OnlyWritableTopicsAreSet(fl, j.client.session.cache.values, ref, v, compartment, frame, e);
    BegunIs(fl, j, ref, v, compartment, frame, e);
    BegunServes(fl, j, ref, v, compartment, frame, e, was, news);
    RegisteredWaits(j.client, frame, e);
    now := ServedWriteIsAnswered(fl, b, early, late, |j.world.served|, |j.world.sent| - |j.world.heard|, frame, was,
                                 news, e, |j.client.calls|);
  }

  lemma {:induction false} ServedWriteIsAnswered(fl: real -> real, b: Joint, early: seq<Step>, late: seq<Step>,
                                                 upto: nat, m: nat, frame: Frame, was: Bytes, news: set<Bytes>,
                                                 e: Expectation, id: nat)
    returns (now: Bytes)
    requires Inv(fl, b) && frame.action == SET && frame.address == AddressOf(e.topic) && upto < |b.world.asked|
    requires b.world.asked[|b.world.asked| - 1] == frame && Waits(b.client, id, e)
    requires Serving(b.world, |b.world.heard|, upto, m, frame.address, was, news)
    requires Verdict(fl, e, EchoOf(fl, e.topic, was)) == None && Confirms(fl, e, news)
    requires Serves(fl, b, early, frame.address, late, news, id)
    ensures now in news
    ensures Settles(AfterServing(fl, b, early, frame.address, late).client, id, ValueOf(fl, e.topic, now))
  {
    var k;
    k, now := CoolerSendsOldThenNew(fl, b, early, late, upto, m, frame, was, news);
    var steps := AfterServingIsARun(fl, b, early, frame.address, late, id);
    RunKeepsInv(fl, b, steps);
    L.HeardOfSent(fl, Run(fl, b, steps).world);
    WaitingWriteIsAnswered(fl, b, steps, id, e, k, was, now);
  }

  lemma PayloadConfirms(fl: real -> real, j: Joint, ref: TopicRef, v: Value, compartment: Option<int>, frame: Frame,
                        e: Expectation)
    requires IsRounding(fl) && Inv(fl, j)
    requires SetFrame(fl, j.client.session.cache.values, ref, v, compartment) == Ok((frame, e))
    ensures Confirms(fl, e, {frame.payload})
  {
    L.HeardOfSent(fl, j.world);
    ExactEchoConfirms(fl, j.client.session.cache, ref, v, compartment, frame, e);
  }

  /** So for each of the five topics, with a cooler that stores what it is sent: the call returns
      what that payload reads as, or has yet to run. */
  lemma {:induction false} ExactRoundTrip(fl: real -> real, j: Joint, ref: TopicRef, v: Value,
                                          compartment: Option<int>, frame: Frame, e: Expectation, was: Bytes,
                                          early: seq<Step>, late: seq<Step>)
    requires IsRounding(fl) && Inv(fl, j) && !j.client.closed && AtRest(j.world, frame.address, was)
    requires SetFrame(fl, j.client.session.cache.values, ref, v, compartment) == Ok((frame, e))
    requires Verdict(fl, e, EchoOf(fl, e.topic, was)) == None
    requires Serves(fl, Begun(fl, j, ref, v, compartment), early, frame.address, late, {frame.payload},
                    |j.client.calls|)
    ensures var d := AfterServing(fl, Begun(fl, j, ref, v, compartment), early, frame.address, late).client;
            Settles(d, |j.client.calls|, ValueOf(fl, e.topic, frame.payload))
  {
    PayloadConfirms(fl, j, ref, v, compartment, frame, e);
    var now := WriteRoundTrip(fl, j, ref, v, compartment, frame, e, was, {frame.payload}, early, late);
  }

  lemma {:induction false} ServedSetPoint(fl: real -> real, j: Joint, v: Value, idx: nat, frame: Frame,
                                          e: Expectation, was: Bytes, other: Bytes, early: seq<Step>,
                                          late: seq<Step>)
    requires Inv(fl, j) && !j.client.closed && AtRest(j.world, AddressOf(Csettemp), was)
    requires SetFrame(fl, j.client.session.cache.values, ByTopic(Csettemp), v, Some(idx)) == Ok((frame, e))
    requires e.topic == Csettemp && frame.address == AddressOf(Csettemp)
    requires Verdict(fl, e, EchoOf(fl, Csettemp, was)) == None && Confirms(fl, e, {frame.payload, other})
    requires Serves(fl, Begun(fl, j, ByTopic(Csettemp), v, Some(idx)), early, AddressOf(Csettemp), late,
                    {frame.payload, other}, |j.client.calls|)
    ensures Begun(fl, j, ByTopic(Csettemp), v, Some(idx)).world.asked == j.world.asked + [frame]
    ensures var b := Begun(fl, j, ByTopic(Csettemp), v, Some(idx));
            var d := AfterServing(fl, b, early, AddressOf(Csettemp), late).client;
            || Settles(d, |j.client.calls|, ValueOf(fl, Csettemp, other))
            || Settles(d, |j.client.calls|, ValueOf(fl, Csettemp, frame.payload))
  {
    var now := WriteRoundTrip(fl, j, ByTopic(Csettemp), v, Some(idx), frame, e, was, {frame.payload, other}, early,
                              late);
  }

  lemma ClientIsConsistent(fl: real -> real, j: Joint)
    requires Inv(fl, j)
    ensures Consistent(fl, j.client.session.cache)
  {
    L.HeardOfSent(fl, j.world);
  }

  lemma SetPointGoesToTheArray(fl: real -> real, values: map<Topic, Value>, v: Value, idx: nat)
    ensures SetFrame(fl, values, ByTopic(Csettemp), v, Some(idx)) == SetArray(fl, values, Csettemp, v, idx)
  {
  }

  lemma BothArraysConfirm(fl: real -> real, cache: Cache, v: Value, idx: nat, frame: Frame, e: Expectation,
                          stored: seq<int>)
    requires IsRounding(fl) && Consistent(fl, cache) && IsRoundingOf(stored, Int32s(frame.payload))
    requires SetFrame(fl, cache.values, ByTopic(Csettemp), v, Some(idx)) == Ok((frame, e))
    requires idx < |Units(cache, Csettemp)| && Float64(fl, v).Ok? && N.FarFromOld(fl, cache, v, idx)
    ensures e.topic == Csettemp && frame.address == AddressOf(Csettemp) && AddressOf(Csettemp) in cache.raw
    ensures Verdict(fl, e, EchoOf(fl, Csettemp, cache.raw[AddressOf(Csettemp)])) == None
    ensures Confirms(fl, e, {frame.payload, Pack(stored)})
    ensures ValueOf(fl, Csettemp, frame.payload) == List(MilliList(fl, Int32s(frame.payload)))
    ensures ValueOf(fl, Csettemp, Pack(stored)) == List(MilliList(fl, stored))
  {
    SetPointGoesToTheArray(fl, cache.values, v, idx);
    var sent := Int32s(frame.payload);
    SetPointFrame(fl, cache, v, idx, frame, e);
    WholeInt32s(frame.payload, |Units(cache, Csettemp)|);
    assert IsRoundingOf(sent, sent);
    N.SetPointVerdicts(fl, cache, v, idx, frame, e, stored);
    N.SetPointVerdicts(fl, cache, v, idx, frame, e, sent);
  }

  /** For a set-point far enough from the one published: from a cooler that stores the array it is
      sent, as it is or rounded to within half a tenth of a degree, the call returns one of these
      two arrays, or has yet to run. */
  lemma {:induction false} SetPointRoundTrip(fl: real -> real, j: Joint, v: Value, idx: nat, frame: Frame,
                                             e: Expectation, stored: seq<int>, early: seq<Step>, late: seq<Step>)
    requires IsRounding(fl) && Inv(fl, j) && !j.client.closed
    requires SetFrame(fl, j.client.session.cache.values, ByTopic(Csettemp), v, Some(idx)) == Ok((frame, e))
    requires idx < |Units(j.client.session.cache, Csettemp)| && Float64(fl, v).Ok?
    requires N.FarFromOld(fl, j.client.session.cache, v, idx) && IsRoundingOf(stored, Int32s(frame.payload))
    requires var raw := j.client.session.cache.raw;
             AddressOf(Csettemp) in raw && AtRest(j.world, AddressOf(Csettemp), raw[AddressOf(Csettemp)])
    requires Serves(fl, Begun(fl, j, ByTopic(Csettemp), v, Some(idx)), early, AddressOf(Csettemp), late,
                    {frame.payload, Pack(stored)}, |j.client.calls|)
    ensures Begun(fl, j, ByTopic(Csettemp), v, Some(idx)).world.asked == j.world.asked + [frame]
    ensures var b := Begun(fl, j, ByTopic(Csettemp), v, Some(idx));
            var d := AfterServing(fl, b, early, AddressOf(Csettemp), late).client;
            || Settles(d, |j.client.calls|, List(MilliList(fl, stored)))
            || Settles(d, |j.client.calls|, List(MilliList(fl, Int32s(frame.payload))))
  {
    ClientIsConsistent(fl, j);
    BothArraysConfirm(fl, j.client.session.cache, v, idx, frame, e, stored);
    ServedSetPoint(fl, j, v, idx, frame, e, j.client.session.cache.raw[AddressOf(Csettemp)], Pack(stored), early, late);
  }
}
