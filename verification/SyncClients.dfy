/** The threaded client: one calling thread and its reader thread, as steps from one access to
    shared state to the next, in any interleaving. */
module SyncClients {
  import opened Common
  import opened Frames
  import opened LineStream
  import opened Codecs
  import opened Topics
  import opened Sessions
  import opened Writes

  datatype Error = PeerClosed | SocketError

  /** Where the reader thread stands in `_read_loop`; the last five are its way out. */
  datatype Reader =
    | NotStarted
    | Checking
    | Receiving
    | Feeding(data: Bytes)
    | Delivering(events: seq<Event>)
    | Failed(error: Error)
    | Ending(reason: Option<Error>)
    | Marking(reason: Option<Error>)
    | Releasing(reason: Option<Error>)
    | Notifying(reason: Option<Error>)
    | Dead(reason: Option<Error>)

  /** Where the calling thread stands: about to check that the client is open, about to write,
      or inside `close`. */
  datatype Caller = Idle | Prepared(frame: Frame) | Sending(frame: Frame) | ShuttingDown | Joining

  /** `fed`, `delivered` and `notified` record the bytes fed to the session and the calls of
      `on_event` and `on_close`; `sent` what reached the socket. */
  datatype Client = Client(
    session: SessionState, connected: bool, open: bool, closed: bool, reader: Reader, caller: Caller,
    reason: Option<Error>, fed: Bytes, delivered: seq<Event>, notified: seq<Option<Error>>, sent: seq<Frame>)

  datatype Step =
    | Connect
    | PrepareFrame(frame: Frame)
    | PrepareSet(ref: TopicRef, value: Value, compartment: Option<int>)
    | CheckOpen
    | Write(succeeds: bool)
    | BeginClose
    | ShutDown
    | Join
    | ReaderChecks
    | ReceiveNothing
    | Receive(data: Bytes)
    | ReceiveFails(error: Error)
    | ReaderJudges
    | FeedSession
    | Deliver
    | RecordReason
    | MarkClosed
    | Release
    | Notify

  const MADE := Client(EMPTY, false, false, false, NotStarted, Idle, None, [], [], [], [])

  /** A frame is made, or given, to be sent. */
  function PrepareNext(fl: real -> real, c: Client, step: Step): Client {
    match step
    case PrepareFrame(frame) => if c.caller == Idle then c.(caller := Prepared(frame)) else c
    case PrepareSet(ref, value, compartment) =>
      if c.caller == Idle then
        match SetFrame(fl, c.session.cache.values, ref, value, compartment)
        case Ok((frame, _)) => c.(caller := Prepared(frame))
        case Err(_) => c
      else c
    case _ => c
  }

  /** The other steps of the calling thread. */
  function CallerNext(c: Client, step: Step): Client {
    match step
    case Connect =>
      // a second connect raises, whatever became of the first
      if c.caller == Idle && !c.connected then c.(connected := true, open := true, reader := Checking) else c
    case CheckOpen =>
      if c.caller.Prepared? then
        c.(caller := if !c.connected || c.closed then Idle else Sending(c.caller.frame))
      else c
    case Write(succeeds) =>
      if c.caller.Sending? then
        c.(caller := Idle, sent := if c.open && succeeds then c.sent + [c.caller.frame] else c.sent)
      else c
    case BeginClose =>
      if c.caller == Idle && !c.closed then c.(closed := true, caller := ShuttingDown) else c
    case ShutDown =>
      if c.caller == ShuttingDown then c.(open := false, caller := if c.connected then Joining else Idle) else c
    case Join => if c.caller == Joining then c.(caller := Idle) else c
    case _ => c
  }

  /** The chunk in hand is fed to the session. */
  function FeedNext(fl: real -> real, c: Client): Client {
    if c.reader.Feeding? then
      var (s, events) := Received(fl, c.session, c.reader.data);
      c.(session := s, fed := c.fed + c.reader.data, reader := Delivering(events))
    else c
  }

  /** The other steps of the reader thread. */
  function ReaderNext(c: Client, step: Step): Client {
    match step
    case ReaderChecks =>
      if c.reader == Checking then c.(reader := if c.closed then Ending(None) else Receiving) else c
    case ReceiveNothing => if c.reader == Receiving then c.(reader := Checking) else c
    case Receive(data) => if c.reader == Receiving && data != [] then c.(reader := Feeding(data)) else c
    case ReceiveFails(error) => if c.reader == Receiving then c.(reader := Failed(error)) else c
    case ReaderJudges =>
      if c.reader.Failed? then c.(reader := Ending(if c.closed then None else Some(c.reader.error))) else c
    case Deliver =>
      if !c.reader.Delivering? then c
      else if c.reader.events == [] then c.(reader := Checking)
      else c.(delivered := c.delivered + [c.reader.events[0]], reader := Delivering(c.reader.events[1..]))
    case RecordReason =>
      if c.reader.Ending? then c.(reason := c.reader.reason, reader := Marking(c.reader.reason)) else c
    case MarkClosed => if c.reader.Marking? then c.(closed := true, reader := Releasing(c.reader.reason)) else c
    case Release => if c.reader.Releasing? then c.(open := false, reader := Notifying(c.reader.reason)) else c
    case Notify =>
      if c.reader.Notifying? then
        c.(notified := c.notified + [c.reader.reason], reader := Dead(c.reader.reason))
      else c
    case _ => c
  }

  predicate Prepares(step: Step) {
    step.PrepareFrame? || step.PrepareSet?
  }

  predicate ByCaller(step: Step) {
    step.Connect? || step.CheckOpen? || step.Write? || step.BeginClose? || step.ShutDown? || step.Join?
  }

  function Next(fl: real -> real, c: Client, step: Step): Client {
    if Prepares(step) then PrepareNext(fl, c, step)
    else if ByCaller(step) then CallerNext(c, step)
    else if step == FeedSession then FeedNext(fl, c)
    else ReaderNext(c, step)
  }

  function Run(fl: real -> real, c: Client, steps: seq<Step>): Client
    decreases |steps|
  {
    if steps == [] then c else Run(fl, Next(fl, c, steps[0]), steps[1..])
  }

  // ---- what every step keeps

  function Undelivered(r: Reader): seq<Event> {
    if r.Delivering? then r.events else []
  }

  predicate Leaving(r: Reader) {
    r.Marking? || r.Releasing? || r.Notifying? || r.Dead?
  }

  predicate LifeOk(c: Client) {
    && (c.connected <==> c.reader != NotStarted)
    && (c.open ==> c.connected)
    && (c.reader.Releasing? || c.reader.Notifying? || c.reader.Dead? ==> c.closed)
    && (c.reader.Notifying? || c.reader.Dead? ==> !c.open)
    && (c.caller == ShuttingDown || c.caller == Joining ==> c.closed)
    && (c.caller == Joining ==> !c.open)
    && (if Leaving(c.reader) then c.reader.reason == c.reason else c.reason == None)
    && c.notified == if c.reader.Dead? then [c.reason] else []
  }

  predicate EventsOk(fl: real -> real, c: Client) {
    && CR !in c.session.decoder.buf
    && Received(fl, EMPTY, c.fed) == (c.session, c.delivered + Undelivered(c.reader))
  }

  predicate Inv(fl: real -> real, c: Client) {
    LifeOk(c) && EventsOk(fl, c)
  }

  lemma SameEvents(fl: real -> real, c: Client, d: Client)
    requires EventsOk(fl, c) && d.session == c.session && d.fed == c.fed
    requires d.delivered + Undelivered(d.reader) == c.delivered + Undelivered(c.reader)
    ensures EventsOk(fl, d)
  {
  }

  lemma PrepareKeepsInv(fl: real -> real, c: Client, step: Step)
    requires Inv(fl, c)
    ensures Inv(fl, PrepareNext(fl, c, step))
  {
    SameEvents(fl, c, PrepareNext(fl, c, step));
  }

  lemma CallerKeepsLife(c: Client, step: Step)
    requires LifeOk(c)
    ensures var d := CallerNext(c, step);
            && LifeOk(d) && d.session == c.session && d.fed == c.fed && d.delivered == c.delivered
            && Undelivered(d.reader) == Undelivered(c.reader)
  {
  }

  lemma CallerKeepsInv(fl: real -> real, c: Client, step: Step)
    requires Inv(fl, c)
    ensures Inv(fl, CallerNext(c, step))
  {
    CallerKeepsLife(c, step);
    SameEvents(fl, c, CallerNext(c, step));
  }

  lemma ReaderKeepsLife(c: Client, step: Step)
    requires LifeOk(c)
    ensures var d := ReaderNext(c, step);
            LifeOk(d) && d.session == c.session && d.fed == c.fed
  {
  }

  lemma ReaderKeepsEvents(c: Client, step: Step)
    ensures var d := ReaderNext(c, step);
            d.delivered + Undelivered(d.reader) == c.delivered + Undelivered(c.reader)
  {
    if step == Deliver && c.reader.Delivering? && c.reader.events != [] {
      var events := c.reader.events;
      assert events == [events[0]] + events[1..];
      Assoc(c.delivered, [events[0]], events[1..]);
    }
  }

  lemma ReaderKeepsInv(fl: real -> real, c: Client, step: Step)
    requires Inv(fl, c)
    ensures Inv(fl, ReaderNext(c, step))
  {
    ReaderKeepsLife(c, step);
    ReaderKeepsEvents(c, step);
    SameEvents(fl, c, ReaderNext(c, step));
  }

  lemma ReceivedMore(fl: real -> real, fed: Bytes, s: SessionState, events: seq<Event>, data: Bytes)
    requires Received(fl, EMPTY, fed) == (s, events)
    ensures Received(fl, EMPTY, fed + data) == (Received(fl, s, data).0, events + Received(fl, s, data).1)
    ensures CR !in Received(fl, s, data).0.decoder.buf
  {
    ReceivedConcat(fl, EMPTY, fed, data);
    RestHasNoCR(s.decoder.buf + data);
  }

  lemma FeedKeepsInv(fl: real -> real, c: Client)
    requires Inv(fl, c)
    ensures Inv(fl, FeedNext(fl, c))
  {
    if c.reader.Feeding? {
      Unit(c.delivered);
      ReceivedMore(fl, c.fed, c.session, c.delivered, c.reader.data);
    }
  }

  lemma NextKeepsInv(fl: real -> real, c: Client, step: Step)
    requires Inv(fl, c)
    ensures Inv(fl, Next(fl, c, step))
  {
    if Prepares(step) {
      PrepareKeepsInv(fl, c, step);
    } else if ByCaller(step) {
      CallerKeepsInv(fl, c, step);
    } else if step == FeedSession {
      FeedKeepsInv(fl, c);
    } else {
      ReaderKeepsInv(fl, c, step);
    }
  }

  lemma {:induction false} RunKeepsInv(fl: real -> real, c: Client, steps: seq<Step>)
    requires Inv(fl, c)
    ensures Inv(fl, Run(fl, c, steps))
    decreases |steps|
  {
    if steps != [] {
      NextKeepsInv(fl, c, steps[0]);
      RunKeepsInv(fl, Next(fl, c, steps[0]), steps[1..]);
    }
  }

  lemma MadeIsOk(fl: real -> real)
    ensures Inv(fl, MADE)
  {
    assert Fed(FRESH, []) == (FRESH, []);
    assert EventsOf(fl, []) == [];
  }

  // ---- over all interleavings

  /** `on_close` is called at most once, with the reason the client keeps, and only when the
      client is marked closed and its socket released; the reader has then delivered every
      event. */
  lemma ClosesAreNotifiedOnce(fl: real -> real, steps: seq<Step>)
    ensures var c := Run(fl, MADE, steps);
            && |c.notified| <= 1
            && (c.notified != [] ==> c.notified == [c.reason] && c.closed && !c.open && c.reader.Dead?)
  {
    MadeIsOk(fl);
    RunKeepsInv(fl, MADE, steps);
  }

  /** `on_event` has received exactly the events of the bytes fed so far, in order, but for
      those the reader is about to deliver. */
  lemma EventsAreDelivered(fl: real -> real, steps: seq<Step>)
    ensures var c := Run(fl, MADE, steps);
            c.delivered + Undelivered(c.reader) == Received(fl, EMPTY, c.fed).1
  {
    MadeIsOk(fl);
    RunKeepsInv(fl, MADE, steps);
  }

  function InFlight(c: Client): seq<Frame> {
    if c.caller.Sending? then [c.caller.frame] else []
  }

  lemma ReaderSendsNothing(c: Client, step: Step)
    ensures var d := ReaderNext(c, step);
            && d.caller == c.caller && d.sent == c.sent && d.connected == c.connected
            && (c.closed ==> d.closed) && (d.open ==> c.open)
  {
  }

  lemma CallerSendsAtMostOne(c: Client, step: Step)
    requires c.closed
    ensures var d := CallerNext(c, step);
            && d.closed && (c.connected ==> d.connected && (d.open ==> c.open))
            && (c.connected && !c.open ==> d.sent == c.sent)
            && d.sent + InFlight(d) in {c.sent + InFlight(c), c.sent}
  {
    Unit(c.sent);
    Unit(c.sent + InFlight(c));
  }

  lemma NextStaysClosed(fl: real -> real, c: Client, step: Step)
    requires c.closed
    ensures var d := Next(fl, c, step);
            && d.closed
            && (c.connected && !c.open ==> d.connected && !d.open && d.sent == c.sent)
            && d.sent + InFlight(d) in {c.sent + InFlight(c), c.sent}
  {
    if !Prepares(step) && ByCaller(step) {
      CallerSendsAtMostOne(c, step);
    } else if !Prepares(step) {
      ReaderSendsNothing(c, step);
    }
  }

  /** The closed mark is never cleared, a released socket never comes back and takes nothing,
      and once the client is closed nothing is sent but, at most, the one frame that had passed
      the check. */
  lemma {:induction false} ClosedIsForEver(fl: real -> real, c: Client, steps: seq<Step>)
    requires c.closed
    ensures var d := Run(fl, c, steps);
            && d.closed
            && (c.connected && !c.open ==> !d.open && d.sent == c.sent)
            && d.sent + InFlight(d) in {c.sent + InFlight(c), c.sent}
    decreases |steps|
  {
    if steps != [] {
      NextStaysClosed(fl, c, steps[0]);
      ClosedIsForEver(fl, Next(fl, c, steps[0]), steps[1..]);
      Unit(c.sent);
    } else {
      Unit(c.sent);
    }
  }

  /** The reader has no chunk in hand and is not about to receive one. */
  predicate BetweenReads(r: Reader) {
    r != NotStarted && r != Receiving && !r.Feeding? && !r.Failed?
  }

  /** Once the client is closed, a reader between two reads never feeds the session again. */
  lemma {:induction false} ClosedReaderReadsNoMore(fl: real -> real, c: Client, steps: seq<Step>)
    requires c.closed && c.connected && BetweenReads(c.reader)
    ensures var d := Run(fl, c, steps);
            BetweenReads(d.reader) && d.fed == c.fed && d.session == c.session
    decreases |steps|
  {
    if steps != [] {
      ClosedReaderReadsNothing(fl, c, steps[0]);
      ClosedReaderReadsNoMore(fl, Next(fl, c, steps[0]), steps[1..]);
    }
  }

  lemma ClosedReaderReadsNothing(fl: real -> real, c: Client, step: Step)
    requires c.closed && c.connected && BetweenReads(c.reader)
    ensures var d := Next(fl, c, step);
            d.closed && d.connected && BetweenReads(d.reader) && d.fed == c.fed && d.session == c.session
  {
    if !Prepares(step) && ByCaller(step) {
      CallerLeavesTheReader(c, step);
    } else if !Prepares(step) {
      ReaderStaysBetweenReads(c, step);
    }
  }

  lemma CallerLeavesTheReader(c: Client, step: Step)
    requires c.closed && c.reader != NotStarted
    ensures var d := CallerNext(c, step);
            && d.closed && d.reader in {c.reader, Checking} && d.reason == c.reason && d.notified == c.notified
            && d.fed == c.fed && d.session == c.session && (c.connected ==> d.connected)
  {
  }

  lemma ReaderStaysBetweenReads(c: Client, step: Step)
    requires c.closed && BetweenReads(c.reader)
    ensures var d := ReaderNext(c, step);
            d.closed && BetweenReads(d.reader) && d.fed == c.fed && d.session == c.session && d.connected == c.connected
  {
  }

  /** The reader has not yet settled on an error, or has settled on none. */
  predicate NoError(r: Reader) {
    && r != NotStarted
    && ((r.Ending? || Leaving(r)) ==> r.reason == None)
  }

  lemma ReaderRaisesNoError(c: Client, step: Step)
    requires c.closed && NoError(c.reader) && c.reason == None
    ensures var d := ReaderNext(c, step);
            && d.closed && NoError(d.reader) && d.reason == None
            && (c.notified == d.notified || d.notified == c.notified + [None])
  {
  }

  lemma NextHasNoError(fl: real -> real, c: Client, step: Step)
    requires c.closed && NoError(c.reader) && c.reason == None
    ensures var d := Next(fl, c, step);
            && d.closed && NoError(d.reader) && d.reason == None
            && (c.notified == d.notified || d.notified == c.notified + [None])
  {
    if !Prepares(step) && ByCaller(step) {
      CallerLeavesTheReader(c, step);
    } else if !Prepares(step) {
      ReaderRaisesNoError(c, step);
    }
  }

  /** A client that is closed before the reader has settled on an error reports none: whatever
      the socket does then, the reason kept and the one given to `on_close` is none. */
  lemma {:induction false} LocalCloseHasNoReason(fl: real -> real, c: Client, steps: seq<Step>)
    requires c.closed && NoError(c.reader) && c.reason == None
    requires forall i :: 0 <= i < |c.notified| ==> c.notified[i] == None
    ensures var d := Run(fl, c, steps);
            d.reason == None && forall i :: 0 <= i < |d.notified| ==> d.notified[i] == None
    decreases |steps|
  {
    if steps != [] {
      NextHasNoError(fl, c, steps[0]);
      LocalCloseHasNoReason(fl, Next(fl, c, steps[0]), steps[1..]);
    }
  }

  // ---- the client object

  /** `SyncClient`. Each method is one access to shared state, with the thread it belongs to in
      `caller` or `reader`. */
  class SyncClient {
    const session: Session
    var connected: bool
    var open: bool
    var closed: bool
    var reader: Reader
    var caller: Caller
    var reason: Option<Error>
    var fed: Bytes
    var delivered: seq<Event>
    var notified: seq<Option<Error>>
    var sent: seq<Frame>

    constructor (fl: real -> real)
      ensures fresh(session) && fresh(session.decoder) && session.fl == fl
      ensures State() == MADE && Valid()
    {
      session := new Session(fl);
      connected, open, closed, reader, caller, reason := false, false, false, NotStarted, Idle, None;
      fed, delivered, notified, sent := [], [], [], [];
      new;
      MadeIsOk(fl);
    }

    ghost function State(): Client
      reads this, session, session.decoder
    {
      Client(session.State(), connected, open, closed, reader, caller, reason, fed, delivered, notified, sent)
    }

    ghost predicate Valid()
      reads this, session, session.decoder
    {
      Inv(session.fl, State())
    }

    /** `connect`; a client that has had a socket cannot have another. */
    method Connect() returns (raised: bool)
      requires caller == Idle
      modifies this`connected, this`open, this`reader
      ensures State() == CallerNext(old(State()), Step.Connect) && raised == old(connected)
    {
      if connected {
        return true;
      }
      connected, open, reader := true, true, Checking;
      return false;
    }

    /** The locked half of `set`. */
    method PrepareSet(ref: TopicRef, value: Value, compartment: Option<int>)
      returns (r: Result<Expectation, WriteError>)
      requires caller == Idle
      modifies this`caller
      ensures State() == PrepareNext(session.fl, old(State()), Step.PrepareSet(ref, value, compartment))
      ensures r.Ok? <==> caller.Prepared?
    {
      var made := SetFrame(session.fl, session.values, ref, value, compartment);
      if made.Err? {
        return Err(made.error);
      }
      caller := Prepared(made.value.0);
      return Ok(made.value.1);
    }

    method PrepareFrame(frame: Frame)
      requires caller == Idle
      modifies this`caller
      ensures State() == PrepareNext(session.fl, old(State()), Step.PrepareFrame(frame))
    {
      caller := Prepared(frame);
    }

    /** The check at the head of `send`. */
    method CheckOpen() returns (raised: bool)
      requires caller.Prepared?
      modifies this`caller
      ensures State() == CallerNext(old(State()), Step.CheckOpen)
      ensures raised == (!connected || closed)
    {
      raised := !connected || closed;
      caller := if raised then Idle else Sending(caller.frame);
    }

    /** `sendall`, which fails on a released socket, and may fail on any. */
    method Write(succeeds: bool) returns (raised: bool)
      requires caller.Sending?
      modifies this`caller, this`sent
      ensures State() == CallerNext(old(State()), Step.Write(succeeds))
      ensures raised <==> !(open && succeeds)
    {
      raised := !open || !succeeds;
      if !raised {
        sent := sent + [caller.frame];
      }
      caller := Idle;
    }

    method BeginClose()
      requires caller == Idle
      modifies this`closed, this`caller
      ensures State() == CallerNext(old(State()), Step.BeginClose)
    {
      if closed {
        return;
      }
      closed, caller := true, ShuttingDown;
    }

    method ShutDown()
      requires caller == ShuttingDown
      modifies this`open, this`caller
      ensures State() == CallerNext(old(State()), Step.ShutDown)
    {
      open := false;
      caller := if connected then Joining else Idle;
    }

    method Join()
      requires caller == Joining
      modifies this`caller
      ensures State() == CallerNext(old(State()), Step.Join)
    {
      caller := Idle;
    }

    method ReaderChecks()
      requires reader == Checking
      modifies this`reader
      ensures State() == ReaderNext(old(State()), Step.ReaderChecks)
    {
      reader := if closed then Ending(None) else Receiving;
    }

    method ReceiveNothing()
      requires reader == Receiving
      modifies this`reader
      ensures State() == ReaderNext(old(State()), Step.ReceiveNothing)
    {
      reader := Checking;
    }

    method Receive(data: Bytes)
      requires reader == Receiving && data != []
      modifies this`reader
      ensures State() == ReaderNext(old(State()), Step.Receive(data))
    {
      reader := Feeding(data);
    }

    method ReceiveFails(error: Error)
      requires reader == Receiving
      modifies this`reader
      ensures State() == ReaderNext(old(State()), Step.ReceiveFails(error))
    {
      reader := Failed(error);
    }

    method ReaderJudges()
      requires reader.Failed?
      modifies this`reader
      ensures State() == ReaderNext(old(State()), Step.ReaderJudges)
    {
      reader := Ending(if closed then None else Some(reader.error));
    }

    /** The locked `feed`. */
    method FeedSession()
      requires reader.Feeding?
      modifies this`reader, this`fed, session, session.decoder
      ensures State() == FeedNext(session.fl, old(State()))
    {
      var data := reader.data;
      var events := session.Feed(data);
      fed := fed + data;
      reader := Delivering(events);
    }

    /** One turn of the loop over the events; whether `on_event` raises makes no difference. */
    method Deliver()
      requires reader.Delivering?
      modifies this`reader, this`delivered
      ensures State() == ReaderNext(old(State()), Step.Deliver)
    {
      var events := reader.events;
      if events == [] {
        reader := Checking;
        return;
      }
      delivered := delivered + [events[0]];
      reader := Delivering(events[1..]);
    }

    /** The four steps of the `finally` block. */
    method RecordReason()
      requires reader.Ending?
      modifies this`reader, this`reason
      ensures State() == ReaderNext(old(State()), Step.RecordReason)
    {
      reason := reader.reason;
      reader := Marking(reader.reason);
    }

    method MarkClosed()
      requires reader.Marking?
      modifies this`reader, this`closed
      ensures State() == ReaderNext(old(State()), Step.MarkClosed)
    {
      closed := true;
      reader := Releasing(reader.reason);
    }

    method Release()
      requires reader.Releasing?
      modifies this`reader, this`open
      ensures State() == ReaderNext(old(State()), Step.Release)
    {
      open := false;
      reader := Notifying(reader.reason);
    }

    method Notify()
      requires reader.Notifying?
      modifies this`reader, this`notified
      ensures State() == ReaderNext(old(State()), Step.Notify)
    {
      notified := notified + [reader.reason];
      reader := Dead(reader.reason);
    }

    // ---- any step, if it is possible

    method CallerDoes(step: Step)
      requires ByCaller(step)
      modifies this`connected, this`open, this`closed, this`reader, this`caller, this`sent
      ensures State() == CallerNext(old(State()), step)
    {
      match step {
        case Connect =>
          if caller == Idle {
            var _ := Connect();
          }
        case CheckOpen =>
          if caller.Prepared? {
            var _ := CheckOpen();
          }
        case Write(succeeds) =>
          if caller.Sending? {
            var _ := Write(succeeds);
          }
        case BeginClose =>
          if caller == Idle {
            BeginClose();
          }
        case ShutDown =>
          if caller == ShuttingDown {
            ShutDown();
          }
        case Join =>
          if caller == Joining {
            Join();
          }
      }
    }

    method ReaderDoes(step: Step)
      requires !Prepares(step) && !ByCaller(step) && step != Step.FeedSession
      modifies this`open, this`closed, this`reader, this`reason, this`delivered, this`notified
      ensures State() == ReaderNext(old(State()), step)
    {
      match step {
        case ReaderChecks =>
          if reader == Checking {
            ReaderChecks();
          }
        case ReceiveNothing =>
          if reader == Receiving {
            ReceiveNothing();
          }
        case Receive(data) =>
          if reader == Receiving && data != [] {
            Receive(data);
          }
        case ReceiveFails(error) =>
          if reader == Receiving {
            ReceiveFails(error);
          }
        case ReaderJudges =>
          if reader.Failed? {
            ReaderJudges();
          }
        case Deliver =>
          if reader.Delivering? {
            Deliver();
          }
        case RecordReason =>
          if reader.Ending? {
            RecordReason();
          }
        case MarkClosed =>
          if reader.Marking? {
            MarkClosed();
          }
        case Release =>
          if reader.Releasing? {
            Release();
          }
        case Notify =>
          if reader.Notifying? {
            Notify();
          }
      }
    }

    /** One step of either thread keeps the client valid. */
    method Do(step: Step)
      requires Valid()
      modifies this, session, session.decoder
      ensures Valid() && State() == Next(session.fl, old(State()), step)
    {
      NextKeepsInv(session.fl, State(), step);
      if step.PrepareFrame? {
        if caller == Idle {
          PrepareFrame(step.frame);
        }
      } else if step.PrepareSet? {
        if caller == Idle {
          var _ := PrepareSet(step.ref, step.value, step.compartment);
        }
      } else if ByCaller(step) {
        CallerDoes(step);
      } else if step == Step.FeedSession {
        if reader.Feeding? {
          FeedSession();
        }
      } else {
        ReaderDoes(step);
      }
    }

    /** Any interleaving of the two threads. */
    method DoAll(steps: seq<Step>)
      requires Valid()
      modifies this, session, session.decoder
      ensures Valid() && State() == Run(session.fl, old(State()), steps)
    {
      for i := 0 to |steps|
        invariant Valid() && Run(session.fl, State(), steps[i..]) == Run(session.fl, old(State()), steps)
      {
        assert steps[i..][0] == steps[i] && steps[i..][1..] == steps[i + 1..];
        Do(steps[i]);
      }
    }
  }
}
