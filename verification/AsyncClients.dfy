/** The asyncio client: concurrent writes, one reader task and `close`, as steps that run from
    one suspension point to the next without interleaving. */
module AsyncClients {
  import opened Common
  import opened Frames
  import opened LineStream
  import opened Codecs
  import opened Topics
  import opened Sessions
  import opened Writes

  /** What a call to `set` is waiting for. */
  datatype Future = Waiting | Result(value: Value) | Rejected | Lost | Cancelled

  datatype Stop = TimedOut | TaskCancelled

  datatype Outcome =
    | Confirmed(value: Value)
    | WriteRejected
    | ConnectionLost
    | NotConnected
    | WriteTimeout
    | CallCancelled
    | DrainError

  /** Where a call to `set` stands. An interrupted call has been told to stop and has not run
      since. */
  datatype Phase = Draining | Awaiting | Interrupted(why: Stop) | Returned(outcome: Outcome)

  /** `since` is the number of events heard when the call registered, `decided` the number of
      the event that settled its future. */
  datatype Call = Call(expectation: Expectation, fut: Future, phase: Phase, since: nat, decided: nat)

  /** The reader task. One that is cancelled before its first step is aborted: its `finally`
      block does not run. */
  datatype Reader = Unstarted | Reading | Finished | Aborted

  /** How far `close` is: it awaits the reader, has released the writer and awaits that, is done. */
  datatype Closer = NotAsked | Closing | Releasing | Done

  datatype Reason = PeerClosed | ReadError

  datatype Client = Client(
    session: SessionState, calls: seq<Call>, pending: seq<nat>, closed: bool, cancelled: bool, closer: Closer,
    released: bool, reader: Reader, reason: Option<Reason>, log: seq<Event>, queue: seq<Option<Event>>,
    sent: seq<Frame>)

  datatype Step =
    | ReaderStarts
    | ReaderGets(data: Bytes)
    | ReaderEnds(reason: Reason)
    | ReaderCancelled
    | SetBegins(ref: TopicRef, value: Value, compartment: Option<int>)
    | SetDrained(id: nat)
    | SetDrainFails(id: nat, timedOut: bool)
    | SetStops(id: nat, why: Stop)
    | SetResumes(id: nat)
    | CloseBegins
    | CloseReleases
    | CloseEnds

  const CONNECTED := Client(EMPTY, [], [], false, false, NotAsked, false, Unstarted, None, [], [], [])

  // ---- what the steps do

  function Without(pending: seq<nat>, id: nat): seq<nat> {
    if pending == [] then [] else if pending[0] == id then pending[1..] else [pending[0]] + Without(pending[1..], id)
  }

  /** A future is completed once: only a waiting one may be. */
  function Complete(call: Call, fut: Future, at: nat): Call
    requires call.fut == Waiting
  {
    call.(fut := fut, decided := at)
  }

  /** What event number `at` does to a registered call. */
  function Judged(fl: real -> real, call: Call, ev: Event, at: nat): Call {
    if call.fut != Waiting then call
    else match Verdict(fl, call.expectation, ev)
         case None => call
         case Some(true) => Complete(call, Result(ev.value), at)
         case Some(false) => Complete(call, Rejected, at)
  }

  function Resolved(fl: real -> real, calls: seq<Call>, pending: seq<nat>, ev: Event, at: nat): seq<Call> {
    seq(|calls|, i requires 0 <= i < |calls| => if i in pending then Judged(fl, calls[i], ev, at) else calls[i])
  }

  function Hear(fl: real -> real, c: Client, ev: Event): Client {
    c.(calls := Resolved(fl, c.calls, c.pending, ev, |c.log|), log := c.log + [ev], queue := c.queue + [Some(ev)])
  }

  function HearAll(fl: real -> real, c: Client, evs: seq<Event>): Client
    decreases |evs|
  {
    if evs == [] then c else HearAll(fl, Hear(fl, c, evs[0]), evs[1..])
  }

  function Dropped(calls: seq<Call>, pending: seq<nat>, at: nat): seq<Call> {
    seq(|calls|, i requires 0 <= i < |calls| =>
      if i in pending && calls[i].fut == Waiting then Complete(calls[i], Lost, at) else calls[i])
  }

  /** The reader's `finally` block. */
  function Finish(c: Client, reason: Option<Reason>): Client {
    c.(reader := Finished, closed := true, reason := reason, calls := Dropped(c.calls, c.pending, |c.log|),
       queue := c.queue + [None])
  }

  function OutcomeOf(fut: Future): Outcome
    requires fut != Waiting
  {
    match fut
    case Result(v) => Confirmed(v)
    case Rejected => WriteRejected
    case Lost => ConnectionLost
    case Cancelled => CallCancelled
  }

  function StoppedOutcome(why: Stop): Outcome {
    match why
    case TimedOut => WriteTimeout
    case TaskCancelled => CallCancelled
  }

  /** The call leaves `set`, whose `finally` block unregisters it. */
  function Return(c: Client, id: nat, outcome: Outcome): Client
    requires id < |c.calls|
  {
    c.(calls := c.calls[id := c.calls[id].(phase := Returned(outcome))], pending := Without(c.pending, id))
  }

  function Move(c: Client, id: nat, phase: Phase, fut: Future): Client
    requires id < |c.calls|
  {
    c.(calls := c.calls[id := c.calls[id].(phase := phase, fut := fut)])
  }

  predicate In(c: Client, id: nat, phase: Phase) {
    id < |c.calls| && c.calls[id].phase == phase
  }

  /** A call registers and writes its frame; on a closed client it is refused at once. */
  function Register(c: Client, frame: Frame, e: Expectation): Client {
    if c.closed then
      c.(calls := c.calls + [Call(e, Waiting, Returned(NotConnected), |c.log|, 0)])
    else
      c.(calls := c.calls + [Call(e, Waiting, Draining, |c.log|, 0)], pending := c.pending + [|c.calls|],
         sent := c.sent + [frame])
  }

  /** `set` up to its first suspension. A write that the session refuses leaves no trace. */
  function Begin(fl: real -> real, c: Client, ref: TopicRef, value: Value, compartment: Option<int>): Client {
    match SetFrame(fl, c.session.cache.values, ref, value, compartment)
    case Err(_) => c
    case Ok((frame, e)) => Register(c, frame, e)
  }

  // ---- each step; one that is not possible changes nothing

  function Started(c: Client): Client {
    if c.reader == Unstarted && !c.cancelled then c.(reader := Reading) else c
  }

  function Got(fl: real -> real, c: Client, data: Bytes): Client {
    if c.reader == Reading && !c.cancelled && data != [] then
      var (s, evs) := Received(fl, c.session, data);
      HearAll(fl, c.(session := s), evs)
    else c
  }

  function Ended(c: Client, reason: Reason): Client {
    if c.reader == Reading && !c.cancelled then Finish(c, Some(reason)) else c
  }

  function CancelDelivered(c: Client): Client {
    if c.cancelled && c.reader == Reading then Finish(c, None)
    else if c.cancelled && c.reader == Unstarted then c.(reader := Aborted)
    else c
  }

  function Drained(c: Client, id: nat): Client {
    if !In(c, id, Draining) then c
    else if c.calls[id].fut == Waiting then Move(c, id, Awaiting, Waiting)
    else Return(c, id, OutcomeOf(c.calls[id].fut))
  }

  function DrainFailed(c: Client, id: nat, timedOut: bool): Client {
    if In(c, id, Draining) then Return(c, id, if timedOut then WriteTimeout else DrainError) else c
  }

  function Stopped(c: Client, id: nat, why: Stop): Client {
    if In(c, id, Awaiting) then
      Move(c, id, Interrupted(why), if c.calls[id].fut == Waiting then Cancelled else c.calls[id].fut)
    else if (In(c, id, Draining) || In(c, id, Interrupted(TimedOut))) && why == TaskCancelled then
      Move(c, id, Interrupted(why), c.calls[id].fut)
    else c
  }

  function Resumed(c: Client, id: nat): Client {
    if In(c, id, Awaiting) && c.calls[id].fut != Waiting then Return(c, id, OutcomeOf(c.calls[id].fut))
    else if id < |c.calls| && c.calls[id].phase.Interrupted? then
      Return(c, id, StoppedOutcome(c.calls[id].phase.why))
    else c
  }

  function CloseBegun(c: Client): Client {
    if c.closed then c else c.(closed := true, closer := Closing, cancelled := true)
  }

  /** The reader is over, and the socket is shut down and the writer closed. */
  function WriterReleased(c: Client): Client {
    if c.closer == Closing && c.reader in {Finished, Aborted} then c.(closer := Releasing, released := true) else c
  }

  function CloseEnded(c: Client): Client {
    if c.closer == Releasing then c.(closer := Done, queue := c.queue + [None]) else c
  }

  /** A step of a call to `set` that has begun. */
  predicate OfOneCall(step: Step) {
    step.SetDrained? || step.SetDrainFails? || step.SetStops? || step.SetResumes?
  }

  function OneCall(c: Client, step: Step): Client
    requires OfOneCall(step)
  {
    match step
    case SetDrained(id) => Drained(c, id)
    case SetDrainFails(id, timedOut) => DrainFailed(c, id, timedOut)
    case SetStops(id, why) => Stopped(c, id, why)
    case SetResumes(id) => Resumed(c, id)
  }

  function Next(fl: real -> real, c: Client, step: Step): Client {
    match step
    case ReaderStarts => Started(c)
    case ReaderGets(data) => Got(fl, c, data)
    case ReaderEnds(reason) => Ended(c, reason)
    case ReaderCancelled => CancelDelivered(c)
    case SetBegins(ref, value, compartment) => Begin(fl, c, ref, value, compartment)
    case CloseBegins => CloseBegun(c)
    case CloseReleases => WriterReleased(c)
    case CloseEnds => CloseEnded(c)
    case _ => OneCall(c, step)
  }

  function Run(fl: real -> real, c: Client, steps: seq<Step>): Client
    decreases |steps|
  {
    if steps == [] then c else Run(fl, Next(fl, c, steps[0]), steps[1..])
  }

  // ---- what every step keeps

  predicate Silent(fl: real -> real, e: Expectation, log: seq<Event>, lo: nat, hi: nat)
    requires hi <= |log|
  {
    forall k :: lo <= k < hi ==> Verdict(fl, e, log[k]) == None
  }

  /** The first event since the call registered that decides it is number `decided`, with
      this verdict. */
  predicate DecidedBy(fl: real -> real, call: Call, log: seq<Event>, verdict: bool) {
    && call.since <= call.decided < |log|
    && Silent(fl, call.expectation, log, call.since, call.decided)
    && Verdict(fl, call.expectation, log[call.decided]) == Some(verdict)
  }

  predicate FutureOk(fl: real -> real, call: Call, log: seq<Event>, over: bool) {
    && call.since <= |log|
    && match call.fut
       case Waiting => call.phase.Returned? || (!over && Silent(fl, call.expectation, log, call.since, |log|))
       case Result(v) => DecidedBy(fl, call, log, true) && log[call.decided].value == v
       case Rejected => DecidedBy(fl, call, log, false)
       case Lost => over && Silent(fl, call.expectation, log, call.since, |log|)
       case Cancelled => call.phase.Interrupted? || call.phase in {Returned(WriteTimeout), Returned(CallCancelled)}
  }

  predicate PhaseOk(call: Call, closed: bool) {
    match call.phase
    case Draining => true
    case Awaiting => call.fut != Cancelled
    case Interrupted(why) => why == TimedOut ==> call.fut != Waiting
    case Returned(Confirmed(v)) => call.fut == Result(v)
    case Returned(WriteRejected) => call.fut == Rejected
    case Returned(ConnectionLost) => call.fut == Lost
    case Returned(NotConnected) => call.fut == Waiting && closed
    case Returned(_) => true
  }

  ghost predicate CallsOk(fl: real -> real, c: Client) {
    forall id :: 0 <= id < |c.calls| ==>
      FutureOk(fl, c.calls[id], c.log, c.reader == Finished) && PhaseOk(c.calls[id], c.closed)
  }

  /** The registered calls are those that have not returned, each once. */
  predicate PendingOk(c: Client) {
    && (forall i :: 0 <= i < |c.pending| ==> c.pending[i] < |c.calls|)
    && (forall i, j :: 0 <= i < j < |c.pending| ==> c.pending[i] != c.pending[j])
    && (forall id :: 0 <= id < |c.calls| ==> (id in c.pending <==> !c.calls[id].phase.Returned?))
  }

  predicate LifeOk(c: Client) {
    && (c.closer != NotAsked ==> c.closed && c.cancelled)
    && (c.cancelled ==> c.closed && c.closer != NotAsked)
    && (c.reader == Finished ==> c.closed)
    && (c.reader == Aborted ==> c.cancelled)
    && (c.closed ==> c.reader == Finished || c.closer != NotAsked)
    && (c.released <==> c.closer in {Releasing, Done})
    && (c.released ==> c.reader in {Finished, Aborted})
  }

  function Somes(log: seq<Event>): seq<Option<Event>> {
    seq(|log|, i requires 0 <= i < |log| => Some(log[i]))
  }

  /** One end mark from the reader's `finally` block and one from `close`. */
  function Ends(c: Client): seq<Option<Event>> {
    (if c.reader == Finished then [None] else []) + (if c.closer == Done then [None] else [])
  }

  /** The event queue has received every event, in order, and then the end marks. */
  predicate QueueOk(c: Client) {
    c.queue == Somes(c.log) + Ends(c)
  }

  ghost predicate Inv(fl: real -> real, c: Client) {
    CallsOk(fl, c) && PendingOk(c) && LifeOk(c) && QueueOk(c)
  }

  // ---- hearing events

  lemma SilentStays(fl: real -> real, e: Expectation, log: seq<Event>, ev: Event, lo: nat, hi: nat)
    requires hi <= |log|
    ensures Silent(fl, e, log + [ev], lo, hi) == Silent(fl, e, log, lo, hi)
  {
    assert forall k :: lo <= k < hi ==> (log + [ev])[k] == log[k];
    assert log == (log + [ev])[..|log|];
    if Silent(fl, e, log + [ev], lo, hi) {
      forall k | lo <= k < hi ensures Verdict(fl, e, log[k]) == None {
        assert Verdict(fl, e, (log + [ev])[k]) == None;
      }
    }
  }

  lemma SilentGrows(fl: real -> real, e: Expectation, log: seq<Event>, ev: Event, lo: nat)
    requires Silent(fl, e, log, lo, |log|) && Verdict(fl, e, ev) == None
    ensures Silent(fl, e, log + [ev], lo, |log| + 1)
  {
    SilentStays(fl, e, log, ev, lo, |log|);
  }

  lemma StillOk(fl: real -> real, call: Call, log: seq<Event>, ev: Event)
    requires FutureOk(fl, call, log, false) && (call.fut != Waiting || call.phase.Returned?)
    ensures FutureOk(fl, call, log + [ev], false)
  {
    if call.fut.Result? || call.fut == Rejected {
      SilentStays(fl, call.expectation, log, ev, call.since, call.decided);
    }
  }

  lemma JudgedIsOk(fl: real -> real, call: Call, log: seq<Event>, ev: Event, closed: bool)
    requires FutureOk(fl, call, log, false) && PhaseOk(call, closed) && !call.phase.Returned?
    ensures FutureOk(fl, Judged(fl, call, ev, |log|), log + [ev], false)
    ensures PhaseOk(Judged(fl, call, ev, |log|), closed)
  {
    if call.fut != Waiting {
      StillOk(fl, call, log, ev);
    } else if Verdict(fl, call.expectation, ev) == None {
      SilentGrows(fl, call.expectation, log, ev, call.since);
    } else {
      SilentStays(fl, call.expectation, log, ev, call.since, |log|);
    }
  }

  lemma HearKeepsInv(fl: real -> real, c: Client, ev: Event)
    requires Inv(fl, c) && c.reader == Reading
    ensures Inv(fl, Hear(fl, c, ev)) && Hear(fl, c, ev).reader == Reading
  {
    forall id | 0 <= id < |c.calls|
      ensures var call := Hear(fl, c, ev).calls[id];
              FutureOk(fl, call, c.log + [ev], false) && PhaseOk(call, c.closed)
    {
      if id in c.pending {
        JudgedIsOk(fl, c.calls[id], c.log, ev, c.closed);
      } else {
        StillOk(fl, c.calls[id], c.log, ev);
      }
    }
    assert Somes(c.log + [ev]) == Somes(c.log) + [Some(ev)];
  }

  lemma {:induction false} HearAllKeepsInv(fl: real -> real, c: Client, evs: seq<Event>)
    requires Inv(fl, c) && c.reader == Reading
    ensures Inv(fl, HearAll(fl, c, evs))
    decreases |evs|
  {
    if evs != [] {
      HearKeepsInv(fl, c, evs[0]);
      HearAllKeepsInv(fl, Hear(fl, c, evs[0]), evs[1..]);
    }
  }

  // ---- the other steps

  lemma FinishKeepsInv(fl: real -> real, c: Client, reason: Option<Reason>)
    requires Inv(fl, c) && c.reader == Reading
    ensures Inv(fl, Finish(c, reason))
  {
    forall id | 0 <= id < |c.calls|
      ensures var call := Finish(c, reason).calls[id];
              FutureOk(fl, call, c.log, true) && PhaseOk(call, true)
    {
      assert FutureOk(fl, c.calls[id], c.log, false) && PhaseOk(c.calls[id], c.closed);
    }
  }

  predicate Distinct(s: seq<nat>) {
    forall i, j :: 0 <= i < j < |s| ==> s[i] != s[j]
  }

  lemma {:induction false} WithoutIs(s: seq<nat>, id: nat)
    requires Distinct(s)
    ensures Distinct(Without(s, id))
    ensures forall x :: x in Without(s, id) <==> x in s && x != id
  {
    if s != [] {
      WithoutIs(s[1..], id);
      assert s == [s[0]] + s[1..];
      forall i | 0 < i < |Without(s, id)| && s[0] != id ensures Without(s, id)[i] != s[0] {
        assert Without(s, id)[i] in Without(s[1..], id);
      }
    }
  }

  lemma ReturnKeepsInv(fl: real -> real, c: Client, id: nat, outcome: Outcome)
    requires Inv(fl, c) && id < |c.calls|
    requires PhaseOk(c.calls[id].(phase := Returned(outcome)), c.closed)
    requires c.calls[id].fut == Cancelled ==> outcome in {WriteTimeout, CallCancelled}
    ensures Inv(fl, Return(c, id, outcome))
  {
    WithoutIs(c.pending, id);
    var pending := Return(c, id, outcome).pending;
    forall i | 0 <= i < |pending| ensures pending[i] < |c.calls| {
      assert pending[i] in c.pending;
    }
  }

  lemma MoveKeepsInv(fl: real -> real, c: Client, id: nat, phase: Phase, fut: Future)
    requires Inv(fl, c) && id < |c.calls| && !phase.Returned? && !c.calls[id].phase.Returned?
    requires fut == c.calls[id].fut || (c.calls[id].fut == Waiting && fut == Cancelled && phase.Interrupted?)
    requires fut == Cancelled ==> phase.Interrupted?
    requires phase == Interrupted(TimedOut) ==> fut != Waiting
    ensures Inv(fl, Move(c, id, phase, fut))
  {
  }

  lemma RegisterKeepsInv(fl: real -> real, c: Client, frame: Frame, e: Expectation)
    requires Inv(fl, c)
    ensures Inv(fl, Register(c, frame, e))
  {
  }

  lemma GotKeepsInv(fl: real -> real, c: Client, data: Bytes)
    requires Inv(fl, c)
    ensures Inv(fl, Got(fl, c, data))
  {
    if c.reader == Reading && !c.cancelled && data != [] {
      var (s, evs) := Received(fl, c.session, data);
      HearAllKeepsInv(fl, c.(session := s), evs);
    }
  }

  lemma DrainedKeepsInv(fl: real -> real, c: Client, id: nat)
    requires Inv(fl, c)
    ensures Inv(fl, Drained(c, id))
  {
    if In(c, id, Draining) {
      assert FutureOk(fl, c.calls[id], c.log, c.reader == Finished);
      if c.calls[id].fut == Waiting {
        MoveKeepsInv(fl, c, id, Awaiting, Waiting);
      } else {
        ReturnKeepsInv(fl, c, id, OutcomeOf(c.calls[id].fut));
      }
    }
  }

  lemma StoppedKeepsInv(fl: real -> real, c: Client, id: nat, why: Stop)
    requires Inv(fl, c)
    ensures Inv(fl, Stopped(c, id, why))
  {
    if In(c, id, Awaiting) {
      MoveKeepsInv(fl, c, id, Interrupted(why), if c.calls[id].fut == Waiting then Cancelled else c.calls[id].fut);
    } else if (In(c, id, Draining) || In(c, id, Interrupted(TimedOut))) && why == TaskCancelled {
      MoveKeepsInv(fl, c, id, Interrupted(why), c.calls[id].fut);
    }
  }

  lemma ResumedKeepsInv(fl: real -> real, c: Client, id: nat)
    requires Inv(fl, c)
    ensures Inv(fl, Resumed(c, id))
  {
    if In(c, id, Awaiting) && c.calls[id].fut != Waiting {
      assert PhaseOk(c.calls[id], c.closed);
      ReturnKeepsInv(fl, c, id, OutcomeOf(c.calls[id].fut));
    } else if id < |c.calls| && c.calls[id].phase.Interrupted? {
      ReturnKeepsInv(fl, c, id, StoppedOutcome(c.calls[id].phase.why));
    }
  }

  lemma DrainFailedKeepsInv(fl: real -> real, c: Client, id: nat, timedOut: bool)
    requires Inv(fl, c)
    ensures Inv(fl, DrainFailed(c, id, timedOut))
  {
    if In(c, id, Draining) {
      assert FutureOk(fl, c.calls[id], c.log, c.reader == Finished);
      ReturnKeepsInv(fl, c, id, if timedOut then WriteTimeout else DrainError);
    }
  }

  lemma EndedKeepsInv(fl: real -> real, c: Client, reason: Reason)
    requires Inv(fl, c)
    ensures Inv(fl, Ended(c, reason))
  {
    if c.reader == Reading && !c.cancelled {
      FinishKeepsInv(fl, c, Some(reason));
    }
  }

  lemma CancelKeepsInv(fl: real -> real, c: Client)
    requires Inv(fl, c)
    ensures Inv(fl, CancelDelivered(c))
  {
    if c.cancelled && c.reader == Reading {
      FinishKeepsInv(fl, c, None);
    }
  }

  lemma SimpleStepsKeepInv(fl: real -> real, c: Client)
    requires Inv(fl, c)
    ensures Inv(fl, Started(c)) && Inv(fl, CloseBegun(c))
  {
  }

  lemma LastStepsKeepInv(fl: real -> real, c: Client)
    requires Inv(fl, c)
    ensures Inv(fl, WriterReleased(c)) && Inv(fl, CloseEnded(c))
  {
  }

  lemma BeginKeepsInv(fl: real -> real, c: Client, ref: TopicRef, value: Value, compartment: Option<int>)
    requires Inv(fl, c)
    ensures Inv(fl, Begin(fl, c, ref, value, compartment))
  {
    var r := SetFrame(fl, c.session.cache.values, ref, value, compartment);
    if r.Ok? {
      RegisterKeepsInv(fl, c, r.value.0, r.value.1);
    }
  }

  lemma CallStepKeepsInv(fl: real -> real, c: Client, step: Step)
    requires Inv(fl, c) && OfOneCall(step)
    ensures Inv(fl, OneCall(c, step))
  {
    match step
    case SetDrained(id) => DrainedKeepsInv(fl, c, id);
    case SetDrainFails(id, timedOut) => DrainFailedKeepsInv(fl, c, id, timedOut);
    case SetStops(id, why) => StoppedKeepsInv(fl, c, id, why);
    case SetResumes(id) => ResumedKeepsInv(fl, c, id);
  }

  lemma CloseStepKeepsInv(fl: real -> real, c: Client, step: Step)
    requires Inv(fl, c) && (step.CloseBegins? || step.CloseReleases? || step.CloseEnds?)
    ensures Inv(fl, Next(fl, c, step))
  {
    SimpleStepsKeepInv(fl, c);
    LastStepsKeepInv(fl, c);
  }

  lemma NextKeepsInv(fl: real -> real, c: Client, step: Step)
    requires Inv(fl, c)
    ensures Inv(fl, Next(fl, c, step))
  {
    match step
    case ReaderStarts => SimpleStepsKeepInv(fl, c);
    case ReaderGets(data) => GotKeepsInv(fl, c, data);
    case ReaderEnds(reason) => EndedKeepsInv(fl, c, reason);
    case ReaderCancelled => CancelKeepsInv(fl, c);
    case SetBegins(ref, value, compartment) => BeginKeepsInv(fl, c, ref, value, compartment);
    case CloseBegins => CloseStepKeepsInv(fl, c, step);
    case CloseReleases => CloseStepKeepsInv(fl, c, step);
    case CloseEnds => CloseStepKeepsInv(fl, c, step);
    case _ => CallStepKeepsInv(fl, c, step);
  }

  lemma {:induction false} RunKeepsInv(fl: real -> real, c: Client, steps: seq<Step>)
    requires Inv(fl, c)
    ensures Inv(fl, Run(fl, c, steps))
    decreases |steps|
  {
    if steps != [] {
      NextKeepsInv(fl, c, steps[0]);
      RunKeepsInv(fl, Next(fl, c, steps[0]), steps[1..]);
    }
  }

  lemma ConnectedIsOk(fl: real -> real)
    ensures Inv(fl, CONNECTED)
  {
  }

  // ---- what a caller of `set` is told

  /** What the answer to a call means, in terms of the events heard since it registered. */
  predicate AnswerIsTrue(fl: real -> real, call: Call, outcome: Outcome, c: Client) {
    match outcome
    case Confirmed(v) =>
      && DecidedBy(fl, call, c.log, true)
      && c.log[call.decided].Published? && c.log[call.decided].address == AddressOf(call.expectation.topic)
      && v == c.log[call.decided].value && Close(fl, v, call.expectation.expected, call.expectation.tolerance)
    case WriteRejected =>
      && DecidedBy(fl, call, c.log, false)
      && c.log[call.decided].Refused? && c.log[call.decided].address == AddressOf(call.expectation.topic)
    case ConnectionLost =>
      c.reader == Finished && call.since <= |c.log| && Silent(fl, call.expectation, c.log, call.since, |c.log|)
    case NotConnected => c.closed
    case _ => true
  }

  /** Over all runs: a returned value was published on the topic's address, within tolerance,
      after the call registered, as the first event to decide it; a rejection means a NAK there
      came first; a lost connection, that nothing decided the call before the reader finished. */
  lemma AnswersAreTrue(fl: real -> real, steps: seq<Step>, id: nat)
    requires id < |Run(fl, CONNECTED, steps).calls|
    ensures var c := Run(fl, CONNECTED, steps);
            c.calls[id].phase.Returned? ==> AnswerIsTrue(fl, c.calls[id], c.calls[id].phase.outcome, c)
  {
    ConnectedIsOk(fl);
    RunKeepsInv(fl, CONNECTED, steps);
    var c := Run(fl, CONNECTED, steps);
    if c.calls[id].phase.Returned? {
      AnswerIsTrueNow(fl, c, id);
    }
  }

  lemma AnswerIsTrueNow(fl: real -> real, c: Client, id: nat)
    requires Inv(fl, c) && id < |c.calls| && c.calls[id].phase.Returned?
    ensures AnswerIsTrue(fl, c.calls[id], c.calls[id].phase.outcome, c)
  {
    assert FutureOk(fl, c.calls[id], c.log, c.reader == Finished) && PhaseOk(c.calls[id], c.closed);
  }

  /** Over all runs: a call still waiting has missed nothing, and once the reader has finished
      no registered call is left waiting. */
  lemma NoWaiterIsStranded(fl: real -> real, steps: seq<Step>, id: nat)
    requires id in Run(fl, CONNECTED, steps).pending
    ensures var c := Run(fl, CONNECTED, steps);
            && id < |c.calls|
            && (c.calls[id].fut == Waiting ==>
                  && c.reader != Finished
                  && c.calls[id].since <= |c.log|
                  && Silent(fl, c.calls[id].expectation, c.log, c.calls[id].since, |c.log|))
  {
    ConnectedIsOk(fl);
    RunKeepsInv(fl, CONNECTED, steps);
    var c := Run(fl, CONNECTED, steps);
    assert FutureOk(fl, c.calls[id], c.log, c.reader == Finished);
  }

  /** What one step leaves alone: who a call is, a future once completed, an answer once given,
      and, on a closed client, what has been sent. */
  ghost predicate Keeps(c: Client, d: Client) {
    && |c.calls| <= |d.calls|
    && (forall id :: 0 <= id < |c.calls| ==>
          && d.calls[id].expectation == c.calls[id].expectation && d.calls[id].since == c.calls[id].since
          && (c.calls[id].fut != Waiting ==>
                d.calls[id].fut == c.calls[id].fut && d.calls[id].decided == c.calls[id].decided)
          && (c.calls[id].phase.Returned? ==> d.calls[id].phase == c.calls[id].phase))
    && (c.closed ==> d.closed && d.sent == c.sent)
  }

  lemma KeepsTwice(c: Client, d: Client, e: Client)
    requires Keeps(c, d) && Keeps(d, e)
    ensures Keeps(c, e)
  {
  }

  lemma {:induction false} HearAllKeeps(fl: real -> real, c: Client, evs: seq<Event>)
    ensures Keeps(c, HearAll(fl, c, evs))
    decreases |evs|
  {
    if evs != [] {
      HearAllKeeps(fl, Hear(fl, c, evs[0]), evs[1..]);
      KeepsTwice(c, Hear(fl, c, evs[0]), HearAll(fl, c, evs));
    }
  }

  lemma ReturnKeeps(c: Client, id: nat, outcome: Outcome)
    requires id < |c.calls| && !c.calls[id].phase.Returned?
    ensures Keeps(c, Return(c, id, outcome))
  {
  }

  lemma MoveKeeps(c: Client, id: nat, phase: Phase, fut: Future)
    requires id < |c.calls| && !c.calls[id].phase.Returned? && (c.calls[id].fut != Waiting ==> fut == c.calls[id].fut)
    ensures Keeps(c, Move(c, id, phase, fut))
  {
  }

  lemma FinishKeeps(c: Client, reason: Option<Reason>)
    ensures Keeps(c, Finish(c, reason))
  {
  }

  lemma RegisterKeeps(c: Client, frame: Frame, e: Expectation)
    ensures Keeps(c, Register(c, frame, e))
  {
  }

  lemma DrainingKeeps(c: Client, id: nat, timedOut: bool)
    ensures Keeps(c, Drained(c, id)) && Keeps(c, DrainFailed(c, id, timedOut))
  {
    if In(c, id, Draining) {
      ReturnKeeps(c, id, if timedOut then WriteTimeout else DrainError);
      MoveKeeps(c, id, Awaiting, c.calls[id].fut);
      if c.calls[id].fut != Waiting {
        ReturnKeeps(c, id, OutcomeOf(c.calls[id].fut));
      }
    }
  }

  lemma StoppingKeeps(c: Client, id: nat, why: Stop)
    ensures Keeps(c, Stopped(c, id, why)) && Keeps(c, Resumed(c, id))
  {
    if id < |c.calls| && !c.calls[id].phase.Returned? {
      MoveKeeps(c, id, Interrupted(why), if c.calls[id].fut == Waiting then Cancelled else c.calls[id].fut);
      MoveKeeps(c, id, Interrupted(why), c.calls[id].fut);
      if c.calls[id].fut != Waiting {
        ReturnKeeps(c, id, OutcomeOf(c.calls[id].fut));
      }
      if c.calls[id].phase.Interrupted? {
        ReturnKeeps(c, id, StoppedOutcome(c.calls[id].phase.why));
      }
    }
  }

  lemma GotKeeps(fl: real -> real, c: Client, data: Bytes)
    ensures Keeps(c, Got(fl, c, data))
  {
    if c.reader == Reading && !c.cancelled && data != [] {
      var (s, evs) := Received(fl, c.session, data);
      HearAllKeeps(fl, c.(session := s), evs);
    }
  }

  lemma NextKeeps(fl: real -> real, c: Client, step: Step)
    ensures Keeps(c, Next(fl, c, step))
  {
    match step
    case ReaderStarts =>
    case ReaderGets(data) => GotKeeps(fl, c, data);
    case ReaderEnds(reason) => FinishKeeps(c, Some(reason));
    case ReaderCancelled => FinishKeeps(c, None);
    case SetBegins(ref, value, compartment) =>
      var r := SetFrame(fl, c.session.cache.values, ref, value, compartment);
      if r.Ok? {
        RegisterKeeps(c, r.value.0, r.value.1);
      }
    case SetDrained(id) => DrainingKeeps(c, id, false);
    case SetDrainFails(id, timedOut) => DrainingKeeps(c, id, timedOut);
    case SetStops(id, why) => StoppingKeeps(c, id, why);
    case SetResumes(id) => StoppingKeeps(c, id, TimedOut);
    case CloseBegins =>
    case CloseReleases =>
    case CloseEnds =>
  }

  /** Over all runs: every future is completed at most once, every answer is given once, a
      client once closed stays closed, and nothing is sent after that. */
  lemma {:induction false} FuturesSettleOnce(fl: real -> real, c: Client, steps: seq<Step>)
    ensures Keeps(c, Run(fl, c, steps))
    decreases |steps|
  {
    if steps != [] {
      var d := Next(fl, c, steps[0]);
      NextKeeps(fl, c, steps[0]);
      FuturesSettleOnce(fl, d, steps[1..]);
      KeepsTwice(c, d, Run(fl, d, steps[1..]));
    }
  }

  // ---- the frames sent

  /** The frame that one step writes, if any. */
  function FrameOf(fl: real -> real, c: Client, step: Step): seq<Frame> {
    if step.SetBegins? && !c.closed then
      match SetFrame(fl, c.session.cache.values, step.ref, step.value, step.compartment)
      case Ok((frame, _)) => [frame]
      case Err(_) => []
    else []
  }

  /** The frames of all writes that are accepted while the client is open. */
  function FramesOf(fl: real -> real, c: Client, steps: seq<Step>): seq<Frame>
    decreases |steps|
  {
    if steps == [] then [] else FrameOf(fl, c, steps[0]) + FramesOf(fl, Next(fl, c, steps[0]), steps[1..])
  }

  predicate MayBeSent(f: Frame) {
    f.action == SET && TopicAt(f.address).Some? && IsWritable(TopicAt(f.address).value) && f.address !in NEVER_WRITE
  }

  lemma {:induction false} HearAllSends(fl: real -> real, c: Client, evs: seq<Event>)
    ensures HearAll(fl, c, evs).sent == c.sent
    decreases |evs|
  {
    if evs != [] {
      HearAllSends(fl, Hear(fl, c, evs[0]), evs[1..]);
    }
  }

  lemma NextSends(fl: real -> real, c: Client, step: Step)
    ensures Next(fl, c, step).sent == c.sent + FrameOf(fl, c, step)
    ensures forall i :: 0 <= i < |FrameOf(fl, c, step)| ==> MayBeSent(FrameOf(fl, c, step)[i])
  {
    Unit(c.sent);
    match step
    case ReaderGets(data) =>
      HearAllSends(fl, c.(session := Received(fl, c.session, data).0), Received(fl, c.session, data).1);
    case SetBegins(ref, value, compartment) =>
      var r := SetFrame(fl, c.session.cache.values, ref, value, compartment);
      if r.Ok? {
        OnlyWritableTopicsAreSet(fl, c.session.cache.values, ref, value, compartment, r.value.0, r.value.1);
      }
    case _ =>
  }

  /** Over all runs: what is sent is one frame for each write accepted while the client was
      open, in order, and each sets a writable topic at no address of the never-write list. */
  lemma {:induction false} EachAcceptedWriteIsSentOnce(fl: real -> real, c: Client, steps: seq<Step>)
    ensures Run(fl, c, steps).sent == c.sent + FramesOf(fl, c, steps)
    ensures forall i :: 0 <= i < |FramesOf(fl, c, steps)| ==> MayBeSent(FramesOf(fl, c, steps)[i])
    decreases |steps|
  {
    if steps == [] {
      Unit(c.sent);
    } else {
      var d := Next(fl, c, steps[0]);
      NextSends(fl, c, steps[0]);
      EachAcceptedWriteIsSentOnce(fl, d, steps[1..]);
      Assoc(c.sent, FrameOf(fl, c, steps[0]), FramesOf(fl, d, steps[1..]));
    }
  }

  // ---- the events heard

  /** The bytes one step hands to the session. */
  function BytesOf(c: Client, step: Step): Bytes {
    if step.ReaderGets? && c.reader == Reading && !c.cancelled then step.data else []
  }

  /** The bytes the reader gets in a run. */
  function BytesRead(fl: real -> real, c: Client, steps: seq<Step>): Bytes
    decreases |steps|
  {
    if steps == [] then [] else BytesOf(c, steps[0]) + BytesRead(fl, Next(fl, c, steps[0]), steps[1..])
  }

  lemma {:induction false} HearAllLogs(fl: real -> real, c: Client, evs: seq<Event>)
    ensures HearAll(fl, c, evs).log == c.log + evs
    ensures HearAll(fl, c, evs).session == c.session
    decreases |evs|
  {
    if evs == [] {
      Unit(c.log);
    } else {
      HearAllLogs(fl, Hear(fl, c, evs[0]), evs[1..]);
      Assoc(c.log, [evs[0]], evs[1..]);
      assert evs == [evs[0]] + evs[1..];
    }
  }

  lemma NothingHeard(fl: real -> real, c: Client, step: Step)
    requires BytesOf(c, step) == []
    ensures Next(fl, c, step).session == c.session && Next(fl, c, step).log == c.log
  {
  }

  lemma NextLogs(fl: real -> real, c: Client, step: Step)
    requires CR !in c.session.decoder.buf
    ensures var (s, evs) := Received(fl, c.session, BytesOf(c, step));
            Next(fl, c, step).session == s && Next(fl, c, step).log == c.log + evs
  {
    if BytesOf(c, step) == [] {
      NothingReceived(fl, c.session);
      Unit(c.log);
      NothingHeard(fl, c, step);
    } else {
      var (s, evs) := Received(fl, c.session, BytesOf(c, step));
      HearAllLogs(fl, c.(session := s), evs);
    }
  }

  lemma NothingReceived(fl: real -> real, s: SessionState)
    requires CR !in s.decoder.buf
    ensures Received(fl, s, []) == (s, [])
  {
    var buf := s.decoder.buf;
    Unit(buf);
    assert buf[..|buf|] == buf;
    FirstCRUnique(buf, |buf|);
    assert Fed(s.decoder, []) == (s.decoder, []);
    assert EventsOf(fl, []) == [];
  }

  lemma {:induction false} EventsAreThoseOfTheBytes(fl: real -> real, c: Client, steps: seq<Step>)
    requires CR !in c.session.decoder.buf
    ensures var (s, evs) := Received(fl, c.session, BytesRead(fl, c, steps));
            Run(fl, c, steps).session == s && Run(fl, c, steps).log == c.log + evs
    decreases |steps|
  {
    if steps == [] {
      NothingReceived(fl, c.session);
      Unit(c.log);
    } else {
      var d, data := Next(fl, c, steps[0]), BytesOf(c, steps[0]);
      NextLogs(fl, c, steps[0]);
      RestHasNoCR(c.session.decoder.buf + data);
      EventsAreThoseOfTheBytes(fl, d, steps[1..]);
      var rest := BytesRead(fl, d, steps[1..]);
      ReceivedConcat(fl, c.session, data, rest);
      Assoc(c.log, Received(fl, c.session, data).1, Received(fl, d.session, rest).1);
    }
  }

  /** Over all runs: the event queue holds exactly the events of the bytes read, in order,
      however they were cut into chunks and whatever ran in between, and then an end mark for
      the reader's end and one for `close`. */
  lemma EventsReachTheQueue(fl: real -> real, steps: seq<Step>)
    ensures var c := Run(fl, CONNECTED, steps);
            c.queue == Somes(Received(fl, EMPTY, BytesRead(fl, CONNECTED, steps)).1) + Ends(c)
  {
    ConnectedIsOk(fl);
    RunKeepsInv(fl, CONNECTED, steps);
    EventsAreThoseOfTheBytes(fl, CONNECTED, steps);
    QueueHolds(Run(fl, CONNECTED, steps), Received(fl, EMPTY, BytesRead(fl, CONNECTED, steps)).1);
  }

  lemma QueueHolds(c: Client, evs: seq<Event>)
    requires QueueOk(c) && c.log == [] + evs
    ensures c.queue == Somes(evs) + Ends(c)
  {
    Unit(evs);
  }

  // ---- the waiters that are stranded after all

  /** The reader has been cancelled before its first step: it never runs. */
  predicate NeverRuns(c: Client) {
    c.cancelled && c.reader in {Unstarted, Aborted}
  }

  /** The call has registered, and nothing has stopped it yet. */
  predicate Registered(c: Client, id: nat) {
    In(c, id, Draining) || In(c, id, Awaiting)
  }

  predicate Stranded(c: Client, id: nat, log: seq<Event>) {
    NeverRuns(c) && Registered(c, id) && c.calls[id].fut == Waiting && c.log == log
  }

  predicate Stops(step: Step, id: nat) {
    step.SetStops? && step.id == id
  }

  /** The step ends the call otherwise than by an answer. */
  predicate Abandons(step: Step, id: nat) {
    Stops(step, id) || (step.SetDrainFails? && step.id == id)
  }

  predicate NeverAbandoned(steps: seq<Step>, id: nat) {
    forall i :: 0 <= i < |steps| ==> !Abandons(steps[i], id)
  }

  /** A stranded waiter hears nothing more: only a timeout, a cancellation or a failing drain ends
      it. */
  lemma {:induction false} StrandedUntilStopped(fl: real -> real, c: Client, steps: seq<Step>, id: nat)
    requires Stranded(c, id, c.log) && NeverAbandoned(steps, id)
    ensures Stranded(Run(fl, c, steps), id, c.log)
    decreases |steps|
  {
    if steps != [] {
      StillStranded(fl, c, steps[0], id);
      StrandedUntilStopped(fl, Next(fl, c, steps[0]), steps[1..], id);
    }
  }

  /** A cancelled reader that has started can only finish; one that has not, only abort. */
  lemma {:induction false} CancelledReaderEnds(fl: real -> real, c: Client, steps: seq<Step>)
    requires c.cancelled
    ensures var d := Run(fl, c, steps);
            && d.cancelled
            && (NeverRuns(d) <==> NeverRuns(c))
    decreases |steps|
  {
    if steps != [] {
      NextKeepsCancelled(fl, c, steps[0]);
      CancelledReaderEnds(fl, Next(fl, c, steps[0]), steps[1..]);
    }
  }

  lemma NextKeepsCancelled(fl: real -> real, c: Client, step: Step)
    requires c.cancelled
    ensures Next(fl, c, step).cancelled && (NeverRuns(Next(fl, c, step)) <==> NeverRuns(c))
  {
  }

  /** Closing a client fails its waiters, unless the reader has not taken its first step: then
      its `finally` block never runs. In any run that begins with `close` and in which the
      reader ends, a call that was waiting, draining or not, and that nothing else ends, is left
      waiting exactly when the reader had not started. */
  lemma CloseStrandsIff(fl: real -> real, c: Client, steps: seq<Step>, id: nat)
    requires Inv(fl, c) && !c.closed && Registered(c, id) && c.calls[id].fut == Waiting
    requires NeverAbandoned(steps, id)
    requires Run(fl, CloseBegun(c), steps).reader in {Finished, Aborted}
    ensures var d := Run(fl, CloseBegun(c), steps);
            && id < |d.calls|
            && (d.calls[id].fut == Waiting <==> c.reader == Unstarted)
  {
    var b := CloseBegun(c);
    var d := Run(fl, b, steps);
    SimpleStepsKeepInv(fl, c);
    CancelledReaderEnds(fl, b, steps);
    FuturesSettleOnce(fl, b, steps);
    RunKeepsInv(fl, b, steps);
    if c.reader == Unstarted {
      StrandedUntilStopped(fl, b, steps, id);
    } else {
      StaysOnItsWay(fl, b, steps, id);
      assert FutureOk(fl, d.calls[id], d.log, d.reader == Finished);
    }
  }

  /** The call is still to be answered, or has returned what its future holds. */
  predicate OnItsWay(c: Client, id: nat) {
    && id < |c.calls| && c.calls[id].fut != Cancelled
    && (Registered(c, id) || (c.calls[id].fut != Waiting && In(c, id, Returned(OutcomeOf(c.calls[id].fut)))))
  }

  /** A call that is not abandoned waits on while its future does, and then returns what the
      future holds. */
  lemma {:induction false} StaysOnItsWay(fl: real -> real, c: Client, steps: seq<Step>, id: nat)
    requires OnItsWay(c, id) && NeverAbandoned(steps, id)
    ensures OnItsWay(Run(fl, c, steps), id)
    decreases |steps|
  {
    if steps != [] {
      StaysOnItsWayNext(fl, c, steps[0], id);
      StaysOnItsWay(fl, Next(fl, c, steps[0]), steps[1..], id);
    }
  }

  lemma CallStepsKeepTheWay(c: Client, id: nat, i: nat, timedOut: bool, why: Stop)
    requires OnItsWay(c, id)
    ensures OnItsWay(Drained(c, i), id) && OnItsWay(Resumed(c, i), id)
    ensures i != id ==> OnItsWay(DrainFailed(c, i, timedOut), id) && OnItsWay(Stopped(c, i, why), id)
  {
    if i == id {
      OwnStepsKeepTheWay(c, id);
    } else {
      OthersLeave(c, id, i, timedOut, why);
    }
  }

  lemma OwnStepsKeepTheWay(c: Client, id: nat)
    requires OnItsWay(c, id)
    ensures OnItsWay(Drained(c, id), id) && OnItsWay(Resumed(c, id), id)
  {
  }

  /** Call `id` stands as it did, and the reader and the log too. */
  predicate Left(c: Client, d: Client, id: nat) {
    && id < |c.calls| == |d.calls| && d.calls[id] == c.calls[id]
    && d.log == c.log && d.reader == c.reader && d.cancelled == c.cancelled
  }

  lemma ReturningLeaves(c: Client, id: nat, i: nat, outcome: Outcome)
    requires id < |c.calls| && i < |c.calls| && i != id
    ensures Left(c, Return(c, i, outcome), id)
  {
  }

  lemma MovingLeaves(c: Client, id: nat, i: nat, phase: Phase, fut: Future)
    requires id < |c.calls| && i < |c.calls| && i != id
    ensures Left(c, Move(c, i, phase, fut), id)
  {
  }

  /** The steps of one call leave every other. */
  lemma OthersLeave(c: Client, id: nat, i: nat, timedOut: bool, why: Stop)
    requires id < |c.calls| && i != id
    ensures Left(c, Drained(c, i), id) && Left(c, DrainFailed(c, i, timedOut), id)
    ensures Left(c, Stopped(c, i, why), id) && Left(c, Resumed(c, i), id)
  {
    if i < |c.calls| {
      var fut := c.calls[i].fut;
      ReturningLeaves(c, id, i, if timedOut then WriteTimeout else DrainError);
      MovingLeaves(c, id, i, Awaiting, fut);
      MovingLeaves(c, id, i, Interrupted(why), if fut == Waiting then Cancelled else fut);
      MovingLeaves(c, id, i, Interrupted(why), fut);
      if fut != Waiting {
        ReturningLeaves(c, id, i, OutcomeOf(fut));
      }
      if c.calls[i].phase.Interrupted? {
        ReturningLeaves(c, id, i, StoppedOutcome(c.calls[i].phase.why));
      }
    }
  }

  lemma RegisteringKeepsTheWay(c: Client, id: nat, frame: Frame, e: Expectation)
    requires OnItsWay(c, id)
    ensures OnItsWay(Register(c, frame, e), id)
  {
  }

  lemma {:induction false} HearingKeepsTheWay(fl: real -> real, c: Client, evs: seq<Event>, id: nat)
    requires OnItsWay(c, id)
    ensures OnItsWay(HearAll(fl, c, evs), id)
    decreases |evs|
  {
    if evs != [] {
      HearingKeepsTheWay(fl, Hear(fl, c, evs[0]), evs[1..], id);
    }
  }

  lemma GettingKeepsTheWay(fl: real -> real, c: Client, data: Bytes, id: nat)
    requires OnItsWay(c, id)
    ensures OnItsWay(Got(fl, c, data), id)
  {
    if c.reader == Reading && !c.cancelled && data != [] {
      var (s, evs) := Received(fl, c.session, data);
      HearingKeepsTheWay(fl, c.(session := s), evs, id);
    }
  }

  lemma BeginningKeepsTheWay(fl: real -> real, c: Client, ref: TopicRef, value: Value, compartment: Option<int>,
                             id: nat)
    requires OnItsWay(c, id)
    ensures OnItsWay(Begin(fl, c, ref, value, compartment), id)
  {
    var r := SetFrame(fl, c.session.cache.values, ref, value, compartment);
    if r.Ok? {
      RegisteringKeepsTheWay(c, id, r.value.0, r.value.1);
    }
  }

  lemma EndingKeepsTheWay(c: Client, reason: Reason, id: nat)
    requires OnItsWay(c, id)
    ensures OnItsWay(Ended(c, reason), id) && OnItsWay(CancelDelivered(c), id)
  {
  }

  lemma CallStepKeepsTheWay(c: Client, step: Step, id: nat)
    requires OnItsWay(c, id) && !Abandons(step, id) && OfOneCall(step)
    ensures OnItsWay(OneCall(c, step), id)
  {
    match step
    case SetDrained(i) => CallStepsKeepTheWay(c, id, i, false, TimedOut);
    case SetDrainFails(i, timedOut) => CallStepsKeepTheWay(c, id, i, timedOut, TimedOut);
    case SetStops(i, why) => CallStepsKeepTheWay(c, id, i, false, why);
    case SetResumes(i) => CallStepsKeepTheWay(c, id, i, false, TimedOut);
  }

  lemma StaysOnItsWayNext(fl: real -> real, c: Client, step: Step, id: nat)
    requires OnItsWay(c, id) && !Abandons(step, id)
    ensures OnItsWay(Next(fl, c, step), id)
  {
    match step
    case ReaderGets(data) => GettingKeepsTheWay(fl, c, data, id);
    case SetBegins(ref, value, compartment) => BeginningKeepsTheWay(fl, c, ref, value, compartment, id);
    case ReaderEnds(reason) => EndingKeepsTheWay(c, reason, id);
    case ReaderCancelled => EndingKeepsTheWay(c, PeerClosed, id);
    case _ =>
      if OfOneCall(step) {
        CallStepKeepsTheWay(c, step, id);
      }
  }

  lemma OtherCallsDoNotMatter(c: Client, id: nat, step: nat, timedOut: bool, why: Stop)
    requires Stranded(c, id, c.log)
    ensures Stranded(Drained(c, step), id, c.log)
    ensures step != id ==> Stranded(DrainFailed(c, step, timedOut), id, c.log)
    ensures Stranded(Resumed(c, step), id, c.log)
    ensures step != id ==> Stranded(Stopped(c, step, why), id, c.log)
  {
    if step != id {
      OthersLeave(c, id, step, timedOut, why);
    }
  }

  lemma RegisteringDoesNotMatter(c: Client, id: nat, frame: Frame, e: Expectation)
    requires Stranded(c, id, c.log)
    ensures Stranded(Register(c, frame, e), id, c.log)
  {
  }

  lemma StillStranded(fl: real -> real, c: Client, step: Step, id: nat)
    requires Stranded(c, id, c.log) && !Abandons(step, id)
    ensures Stranded(Next(fl, c, step), id, c.log)
  {
    match step
    case SetBegins(ref, value, compartment) =>
      var r := SetFrame(fl, c.session.cache.values, ref, value, compartment);
      if r.Ok? {
        RegisteringDoesNotMatter(c, id, r.value.0, r.value.1);
      }
    case SetDrained(i) => OtherCallsDoNotMatter(c, id, i, false, TimedOut);
    case SetDrainFails(i, timedOut) => OtherCallsDoNotMatter(c, id, i, timedOut, TimedOut);
    case SetStops(i, why) => OtherCallsDoNotMatter(c, id, i, false, why);
    case SetResumes(i) => OtherCallsDoNotMatter(c, id, i, false, TimedOut);
    case _ =>
  }

  /** A run that strands a waiter: switch the cooler on, then close before the reader has run. */
  lemma StrandedWaiter(fl: real -> real)
    ensures var steps := [SetBegins(ByTopic(Coolerpow), Flag(true), None), SetDrained(0), CloseBegins, ReaderCancelled];
            var c := Run(fl, CONNECTED, steps);
            c.reader == Aborted && c.pending == [0] && In(c, 0, Awaiting) && c.calls[0].fut == Waiting
  {
    var r := SetFrame(fl, map[], ByTopic(Coolerpow), Flag(true), None);
    assert r.Ok?;
    var s1 := SetBegins(ByTopic(Coolerpow), Flag(true), None);
    var c1 := Register(CONNECTED, r.value.0, r.value.1);
    RunFirst(fl, CONNECTED, s1, [SetDrained(0), CloseBegins, ReaderCancelled]);
    assert [s1, SetDrained(0), CloseBegins, ReaderCancelled] == [s1] + [SetDrained(0), CloseBegins, ReaderCancelled];
    CloseStrandsTheOnlyCall(fl, r.value.0, r.value.1);
  }

  lemma RunFirst(fl: real -> real, c: Client, step: Step, rest: seq<Step>)
    ensures Run(fl, c, [step] + rest) == Run(fl, Next(fl, c, step), rest)
  {
    assert ([step] + rest)[1..] == rest;
  }

  lemma CloseStrandsTheOnlyCall(fl: real -> real, frame: Frame, e: Expectation)
    ensures var c := Run(fl, Register(CONNECTED, frame, e), [SetDrained(0), CloseBegins, ReaderCancelled]);
            c.reader == Aborted && c.pending == [0] && In(c, 0, Awaiting) && c.calls[0].fut == Waiting
  {
    var c1 := Register(CONNECTED, frame, e);
    var c2 := Drained(c1, 0);
    var c3 := CloseBegun(c2);
    RunFirst(fl, c3, ReaderCancelled, []);
    RunFirst(fl, c2, CloseBegins, [ReaderCancelled]);
    RunFirst(fl, c1, SetDrained(0), [CloseBegins, ReaderCancelled]);
  }

  // ---- the writer

  lemma ClosedIsNotAsked(fl: real -> real, c: Client, step: Step)
    requires c.closed && c.closer == NotAsked
    ensures Next(fl, c, step).closed && Next(fl, c, step).closer == NotAsked
  {
    NextKeeps(fl, c, step);
    CloserMoves(fl, c, step);
  }

  lemma CloserMoves(fl: real -> real, c: Client, step: Step)
    ensures Next(fl, c, step).closer != c.closer ==>
              step in {CloseBegins, CloseReleases, CloseEnds} && Next(fl, c, step).closer != NotAsked
    ensures step == CloseBegins && c.closed ==> Next(fl, c, step) == c
  {
    if step.ReaderGets? {
      var (s, evs) := Received(fl, c.session, step.data);
      HearAllLeavesTheCloser(fl, c.(session := s), evs);
    }
  }

  lemma {:induction false} HearAllLeavesTheCloser(fl: real -> real, c: Client, evs: seq<Event>)
    ensures HearAll(fl, c, evs).closer == c.closer
    decreases |evs|
  {
    if evs != [] {
      HearAllLeavesTheCloser(fl, Hear(fl, c, evs[0]), evs[1..]);
    }
  }

  /** After a reader that has ended on its own nothing releases the writer: every `close` returns
      at once. */
  lemma {:induction false} EndedReaderLeavesTheWriter(fl: real -> real, c: Client, steps: seq<Step>)
    requires Inv(fl, c) && c.closed && c.closer == NotAsked
    ensures var d := Run(fl, c, steps);
            d.closer == NotAsked && !d.released
    decreases |steps|
  {
    if steps != [] {
      NextKeepsInv(fl, c, steps[0]);
      ClosedIsNotAsked(fl, c, steps[0]);
      EndedReaderLeavesTheWriter(fl, Next(fl, c, steps[0]), steps[1..]);
    }
  }

  lemma {:induction false} AskedStays(fl: real -> real, c: Client, steps: seq<Step>)
    requires c.closer != NotAsked
    ensures Run(fl, c, steps).closer != NotAsked
    decreases |steps|
  {
    if steps != [] {
      CloserMoves(fl, c, steps[0]);
      AskedStays(fl, Next(fl, c, steps[0]), steps[1..]);
    }
  }

  /** The first `close` releases the writer exactly when the reader had not finished before it:
      in any run that begins with it and in which it has returned. */
  lemma CloseReleasesIff(fl: real -> real, c: Client, steps: seq<Step>)
    requires Inv(fl, c) && c.closer == NotAsked
    requires Run(fl, CloseBegun(c), steps).closer in {NotAsked, Done}
    ensures Run(fl, CloseBegun(c), steps).released <==> c.reader != Finished
  {
    SimpleStepsKeepInv(fl, c);
    RunKeepsInv(fl, CloseBegun(c), steps);
    if c.closed {
      EndedReaderLeavesTheWriter(fl, c, steps);
    } else {
      AskedStays(fl, CloseBegun(c), steps);
    }
  }

  /** So a client whose cooler hangs up keeps its writer, whatever is called on it afterwards. */
  lemma WriterIsLeft(fl: real -> real, steps: seq<Step>)
    ensures !Run(fl, CONNECTED, [ReaderStarts] + ([ReaderEnds(PeerClosed)] + steps)).released
  {
    var c := Ended(Started(CONNECTED), PeerClosed);
    RunFirst(fl, CONNECTED, ReaderStarts, [ReaderEnds(PeerClosed)] + steps);
    RunFirst(fl, Started(CONNECTED), ReaderEnds(PeerClosed), steps);
    ConnectedIsOk(fl);
    NextKeepsInv(fl, CONNECTED, ReaderStarts);
    NextKeepsInv(fl, Started(CONNECTED), ReaderEnds(PeerClosed));
    EndedReaderLeavesTheWriter(fl, c, steps);
  }

  // ---- the reason kept

  lemma FinishedReaderStays(fl: real -> real, c: Client, step: Step)
    requires c.reader == Finished || c.reader == Aborted
    ensures Next(fl, c, step).reader == c.reader && Next(fl, c, step).reason == c.reason
  {
  }

  lemma {:induction false} ReasonStays(fl: real -> real, c: Client, steps: seq<Step>)
    requires c.reader == Finished || c.reader == Aborted
    ensures Run(fl, c, steps).reader == c.reader && Run(fl, c, steps).reason == c.reason
    decreases |steps|
  {
    if steps != [] {
      FinishedReaderStays(fl, c, steps[0]);
      ReasonStays(fl, Next(fl, c, steps[0]), steps[1..]);
    }
  }

  /** A reader that ends on its own leaves its reason for good: that the cooler hung up, or that
      reading failed. */
  lemma ReasonIsKept(fl: real -> real, c: Client, reason: Reason, steps: seq<Step>)
    requires c.reader == Reading && !c.cancelled
    ensures Run(fl, c, [ReaderEnds(reason)] + steps).reason == Some(reason)
    ensures Run(fl, c, [ReaderEnds(reason)] + steps).closed
  {
    RunFirst(fl, c, ReaderEnds(reason), steps);
    ReasonStays(fl, Ended(c, reason), steps);
    FuturesSettleOnce(fl, Ended(c, reason), steps);
  }

  lemma CancelledKeepsNoReason(fl: real -> real, c: Client, step: Step)
    requires c.cancelled && c.reason == None
    ensures Next(fl, c, step).cancelled && Next(fl, c, step).reason == None
  {
    if step.ReaderGets? {
      assert Got(fl, c, step.data) == c;
    }
  }

  /** One that `close` cancels leaves none. */
  lemma {:induction false} ClosedKeepsNoReason(fl: real -> real, c: Client, steps: seq<Step>)
    requires c.cancelled && c.reason == None
    ensures Run(fl, c, steps).reason == None
    decreases |steps|
  {
    if steps != [] {
      CancelledKeepsNoReason(fl, c, steps[0]);
      ClosedKeepsNoReason(fl, Next(fl, c, steps[0]), steps[1..]);
    }
  }

  // ---- the client object

  /** `AsyncClient`. Each method is the code between two suspension points; `calls` are the
      coroutines of `set`, `log` numbers the events heard. */
  class AsyncClient {
    const session: Session
    var calls: seq<Call>
    var pending: seq<nat>
    var closed: bool
    var cancelled: bool
    var closer: Closer
    var released: bool
    var reader: Reader
    var reason: Option<Reason>
    var log: seq<Event>
    var queue: seq<Option<Event>>
    var sent: seq<Frame>

    constructor (fl: real -> real)
      ensures fresh(session) && fresh(session.decoder) && session.fl == fl
      ensures State() == CONNECTED && Valid()
    {
      session := new Session(fl);
      calls, pending, log, queue, sent := [], [], [], [], [];
      closed, cancelled, closer, released, reader, reason := false, false, NotAsked, false, Unstarted, None;
    }

    ghost function State(): Client
      reads this, session, session.decoder
    {
      Client(session.State(), calls, pending, closed, cancelled, closer, released, reader, reason, log, queue, sent)
    }

    ghost predicate Valid()
      reads this, session, session.decoder
    {
      Inv(session.fl, State())
    }

    /** `_resolve`: completing a future that is done would be an error, so done ones are
        passed over. */
    method Resolve(event: Event)
      requires Valid()
      modifies this`calls
      ensures calls == Resolved(session.fl, old(calls), pending, event, |log|)
    {
      for i := 0 to |pending|
        invariant |calls| == |old(calls)|
        invariant forall id :: 0 <= id < |calls| ==>
                    calls[id] == if id in pending[..i] then Judged(session.fl, old(calls)[id], event, |log|)
                                 else old(calls)[id]
      {
        var id := pending[i];
        var call := calls[id];
        assert pending[..i + 1] == pending[..i] + [id];
        if call.fut == Waiting {
          match Verdict(session.fl, call.expectation, event) {
            case Some(true) => calls := calls[id := Complete(call, Result(event.value), |log|)];
            case Some(false) => calls := calls[id := Complete(call, Rejected, |log|)];
            case None =>
          }
        }
      }
      assert pending[..|pending|] == pending;
    }

    /** The `finally` block of `set`. */
    method Leave(id: nat, outcome: Outcome)
      requires id < |calls|
      modifies this`calls, this`pending
      ensures State() == Return(old(State()), id, outcome)
    {
      calls := calls[id := calls[id].(phase := Returned(outcome))];
      pending := Without(pending, id);
    }

    method SetBegins(ref: TopicRef, value: Value, compartment: Option<int>) returns (r: Result<nat, WriteError>)
      requires Valid()
      modifies this`calls, this`pending, this`sent
      ensures Valid() && State() == Begin(session.fl, old(State()), ref, value, compartment)
      ensures r.Ok? <==> SetFrame(session.fl, session.values, ref, value, compartment).Ok?
      ensures r.Ok? ==> r.value == |old(calls)| && |calls| == r.value + 1
    {
      BeginKeepsInv(session.fl, State(), ref, value, compartment);
      var made := SetFrame(session.fl, session.values, ref, value, compartment);
      if made.Err? {
        return Err(made.error);
      }
      var (frame, expectation) := made.value;
      var id := |calls|;
      calls := calls + [Call(expectation, Waiting, Draining, |log|, 0)];
      pending := pending + [id];
      if closed {
        WithoutLast(old(pending), id);
        Leave(id, NotConnected);
      } else {
        sent := sent + [frame];
      }
      r := Ok(id);
    }

    method SetDrained(id: nat)
      requires Valid() && id < |calls| && calls[id].phase == Draining
      modifies this`calls, this`pending
      ensures Valid() && State() == Drained(old(State()), id)
    {
      DrainedKeepsInv(session.fl, State(), id);
      if calls[id].fut == Waiting {
        calls := calls[id := calls[id].(phase := Awaiting)];
      } else {
        Leave(id, OutcomeOf(calls[id].fut));
      }
    }

    method SetDrainFails(id: nat, timedOut: bool)
      requires Valid() && id < |calls| && calls[id].phase == Draining
      modifies this`calls, this`pending
      ensures Valid() && State() == DrainFailed(old(State()), id, timedOut)
    {
      DrainFailedKeepsInv(session.fl, State(), id, timedOut);
      Leave(id, if timedOut then WriteTimeout else DrainError);
    }

    /** The timeout fires or the task is cancelled while the call is suspended; a cancellation
        that comes after the timeout, before the call has run again, takes its place. */
    method SetStops(id: nat, why: Stop)
      requires Valid() && id < |calls|
      requires calls[id].phase == Awaiting
               || (calls[id].phase in {Draining, Interrupted(TimedOut)} && why == TaskCancelled)
      modifies this`calls
      ensures Valid() && State() == Stopped(old(State()), id, why)
    {
      StoppedKeepsInv(session.fl, State(), id, why);
      var fut := if calls[id].phase == Awaiting && calls[id].fut == Waiting then Cancelled else calls[id].fut;
      calls := calls[id := calls[id].(phase := Interrupted(why), fut := fut)];
    }

    method SetResumes(id: nat)
      requires Valid() && id < |calls|
      requires calls[id].phase.Interrupted? || (calls[id].phase == Awaiting && calls[id].fut != Waiting)
      modifies this`calls, this`pending
      ensures Valid() && State() == Resumed(old(State()), id)
      ensures calls[id].phase.Returned? && id !in pending
    {
      ResumedKeepsInv(session.fl, State(), id);
      if calls[id].phase.Interrupted? {
        Leave(id, StoppedOutcome(calls[id].phase.why));
      } else {
        Leave(id, OutcomeOf(calls[id].fut));
      }
    }

    method ReaderStarts()
      requires Valid() && reader == Unstarted && !cancelled
      modifies this`reader
      ensures Valid() && State() == Started(old(State()))
    {
      SimpleStepsKeepInv(session.fl, State());
      reader := Reading;
    }

    method Take(event: Event)
      requires Valid() && reader == Reading
      modifies this`calls, this`log, this`queue
      ensures Valid() && State() == Hear(session.fl, old(State()), event)
    {
      HearKeepsInv(session.fl, State(), event);
      Resolve(event);
      log := log + [event];
      queue := queue + [Some(event)];
    }

    /** One turn of `_read_loop`: each decoded event resolves the waiters, then is queued. */
    method ReaderGets(data: Bytes)
      requires Valid() && reader == Reading && !cancelled && data != []
      modifies this`calls, this`log, this`queue, session, session.decoder
      ensures Valid() && State() == Got(session.fl, old(State()), data)
    {
      GotKeepsInv(session.fl, State(), data);
      ghost var c := State();
      var events := session.Feed(data);
      ghost var d := State();
      assert Got(session.fl, c, data) == HearAll(session.fl, d, events);
      for i := 0 to |events|
        invariant Inv(session.fl, State()) && reader == Reading
        invariant HearAll(session.fl, State(), events[i..]) == HearAll(session.fl, d, events)
      {
        Take(events[i]);
        assert events[i..][0] == events[i] && events[i..][1..] == events[i + 1..];
      }
    }

    method FailWaiters()
      requires forall i :: 0 <= i < |pending| ==> pending[i] < |calls|
      modifies this`calls
      ensures calls == Dropped(old(calls), pending, |log|)
    {
      for i := 0 to |pending|
        invariant |calls| == |old(calls)|
        invariant forall id :: 0 <= id < |calls| ==>
                    calls[id] == if id in pending[..i] && old(calls)[id].fut == Waiting
                                 then Complete(old(calls)[id], Lost, |log|) else old(calls)[id]
      {
        var id := pending[i];
        assert pending[..i + 1] == pending[..i] + [id];
        if calls[id].fut == Waiting {
          calls := calls[id := Complete(calls[id], Lost, |log|)];
        }
      }
      assert pending[..|pending|] == pending;
    }

    /** The `finally` block of `_read_loop`. */
    method ReaderFinishes(error: Option<Reason>)
      requires Valid() && reader == Reading
      modifies this`calls, this`reader, this`closed, this`reason, this`queue
      ensures Valid() && State() == Finish(old(State()), error)
    {
      FinishKeepsInv(session.fl, State(), error);
      reader := Finished;
      reason := error;
      closed := true;
      FailWaiters();
      queue := queue + [None];
    }

    method ReaderEnds(error: Reason)
      requires Valid() && reader == Reading && !cancelled
      modifies this`calls, this`reader, this`closed, this`reason, this`queue
      ensures Valid() && State() == Ended(old(State()), error)
    {
      ReaderFinishes(Some(error));
    }

    method ReaderCancelled()
      requires Valid() && cancelled && reader in {Unstarted, Reading}
      modifies this`calls, this`reader, this`closed, this`reason, this`queue
      ensures Valid() && State() == CancelDelivered(old(State()))
    {
      CancelKeepsInv(session.fl, State());
      if reader == Unstarted {
        reader := Aborted;
      } else {
        ReaderFinishes(None);
      }
    }

    method CloseBegins()
      requires Valid()
      modifies this`closed, this`cancelled, this`closer
      ensures Valid() && State() == CloseBegun(old(State()))
    {
      SimpleStepsKeepInv(session.fl, State());
      if closed {
        return;
      }
      closed := true;
      cancelled := true;
      closer := Closing;
    }

    method CloseReleases()
      requires Valid() && closer == Closing && reader in {Finished, Aborted}
      modifies this`closer, this`released
      ensures Valid() && State() == WriterReleased(old(State()))
    {
      LastStepsKeepInv(session.fl, State());
      closer := Releasing;
      released := true;
    }

    method CloseEnds()
      requires Valid() && closer == Releasing
      modifies this`closer, this`queue
      ensures Valid() && State() == CloseEnded(old(State()))
    {
      LastStepsKeepInv(session.fl, State());
      closer := Done;
      queue := queue + [None];
    }
  }

  lemma {:induction false} WithoutLast(pending: seq<nat>, id: nat)
    requires id !in pending
    ensures Without(pending + [id], id) == pending
  {
    if pending != [] {
      assert (pending + [id])[1..] == pending[1..] + [id];
      WithoutLast(pending[1..], id);
    }
  }
}
