/** How a call to `set` is answered, over all runs of the asyncio client. */
module Answers {
  import opened Common
  import opened Frames
  import opened LineStream
  import opened Floats
  import opened Codecs
  import opened Topics
  import opened Sessions
  import opened Writes
  import opened AsyncClients

  // ---- the first event that decides a write answers it

  /** Event `k` is the first of these to decide the write. */
  predicate FirstToDecide(fl: real -> real, e: Expectation, evs: seq<Event>, k: nat, verdict: bool) {
    k < |evs| && Silent(fl, e, evs, 0, k) && Verdict(fl, e, evs[k]) == Some(verdict)
  }

  function AnswerOf(ev: Event, verdict: bool): Future
    requires verdict ==> ev.Published?
  {
    if verdict then Result(ev.value) else Rejected
  }

  lemma TwoFirsts(fl: real -> real, call: Call, log: seq<Event>, verdict: bool, k: nat, other: bool)
    requires DecidedBy(fl, call, log, verdict) && call.since <= k < |log|
    requires Silent(fl, call.expectation, log, call.since, k)
    requires Verdict(fl, call.expectation, log[k]) == Some(other)
    ensures call.decided == k && verdict == other
  {
  }

  /** Between two states of a run, with `evs` heard in between: a call that was waiting, and is
      still on its way, has the answer of the first event that decides it. */
  lemma AnsweredInLog(fl: real -> real, c: Client, d: Client, id: nat, evs: seq<Event>, k: nat, verdict: bool)
    requires Inv(fl, c) && Inv(fl, d) && Keeps(c, d) && d.log == c.log + evs
    requires Registered(c, id) && c.calls[id].fut == Waiting && OnItsWay(d, id)
    requires FirstToDecide(fl, c.calls[id].expectation, evs, k, verdict)
    ensures verdict ==> evs[k].Published?
    ensures d.calls[id].fut == AnswerOf(evs[k], verdict)
  {
    var call, e := d.calls[id], c.calls[id].expectation;
    assert FutureOk(fl, c.calls[id], c.log, c.reader == Finished);
    assert FutureOk(fl, call, d.log, d.reader == Finished);
    SilentThrough(fl, e, c.log, evs, call.since, k);
    assert d.log[|c.log| + k] == evs[k];
    match call.fut
    case Result(v) => TwoFirsts(fl, call, d.log, true, |c.log| + k, verdict);
    case Rejected => TwoFirsts(fl, call, d.log, false, |c.log| + k, verdict);
    case _ =>
  }

  lemma SilentThrough(fl: real -> real, e: Expectation, log: seq<Event>, evs: seq<Event>, since: nat, k: nat)
    requires since <= |log| && k <= |evs| && Silent(fl, e, log, since, |log|) && Silent(fl, e, evs, 0, k)
    ensures Silent(fl, e, log + evs, since, |log| + k)
  {
    forall i | since <= i < |log| + k ensures Verdict(fl, e, (log + evs)[i]) == None {
      if i < |log| {
        assert (log + evs)[i] == log[i];
      } else {
        assert (log + evs)[i] == evs[i - |log|];
      }
    }
  }

  /** And where no event decides it, it waits on, or fails with the connection. */
  lemma UnansweredInLog(fl: real -> real, c: Client, d: Client, id: nat, evs: seq<Event>)
    requires Inv(fl, c) && Inv(fl, d) && Keeps(c, d) && d.log == c.log + evs
    requires Registered(c, id) && c.calls[id].fut == Waiting && OnItsWay(d, id)
    requires Silent(fl, c.calls[id].expectation, evs, 0, |evs|)
    ensures d.calls[id].fut in {Waiting, Lost}
  {
    var call, e := d.calls[id], c.calls[id].expectation;
    assert FutureOk(fl, c.calls[id], c.log, c.reader == Finished);
    assert FutureOk(fl, call, d.log, d.reader == Finished);
    SilentThrough(fl, e, c.log, evs, call.since, |evs|);
  }

  /** The events that a run hears. */
  function HeardIn(fl: real -> real, c: Client, steps: seq<Step>): seq<Event> {
    Received(fl, c.session, BytesRead(fl, c, steps)).1
  }

  lemma {:induction false} RunFacts(fl: real -> real, c: Client, steps: seq<Step>, id: nat)
    requires Inv(fl, c) && CR !in c.session.decoder.buf
    requires Registered(c, id) && c.calls[id].fut == Waiting && NeverAbandoned(steps, id)
    ensures var d := Run(fl, c, steps);
            Inv(fl, d) && Keeps(c, d) && OnItsWay(d, id) && d.log == c.log + HeardIn(fl, c, steps)
  {
    assert FutureOk(fl, c.calls[id], c.log, c.reader == Finished);
    RunKeepsInv(fl, c, steps);
    FuturesSettleOnce(fl, c, steps);
    StaysOnItsWay(fl, c, steps, id);
    EventsAreThoseOfTheBytes(fl, c, steps);
  }

  /** Over any run, however the bytes are chunked and whatever else happens: if the first event
      to decide a waiting call confirms it, the call's future holds the value published, and the
      call returns that value or has yet to run. */
  lemma {:induction false} ConfirmedInEveryRun(fl: real -> real, c: Client, steps: seq<Step>, id: nat, k: nat)
    requires Inv(fl, c) && CR !in c.session.decoder.buf
    requires Registered(c, id) && c.calls[id].fut == Waiting && NeverAbandoned(steps, id)
    requires FirstToDecide(fl, c.calls[id].expectation, HeardIn(fl, c, steps), k, true)
    ensures HeardIn(fl, c, steps)[k].Published?
    ensures var d, v := Run(fl, c, steps), HeardIn(fl, c, steps)[k].value;
            && id < |d.calls| && d.calls[id].fut == Result(v)
            && (Registered(d, id) || In(d, id, Returned(Confirmed(v))))
  {
    RunFacts(fl, c, steps, id);
    AnsweredInLog(fl, c, Run(fl, c, steps), id, HeardIn(fl, c, steps), k, true);
  }

  /** The same for a NAK. */
  lemma {:induction false} RejectedInEveryRun(fl: real -> real, c: Client, steps: seq<Step>, id: nat, k: nat)
    requires Inv(fl, c) && CR !in c.session.decoder.buf
    requires Registered(c, id) && c.calls[id].fut == Waiting && NeverAbandoned(steps, id)
    requires FirstToDecide(fl, c.calls[id].expectation, HeardIn(fl, c, steps), k, false)
    ensures var d := Run(fl, c, steps);
            && id < |d.calls| && d.calls[id].fut == Rejected
            && (Registered(d, id) || In(d, id, Returned(WriteRejected)))
  {
    RunFacts(fl, c, steps, id);
    AnsweredInLog(fl, c, Run(fl, c, steps), id, HeardIn(fl, c, steps), k, false);
  }

  /** And if no event decides it, it is still waiting or has lost the connection. */
  lemma {:induction false} UnansweredInEveryRun(fl: real -> real, c: Client, steps: seq<Step>, id: nat)
    requires Inv(fl, c) && CR !in c.session.decoder.buf
    requires Registered(c, id) && c.calls[id].fut == Waiting && NeverAbandoned(steps, id)
    requires Silent(fl, c.calls[id].expectation, HeardIn(fl, c, steps), 0, |HeardIn(fl, c, steps)|)
    ensures var d := Run(fl, c, steps);
            && id < |d.calls|
            && ((d.calls[id].fut == Waiting && Registered(d, id))
                || (d.calls[id].fut == Lost && (Registered(d, id) || In(d, id, Returned(ConnectionLost)))))
  {
    RunFacts(fl, c, steps, id);
    UnansweredInLog(fl, c, Run(fl, c, steps), id, HeardIn(fl, c, steps));
  }

  // ---- a timeout against an answer

  /** At some step of the run the call is stopped while it awaits its future. */
  predicate StoppedWhileAwaiting(fl: real -> real, c: Client, steps: seq<Step>, id: nat)
    decreases |steps|
  {
    steps != [] &&
    ((Stops(steps[0], id) && In(c, id, Awaiting)) || StoppedWhileAwaiting(fl, Next(fl, c, steps[0]), steps[1..], id))
  }

  lemma {:induction false} ReturnedIsNotStopped(fl: real -> real, c: Client, steps: seq<Step>, id: nat)
    requires id < |c.calls| && c.calls[id].phase.Returned?
    ensures !StoppedWhileAwaiting(fl, c, steps, id)
    decreases |steps|
  {
    if steps != [] {
      NextKeeps(fl, c, steps[0]);
      ReturnedIsNotStopped(fl, Next(fl, c, steps[0]), steps[1..], id);
    }
  }

  /** The call has been stopped, or has returned as one that was. */
  predicate GivenUp(c: Client, id: nat) {
    id < |c.calls| &&
    match c.calls[id].phase
    case Interrupted(_) => true
    case Returned(outcome) => outcome.WriteTimeout? || outcome.CallCancelled?
    case _ => false
  }

  lemma {:induction false} HearingKeepsPhases(fl: real -> real, c: Client, evs: seq<Event>, id: nat)
    requires id < |c.calls|
    ensures id < |HearAll(fl, c, evs).calls| && HearAll(fl, c, evs).calls[id].phase == c.calls[id].phase
    decreases |evs|
  {
    if evs != [] {
      HearingKeepsPhases(fl, Hear(fl, c, evs[0]), evs[1..], id);
    }
  }

  lemma GettingKeepsPhases(fl: real -> real, c: Client, data: Bytes, id: nat)
    requires id < |c.calls|
    ensures id < |Got(fl, c, data).calls| && Got(fl, c, data).calls[id].phase == c.calls[id].phase
  {
    if c.reader == Reading && !c.cancelled && data != [] {
      var (s, evs) := Received(fl, c.session, data);
      HearingKeepsPhases(fl, c.(session := s), evs, id);
    }
  }

  lemma BeginningKeepsPhases(fl: real -> real, c: Client, ref: TopicRef, value: Value, compartment: Option<int>,
                             id: nat)
    requires id < |c.calls|
    ensures var d := Begin(fl, c, ref, value, compartment);
            id < |d.calls| && d.calls[id].phase == c.calls[id].phase
  {
  }

  lemma OtherStepsKeepPhases(fl: real -> real, c: Client, step: Step, id: nat)
    requires id < |c.calls| && !OfOneCall(step)
    ensures id < |Next(fl, c, step).calls| && Next(fl, c, step).calls[id].phase == c.calls[id].phase
  {
    match step
    case ReaderGets(data) => GettingKeepsPhases(fl, c, data, id);
    case SetBegins(ref, value, compartment) => BeginningKeepsPhases(fl, c, ref, value, compartment, id);
    case _ =>
  }

  lemma CallStepsKeepGivenUp(c: Client, id: nat, i: nat, timedOut: bool, why: Stop)
    requires GivenUp(c, id)
    ensures GivenUp(Drained(c, i), id) && GivenUp(DrainFailed(c, i, timedOut), id)
    ensures GivenUp(Stopped(c, i, why), id) && GivenUp(Resumed(c, i), id)
  {
    if i == id {
      OwnStepsKeepGivenUp(c, id, timedOut, why);
    } else {
      OthersLeave(c, id, i, timedOut, why);
    }
  }

  lemma OwnStepsKeepGivenUp(c: Client, id: nat, timedOut: bool, why: Stop)
    requires GivenUp(c, id)
    ensures GivenUp(Drained(c, id), id) && GivenUp(DrainFailed(c, id, timedOut), id)
    ensures GivenUp(Stopped(c, id, why), id) && GivenUp(Resumed(c, id), id)
  {
  }

  lemma NextKeepsGivenUp(fl: real -> real, c: Client, step: Step, id: nat)
    requires GivenUp(c, id)
    ensures GivenUp(Next(fl, c, step), id)
  {
    match step
    case SetDrained(i) => CallStepsKeepGivenUp(c, id, i, false, TimedOut);
    case SetDrainFails(i, timedOut) => CallStepsKeepGivenUp(c, id, i, timedOut, TimedOut);
    case SetStops(i, why) => CallStepsKeepGivenUp(c, id, i, false, why);
    case SetResumes(i) => CallStepsKeepGivenUp(c, id, i, false, TimedOut);
    case _ => OtherStepsKeepPhases(fl, c, step, id);
  }

  lemma {:induction false} GivenUpStays(fl: real -> real, c: Client, steps: seq<Step>, id: nat)
    requires GivenUp(c, id)
    ensures GivenUp(Run(fl, c, steps), id)
    decreases |steps|
  {
    if steps != [] {
      NextKeepsGivenUp(fl, c, steps[0], id);
      GivenUpStays(fl, Next(fl, c, steps[0]), steps[1..], id);
    }
  }

  lemma OthersOrNot(c: Client, id: nat, i: nat, timedOut: bool, why: Stop)
    requires In(c, id, Awaiting) && c.calls[id].fut != Waiting
    ensures In(Drained(c, i), id, Awaiting) && In(DrainFailed(c, i, timedOut), id, Awaiting)
    ensures i != id ==> In(Stopped(c, i, why), id, Awaiting) && In(Resumed(c, i), id, Awaiting)
    ensures GivenUp(Stopped(c, id, why), id)
    ensures In(Resumed(c, id), id, Returned(OutcomeOf(c.calls[id].fut)))
  {
    if i != id {
      OthersLeave(c, id, i, timedOut, why);
    }
  }

  /** A step of its own moves an awaiting call whose future is complete, and no other step does. */
  lemma AwaitingMoves(fl: real -> real, c: Client, step: Step, id: nat)
    requires In(c, id, Awaiting) && c.calls[id].fut != Waiting
    ensures Stops(step, id) ==> GivenUp(Next(fl, c, step), id)
    ensures step == SetResumes(id) ==> In(Next(fl, c, step), id, Returned(OutcomeOf(c.calls[id].fut)))
    ensures !Stops(step, id) && step != SetResumes(id) ==> In(Next(fl, c, step), id, Awaiting)
  {
    match step
    case SetDrained(i) => OthersOrNot(c, id, i, false, TimedOut);
    case SetDrainFails(i, timedOut) => OthersOrNot(c, id, i, timedOut, TimedOut);
    case SetStops(i, why) => OthersOrNot(c, id, i, false, why);
    case SetResumes(i) => OthersOrNot(c, id, i, false, TimedOut);
    case _ => OtherStepsKeepPhases(fl, c, step, id);
  }

  /** A call whose confirmation has arrived returns it, in whatever run, exactly when it is not
      stopped before it runs again; stopped, it reports the timeout or the cancellation. */
  lemma {:induction false} ConfirmationIsReportedIff(fl: real -> real, c: Client, steps: seq<Step>, id: nat, v: Value)
    requires In(c, id, Awaiting) && c.calls[id].fut == Result(v)
    ensures var d := Run(fl, c, steps);
            && id < |d.calls| && d.calls[id].fut == Result(v)
            && (d.calls[id].phase.Returned? ==>
                  (d.calls[id].phase == Returned(Confirmed(v)) <==> !StoppedWhileAwaiting(fl, c, steps, id)))
            && (StoppedWhileAwaiting(fl, c, steps, id) ==> GivenUp(d, id))
    decreases |steps|
  {
    FuturesSettleOnce(fl, c, steps);
    if steps != [] {
      var d, rest := Next(fl, c, steps[0]), steps[1..];
      AwaitingMoves(fl, c, steps[0], id);
      NextKeeps(fl, c, steps[0]);
      if Stops(steps[0], id) {
        GivenUpStays(fl, d, rest, id);
      } else if steps[0] == SetResumes(id) {
        ReturnedIsNotStopped(fl, d, rest, id);
        FuturesSettleOnce(fl, d, rest);
      } else {
        ConfirmationIsReportedIff(fl, d, rest, id, v);
      }
    }
  }

  lemma InterruptedMoves(fl: real -> real, c: Client, step: Step, id: nat, why: Stop)
    requires In(c, id, Interrupted(why)) && !Stops(step, id)
    ensures if step == SetResumes(id) then In(Next(fl, c, step), id, Returned(StoppedOutcome(why)))
            else In(Next(fl, c, step), id, Interrupted(why))
  {
    match step
    case SetDrained(i) => OthersInterrupted(c, id, i, false, TimedOut, why);
    case SetDrainFails(i, timedOut) => OthersInterrupted(c, id, i, timedOut, TimedOut, why);
    case SetStops(i, other) => OthersInterrupted(c, id, i, false, other, why);
    case SetResumes(i) => OthersInterrupted(c, id, i, false, TimedOut, why);
    case _ => OtherStepsKeepPhases(fl, c, step, id);
  }

  lemma OthersInterrupted(c: Client, id: nat, i: nat, timedOut: bool, other: Stop, why: Stop)
    requires In(c, id, Interrupted(why))
    ensures In(Drained(c, i), id, Interrupted(why)) && In(DrainFailed(c, i, timedOut), id, Interrupted(why))
    ensures i != id ==> In(Stopped(c, i, other), id, Interrupted(why)) && In(Resumed(c, i), id, Interrupted(why))
    ensures In(Resumed(c, id), id, Returned(StoppedOutcome(why)))
  {
    if i != id {
      OthersLeave(c, id, i, timedOut, other);
    }
  }

  lemma ReturnedStays(fl: real -> real, c: Client, steps: seq<Step>, id: nat, outcome: Outcome)
    requires In(c, id, Returned(outcome))
    ensures In(Run(fl, c, steps), id, Returned(outcome))
  {
    FuturesSettleOnce(fl, c, steps);
  }

  /** A call that was stopped reports, when it runs again, what stopped it last: a timeout as a
      timeout, a cancellation as a cancellation. */
  lemma {:induction false} StoppedCallReports(fl: real -> real, c: Client, steps: seq<Step>, id: nat, why: Stop)
    requires In(c, id, Interrupted(why))
    requires forall i :: 0 <= i < |steps| ==> !Stops(steps[i], id)
    ensures var d := Run(fl, c, steps);
            || In(d, id, Interrupted(why))
            || In(d, id, Returned(if why == TimedOut then WriteTimeout else CallCancelled))
    decreases |steps|
  {
    if steps != [] {
      InterruptedMoves(fl, c, steps[0], id, why);
      if steps[0] == SetResumes(id) {
        ReturnedStays(fl, Next(fl, c, steps[0]), steps[1..], id, StoppedOutcome(why));
      } else {
        StoppedCallReports(fl, Next(fl, c, steps[0]), steps[1..], id, why);
      }
    }
  }

  /** One whose drain fails reports a timeout if that is what made it fail, else the failure. */
  lemma FailedDrainReports(fl: real -> real, c: Client, steps: seq<Step>, id: nat, timedOut: bool)
    requires In(c, id, Draining)
    ensures In(Run(fl, c, [SetDrainFails(id, timedOut)] + steps), id,
               Returned(if timedOut then WriteTimeout else DrainError))
  {
    RunFirst(fl, c, SetDrainFails(id, timedOut), steps);
    ReturnedStays(fl, DrainFailed(c, id, timedOut), steps, id, if timedOut then WriteTimeout else DrainError);
  }

  /** On a closed client a write that the session accepts is refused as not connected, and is
      not sent. */
  lemma ClosedClientRefuses(fl: real -> real, c: Client, ref: TopicRef, value: Value, compartment: Option<int>,
                            steps: seq<Step>)
    requires c.closed && SetFrame(fl, c.session.cache.values, ref, value, compartment).Ok?
    ensures var d := Run(fl, c, [SetBegins(ref, value, compartment)] + steps);
            In(d, |c.calls|, Returned(NotConnected)) && d.sent == c.sent
  {
    var begun := Begin(fl, c, ref, value, compartment);
    RunFirst(fl, c, SetBegins(ref, value, compartment), steps);
    BegunOnClosed(fl, c, ref, value, compartment);
    ReturnedStays(fl, begun, steps, |c.calls|, NotConnected);
    FuturesSettleOnce(fl, begun, steps);
  }

  lemma BegunOnClosed(fl: real -> real, c: Client, ref: TopicRef, value: Value, compartment: Option<int>)
    requires c.closed && SetFrame(fl, c.session.cache.values, ref, value, compartment).Ok?
    ensures var d := Begin(fl, c, ref, value, compartment);
            In(d, |c.calls|, Returned(NotConnected)) && d.sent == c.sent && d.closed
  {
  }

  /** There is a run, from the start, in which the confirmation arrives and the call still
      reports a timeout. */
  lemma TimeoutAfterConfirmation(fl: real -> real) returns (steps: seq<Step>)
    requires IsRounding(fl)
    ensures var c := Run(fl, CONNECTED, steps);
            In(c, 0, Returned(WriteTimeout)) && c.calls[0].fut.Result?
  {
    var frame, e, echo := SwitchingOn(fl);
    var c := Register(Started(CONNECTED), frame, e);
    FirstCall(frame, e);
    var late := LateTimeout(fl, c, echo, EncodeLine(echo));
    steps := [ReaderStarts] + ([SetBegins(ByTopic(Coolerpow), Flag(true), None)] + late);
    RunBegins(fl, ByTopic(Coolerpow), Flag(true), frame, e, late);
  }

  lemma SwitchingOn(fl: real -> real) returns (frame: Frame, e: Expectation, echo: Frame)
    requires IsRounding(fl)
    ensures SetFrame(fl, map[], ByTopic(Coolerpow), Flag(true), None) == Ok((frame, e))
    ensures Verdict(fl, e, EventOf(fl, echo)) == Some(true)
  {
    var ref, value := ByTopic(Coolerpow), Flag(true);
    var made := SetFrame(fl, map[], ref, value, None);
    assert made.Ok?;
    frame, e := made.value.0, made.value.1;
    echo := Frame(PUBLISH, AddressOf(e.topic), frame.payload);
    assert Consistent(fl, EMPTY.cache);
    ExactEchoConfirms(fl, EMPTY.cache, ref, value, None, frame, e);
  }

  lemma RunBegins(fl: real -> real, ref: TopicRef, value: Value, frame: Frame, e: Expectation, late: seq<Step>)
    requires SetFrame(fl, map[], ref, value, None) == Ok((frame, e))
    ensures Run(fl, CONNECTED, [ReaderStarts] + ([SetBegins(ref, value, None)] + late)) ==
            Run(fl, Register(Started(CONNECTED), frame, e), late)
  {
    RunFirst(fl, CONNECTED, ReaderStarts, [SetBegins(ref, value, None)] + late);
    RunFirst(fl, Started(CONNECTED), SetBegins(ref, value, None), late);
  }

  /** The client's only call, draining, with a reader that reads and nothing received. */
  predicate OnlyCall(c: Client) {
    && c.session == EMPTY && c.reader == Reading && !c.cancelled && c.pending == [0] && |c.calls| == 1
    && In(c, 0, Draining) && c.calls[0].fut == Waiting
  }

  lemma FirstCall(frame: Frame, e: Expectation)
    ensures var c := Register(Started(CONNECTED), frame, e);
            OnlyCall(c) && c.calls[0].expectation == e
  {
  }

  lemma LateTimeout(fl: real -> real, c: Client, echo: Frame, line: Bytes) returns (late: seq<Step>)
    requires OnlyCall(c) && Verdict(fl, c.calls[0].expectation, EventOf(fl, echo)) == Some(true)
    requires line == EncodeLine(echo)
    ensures var d := Run(fl, c, late);
            In(d, 0, Returned(WriteTimeout)) && d.calls[0].fut.Result?
  {
    LineIsSomething(echo);
    AnswerArrives(fl, c, Drained(c, 0), echo, line);
    LateResume(Got(fl, Drained(c, 0), line));
    late := LateSteps(fl, c, line);
  }

  lemma LateSteps(fl: real -> real, c: Client, line: Bytes) returns (late: seq<Step>)
    ensures Run(fl, c, late) == Resumed(Stopped(Got(fl, Drained(c, 0), line), 0, TimedOut), 0)
  {
    var rest: seq<Step> := [SetStops(0, TimedOut)] + ([SetResumes(0)] + []);
    late := [SetDrained(0)] + ([ReaderGets(line)] + rest);
    DrainsAndGets(fl, c, line, rest);
    StopsAndResumes(fl, Got(fl, Drained(c, 0), line));
  }

  lemma DrainsAndGets(fl: real -> real, c: Client, line: Bytes, rest: seq<Step>)
    ensures Run(fl, c, [SetDrained(0)] + ([ReaderGets(line)] + rest)) == Run(fl, Got(fl, Drained(c, 0), line), rest)
  {
    RunFirst(fl, c, SetDrained(0), [ReaderGets(line)] + rest);
    RunFirst(fl, Drained(c, 0), ReaderGets(line), rest);
  }

  lemma StopsAndResumes(fl: real -> real, c: Client)
    ensures Run(fl, c, [SetStops(0, TimedOut)] + ([SetResumes(0)] + [])) == Resumed(Stopped(c, 0, TimedOut), 0)
  {
    RunFirst(fl, c, SetStops(0, TimedOut), [SetResumes(0)] + []);
    RunFirst(fl, Stopped(c, 0, TimedOut), SetResumes(0), []);
  }

  lemma LineIsSomething(f: Frame)
    ensures EncodeLine(f) != []
  {
  }

  lemma LateResume(c: Client)
    requires In(c, 0, Awaiting) && c.calls[0].fut.Result?
    ensures var d := Resumed(Stopped(c, 0, TimedOut), 0);
            In(d, 0, Returned(WriteTimeout)) && d.calls[0].fut.Result?
  {
  }

  lemma AnswerArrives(fl: real -> real, c1: Client, c2: Client, echo: Frame, line: Bytes)
    requires line == EncodeLine(echo) && line != [] && c2 == Drained(c1, 0)
    requires OnlyCall(c1) && Verdict(fl, c1.calls[0].expectation, EventOf(fl, echo)) == Some(true)
    ensures In(Got(fl, c2, line), 0, Awaiting) && Got(fl, c2, line).calls[0].fut.Result?
  {
    LineIsFed(FRESH, echo, line);
    var (s, evs) := Received(fl, c2.session, line);
    assert evs == [EventOf(fl, echo)];
    OneEvent(fl, c2.(session := s), EventOf(fl, echo));
  }

  lemma OneEvent(fl: real -> real, c: Client, ev: Event)
    requires c.pending == [0] && In(c, 0, Awaiting) && c.calls[0].fut == Waiting
    requires Verdict(fl, c.calls[0].expectation, ev) == Some(true)
    ensures In(HearAll(fl, c, [ev]), 0, Awaiting) && HearAll(fl, c, [ev]).calls[0].fut.Result?
  {
    assert HearAll(fl, c, [ev]) == HearAll(fl, Hear(fl, c, ev), []);
  }

  // ---- a write, from the request to the answer

  /** The frame says nothing of the address `a`, or publishes the payload `was` for it. */
  predicate AsBefore(f: Frame, a: Address, was: Bytes) {
    f == Frame(PUBLISH, a, was) || f.address != a || f.action !in {PUBLISH, NAK}
  }

  /** Frame `k` publishes the payload `now` for `a`; before it the cooler says nothing of `a` but
      the payload `was`, any number of times. */
  predicate OldThenNew(fs: seq<Frame>, k: nat, a: Address, was: Bytes, now: Bytes) {
    k < |fs| && fs[k] == Frame(PUBLISH, a, now) && forall j :: 0 <= j < k ==> AsBefore(fs[j], a, was)
  }

  /** If the old payload does not confirm a write and the new one does, the new one decides it. */
  lemma NewDecides(fl: real -> real, e: Expectation, fs: seq<Frame>, k: nat, was: Bytes, now: Bytes)
    requires OldThenNew(fs, k, AddressOf(e.topic), was, now)
    requires Verdict(fl, e, EchoOf(fl, e.topic, was)) == None
    requires Verdict(fl, e, EchoOf(fl, e.topic, now)) == Some(true)
    ensures FirstToDecide(fl, e, EventsOf(fl, fs), k, true)
    ensures EventsOf(fl, fs)[k].Published? && EventsOf(fl, fs)[k].value == ValueOf(fl, e.topic, now)
  {
    EchoIs(fl, e.topic, now);
    forall j | 0 <= j < k ensures Verdict(fl, e, EventsOf(fl, fs)[j]) == None {
      assert AsBefore(fs[j], AddressOf(e.topic), was);
    }
  }

  /** From the request to the answer, for any write, over every run and however the bytes are
      chunked: the cooler publishes an old payload, which does not confirm the write, any number
      of times, and then one that does. The call returns that one's value, or has yet to run. */
  lemma {:induction false} WriteIsAnswered(fl: real -> real, c: Client, steps: seq<Step>, id: nat, k: nat, was: Bytes,
                                           now: Bytes)
    requires Inv(fl, c) && CR !in c.session.decoder.buf
    requires Registered(c, id) && c.calls[id].fut == Waiting && NeverAbandoned(steps, id)
    requires var e := c.calls[id].expectation;
             && Verdict(fl, e, EchoOf(fl, e.topic, was)) == None
             && Verdict(fl, e, EchoOf(fl, e.topic, now)) == Some(true)
             && OldThenNew(Fed(c.session.decoder, BytesRead(fl, c, steps)).1, k, AddressOf(e.topic), was, now)
    ensures var d, shown := Run(fl, c, steps), ValueOf(fl, c.calls[id].expectation.topic, now);
            && id < |d.calls| && d.calls[id].fut == Result(shown)
            && (Registered(d, id) || In(d, id, Returned(Confirmed(shown))))
  {
    var fs := Fed(c.session.decoder, BytesRead(fl, c, steps)).1;
    NewDecides(fl, c.calls[id].expectation, fs, k, was, now);
    assert HeardIn(fl, c, steps) == EventsOf(fl, fs);
    ConfirmedInEveryRun(fl, c, steps, id, k);
  }

  /** So for each of the five writable topics: the call to `set` returns what the cooler makes of
      the very payload it was sent. */
  lemma {:induction false} WriteIsConfirmed(fl: real -> real, at: Cache, r: TopicRef, v: Value,
                                            compartment: Option<int>, frame: Frame, c: Client, steps: seq<Step>,
                                            id: nat, k: nat, was: Bytes)
    requires Inv(fl, c) && CR !in c.session.decoder.buf
    requires Registered(c, id) && c.calls[id].fut == Waiting && NeverAbandoned(steps, id)
    requires IsRounding(fl) && Consistent(fl, at)
    requires SetFrame(fl, at.values, r, v, compartment) == Ok((frame, c.calls[id].expectation))
    requires var e := c.calls[id].expectation;
             && Verdict(fl, e, EchoOf(fl, e.topic, was)) == None
             && OldThenNew(Fed(c.session.decoder, BytesRead(fl, c, steps)).1, k, frame.address, was, frame.payload)
    ensures var d, shown := Run(fl, c, steps), ValueOf(fl, c.calls[id].expectation.topic, frame.payload);
            && id < |d.calls| && d.calls[id].fut == Result(shown)
            && (Registered(d, id) || In(d, id, Returned(Confirmed(shown))))
  {
    OnlyWritableTopicsAreSet(fl, at.values, r, v, compartment, frame, c.calls[id].expectation);
    ExactEchoConfirms(fl, at, r, v, compartment, frame, c.calls[id].expectation);
    WriteIsAnswered(fl, c, steps, id, k, was, frame.payload);
  }

  /** A request too far from the published value for the old array to confirm it. */
  predicate FarFromOld(fl: real -> real, at: Cache, v: Value, idx: int)
    requires 0 <= idx < |Units(at, Csettemp)| && Float64(fl, v).Ok?
  {
    !Within(fl, FromMilli(fl, Units(at, Csettemp)[idx]), Float64(fl, v).value, 0.051)
  }

  /** What decides a set-point: not the old array, if the request is far enough from it, but the
      new one, rounded as the cooler rounds. */
  lemma SetPointVerdicts(fl: real -> real, at: Cache, v: Value, idx: int, frame: Frame, e: Expectation,
                         stored: seq<int>)
    requires IsRounding(fl) && Consistent(fl, at)
    requires SetArray(fl, at.values, Csettemp, v, idx) == Ok((frame, e)) && IsRoundingOf(stored, Int32s(frame.payload))
    requires 0 <= idx < |Units(at, Csettemp)| && Float64(fl, v).Ok? && FarFromOld(fl, at, v, idx)
    ensures AddressOf(Csettemp) in at.raw && e.topic == Csettemp && frame.address == AddressOf(Csettemp)
    ensures Verdict(fl, e, EchoOf(fl, Csettemp, at.raw[AddressOf(Csettemp)])) == None
    ensures Verdict(fl, e, EchoOf(fl, Csettemp, Pack(stored))) == Some(true)
    ensures ValueOf(fl, Csettemp, Pack(stored)) == List(MilliList(fl, stored))
  {
    SetPointFrame(fl, at, v, idx, frame, e);
    OldArrayConfirmsIff(fl, at, v, idx, frame, e);
    RoundedEchoConfirms(fl, at, v, idx, frame, e, stored);
    ShownIs(fl, stored);
  }

  /** For set-points: one was asked for when the cache was `at`; the cooler publishes the old array
      any number of times, and then the array it was sent, rounded to within half a tenth of a
      degree. The call returns exactly that array, or has yet to run. */
  lemma {:induction false} SetPointIsConfirmed(fl: real -> real, at: Cache, v: Value, idx: int, frame: Frame,
                                               stored: seq<int>, c: Client, steps: seq<Step>, id: nat, k: nat)
    requires Inv(fl, c) && CR !in c.session.decoder.buf
    requires Registered(c, id) && c.calls[id].fut == Waiting && NeverAbandoned(steps, id)
    requires IsRounding(fl) && Consistent(fl, at)
    requires SetArray(fl, at.values, Csettemp, v, idx) == Ok((frame, c.calls[id].expectation))
    requires 0 <= idx < |Units(at, Csettemp)| && Float64(fl, v).Ok? && FarFromOld(fl, at, v, idx)
    requires IsRoundingOf(stored, Int32s(frame.payload)) && AddressOf(Csettemp) in at.raw
    requires OldThenNew(Fed(c.session.decoder, BytesRead(fl, c, steps)).1, k, AddressOf(Csettemp),
                        at.raw[AddressOf(Csettemp)], Pack(stored))
    ensures var d, shown := Run(fl, c, steps), List(MilliList(fl, stored));
            && id < |d.calls| && d.calls[id].fut == Result(shown)
            && (Registered(d, id) || In(d, id, Returned(Confirmed(shown))))
  {
    SetPointVerdicts(fl, at, v, idx, frame, c.calls[id].expectation, stored);
    WriteIsAnswered(fl, c, steps, id, k, at.raw[AddressOf(Csettemp)], Pack(stored));
  }

  /** Frame `k` is the first for set-points, and publishes the array `was`. */
  predicate OldComesFirst(fs: seq<Frame>, k: nat, was: Bytes) {
    && k < |fs| && fs[k] == Frame(PUBLISH, AddressOf(Csettemp), was)
    && forall j :: 0 <= j < k ==> fs[j].address != AddressOf(Csettemp)
  }

  lemma OldArrayDecides(fl: real -> real, at: Cache, v: Value, idx: int, frame: Frame, e: Expectation, fs: seq<Frame>,
                        k: nat)
    requires IsRounding(fl) && Consistent(fl, at)
    requires SetArray(fl, at.values, Csettemp, v, idx) == Ok((frame, e))
    requires AddressOf(Csettemp) in at.raw && OldComesFirst(fs, k, at.raw[AddressOf(Csettemp)])
    requires Verdict(fl, e, EchoOf(fl, Csettemp, at.raw[AddressOf(Csettemp)])) == Some(true)
    ensures FirstToDecide(fl, e, EventsOf(fl, fs), k, true)
    ensures EventsOf(fl, fs)[k].Published? && EventsOf(fl, fs)[k].value == List(MilliList(fl, Units(at, Csettemp)))
  {
    SetPointFrame(fl, at, v, idx, frame, e);
    EchoIs(fl, Csettemp, at.raw[AddressOf(Csettemp)]);
    forall j | 0 <= j < k ensures Verdict(fl, e, EventsOf(fl, fs)[j]) == None {
      assert fs[j].address != AddressOf(Csettemp);
    }
  }

  /** And where the old array is near enough to pass for the new one, its publication answers the
      call, with the old array. */
  lemma {:induction false} OldArrayIsTheAnswer(fl: real -> real, at: Cache, v: Value, idx: int, frame: Frame,
                                               c: Client, steps: seq<Step>, id: nat, k: nat)
    requires Inv(fl, c) && CR !in c.session.decoder.buf
    requires Registered(c, id) && c.calls[id].fut == Waiting && NeverAbandoned(steps, id)
    requires IsRounding(fl) && Consistent(fl, at)
    requires SetArray(fl, at.values, Csettemp, v, idx) == Ok((frame, c.calls[id].expectation))
    requires 0 <= idx < |Units(at, Csettemp)| && Float64(fl, v).Ok? && !FarFromOld(fl, at, v, idx)
    requires AddressOf(Csettemp) in at.raw
    requires OldComesFirst(Fed(c.session.decoder, BytesRead(fl, c, steps)).1, k, at.raw[AddressOf(Csettemp)])
    ensures var d, shown := Run(fl, c, steps), List(MilliList(fl, Units(at, Csettemp)));
            && id < |d.calls| && d.calls[id].fut == Result(shown)
            && (Registered(d, id) || In(d, id, Returned(Confirmed(shown))))
  {
    var fs := Fed(c.session.decoder, BytesRead(fl, c, steps)).1;
    OldArrayConfirmsIff(fl, at, v, idx, frame, c.calls[id].expectation);
    OldArrayDecides(fl, at, v, idx, frame, c.calls[id].expectation, fs, k);
    assert HeardIn(fl, c, steps) == EventsOf(fl, fs);
    ConfirmedInEveryRun(fl, c, steps, id, k);
  }
}
