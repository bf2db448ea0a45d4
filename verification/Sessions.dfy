/** The socket-free session: bytes in, events and cached values out, SET frames to send. */
module Sessions {
  import opened Common
  import opened Frames
  import opened LineStream
  import opened Floats
  import opened Codecs
  import opened Topics

  datatype Event =
    | Published(address: Address, topic: Option<Topic>, value: Value, raw: Bytes)
    | Refused(address: Address, raw: Bytes)
    | Unhandled(frame: Frame)

  /** The last published value of each known topic, and the last payload of each address. */
  datatype Cache = Cache(values: map<Topic, Value>, raw: map<Address, Bytes>)

  datatype SessionState = SessionState(decoder: Decoder, cache: Cache)

  const EMPTY := SessionState(LineStream.FRESH, Cache(map[], map[]))

  /** A topic's reading of a payload: its codec's, or the payload itself when that fails. */
  function ValueOf(fl: real -> real, t: Topic, payload: Bytes): Value {
    match Codecs.Decode(fl, CodecOf(t), payload)
    case Some(v) => v
    case None => Raw(payload)
  }

  function EventOf(fl: real -> real, f: Frame): Event {
    if f.action == PUBLISH then
      var t := TopicAt(f.address);
      Published(f.address, t, if t.Some? then ValueOf(fl, t.value, f.payload) else Raw(f.payload), f.payload)
    else if f.action == NAK then Refused(f.address, f.payload)
    else Unhandled(f)
  }

  function Absorb(fl: real -> real, c: Cache, f: Frame): Cache {
    if f.action != PUBLISH then c
    else
      Cache(match TopicAt(f.address)
            case None => c.values
            case Some(t) => c.values[t := ValueOf(fl, t, f.payload)],
            c.raw[f.address := f.payload])
  }

  function AbsorbAll(fl: real -> real, c: Cache, fs: seq<Frame>): Cache
    decreases |fs|
  {
    if fs == [] then c else AbsorbAll(fl, Absorb(fl, c, fs[0]), fs[1..])
  }

  function EventsOf(fl: real -> real, fs: seq<Frame>): seq<Event> {
    seq(|fs|, i requires 0 <= i < |fs| => EventOf(fl, fs[i]))
  }

  function Received(fl: real -> real, s: SessionState, data: Bytes): (SessionState, seq<Event>) {
    var (d, fs) := Fed(s.decoder, data);
    (SessionState(d, AbsorbAll(fl, s.cache, fs)), EventsOf(fl, fs))
  }

  class Session {
    const fl: real -> real
    const decoder: LineDecoder
    var values: map<Topic, Value>
    var raw: map<Address, Bytes>

    constructor (fl: real -> real)
      ensures this.fl == fl && fresh(decoder)
      ensures State() == EMPTY
    {
      this.fl := fl;
      decoder := new LineDecoder();
      values, raw := map[], map[];
    }

    ghost function State(): SessionState
      reads this, decoder
    {
      SessionState(decoder.State(), Cache(values, raw))
    }

    method Publish(frame: Frame) returns (event: Event)
      requires frame.action == PUBLISH
      modifies this
      ensures event == EventOf(fl, frame)
      ensures Cache(values, raw) == Absorb(fl, old(Cache(values, raw)), frame)
    {
      var tp := TopicAt(frame.address);
      raw := raw[frame.address := frame.payload];
      var value := Raw(frame.payload);
      if tp.Some? {
        match Codecs.Decode(fl, CodecOf(tp.value), frame.payload) {
          case Some(v) => value := v;
          case None => value := Raw(frame.payload);
        }
        values := values[tp.value := value];
      }
      event := Published(frame.address, tp, value, frame.payload);
    }

    method Feed(data: Bytes) returns (events: seq<Event>)
      modifies this, decoder
      ensures (State(), events) == Received(fl, old(State()), data)
    {
      var frames := decoder.Feed(data);
      events := [];
      for i := 0 to |frames|
        invariant decoder.State() == old(Fed(decoder.State(), data).0)
        invariant events == EventsOf(fl, frames[..i])
        invariant Cache(values, raw) == AbsorbAll(fl, old(Cache(values, raw)), frames[..i])
      {
        var frame := frames[i];
        var event;
        if frame.action == PUBLISH {
          event := Publish(frame);
        } else if frame.action == NAK {
          event := Refused(frame.address, frame.payload);
        } else {
          event := Unhandled(frame);
        }
        AbsorbNext(fl, old(Cache(values, raw)), frames, i);
        events := events + [event];
      }
      assert frames[..|frames|] == frames;
    }
  }

  lemma AbsorbNext(fl: real -> real, c: Cache, fs: seq<Frame>, i: nat)
    requires i < |fs|
    ensures AbsorbAll(fl, c, fs[..i + 1]) == Absorb(fl, AbsorbAll(fl, c, fs[..i]), fs[i])
    ensures EventsOf(fl, fs[..i + 1]) == EventsOf(fl, fs[..i]) + [EventOf(fl, fs[i])]
  {
    assert fs[..i + 1] == fs[..i] + [fs[i]];
    AbsorbConcat(fl, c, fs[..i], [fs[i]]);
  }

  // ---- chunking

  lemma {:induction false} AbsorbConcat(fl: real -> real, c: Cache, x: seq<Frame>, y: seq<Frame>)
    ensures AbsorbAll(fl, c, x + y) == AbsorbAll(fl, AbsorbAll(fl, c, x), y)
    decreases |x|
  {
    if x == [] {
      assert x + y == y;
    } else {
      assert (x + y)[1..] == x[1..] + y;
      AbsorbConcat(fl, Absorb(fl, c, x[0]), x[1..], y);
    }
  }

  /** A session that is fed two chunks ends in the same state, with the same events, as one
      that is fed their concatenation. */
  lemma ReceivedConcat(fl: real -> real, s: SessionState, a: Bytes, b: Bytes)
    ensures var (s1, e1) := Received(fl, s, a);
            var (s2, e2) := Received(fl, s1, b);
            Received(fl, s, a + b) == (s2, e1 + e2)
  {
    FeedConcat(s.decoder, a, b);
    var (d1, x) := Fed(s.decoder, a);
    var (d2, y) := Fed(d1, b);
    AbsorbConcat(fl, s.cache, x, y);
    assert EventsOf(fl, x + y) == EventsOf(fl, x) + EventsOf(fl, y);
  }

  function ReceivedAll(fl: real -> real, s: SessionState, chunks: seq<Bytes>): SessionState
    decreases |chunks|
  {
    if chunks == [] then s else ReceivedAll(fl, Received(fl, s, chunks[0]).0, chunks[1..])
  }

  // ---- the cached values are a reading of the cached payloads

  predicate ConsistentAt(fl: real -> real, c: Cache, t: Topic) {
    && (t in c.values <==> AddressOf(t) in c.raw)
    && (t in c.values ==> c.values[t] == ValueOf(fl, t, c.raw[AddressOf(t)]))
  }

  ghost predicate Consistent(fl: real -> real, c: Cache) {
    forall t: Topic :: ConsistentAt(fl, c, t)
  }

  lemma AbsorbKeepsConsistent(fl: real -> real, c: Cache, f: Frame)
    requires Consistent(fl, c)
    ensures Consistent(fl, Absorb(fl, c, f))
  {
    forall t: Topic ensures ConsistentAt(fl, Absorb(fl, c, f), t) {
      TopicAtIff(f.address, t);
      assert ConsistentAt(fl, c, t);
    }
  }

  lemma {:induction false} AbsorbAllKeepsConsistent(fl: real -> real, c: Cache, fs: seq<Frame>)
    requires Consistent(fl, c)
    ensures Consistent(fl, AbsorbAll(fl, c, fs))
    decreases |fs|
  {
    if fs != [] {
      AbsorbKeepsConsistent(fl, c, fs[0]);
      AbsorbAllKeepsConsistent(fl, Absorb(fl, c, fs[0]), fs[1..]);
    }
  }

  /** In every reachable session a topic has a value exactly when its address has a payload,
      and the value is the topic's reading of that payload; array topics hold lists. */
  lemma {:induction false} ValuesFollowRaw(fl: real -> real, s: SessionState, chunks: seq<Bytes>)
    requires Consistent(fl, s.cache)
    ensures Consistent(fl, ReceivedAll(fl, s, chunks).cache)
    ensures forall t <- ReceivedAll(fl, s, chunks).cache.values | IsArray(t) ::
              ReceivedAll(fl, s, chunks).cache.values[t].List?
    decreases |chunks|
  {
    if chunks == [] {
      ArraysHoldLists(fl, s.cache);
    } else {
      AbsorbAllKeepsConsistent(fl, s.cache, Fed(s.decoder, chunks[0]).1);
      ValuesFollowRaw(fl, Received(fl, s, chunks[0]).0, chunks[1..]);
    }
  }

  lemma ArraysHoldLists(fl: real -> real, c: Cache)
    requires Consistent(fl, c)
    ensures forall t <- c.values | IsArray(t) :: c.values[t].List?
  {
    forall t <- c.values | IsArray(t) ensures c.values[t].List? {
      assert ConsistentAt(fl, c, t);
    }
  }
}
