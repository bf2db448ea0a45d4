/** The per-compartment part of the decoded cooler state. */
module Models {
  import opened Common
  import opened Codecs
  import opened Frames
  import opened LineStream
  import opened Topics
  import opened Sessions

  /** A compartment and those of its attributes that have been published, by topic. */
  datatype Compartment = Compartment(index: nat, attrs: map<Topic, Value>)

  const ATTRS: seq<Topic> := [Cpow, Ctemp, Csettemp, Cdoor, Ctemprng, Crecdrng, Ctempofs]

  predicate ArraysAreLists(values: map<Topic, Value>) {
    forall t <- values | IsArray(t) :: values[t].List?
  }

  /** `values.get(t) or []`. */
  function ArrayOf(values: map<Topic, Value>, t: Topic): seq<Value> {
    if t in values && values[t].List? then values[t].items else []
  }

  /** `nocpt or 0`, when that is a number. */
  function PublishedCount(values: map<Topic, Value>): Option<int> {
    if Nocpt !in values then Some(0)
    else match values[Nocpt]
         case Int(n) => Some(n)
         case v => if Truthy(v) then None else Some(0)
  }

  /** Of the topics `done`, slot `i` holds element `i` of each array long enough; it holds
      nothing else. */
  predicate Holds(c: Compartment, values: map<Topic, Value>, i: nat, done: seq<Topic>) {
    && c.index == i
    && (forall t: Topic | t in c.attrs :: t in done && i < |ArrayOf(values, t)| && c.attrs[t] == ArrayOf(values, t)[i])
    && (forall t: Topic | t in done && i < |ArrayOf(values, t)| :: t in c.attrs)
  }

  /** The inner loop of `from_values`: one array, spread over the slots. */
  method SetAttribute(slots: seq<Compartment>, values: map<Topic, Value>, t: Topic, ghost done: seq<Topic>)
    returns (r: seq<Compartment>)
    requires forall i :: 0 <= i < |slots| ==> Holds(slots[i], values, i, done)
    ensures |r| == |slots| && forall i :: 0 <= i < |r| ==> Holds(r[i], values, i, done + [t])
  {
    var elements := ArrayOf(values, t);
    r := slots;
    for i := 0 to |elements|
      invariant |r| == |slots|
      invariant forall j :: 0 <= j < |r| ==>
                  r[j] == if j < i then slots[j].(attrs := slots[j].attrs[t := elements[j]]) else slots[j]
    {
      if i < |slots| {
        r := r[i := r[i].(attrs := r[i].attrs[t := elements[i]])];
      }
    }
    forall i | 0 <= i < |r| ensures Holds(r[i], values, i, done + [t]) {
      assert Holds(slots[i], values, i, done);
    }
  }

  /** The longest array, or the published count when that is larger. */
  method SlotCount(values: map<Topic, Value>, n: int) returns (count: nat)
    ensures n <= count && forall t <- ATTRS :: |ArrayOf(values, t)| <= count
    ensures count == n || exists t <- ATTRS :: count == |ArrayOf(values, t)|
  {
    count := |ArrayOf(values, ATTRS[0])|;
    for k := 1 to |ATTRS|
      invariant forall t <- ATTRS[..k] :: |ArrayOf(values, t)| <= count
      invariant exists t <- ATTRS[..k] :: count == |ArrayOf(values, t)|
    {
      assert ATTRS[..k + 1] == ATTRS[..k] + [ATTRS[k]];
      if count < |ArrayOf(values, ATTRS[k])| {
        count := |ArrayOf(values, ATTRS[k])|;
      }
    }
    assert ATTRS[..|ATTRS|] == ATTRS;
    if count < n {
      count := n;
    }
  }

  /** `CoolerState.from_values`, for the compartments; `Err` stands for the `TypeError` that
      comparing a number with bytes raises. */
  method FromValues(values: map<Topic, Value>) returns (r: Result<seq<Compartment>, ()>)
    requires ArraysAreLists(values)
    ensures r.Ok? <==> PublishedCount(values).Some?
    ensures r.Ok? ==>
              && PublishedCount(values).value <= |r.value|
              && (forall t <- ATTRS :: |ArrayOf(values, t)| <= |r.value|)
              && (|r.value| == PublishedCount(values).value
                  || exists t <- ATTRS :: |r.value| == |ArrayOf(values, t)|)
              && forall i :: 0 <= i < |r.value| ==> Holds(r.value[i], values, i, ATTRS)
  {
    var n := PublishedCount(values);
    if n == None {
      return Err(());
    }
    var count := SlotCount(values, n.value);
    var slots := seq(count, i requires 0 <= i < count => Compartment(i, map[]));
    for k := 0 to |ATTRS|
      invariant |slots| == count && forall i :: 0 <= i < count ==> Holds(slots[i], values, i, ATTRS[..k])
    {
      slots := SetAttribute(slots, values, ATTRS[k], ATTRS[..k]);
      assert ATTRS[..k] + [ATTRS[k]] == ATTRS[..k + 1];
    }
    assert ATTRS[..|ATTRS|] == ATTRS;
    r := Ok(slots);
  }

  /** The state of a reachable session can be built unless the last payload published for
      `nocpt` is one to three bytes long. */
  lemma StateFailsIff(fl: real -> real, c: Cache)
    requires Consistent(fl, c)
    ensures ArraysAreLists(c.values)
    ensures PublishedCount(c.values).None? <==>
            AddressOf(Nocpt) in c.raw && 1 <= |c.raw[AddressOf(Nocpt)]| <= 3
  {
    ArraysHoldLists(fl, c);
    assert ConsistentAt(fl, c, Nocpt);
  }

  /** Otherwise the published number is the int32 of the payload, and 0 when there is none. */
  lemma CountIs(fl: real -> real, c: Cache)
    requires Consistent(fl, c)
    ensures AddressOf(Nocpt) !in c.raw || c.raw[AddressOf(Nocpt)] == [] ==> PublishedCount(c.values) == Some(0)
    ensures AddressOf(Nocpt) in c.raw && |c.raw[AddressOf(Nocpt)]| >= 4 ==>
              PublishedCount(c.values) == Some(Int32At(c.raw[AddressOf(Nocpt)], 0))
  {
    assert ConsistentAt(fl, c, Nocpt);
  }

  /** The arrays that are spread over the compartments are those of the per-compartment topics. */
  lemma AttributesIff(t: Topic)
    ensures t in ATTRS <==> PerCompartment(t)
  {
  }

  /** And it can be: one line from the cooler does it. */
  lemma ShortCountFailsTheState(fl: real -> real)
    ensures var line := EncodeLine(Frame(PUBLISH, AddressOf(Nocpt), [1]));
            PublishedCount(Received(fl, EMPTY, line).0.cache.values) == None
  {
    var f := Frame(PUBLISH, AddressOf(Nocpt), [1]);
    LineIsFed(FRESH, f, EncodeLine(f));
    TopicAtIff(AddressOf(Nocpt), Nocpt);
    assert AbsorbAll(fl, EMPTY.cache, [f]) == Absorb(fl, EMPTY.cache, f);
  }
}
