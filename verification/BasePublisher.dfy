/** The poll cycle every collector shares, its memory of what it has published, and the broker's
    retained messages (src/sensors2mqtt/base.py). */
module BasePublisher {
  import opened Wrappers

  datatype Topic = State | Status | Attributes(suffix: string) | Config(suffix: string)

  /** A sensor's value as JSON text, None for null. */
  type Values = map<string, Option<string>>

  datatype Payload = Text(text: string) | Json(values: Values)

  datatype Publication = Publication(topic: Topic, payload: Payload, sent: bool)

  /** A dynamic sensor and its value; `attributes` is there when the value carries some. */
  datatype Sensor = Sensor(suffix: string, state: Option<string>, attributes: Option<string>)

  // ------------------------------------------------------------------
  // The MQTT client and the broker behind it
  // ------------------------------------------------------------------

  class Client {
    var online: bool
    var retained: map<Topic, Payload>  // at the broker
    var log: seq<Publication>          // every attempt

    constructor ()
      ensures !online && retained == map[] && log == []
    {
      online, retained, log := false, map[], [];
    }

    method GoOffline()
      modifies this
      ensures !online && retained == old(retained) && log == old(log)
    {
      online := false;
    }

    /** The broker comes back with other retained messages. */
    method Lose(kept: map<Topic, Payload>)
      requires !online
      modifies this
      ensures !online && retained == kept && log == old(log)
    {
      retained := kept;
    }

    method GoOnline()
      modifies this
      ensures online && retained == old(retained) && log == old(log)
    {
      online := true;
    }

    /** A retained publish. It may fail at any time, and always does while disconnected; the result
        says whether it was sent. */
    method Publish(topic: Topic, payload: Payload) returns (sent: bool)
      modifies this
      ensures sent ==> online
      ensures online == old(online) && log == old(log) + [Publication(topic, payload, sent)]
      ensures retained == if sent then old(retained)[topic := payload] else old(retained)
    {
      sent := *;
      sent := sent && online;
      if sent {
        retained := retained[topic := payload];
      }
      log := log + [Publication(topic, payload, sent)];
    }

    method PublishConfigs(suffixes: seq<string>)
      modifies this
      ensures online == old(online)
      ensures |old(log)| <= |log| && log[..|old(log)|] == old(log)
      ensures Configs(log[|old(log)|..], suffixes)
      ensures forall t: Topic :: !t.Config? ==> SameAt(old(retained), retained, t)
    {
      for i := 0 to |suffixes|
        invariant online == old(online)
        invariant |log| == |old(log)| + i && log[..|old(log)|] == old(log)
        invariant Configs(log[|old(log)|..], suffixes[..i])
        invariant forall t: Topic :: !t.Config? ==> SameAt(old(retained), retained, t)
      {
        var _ := Publish(Config(suffixes[i]), Text("config"));
      }
    }
  }

  /** The publications announce these sensors, in order. */
  predicate Configs(log: seq<Publication>, suffixes: seq<string>) {
    |log| == |suffixes| && forall i :: 0 <= i < |log| ==> log[i].topic == Config(suffixes[i])
  }

  predicate SameAt(a: map<Topic, Payload>, b: map<Topic, Payload>, t: Topic) {
    (t in a <==> t in b) && (t in a ==> a[t] == b[t])
  }

  // ------------------------------------------------------------------
  // What one poll has to say
  // ------------------------------------------------------------------

  function AttributesOf(dynamic: seq<Sensor>): map<string, string> {
    if dynamic == [] then map[]
    else
      var last := dynamic[|dynamic| - 1];
      var before := AttributesOf(dynamic[..|dynamic| - 1]);
      if last.attributes.Some? then before[last.suffix := last.attributes.value] else before
  }

  function Merged(values: Values, dynamic: seq<Sensor>): Values {
    if dynamic == [] then values
    else
      var last := dynamic[|dynamic| - 1];
      Merged(values, dynamic[..|dynamic| - 1])[last.suffix := last.state]
  }

  function Suffixes(dynamic: seq<Sensor>): set<string> {
    set s | s in dynamic :: s.suffix
  }

  function NewSuffixes(dynamic: seq<Sensor>, known: set<string>): seq<string> {
    if dynamic == [] then []
    else
      var last := dynamic[|dynamic| - 1];
      NewSuffixes(dynamic[..|dynamic| - 1], known) + if last.suffix in known then [] else [last.suffix]
  }

  function Elements(xs: seq<string>): set<string> {
    set x | x in xs
  }

  lemma SuffixesMore(dynamic: seq<Sensor>)
    requires dynamic != []
    ensures Suffixes(dynamic) == Suffixes(dynamic[..|dynamic| - 1]) + {dynamic[|dynamic| - 1].suffix}
  {
    assert dynamic == dynamic[..|dynamic| - 1] + [dynamic[|dynamic| - 1]];
  }

  lemma ElementsBoth(xs: seq<string>, ys: seq<string>)
    ensures Elements(xs + ys) == Elements(xs) + Elements(ys)
  {
  }

  lemma {:induction false} MergedKeys(values: Values, dynamic: seq<Sensor>)
    ensures Merged(values, dynamic).Keys == values.Keys + Suffixes(dynamic)
  {
    if dynamic != [] {
      MergedKeys(values, dynamic[..|dynamic| - 1]);
      SuffixesMore(dynamic);
    }
  }

  lemma {:induction false} KnownSuffixes(dynamic: seq<Sensor>, known: set<string>)
    ensures known + Elements(NewSuffixes(dynamic, known)) == known + Suffixes(dynamic)
  {
    if dynamic != [] {
      var front, x := dynamic[..|dynamic| - 1], dynamic[|dynamic| - 1].suffix;
      KnownSuffixes(front, known);
      SuffixesMore(dynamic);
      ElementsBoth(NewSuffixes(front, known), if x in known then [] else [x]);
    }
  }

  // ------------------------------------------------------------------
  // One poll as a change of memory
  // ------------------------------------------------------------------

  /** The publisher's memory and what it has done to the broker. */
  datatype Memory = Memory(
    announced: bool, discovered: set<string>, sent: map<string, string>,
    online: bool, retained: map<Topic, Payload>, log: seq<Publication>)

  predicate Cached(s: Memory, attributes: map<string, string>, x: string)
    requires x in attributes
  {
    x in s.sent && s.sent[x] == attributes[x]
  }

  /** What a poll does about the attributes of one suffix: nothing if they are what was sent last, else
      one publish, remembered if it was sent. Attributes that are gone are emptied once and forgotten. */
  predicate AttributeStep(s: Memory, t: Memory, attributes: map<string, string>, x: string) {
    if x in attributes then
      || Untouched(s, t, x)
      || (!Cached(s, attributes, x) && Cached(t, attributes, x) && Holds(t, Attributes(x), attributes[x]))
    else
      && x !in t.sent
      && (SameAt(s.retained, t.retained, Attributes(x)) || (x in s.sent && Holds(t, Attributes(x), "{}")))
  }

  predicate Holds(s: Memory, t: Topic, text: string) {
    t in s.retained && s.retained[t] == Text(text)
  }

  /** Every attempt since `s` was sent. */
  predicate AllSent(s: Memory, t: Memory) {
    |s.log| <= |t.log| && forall i :: |s.log| <= i < |t.log| ==> t.log[i].sent
  }

  /** `t` is later than `s`. */
  predicate Extends(s: Memory, t: Memory) {
    t.online == s.online && |s.log| <= |t.log| && t.log[..|s.log|] == s.log
  }

  lemma AllSentSplit(s: Memory, u: Memory, t: Memory)
    requires Extends(s, u) && Extends(u, t) && AllSent(s, t)
    ensures Extends(s, t) && AllSent(s, u) && AllSent(u, t)
  {
    assert forall i :: 0 <= i < |u.log| ==> t.log[..|u.log|][i] == u.log[i];
  }

  lemma ExtendsTwice(s: Memory, u: Memory, t: Memory)
    requires Extends(s, u) && Extends(u, t)
    ensures Extends(s, t)
  {
    assert t.log[..|s.log|] == t.log[..|u.log|][..|s.log|];
  }

  predicate Untouched(s: Memory, t: Memory, x: string) {
    && (x in s.sent <==> x in t.sent) && (x in s.sent ==> s.sent[x] == t.sent[x])
    && SameAt(s.retained, t.retained, Attributes(x))
  }

  ghost predicate UntouchedBut(s: Memory, t: Memory, x: string) {
    forall y :: y != x ==> Untouched(s, t, y)
  }

  /** The suffixes in `done` are dealt with, the others are as they were. */
  ghost predicate DealtWith(s: Memory, t: Memory, attributes: map<string, string>, done: set<string>) {
    && Extends(s, t)
    && (forall x :: x in done ==> AttributeStep(s, t, attributes, x))
    && (forall x :: x !in done ==> Untouched(s, t, x))
    && (AllSent(s, t) ==> forall x :: x in done ==> x in attributes ==> x in t.sent && t.sent[x] == attributes[x])
    && NoConfigs(t.log[|s.log|..])
  }

  lemma DealtWithOne(s: Memory, u: Memory, t: Memory, attributes: map<string, string>, done: set<string>, x: string)
    requires DealtWith(s, u, attributes, done) && x !in done
    requires Extends(u, t) && UntouchedBut(u, t, x) && NoConfigs(t.log[|u.log|..])
    requires AttributeStep(u, t, attributes, x)
    requires AllSent(u, t) && x in attributes ==> x in t.sent && t.sent[x] == attributes[x]
    ensures DealtWith(s, t, attributes, done + {x})
  {
    ExtendsTwice(s, u, t);
    NoConfigsTwice(s, u, t);
    if AllSent(s, t) {
      AllSentSplit(s, u, t);
    }
    forall y
      ensures y in done + {x} ==> AttributeStep(s, t, attributes, y)
      ensures y !in done + {x} ==> Untouched(s, t, y)
      ensures AllSent(s, t) && y in done + {x} && y in attributes ==> y in t.sent && t.sent[y] == attributes[y]
    {
      if y == x {
        UntouchedThen(s, u, t, attributes, x);
      } else {
        assert Untouched(u, t, y);
        if y in done {
          ThenUntouched(s, u, t, attributes, y);
        }
      }
    }
  }

  lemma NoConfigsTwice(s: Memory, u: Memory, t: Memory)
    requires Extends(s, u) && Extends(u, t) && NoConfigs(u.log[|s.log|..]) && NoConfigs(t.log[|u.log|..])
    ensures NoConfigs(t.log[|s.log|..])
  {
    assert t.log[|s.log|..] == u.log[|s.log|..] + t.log[|u.log|..] by {
      assert t.log == t.log[..|u.log|] + t.log[|u.log|..];
    }
  }

  lemma UntouchedThen(s: Memory, u: Memory, t: Memory, attributes: map<string, string>, x: string)
    requires Untouched(s, u, x) && AttributeStep(u, t, attributes, x)
    ensures AttributeStep(s, t, attributes, x)
  {
  }

  lemma ThenUntouched(s: Memory, u: Memory, t: Memory, attributes: map<string, string>, x: string)
    requires AttributeStep(s, u, attributes, x) && Untouched(u, t, x)
    ensures AttributeStep(s, t, attributes, x)
  {
  }

  /** A suffix that is neither remembered nor has attributes has been dealt with, too. */
  lemma AllDealtWith(s: Memory, t: Memory, attributes: map<string, string>, done: set<string>)
    requires DealtWith(s, t, attributes, done) && attributes.Keys <= done && t.sent.Keys <= done
    ensures forall x :: AttributeStep(s, t, attributes, x)
    ensures AllSent(s, t) ==> forall x :: x in attributes ==> x in t.sent && t.sent[x] == attributes[x]
  {
    forall x ensures AttributeStep(s, t, attributes, x) {
      if x !in done {
        assert Untouched(s, t, x);
      }
    }
  }

  /** The state a poll publishes. */
  function StateOf(s: Memory, values: Values, dynamic: seq<Sensor>): Values {
    var merged := Merged(values, dynamic);
    merged + map x | x in s.discovered && x !in merged :: None
  }

  predicate Announces(log: seq<Publication>, x: string) {
    exists i :: 0 <= i < |log| && log[i].topic == Config(x)
  }

  /** The suffixes whose discovery is among the publications, in order. */
  function ConfigsIn(log: seq<Publication>): seq<string> {
    if log == [] then []
    else
      var last := log[|log| - 1];
      ConfigsIn(log[..|log| - 1]) + if last.topic.Config? then [last.topic.suffix] else []
  }

  lemma {:induction false} ConfigsInBoth(a: seq<Publication>, b: seq<Publication>)
    ensures ConfigsIn(a + b) == ConfigsIn(a) + ConfigsIn(b)
    decreases |b|
  {
    if b == [] {
      assert a + b == a;
    } else {
      assert (a + b)[..|a + b| - 1] == a + b[..|b| - 1];
      ConfigsInBoth(a, b[..|b| - 1]);
    }
  }

  lemma {:induction false} ConfigsInAll(log: seq<Publication>, suffixes: seq<string>)
    requires Configs(log, suffixes)
    ensures ConfigsIn(log) == suffixes
  {
    if log != [] {
      var n := |log| - 1;
      ConfigsInAll(log[..n], suffixes[..n]);
      assert suffixes == suffixes[..n] + [suffixes[n]];
    }
  }

  predicate NoConfigs(log: seq<Publication>) {
    forall i :: 0 <= i < |log| ==> !log[i].topic.Config?
  }

  lemma {:induction false} ConfigsInNone(log: seq<Publication>)
    requires NoConfigs(log)
    ensures ConfigsIn(log) == []
  {
    if log != [] {
      ConfigsInNone(log[..|log| - 1]);
    }
  }

  lemma {:induction false} ConfigsInHas(log: seq<Publication>, x: string)
    ensures x in ConfigsIn(log) <==> Announces(log, x)
  {
    if log != [] {
      var front, last := log[..|log| - 1], log[|log| - 1];
      ConfigsInHas(front, x);
      assert Announces(front, x) ==> Announces(log, x);
      if Announces(log, x) && last.topic != Config(x) {
        var i :| 0 <= i < |log| && log[i].topic == Config(x);
        assert front[i].topic == Config(x);
      }
    }
  }

  /** Discovery stands before the two last publications of a poll. */
  lemma ConfigsBeforeEnd(log: seq<Publication>, x: string)
    requires |log| >= 2 && x in ConfigsIn(log)
    requires !log[|log| - 2].topic.Config? && !log[|log| - 1].topic.Config?
    ensures Announces(log[..|log| - 2], x)
  {
    var added, ends := log[..|log| - 2], log[|log| - 2..];
    assert log == added + ends;
    ConfigsInBoth(added, ends);
    ConfigsInNone(ends);
    ConfigsInHas(added, x);
  }

  /** A poll with something to publish: its last two publications are the state and ``online``; it announces the
      publisher's own sensors if no poll did before, then the dynamic ones that are new. */
  ghost predicate PublishingStep(statics: seq<string>, s: Memory, t: Memory, values: Values, dynamic: seq<Sensor>) {
    && t.announced && t.discovered == s.discovered + Suffixes(dynamic) && t.online == s.online
    && (forall x {:trigger AttributeStep(s, t, AttributesOf(dynamic), x)} ::
          AttributeStep(s, t, AttributesOf(dynamic), x))
    && (AllSent(s, t) ==> forall x :: x in AttributesOf(dynamic) ==>
          x in t.sent && t.sent[x] == AttributesOf(dynamic)[x])
    && |t.log| >= |s.log| + 2 && t.log[..|s.log|] == s.log
    && t.log[|t.log| - 2].topic == State && t.log[|t.log| - 2].payload == Json(StateOf(s, values, dynamic))
    && t.log[|t.log| - 1].topic == Status && t.log[|t.log| - 1].payload == Text("online")
    && ConfigsIn(t.log[|s.log|..]) == (if s.announced then [] else statics) + NewSuffixes(dynamic, s.discovered)
  }

  ghost predicate PollStep(statics: seq<string>, s: Memory, t: Memory, polled: Option<Values>, dynamic: seq<Sensor>) {
    if polled.None? && dynamic == [] then
      && t.announced == s.announced && t.discovered == s.discovered && t.sent == s.sent && t.online == s.online
      && (exists sent :: t.log == s.log + [Publication(Status, Text("offline"), sent)])
      && (forall topic :: topic != Status ==> SameAt(s.retained, t.retained, topic))
    else PublishingStep(statics, s, t, polled.GetOr(map[]), dynamic)
  }

  /** Only discovery was published. */
  ghost predicate OnlyConfigs(s: Memory, t: Memory, suffixes: seq<string>) {
    && Extends(s, t) && t.sent == s.sent && Configs(t.log[|s.log|..], suffixes)
    && forall x :: SameAt(s.retained, t.retained, Attributes(x))
  }

  /** The state was published, then ``online``. */
  ghost predicate StatePublished(s: Memory, t: Memory, values: Values) {
    && Extends(s, t) && |t.log| == |s.log| + 2
    && t.sent == s.sent && t.announced == s.announced && t.discovered == s.discovered
    && t.log[|s.log|].topic == State && t.log[|s.log|].payload == Json(values)
    && t.log[|s.log| + 1].topic == Status && t.log[|s.log| + 1].payload == Text("online")
    && forall x :: SameAt(s.retained, t.retained, Attributes(x))
  }

  /** What is new this poll has a value, so only what was discovered before can be missing. */
  lemma StateIs(s: Memory, values: Values, dynamic: seq<Sensor>, state: Values)
    requires var merged := Merged(values, dynamic);
             state == merged + map x | x in s.discovered + Suffixes(dynamic) && x !in merged :: None
    ensures state == StateOf(s, values, dynamic)
  {
    MergedKeys(values, dynamic);
  }

  /** What a publishing poll announces, part by part. */
  lemma PartsAnnounce(s: Memory, a: Memory, b: Memory, c: Memory, t: Memory, statics: seq<string>, added: seq<string>)
    requires OnlyConfigs(s, a, statics) && OnlyConfigs(a, b, added) && Extends(b, c) && NoConfigs(c.log[|b.log|..])
    requires Extends(c, t) && NoConfigs(t.log[|c.log|..])
    ensures ConfigsIn(t.log[|s.log|..]) == statics + added
  {
    ExtendsTwice(b, c, t);
    NoConfigsTwice(b, c, t);
    LaterConfigs(s, a, b);
    ConfigsInAll(a.log[|s.log|..], statics);
    ConfigsInAll(b.log[|a.log|..], added);
    ExtendsTwice(s, a, b);
    LaterConfigs(s, b, t);
    ConfigsInNone(t.log[|b.log|..]);
  }

  lemma LaterConfigs(s: Memory, u: Memory, t: Memory)
    requires Extends(s, u) && Extends(u, t)
    ensures ConfigsIn(t.log[|s.log|..]) == ConfigsIn(u.log[|s.log|..]) + ConfigsIn(t.log[|u.log|..])
  {
    assert t.log[|s.log|..] == u.log[|s.log|..] + t.log[|u.log|..] by {
      assert t.log == t.log[..|u.log|] + t.log[|u.log|..];
    }
    ConfigsInBoth(u.log[|s.log|..], t.log[|u.log|..]);
  }

  /** A publishing poll is static discovery (once), discovery of what is new, attributes, state, status. */
  lemma PublishingParts(
      s: Memory, a: Memory, b: Memory, c: Memory, t: Memory, statics: seq<string>, values: Values, dynamic: seq<Sensor>)
    requires OnlyConfigs(s, a, if s.announced then [] else statics) && a.discovered == s.discovered
    requires OnlyConfigs(a, b, NewSuffixes(dynamic, s.discovered)) && b.discovered == s.discovered + Suffixes(dynamic)
    requires Extends(b, c) && c.discovered == b.discovered && c.announced && NoConfigs(c.log[|b.log|..])
    requires forall x :: AttributeStep(b, c, AttributesOf(dynamic), x)
    requires AllSent(b, c) ==> forall x :: x in AttributesOf(dynamic) ==>
               x in c.sent && c.sent[x] == AttributesOf(dynamic)[x]
    requires StatePublished(c, t, StateOf(s, values, dynamic))
    ensures PublishingStep(statics, s, t, values, dynamic)
  {
    PartsAnnounce(s, a, b, c, t, if s.announced then [] else statics, NewSuffixes(dynamic, s.discovered));
    ExtendsTwice(s, a, b);
    ExtendsTwice(s, b, c);
    ExtendsTwice(s, c, t);
    if AllSent(s, t) {
      AllSentSplit(s, c, t);
      AllSentSplit(s, b, c);
    }
    PartsAttributes(s, a, b, c, t, AttributesOf(dynamic));
  }

  lemma PartsAttributes(s: Memory, a: Memory, b: Memory, c: Memory, t: Memory, attributes: map<string, string>)
    requires a.sent == s.sent && b.sent == a.sent && t.sent == c.sent
    requires forall x :: AttributeStep(b, c, attributes, x)
    requires forall x :: SameAt(s.retained, a.retained, Attributes(x))
    requires forall x :: SameAt(a.retained, b.retained, Attributes(x))
    requires forall x :: SameAt(c.retained, t.retained, Attributes(x))
    ensures forall x :: AttributeStep(s, t, attributes, x)
  {
    forall x ensures AttributeStep(s, t, attributes, x) {
      assert AttributeStep(b, c, attributes, x);
      assert SameAt(s.retained, a.retained, Attributes(x)) && SameAt(a.retained, b.retained, Attributes(x));
      assert SameAt(c.retained, t.retained, Attributes(x));
    }
  }

  lemma {:induction false} NewSuffixesHas(dynamic: seq<Sensor>, known: set<string>, x: string)
    requires x in Suffixes(dynamic) && x !in known
    ensures x in NewSuffixes(dynamic, known)
  {
    var n := |dynamic| - 1;
    assert dynamic == dynamic[..n] + [dynamic[n]];
    if dynamic[n].suffix != x {
      NewSuffixesHas(dynamic[..n], known, x);
    }
  }

  // ------------------------------------------------------------------
  // The publisher
  // ------------------------------------------------------------------

  class Publisher {
    const client: Client
    const sensors: seq<string>
    var announced: bool
    var discovered: set<string>
    var sent: map<string, string>

    constructor (client: Client, sensors: seq<string>)
      ensures this.client == client && this.sensors == sensors
      ensures !announced && discovered == {} && sent == map[]
    {
      this.client, this.sensors := client, sensors;
      announced, discovered, sent := false, {}, map[];
    }

    function Snapshot(): Memory
      reads this, client
    {
      Memory(announced, discovered, sent, client.online, client.retained, client.log)
    }

    /** The reconnect callback: everything is sent again. */
    method OnConnected()
      modifies this`sent
      ensures sent == map[]
    {
      sent := map[];
    }

    /** What an event does to the publisher and its client. */
    method Handle(e: Event)
      requires e.Outage? ==> !client.online
      modifies this, client
      ensures Step(sensors, old(Snapshot()), e, Snapshot())
    {
      match e
      case Poll(polled, dynamic) =>
        PollOnce(polled, dynamic);
      case Disconnect =>
        client.GoOffline();
      case Outage(retained) =>
        client.Lose(retained);
      case Connect =>
        client.GoOnline();
        OnConnected();
    }

    /** Publishes one suffix's attributes unless they are what was sent last. */
    method PublishCurrent(x: string, attributes: map<string, string>)
      requires x in attributes
      modifies this`sent, client
      ensures Extends(old(Snapshot()), Snapshot()) && UntouchedBut(old(Snapshot()), Snapshot(), x)
      ensures NoConfigs(client.log[|old(client.log)|..])
      ensures AttributeStep(old(Snapshot()), Snapshot(), attributes, x)
      ensures AllSent(old(Snapshot()), Snapshot()) ==> x in sent && sent[x] == attributes[x]
    {
      if !(x in sent && sent[x] == attributes[x]) {
        var ok := client.Publish(Attributes(x), Text(attributes[x]));
        assert client.log[|client.log| - 1].sent == ok;
        if ok {  // not sent: try again next poll
          sent := sent[x := attributes[x]];
        }
      }
    }

    /** Empties the attributes of a suffix that has none any more, and forgets it. */
    method EmptyGone(x: string, attributes: map<string, string>)
      requires x in sent && x !in attributes
      modifies this`sent, client
      ensures Extends(old(Snapshot()), Snapshot()) && UntouchedBut(old(Snapshot()), Snapshot(), x)
      ensures NoConfigs(client.log[|old(client.log)|..])
      ensures AttributeStep(old(Snapshot()), Snapshot(), attributes, x)
      ensures sent.Keys == old(sent.Keys) - {x}
    {
      var _ := client.Publish(Attributes(x), Text("{}"));
      sent := sent - {x};
    }

    method PublishAll(attributes: map<string, string>)
      modifies this`sent, client
      ensures DealtWith(old(Snapshot()), Snapshot(), attributes, attributes.Keys)
    {
      ghost var s, done := Snapshot(), {};
      var todo := attributes.Keys;
      while todo != {}
        invariant unchanged(`announced) && unchanged(`discovered)
        invariant done == attributes.Keys - todo && todo <= attributes.Keys
        invariant DealtWith(s, Snapshot(), attributes, done)
        decreases todo
      {
        var x :| x in todo;
        ghost var u := Snapshot();
        PublishCurrent(x, attributes);
        DealtWithOne(s, u, Snapshot(), attributes, done, x);
        todo, done := todo - {x}, done + {x};
      }
      assert done == attributes.Keys;
    }

    method EmptyAllGone(attributes: map<string, string>, ghost s: Memory) returns (ghost done: set<string>)
      requires DealtWith(s, Snapshot(), attributes, attributes.Keys)
      modifies this`sent, client
      ensures DealtWith(s, Snapshot(), attributes, done) && attributes.Keys <= done && sent.Keys <= done
    {
      done := attributes.Keys;
      var gone := sent.Keys - attributes.Keys;
      while gone != {}
        invariant unchanged(`announced) && unchanged(`discovered)
        invariant gone == sent.Keys - attributes.Keys && gone !! done && attributes.Keys <= done
        invariant DealtWith(s, Snapshot(), attributes, done)
        decreases gone
      {
        var x :| x in gone;
        ghost var u := Snapshot();
        EmptyGone(x, attributes);
        DealtWithOne(s, u, Snapshot(), attributes, done, x);
        gone, done := gone - {x}, done + {x};
      }
      forall y | y in sent.Keys ensures y in done {
        assert y in attributes.Keys || y in gone;
      }
    }

    method PublishAttributes(attributes: map<string, string>)
      modifies this`sent, client
      ensures Extends(old(Snapshot()), Snapshot()) && NoConfigs(client.log[|old(client.log)|..])
      ensures forall x :: AttributeStep(old(Snapshot()), Snapshot(), attributes, x)
      ensures AllSent(old(Snapshot()), Snapshot()) ==>
                forall x :: x in attributes ==> x in sent && sent[x] == attributes[x]
    {
      ghost var s := Snapshot();
      PublishAll(attributes);
      ghost var done := EmptyAllGone(attributes, s);
      AllDealtWith(s, Snapshot(), attributes, done);
    }

    /** A publisher's sensors are announced once. */
    method AnnounceSensors()
      modifies this`announced, client
      ensures announced
      ensures OnlyConfigs(old(Snapshot()), Snapshot(), if old(announced) then [] else sensors)
    {
      if !announced {
        client.PublishConfigs(sensors);
        announced := true;
      }
    }

    /** Each dynamic sensor is announced the first time it appears. */
    method AnnounceNew(dynamic: seq<Sensor>)
      modifies this`discovered, client
      ensures discovered == old(discovered) + Suffixes(dynamic)
      ensures OnlyConfigs(old(Snapshot()), Snapshot(), NewSuffixes(dynamic, old(discovered)))
    {
      var added := NewSuffixes(dynamic, discovered);
      client.PublishConfigs(added);
      discovered := discovered + Elements(added);
      KnownSuffixes(dynamic, old(discovered));
    }

    /** The values and attributes of a poll. */
    method Collect(base: Values, dynamic: seq<Sensor>) returns (values: Values, attributes: map<string, string>)
      ensures values == Merged(base, dynamic) && attributes == AttributesOf(dynamic)
    {
      values, attributes := base, map[];
      for i := 0 to |dynamic|
        invariant values == Merged(base, dynamic[..i]) && attributes == AttributesOf(dynamic[..i])
      {
        assert dynamic[..i + 1][..i] == dynamic[..i];
        if dynamic[i].attributes.Some? {
          attributes := attributes[dynamic[i].suffix := dynamic[i].attributes.value];
        }
        values := values[dynamic[i].suffix := dynamic[i].state];
      }
      assert dynamic[..|dynamic|] == dynamic;
    }

    /** A discovered sensor that is gone is published as null, not left out. */
    method WithVanished(merged: Values) returns (values: Values)
      ensures values == merged + map x | x in discovered && x !in merged :: None
    {
      values := merged;
      var vanished := discovered - values.Keys;
      while vanished != {}
        invariant vanished <= discovered - merged.Keys
        invariant values == merged + map x | x in discovered - merged.Keys - vanished :: None
        decreases vanished
      {
        var x :| x in vanished;
        vanished := vanished - {x};
        values := values[x := None];
      }
    }

    method PollOnce(polled: Option<Values>, dynamic: seq<Sensor>)
      modifies this, client
      ensures PollStep(sensors, old(Snapshot()), Snapshot(), polled, dynamic)
    {
      ghost var s := Snapshot();
      if polled.None? && dynamic == [] {
        var _ := client.Publish(Status, Text("offline"));
        return;
      }
      var base := polled.GetOr(map[]);
      var values, attributes := Collect(base, dynamic);
      AnnounceSensors();
      ghost var a := Snapshot();
      AnnounceNew(dynamic);
      ghost var b := Snapshot();
      values := WithVanished(values);
      StateIs(s, base, dynamic, values);
      PublishAttributes(attributes);
      ghost var c := Snapshot();
      PublishState(values);
      PublishingParts(s, a, b, c, Snapshot(), sensors, base, dynamic);
    }

    method PublishState(values: Values)
      modifies client
      ensures StatePublished(old(Snapshot()), Snapshot(), values)
    {
      var _ := client.Publish(State, Json(values));
      var _ := client.Publish(Status, Text("online"));
    }
  }

  // ------------------------------------------------------------------
  // Runs
  // ------------------------------------------------------------------

  /** A poll, the connection lost, the broker coming back with any retained messages, a reconnect. */
  datatype Event =
    | Poll(polled: Option<Values>, dynamic: seq<Sensor>)
    | Disconnect
    | Outage(retained: map<Topic, Payload>)
    | Connect

  ghost predicate Step(statics: seq<string>, s: Memory, e: Event, t: Memory) {
    match e
    case Poll(polled, dynamic) => PollStep(statics, s, t, polled, dynamic)
    case Disconnect => t == s.(online := false)
    case Outage(retained) => !s.online && t == s.(retained := retained)
    case Connect => t == s.(online := true, sent := map[])
  }

  ghost predicate IsRun(statics: seq<string>, states: seq<Memory>, events: seq<Event>) {
    && |states| == |events| + 1
    && states[0] == Memory(false, {}, map[], false, states[0].retained, [])
    && forall i :: 0 <= i < |events| ==> Step(statics, states[i], events[i], states[i + 1])
  }

  predicate Online(events: seq<Event>) {
    events != [] &&
    match events[|events| - 1]
    case Connect => true
    case Disconnect => false
    case _ => Online(events[..|events| - 1])
  }

  /** The broker comes back with other messages only while it is not connected. */
  predicate Possible(events: seq<Event>) {
    forall i :: 0 <= i < |events| && events[i].Outage? ==> !Online(events[..i])
  }

  lemma OnlineStep(events: seq<Event>, i: nat)
    requires i < |events|
    ensures Online(events[..i + 1]) ==
            match events[i] case Connect => true case Disconnect => false case _ => Online(events[..i])
  {
    assert events[..i + 1][..i] == events[..i];
  }

  /** A publisher that meets the events one after the other makes a run. */
  method MakeRun(sensors: seq<string>, retained: map<Topic, Payload>, events: seq<Event>)
    returns (p: Publisher, ghost states: seq<Memory>)
    requires Possible(events)
    ensures IsRun(sensors, states, events) && states[0].retained == retained && states[|events|] == p.Snapshot()
  {
    var client := new Client();
    client.Lose(retained);
    p := new Publisher(client, sensors);
    states := [p.Snapshot()];
    for i := 0 to |events|
      invariant fresh(p) && fresh(p.client) && IsRun(sensors, states, events[..i])
      invariant states[i] == p.Snapshot() && states[0].retained == retained
      invariant p.client.online == Online(events[..i])
    {
      ghost var before := p.Snapshot();
      p.Handle(events[i]);
      OnlineStep(events, i);
      assert events[..i + 1][..i] == events[..i];
      RunExtends(sensors, states, events[..i], events[i], p.Snapshot());
      assert events[..i] + [events[i]] == events[..i + 1];
      states := states + [p.Snapshot()];
    }
    assert events[..|events|] == events;
  }

  lemma RunExtends(statics: seq<string>, states: seq<Memory>, events: seq<Event>, e: Event, t: Memory)
    requires IsRun(statics, states, events) && Step(statics, states[|events|], e, t)
    ensures IsRun(statics, states + [t], events + [e])
  {
  }

  predicate Publishes(e: Event) {
    e.Poll? && (e.polled.Some? || e.dynamic != [])
  }

  /** The cache holds exactly what the broker retains for the suffixes in it. */
  predicate Agrees(s: Memory) {
    forall x :: x in s.sent ==> Holds(s, Attributes(x), s.sent[x])
  }

  lemma StepAgrees(statics: seq<string>, s: Memory, e: Event, t: Memory)
    requires Step(statics, s, e, t) && (s.online ==> Agrees(s))
    ensures t.online ==> Agrees(t)
  {
    if e.Poll? && t.online {
      forall x | x in t.sent ensures Holds(t, Attributes(x), t.sent[x]) {
        if Publishes(e) {
          assert AttributeStep(s, t, AttributesOf(e.dynamic), x);
        } else {
          assert SameAt(s.retained, t.retained, Attributes(x));
        }
      }
    }
  }

  /** Over every run: while connected, each remembered attribute payload is the retained one. */
  lemma {:induction false} CacheAgreesWithBroker(statics: seq<string>, states: seq<Memory>, events: seq<Event>, i: nat)
    requires IsRun(statics, states, events) && i < |states|
    ensures states[i].online ==> Agrees(states[i])
  {
    if i > 0 {
      CacheAgreesWithBroker(statics, states, events, i - 1);
      StepAgrees(statics, states[i - 1], events[i - 1], states[i]);
    }
  }

  /** Skipping what the cache remembers loses nothing: after a publishing poll all of whose publishes
      were sent, the broker retains every current sensor's current attributes, as if all had been sent. */
  lemma LikePublishingEveryTime(statics: seq<string>, states: seq<Memory>, events: seq<Event>, i: nat, x: string)
    requires IsRun(statics, states, events) && i < |events| && Publishes(events[i])
    requires states[i].online && AllSent(states[i], states[i + 1])
    requires x in AttributesOf(events[i].dynamic)
    ensures Holds(states[i + 1], Attributes(x), AttributesOf(events[i].dynamic)[x])
  {
    CacheAgreesWithBroker(statics, states, events, i + 1);
  }

  /** Attributes that were forgotten are not touched again until their sensor has some: a failed
      attempt to empty them is not repeated, and what a reconnect made it forget is never emptied. */
  lemma ForgottenStays(statics: seq<string>, s: Memory, e: Event, t: Memory, x: string)
    requires Step(statics, s, e, t) && !e.Outage? && x !in s.sent
    requires e.Poll? ==> x !in AttributesOf(e.dynamic)
    ensures x !in t.sent && SameAt(s.retained, t.retained, Attributes(x))
  {
    if Publishes(e) {
      assert AttributeStep(s, t, AttributesOf(e.dynamic), x);
    }
  }

  /** The dynamic suffixes of the publishing polls among the first `i` events. */
  function Reported(events: seq<Event>, i: nat): set<string>
    requires i <= |events|
  {
    if i == 0 then {}
    else Reported(events, i - 1) + if Publishes(events[i - 1]) then Suffixes(events[i - 1].dynamic) else {}
  }

  lemma {:induction false} DiscoveredIsReported(statics: seq<string>, states: seq<Memory>, events: seq<Event>, i: nat)
    requires IsRun(statics, states, events) && i < |states|
    ensures states[i].discovered == Reported(events, i)
  {
    if i > 0 {
      DiscoveredIsReported(statics, states, events, i - 1);
      assert Step(statics, states[i - 1], events[i - 1], states[i]);
    }
  }

  /** Some poll among the first `i` events had something to publish. */
  predicate HasPublished(events: seq<Event>, i: nat)
    requires i <= |events|
  {
    exists j :: 0 <= j < i && Publishes(events[j])
  }

  /** All discovery of a run: the publisher's own sensors at the first poll with something to publish, and each
      dynamic sensor at the first that reports it. */
  function Discovery(statics: seq<string>, events: seq<Event>, i: nat): seq<string>
    requires i <= |events|
  {
    if i == 0 then []
    else
      Discovery(statics, events, i - 1) +
      if !Publishes(events[i - 1]) then []
      else (if HasPublished(events, i - 1) then [] else statics) +
           NewSuffixes(events[i - 1].dynamic, Reported(events, i - 1))
  }

  lemma {:induction false} AnnouncedIs(statics: seq<string>, states: seq<Memory>, events: seq<Event>, i: nat)
    requires IsRun(statics, states, events) && i < |states|
    ensures states[i].announced <==> HasPublished(events, i)
  {
    if i > 0 {
      AnnouncedIs(statics, states, events, i - 1);
      assert Step(statics, states[i - 1], events[i - 1], states[i]);
      assert HasPublished(events, i) <==> HasPublished(events, i - 1) || Publishes(events[i - 1]);
    }
  }

  /** What one event adds to the discovery published. */
  lemma StepDiscovers(statics: seq<string>, s: Memory, e: Event, t: Memory)
    requires Step(statics, s, e, t)
    ensures Extends(s, t.(online := s.online))
    ensures ConfigsIn(t.log[|s.log|..])
         == if !Publishes(e) then []
            else (if s.announced then [] else statics) + NewSuffixes(e.dynamic, s.discovered)
  {
    if !Publishes(e) {
      ConfigsInNone(t.log[|s.log|..]);
    }
  }

  /** Over every run the discovery published is exactly that, in that order: nothing is announced twice, whatever
      happens to the connection. */
  lemma {:induction false} DiscoveryIs(statics: seq<string>, states: seq<Memory>, events: seq<Event>, i: nat)
    requires IsRun(statics, states, events) && i < |states|
    ensures ConfigsIn(states[i].log) == Discovery(statics, events, i)
  {
    if i > 0 {
      DiscoveryIs(statics, states, events, i - 1);
      AnnouncedIs(statics, states, events, i - 1);
      DiscoveredIsReported(statics, states, events, i - 1);
      StepOfRun(statics, states, events, i - 1);
      DiscoveryNext(statics, events, i - 1, states[i - 1], states[i]);
    }
  }

  lemma StepOfRun(statics: seq<string>, states: seq<Memory>, events: seq<Event>, i: nat)
    requires IsRun(statics, states, events) && i < |events|
    ensures Step(statics, states[i], events[i], states[i + 1])
  {
  }

  lemma DiscoveryNext(statics: seq<string>, events: seq<Event>, i: nat, s: Memory, t: Memory)
    requires i < |events| && Step(statics, s, events[i], t) && ConfigsIn(s.log) == Discovery(statics, events, i)
    requires (s.announced <==> HasPublished(events, i)) && s.discovered == Reported(events, i)
    ensures ConfigsIn(t.log) == Discovery(statics, events, i + 1)
  {
    LogDiscovers(statics, s, events[i], t);
  }

  lemma LogDiscovers(statics: seq<string>, s: Memory, e: Event, t: Memory)
    requires Step(statics, s, e, t)
    ensures ConfigsIn(t.log) == ConfigsIn(s.log) +
              if !Publishes(e) then []
              else (if s.announced then [] else statics) + NewSuffixes(e.dynamic, s.discovered)
  {
    StepDiscovers(statics, s, e, t);
    assert t.log == s.log + t.log[|s.log|..];
    ConfigsInBoth(s.log, t.log[|s.log|..]);
  }

  lemma {:induction false} DiscoveryHas(statics: seq<string>, events: seq<Event>, i: nat, x: string)
    requires i <= |events|
    ensures x in Discovery(statics, events, i)
       <==> x in Reported(events, i) || (x in statics && HasPublished(events, i))
  {
    if i > 0 {
      DiscoveryHas(statics, events, i - 1, x);
      assert HasPublished(events, i) <==> HasPublished(events, i - 1) || Publishes(events[i - 1]);
      if Publishes(events[i - 1]) {
        NewSuffixesAre(events[i - 1].dynamic, Reported(events, i - 1), x);
      }
    }
  }

  lemma NewSuffixesAre(dynamic: seq<Sensor>, known: set<string>, x: string)
    ensures x in NewSuffixes(dynamic, known) <==> x in Suffixes(dynamic) && x !in known
  {
    KnownSuffixes(dynamic, known);
    NewSuffixesUnknown(dynamic, known);
    assert x in Elements(NewSuffixes(dynamic, known)) <==> x in NewSuffixes(dynamic, known);
    if x in NewSuffixes(dynamic, known) {
      assert x in known + Suffixes(dynamic);
    }
    if x in Suffixes(dynamic) && x !in known {
      assert x in known + Elements(NewSuffixes(dynamic, known));
    }
  }

  lemma {:induction false} NewSuffixesUnknown(dynamic: seq<Sensor>, known: set<string>)
    ensures forall x :: x in NewSuffixes(dynamic, known) ==> x !in known
  {
    if dynamic != [] {
      NewSuffixesUnknown(dynamic[..|dynamic| - 1], known);
    }
  }

  /** A sensor of the publisher that no poll reports as a dynamic one is announced once, at the first poll with
      something to publish, before that poll's state. */
  lemma {:induction false} StaticOnce(statics: seq<string>, events: seq<Event>, i: nat, x: string)
    requires i <= |events| && x !in Reported(events, i)
    ensures multiset(Discovery(statics, events, i))[x] == if HasPublished(events, i) then multiset(statics)[x] else 0
  {
    if i > 0 {
      StaticOnce(statics, events, i - 1, x);
      assert HasPublished(events, i) <==> HasPublished(events, i - 1) || Publishes(events[i - 1]);
      if Publishes(events[i - 1]) {
        NewSuffixesAre(events[i - 1].dynamic, Reported(events, i - 1), x);
      }
    }
  }

  lemma StateHas(s: Memory, values: Values, dynamic: seq<Sensor>)
    ensures var state, merged := StateOf(s, values, dynamic), Merged(values, dynamic);
            && state.Keys == values.Keys + (s.discovered + Suffixes(dynamic))
            && forall x :: x in state ==> state[x] == if x in merged then merged[x] else None
  {
    MergedKeys(values, dynamic);
  }

  lemma EndsWithStatus(statics: seq<string>, s: Memory, e: Event, t: Memory)
    requires Step(statics, s, e, t) && Publishes(e)
    ensures |t.log| >= 2 && !t.log[|t.log| - 2].topic.Config? && !t.log[|t.log| - 1].topic.Config?
  {
  }

  lemma StateSaid(statics: seq<string>, states: seq<Memory>, events: seq<Event>, i: nat)
    requires IsRun(statics, states, events) && i < |events| && Publishes(events[i])
    ensures var values := events[i].polled.GetOr(map[]);
            var merged := Merged(values, events[i].dynamic);
            var log := states[i + 1].log;
            && |log| >= 2 && log[|log| - 2].topic == State && log[|log| - 2].payload.Json?
            && var state := log[|log| - 2].payload.values;
            && state.Keys == values.Keys + Reported(events, i + 1)
            && forall x :: x in state ==> state[x] == if x in merged then merged[x] else None
  {
    var s, e := states[i], events[i];
    assert Step(statics, s, e, states[i + 1]);
    DiscoveredIsReported(statics, states, events, i);
    StateHas(s, e.polled.GetOr(map[]), e.dynamic);
  }

  /** All that a publishing poll's state can have keys for was announced before that state, and so were all the
      publisher's own sensors. */
  lemma AllAnnounced(statics: seq<string>, states: seq<Memory>, events: seq<Event>, i: nat)
    requires IsRun(statics, states, events) && i < |events| && Publishes(events[i])
    ensures var reported, log := Reported(events, i + 1), states[i + 1].log;
            |log| >= 2 && var before := log[..|log| - 2];
            forall x :: x in reported || x in statics ==> Announces(before, x)
  {
    StepOfRun(statics, states, events, i);
    EndsWithStatus(statics, states[i], events[i], states[i + 1]);
    DiscoveryIs(statics, states, events, i + 1);
    assert HasPublished(events, i + 1);
    DiscoveredBeforeEnd(statics, events, i + 1, states[i + 1].log);
  }

  lemma DiscoveredBeforeEnd(statics: seq<string>, events: seq<Event>, i: nat, log: seq<Publication>)
    requires i <= |events| && HasPublished(events, i) && ConfigsIn(log) == Discovery(statics, events, i)
    requires |log| >= 2 && !log[|log| - 2].topic.Config? && !log[|log| - 1].topic.Config?
    ensures var reported, before := Reported(events, i), log[..|log| - 2];
            forall x :: x in reported || x in statics ==> Announces(before, x)
  {
    var reported, before := Reported(events, i), log[..|log| - 2];
    forall x | x in reported || x in statics
      ensures Announces(before, x)
    {
      DiscoveryHas(statics, events, i, x);
      ConfigsBeforeEnd(log, x);
    }
  }

  /** Over every run, the state a poll publishes has this poll's values, and null for every dynamic
      sensor any poll reported before that this one did not; every dynamic suffix in it and every sensor of the
      publisher was announced before it. */
  lemma VanishedAreNull(statics: seq<string>, states: seq<Memory>, events: seq<Event>, i: nat)
    requires IsRun(statics, states, events) && i < |events| && Publishes(events[i])
    ensures var values := events[i].polled.GetOr(map[]);
            var merged := Merged(values, events[i].dynamic);
            var reported := Reported(events, i + 1);
            var log := states[i + 1].log;
            && |log| >= 2 && log[|log| - 2].topic == State && log[|log| - 2].payload.Json?
            && var state := log[|log| - 2].payload.values;
            && state.Keys == values.Keys + reported
            && (forall x :: x in state ==> state[x] == if x in merged then merged[x] else None)
            && var before := log[..|log| - 2];
            && (forall x :: x in reported || x in statics ==> Announces(before, x))
  {
    StateSaid(statics, states, events, i);
    AllAnnounced(statics, states, events, i);
  }

  // ------------------------------------------------------------------
  // Which value and which attributes a suffix has
  // ------------------------------------------------------------------

  /** The last sensor of its suffix in a poll. */
  predicate LastOf(dynamic: seq<Sensor>, i: nat) {
    i < |dynamic| && forall j :: i < j < |dynamic| ==> dynamic[j].suffix != dynamic[i].suffix
  }

  /** A dynamic sensor's value is its last one in the poll; a suffix no dynamic sensor has keeps the polled value. */
  lemma {:induction false} MergedAt(values: Values, dynamic: seq<Sensor>, i: nat, x: string)
    ensures LastOf(dynamic, i) ==>
              && dynamic[i].suffix in Merged(values, dynamic)
              && Merged(values, dynamic)[dynamic[i].suffix] == dynamic[i].state
    ensures x in values && x !in Suffixes(dynamic) ==>
              x in Merged(values, dynamic) && Merged(values, dynamic)[x] == values[x]
  {
    if dynamic != [] {
      var front := dynamic[..|dynamic| - 1];
      SuffixesMore(dynamic);
      MergedAt(values, front, i, x);
      assert LastOf(dynamic, i) && i < |front| ==> LastOf(front, i) by {
        assert forall j :: 0 <= j < |front| ==> front[j] == dynamic[j];
      }
    }
  }

  /** The last sensor with attributes of its suffix in a poll. */
  predicate LastWithAttributes(dynamic: seq<Sensor>, i: int) {
    && 0 <= i < |dynamic| && dynamic[i].attributes.Some?
    && forall j :: i < j < |dynamic| && dynamic[j].attributes.Some? ==> dynamic[j].suffix != dynamic[i].suffix
  }

  /** The attributes of a poll are those of its sensors that carry some, the last ones if a suffix has several. */
  lemma {:induction false} AttributesAt(dynamic: seq<Sensor>, i: int, x: string)
    ensures LastWithAttributes(dynamic, i) ==>
              && dynamic[i].suffix in AttributesOf(dynamic)
              && AttributesOf(dynamic)[dynamic[i].suffix] == dynamic[i].attributes.value
    ensures x in AttributesOf(dynamic) ==> exists k :: LastWithAttributes(dynamic, k) && dynamic[k].suffix == x
  {
    if dynamic != [] {
      var n := |dynamic| - 1;
      var front, last := dynamic[..n], dynamic[n];
      AttributesAt(front, i, x);
      assert forall j :: 0 <= j < n ==> front[j] == dynamic[j];
      assert LastWithAttributes(dynamic, i) && i < n ==> LastWithAttributes(front, i);
      if x in AttributesOf(dynamic) {
        if last.attributes.Some? && last.suffix == x {
          assert LastWithAttributes(dynamic, n);
        } else {
          var k :| LastWithAttributes(front, k) && front[k].suffix == x;
          assert LastWithAttributes(dynamic, k);
        }
      }
    }
  }

  /** After every poll the status last published is ``online`` if the poll had something, else ``offline``. */
  lemma StatusFollows(statics: seq<string>, states: seq<Memory>, events: seq<Event>, i: nat)
    requires IsRun(statics, states, events) && i < |events| && events[i].Poll?
    ensures var log := states[i + 1].log;
            && log != [] && log[|log| - 1].topic == Status
            && log[|log| - 1].payload == Text(if Publishes(events[i]) then "online" else "offline")
  {
    assert Step(statics, states[i], events[i], states[i + 1]);
  }
}
