/** The attribute cache of the poll cycle when a reconnect comes in the middle of a poll: the MQTT client calls back in
    a thread of its own (src/sensors2mqtt/base.py, the reconnect callback of `run` and the attribute loops of
    `_poll_once`).

    A run is a sequence of steps: a poll reaching its attributes, one action of its loops, the connection lost, the
    broker coming back with any retained messages, a reconnect. Which suffix comes next and whether a publish gets
    through are part of the step. */
module BaseReconnect {
  import opened Wrappers

  type Texts = map<string, string>

  /** Where the poll is. `cleared` records that a reconnect came while suffixes were emptied. */
  datatype Pc =
    | Idle
    | Sending(attributes: Texts, todo: set<string>)
    | Sent(attributes: Texts, todo: set<string>, suffix: string, text: string, ok: bool)
    | Emptying(gone: set<string>, cleared: bool)
    | Emptied(gone: set<string>, cleared: bool, suffix: string)
    | KeyError

  /** What has happened; no action reads it. `published` has the text last sent for each suffix since the last
      reconnect, `carried` the suffix whose text had been sent but not yet remembered when that came, until it is sent
      again. `current` are the attributes of the last poll; `clean` says that all its publishes were sent and no
      reconnect has come since it began. */
  datatype History = History(published: Texts, carried: Option<string>, current: Texts, clean: bool)

  /** `retained` is what the broker has at the attribute topics. */
  datatype System = System(sent: Texts, retained: Texts, online: bool, pc: Pc, past: History)

  datatype Step =
    | Poll(attributes: Texts)
    | Act(suffix: string, arrives: bool)
    | Disconnect
    | Outage(retained: Texts)
    | Connect

  /** One publish. */
  function Publish(s: System, x: string, text: string, ok: bool, next: Pc): System {
    var h := s.past;
    if ok then
      s.(retained := s.retained[x := text], pc := next,
         past := h.(published := h.published[x := text], carried := if h.carried == Some(x) then None else h.carried))
    else s.(pc := next, past := h.(clean := false))
  }

  /** The next action of the poll; `x` is the suffix its loop takes next. */
  function Action(s: System, x: string, arrives: bool): System {
    var ok := arrives && s.online;
    match s.pc
    case Idle => s
    case Sending(attributes, todo) =>
      if todo == {} then s.(pc := Emptying(s.sent.Keys - attributes.Keys, false))
      else if x !in todo || x !in attributes then s
      else if x in s.sent && s.sent[x] == attributes[x] then s.(pc := Sending(attributes, todo - {x}))
      else Publish(s, x, attributes[x], ok, Sent(attributes, todo - {x}, x, attributes[x], ok))
    case Sent(attributes, todo, y, text, sent) =>
      s.(sent := if sent then s.sent[y := text] else s.sent, pc := Sending(attributes, todo))
    case Emptying(gone, cleared) =>
      if gone == {} then s.(pc := Idle)
      else if x !in gone then s
      else Publish(s, x, "{}", ok, Emptied(gone - {x}, cleared, x))
    case Emptied(gone, cleared, y) =>
      if y in s.sent then s.(sent := s.sent - {y}, pc := Emptying(gone, cleared)) else s.(pc := KeyError)
    case KeyError => s
  }

  function OnConnect(pc: Pc): Pc {
    match pc
    case Emptying(gone, _) => Emptying(gone, true)
    case Emptied(gone, _, x) => Emptied(gone, true, x)
    case _ => pc
  }

  function Next(s: System, step: Step): System {
    match step
    case Poll(attributes) =>
      if !s.pc.Idle? then s
      else s.(pc := Sending(attributes, attributes.Keys), past := s.past.(current := attributes, clean := true))
    case Act(x, arrives) => Action(s, x, arrives)
    case Disconnect => s.(online := false)
    case Outage(retained) => if s.online then s else s.(retained := retained)
    case Connect =>
      var carried := if s.pc.Sent? && s.pc.ok then Some(s.pc.suffix) else None;
      System(map[], s.retained, true, OnConnect(s.pc), History(map[], carried, s.past.current, false))
  }

  const NOTHING: Texts := map[]

  function Initial(retained: Texts): System {
    System(NOTHING, retained, false, Idle, History(NOTHING, None, NOTHING, true))
  }

  function After(s: System, steps: seq<Step>): System {
    if steps == [] then s else Next(After(s, steps[..|steps| - 1]), steps[|steps| - 1])
  }

  // ------------------------------------------------------------------
  // What is sent again after a reconnect
  // ------------------------------------------------------------------

  predicate Has(texts: Texts, x: string, text: string) {
    x in texts && texts[x] == text
  }

  /** Published but not yet remembered or forgotten. */
  predicate InFlight(pc: Pc, x: string) {
    ((pc.Sent? && pc.ok) || pc.Emptied?) && x == pc.suffix
  }

  /** While connected the broker has what was sent since the last reconnect. */
  ghost predicate BrokerInv(s: System) {
    s.online ==> forall x :: x in s.past.published ==> Has(s.retained, x, s.past.published[x])
  }

  /** What is remembered of `x` was sent since the last reconnect, unless it was carried over it. */
  predicate RememberedOk(s: System, x: string) {
    x in s.sent ==>
      if s.past.carried == Some(x) then x !in s.past.published
      else x in s.past.published && (InFlight(s.pc, x) || s.past.published[x] == s.sent[x])
  }

  /** So was what is about to be remembered. */
  predicate FlightOk(s: System) {
    s.pc.Sent? && s.pc.ok ==>
      if s.past.carried == Some(s.pc.suffix) then s.pc.suffix !in s.past.published
      else Has(s.past.published, s.pc.suffix, s.pc.text)
  }

  ghost predicate SentInv(s: System) {
    && BrokerInv(s) && FlightOk(s)
    && (forall x :: x in s.sent ==> RememberedOk(s, x))
  }

  lemma BrokerKept(s: System, step: Step)
    requires BrokerInv(s)
    ensures BrokerInv(Next(s, step))
  {
  }

  lemma ActRemembers(s: System, y: string, arrives: bool, x: string)
    requires FlightOk(s) && RememberedOk(s, x)
    ensures RememberedOk(Action(s, y, arrives), x)
  {
  }

  lemma ActFlies(s: System, y: string, arrives: bool)
    requires FlightOk(s)
    ensures FlightOk(Action(s, y, arrives))
  {
  }

  lemma RememberedKept(s: System, step: Step, x: string)
    requires FlightOk(s) && RememberedOk(s, x)
    ensures RememberedOk(Next(s, step), x)
  {
    if step.Act? {
      ActRemembers(s, step.suffix, step.arrives, x);
    }
  }

  lemma FlightKept(s: System, step: Step)
    requires FlightOk(s)
    ensures FlightOk(Next(s, step))
  {
    if step.Act? {
      ActFlies(s, step.suffix, step.arrives);
    }
  }

  lemma SentKept(s: System, step: Step)
    requires SentInv(s)
    ensures SentInv(Next(s, step))
  {
    BrokerKept(s, step);
    FlightKept(s, step);
    forall x | x in Next(s, step).sent
      ensures RememberedOk(Next(s, step), x)
    {
      RememberedKept(s, step, x);
    }
  }

  lemma {:induction false} SentAlways(retained: Texts, steps: seq<Step>)
    ensures SentInv(After(Initial(retained), steps))
  {
    if steps != [] {
      var front := steps[..|steps| - 1];
      SentAlways(retained, front);
      SentKept(After(Initial(retained), front), steps[|steps| - 1]);
    }
  }

  /** In every run: a remembered suffix has been sent since the last reconnect if and only if it was not the one that
      had been sent and not yet remembered when that came, and unsent since; and then what is remembered is what was
      sent last. */
  lemma SentAgainIff(retained: Texts, steps: seq<Step>, x: string)
    requires x in After(Initial(retained), steps).sent
    ensures var s := After(Initial(retained), steps);
            && (x in s.past.published <==> s.past.carried != Some(x))
            && (x in s.past.published && !InFlight(s.pc, x) ==> s.past.published[x] == s.sent[x])
  {
    SentAlways(retained, steps);
  }

  /** So all that is remembered has been sent since the reconnect exactly unless a suffix was carried over it. */
  lemma AllSentAgainIff(retained: Texts, steps: seq<Step>)
    ensures var s := After(Initial(retained), steps);
            (forall x :: x in s.sent ==> x in s.past.published) <==>
              !(s.past.carried.Some? && s.past.carried.value in s.sent)
  {
    var s := After(Initial(retained), steps);
    forall x | x in s.sent
      ensures x in s.past.published <==> s.past.carried != Some(x)
    {
      SentAgainIff(retained, steps, x);
    }
    if s.past.carried.Some? && s.past.carried.value in s.sent {
      assert s.past.carried.value !in s.past.published;
    }
  }

  // ------------------------------------------------------------------
  // The cache and the broker
  // ------------------------------------------------------------------

  predicate Holds(s: System, x: string) {
    x in s.sent && Has(s.retained, x, s.sent[x])
  }

  /** While connected every remembered text is the retained one, but for the suffix in flight. */
  ghost predicate Agrees(s: System) {
    s.online ==> forall x :: x in s.sent && !InFlight(s.pc, x) ==> Holds(s, x)
  }

  /** In every run, in the middle of polls as well, the cache agrees with the broker while connected about every suffix
      that was not carried over the last reconnect. */
  lemma AgreesWithoutLateReconnect(retained: Texts, steps: seq<Step>, x: string)
    requires var s := After(Initial(retained), steps); s.online && x in s.sent && !InFlight(s.pc, x)
    ensures var s := After(Initial(retained), steps); s.past.carried != Some(x) ==> Holds(s, x)
  {
    SentAlways(retained, steps);
    assert RememberedOk(After(Initial(retained), steps), x);
  }

  /** Remembering keeps the agreement if no reconnect has come since the publish; after one, exactly if the broker came
      back with the same text. */
  lemma RememberingAgreesIff(retained: Texts, steps: seq<Step>, x: string, arrives: bool)
    requires var s := After(Initial(retained), steps); Agrees(s) && s.online && s.pc.Sent? && s.pc.ok
    ensures var s := After(Initial(retained), steps);
            Agrees(Next(s, Act(x, arrives))) <==>
              s.past.carried != Some(s.pc.suffix) || Has(s.retained, s.pc.suffix, s.pc.text)
  {
    SentAlways(retained, steps);
    var s := After(Initial(retained), steps);
    var t, y := Next(s, Act(x, arrives)), s.pc.suffix;
    assert Has(t.sent, y, s.pc.text);
    forall z | z in t.sent && z != y
      ensures Holds(t, z)
    {
      assert Holds(s, z);
    }
    assert Agrees(t) <==> Holds(t, y);
  }

  // ------------------------------------------------------------------
  // At the end of a poll
  // ------------------------------------------------------------------

  /** The poll is done with the attributes of `x`. */
  predicate Settled(s: System, x: string) {
    match s.pc
    case Sending(_, todo) => x !in todo
    case Sent(_, todo, y, _, _) => x !in todo && x != y
    case KeyError => false
    case _ => true
  }

  /** In a clean poll what it is done with is remembered with the current text, and not emptied. */
  predicate PollAt(s: System, x: string) {
    s.past.clean && x in s.past.current && Settled(s, x) ==> Has(s.sent, x, s.past.current[x])
  }

  /** The poll at hand is that of the current attributes. */
  predicate PlaceInv(s: System) {
    match s.pc
    case Sending(attributes, todo) => attributes == s.past.current && todo <= attributes.Keys
    case Sent(attributes, todo, y, text, ok) =>
      && attributes == s.past.current && todo <= attributes.Keys && Has(attributes, y, text)
      && (s.past.clean ==> ok)
    case Emptying(gone, _) => gone !! s.past.current.Keys
    case Emptied(gone, _, y) => gone !! s.past.current.Keys && y !in s.past.current
    case _ => true
  }

  ghost predicate PollInv(s: System) {
    PlaceInv(s) && forall x :: PollAt(s, x)
  }

  lemma PlaceKept(s: System, step: Step)
    requires PlaceInv(s)
    ensures PlaceInv(Next(s, step))
  {
  }

  lemma ActKeepsPoll(s: System, y: string, arrives: bool, x: string)
    requires PlaceInv(s) && PollAt(s, x)
    ensures PollAt(Action(s, y, arrives), x)
  {
  }

  lemma PollKept(s: System, step: Step)
    requires PollInv(s)
    ensures PollInv(Next(s, step))
  {
    PlaceKept(s, step);
    forall x
      ensures PollAt(Next(s, step), x)
    {
      assert PollAt(s, x);
      if step.Act? {
        ActKeepsPoll(s, step.suffix, step.arrives, x);
      }
    }
  }

  lemma {:induction false} PollAlways(retained: Texts, steps: seq<Step>)
    ensures PollInv(After(Initial(retained), steps))
  {
    if steps != [] {
      var front := steps[..|steps| - 1];
      PollAlways(retained, front);
      PollKept(After(Initial(retained), front), steps[|steps| - 1]);
    }
  }

  /** After a poll all of whose publishes were sent, with no reconnect since it began, the broker retains each current
      attribute that was not carried over the reconnect before. */
  lemma CleanPollRetains(retained: Texts, steps: seq<Step>, x: string)
    requires var s := After(Initial(retained), steps);
             s.online && s.past.clean && s.pc.Idle? && x in s.past.current && s.past.carried != Some(x)
    ensures var s := After(Initial(retained), steps); Has(s.retained, x, s.past.current[x])
  {
    PollAlways(retained, steps);
    SentAlways(retained, steps);
    var s := After(Initial(retained), steps);
    assert PollAt(s, x) && Settled(s, x);
    assert RememberedOk(s, x);
  }

  // ------------------------------------------------------------------
  // What a late reconnect loses
  // ------------------------------------------------------------------

  /** One poll that has a text to send; the connection is lost and restored, with whatever the broker then retains,
      after the text was sent and before it is remembered. */
  function LateRun(x: string, text: string, kept: Texts): seq<Step> {
    [Connect, Poll(map[x := text]), Act(x, true), Disconnect, Outage(kept), Connect,
     Act(x, true), Act(x, true), Act(x, true)]
  }

  lemma Then(s: System, steps: seq<Step>, n: nat, u: System, t: System)
    requires n < |steps| && u == After(s, steps[..n]) && t == Next(u, steps[n])
    ensures t == After(s, steps[..n + 1])
  {
    assert steps[..n + 1][..n] == steps[..n];
  }

  lemma Connects(steps: seq<Step>)
    requires steps != [] && steps[0] == Connect
    ensures After(Initial(NOTHING), steps[..1])
         == System(NOTHING, NOTHING, true, Idle, History(NOTHING, None, NOTHING, false))
  {
    Then(Initial(NOTHING), steps, 0, Initial(NOTHING), Next(Initial(NOTHING), Connect));
  }

  /** Connected, a text for `x` alone was sent and is not yet remembered. */
  function JustSent(x: string, a: Texts): System
    requires x in a
  {
    System(NOTHING, a, true, Sent(a, {}, x, a[x], true), History(a, None, a, true))
  }

  /** The first poll up to its publish. */
  lemma PollSends(steps: seq<Step>, x: string, a: Texts)
    requires |steps| >= 3 && steps[0] == Connect && steps[1] == Poll(a) && steps[2] == Act(x, true) && a.Keys == {x}
    ensures After(Initial(NOTHING), steps[..3]) == JustSent(x, a)
  {
    var s := Initial(NOTHING);
    var u := System(NOTHING, NOTHING, true, Idle, History(NOTHING, None, NOTHING, false));
    var v := System(NOTHING, NOTHING, true, Sending(a, {x}), History(NOTHING, None, a, true));
    Connects(steps);
    Then(s, steps, 1, u, v);
    assert {x} - {x} == {} && NOTHING[x := a[x]] == a;
    Then(s, steps, 2, v, JustSent(x, a));
  }

  /** The end of a poll: the text is remembered, there is nothing to empty. */
  lemma PollEnds(s: System, steps: seq<Step>, n: nat, u: System, x: string, a: Texts)
    requires n + 3 <= |steps| && steps[n] == steps[n + 1] == steps[n + 2] == Act(x, true)
    requires a.Keys == {x} && u.sent == NOTHING && u.pc == Sent(a, {}, x, a[x], true) && u == After(s, steps[..n])
    ensures u.(sent := a, pc := Idle) == After(s, steps[..n + 3])
  {
    var v, w := u.(sent := a, pc := Sending(a, {})), u.(sent := a, pc := Emptying({}, false));
    assert u.sent[x := a[x]] == a && a.Keys - a.Keys == {};
    Then(s, steps, n, u, v);
    Then(s, steps, n + 1, v, w);
    Then(s, steps, n + 2, w, u.(sent := a, pc := Idle));
  }

  /** The connection is lost and restored. */
  lemma BrokerReturns(s: System, steps: seq<Step>, n: nat, u: System, kept: Texts)
    requires n + 3 <= |steps| && steps[n] == Disconnect && steps[n + 1] == Outage(kept) && steps[n + 2] == Connect
    requires u == After(s, steps[..n])
    ensures Next(u.(online := false, retained := kept), Connect) == After(s, steps[..n + 3])
  {
    Then(s, steps, n, u, u.(online := false));
    Then(s, steps, n + 1, u.(online := false), u.(online := false, retained := kept));
    Then(s, steps, n + 2, u.(online := false, retained := kept), Next(u.(online := false, retained := kept), Connect));
  }

  /** After it the poll is over and connected, the cache has the text, nothing was sent since the reconnect, and the
      broker has what it kept: the cache agrees with it exactly if that is the text. */
  lemma LateReconnectLoses(x: string, text: string, kept: Texts)
    ensures var s := After(Initial(NOTHING), LateRun(x, text, kept));
            && s == System(map[x := text], kept, true, Idle, History(NOTHING, Some(x), map[x := text], false))
            && (Agrees(s) <==> Has(kept, x, text))
  {
    var s, steps, a := Initial(NOTHING), LateRun(x, text, kept), map[x := text];
    assert a.Keys == {x};
    PollSends(steps, x, a);
    BrokerReturns(s, steps, 3, JustSent(x, a), kept);
    LateEnds(steps, x, a, kept);
    assert steps[..9] == steps;
    var end := System(a, kept, true, Idle, History(NOTHING, Some(x), a, false));
    assert Holds(end, x) <==> Has(kept, x, text);
  }

  lemma LateEnds(steps: seq<Step>, x: string, a: Texts, kept: Texts)
    requires |steps| == 9 && steps[6] == steps[7] == steps[8] == Act(x, true) && a.Keys == {x}
    requires Next(JustSent(x, a).(online := false, retained := kept), Connect) == After(Initial(NOTHING), steps[..6])
    ensures After(Initial(NOTHING), steps[..9])
         == System(a, kept, true, Idle, History(NOTHING, Some(x), a, false))
  {
    var u := System(NOTHING, kept, true, Sent(a, {}, x, a[x], true), History(NOTHING, Some(x), a, false));
    PollEnds(Initial(NOTHING), steps, 6, u, x, a);
  }

  /** `text` is remembered as sent for `x`, the broker does not have it, and no action at hand is about `x`. */
  predicate Lost(s: System, x: string, text: string) {
    && Has(s.sent, x, text) && !Has(s.retained, x, text)
    && match s.pc
       case Sending(attributes, _) => Has(attributes, x, text)
       case Sent(attributes, _, y, _, _) => Has(attributes, x, text) && y != x
       case Emptying(gone, _) => x !in gone
       case Emptied(gone, _, y) => x !in gone && y != x
       case _ => true
  }

  /** No reconnect, no broker that has the text again, and only polls that still have it. */
  predicate Ordinary(step: Step, x: string, text: string) {
    match step
    case Poll(attributes) => Has(attributes, x, text)
    case Act(_, _) => true
    case Disconnect => true
    case Outage(retained) => !Has(retained, x, text)
    case Connect => false
  }

  lemma LostKept(s: System, step: Step, x: string, text: string)
    requires Lost(s, x, text) && Ordinary(step, x, text)
    ensures Lost(Next(s, step), x, text)
  {
  }

  /** No number of polls with the same text sends it again; only a reconnect or a change of the text does. */
  lemma {:induction false} LostStaysLost(s: System, steps: seq<Step>, x: string, text: string)
    requires Lost(s, x, text) && forall i :: 0 <= i < |steps| ==> Ordinary(steps[i], x, text)
    ensures Lost(After(s, steps), x, text)
  {
    if steps != [] {
      var front := steps[..|steps| - 1];
      LostStaysLost(s, front, x, text);
      LostKept(After(s, front), steps[|steps| - 1], x, text);
    }
  }

  /** A second poll skips what it remembers; then the connection is lost and restored before the poll ends. */
  function SkippedRun(x: string, text: string): seq<Step> {
    [Connect, Poll(map[x := text]), Act(x, true), Act(x, true), Act(x, true), Act(x, true),
     Poll(map[x := text]), Act(x, true), Disconnect, Outage(map[]), Connect, Act(x, true), Act(x, true)]
  }

  /** That poll ends connected and none of its publishes failed, as there were none; the broker has nothing. The cache
      has nothing either, so the next poll sends the text. */
  lemma SkippedIsMissing(x: string, text: string)
    ensures After(Initial(NOTHING), SkippedRun(x, text))
         == System(NOTHING, NOTHING, true, Idle, History(NOTHING, None, map[x := text], false))
  {
    var steps, a := SkippedRun(x, text), map[x := text];
    assert a.Keys == {x};
    FirstPoll(steps, x, a);
    SkipEnds(Initial(NOTHING), steps, x, a);
    assert steps[..13] == steps;
  }

  /** A whole poll. */
  lemma FirstPoll(steps: seq<Step>, x: string, a: Texts)
    requires |steps| >= 6 && steps[0] == Connect && steps[1] == Poll(a) && a.Keys == {x}
    requires forall i :: 2 <= i < 6 ==> steps[i] == Act(x, true)
    ensures After(Initial(NOTHING), steps[..6]) == System(a, a, true, Idle, History(a, None, a, true))
  {
    PollSends(steps, x, a);
    PollEnds(Initial(NOTHING), steps, 3, JustSent(x, a), x, a);
  }

  lemma SkipEnds(s: System, steps: seq<Step>, x: string, a: Texts)
    requires |steps| == 13 && steps[6] == Poll(a) && steps[7] == steps[11] == steps[12] == Act(x, true)
    requires steps[8] == Disconnect && steps[9] == Outage(NOTHING) && steps[10] == Connect && a.Keys == {x}
    requires System(a, a, true, Idle, History(a, None, a, true)) == After(s, steps[..6])
    ensures After(s, steps[..13]) == System(NOTHING, NOTHING, true, Idle, History(NOTHING, None, a, false))
  {
    Skips(s, steps, x, a);
    BrokerReturns(s, steps, 8, System(a, a, true, Sending(a, {}), History(a, None, a, true)), NOTHING);
    NothingToEmpty(s, steps, x, a);
  }

  lemma Skips(s: System, steps: seq<Step>, x: string, a: Texts)
    requires |steps| == 13 && steps[6] == Poll(a) && steps[7] == Act(x, true) && a.Keys == {x}
    requires System(a, a, true, Idle, History(a, None, a, true)) == After(s, steps[..6])
    ensures After(s, steps[..8]) == System(a, a, true, Sending(a, {}), History(a, None, a, true))
  {
    var u := System(a, a, true, Idle, History(a, None, a, true));
    assert {x} - {x} == {};
    Then(s, steps, 6, u, u.(pc := Sending(a, {x})));
    Then(s, steps, 7, u.(pc := Sending(a, {x})), u.(pc := Sending(a, {})));
  }

  lemma NothingToEmpty(s: System, steps: seq<Step>, x: string, a: Texts)
    requires |steps| == 13 && steps[11] == steps[12] == Act(x, true)
    requires After(s, steps[..11])
          == Next(System(a, NOTHING, false, Sending(a, {}), History(a, None, a, true)), Connect)
    ensures After(s, steps[..13]) == System(NOTHING, NOTHING, true, Idle, History(NOTHING, None, a, false))
  {
    var w := System(NOTHING, NOTHING, true, Sending(a, {}), History(NOTHING, None, a, false));
    assert NOTHING.Keys - a.Keys == {};
    Then(s, steps, 11, w, w.(pc := Emptying({}, false)));
    Then(s, steps, 12, w.(pc := Emptying({}, false)), w.(pc := Idle));
  }

  // ------------------------------------------------------------------
  // Deleting what a reconnect has cleared
  // ------------------------------------------------------------------

  /** Until a reconnect the suffixes to empty are all remembered; after it nothing is. */
  predicate GoneInv(s: System) {
    match s.pc
    case Emptying(gone, cleared) => if cleared then s.sent == map[] else gone <= s.sent.Keys
    case Emptied(gone, cleared, x) =>
      x !in gone && if cleared then s.sent == map[] else gone <= s.sent.Keys && x in s.sent
    case _ => true
  }

  lemma GoneKept(s: System, step: Step)
    requires GoneInv(s)
    ensures GoneInv(Next(s, step))
  {
  }

  lemma {:induction false} GoneAlways(retained: Texts, steps: seq<Step>)
    ensures GoneInv(After(Initial(retained), steps))
  {
    if steps != [] {
      var front := steps[..|steps| - 1];
      GoneAlways(retained, front);
      GoneKept(After(Initial(retained), front), steps[|steps| - 1]);
    }
  }

  /** A step of a run makes the poll raise exactly if it deletes a suffix after a reconnect came while suffixes were
      being emptied. */
  lemma KeyErrorIff(retained: Texts, steps: seq<Step>, step: Step)
    requires !After(Initial(retained), steps).pc.KeyError?
    ensures var s := After(Initial(retained), steps);
            Next(s, step).pc.KeyError? <==> step.Act? && s.pc.Emptied? && s.pc.cleared
  {
    GoneAlways(retained, steps);
  }

  /** A poll sends a text, the next has none for the suffix, and a reconnect comes before it is forgotten. */
  function RaisingRun(x: string, text: string): seq<Step> {
    [Connect, Poll(map[x := text]), Act(x, true), Act(x, true), Act(x, true), Act(x, true),
     Poll(map[]), Act(x, true), Act(x, true), Connect, Act(x, true)]
  }

  lemma ReconnectRaises(x: string, text: string)
    ensures After(Initial(NOTHING), RaisingRun(x, text)).pc.KeyError?
  {
    var steps, a := RaisingRun(x, text), map[x := text];
    assert a.Keys == {x};
    FirstPoll(steps, x, a);
    Empties(Initial(NOTHING), steps, x, a);
    assert steps[..11] == steps;
  }

  /** The second poll, from its start. */
  lemma Empties(s: System, steps: seq<Step>, x: string, a: Texts)
    requires |steps| == 11 && steps[6] == Poll(NOTHING) && steps[7] == steps[8] == steps[10] == Act(x, true)
    requires steps[9] == Connect && a.Keys == {x}
    requires System(a, a, true, Idle, History(a, None, a, true)) == After(s, steps[..6])
    ensures After(s, steps[..11]).pc.KeyError?
  {
    FindsGone(s, steps, x, a);
    var u := System(a, a, true, Emptying({x}, false), History(a, None, NOTHING, true));
    var e := Next(u, Act(x, true));
    EmptiesOne(u, x);
    Then(s, steps, 8, u, e);
    DeletesCleared(e, x);
    Then(s, steps, 9, e, Next(e, Connect));
    Then(s, steps, 10, Next(e, Connect), Next(Next(e, Connect), Act(x, true)));
  }

  lemma FindsGone(s: System, steps: seq<Step>, x: string, a: Texts)
    requires |steps| == 11 && steps[6] == Poll(NOTHING) && steps[7] == Act(x, true) && a.Keys == {x}
    requires System(a, a, true, Idle, History(a, None, a, true)) == After(s, steps[..6])
    ensures After(s, steps[..8]) == System(a, a, true, Emptying({x}, false), History(a, None, NOTHING, true))
  {
    var u := System(a, a, true, Sending(NOTHING, {}), History(a, None, NOTHING, true));
    assert NOTHING.Keys == {} && a.Keys - NOTHING.Keys == {x};
    Then(s, steps, 6, System(a, a, true, Idle, History(a, None, a, true)), u);
    Then(s, steps, 7, u, u.(pc := Emptying({x}, false)));
  }

  lemma EmptiesOne(u: System, x: string)
    requires u.online && u.pc == Emptying({x}, false)
    ensures Next(u, Act(x, true)).pc == Emptied({}, false, x)
  {
    assert {x} - {x} == {};
  }

  /** A reconnect before the deletion. */
  lemma DeletesCleared(e: System, x: string)
    requires e.pc == Emptied({}, false, x)
    ensures Next(Next(e, Connect), Act(x, true)).pc.KeyError?
  {
  }
}
