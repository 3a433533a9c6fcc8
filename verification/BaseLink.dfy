/** The two models of the poll cycle (src/sensors2mqtt/base.py) agree: the actions of an uninterrupted poll add up to
    what one poll does to the attributes, and connection events are the same. */
module BaseLink {
  import P = BasePublisher
  import R = BaseReconnect

  type Texts = R.Texts

  // ------------------------------------------------------------------
  // The memory of a publisher with the state of a run
  // ------------------------------------------------------------------

  function TopicsOf(texts: Texts): set<P.Topic> {
    set x | x in texts :: P.Attributes(x)
  }

  /** What is retained, as payloads at the attribute topics. */
  function AsRetained(texts: Texts): map<P.Topic, P.Payload> {
    map t | t in TopicsOf(texts) && t.Attributes? && t.suffix in texts :: P.Text(texts[t.suffix])
  }

  /** `m` with the state's cache, connection and retained attributes. */
  function View(m: P.Memory, s: R.System): P.Memory {
    m.(sent := s.sent, online := s.online, retained := AsRetained(s.retained))
  }

  lemma RetainedAt(texts: Texts, x: string)
    ensures P.Attributes(x) in AsRetained(texts) <==> x in texts
    ensures x in texts ==> AsRetained(texts)[P.Attributes(x)] == P.Text(texts[x])
  {
    if x in texts {
      assert P.Attributes(x) in TopicsOf(texts);
    }
  }

  // ------------------------------------------------------------------
  // Connection events
  // ------------------------------------------------------------------

  /** Losing the connection, what the broker then retains and the reconnect callback do the same in both. */
  lemma SameEvents(statics: seq<string>, m: P.Memory, s: R.System, kept: Texts)
    ensures P.Step(statics, View(m, s), P.Disconnect, View(m, R.Next(s, R.Disconnect)))
    ensures !s.online ==> P.Step(statics, View(m, s), P.Outage(AsRetained(kept)), View(m, R.Next(s, R.Outage(kept))))
    ensures P.Step(statics, View(m, s), P.Connect, View(m, R.Next(s, R.Connect)))
  {
  }

  // ------------------------------------------------------------------
  // One uninterrupted poll
  // ------------------------------------------------------------------

  predicate SameText(a: Texts, b: Texts, x: string) {
    (x in a <==> x in b) && (x in a ==> a[x] == b[x])
  }

  predicate Untouched(s: R.System, t: R.System, x: string) {
    SameText(s.sent, t.sent, x) && SameText(s.retained, t.retained, x)
  }

  /** What a poll does about one suffix, on texts. */
  predicate TextStep(s: R.System, t: R.System, attributes: Texts, x: string) {
    if x in attributes then
      || Untouched(s, t, x)
      || (!R.Has(s.sent, x, attributes[x]) && R.Has(t.sent, x, attributes[x]) && R.Has(t.retained, x, attributes[x]))
    else
      x !in t.sent && (SameText(s.retained, t.retained, x) || (x in s.sent && R.Has(t.retained, x, "{}")))
  }

  lemma TextStepIs(m: P.Memory, s: R.System, t: R.System, attributes: Texts, x: string)
    requires TextStep(s, t, attributes, x)
    ensures P.AttributeStep(View(m, s), View(m, t), attributes, x)
  {
    RetainedAt(s.retained, x);
    RetainedAt(t.retained, x);
  }

  /** The poll is done with `x`. */
  predicate Settled(t: R.System, attributes: Texts, x: string) {
    match t.pc
    case Sending(_, todo) => x in attributes && x !in todo
    case Sent(_, todo, y, _, _) => x in attributes && x !in todo && x != y
    case Emptying(gone, _) => x !in gone
    case Emptied(gone, _, y) => x !in gone && x != y
    case _ => true
  }

  /** The suffix whose publish is not yet remembered or forgotten. */
  predicate HalfDone(s: R.System, t: R.System, attributes: Texts, x: string) {
    match t.pc
    case Sent(_, _, y, text, ok) =>
      && R.Has(attributes, y, text) && !R.Has(s.sent, y, text) && SameText(s.sent, t.sent, y)
      && (if ok then R.Has(t.retained, y, text) else SameText(s.retained, t.retained, y))
    case Emptied(_, _, y) =>
      && y !in attributes && y in s.sent && y in t.sent
      && (SameText(s.retained, t.retained, y) || R.Has(t.retained, y, "{}"))
    case _ => false
  }

  predicate IsHalfDone(t: R.System, x: string) {
    (t.pc.Sent? || t.pc.Emptied?) && t.pc.suffix == x
  }

  /** In the middle of a poll that began in `s`. */
  predicate SuffixInv(s: R.System, t: R.System, attributes: Texts, x: string) {
    if IsHalfDone(t, x) then HalfDone(s, t, attributes, x)
    else if Settled(t, attributes, x) then
      && TextStep(s, t, attributes, x)
      && (t.past.clean && x in attributes ==> R.Has(t.sent, x, attributes[x]))
    else Untouched(s, t, x)
  }

  predicate PlaceInv(t: R.System, attributes: Texts) {
    match t.pc
    case Idle => true
    case Sending(a, todo) => a == attributes && todo <= attributes.Keys
    case Sent(a, todo, y, _, ok) => a == attributes && todo <= attributes.Keys - {y} && (t.past.clean ==> ok)
    case Emptying(gone, _) => gone !! attributes.Keys && gone <= t.sent.Keys
    case Emptied(gone, _, y) => gone !! attributes.Keys && gone <= t.sent.Keys - {y} && y !in attributes
    case KeyError => false
  }

  ghost predicate Inv(s: R.System, t: R.System, attributes: Texts) {
    PlaceInv(t, attributes) && forall x :: SuffixInv(s, t, attributes, x)
  }

  lemma Begins(s: R.System, attributes: Texts)
    requires s.pc.Idle?
    ensures Inv(s, R.Next(s, R.Poll(attributes)), attributes)
  {
  }

  lemma ActKeepsPlace(s: R.System, t: R.System, attributes: Texts, y: string, arrives: bool)
    requires Inv(s, t, attributes)
    ensures PlaceInv(R.Next(t, R.Act(y, arrives)), attributes)
  {
    if t.pc.Emptied? {
      assert HalfDone(s, t, attributes, t.pc.suffix) by {
        assert SuffixInv(s, t, attributes, t.pc.suffix);
      }
    }
  }

  lemma SendingEnds(s: R.System, t: R.System, attributes: Texts, y: string, arrives: bool, x: string)
    requires t.pc.Sending? && t.pc.todo == {} && PlaceInv(t, attributes) && SuffixInv(s, t, attributes, x)
    ensures SuffixInv(s, R.Next(t, R.Act(y, arrives)), attributes, x)
  {
  }

  lemma SendingOther(s: R.System, t: R.System, attributes: Texts, y: string, arrives: bool, x: string)
    requires t.pc.Sending? && y in t.pc.todo && x != y && PlaceInv(t, attributes) && SuffixInv(s, t, attributes, x)
    ensures SuffixInv(s, R.Next(t, R.Act(y, arrives)), attributes, x)
  {
  }

  lemma SendingOne(s: R.System, t: R.System, attributes: Texts, x: string, arrives: bool)
    requires t.pc.Sending? && x in t.pc.todo && PlaceInv(t, attributes) && SuffixInv(s, t, attributes, x)
    ensures SuffixInv(s, R.Next(t, R.Act(x, arrives)), attributes, x)
  {
  }

  lemma SendingKeeps(s: R.System, t: R.System, attributes: Texts, y: string, arrives: bool, x: string)
    requires t.pc.Sending? && PlaceInv(t, attributes) && SuffixInv(s, t, attributes, x)
    ensures SuffixInv(s, R.Next(t, R.Act(y, arrives)), attributes, x)
  {
    if t.pc.todo == {} {
      SendingEnds(s, t, attributes, y, arrives, x);
    } else if y in t.pc.todo {
      if x == y {
        SendingOne(s, t, attributes, x, arrives);
      } else {
        SendingOther(s, t, attributes, y, arrives, x);
      }
    }
  }

  lemma SentKeeps(s: R.System, t: R.System, attributes: Texts, y: string, arrives: bool, x: string)
    requires t.pc.Sent? && PlaceInv(t, attributes) && SuffixInv(s, t, attributes, x)
    ensures SuffixInv(s, R.Next(t, R.Act(y, arrives)), attributes, x)
  {
  }

  lemma EmptyingOther(s: R.System, t: R.System, attributes: Texts, y: string, arrives: bool, x: string)
    requires t.pc.Emptying? && y in t.pc.gone && x != y && PlaceInv(t, attributes) && SuffixInv(s, t, attributes, x)
    ensures SuffixInv(s, R.Next(t, R.Act(y, arrives)), attributes, x)
  {
  }

  lemma EmptyingOne(s: R.System, t: R.System, attributes: Texts, x: string, arrives: bool)
    requires t.pc.Emptying? && x in t.pc.gone && PlaceInv(t, attributes) && SuffixInv(s, t, attributes, x)
    ensures SuffixInv(s, R.Next(t, R.Act(x, arrives)), attributes, x)
  {
  }

  lemma EmptyingKeeps(s: R.System, t: R.System, attributes: Texts, y: string, arrives: bool, x: string)
    requires t.pc.Emptying? && PlaceInv(t, attributes) && SuffixInv(s, t, attributes, x)
    ensures SuffixInv(s, R.Next(t, R.Act(y, arrives)), attributes, x)
  {
    if y in t.pc.gone {
      if x == y {
        EmptyingOne(s, t, attributes, x, arrives);
      } else {
        EmptyingOther(s, t, attributes, y, arrives, x);
      }
    }
  }

  lemma EmptiedKeeps(s: R.System, t: R.System, attributes: Texts, y: string, arrives: bool, x: string)
    requires t.pc.Emptied? && t.pc.suffix in t.sent && PlaceInv(t, attributes) && SuffixInv(s, t, attributes, x)
    ensures SuffixInv(s, R.Next(t, R.Act(y, arrives)), attributes, x)
  {
  }

  lemma ActKeepsSuffix(s: R.System, t: R.System, attributes: Texts, y: string, arrives: bool, x: string)
    requires Inv(s, t, attributes)
    ensures SuffixInv(s, R.Next(t, R.Act(y, arrives)), attributes, x)
  {
    assert SuffixInv(s, t, attributes, x);
    match t.pc
    case Sending(_, _) => SendingKeeps(s, t, attributes, y, arrives, x);
    case Sent(_, _, _, _, _) => SentKeeps(s, t, attributes, y, arrives, x);
    case Emptying(_, _) => EmptyingKeeps(s, t, attributes, y, arrives, x);
    case Emptied(_, _, z) =>
      assert SuffixInv(s, t, attributes, z);
      EmptiedKeeps(s, t, attributes, y, arrives, x);
    case Idle =>
  }

  lemma ActKeeps(s: R.System, t: R.System, attributes: Texts, y: string, arrives: bool)
    requires Inv(s, t, attributes)
    ensures Inv(s, R.Next(t, R.Act(y, arrives)), attributes)
  {
    ActKeepsPlace(s, t, attributes, y, arrives);
    forall x
      ensures SuffixInv(s, R.Next(t, R.Act(y, arrives)), attributes, x)
    {
      ActKeepsSuffix(s, t, attributes, y, arrives, x);
    }
  }

  predicate OnlyActs(steps: seq<R.Step>) {
    forall i :: 0 <= i < |steps| ==> steps[i].Act?
  }

  lemma {:induction false} ActsKeep(s: R.System, attributes: Texts, steps: seq<R.Step>)
    requires s.pc.Idle? && OnlyActs(steps)
    ensures Inv(s, R.After(R.Next(s, R.Poll(attributes)), steps), attributes)
  {
    if steps == [] {
      Begins(s, attributes);
    } else {
      var front, last := steps[..|steps| - 1], steps[|steps| - 1];
      ActsKeep(s, attributes, front);
      ActKeeps(s, R.After(R.Next(s, R.Poll(attributes)), front), attributes, last.suffix, last.arrives);
    }
  }

  /** The actions of a poll that is not interrupted never raise, and when it has ended they add up, for every suffix, to
      what one poll does; and if all its publishes were sent, all current attributes are remembered. */
  lemma UninterruptedPoll(m: P.Memory, s: R.System, attributes: Texts, steps: seq<R.Step>, x: string)
    requires s.pc.Idle? && OnlyActs(steps)
    ensures var t := R.After(R.Next(s, R.Poll(attributes)), steps);
            && !t.pc.KeyError?
            && (t.pc.Idle? ==> P.AttributeStep(View(m, s), View(m, t), attributes, x))
            && (t.pc.Idle? && t.past.clean && x in attributes ==> R.Has(t.sent, x, attributes[x]))
  {
    ActsKeep(s, attributes, steps);
    var t := R.After(R.Next(s, R.Poll(attributes)), steps);
    assert SuffixInv(s, t, attributes, x);
    if t.pc.Idle? {
      TextStepIs(m, s, t, attributes, x);
    }
  }
}
