/** What the log of a PoE port has to do with the commands received and with the port
    (src/sensors2mqtt/collector/snmp_control.py, `_handle_toggle`, `_handle_cycle`, `_handle_force`).

    An observer follows each worker from the outside: the command it was started for, what it added to the log and
    when, and what the port said at the worker's next action after a poll. It does not see where the worker is in its
    handler. */
module PoeWatch {
  import opened PoeControl
  import opened Wrappers

  // ------------------------------------------------------------------
  // The observer
  // ------------------------------------------------------------------

  /** What has been seen of one worker: its command; whether it has attempted a SET; the last value that was set and
      when; whether its last action was a poll; whether the port was as wanted at the action after the last poll, and
      when that was if it was after the SET; whether it was stopped or a SET failed; when its last action was. */
  datatype Watch = Watch(
    cmd: Command, tried: bool, value: Option<int>, at: Time, polled: bool, met: bool, looked: Option<Time>, over: bool,
    last: Time)

  function NewWatch(cmd: Command): Watch {
    Watch(cmd, false, None, 0, false, false, None, false, 0)
  }

  /** What one action added to the log of the port. */
  function Added(p: Port, q: Port): Option<Event> {
    if |q.log| > |p.log| then Some(q.log[|p.log|]) else None
  }

  function ActAdded(p: Port, q: Port): Option<Act> {
    match Added(p, q)
    case Some(e) => Some(e.act)
    case None => None
  }

  /** Off when nothing draws power and the link is down, on when power is delivered. */
  predicate AsWanted(p: Port, value: Option<int>) {
    if value == Some(2) then p.detect == 1 && p.link == 2 else p.detect == 3
  }

  /** What is seen of one action on the port `p` at `now` that adds `act`. */
  function Seen(k: Watch, p: Port, now: Time, act: Option<Act>): Watch {
    var k' := k.(polled := act == Some(Poll), last := now);
    match act
    case Some(Set(v, ok)) =>
      if ok then k'.(tried := true, value := Some(v), at := now, met := false, looked := None)
      else k'.(tried := true, over := true)
    case Some(Stopped) => k'.(over := true)
    case None => if k.polled then k'.(met := AsWanted(p, k.value), looked := Some(now)) else k'
    case _ => k'
  }

  /** What is seen of all workers in one step. */
  function Follow(ks: seq<Watch>, s: System, step: Step, t: System): seq<Watch> {
    match step
    case Message(id, cmd) => if id in s.ports then ks + [NewWatch(cmd)] else ks
    case Run(w, _, _) =>
      if w < |ks| && w < |s.workers| && s.workers[w].port in s.ports && s.workers[w].port in t.ports then
        var p := s.ports[s.workers[w].port];
        ks[w := Seen(ks[w], p, s.now, ActAdded(p, t.ports[s.workers[w].port]))]
      else ks
    case _ => ks
  }

  function Followed(ids: set<PortId>, steps: seq<Step>): seq<Watch> {
    if steps == [] then []
    else
      var front, last := steps[..|steps| - 1], steps[|steps| - 1];
      var s := After(Initial(ids), front);
      Follow(Followed(ids, front), s, last, Next(s, last))
  }

  /** The commands started, in the order their messages came in. */
  function Commands(ids: set<PortId>, steps: seq<Step>): seq<Command> {
    if steps == [] then []
    else
      var last := steps[|steps| - 1];
      Commands(ids, steps[..|steps| - 1]) + if last.Message? && last.id in ids then [last.cmd] else []
  }

  // ------------------------------------------------------------------
  // The rules
  // ------------------------------------------------------------------

  /** No look at the port since it was set, or the last one was two seconds ago. */
  predicate Rested(k: Watch, now: Time) {
    k.looked.None? || k.looked.value + 2_000 <= now
  }

  /** ON sets 1 and OFF sets 2, each once; a cycle sets 2 and then 1; nothing else sets anything. */
  predicate SetRule(cmd: Command, tried: bool, v: int) {
    match cmd
    case Toggle(payload) => !tried && ((payload == "ON" && v == 1) || (payload == "OFF" && v == 2))
    case Cycle => v == if tried then 1 else 2
    case Force(_) => false
  }

  predicate InPhase(k: Watch, v: int) {
    k.cmd == Cycle && k.value == Some(v) && !k.over
  }

  /** After switching off: the port is set again as soon as it was seen to be off, and otherwise only when 30 seconds
      have passed; until then it is polled every two seconds. */
  predicate OffRule(k: Watch, now: Time, act: Act) {
    && (act.Set? || act == Poll || act == Stopped)
    && (k.met ==> act.Set?)
    && (act.Set? ==> k.met || k.at + 30_000 <= now)
    && (act == Poll ==> k.last < k.at + 30_000 && Rested(k, now))
  }

  /** After switching on: the state is published after one more poll as soon as power was seen to be delivered, and
      otherwise only when 60 seconds have passed; until then the port is polled every two seconds. */
  predicate OnRule(k: Watch, now: Time, act: Option<Act>) {
    && (k.polled && k.met ==> act.Some? && act.value.State?)
    && (act.Some? && act.value.State? ==> k.polled && (k.met || k.at + 60_000 <= now))
    && (act == Some(Stopped) ==> !k.met)
    && (act == Some(Poll) && !k.met ==> k.at + 60_000 <= now || (k.last < k.at + 60_000 && Rested(k, now)))
    && !(act.Some? && act.value.Set?)
  }

  /** What an action of a worker on its port may do, given what was seen of the worker. */
  predicate Rules(k: Watch, p: Port, now: Time, act: Option<Act>) {
    && (act.Some? && act.value.Set? ==> SetRule(k.cmd, k.tried, act.value.value))
    && (act.Some? && act.value.State? ==> (act.value.on <==> p.admin == 1))
    && (InPhase(k, 2) && act.Some? ==> OffRule(k, now, act.value))
    && (InPhase(k, 1) && Busy(k, act) ==> OnRule(k, now, act))
  }

  /** Until it has published its state. */
  predicate Busy(k: Watch, act: Option<Act>) {
    act.None? || !act.value.Availability?
  }

  // ------------------------------------------------------------------
  // What is seen tells where a worker is
  // ------------------------------------------------------------------

  predicate Waiting(k: Watch, v: int, deadline: Time, timeout: Time) {
    k.tried && InPhase(k, v) && deadline == k.at + timeout && !k.met
  }

  predicate PhaseOver(k: Watch, v: int, now: Time, timeout: Time) {
    k.tried && InPhase(k, v) && (k.met || k.at + timeout <= now)
  }

  predicate Closing(k: Watch, now: Time) {
    k.cmd == Cycle && (k.over || PhaseOver(k, 1, now, 60_000))
  }

  /** What has been seen of a worker at `pc`. */
  predicate Fits(k: Watch, pc: Pc, now: Time) {
    && k.last <= now
    && match pc
       case Start(cmd) => k == NewWatch(cmd)
       case Decide(payload) => k.cmd == Toggle(payload) && !k.tried
       case ToggleSet(v) => k.cmd.Toggle? && SetRule(k.cmd, k.tried, v)
       case TogglePoll(v) => Asks(k.cmd, v)
       case ToggleState(v) => Asks(k.cmd, v)
       case ToggleAvailability(v, _) => Asks(k.cmd, v)
       case PreCheck => k.cmd == Cycle && !k.tried && !k.over && k.value.None?
       case Disable => k.cmd == Cycle && !k.tried && !k.over && k.value.None?
       case OffHead(d, _) => Waiting(k, 2, d, 30_000) && !k.polled && Rested(k, now)
       case OffPoll(d, _) => Waiting(k, 2, d, 30_000) && !k.polled && Rested(k, now) && k.last < d
       case OffCheck(d, _) => Waiting(k, 2, d, 30_000) && k.polled
       case OffWait(d, _, until) => Waiting(k, 2, d, 30_000) && !k.polled && LookedBefore(k, until)
       case Enable(_) => PhaseOver(k, 2, now, 30_000)
       case OnHead(d, _, _) => Waiting(k, 1, d, 60_000) && !k.polled && Rested(k, now)
       case OnPoll(d, _, _) => Waiting(k, 1, d, 60_000) && !k.polled && Rested(k, now) && k.last < d
       case OnCheck(d, _, _) => Waiting(k, 1, d, 60_000) && k.polled
       case OnWait(d, _, _, until) => Waiting(k, 1, d, 60_000) && !k.polled && LookedBefore(k, until)
       case FinalPoll(_) => Closing(k, now) && !k.polled
       case FinalState(_) => Closing(k, now) && k.polled
       case FinalAvailability(_, _) => k.cmd == Cycle && (k.over || InPhase(k, 1))
       case Release(o) => !InPhase(k, 2) && !(k.polled && k.met) && IsOf(o, k.cmd)
       case Done => !InPhase(k, 2) && !(k.polled && k.met)
  }

  predicate Asks(cmd: Command, v: int) {
    SetRule(cmd, false, v) && cmd.Toggle?
  }

  /** A command of this kind and payload can come out like this: only a payload that is neither ON nor OFF is
      rejected. */
  predicate IsOf(o: Outcome, cmd: Command) {
    match o
    case Rejected => cmd.Toggle? && cmd.payload != "ON" && cmd.payload != "OFF"
    case ToggleFailed(v) => Asks(cmd, v)
    case Toggled(v, _) => Asks(cmd, v)
    case DisableFailed => cmd == Cycle
    case Cycled(_, _) => cmd == Cycle
  }

  predicate LookedBefore(k: Watch, until: Time) {
    k.looked.Some? && k.looked.value + 2_000 == until
  }

  lemma FitsLater(k: Watch, pc: Pc, now: Time, later: Time)
    requires Fits(k, pc, now) && now <= later
    ensures Fits(k, pc, later)
  {
  }

  lemma FollowsRules(k: Watch, p: Port, pc: Pc, now: Time, stop: bool, ok: bool)
    requires Fits(k, pc, now)
    ensures Rules(k, p, now, ActOf(p, pc, stop, ok))
  {
  }

  lemma ToggleKeepsFitting(k: Watch, p: Port, pc: Pc, now: Time, stop: bool, ok: bool)
    requires Fits(k, pc, now) && (InToggle(pc) || pc.Start?)
    ensures Fits(Seen(k, p, now, ActOf(p, pc, stop, ok)), NextPc(p, pc, now, stop, ok), now)
  {
  }

  lemma OffKeepsFitting(k: Watch, p: Port, pc: Pc, now: Time, stop: bool, ok: bool)
    requires Fits(k, pc, now) && InOffPhase(pc)
    ensures Fits(Seen(k, p, now, ActOf(p, pc, stop, ok)), NextPc(p, pc, now, stop, ok), now)
  {
  }

  lemma OnKeepsFitting(k: Watch, p: Port, pc: Pc, now: Time, stop: bool, ok: bool)
    requires Fits(k, pc, now) && Owns(pc) && !InToggle(pc) && !InOffPhase(pc)
    ensures Fits(Seen(k, p, now, ActOf(p, pc, stop, ok)), NextPc(p, pc, now, stop, ok), now)
  {
  }

  lemma KeepsFitting(k: Watch, p: Port, pc: Pc, now: Time, stop: bool, ok: bool)
    requires Fits(k, pc, now)
    ensures Fits(Seen(k, p, now, ActOf(p, pc, stop, ok)), NextPc(p, pc, now, stop, ok), now)
  {
    if InToggle(pc) || pc.Start? {
      ToggleKeepsFitting(k, p, pc, now, stop, ok);
    } else if InOffPhase(pc) {
      OffKeepsFitting(k, p, pc, now, stop, ok);
    } else if Owns(pc) {
      OnKeepsFitting(k, p, pc, now, stop, ok);
    }
  }

  // ------------------------------------------------------------------
  // Every run
  // ------------------------------------------------------------------

  ghost predicate WatchOk(s: System, ks: seq<Watch>, cmds: seq<Command>, w: nat) {
    && w < |s.workers| && w < |ks| && w < |cmds|
    && ks[w].cmd == cmds[w] && s.workers[w].port in s.ports && Fits(ks[w], s.workers[w].pc, s.now)
  }

  ghost predicate Watched(s: System, ks: seq<Watch>, cmds: seq<Command>) {
    && |s.workers| == |ks| == |cmds|
    && forall w :: 0 <= w < |s.workers| ==> WatchOk(s, ks, cmds, w)
  }

  /** What an action adds to the log is what it does, and nothing else changes the log. */
  lemma AddedIs(p: Port, w: nat, pc: Pc, stop: bool, ok: bool, r: Option<Reading>)
    ensures ActAdded(p, NextPort(p, w, pc, stop, ok, r)) == ActOf(p, pc, stop, ok)
    ensures NextPort(p, w, pc, stop, ok, r).log
         == p.log + match ActOf(p, pc, stop, ok) case Some(act) => [Event(w, act)] case None => []
  {
    assert p.log + [] == p.log;
  }

  /** One action of worker `w` that does `act` and leads to `pc`. */
  ghost predicate Moved(s: System, t: System, ks: seq<Watch>, ks': seq<Watch>, w: nat, act: Option<Act>, pc: Pc) {
    && w < |s.workers| && w < |ks| && s.workers[w].port in s.ports
    && t.workers == s.workers[w := Worker(s.workers[w].port, pc)] && t.now == s.now && t.ports.Keys == s.ports.Keys
    && (forall id :: id in s.ports && id != s.workers[w].port ==> t.ports[id].log == s.ports[id].log)
    && t.ports[s.workers[w].port].log
       == s.ports[s.workers[w].port].log + (if act.Some? then [Event(w, act.value)] else [])
    && ks' == ks[w := Seen(ks[w], s.ports[s.workers[w].port], s.now, act)]
  }

  lemma RunMoves(s: System, ks: seq<Watch>, w: nat, ok: bool, r: Option<Reading>)
    requires w < |s.workers| && w < |ks| && s.workers[w].port in s.ports
    ensures var step, p, pc := Run(w, ok, r), s.ports[s.workers[w].port], s.workers[w].pc;
            Moved(s, Next(s, step), ks, Follow(ks, s, step, Next(s, step)), w, ActOf(p, pc, s.stop, ok),
                  NextPc(p, pc, s.now, s.stop, ok))
  {
    AddedIs(s.ports[s.workers[w].port], w, s.workers[w].pc, s.stop, ok, r);
  }

  lemma MovedWatched(s: System, t: System, ks: seq<Watch>, ks': seq<Watch>, cmds: seq<Command>, w: nat,
                     act: Option<Act>, pc: Pc)
    requires Watched(s, ks, cmds) && Moved(s, t, ks, ks', w, act, pc)
    requires Fits(Seen(ks[w], s.ports[s.workers[w].port], s.now, act), pc, s.now)
    ensures Watched(t, ks', cmds)
  {
    forall v | 0 <= v < |t.workers|
      ensures WatchOk(t, ks', cmds, v)
    {
      assert WatchOk(s, ks, cmds, v);
    }
  }

  lemma RunWatched(s: System, ks: seq<Watch>, cmds: seq<Command>, w: nat, ok: bool, r: Option<Reading>)
    requires Watched(s, ks, cmds)
    ensures Watched(Next(s, Run(w, ok, r)), Follow(ks, s, Run(w, ok, r), Next(s, Run(w, ok, r))), cmds)
  {
    if w < |s.workers| {
      assert WatchOk(s, ks, cmds, w);
      var p, pc, t := s.ports[s.workers[w].port], s.workers[w].pc, Next(s, Run(w, ok, r));
      RunMoves(s, ks, w, ok, r);
      KeepsFitting(ks[w], p, pc, s.now, s.stop, ok);
      MovedWatched(s, t, ks, Follow(ks, s, Run(w, ok, r), t), cmds, w, ActOf(p, pc, s.stop, ok),
                   NextPc(p, pc, s.now, s.stop, ok));
    }
  }

  lemma OtherWatched(s: System, ks: seq<Watch>, cmds: seq<Command>, step: Step)
    requires Watched(s, ks, cmds) && !step.Run?
    ensures Watched(Next(s, step), Follow(ks, s, step, Next(s, step)),
                    cmds + if step.Message? && step.id in s.ports then [step.cmd] else [])
  {
    var t, ks' := Next(s, step), Follow(ks, s, step, Next(s, step));
    var cmds' := cmds + if step.Message? && step.id in s.ports then [step.cmd] else [];
    forall v | 0 <= v < |t.workers|
      ensures WatchOk(t, ks', cmds', v)
    {
      if v < |s.workers| {
        assert WatchOk(s, ks, cmds, v);
        FitsLater(ks[v], s.workers[v].pc, s.now, t.now);
      }
    }
  }

  lemma {:induction false} AlwaysWatched(ids: set<PortId>, steps: seq<Step>)
    ensures Watched(After(Initial(ids), steps), Followed(ids, steps), Commands(ids, steps))
  {
    if steps != [] {
      var front, last := steps[..|steps| - 1], steps[|steps| - 1];
      AlwaysWatched(ids, front);
      PortsStay(ids, front);
      StepWatched(ids, After(Initial(ids), front), Followed(ids, front), Commands(ids, front), last);
    }
  }

  lemma StepWatched(ids: set<PortId>, s: System, ks: seq<Watch>, cmds: seq<Command>, step: Step)
    requires Watched(s, ks, cmds) && s.ports.Keys == ids
    ensures Watched(Next(s, step), Follow(ks, s, step, Next(s, step)),
                    cmds + if step.Message? && step.id in ids then [step.cmd] else [])
  {
    if step.Run? {
      RunWatched(s, ks, cmds, step.worker, step.ok, step.reading);
      assert cmds + [] == cmds;
    } else {
      OtherWatched(s, ks, cmds, step);
    }
  }

  /** In every run, whatever an action of a worker adds to the log of its port is as its command and what was seen of
      it allow: which value is set, what state is published, and when a phase of a cycle ends. It adds to no other
      port's log; a poll stores the reading it got, nothing else does; a toggle or cycle takes the port if it is free,
      and only a force command's first action overrides. */
  lemma ActionsFollowRules(ids: set<PortId>, steps: seq<Step>, w: nat, ok: bool, r: Option<Reading>)
    requires w < |After(Initial(ids), steps).workers|
    ensures var s := After(Initial(ids), steps);
            var id := s.workers[w].port;
            && w < |Followed(ids, steps)| && w < |Commands(ids, steps)|
            && Followed(ids, steps)[w].cmd == Commands(ids, steps)[w]
            && id in s.ports
            && ActionAllowed(s, Next(s, Run(w, ok, r)), w, r, Followed(ids, steps)[w])
  {
    AlwaysWatched(ids, steps);
    var s, k := After(Initial(ids), steps), Followed(ids, steps)[w];
    assert WatchOk(s, Followed(ids, steps), Commands(ids, steps), w);
    ActionIsAllowed(s, w, ok, r, k);
  }

  /** One action of worker `w`, as seen on the ports. */
  ghost predicate ActionAllowed(s: System, t: System, w: nat, r: Option<Reading>, k: Watch)
    requires w < |s.workers|
  {
    var id := s.workers[w].port;
    && id in s.ports && t.ports.Keys == s.ports.Keys
    && (forall other :: other in s.ports && other != id ==> t.ports[other] == s.ports[other])
    && var p, q := s.ports[id], t.ports[id];
    && var act := ActAdded(p, q);
    && Rules(k, p, s.now, act)
    && q.log == p.log + (if act.Some? then [Event(w, act.value)] else [])
    && Reading(q.admin, q.detect, q.link)
       == (if act == Some(Poll) && r.Some? then r.value else Reading(p.admin, p.detect, p.link))
    && (s.workers[w].pc.Start? && !k.cmd.Force? ==> q.busy && q.owner == if p.busy then p.owner else Some(w))
    && q.force == if s.workers[w].pc.Start? && k.cmd.Force? then k.cmd.payload == "ON" else p.force
  }

  lemma ActionIsAllowed(s: System, w: nat, ok: bool, r: Option<Reading>, k: Watch)
    requires w < |s.workers| && s.workers[w].port in s.ports && Fits(k, s.workers[w].pc, s.now)
    ensures ActionAllowed(s, Next(s, Run(w, ok, r)), w, r, k)
  {
    var p, pc := s.ports[s.workers[w].port], s.workers[w].pc;
    AddedIs(p, w, pc, s.stop, ok, r);
    FollowsRules(k, p, pc, s.now, s.stop, ok);
  }

  // ------------------------------------------------------------------
  // The values set, in the log
  // ------------------------------------------------------------------

  predicate IsSetBy(e: Event, w: nat) {
    e.worker == w && e.act.Set?
  }

  /** A SET of worker `w` stands in the log before place `j`. */
  predicate SetBefore(log: seq<Event>, j: nat, w: nat)
    requires j <= |log|
  {
    exists i :: 0 <= i < j && IsSetBy(log[i], w)
  }

  /** The SET at place `j` sets what the command of its worker asks for. */
  predicate SetAsAsked(log: seq<Event>, cmds: seq<Command>, j: nat)
    requires j < |log|
  {
    var e := log[j];
    e.act.Set? ==> e.worker < |cmds| && SetRule(cmds[e.worker], SetBefore(log, j, e.worker), e.act.value)
  }

  ghost predicate AllAsAsked(log: seq<Event>, cmds: seq<Command>) {
    forall j :: 0 <= j < |log| ==> SetAsAsked(log, cmds, j)
  }

  /** A SET was seen of each worker exactly if there is one in the log of its port. */
  ghost predicate TriedIs(s: System, ks: seq<Watch>, w: nat) {
    && w < |ks| && w < |s.workers| && s.workers[w].port in s.ports
    && var log := s.ports[s.workers[w].port].log;
    && (ks[w].tried <==> SetBefore(log, |log|, w))
  }

  /** Only started workers stand in a log. */
  ghost predicate Started(log: seq<Event>, n: nat) {
    forall j :: 0 <= j < |log| ==> log[j].worker < n
  }

  ghost predicate LogsAsAsked(s: System, ks: seq<Watch>, cmds: seq<Command>) {
    && (forall id :: id in s.ports ==> AllAsAsked(s.ports[id].log, cmds) && Started(s.ports[id].log, |s.workers|))
    && forall w :: 0 <= w < |s.workers| ==> TriedIs(s, ks, w)
  }

  lemma MoreAsAsked(log: seq<Event>, cmds: seq<Command>, e: Event)
    requires AllAsAsked(log, cmds)
    requires e.act.Set? ==> e.worker < |cmds| && SetRule(cmds[e.worker], SetBefore(log, |log|, e.worker), e.act.value)
    ensures AllAsAsked(log + [e], cmds)
  {
    forall j | 0 <= j < |log + [e]|
      ensures SetAsAsked(log + [e], cmds, j)
    {
      SetBeforeAlike(log, e, j, (log + [e])[j].worker);
      assert j < |log| ==> SetAsAsked(log, cmds, j);
    }
  }

  lemma SetBeforeAlike(log: seq<Event>, e: Event, j: nat, w: nat)
    requires j <= |log|
    ensures SetBefore(log + [e], j, w) <==> SetBefore(log, j, w)
    ensures SetBefore(log + [e], |log| + 1, w) <==> SetBefore(log, |log|, w) || IsSetBy(e, w)
  {
    var more := log + [e];
    assert forall i :: 0 <= i < |log| ==> more[i] == log[i];
    assert more[|log|] == e;
    if SetBefore(log, |log|, w) {
      var i :| 0 <= i < |log| && IsSetBy(log[i], w);
      assert IsSetBy(more[i], w);
    }
    if SetBefore(log, j, w) {
      var i :| 0 <= i < j && IsSetBy(log[i], w);
      assert IsSetBy(more[i], w);
    }
  }

  lemma MovedTried(s: System, t: System, ks: seq<Watch>, ks': seq<Watch>, w: nat, act: Option<Act>, pc: Pc, v: nat)
    requires TriedIs(s, ks, v) && Moved(s, t, ks, ks', w, act, pc)
    ensures TriedIs(t, ks', v)
  {
    var log := s.ports[s.workers[w].port].log;
    if act.Some? {
      SetBeforeAlike(log, Event(w, act.value), 0, v);
    } else {
      assert log + [] == log;
    }
  }

  lemma MovedAsAsked(s: System, t: System, ks: seq<Watch>, ks': seq<Watch>, cmds: seq<Command>, w: nat,
                     act: Option<Act>, pc: Pc, id: PortId)
    requires LogsAsAsked(s, ks, cmds) && Moved(s, t, ks, ks', w, act, pc) && id in s.ports
    requires w < |cmds| && (act.Some? && act.value.Set? ==> SetRule(cmds[w], ks[w].tried, act.value.value))
    ensures AllAsAsked(t.ports[id].log, cmds) && Started(t.ports[id].log, |s.workers|)
  {
    assert TriedIs(s, ks, w);
    if id == s.workers[w].port {
      var log := s.ports[id].log;
      if act.Some? {
        MoreAsAsked(log, cmds, Event(w, act.value));
      } else {
        assert log + [] == log;
      }
    }
  }

  lemma MovedLogs(s: System, t: System, ks: seq<Watch>, ks': seq<Watch>, cmds: seq<Command>, w: nat,
                  act: Option<Act>, pc: Pc)
    requires LogsAsAsked(s, ks, cmds) && Moved(s, t, ks, ks', w, act, pc)
    requires w < |cmds| && (act.Some? && act.value.Set? ==> SetRule(cmds[w], ks[w].tried, act.value.value))
    ensures LogsAsAsked(t, ks', cmds)
  {
    forall id | id in t.ports
      ensures AllAsAsked(t.ports[id].log, cmds) && Started(t.ports[id].log, |t.workers|)
    {
      MovedAsAsked(s, t, ks, ks', cmds, w, act, pc, id);
    }
    forall v | 0 <= v < |t.workers|
      ensures TriedIs(t, ks', v)
    {
      assert TriedIs(s, ks, v);
      MovedTried(s, t, ks, ks', w, act, pc, v);
    }
  }

  lemma RunLogs(s: System, ks: seq<Watch>, cmds: seq<Command>, w: nat, ok: bool, r: Option<Reading>)
    requires Watched(s, ks, cmds) && LogsAsAsked(s, ks, cmds)
    ensures LogsAsAsked(Next(s, Run(w, ok, r)), Follow(ks, s, Run(w, ok, r), Next(s, Run(w, ok, r))), cmds)
  {
    if w < |s.workers| {
      assert WatchOk(s, ks, cmds, w);
      var p, pc, t := s.ports[s.workers[w].port], s.workers[w].pc, Next(s, Run(w, ok, r));
      RunMoves(s, ks, w, ok, r);
      FollowsRules(ks[w], p, pc, s.now, s.stop, ok);
      MovedLogs(s, t, ks, Follow(ks, s, Run(w, ok, r), t), cmds, w, ActOf(p, pc, s.stop, ok),
                NextPc(p, pc, s.now, s.stop, ok));
    }
  }

  lemma OlderAsAsked(log: seq<Event>, cmds: seq<Command>, more: seq<Command>)
    requires AllAsAsked(log, cmds)
    ensures AllAsAsked(log, cmds + more)
  {
    forall j | 0 <= j < |log|
      ensures SetAsAsked(log, cmds + more, j)
    {
      assert SetAsAsked(log, cmds, j);
    }
  }

  lemma OtherLogs(s: System, ks: seq<Watch>, cmds: seq<Command>, step: Step)
    requires Watched(s, ks, cmds) && LogsAsAsked(s, ks, cmds) && !step.Run?
    ensures LogsAsAsked(Next(s, step), Follow(ks, s, step, Next(s, step)),
                        cmds + if step.Message? && step.id in s.ports then [step.cmd] else [])
  {
    var t, ks' := Next(s, step), Follow(ks, s, step, Next(s, step));
    var more := if step.Message? && step.id in s.ports then [step.cmd] else [];
    forall id | id in t.ports
      ensures AllAsAsked(t.ports[id].log, cmds + more) && Started(t.ports[id].log, |t.workers|)
    {
      assert t.ports[id].log == s.ports[id].log;
      OlderAsAsked(s.ports[id].log, cmds, more);
    }
    forall v | 0 <= v < |t.workers|
      ensures TriedIs(t, ks', v)
    {
      if v < |s.workers| {
        assert TriedIs(s, ks, v) && t.ports[s.workers[v].port].log == s.ports[s.workers[v].port].log;
      } else {
        assert Started(s.ports[step.id].log, |s.workers|);
      }
    }
  }

  lemma {:induction false} LogsAlways(ids: set<PortId>, steps: seq<Step>)
    ensures LogsAsAsked(After(Initial(ids), steps), Followed(ids, steps), Commands(ids, steps))
  {
    if steps != [] {
      var front, last := steps[..|steps| - 1], steps[|steps| - 1];
      LogsAlways(ids, front);
      AlwaysWatched(ids, front);
      PortsStay(ids, front);
      StepLogsAsked(ids, After(Initial(ids), front), Followed(ids, front), Commands(ids, front), last);
    }
  }

  lemma StepLogsAsked(ids: set<PortId>, s: System, ks: seq<Watch>, cmds: seq<Command>, step: Step)
    requires Watched(s, ks, cmds) && LogsAsAsked(s, ks, cmds) && s.ports.Keys == ids
    ensures LogsAsAsked(Next(s, step), Follow(ks, s, step, Next(s, step)),
                        cmds + if step.Message? && step.id in ids then [step.cmd] else [])
  {
    if step.Run? {
      RunLogs(s, ks, cmds, step.worker, step.ok, step.reading);
      assert cmds + [] == cmds;
    } else {
      OtherLogs(s, ks, cmds, step);
    }
  }

  /** In the log of every port in every run: each SET is of a command that was received, and sets 1 for ON, 2 for OFF
      (each at most once), first 2 and then 1 for a cycle; other payloads and force commands set nothing. */
  lemma SetsAsCommanded(ids: set<PortId>, steps: seq<Step>, id: PortId, j: nat)
    requires id in ids
    requires var s := After(Initial(ids), steps); id in s.ports && j < |s.ports[id].log| && s.ports[id].log[j].act.Set?
    ensures var log, cmds := After(Initial(ids), steps).ports[id].log, Commands(ids, steps);
            var w, v, again := log[j].worker, log[j].act.value, SetBefore(log, j, log[j].worker);
            && w < |cmds|
            && match cmds[w]
               case Toggle(payload) => !again && v == (if payload == "ON" then 1 else 2) && payload in {"ON", "OFF"}
               case Cycle => v == if again then 1 else 2
               case Force(_) => false
  {
    LogsAlways(ids, steps);
    var s := After(Initial(ids), steps);
    assert AllAsAsked(s.ports[id].log, Commands(ids, steps));
    assert SetAsAsked(s.ports[id].log, Commands(ids, steps), j);
  }

  // ------------------------------------------------------------------
  // How commands came out
  // ------------------------------------------------------------------

  /** Every finished command came out as one of its kind and payload can. */
  ghost predicate OutcomesFit(fs: seq<Finished>, cmds: seq<Command>) {
    forall i :: 0 <= i < |fs| ==> fs[i].worker < |cmds| && IsOf(fs[i].outcome, cmds[fs[i].worker])
  }

  ghost predicate AllOutcomesFit(s: System, cmds: seq<Command>) {
    forall id :: id in s.ports ==> OutcomesFit(s.ports[id].finished, cmds)
  }

  lemma FinishedIs(p: Port, w: nat, pc: Pc, stop: bool, ok: bool, r: Option<Reading>)
    ensures NextPort(p, w, pc, stop, ok, r).finished
         == p.finished + if pc.Release? then [Finished(w, pc.outcome)] else []
  {
    assert p.finished + [] == p.finished;
  }

  lemma StepOutcomes(ids: set<PortId>, s: System, ks: seq<Watch>, cmds: seq<Command>, step: Step)
    requires Watched(s, ks, cmds) && AllOutcomesFit(s, cmds)
    ensures AllOutcomesFit(Next(s, step), cmds + if step.Message? && step.id in ids then [step.cmd] else [])
  {
    var t := Next(s, step);
    var more := if step.Message? && step.id in ids then [step.cmd] else [];
    forall id | id in t.ports
      ensures OutcomesFit(t.ports[id].finished, cmds + more)
    {
      PortOutcomes(s, ks, cmds, step, id);
      OlderOutcomes(t.ports[id].finished, cmds, more);
    }
  }

  lemma PortOutcomes(s: System, ks: seq<Watch>, cmds: seq<Command>, step: Step, id: PortId)
    requires Watched(s, ks, cmds) && id in s.ports && OutcomesFit(s.ports[id].finished, cmds)
    ensures id in Next(s, step).ports && OutcomesFit(Next(s, step).ports[id].finished, cmds)
  {
    if step.Run? && step.worker < |s.workers| {
      assert WatchOk(s, ks, cmds, step.worker);
      FinishedIs(s.ports[id], step.worker, s.workers[step.worker].pc, s.stop, step.ok, step.reading);
    }
  }

  lemma OlderOutcomes(fs: seq<Finished>, cmds: seq<Command>, more: seq<Command>)
    requires OutcomesFit(fs, cmds)
    ensures OutcomesFit(fs, cmds + more)
  {
  }

  /** In every run: a finished toggle that was ON or OFF has set, or failed to set, what it asks for, one with another
      payload was rejected, and a cycle came out as cycles do. With `PortsAreSerial` this says what each log is made
      of, command by command. */
  lemma {:induction false} OutcomesAsCommanded(ids: set<PortId>, steps: seq<Step>)
    ensures AllOutcomesFit(After(Initial(ids), steps), Commands(ids, steps))
  {
    if steps != [] {
      var front, last := steps[..|steps| - 1], steps[|steps| - 1];
      OutcomesAsCommanded(ids, front);
      AlwaysWatched(ids, front);
      StepOutcomes(ids, After(Initial(ids), front), Followed(ids, front), Commands(ids, front), last);
    }
  }
}
