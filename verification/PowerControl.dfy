/** Power commands of one host: messages queue commands, workers run them, and a halt is started by at most one at
    a time (src/sensors2mqtt/collector/local_control.py).

    A run is a sequence of steps: messages arriving, one worker doing its next action, the announcement the main
    thread makes once connected. Whether a power command succeeds is part of the step. */
module PowerControl {
  import opened Wrappers

  datatype Action = Shutdown | Reboot

  /** The payload is the decoded and stripped text. */
  datatype Message = Message(node: string, action: string, retained: bool, payload: string)

  /** A worker's place in its handler. */
  datatype Pc =
    | Start
    | Acknowledge
    | Execute
    | Executing
    | ClearBusy
    | PublishIdle
    | Succeeded
    | Done

  /** The command made from the message at `source` among those received. */
  datatype Worker = Worker(action: Action, source: nat, pc: Pc)

  datatype Event =
    | Acknowledged(worker: nat, action: Action)
    | Began(worker: nat, action: Action)
    | Ended(worker: nat, ok: bool)

  /** `state` is what is retained at the state topic. `owner`, `received`, `log`, `failed` and `overlapped` record
      history; no action reads them. */
  datatype System = System(
    busy: bool, workers: seq<Worker>, state: Option<Report>,
    owner: Option<nat>, received: seq<Message>, log: seq<Event>, failed: seq<nat>, overlapped: bool)

  datatype Step =
    | Receive(message: Message)
    | Run(worker: nat, ok: bool)
    | Announce

  function ActionNamed(name: string): Option<Action> {
    if name == "shutdown" then Some(Shutdown) else if name == "reboot" then Some(Reboot) else None
  }

  /** The retained state: ``idle``, or ``shutting_down`` or ``rebooting`` by the action. */
  datatype Report = Idle | InProgress(action: Action)

  /** The command a message queues, if any. */
  type Filter = Message -> Option<Action>

  /** `_on_message` queues a command only for a live press of this node's known actions. */
  function Accepted(node: string, m: Message): Option<Action> {
    if m.node == node && !m.retained && m.payload == "PRESS" then ActionNamed(m.action) else None
  }

  function NextPc(pc: Pc, busy: bool, ok: bool): Pc {
    match pc
    case Start => if busy then Done else Acknowledge
    case Acknowledge => Execute
    case Execute => Executing
    case Executing => if ok then Succeeded else ClearBusy
    case ClearBusy => PublishIdle
    case PublishIdle => Done
    case Succeeded => Succeeded
    case Done => Done
  }

  /** What the next action adds to the log. */
  function Said(w: nat, k: Worker, ok: bool): seq<Event> {
    match k.pc
    case Acknowledge => [Acknowledged(w, k.action)]
    case Execute => [Began(w, k.action)]
    case Executing => [Ended(w, ok)]
    case _ => []
  }

  predicate SomeAtIdle(workers: seq<Worker>) {
    exists v :: 0 <= v < |workers| && workers[v].pc.PublishIdle?
  }

  /** The next action of worker `w`. */
  function RunWorker(s: System, w: nat, ok: bool): System
    requires w < |s.workers|
  {
    var k := s.workers[w];
    var takes, clears := k.pc.Start? && !s.busy, k.pc.ClearBusy?;
    System(
      if takes then true else if clears then false else s.busy,
      s.workers[w := Worker(k.action, k.source, NextPc(k.pc, s.busy, ok))],
      if k.pc.Acknowledge? then Some(InProgress(k.action)) else if k.pc.PublishIdle? then Some(Idle) else s.state,
      if takes then Some(w) else if clears then None else s.owner,
      s.received,
      s.log + Said(w, k, ok),
      if clears then s.failed + [w] else s.failed,
      s.overlapped || (takes && SomeAtIdle(s.workers)))
  }

  function Next(accept: Filter, s: System, step: Step): System {
    match step
    case Receive(m) =>
      var a := accept(m);
      var s' := s.(received := s.received + [m]);
      if a.Some? then s'.(workers := s.workers + [Worker(a.value, |s.received|, Start)]) else s'
    case Run(w, ok) => if w < |s.workers| then RunWorker(s, w, ok) else s
    case Announce => s.(state := Some(Idle), overlapped := s.overlapped || s.busy)
  }

  const INITIAL := System(false, [], None, None, [], [], [], false)

  function After(accept: Filter, s: System, steps: seq<Step>): System {
    if steps == [] then s else Next(accept, After(accept, s, steps[..|steps| - 1]), steps[|steps| - 1])
  }

  // ------------------------------------------------------------------
  // The log is made of whole commands
  // ------------------------------------------------------------------

  /** Between taking the busy flag and clearing it. */
  predicate Owns(pc: Pc) {
    !pc.Start? && !pc.PublishIdle? && !pc.Done?
  }

  /** What the worker in the flag has done. */
  function Progress(w: nat, k: Worker): seq<Event> {
    match k.pc
    case Execute => [Acknowledged(w, k.action)]
    case Executing => [Acknowledged(w, k.action), Began(w, k.action)]
    case ClearBusy => [Acknowledged(w, k.action), Began(w, k.action), Ended(w, false)]
    case Succeeded => [Acknowledged(w, k.action), Began(w, k.action), Ended(w, true)]
    case _ => []
  }

  /** The blocks of the failed commands, in the order they gave up the flag. */
  function Failures(workers: seq<Worker>, failed: seq<nat>): seq<Event>
    requires forall i :: 0 <= i < |failed| ==> failed[i] < |workers|
  {
    if failed == [] then []
    else
      var n := |failed| - 1;
      var w := failed[n];
      Failures(workers, failed[..n])
      + [Acknowledged(w, workers[w].action), Began(w, workers[w].action), Ended(w, false)]
  }

  /** The busy flag is up exactly while one worker owns it. */
  ghost predicate FlagInv(s: System) {
    && s.busy == s.owner.Some?
    && (s.owner.Some? ==> s.owner.value < |s.workers|)
    && (forall w :: 0 <= w < |s.workers| ==> (Owns(s.workers[w].pc) <==> s.owner == Some(w)))
  }

  ghost predicate LogInv(s: System) {
    && (forall i :: 0 <= i < |s.failed| ==> s.failed[i] < |s.workers|)
    && s.log == Failures(s.workers, s.failed)
                + if s.owner.Some? && s.owner.value < |s.workers|
                  then Progress(s.owner.value, s.workers[s.owner.value]) else []
  }

  /** Each worker that failed did so once, and gave up the flag. */
  ghost predicate FailedInv(s: System) {
    && (forall i, j :: 0 <= i < j < |s.failed| ==> s.failed[i] != s.failed[j])
    && (forall i :: 0 <= i < |s.failed| ==> s.failed[i] < |s.workers|)
    && (forall i :: 0 <= i < |s.failed| ==>
          s.workers[s.failed[i]].pc.PublishIdle? || s.workers[s.failed[i]].pc.Done?)
  }

  ghost predicate SourceOk(accept: Filter, s: System, w: nat)
    requires w < |s.workers|
  {
    var k := s.workers[w];
    k.source < |s.received| && accept(s.received[k.source]) == Some(k.action)
  }

  /** Commands come from different messages, each accepted as its action. */
  ghost predicate SourceInv(accept: Filter, s: System) {
    && (forall w :: 0 <= w < |s.workers| ==> SourceOk(accept, s, w))
    && (forall u, v :: 0 <= u < v < |s.workers| ==> s.workers[u].source < s.workers[v].source)
  }

  lemma {:induction false} FailuresSame(a: seq<Worker>, b: seq<Worker>, failed: seq<nat>)
    requires |a| <= |b| && forall w :: 0 <= w < |a| ==> a[w].action == b[w].action
    requires forall i :: 0 <= i < |failed| ==> failed[i] < |a|
    ensures Failures(a, failed) == Failures(b, failed)
  {
    if failed != [] {
      FailuresSame(a, b, failed[..|failed| - 1]);
    }
  }

  lemma FlagKept(accept: Filter, s: System, step: Step)
    requires FlagInv(s)
    ensures FlagInv(Next(accept, s, step))
  {
  }

  lemma SourceKept(accept: Filter, s: System, step: Step)
    requires SourceInv(accept, s)
    ensures SourceInv(accept, Next(accept, s, step))
  {
    var t := Next(accept, s, step);
    forall w | 0 <= w < |t.workers|
      ensures SourceOk(accept, t, w)
    {
      if w < |s.workers| {
        assert SourceOk(accept, s, w);
      }
    }
    forall u, v | 0 <= u < v < |t.workers|
      ensures t.workers[u].source < t.workers[v].source
    {
      if v == |s.workers| {
        assert SourceOk(accept, s, u);
      }
    }
  }

  lemma FailedKept(accept: Filter, s: System, step: Step)
    requires FlagInv(s) && FailedInv(s)
    ensures FailedInv(Next(accept, s, step))
  {
    if step.Run? && step.worker < |s.workers| && s.workers[step.worker].pc.ClearBusy? {
      assert step.worker !in s.failed;
    }
  }

  /** The log if the owner of the flag, if any, is `k`. */
  lemma ProgressKept(s: System, w: nat, ok: bool)
    requires w < |s.workers| && !s.workers[w].pc.ClearBusy?
    ensures var k, t := s.workers[w], RunWorker(s, w, ok);
            && (Owns(k.pc) ==> Progress(w, t.workers[w]) == Progress(w, k) + Said(w, k, ok))
            && (!Owns(k.pc) ==> Said(w, k, ok) == [] && Progress(w, t.workers[w]) == [])
  {
  }

  lemma LogCleared(s: System, w: nat, ok: bool)
    requires FlagInv(s) && LogInv(s) && w < |s.workers| && s.workers[w].pc.ClearBusy?
    ensures LogInv(RunWorker(s, w, ok))
  {
    var t := RunWorker(s, w, ok);
    assert s.owner == Some(w) && t.owner == None;
    FailuresSame(s.workers, t.workers, s.failed);
    assert t.failed[..|t.failed| - 1] == s.failed;
  }

  lemma LogOfOwner(s: System, w: nat, ok: bool)
    requires FlagInv(s) && LogInv(s) && w < |s.workers| && Owns(s.workers[w].pc) && !s.workers[w].pc.ClearBusy?
    ensures LogInv(RunWorker(s, w, ok))
  {
    var t, k := RunWorker(s, w, ok), s.workers[w];
    var done := Failures(s.workers, s.failed);
    assert s.owner == Some(w) == t.owner;
    FailuresSame(s.workers, t.workers, s.failed);
    ProgressKept(s, w, ok);
    assert (done + Progress(w, k)) + Said(w, k, ok) == done + (Progress(w, k) + Said(w, k, ok));
  }

  lemma LogOfOther(s: System, w: nat, ok: bool)
    requires FlagInv(s) && LogInv(s) && w < |s.workers| && !Owns(s.workers[w].pc)
    ensures LogInv(RunWorker(s, w, ok))
  {
    var t := RunWorker(s, w, ok);
    FailuresSame(s.workers, t.workers, s.failed);
    ProgressKept(s, w, ok);
    assert s.log + [] == s.log;
  }

  lemma LogRun(s: System, w: nat, ok: bool)
    requires FlagInv(s) && LogInv(s) && w < |s.workers|
    ensures LogInv(RunWorker(s, w, ok))
  {
    if s.workers[w].pc.ClearBusy? {
      LogCleared(s, w, ok);
    } else if Owns(s.workers[w].pc) {
      LogOfOwner(s, w, ok);
    } else {
      LogOfOther(s, w, ok);
    }
  }

  lemma LogKept(accept: Filter, s: System, step: Step)
    requires FlagInv(s) && LogInv(s)
    ensures LogInv(Next(accept, s, step))
  {
    match step
    case Run(w, ok) =>
      if w < |s.workers| {
        LogRun(s, w, ok);
      }
    case Receive(_) => FailuresSame(s.workers, Next(accept, s, step).workers, s.failed);
    case Announce =>
  }

  lemma {:induction false} Always(accept: Filter, steps: seq<Step>)
    ensures var s := After(accept, INITIAL, steps);
            FlagInv(s) && LogInv(s) && FailedInv(s) && SourceInv(accept, s)
  {
    if steps != [] {
      var front, last := steps[..|steps| - 1], steps[|steps| - 1];
      Always(accept, front);
      var s := After(accept, INITIAL, front);
      FlagKept(accept, s, last);
      LogKept(accept, s, last);
      FailedKept(accept, s, last);
      SourceKept(accept, s, last);
    }
  }

  // ------------------------------------------------------------------
  // At most one halt
  // ------------------------------------------------------------------

  /** Two workers are never both between taking the flag and giving it up, so never both executing. */
  lemma OneAtATime(accept: Filter, steps: seq<Step>, u: nat, v: nat)
    requires var ws := After(accept, INITIAL, steps).workers;
             u < |ws| && v < |ws| && Owns(ws[u].pc) && Owns(ws[v].pc)
    ensures u == v
  {
    Always(accept, steps);
  }

  lemma SuccessKept(accept: Filter, s: System, step: Step, w: nat)
    requires FlagInv(s) && w < |s.workers| && s.workers[w].pc.Succeeded?
    ensures var t := Next(accept, s, step);
            w < |t.workers| && t.workers[w].pc.Succeeded? && t.busy && t.log == s.log
  {
    assert s.owner == Some(w);
  }

  /** Once a command succeeded, in any state that can be reached, nothing is acknowledged, begun or ended
      any more. */
  lemma {:induction false} SuccessIsFinal(accept: Filter, s: System, w: nat, more: seq<Step>)
    requires FlagInv(s) && w < |s.workers| && s.workers[w].pc.Succeeded?
    ensures var t := After(accept, s, more);
            FlagInv(t) && w < |t.workers| && t.workers[w].pc.Succeeded? && t.busy && t.log == s.log
  {
    if more != [] {
      var front, last := more[..|more| - 1], more[|more| - 1];
      SuccessIsFinal(accept, s, w, front);
      SuccessKept(accept, After(accept, s, front), last, w);
      FlagKept(accept, After(accept, s, front), last);
    }
  }

  /** The worker of the `i`th command in the log. */
  function Commander(s: System, i: nat): Option<nat> {
    if i < |s.failed| then Some(s.failed[i]) else s.owner
  }

  predicate IsPart(e: Event, part: nat, w: nat, k: Worker) {
    if part == 0 then e == Acknowledged(w, k.action)
    else if part == 1 then e == Began(w, k.action)
    else e.Ended? && e.worker == w
  }

  lemma {:induction false} FailuresAt(workers: seq<Worker>, failed: seq<nat>, j: nat)
    requires forall i :: 0 <= i < |failed| ==> failed[i] < |workers|
    ensures |Failures(workers, failed)| == 3 * |failed|
    ensures j < 3 * |failed| ==>
              IsPart(Failures(workers, failed)[j], j % 3, failed[j / 3], workers[failed[j / 3]])
              && (j % 3 == 2 ==> Failures(workers, failed)[j] == Ended(failed[j / 3], false))
  {
    if failed != [] {
      var n := |failed| - 1;
      FailuresAt(workers, failed[..n], j);
      if 3 * n <= j < 3 * n + 3 {
        assert j / 3 == n && j % 3 == j - 3 * n;
      }
    }
  }

  /** The `part`th event of the `i`th command stands in the log. */
  ghost predicate StandsInLog(s: System, i: nat, part: nat) {
    var c, j := Commander(s, i), 3 * i + part;
    && j < |s.log| && c.Some? && c.value < |s.workers|
    && IsPart(s.log[j], part, c.value, s.workers[c.value])
    && (j + 3 < |s.log| && part == 2 ==> s.log[j] == Ended(c.value, false))
  }

  lemma FailureStands(s: System, i: nat, part: nat)
    requires LogInv(s) && i < |s.failed| && part < 3
    ensures StandsInLog(s, i, part)
  {
    var j := 3 * i + part;
    FailuresAt(s.workers, s.failed, j);
    assert j / 3 == i && j % 3 == part;
  }

  lemma ProgressStands(s: System, part: nat)
    requires FlagInv(s) && LogInv(s) && part < 3 && 3 * |s.failed| + part < |s.log|
    ensures StandsInLog(s, |s.failed|, part)
  {
    FailuresAt(s.workers, s.failed, 0);
    assert s.log[3 * |s.failed| + part] == Progress(s.owner.value, s.workers[s.owner.value])[part];
  }

  lemma LogLength(s: System)
    requires FlagInv(s) && LogInv(s)
    ensures 3 * |s.failed| <= |s.log| <= 3 * |s.failed| + if s.owner.Some? then 3 else 0
  {
    FailuresAt(s.workers, s.failed, 0);
  }

  lemma StandsIn(s: System, i: nat, part: nat)
    requires FlagInv(s) && LogInv(s) && part < 3 && 3 * i + part < |s.log|
    ensures StandsInLog(s, i, part)
  {
    LogLength(s);
    if i < |s.failed| {
      FailureStands(s, i, part);
    } else {
      ProgressStands(s, part);
    }
  }

  lemma Triples(s: System, j: nat)
    requires FlagInv(s) && LogInv(s) && j < |s.log|
    ensures var c := Commander(s, j / 3);
            && c.Some? && c.value < |s.workers| && IsPart(s.log[j], j % 3, c.value, s.workers[c.value])
            && (j + 3 < |s.log| && j % 3 == 2 ==> s.log[j] == Ended(c.value, false))
  {
    StandsIn(s, j / 3, j % 3);
  }

  /** The log is a concatenation of triples, acknowledgement, beginning and end of one command, the last of
      which may be incomplete; all but the last command failed. */
  lemma LogInTriples(accept: Filter, steps: seq<Step>, j: nat)
    requires j < |After(accept, INITIAL, steps).log|
    ensures var s := After(accept, INITIAL, steps);
            var c := Commander(s, j / 3);
            && c.Some? && c.value < |s.workers| && IsPart(s.log[j], j % 3, c.value, s.workers[c.value])
            && (j + 3 < |s.log| && j % 3 == 2 ==> s.log[j] == Ended(c.value, false))
  {
    Always(accept, steps);
    Triples(After(accept, INITIAL, steps), j);
  }

  /** Different triples are of different workers. */
  lemma CommandersDiffer(s: System, i: nat, j: nat)
    requires FlagInv(s) && FailedInv(s) && i < j <= |s.failed| && (j == |s.failed| ==> s.owner.Some?)
    ensures Commander(s, i) != Commander(s, j)
  {
    assert !Owns(s.workers[s.failed[i]].pc);
  }

  /** An execution stands in the log as the middle of some command. */
  lemma Execution(s: System, j: nat) returns (i: nat)
    requires FlagInv(s) && LogInv(s) && j < |s.log| && s.log[j].Began?
    ensures j == 3 * i + 1 && i <= |s.failed| && (i == |s.failed| ==> s.owner.Some?)
    ensures Commander(s, i) == Some(s.log[j].worker) && s.log[j].worker < |s.workers|
    ensures s.workers[s.log[j].worker].action == s.log[j].action
  {
    i := j / 3;
    StandsIn(s, i, j % 3);
    LogLength(s);
  }

  /** The filter of a node's daemon. */
  function PressesOf(node: string): Filter {
    (m: Message) => Accepted(node, m)
  }

  /** A message queues a command exactly if it is a live press of this node's shutdown or reboot, and that action. */
  lemma PressQueues(node: string, s: System, m: Message)
    ensures var t := Next(PressesOf(node), s, Receive(m));
            var pressed := m.node == node && !m.retained && m.payload == "PRESS";
            t.workers == s.workers +
              if pressed && m.action == "shutdown" then [Worker(Shutdown, |s.received|, Start)]
              else if pressed && m.action == "reboot" then [Worker(Reboot, |s.received|, Start)]
              else []
  {
    assert s.workers + [] == s.workers;
  }

  /** Every execution begins right after its own acknowledgement, and is of a live press for this node and
      its action. */
  lemma ExecutionsArePressed(node: string, steps: seq<Step>, j: nat)
    requires var s := After(PressesOf(node), INITIAL, steps); j < |s.log| && s.log[j].Began?
    ensures var s := After(PressesOf(node), INITIAL, steps);
            var e := s.log[j];
            && 0 < j && s.log[j - 1] == Acknowledged(e.worker, e.action)
            && e.worker < |s.workers| && s.workers[e.worker].source < |s.received|
            && var m := s.received[s.workers[e.worker].source];
               && m.node == node && !m.retained && m.payload == "PRESS"
               && m.action == if e.action.Shutdown? then "shutdown" else "reboot"
  {
    var accept := PressesOf(node);
    var s := After(accept, INITIAL, steps);
    Always(accept, steps);
    var i := Execution(s, j);
    StandsIn(s, i, 0);
    assert SourceOk(accept, s, s.log[j].worker);
  }

  lemma SourcesDiffer(accept: Filter, s: System, u: nat, v: nat)
    requires SourceInv(accept, s) && u < |s.workers| && v < |s.workers| && u != v
    ensures s.workers[u].source != s.workers[v].source
  {
  }

  /** Different executions come from different messages. */
  lemma ExecutionsFromDifferentMessages(accept: Filter, steps: seq<Step>, i: nat, j: nat)
    requires var s := After(accept, INITIAL, steps); i < j < |s.log| && s.log[i].Began? && s.log[j].Began?
    ensures var s := After(accept, INITIAL, steps);
            var u, v := s.log[i].worker, s.log[j].worker;
            u < |s.workers| && v < |s.workers| && s.workers[u].source != s.workers[v].source
  {
    Always(accept, steps);
    var s := After(accept, INITIAL, steps);
    var a := Execution(s, i);
    var b := Execution(s, j);
    CommandersDiffer(s, a, b);
    SourcesDiffer(accept, s, s.log[i].worker, s.log[j].worker);
  }

  // ------------------------------------------------------------------
  // What the retained state says
  // ------------------------------------------------------------------

  /** While a command is past its acknowledgement its report is retained; so while ``idle`` is, none is. */
  predicate StateIsTrue(s: System) {
    s.owner.Some? && s.owner.value < |s.workers| ==>
      var k := s.workers[s.owner.value];
      k.pc.Acknowledge? || s.state == Some(InProgress(k.action))
  }

  /** The step publishes ``idle`` although another command is past its acknowledgement. */
  predicate PublishesStaleIdle(s: System, step: Step) {
    && (step.Announce? || (step.Run? && step.worker < |s.workers| && s.workers[step.worker].pc.PublishIdle?))
    && s.owner.Some? && s.owner.value < |s.workers| && !s.workers[s.owner.value].pc.Acknowledge?
  }

  lemma StateNext(accept: Filter, s: System, step: Step)
    requires FlagInv(s) && StateIsTrue(s)
    ensures StateIsTrue(Next(accept, s, step)) <==> !PublishesStaleIdle(s, step)
  {
  }

  /** A step makes the retained state untrue exactly if it publishes ``idle`` late: clearing the flag and
      publishing are two steps, and another worker can take the flag between them. */
  lemma StateStaysTrue(accept: Filter, steps: seq<Step>, step: Step)
    requires StateIsTrue(After(accept, INITIAL, steps))
    ensures var s := After(accept, INITIAL, steps);
            StateIsTrue(Next(accept, s, step)) <==> !PublishesStaleIdle(s, step)
  {
    Always(accept, steps);
    StateNext(accept, After(accept, INITIAL, steps), step);
  }

  /** Without overlap the retained state is true, and no ``idle`` is about to be published over a command. */
  predicate QuietInv(s: System) {
    !s.overlapped ==> StateIsTrue(s) && (s.owner.Some? ==> !SomeAtIdle(s.workers))
  }

  lemma QuietRun(s: System, w: nat, ok: bool)
    requires FlagInv(s) && QuietInv(s) && w < |s.workers|
    ensures QuietInv(RunWorker(s, w, ok))
  {
    var t := RunWorker(s, w, ok);
    if t.owner.Some? && !t.overlapped {
      assert !SomeAtIdle(s.workers);
      forall v | 0 <= v < |t.workers|
        ensures !t.workers[v].pc.PublishIdle?
      {
        assert !s.workers[v].pc.PublishIdle?;
      }
    }
  }

  lemma QuietKept(accept: Filter, s: System, step: Step)
    requires FlagInv(s) && QuietInv(s)
    ensures QuietInv(Next(accept, s, step))
  {
    match step
    case Run(w, ok) =>
      if w < |s.workers| {
        QuietRun(s, w, ok);
      }
    case Receive(_) => assert SomeAtIdle(Next(accept, s, step).workers) ==> SomeAtIdle(s.workers);
    case Announce =>
  }

  /** If no command took the flag while another had yet to publish its ``idle``, and the announcement came
      before any command, the retained state is true. */
  lemma {:induction false} StateTrueWithoutOverlap(accept: Filter, steps: seq<Step>)
    ensures QuietInv(After(accept, INITIAL, steps))
  {
    if steps != [] {
      var front := steps[..|steps| - 1];
      StateTrueWithoutOverlap(accept, front);
      Always(accept, front);
      QuietKept(accept, After(accept, INITIAL, front), steps[|steps| - 1]);
    }
  }

  // ------------------------------------------------------------------
  // Whether a press is accepted while ``idle`` is retained
  // ------------------------------------------------------------------

  /** A consumer that sees ``idle`` has its press accepted: no command has the flag. */
  predicate IdleMeansFree(s: System) {
    s.state == Some(Idle) ==> !s.busy
  }

  predicate RunsAt(s: System, step: Step, pc: Pc) {
    step.Run? && step.worker < |s.workers| && s.workers[step.worker].pc == pc
  }

  predicate PublishesIdle(s: System, step: Step) {
    step.Announce? || RunsAt(s, step, PublishIdle)
  }

  predicate TakesFlag(s: System, step: Step) {
    RunsAt(s, step, Start) && !s.busy
  }

  /** A step ends it exactly by taking the flag while ``idle`` is retained or publishing ``idle`` while the flag is up;
      a step restores it exactly by acknowledging or by clearing the flag. */
  lemma IdleMeansFreeNext(accept: Filter, steps: seq<Step>, step: Step)
    ensures var s := After(accept, INITIAL, steps);
            IdleMeansFree(Next(accept, s, step)) <==>
              if IdleMeansFree(s)
              then !(TakesFlag(s, step) && s.state == Some(Idle)) && !(PublishesIdle(s, step) && s.busy)
              else RunsAt(s, step, Acknowledge) || RunsAt(s, step, ClearBusy)
  {
    Always(accept, steps);
    var s := After(accept, INITIAL, steps);
    if step.Run? && step.worker < |s.workers| {
      assert Owns(s.workers[step.worker].pc) <==> s.owner == Some(step.worker);
    }
  }

  /** The flag is up and ``idle`` is still retained, as its owner has not yet published its report. */
  predicate AboutToReport(s: System) {
    && s.state == Some(Idle)
    && exists w :: 0 <= w < |s.workers| && s.workers[w].pc.Acknowledge?
  }

  /** Without overlap a press is refused in spite of ``idle`` exactly between taking the flag and reporting it. */
  lemma IdleMeansFreeWithoutOverlap(accept: Filter, steps: seq<Step>)
    requires !After(accept, INITIAL, steps).overlapped
    ensures var s := After(accept, INITIAL, steps); IdleMeansFree(s) <==> !AboutToReport(s)
  {
    Always(accept, steps);
    StateTrueWithoutOverlap(accept, steps);
    var s := After(accept, INITIAL, steps);
    if AboutToReport(s) {
      var w :| 0 <= w < |s.workers| && s.workers[w].pc.Acknowledge?;
      assert Owns(s.workers[w].pc);
    }
    if !IdleMeansFree(s) {
      assert Owns(s.workers[s.owner.value].pc);
    }
  }

  /** With overlap or without: a press is refused in spite of ``idle`` only then, or while a command past its report
      has been overtaken by a late ``idle``. */
  lemma RefusedInSpiteOfIdle(accept: Filter, steps: seq<Step>)
    ensures var s := After(accept, INITIAL, steps);
            !IdleMeansFree(s) <==> AboutToReport(s) || (s.state == Some(Idle) && !StateIsTrue(s))
  {
    Always(accept, steps);
    var s := After(accept, INITIAL, steps);
    if AboutToReport(s) {
      var w :| 0 <= w < |s.workers| && s.workers[w].pc.Acknowledge?;
      assert Owns(s.workers[w].pc);
    }
    if !IdleMeansFree(s) {
      assert Owns(s.workers[s.owner.value].pc);
    }
  }

  /** One worker is enough: it has taken the flag and not yet published. */
  lemma IdleWhileTaken(accept: Filter, m: Message, ok: bool)
    requires accept(m).Some?
    ensures var s := After(accept, INITIAL, [Announce, Receive(m), Run(0, ok)]);
            s.state == Some(Idle) && s.busy && !s.overlapped && |s.workers| == 1
  {
    var steps := [Announce, Receive(m), Run(0, ok)];
    assert After(accept, INITIAL, steps[..0]) == INITIAL;
    var s1 := INITIAL.(state := Some(Idle));
    var s2 := s1.(received := [m], workers := [Worker(accept(m).value, 0, Start)]);
    Then(accept, steps, 0, INITIAL, s1);
    Then(accept, steps, 1, s1, s2);
    Then(accept, steps, 2, s2, Next(accept, s2, steps[2]));
    assert steps[..3] == steps;
  }

  /** Steps one after the other take effect one after the other. */
  lemma {:induction false} AfterBoth(accept: Filter, s: System, a: seq<Step>, b: seq<Step>)
    ensures After(accept, s, a + b) == After(accept, After(accept, s, a), b)
  {
    if b == [] {
      assert a + b == a;
    } else {
      var front := b[..|b| - 1];
      assert (a + b)[..|a + b| - 1] == a + front;
      AfterBoth(accept, s, a, front);
    }
  }

  function Repeat(step: Step, n: nat): (steps: seq<Step>)
    ensures |steps| == n
  {
    if n == 0 then [] else Repeat(step, n - 1) + [step]
  }

  /** Where a worker and the flag are after `n` of its actions without another's. */
  function PlaceAfter(pc: Pc, busy: bool, ok: bool, n: nat): (Pc, bool) {
    if n == 0 then (pc, busy) else NextPlace(PlaceAfter(pc, busy, ok, n - 1), ok)
  }

  function NextPlace(place: (Pc, bool), ok: bool): (Pc, bool) {
    (NextPc(place.0, place.1, ok), if place.0.ClearBusy? then false else place.1 || place.0.Start?)
  }

  /** The place after the actions of which `places` holds the places in between. */
  lemma {:induction false} Places(pc: Pc, busy: bool, ok: bool, places: seq<(Pc, bool)>)
    requires places != [] && places[0] == (pc, busy)
    requires forall i :: 0 < i < |places| ==> places[i] == NextPlace(places[i - 1], ok)
    ensures PlaceAfter(pc, busy, ok, |places| - 1) == places[|places| - 1]
  {
    if |places| > 1 {
      Places(pc, busy, ok, places[..|places| - 1]);
    }
  }

  /** Only the place of the worker that acts changes, and the flag if it takes or clears it. */
  ghost predicate Placed(s: System, t: System, w: nat, place: (Pc, bool)) {
    && w < |s.workers| == |t.workers| && t.workers[w].pc == place.0 && t.busy == place.1
    && forall v :: 0 <= v < |s.workers| && v != w ==> t.workers[v] == s.workers[v]
  }

  lemma RunsOnce(s: System, t: System, w: nat, ok: bool, n: nat)
    requires w < |s.workers| && Placed(s, t, w, PlaceAfter(s.workers[w].pc, s.busy, ok, n))
    ensures Placed(s, RunWorker(t, w, ok), w, PlaceAfter(s.workers[w].pc, s.busy, ok, n + 1))
  {
  }

  lemma AfterRepeat(accept: Filter, s: System, step: Step, n: nat)
    ensures After(accept, s, Repeat(step, n + 1)) == Next(accept, After(accept, s, Repeat(step, n)), step)
  {
    assert Repeat(step, n + 1)[..n] == Repeat(step, n);
  }

  lemma {:induction false} RunsAlone(accept: Filter, s: System, w: nat, ok: bool, n: nat)
    requires w < |s.workers|
    ensures Placed(s, After(accept, s, Repeat(Run(w, ok), n)), w, PlaceAfter(s.workers[w].pc, s.busy, ok, n))
  {
    if n > 0 {
      RunsAlone(accept, s, w, ok, n - 1);
      AfterRepeat(accept, s, Run(w, ok), n - 1);
      RunsOnce(s, After(accept, s, Repeat(Run(w, ok), n - 1)), w, ok, n - 1);
    }
  }

  /** Of two queued commands one fails and gives up the flag, the other succeeds, then the first publishes ``idle``. */
  function LateIdle(m: Message, n: nat, k: nat): seq<Step> {
    [Receive(m)] + ([Receive(m)] + FailsFirst(n, k))
  }

  function FailsFirst(n: nat, k: nat): seq<Step> {
    Repeat(Run(0, false), n) + SucceedsThen(k)
  }

  function SucceedsThen(k: nat): seq<Step> {
    Repeat(Run(1, true), k) + [Run(0, false)]
  }

  predicate IdleThoughHalting(s: System) {
    s.state == Some(Idle) && s.busy && |s.workers| == 2 && s.workers[1].pc.Succeeded?
  }

  lemma AfterOne(accept: Filter, s: System, step: Step)
    ensures After(accept, s, [step]) == Next(accept, s, step)
  {
    assert [step][..0] == [];
  }

  lemma FirstPublishes(accept: Filter, s: System)
    requires |s.workers| == 2 && s.busy && s.workers[0].pc.PublishIdle? && s.workers[1].pc.Succeeded?
    ensures IdleThoughHalting(Next(accept, s, Run(0, false)))
  {
  }

  lemma SecondSucceeds(accept: Filter, s: System, k: nat)
    requires |s.workers| == 2 && !s.busy && s.workers[0].pc.PublishIdle? && s.workers[1].pc.Start?
    requires PlaceAfter(Start, false, true, k) == (Succeeded, true)
    ensures IdleThoughHalting(After(accept, s, SucceedsThen(k)))
  {
    var succeeds := Repeat(Run(1, true), k);
    RunsAlone(accept, s, 1, true, k);
    AfterBoth(accept, s, succeeds, [Run(0, false)]);
    AfterOne(accept, After(accept, s, succeeds), Run(0, false));
    FirstPublishes(accept, After(accept, s, succeeds));
  }

  lemma FirstFails(accept: Filter, s: System, n: nat, k: nat)
    requires |s.workers| == 2 && !s.busy && s.workers[0].pc.Start? && s.workers[1].pc.Start?
    requires PlaceAfter(Start, false, false, n) == (PublishIdle, false)
    requires PlaceAfter(Start, false, true, k) == (Succeeded, true)
    ensures IdleThoughHalting(After(accept, s, FailsFirst(n, k)))
  {
    var fails := Repeat(Run(0, false), n);
    RunsAlone(accept, s, 0, false, n);
    AfterBoth(accept, s, fails, SucceedsThen(k));
    SecondSucceeds(accept, After(accept, s, fails), k);
  }

  lemma LateIdleHalts(accept: Filter, m: Message, n: nat, k: nat)
    requires accept(m).Some?
    requires PlaceAfter(Start, false, false, n) == (PublishIdle, false)
    requires PlaceAfter(Start, false, true, k) == (Succeeded, true)
    ensures IdleThoughHalting(After(accept, INITIAL, LateIdle(m, n, k)))
  {
    var receive := Receive(m);
    var one := Next(accept, INITIAL, receive);
    AfterOne(accept, INITIAL, receive);
    AfterBoth(accept, INITIAL, [receive], [receive] + FailsFirst(n, k));
    AfterOne(accept, one, receive);
    AfterBoth(accept, one, [receive], FailsFirst(n, k));
    FirstFails(accept, Next(accept, one, receive), n, k);
  }

  /** So ``idle`` can be retained while the host is going down and presses are rejected. */
  lemma IdleWhileHalting(accept: Filter, m: Message)
    requires accept(m).Some?
    ensures exists steps: seq<Step> :: |steps| == 12 && IdleThoughHalting(After(accept, INITIAL, steps))
  {
    var n, k := ActionsOfBoth();
    LateIdleHalts(accept, m, n, k);
    assert |LateIdle(m, n, k)| == 12;
  }

  /** A command fails in five actions and succeeds in four. */
  lemma ActionsOfBoth() returns (n: nat, k: nat)
    ensures n + k == 9
    ensures PlaceAfter(Start, false, false, n) == (PublishIdle, false)
    ensures PlaceAfter(Start, false, true, k) == (Succeeded, true)
  {
    var fails := [(Start, false), (Acknowledge, true), (Execute, true), (Executing, true), (ClearBusy, true),
                  (PublishIdle, false)];
    var succeeds := [(Start, false), (Acknowledge, true), (Execute, true), (Executing, true), (Succeeded, true)];
    Places(Start, false, false, fails);
    Places(Start, false, true, succeeds);
    n, k := |fails| - 1, |succeeds| - 1;
  }

  lemma Then(accept: Filter, steps: seq<Step>, n: nat, s: System, t: System)
    requires n < |steps| && s == After(accept, INITIAL, steps[..n]) && t == Next(accept, s, steps[n])
    ensures t == After(accept, INITIAL, steps[..n + 1])
  {
    assert steps[..n + 1][..n] == steps[..n];
  }
}
