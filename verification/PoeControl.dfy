/** PoE commands on the ports of switches: workers that toggle and power-cycle ports by SNMP SET
    (src/sensors2mqtt/collector/snmp_control.py).

    A run is a sequence of steps: commands arriving, one worker doing its next action, the poll thread
    overwriting a field, time passing, the stop event. What SNMP answers and how far the clock has
    moved are part of the step, so a statement about every sequence of steps is one about every
    interleaving. Any number of workers may run at once. */
module PoeControl {
  import opened Wrappers

  // ------------------------------------------------------------------
  // State
  // ------------------------------------------------------------------

  /** Milliseconds of the monotonic clock. */
  type Time = nat

  const OFF_TIMEOUT: Time := 30_000
  const ON_TIMEOUT: Time := 60_000
  const POLL_WAIT: Time := 2_000

  datatype PortId = PortId(node: string, port: nat)

  datatype Command = Toggle(payload: string) | Cycle | Force(payload: string)

  /** What a command does that can be seen outside: polls, SET attempts, publishing, giving up to stop. */
  datatype Act =
    | Poll
    | Set(value: int, ok: bool)
    | Stopped
    | State(on: bool)
    | Availability

  /** How the part of a power cycle before the closing poll went. */
  datatype Exit =
    | StoppedOff(offPolls: nat)
    | EnableFailed(offPolls: nat)
    | StoppedOn(offPolls: nat, onPolls: nat)
    | Completed(offPolls: nat, onPolls: nat)

  /** How a whole command went. */
  datatype Outcome =
    | Rejected                        // a toggle with neither ON nor OFF
    | ToggleFailed(value: int)
    | Toggled(value: int, on: bool)
    | DisableFailed
    | Cycled(exit: Exit, on: bool)

  /** Where a worker is in its handler. The poll counts are kept for the proof only. */
  datatype Pc =
    | Start(cmd: Command)
    | Decide(payload: string)
    | ToggleSet(value: int)
    | TogglePoll(value: int)
    | ToggleState(value: int)
    | ToggleAvailability(value: int, on: bool)
    | PreCheck
    | Disable
    | OffHead(deadline: Time, polls: nat)
    | OffPoll(deadline: Time, polls: nat)
    | OffCheck(deadline: Time, polls: nat)
    | OffWait(deadline: Time, polls: nat, until: Time)
    | Enable(offPolls: nat)
    | OnHead(deadline: Time, offPolls: nat, polls: nat)
    | OnPoll(deadline: Time, offPolls: nat, polls: nat)
    | OnCheck(deadline: Time, offPolls: nat, polls: nat)
    | OnWait(deadline: Time, offPolls: nat, polls: nat, until: Time)
    | FinalPoll(exit: Exit)
    | FinalState(exit: Exit)
    | FinalAvailability(exit: Exit, on: bool)
    | Release(outcome: Outcome)
    | Done

  datatype Event = Event(worker: nat, act: Act)

  datatype Finished = Finished(worker: nat, outcome: Outcome)

  /** `log`, `finished` and `owner` record history; no action reads them. */
  datatype Port = Port(
    admin: int, detect: int, link: int, force: bool, busy: bool,
    log: seq<Event>, finished: seq<Finished>, owner: Option<nat>)

  datatype Worker = Worker(port: PortId, pc: Pc)

  datatype System = System(ports: map<PortId, Port>, workers: seq<Worker>, now: Time, stop: bool)

  // ------------------------------------------------------------------
  // Steps
  // ------------------------------------------------------------------

  datatype Reading = Reading(admin: int, detect: int, link: int)

  datatype Field = Admin | Detect | Link

  datatype Step =
    | Message(id: PortId, cmd: Command)
    | Run(worker: nat, ok: bool, reading: Option<Reading>)  // what a SET and a poll would answer
    | Walk(id: PortId, field: Field, value: int)             // one value the poll thread stores
    | Tick(elapsed: Time)
    | Stop

  function PoeIsOn(p: Port): bool {
    p.admin == 1
  }

  /** What the next action at `pc` does that can be seen outside, if anything. */
  function ActOf(p: Port, pc: Pc, stop: bool, ok: bool): Option<Act> {
    match pc
    case ToggleSet(v) => Some(Set(v, ok))
    case Disable => Some(Set(2, ok))
    case Enable(_) => Some(Set(1, ok))
    case TogglePoll(_) => Some(Poll)
    case PreCheck => Some(Poll)
    case OffPoll(_, _) => Some(Poll)
    case OnPoll(_, _, _) => Some(Poll)
    case FinalPoll(_) => Some(Poll)
    case ToggleState(_) => Some(State(PoeIsOn(p)))
    case FinalState(_) => Some(State(PoeIsOn(p)))
    case ToggleAvailability(_, _) => Some(Availability)
    case FinalAvailability(_, _) => Some(Availability)
    case OffWait(_, _, _) => if stop then Some(Stopped) else None
    case OnWait(_, _, _, _) => if stop then Some(Stopped) else None
    case _ => None
  }

  /** Where it goes. */
  function NextPc(p: Port, pc: Pc, now: Time, stop: bool, ok: bool): Pc {
    match pc
    case Start(Force(_)) => Done
    case Start(Toggle(payload)) => if p.busy then Done else Decide(payload)
    case Start(Cycle) => if p.busy then Done else PreCheck
    case Decide(payload) =>
      if payload == "ON" then ToggleSet(1) else if payload == "OFF" then ToggleSet(2) else Release(Rejected)
    case ToggleSet(v) => if ok then TogglePoll(v) else Release(ToggleFailed(v))
    case TogglePoll(v) => ToggleState(v)
    case ToggleState(v) => ToggleAvailability(v, PoeIsOn(p))
    case ToggleAvailability(v, on) => Release(Toggled(v, on))
    case PreCheck => Disable
    case Disable => if ok then OffHead(now + OFF_TIMEOUT, 0) else Release(DisableFailed)
    case OffHead(d, n) => if now < d then OffPoll(d, n) else Enable(n)
    case OffPoll(d, n) => OffCheck(d, n + 1)
    case OffCheck(d, n) => if p.detect == 1 && p.link == 2 then Enable(n) else OffWait(d, n, now + POLL_WAIT)
    case OffWait(d, n, until) =>
      if stop then FinalPoll(StoppedOff(n)) else if now < until then pc else OffHead(d, n)
    case Enable(n) => if ok then OnHead(now + ON_TIMEOUT, n, 0) else FinalPoll(EnableFailed(n))
    case OnHead(d, n, m) => if now < d then OnPoll(d, n, m) else FinalPoll(Completed(n, m))
    case OnPoll(d, n, m) => OnCheck(d, n, m + 1)
    case OnCheck(d, n, m) => if p.detect == 3 then FinalPoll(Completed(n, m)) else OnWait(d, n, m, now + POLL_WAIT)
    case OnWait(d, n, m, until) =>
      if stop then FinalPoll(StoppedOn(n, m)) else if now < until then pc else OnHead(d, n, m)
    case FinalPoll(e) => FinalState(e)
    case FinalState(e) => FinalAvailability(e, PoeIsOn(p))
    case FinalAvailability(e, on) => Release(Cycled(e, on))
    case Release(_) => Done
    case Done => Done
  }

  /** ``poll_port_state`` stores the reading if all three GETs answered. */
  function Polled(p: Port, r: Option<Reading>): Port {
    if r.Some? then p.(admin := r.value.admin, detect := r.value.detect, link := r.value.link) else p
  }

  /** What it stores in the port. */
  function Effect(p: Port, w: nat, pc: Pc, act: Option<Act>, r: Option<Reading>): Port {
    if pc.Start? then
      if pc.cmd.Force? then p.(force := pc.cmd.payload == "ON")
      else if p.busy then p
      else p.(busy := true, owner := Some(w))
    else if pc.Release? then p.(busy := false, owner := None, finished := p.finished + [Finished(w, pc.outcome)])
    else if act == Some(Poll) then Polled(p, r)
    else p
  }

  /** The port after the next action of worker `w` at `pc`. */
  function NextPort(p: Port, w: nat, pc: Pc, stop: bool, ok: bool, r: Option<Reading>): Port {
    var act := ActOf(p, pc, stop, ok);
    var q := Effect(p, w, pc, act, r);
    if act.Some? then q.(log := q.log + [Event(w, act.value)]) else q
  }

  function Store(p: Port, field: Field, value: int): Port {
    match field
    case Admin => p.(admin := value)
    case Detect => p.(detect := value)
    case Link => p.(link := value)
  }

  function Next(s: System, step: Step): System {
    match step
    case Message(id, cmd) =>  // ports no switch has are ignored
      if id in s.ports then s.(workers := s.workers + [Worker(id, Start(cmd))]) else s
    case Run(w, ok, r) =>
      if w < |s.workers| && s.workers[w].port in s.ports then
        var id := s.workers[w].port;
        var p, pc := s.ports[id], s.workers[w].pc;
        s.(ports := s.ports[id := NextPort(p, w, pc, s.stop, ok, r)],
           workers := s.workers[w := Worker(id, NextPc(p, pc, s.now, s.stop, ok))])
      else s
    case Walk(id, field, value) =>
      if id in s.ports then s.(ports := s.ports[id := Store(s.ports[id], field, value)]) else s
    case Tick(elapsed) => s.(now := s.now + elapsed)
    case Stop => s.(stop := true)
  }

  function Initial(ids: set<PortId>): System {
    System(map id | id in ids :: Port(0, 0, 0, false, false, [], [], None), [], 0, false)
  }

  function After(s: System, steps: seq<Step>): System {
    if steps == [] then s else Next(After(s, steps[..|steps| - 1]), steps[|steps| - 1])
  }

  // ------------------------------------------------------------------
  // What commands do as a whole
  // ------------------------------------------------------------------

  /** A cycle up to and including `n` polls of its off phase. */
  function OffActs(n: nat): seq<Act> {
    if n == 0 then [Poll] + [Set(2, true)] else OffActs(n - 1) + [Poll]
  }

  /** A cycle up to and including `m` polls of its on phase. */
  function OnActs(n: nat, m: nat): seq<Act> {
    if m == 0 then OffActs(n) + [Set(1, true)] else OnActs(n, m - 1) + [Poll]
  }

  function ExitActs(e: Exit): seq<Act> {
    match e
    case StoppedOff(n) => OffActs(n) + [Stopped]
    case EnableFailed(n) => OffActs(n) + [Set(1, false)]
    case StoppedOn(n, m) => OnActs(n, m) + [Stopped]
    case Completed(n, m) => OnActs(n, m)
  }

  /** Everything a finished command did, in order. */
  function Block(o: Outcome): seq<Act> {
    match o
    case Rejected => []
    case ToggleFailed(v) => [Set(v, false)]
    case Toggled(v, on) => [Set(v, true)] + [Poll] + [State(on)] + [Availability]
    case DisableFailed => [Poll] + [Set(2, false)]
    case Cycled(e, on) => ExitActs(e) + [Poll] + [State(on)] + [Availability]
  }

  /** What a command has done when it is at `pc`. */
  function Progress(pc: Pc): seq<Act> {
    match pc
    case Start(_) => []
    case Decide(_) => []
    case ToggleSet(_) => []
    case TogglePoll(v) => [Set(v, true)]
    case ToggleState(v) => [Set(v, true)] + [Poll]
    case ToggleAvailability(v, on) => [Set(v, true)] + [Poll] + [State(on)]
    case PreCheck => []
    case Disable => [Poll]
    case OffHead(_, n) => OffActs(n)
    case OffPoll(_, n) => OffActs(n)
    case OffCheck(_, n) => OffActs(n)
    case OffWait(_, n, _) => OffActs(n)
    case Enable(n) => OffActs(n)
    case OnHead(_, n, m) => OnActs(n, m)
    case OnPoll(_, n, m) => OnActs(n, m)
    case OnCheck(_, n, m) => OnActs(n, m)
    case OnWait(_, n, m, _) => OnActs(n, m)
    case FinalPoll(e) => ExitActs(e)
    case FinalState(e) => ExitActs(e) + [Poll]
    case FinalAvailability(e, on) => ExitActs(e) + [Poll] + [State(on)]
    case Release(o) => Block(o)
    case Done => []
  }

  function By(w: nat, acts: seq<Act>): seq<Event> {
    if acts == [] then [] else By(w, acts[..|acts| - 1]) + [Event(w, acts[|acts| - 1])]
  }

  function Blocks(fs: seq<Finished>): seq<Event> {
    if fs == [] then []
    else Blocks(fs[..|fs| - 1]) + By(fs[|fs| - 1].worker, Block(fs[|fs| - 1].outcome))
  }

  // ------------------------------------------------------------------
  // Invariant
  // ------------------------------------------------------------------

  /** Inside a toggle or cycle, between taking the busy flag and clearing it. */
  predicate Owns(pc: Pc) {
    !pc.Start? && !pc.Done?
  }

  const MAX_OFF_POLLS := 15
  const MAX_ON_POLLS := 30

  predicate ExitOk(e: Exit, stop: bool) {
    && e.offPolls <= MAX_OFF_POLLS
    && (e.StoppedOn? || e.Completed? ==> e.onPolls <= MAX_ON_POLLS)
    && (e.StoppedOff? || e.StoppedOn? ==> stop)
  }

  predicate OutcomeOk(o: Outcome, stop: bool) {
    match o
    case Cycled(e, _) => ExitOk(e, stop)
    case ToggleFailed(v) => v == 1 || v == 2
    case Toggled(v, _) => v == 1 || v == 2
    case _ => true
  }

  /** Each poll of a phase but the last was followed by a wait, so `polls` of them took this long. */
  predicate Spent(deadline: Time, timeout: Time, polls: nat, now: Time) {
    deadline + POLL_WAIT * polls <= now + timeout
  }

  predicate PcOk(pc: Pc, now: Time, stop: bool) {
    match pc
    case ToggleSet(v) => v == 1 || v == 2
    case TogglePoll(v) => v == 1 || v == 2
    case ToggleState(v) => v == 1 || v == 2
    case ToggleAvailability(v, _) => v == 1 || v == 2
    case OffHead(d, n) => Spent(d, OFF_TIMEOUT, n, now) && n <= MAX_OFF_POLLS
    case OffPoll(d, n) => Spent(d, OFF_TIMEOUT, n, now) && n < MAX_OFF_POLLS
    case OffCheck(d, n) => 0 < n <= MAX_OFF_POLLS && Spent(d, OFF_TIMEOUT, n - 1, now)
    case OffWait(d, n, until) => 0 < n <= MAX_OFF_POLLS && Spent(d, OFF_TIMEOUT, n, until)
    case Enable(n) => n <= MAX_OFF_POLLS
    case OnHead(d, n, m) => Spent(d, ON_TIMEOUT, m, now) && n <= MAX_OFF_POLLS && m <= MAX_ON_POLLS
    case OnPoll(d, n, m) => Spent(d, ON_TIMEOUT, m, now) && n <= MAX_OFF_POLLS && m < MAX_ON_POLLS
    case OnCheck(d, n, m) => n <= MAX_OFF_POLLS && 0 < m <= MAX_ON_POLLS && Spent(d, ON_TIMEOUT, m - 1, now)
    case OnWait(d, n, m, until) => n <= MAX_OFF_POLLS && 0 < m <= MAX_ON_POLLS && Spent(d, ON_TIMEOUT, m, until)
    case FinalPoll(e) => ExitOk(e, stop)
    case FinalState(e) => ExitOk(e, stop)
    case FinalAvailability(e, _) => ExitOk(e, stop)
    case Release(o) => OutcomeOk(o, stop)
    case _ => true
  }

  /** The log is whole blocks of finished commands, then what the owner (if any) has done so far. */
  predicate PortOk(p: Port, stop: bool) {
    && (p.busy <==> p.owner.Some?)
    && (forall i :: 0 <= i < |p.finished| ==> OutcomeOk(p.finished[i].outcome, stop))
  }

  predicate Accounted(p: Port, w: nat, pc: Pc) {
    p.log == Blocks(p.finished) + By(w, Progress(pc))
  }

  // ------------------------------------------------------------------
  // One action keeps the accounts of its port
  // ------------------------------------------------------------------

  /** What worker `w` at `pc` and its port have in common. */
  ghost predicate Consistent(p: Port, w: nat, pc: Pc, now: Time, stop: bool) {
    && PortOk(p, stop) && PcOk(pc, now, stop)
    && (Owns(pc) <==> p.owner == Some(w))
    && (p.owner.None? ==> p.log == Blocks(p.finished))
    && (p.owner == Some(w) ==> Accounted(p, w, pc))
  }

  lemma ByAppend(w: nat, acts: seq<Act>, act: Act)
    ensures By(w, acts + [act]) == By(w, acts) + [Event(w, act)]
  {
    assert (acts + [act])[..|acts|] == acts;
  }

  lemma StaysInside(p: Port, pc: Pc, now: Time, stop: bool, ok: bool)
    requires Owns(pc) && !pc.Release?
    ensures Owns(NextPc(p, pc, now, stop, ok))
  {
  }

  /** What an action logs is what it adds to the progress of its command. */
  ghost predicate Progresses(p: Port, pc: Pc, now: Time, stop: bool, ok: bool) {
    var before, after := Progress(pc), Progress(NextPc(p, pc, now, stop, ok));
    match ActOf(p, pc, stop, ok)
    case Some(act) => after == before + [act]
    case None => after == before
  }

  predicate InToggle(pc: Pc) {
    pc.Decide? || pc.ToggleSet? || pc.TogglePoll? || pc.ToggleState? || pc.ToggleAvailability?
  }

  predicate InOffPhase(pc: Pc) {
    pc.PreCheck? || pc.Disable? || pc.OffHead? || pc.OffPoll? || pc.OffCheck? || pc.OffWait? || pc.Enable?
  }

  lemma ToggleProgresses(p: Port, pc: Pc, now: Time, stop: bool, ok: bool)
    requires InToggle(pc)
    ensures Progresses(p, pc, now, stop, ok)
  {
    if pc.ToggleSet? {
      assert [] + [Set(pc.value, ok)] == [Set(pc.value, ok)];
    }
  }

  lemma OffProgresses(p: Port, pc: Pc, now: Time, stop: bool, ok: bool)
    requires InOffPhase(pc)
    ensures Progresses(p, pc, now, stop, ok)
  {
    if pc.PreCheck? {
      assert [] + [Poll] == [Poll];
    }
  }

  lemma OnProgresses(p: Port, pc: Pc, now: Time, stop: bool, ok: bool)
    requires Owns(pc) && !pc.Release? && !InToggle(pc) && !InOffPhase(pc)
    ensures Progresses(p, pc, now, stop, ok)
  {
  }

  lemma ActionProgress(p: Port, pc: Pc, now: Time, stop: bool, ok: bool)
    requires Owns(pc) && !pc.Release?
    ensures Progresses(p, pc, now, stop, ok)
  {
    if InToggle(pc) {
      ToggleProgresses(p, pc, now, stop, ok);
    } else if InOffPhase(pc) {
      OffProgresses(p, pc, now, stop, ok);
    } else {
      OnProgresses(p, pc, now, stop, ok);
    }
  }

  lemma NextPcOk(p: Port, pc: Pc, now: Time, stop: bool, ok: bool)
    requires PcOk(pc, now, stop)
    ensures PcOk(NextPc(p, pc, now, stop, ok), now, stop)
  {
  }

  /** Of what an action does to a port: the owner logs, and nobody's accounts are touched otherwise. */
  lemma StepLogs(p: Port, w: nat, pc: Pc, stop: bool, ok: bool, r: Option<Reading>)
    requires Owns(pc) && !pc.Release?
    ensures var q := NextPort(p, w, pc, stop, ok, r);
            && q.owner == p.owner && q.busy == p.busy && q.finished == p.finished
            && match ActOf(p, pc, stop, ok)
               case Some(act) => q.log == p.log + [Event(w, act)]
               case None => q.log == p.log
  {
  }

  lemma StepAccounted(p: Port, w: nat, pc: Pc, now: Time, stop: bool, ok: bool, r: Option<Reading>)
    requires Owns(pc) && !pc.Release? && Accounted(p, w, pc)
    ensures Accounted(NextPort(p, w, pc, stop, ok, r), w, NextPc(p, pc, now, stop, ok))
  {
    StepLogs(p, w, pc, stop, ok, r);
    ActionProgress(p, pc, now, stop, ok);
    match ActOf(p, pc, stop, ok)
    case Some(act) =>
      ByAppend(w, Progress(pc), act);
      Regroup(Blocks(p.finished), By(w, Progress(pc)), [Event(w, act)]);
    case None =>
  }

  lemma Regroup(a: seq<Event>, b: seq<Event>, c: seq<Event>)
    ensures (a + b) + c == a + (b + c)
  {
  }

  lemma ReleaseConsistent(p: Port, w: nat, pc: Pc, now: Time, stop: bool, ok: bool, r: Option<Reading>)
    requires Consistent(p, w, pc, now, stop) && pc.Release?
    ensures Consistent(NextPort(p, w, pc, stop, ok, r), w, NextPc(p, pc, now, stop, ok), now, stop)
  {
    var q := NextPort(p, w, pc, stop, ok, r);
    assert q.finished[..|p.finished|] == p.finished;
  }

  lemma StepConsistent(p: Port, w: nat, pc: Pc, now: Time, stop: bool, ok: bool, r: Option<Reading>)
    requires Consistent(p, w, pc, now, stop)
    ensures Consistent(NextPort(p, w, pc, stop, ok, r), w, NextPc(p, pc, now, stop, ok), now, stop)
  {
    NextPcOk(p, pc, now, stop, ok);
    if pc.Release? {
      ReleaseConsistent(p, w, pc, now, stop, ok, r);
    } else if Owns(pc) {
      StepLogs(p, w, pc, stop, ok, r);
      StaysInside(p, pc, now, stop, ok);
      StepAccounted(p, w, pc, now, stop, ok, r);
    }
  }

  /** A worker that does not own a port leaves whoever does alone. */
  lemma StepOfOther(p: Port, w: nat, pc: Pc, stop: bool, ok: bool, r: Option<Reading>)
    requires !Owns(pc) && p.owner.Some? && (p.busy <==> p.owner.Some?)
    ensures var q := NextPort(p, w, pc, stop, ok, r);
            q.owner == p.owner && q.log == p.log && q.finished == p.finished
  {
  }

  // ------------------------------------------------------------------
  // Every run keeps the accounts of every port
  // ------------------------------------------------------------------

  ghost predicate WorkerOk(s: System, w: nat)
    requires w < |s.workers|
  {
    var worker := s.workers[w];
    worker.port in s.ports && Consistent(s.ports[worker.port], w, worker.pc, s.now, s.stop)
  }

  /** The log is whole blocks of finished commands, then what the owner (if any) has done so far. */
  ghost predicate Serial(s: System, id: PortId)
    requires id in s.ports
  {
    var p := s.ports[id];
    && PortOk(p, s.stop)
    && match p.owner
       case None => p.log == Blocks(p.finished)
       case Some(w) => w < |s.workers| && s.workers[w].port == id
  }

  ghost predicate Invariant(s: System) {
    && (forall w :: 0 <= w < |s.workers| ==> WorkerOk(s, w))
    && (forall id :: id in s.ports ==> Serial(s, id))
  }

  lemma OtherConsistent(
      p: Port, w: nat, pc: Pc, v: nat, pcv: Pc, now: Time, stop: bool, ok: bool, r: Option<Reading>)
    requires Consistent(p, w, pc, now, stop) && Consistent(p, v, pcv, now, stop) && v != w
    ensures Consistent(NextPort(p, w, pc, stop, ok, r), v, pcv, now, stop)
  {
    StepConsistent(p, w, pc, now, stop, ok, r);
    if p.owner == Some(v) {
      StepOfOther(p, w, pc, stop, ok, r);
    } else if Owns(pc) && !pc.Release? {
      StepLogs(p, w, pc, stop, ok, r);
    }
  }

  lemma RunKeepsWorker(s: System, w: nat, ok: bool, r: Option<Reading>, v: nat)
    requires Invariant(s) && w < |s.workers| && v < |s.workers|
    ensures WorkerOk(Next(s, Run(w, ok, r)), v)
  {
    assert WorkerOk(s, w) && WorkerOk(s, v);
    var id, pc := s.workers[w].port, s.workers[w].pc;
    if v == w {
      StepConsistent(s.ports[id], w, pc, s.now, s.stop, ok, r);
    } else if s.workers[v].port == id {
      OtherConsistent(s.ports[id], w, pc, v, s.workers[v].pc, s.now, s.stop, ok, r);
    }
  }

  lemma StepOwner(p: Port, w: nat, pc: Pc, stop: bool, ok: bool, r: Option<Reading>)
    ensures var q := NextPort(p, w, pc, stop, ok, r);
            q.owner == p.owner || q.owner == None || q.owner == Some(w)
  {
  }

  lemma RunKeepsPort(s: System, w: nat, ok: bool, r: Option<Reading>, id: PortId)
    requires Invariant(s) && w < |s.workers| && id in s.ports
    ensures Serial(Next(s, Run(w, ok, r)), id)
  {
    assert WorkerOk(s, w) && Serial(s, id);
    var pc := s.workers[w].pc;
    if id == s.workers[w].port {
      StepConsistent(s.ports[id], w, pc, s.now, s.stop, ok, r);
      StepOwner(s.ports[id], w, pc, s.stop, ok, r);
    }
  }

  lemma RunKeepsInvariant(s: System, w: nat, ok: bool, r: Option<Reading>)
    requires Invariant(s) && w < |s.workers|
    ensures Invariant(Next(s, Run(w, ok, r)))
  {
    var t := Next(s, Run(w, ok, r));
    assert WorkerOk(s, w);
    forall v | 0 <= v < |t.workers| ensures WorkerOk(t, v) {
      RunKeepsWorker(s, w, ok, r, v);
    }
    forall id | id in t.ports ensures Serial(t, id) {
      RunKeepsPort(s, w, ok, r, id);
    }
  }

  /** Time passing and the stop event only make more positions and outcomes possible. */
  lemma LaterOk(pc: Pc, now: Time, stop: bool, now': Time, stop': bool)
    requires PcOk(pc, now, stop) && now <= now' && (stop ==> stop')
    ensures PcOk(pc, now', stop')
  {
  }

  lemma LaterKeepsInvariant(s: System, now: Time, stop: bool)
    requires Invariant(s) && s.now <= now && (s.stop ==> stop)
    ensures Invariant(s.(now := now, stop := stop))
  {
    var t := s.(now := now, stop := stop);
    forall w | 0 <= w < |t.workers|
      ensures WorkerOk(t, w)
    {
      assert WorkerOk(s, w);
      LaterOk(s.workers[w].pc, s.now, s.stop, now, stop);
    }
    forall id | id in t.ports ensures Serial(t, id) {
      assert Serial(s, id);
    }
  }

  lemma MessageKeepsInvariant(s: System, id: PortId, cmd: Command)
    requires Invariant(s)
    ensures Invariant(Next(s, Message(id, cmd)))
  {
    var t := Next(s, Message(id, cmd));
    forall w | 0 <= w < |t.workers|
      ensures WorkerOk(t, w)
    {
      if w < |s.workers| {
        assert WorkerOk(s, w);
      } else {
        assert Serial(s, id);
      }
    }
    forall i | i in t.ports ensures Serial(t, i) {
      assert Serial(s, i);
    }
  }

  lemma WalkKeepsInvariant(s: System, id: PortId, field: Field, value: int)
    requires Invariant(s)
    ensures Invariant(Next(s, Walk(id, field, value)))
  {
    var t := Next(s, Walk(id, field, value));
    forall w | 0 <= w < |t.workers| ensures WorkerOk(t, w) {
      assert WorkerOk(s, w);
    }
    forall i | i in t.ports ensures Serial(t, i) {
      assert Serial(s, i);
    }
  }

  lemma NextKeepsInvariant(s: System, step: Step)
    requires Invariant(s)
    ensures Invariant(Next(s, step))
  {
    match step
    case Message(id, cmd) => MessageKeepsInvariant(s, id, cmd);
    case Run(w, ok, r) => if w < |s.workers| { RunKeepsInvariant(s, w, ok, r); }
    case Walk(id, field, value) => WalkKeepsInvariant(s, id, field, value);
    case Tick(elapsed) => LaterKeepsInvariant(s, s.now + elapsed, s.stop);
    case Stop => LaterKeepsInvariant(s, s.now, true);
  }

  lemma {:induction false} Reachable(ids: set<PortId>, steps: seq<Step>)
    ensures Invariant(After(Initial(ids), steps))
  {
    if steps != [] {
      Reachable(ids, steps[..|steps| - 1]);
      NextKeepsInvariant(After(Initial(ids), steps[..|steps| - 1]), steps[|steps| - 1]);
    }
  }

  // ------------------------------------------------------------------
  // Results
  // ------------------------------------------------------------------

  /** Worker `w` is inside a toggle or cycle on the port. */
  ghost predicate Inside(s: System, w: int, id: PortId) {
    0 <= w < |s.workers| && s.workers[w].port == id && Owns(s.workers[w].pc)
  }

  lemma InsideMeansOwner(s: System, w: int, id: PortId)
    requires Invariant(s) && id in s.ports
    ensures Inside(s, w, id) <==> w >= 0 && s.ports[id].owner == Some(w)
    ensures Inside(s, w, id) ==> Accounted(s.ports[id], w, s.workers[w].pc)
  {
    assert Serial(s, id);
    if 0 <= w < |s.workers| {
      assert WorkerOk(s, w);
    }
  }

  /** In every run, at any moment: a port is busy exactly while one worker is inside a toggle or
      cycle on it, and its log is the blocks of the commands that finished, one after the other,
      followed by what that worker has done so far. Commands never interleave. */
  lemma PortsAreSerial(ids: set<PortId>, steps: seq<Step>, id: PortId)
    requires id in ids
    ensures var s := After(Initial(ids), steps);
            && id in s.ports
            && var p := s.ports[id];
            && (p.busy <==> exists w :: Inside(s, w, id))
            && (forall v, w :: Inside(s, v, id) && Inside(s, w, id) ==> v == w)
            && (!p.busy ==> p.log == Blocks(p.finished))
            && (forall w :: Inside(s, w, id) ==> p.log == Blocks(p.finished) + By(w, Progress(s.workers[w].pc)))
  {
    Reachable(ids, steps);
    PortsStay(ids, steps);
    var s := After(Initial(ids), steps);
    assert Serial(s, id);
    forall w ensures Inside(s, w, id) <==> w >= 0 && s.ports[id].owner == Some(w) {
      InsideMeansOwner(s, w, id);
    }
    forall w | Inside(s, w, id) ensures Accounted(s.ports[id], w, s.workers[w].pc) {
      InsideMeansOwner(s, w, id);
    }
    if s.ports[id].busy {
      assert Inside(s, s.ports[id].owner.value, id);
    }
  }

  lemma {:induction false} PortsStay(ids: set<PortId>, steps: seq<Step>)
    ensures After(Initial(ids), steps).ports.Keys == ids
  {
    if steps != [] {
      PortsStay(ids, steps[..|steps| - 1]);
    }
  }

  /** Every command that finished in a run did so within the bounds, and gave up only if told to stop. */
  lemma FinishedOk(ids: set<PortId>, steps: seq<Step>, id: PortId, i: nat)
    requires id in ids
    requires var s := After(Initial(ids), steps); id in s.ports && i < |s.ports[id].finished|
    ensures var s := After(Initial(ids), steps);
            OutcomeOk(s.ports[id].finished[i].outcome, s.stop)
  {
    Reachable(ids, steps);
    assert Serial(After(Initial(ids), steps), id);
  }

  function CountPolls(acts: seq<Act>): nat {
    if acts == [] then 0 else CountPolls(acts[..|acts| - 1]) + if acts[|acts| - 1].Poll? then 1 else 0
  }

  function CountSets(acts: seq<Act>): nat {
    if acts == [] then 0 else CountSets(acts[..|acts| - 1]) + if acts[|acts| - 1].Set? then 1 else 0
  }

  lemma CountAppend(acts: seq<Act>, act: Act)
    ensures CountPolls(acts + [act]) == CountPolls(acts) + if act.Poll? then 1 else 0
    ensures CountSets(acts + [act]) == CountSets(acts) + if act.Set? then 1 else 0
  {
    assert (acts + [act])[..|acts|] == acts;
  }

  lemma CountOne(act: Act)
    ensures CountPolls([act]) == if act.Poll? then 1 else 0
    ensures CountSets([act]) == if act.Set? then 1 else 0
  {
    assert [act][..0] == [];
  }

  lemma {:induction false} CountOff(n: nat)
    ensures CountPolls(OffActs(n)) == n + 1 && CountSets(OffActs(n)) == 1
  {
    if n == 0 {
      CountOne(Poll);
      CountAppend([Poll], Set(2, true));
    } else {
      CountOff(n - 1);
      CountAppend(OffActs(n - 1), Poll);
    }
  }

  lemma {:induction false} CountOn(n: nat, m: nat)
    ensures CountPolls(OnActs(n, m)) == n + m + 1 && CountSets(OnActs(n, m)) == 2
  {
    if m == 0 {
      CountOff(n);
      CountAppend(OffActs(n), Set(1, true));
    } else {
      CountOn(n, m - 1);
      CountAppend(OnActs(n, m - 1), Poll);
    }
  }

  lemma CountExit(e: Exit)
    ensures CountPolls(ExitActs(e)) == 1 + e.offPolls + (if e.StoppedOn? || e.Completed? then e.onPolls else 0)
    ensures CountSets(ExitActs(e)) == if e.StoppedOff? then 1 else 2
  {
    match e
    case StoppedOff(n) => CountOff(n); CountAppend(OffActs(n), Stopped);
    case EnableFailed(n) => CountOff(n); CountAppend(OffActs(n), Set(1, false));
    case StoppedOn(n, m) => CountOn(n, m); CountAppend(OnActs(n, m), Stopped);
    case Completed(n, m) => CountOn(n, m);
  }

  lemma CountClosing(acts: seq<Act>, on: bool)
    ensures CountPolls(acts + [Poll] + [State(on)] + [Availability]) == CountPolls(acts) + 1
    ensures CountSets(acts + [Poll] + [State(on)] + [Availability]) == CountSets(acts)
  {
    CountAppend(acts, Poll);
    CountAppend(acts + [Poll], State(on));
    CountAppend(acts + [Poll] + [State(on)], Availability);
  }

  /** A toggle makes at most one SET, a cycle at most two and at most 47 port polls. */
  lemma CommandBounds(o: Outcome, stop: bool)
    requires OutcomeOk(o, stop)
    ensures CountPolls(Block(o)) <= 47
    ensures CountSets(Block(o)) <= if o.Cycled? then 2 else 1
  {
    match o
    case Rejected =>
    case ToggleFailed(v) => CountOne(Set(v, false));
    case Toggled(v, on) =>
      CountOne(Set(v, true));
      CountClosing([Set(v, true)], on);
    case DisableFailed =>
      CountOne(Poll);
      CountAppend([Poll], Set(2, false));
    case Cycled(e, on) =>
      CountExit(e);
      CountClosing(ExitActs(e), on);
  }

  predicate Enables(acts: seq<Act>) {
    Set(1, true) in acts || Set(1, false) in acts
  }

  /** A cycle that switched a port off also tries to switch it on again, exactly unless it was told to stop
      while it waited for the power to go. */
  lemma NeverStranded(o: Outcome, stop: bool)
    requires OutcomeOk(o, stop) && o.Cycled?
    ensures Enables(Block(o)) <==> !o.exit.StoppedOff?
    ensures !stop ==> Enables(Block(o))
  {
    var acts := ExitActs(o.exit);
    assert Enables(Block(o)) <==> Enables(acts);
    match o.exit
    case StoppedOff(n) => OffActsDisable(n);
    case EnableFailed(n) => assert acts[|OffActs(n)|] == Set(1, false);
    case StoppedOn(n, m) => OnActsEnable(n, m);
    case Completed(n, m) => OnActsEnable(n, m);
  }

  lemma {:induction false} OffActsDisable(n: nat)
    ensures !Enables(OffActs(n))
  {
    if n > 0 {
      OffActsDisable(n - 1);
    }
  }

  lemma {:induction false} OnActsEnable(n: nat, m: nat)
    ensures Set(1, true) in OnActs(n, m)
  {
    if m == 0 {
      assert OnActs(n, 0)[|OffActs(n)|] == Set(1, true);
    } else {
      OnActsEnable(n, m - 1);
    }
  }

  /** A command that changed its port ends by polling it and publishing its state and availability. */
  lemma ChangedMeansPublished(o: Outcome, v: int)
    requires Set(v, true) in Block(o)
    ensures exists acts, on :: Block(o) == acts + [Poll] + [State(on)] + [Availability] && Set(v, true) in acts
  {
    match o
    case Toggled(w, on) => assert Block(o) == [Set(w, true)] + [Poll] + [State(on)] + [Availability];
    case Cycled(e, on) => assert Block(o) == ExitActs(e) + [Poll] + [State(on)] + [Availability];
    case _ =>
  }

  // ------------------------------------------------------------------
  // Every command ends
  // ------------------------------------------------------------------

  /** At most this many more actions of the worker. */
  function Remaining(pc: Pc): int {
    match pc
    case Start(_) => 190
    case PreCheck => 189
    case Disable => 188
    case OffHead(_, n) => 127 + 4 * (MAX_OFF_POLLS - n)
    case OffPoll(_, n) => 126 + 4 * (MAX_OFF_POLLS - n)
    case OffCheck(_, n) => 129 + 4 * (MAX_OFF_POLLS - n)
    case OffWait(_, n, _) => 128 + 4 * (MAX_OFF_POLLS - n)
    case Enable(_) => 126
    case OnHead(_, _, m) => 5 + 4 * (MAX_ON_POLLS - m)
    case OnPoll(_, _, m) => 4 + 4 * (MAX_ON_POLLS - m)
    case OnCheck(_, _, m) => 7 + 4 * (MAX_ON_POLLS - m)
    case OnWait(_, _, m, _) => 6 + 4 * (MAX_ON_POLLS - m)
    case Decide(_) => 6
    case ToggleSet(_) => 5
    case TogglePoll(_) => 4
    case ToggleState(_) => 3
    case ToggleAvailability(_, _) => 2
    case FinalPoll(_) => 4
    case FinalState(_) => 3
    case FinalAvailability(_, _) => 2
    case Release(_) => 1
    case Done => 0
  }

  predicate Waiting(pc: Pc, now: Time, stop: bool) {
    (pc.OffWait? || pc.OnWait?) && !stop && now < pc.until
  }

  /** Whatever SNMP answers, each action of a command that is not waiting brings its end closer. */
  lemma CommandsEnd(p: Port, pc: Pc, now: Time, stop: bool, ok: bool)
    requires PcOk(pc, now, stop) && pc != Done && !Waiting(pc, now, stop)
    ensures 0 <= Remaining(NextPc(p, pc, now, stop, ok)) < Remaining(pc) <= 190
  {
    NextPcOk(p, pc, now, stop, ok);
  }

  ghost predicate Bounded(acts: seq<Act>) {
    CountPolls(acts) <= 47 && CountSets(acts) <= 2
  }

  lemma ToggleBounded(v: int, on: bool)
    ensures Bounded([Set(v, true)]) && Bounded([Set(v, true)] + [Poll])
    ensures Bounded([Set(v, true)] + [Poll] + [State(on)])
  {
    CountOne(Set(v, true));
    CountAppend([Set(v, true)], Poll);
    CountAppend([Set(v, true)] + [Poll], State(on));
  }

  lemma ExitBounded(e: Exit, stop: bool, on: bool)
    requires ExitOk(e, stop)
    ensures Bounded(ExitActs(e)) && Bounded(ExitActs(e) + [Poll]) && Bounded(ExitActs(e) + [Poll] + [State(on)])
  {
    CountExit(e);
    CountAppend(ExitActs(e), Poll);
    CountAppend(ExitActs(e) + [Poll], State(on));
  }

  lemma PhaseBounded(n: nat, m: nat)
    requires n <= MAX_OFF_POLLS && m <= MAX_ON_POLLS
    ensures Bounded(OffActs(n)) && Bounded(OnActs(n, m))
  {
    CountOff(n);
    CountOn(n, m);
  }

  /** What a command has done at any place is within the bounds. */
  lemma ProgressBounds(pc: Pc, now: Time, stop: bool)
    requires PcOk(pc, now, stop)
    ensures Bounded(Progress(pc))
  {
    match pc
    case TogglePoll(v) => ToggleBounded(v, true);
    case ToggleState(v) => ToggleBounded(v, true);
    case ToggleAvailability(v, on) => ToggleBounded(v, on);
    case Disable => CountOne(Poll);
    case OffHead(_, n) => PhaseBounded(n, 0);
    case OffPoll(_, n) => PhaseBounded(n, 0);
    case OffCheck(_, n) => PhaseBounded(n, 0);
    case OffWait(_, n, _) => PhaseBounded(n, 0);
    case Enable(n) => PhaseBounded(n, 0);
    case OnHead(_, n, m) => PhaseBounded(n, m);
    case OnPoll(_, n, m) => PhaseBounded(n, m);
    case OnCheck(_, n, m) => PhaseBounded(n, m);
    case OnWait(_, n, m, _) => PhaseBounded(n, m);
    case FinalPoll(e) => ExitBounded(e, stop, true);
    case FinalState(e) => ExitBounded(e, stop, true);
    case FinalAvailability(e, on) => ExitBounded(e, stop, on);
    case Release(o) => CommandBounds(o, stop);
    case _ =>
  }

  /** The step is an action of worker `w`, which has not ended and is not waiting. */
  predicate Acts(s: System, step: Step, w: nat) {
    && step.Run? && step.worker == w && w < |s.workers|
    && s.workers[w].pc != Done && !Waiting(s.workers[w].pc, s.now, s.stop)
  }

  /** How many such actions a run has. */
  function Actions(s: System, steps: seq<Step>, w: nat): nat {
    if steps == [] then 0
    else
      var front := steps[..|steps| - 1];
      Actions(s, front, w) + if Acts(After(s, front), steps[|steps| - 1], w) then 1 else 0
  }

  lemma ActionEnds(s: System, step: Step, w: nat)
    requires Invariant(s)
    ensures var t := Next(s, step);
            if w < |s.workers| then
              && w < |t.workers|
              && Remaining(t.workers[w].pc) + (if Acts(s, step, w) then 1 else 0) <= Remaining(s.workers[w].pc)
            else w < |t.workers| ==> t.workers[w].pc.Start?
  {
    if w < |s.workers| && step.Run? && step.worker == w {
      assert WorkerOk(s, w);
      if Acts(s, step, w) {
        CommandsEnd(s.ports[s.workers[w].port], s.workers[w].pc, s.now, s.stop, step.ok);
      }
    }
  }

  lemma {:induction false} ActionsLeft(ids: set<PortId>, steps: seq<Step>, w: nat)
    ensures var s := After(Initial(ids), steps);
            if w < |s.workers| then Actions(Initial(ids), steps, w) + Remaining(s.workers[w].pc) <= 190
            else Actions(Initial(ids), steps, w) == 0
  {
    if steps != [] {
      var front := steps[..|steps| - 1];
      ActionsLeft(ids, front, w);
      Reachable(ids, front);
      ActionEnds(After(Initial(ids), front), steps[|steps| - 1], w);
    }
  }

  /** In no run does a worker take more than 190 actions besides waiting, whatever SNMP answers. */
  lemma AtMost190Actions(ids: set<PortId>, steps: seq<Step>, w: nat)
    ensures Actions(Initial(ids), steps, w) <= 190
  {
    ActionsLeft(ids, steps, w);
    Reachable(ids, steps);
    var s := After(Initial(ids), steps);
    if w < |s.workers| {
      assert WorkerOk(s, w);
      RemainingNonNegative(s.workers[w].pc, s.now, s.stop);
    }
  }

  lemma RemainingNonNegative(pc: Pc, now: Time, stop: bool)
    requires PcOk(pc, now, stop)
    ensures Remaining(pc) >= 0
  {
  }

  // ------------------------------------------------------------------
  // A cycle stopped while the port is off
  // ------------------------------------------------------------------

  /** A power cycle whose first poll in the off phase does not find the power gone; the stop event comes while it
      waits. */
  function StoppedRun(id: PortId): seq<Step> {
    var run := Run(0, true, None);
    [Message(id, Cycle), run, run, run, run, run, run, Stop, run, run, run, run, run]
  }

  /** The only worker is at `pc`; the port was never read. */
  predicate Alone(s: System, id: PortId, pc: Pc, finished: seq<Finished>) {
    && s.workers == [Worker(id, pc)] && id in s.ports && s.now == 0
    && s.ports[id].admin == 0 && s.ports[id].detect == 0 && s.ports[id].finished == finished
    && (pc.Start? ==> !s.ports[id].busy)
  }

  /** The places it goes through; the stop event comes before the eighth. */
  function StoppedPcs(): seq<Pc> {
    [Start(Cycle), PreCheck, Disable, OffHead(OFF_TIMEOUT, 0), OffPoll(OFF_TIMEOUT, 0), OffCheck(OFF_TIMEOUT, 1),
     OffWait(OFF_TIMEOUT, 1, POLL_WAIT), OffWait(OFF_TIMEOUT, 1, POLL_WAIT), FinalPoll(StoppedOff(1)),
     FinalState(StoppedOff(1)), FinalAvailability(StoppedOff(1), false), Release(Cycled(StoppedOff(1), false)), Done]
  }

  function StoppedFinish(i: nat): seq<Finished> {
    if i == 12 then [Finished(0, Cycled(StoppedOff(1), false))] else []
  }

  lemma StoppedPlace(p: Port, i: nat)
    requires i < 12 && i != 6 && p.admin == 0 && p.detect == 0 && (i == 0 ==> !p.busy)
    ensures NextPc(p, StoppedPcs()[i], 0, 6 < i, true) == StoppedPcs()[i + 1]
    ensures StoppedPcs()[i].Release? <==> i == 11
  {
  }

  /** One action of the only worker. */
  lemma AloneRuns(s: System, id: PortId, pc: Pc, finished: seq<Finished>)
    requires Alone(s, id, pc, finished) && (pc.Start? ==> pc.cmd.Cycle?)
    ensures var t := Next(s, Run(0, true, None));
            && Alone(t, id, NextPc(s.ports[id], pc, 0, s.stop, true),
                     if pc.Release? then finished + [Finished(0, pc.outcome)] else finished)
            && t.stop == s.stop
  {
  }

  lemma StoppedStep(s: System, id: PortId, i: nat)
    requires i < 12 && Alone(s, id, StoppedPcs()[i], StoppedFinish(i)) && (s.stop <==> 6 < i)
    ensures var t := Next(s, if i == 6 then Stop else Run(0, true, None));
            Alone(t, id, StoppedPcs()[i + 1], StoppedFinish(i + 1)) && (t.stop <==> 6 < i + 1)
  {
    if i != 6 {
      StoppedPlace(s.ports[id], i);
      AloneRuns(s, id, StoppedPcs()[i], StoppedFinish(i));
    }
  }

  /** The port is left disabled: the command has finished without an attempt to enable it. */
  lemma StoppedOffRun(id: PortId)
    ensures var s := After(Initial({id}), StoppedRun(id));
            var outcome := Cycled(StoppedOff(1), false);
            && id in s.ports && s.ports[id].finished == [Finished(0, outcome)]
            && Set(2, true) in Block(outcome) && !Enables(Block(outcome))
  {
    StoppedOffSteps(id, StoppedRun(id));
    assert StoppedRun(id)[..13] == StoppedRun(id);
    assert Block(Cycled(StoppedOff(1), false))[1] == Set(2, true);
    OffActsDisable(1);
  }

  lemma StoppedOffSteps(id: PortId, steps: seq<Step>)
    requires |steps| == 13 && steps[0] == Message(id, Cycle)
    requires forall i :: 1 <= i < 13 ==> steps[i] == if i == 7 then Stop else Run(0, true, None)
    ensures Alone(After(Initial({id}), steps[..13]), id, StoppedPcs()[12], StoppedFinish(12))
  {
    StoppedSteps(id, steps, 12);
  }

  lemma {:induction false} StoppedSteps(id: PortId, steps: seq<Step>, i: nat)
    requires |steps| == 13 && steps[0] == Message(id, Cycle) && i <= 12
    requires forall k :: 1 <= k < 13 ==> steps[k] == if k == 7 then Stop else Run(0, true, None)
    ensures var s := After(Initial({id}), steps[..i + 1]);
            Alone(s, id, StoppedPcs()[i], StoppedFinish(i)) && (s.stop <==> 6 < i)
  {
    assert steps[..i + 1][..i] == steps[..i];
    if i > 0 {
      StoppedSteps(id, steps, i - 1);
      StoppedStep(After(Initial({id}), steps[..i]), id, i - 1);
    }
  }
}
