/** What the log of a port says of its commands, in every run
    (src/sensors2mqtt/collector/snmp_control.py). */
module PoeLog {
  import opened PoeControl
  import opened Wrappers

  // ------------------------------------------------------------------
  // Events of finished commands
  // ------------------------------------------------------------------

  /** The events of finished commands, when `block` says what a command with an outcome did. */
  function Joined(block: Outcome -> seq<Act>, fs: seq<Finished>): seq<Event> {
    if fs == [] then []
    else
      var front, last := fs[..|fs| - 1], fs[|fs| - 1];
      Joined(block, front) + By(last.worker, block(last.outcome))
  }

  lemma {:induction false} BlocksJoined(fs: seq<Finished>)
    ensures Blocks(fs) == Joined(Block, fs)
  {
    if fs != [] {
      BlocksJoined(fs[..|fs| - 1]);
    }
  }

  lemma {:induction false} ByAt(w: nat, acts: seq<Act>)
    ensures |By(w, acts)| == |acts|
    ensures forall k :: 0 <= k < |acts| ==> By(w, acts)[k] == Event(w, acts[k])
  {
    if acts != [] {
      ByAt(w, acts[..|acts| - 1]);
    }
  }

  lemma JoinedStep(block: Outcome -> seq<Act>, fs: seq<Finished>, i: nat)
    requires i < |fs|
    ensures Joined(block, fs[..i + 1]) == Joined(block, fs[..i]) + By(fs[i].worker, block(fs[i].outcome))
  {
    assert fs[..i + 1][..i] == fs[..i];
  }

  /** The events of the first commands come first. */
  lemma {:induction false} JoinedPrefix(block: Outcome -> seq<Act>, fs: seq<Finished>, i: nat)
    requires i <= |fs|
    ensures Joined(block, fs[..i]) <= Joined(block, fs)
    decreases |fs|
  {
    if i < |fs| {
      assert fs[..|fs| - 1][..i] == fs[..i];
      JoinedPrefix(block, fs[..|fs| - 1], i);
    } else {
      assert fs[..i] == fs;
    }
  }

  /** The command an event is of. */
  lemma {:induction false} CommandOf(block: Outcome -> seq<Act>, fs: seq<Finished>, j: nat) returns (i: nat)
    requires j < |Joined(block, fs)|
    ensures i < |fs| && |Joined(block, fs[..i])| <= j < |Joined(block, fs[..i + 1])|
    ensures Joined(block, fs)[j].worker == fs[i].worker
    decreases |fs|
  {
    var n := |fs| - 1;
    assert fs[..n + 1] == fs;
    if j < |Joined(block, fs[..n])| {
      i := CommandOf(block, fs[..n], j);
      assert fs[..n][..i] == fs[..i] && fs[..n][..i + 1] == fs[..i + 1];
    } else {
      i := n;
      ByAt(fs[n].worker, block(fs[n].outcome));
    }
  }

  // ------------------------------------------------------------------
  // What one worker did
  // ------------------------------------------------------------------

  /** The actions of a worker in a log. */
  function ActsOf(log: seq<Event>, w: nat): seq<Act> {
    if log == [] then []
    else
      var last := log[|log| - 1];
      ActsOf(log[..|log| - 1], w) + if last.worker == w then [last.act] else []
  }

  lemma {:induction false} ActsOfAppend(a: seq<Event>, b: seq<Event>, w: nat)
    ensures ActsOf(a + b, w) == ActsOf(a, w) + ActsOf(b, w)
    decreases |b|
  {
    if b == [] {
      assert a + b == a;
    } else {
      assert (a + b)[..|a + b| - 1] == a + b[..|b| - 1];
      ActsOfAppend(a, b[..|b| - 1], w);
    }
  }

  lemma ActsOfMore(log: seq<Event>, e: Event, w: nat)
    ensures ActsOf(log + [e], w) == ActsOf(log, w) + if e.worker == w then [e.act] else []
  {
    assert (log + [e])[..|log|] == log;
  }

  lemma {:induction false} ActsOfBy(v: nat, acts: seq<Act>, w: nat)
    ensures ActsOf(By(v, acts), w) == if v == w then acts else []
  {
    if acts != [] {
      var front, act := acts[..|acts| - 1], acts[|acts| - 1];
      ActsOfBy(v, front, w);
      ActsOfMore(By(v, front), Event(v, act), w);
      assert acts == front + [act];
    }
  }

  predicate WorkersDiffer(fs: seq<Finished>) {
    forall i, j :: 0 <= i < j < |fs| ==> fs[i].worker != fs[j].worker
  }

  predicate Finishes(fs: seq<Finished>, i: int, w: nat) {
    0 <= i < |fs| && fs[i].worker == w
  }

  /** A worker that finished one of the commands did what that command did, any other nothing. */
  lemma {:induction false} ActsOfJoined(block: Outcome -> seq<Act>, fs: seq<Finished>, w: nat)
    requires WorkersDiffer(fs)
    ensures forall i :: Finishes(fs, i, w) ==> ActsOf(Joined(block, fs), w) == block(fs[i].outcome)
    ensures (forall i :: !Finishes(fs, i, w)) ==> ActsOf(Joined(block, fs), w) == []
  {
    if fs != [] {
      var n := |fs| - 1;
      var front, last := fs[..n], fs[n];
      ActsOfJoined(block, front, w);
      ActsOfAppend(Joined(block, front), By(last.worker, block(last.outcome)), w);
      ActsOfBy(last.worker, block(last.outcome), w);
      if last.worker == w {
        assert Finishes(fs, n, w);
        assert forall i :: !Finishes(front, i, w);
      } else {
        forall i
          ensures Finishes(fs, i, w) <==> Finishes(front, i, w)
        {
        }
      }
    }
  }

  // ------------------------------------------------------------------
  // In every run
  // ------------------------------------------------------------------

  /** The workers of a port's finished commands are done, and finished once. */
  ghost predicate FinishedInv(s: System, id: PortId)
    requires id in s.ports
  {
    && WorkersDiffer(s.ports[id].finished)
    && forall i :: 0 <= i < |s.ports[id].finished| ==> IsDone(s, s.ports[id].finished[i].worker)
  }

  predicate IsDone(s: System, w: nat) {
    w < |s.workers| && s.workers[w].pc.Done?
  }

  lemma DoneStays(s: System, step: Step, w: nat)
    requires IsDone(s, w)
    ensures IsDone(Next(s, step), w)
  {
  }

  lemma PortFinished(p: Port, w: nat, pc: Pc, stop: bool, ok: bool, r: Option<Reading>)
    ensures NextPort(p, w, pc, stop, ok, r).finished
         == p.finished + if pc.Release? then [Finished(w, pc.outcome)] else []
  {
  }

  /** A step leaves the finished commands as they are or adds one, of a worker that becomes done. */
  lemma FinishedNext(s: System, step: Step, id: PortId)
    requires id in s.ports
    ensures id in Next(s, step).ports
    ensures var fs, fs' := s.ports[id].finished, Next(s, step).ports[id].finished;
            fs' == fs
            || (|fs'| == |fs| + 1 && fs'[..|fs|] == fs && !IsDone(s, fs'[|fs|].worker)
                && IsDone(Next(s, step), fs'[|fs|].worker))
  {
    if step.Run? && step.worker < |s.workers| && s.workers[step.worker].port == id {
      PortFinished(s.ports[id], step.worker, s.workers[step.worker].pc, s.stop, step.ok, step.reading);
    }
  }

  lemma FinishedKept(s: System, step: Step, id: PortId)
    requires id in s.ports && FinishedInv(s, id)
    ensures id in Next(s, step).ports && FinishedInv(Next(s, step), id)
  {
    FinishedNext(s, step, id);
    var fs, fs' := s.ports[id].finished, Next(s, step).ports[id].finished;
    forall i | 0 <= i < |fs|
      ensures IsDone(s, fs[i].worker) && IsDone(Next(s, step), fs[i].worker) && fs'[i] == fs[i]
    {
      DoneStays(s, step, fs[i].worker);
      assert |fs'| > |fs| ==> fs'[..|fs|][i] == fs[i];
    }
  }

  lemma {:induction false} FinishedAlways(ids: set<PortId>, steps: seq<Step>, id: PortId)
    requires id in ids
    ensures var s := After(Initial(ids), steps); id in s.ports && FinishedInv(s, id)
  {
    if steps != [] {
      FinishedAlways(ids, steps[..|steps| - 1], id);
      FinishedKept(After(Initial(ids), steps[..|steps| - 1]), steps[|steps| - 1], id);
    }
  }

  /** What follows the events of finished commands is what the owner, if any, has done. */
  ghost predicate IsTail(s: System, id: PortId, tail: seq<Event>)
    requires id in s.ports
  {
    match s.ports[id].owner
    case None => tail == []
    case Some(w) => Inside(s, w, id) && tail == By(w, Progress(s.workers[w].pc))
  }

  lemma TailOf(s: System, id: PortId) returns (tail: seq<Event>)
    requires Invariant(s) && id in s.ports
    ensures s.ports[id].log == Joined(Block, s.ports[id].finished) + tail && IsTail(s, id, tail)
  {
    var p := s.ports[id];
    BlocksJoined(p.finished);
    assert Serial(s, id);
    tail := [];
    if p.owner.Some? {
      var w := p.owner.value;
      assert WorkerOk(s, w);
      tail := By(w, Progress(s.workers[w].pc));
    }
  }

  /** In the log of a port a worker inside it has done what its place says. */
  lemma ActsInside(s: System, id: PortId, w: nat)
    requires Invariant(s) && id in s.ports && FinishedInv(s, id) && Inside(s, w, id)
    ensures ActsOf(s.ports[id].log, w) == Progress(s.workers[w].pc)
  {
    var fs, acts := s.ports[id].finished, Progress(s.workers[w].pc);
    var tail := TailOf(s, id);
    InsideMeansOwner(s, w, id);
    ActsOfAppend(Joined(Block, fs), tail, w);
    ActsOfJoined(Block, fs, w);
    ActsOfBy(w, acts, w);
    assert forall i :: Finishes(fs, i, w) ==> IsDone(s, fs[i].worker);
  }

  lemma TailOfOther(s: System, id: PortId, tail: seq<Event>, w: nat)
    requires Invariant(s) && id in s.ports && IsTail(s, id, tail) && !Inside(s, w, id)
    ensures ActsOf(tail, w) == []
  {
    if s.ports[id].owner.Some? {
      var v := s.ports[id].owner.value;
      ActsOfBy(v, Progress(s.workers[v].pc), w);
    }
  }

  /** One outside it that has done anything there has done what a finished command of its did. */
  lemma ActsOutside(s: System, id: PortId, w: nat) returns (i: nat)
    requires Invariant(s) && id in s.ports && FinishedInv(s, id) && !Inside(s, w, id)
    requires ActsOf(s.ports[id].log, w) != []
    ensures Finishes(s.ports[id].finished, i, w)
    ensures ActsOf(s.ports[id].log, w) == Block(s.ports[id].finished[i].outcome)
  {
    var fs := s.ports[id].finished;
    var tail := TailOf(s, id);
    TailOfOther(s, id, tail, w);
    ActsOfAppend(Joined(Block, fs), tail, w);
    i := FinisherOf(Block, fs, w);
  }

  lemma FinisherOf(block: Outcome -> seq<Act>, fs: seq<Finished>, w: nat) returns (i: nat)
    requires WorkersDiffer(fs) && ActsOf(Joined(block, fs), w) != []
    ensures Finishes(fs, i, w) && ActsOf(Joined(block, fs), w) == block(fs[i].outcome)
  {
    ActsOfJoined(block, fs, w);
    i :| Finishes(fs, i, w);
  }

  lemma FinishedOutcomeOk(s: System, id: PortId, i: nat)
    requires Invariant(s) && id in s.ports && i < |s.ports[id].finished|
    ensures OutcomeOk(s.ports[id].finished[i].outcome, s.stop)
  {
    assert Serial(s, id);
  }

  lemma BoundedWorker(s: System, id: PortId, w: nat)
    requires Invariant(s) && id in s.ports && FinishedInv(s, id)
    ensures Bounded(ActsOf(s.ports[id].log, w))
  {
    if Inside(s, w, id) {
      ActsInside(s, id, w);
      assert WorkerOk(s, w);
      ProgressBounds(s.workers[w].pc, s.now, s.stop);
    } else if ActsOf(s.ports[id].log, w) != [] {
      var i := ActsOutside(s, id, w);
      FinishedOutcomeOk(s, id, i);
      CommandBounds(s.ports[id].finished[i].outcome, s.stop);
    }
  }

  /** In every run any one worker has made at most 47 polls and two SETs on a port, whether it has finished or not. */
  lemma WorkersBounded(ids: set<PortId>, steps: seq<Step>, id: PortId, w: nat)
    requires id in ids
    ensures var s := After(Initial(ids), steps);
            && id in s.ports
            && CountPolls(ActsOf(s.ports[id].log, w)) <= 47 && CountSets(ActsOf(s.ports[id].log, w)) <= 2
  {
    Reachable(ids, steps);
    FinishedAlways(ids, steps, id);
    BoundedWorker(After(Initial(ids), steps), id, w);
  }

  // ------------------------------------------------------------------
  // Whether a port is switched on again
  // ------------------------------------------------------------------

  /** A power cycle whose disable succeeded. */
  predicate IsCycle(acts: seq<Act>) {
    |acts| >= 2 && acts[0] == Poll && acts[1] == Set(2, true)
  }

  /** The stop event ended it before it tried to switch the port on. */
  predicate StoppedOffAt(acts: seq<Act>, k: int) {
    0 <= k < |acts| && acts[k] == Stopped && !Enables(acts[..k])
  }

  lemma {:induction false} OffActsShape(n: nat)
    ensures |OffActs(n)| == n + 2 && OffActs(n)[0] == Poll && OffActs(n)[1] == Set(2, true)
    ensures forall k :: 2 <= k < n + 2 ==> OffActs(n)[k] == Poll
  {
    if n > 0 {
      OffActsShape(n - 1);
    }
  }

  lemma {:induction false} OnActsShape(n: nat, m: nat)
    ensures |OnActs(n, m)| == n + m + 3 && OnActs(n, m)[n + 2] == Set(1, true)
    ensures forall k :: 0 <= k < n + m + 3 ==> OnActs(n, m)[k] != Stopped
  {
    OffActsShape(n);
    if m > 0 {
      OnActsShape(n, m - 1);
    }
  }

  /** No stop before the attempt to switch on. */
  lemma StopsAfterEnable(acts: seq<Act>, j: nat)
    requires j < |acts| && (acts[j] == Set(1, true) || acts[j] == Set(1, false))
    requires forall k :: 0 <= k < j ==> acts[k] != Stopped
    ensures Enables(acts) && forall k :: !StoppedOffAt(acts, k)
  {
    forall k
      ensures !StoppedOffAt(acts, k)
    {
      if j < k < |acts| {
        assert acts[..k][j] == acts[j];
        assert acts[j] in acts[..k];
      }
    }
  }

  lemma StopsOff(n: nat, acts: seq<Act>)
    requires |acts| > n + 2 && acts[..n + 2] == OffActs(n) && acts[n + 2] == Stopped
    ensures StoppedOffAt(acts, n + 2)
  {
    OffActsDisable(n);
  }

  /** The exit of a cycle says whether it was stopped before it tried to switch the port on. */
  lemma ExitStops(e: Exit, acts: seq<Act>)
    requires ExitActs(e) <= acts
    ensures e.StoppedOff? ==> exists k :: StoppedOffAt(acts, k)
    ensures !e.StoppedOff? ==> Enables(acts) && forall k :: !StoppedOffAt(acts, k)
  {
    var x := ExitActs(e);
    OffActsShape(e.offPolls);
    assert forall k :: 0 <= k < |x| ==> acts[k] == x[k];
    match e
    case StoppedOff(n) =>
      assert acts[..n + 2] == OffActs(n);
      StopsOff(n, acts);
    case EnableFailed(n) => StopsAfterEnable(acts, n + 2);
    case StoppedOn(n, m) =>
      OnActsShape(n, m);
      StopsAfterEnable(acts, n + 2);
    case Completed(n, m) =>
      OnActsShape(n, m);
      StopsAfterEnable(acts, n + 2);
  }

  lemma CycleOutcome(o: Outcome)
    requires IsCycle(Block(o))
    ensures o.Cycled?
  {
  }

  lemma OutcomeStops(o: Outcome, stop: bool)
    requires OutcomeOk(o, stop) && IsCycle(Block(o))
    ensures Enables(Block(o)) <==> !exists k :: StoppedOffAt(Block(o), k)
  {
    CycleOutcome(o);
    NeverStranded(o, stop);
    ExitStops(o.exit, Block(o));
  }

  /** In the log of every port in every run: once a worker whose cycle switched the port off is not inside it any more,
      it has tried to switch the port on again if and only if no stop ended it before. */
  lemma SwitchedOnUnlessStopped(ids: set<PortId>, steps: seq<Step>, id: PortId, w: nat)
    requires id in ids
    requires var s := After(Initial(ids), steps);
             id in s.ports && !Inside(s, w, id) && IsCycle(ActsOf(s.ports[id].log, w))
    ensures var acts := ActsOf(After(Initial(ids), steps).ports[id].log, w);
            Enables(acts) <==> !exists k :: StoppedOffAt(acts, k)
  {
    Reachable(ids, steps);
    FinishedAlways(ids, steps, id);
    var s := After(Initial(ids), steps);
    var i := ActsOutside(s, id, w);
    FinishedOutcomeOk(s, id, i);
    OutcomeStops(s.ports[id].finished[i].outcome, s.stop);
  }

  // ------------------------------------------------------------------
  // Publishing what was changed
  // ------------------------------------------------------------------

  predicate IsClosing(log: seq<Event>, k: nat) {
    k + 2 < |log| && log[k].act == Poll && log[k + 1].act.State? && log[k + 2].act == Availability
  }

  /** From `k` on the worker of event `j` polls the port, publishes its state and its availability, all without other
      events between, and does nothing on the port after that. */
  ghost predicate ClosesAt(log: seq<Event>, j: nat, k: nat)
    requires j < |log|
  {
    && j < k && IsClosing(log, k) && (forall i :: j <= i < k + 3 ==> log[i].worker == log[j].worker)
    && forall i :: k + 3 <= i < |log| ==> log[i].worker != log[j].worker
  }

  lemma TailInside(s: System, id: PortId, tail: seq<Event>, k: nat)
    requires Invariant(s) && id in s.ports && IsTail(s, id, tail) && k < |tail|
    ensures Inside(s, tail[k].worker, id)
  {
    var w := s.ports[id].owner.value;
    ByAt(w, Progress(s.workers[w].pc));
  }

  /** No event after a finished command's block is of its worker. */
  lemma LaterEventsDiffer(s: System, id: PortId, i: nat, e: nat)
    requires Invariant(s) && id in s.ports && FinishedInv(s, id)
    requires i < |s.ports[id].finished| && |Joined(Block, s.ports[id].finished[..i + 1])| <= e < |s.ports[id].log|
    ensures s.ports[id].log[e].worker != s.ports[id].finished[i].worker
  {
    var p := s.ports[id];
    var tail := TailOf(s, id);
    assert IsDone(s, p.finished[i].worker);
    if e < |Joined(Block, p.finished)| {
      var i' := CommandOf(Block, p.finished, e);
      assert i' != i;
    } else {
      TailInside(s, id, tail, e - |Joined(Block, p.finished)|);
    }
  }

  /** In the log of every port in every run: after a successful SET, unless its command is still running, the same
      worker has polled the port and published its state and availability, after its last SET. */
  lemma ChangesArePublished(ids: set<PortId>, steps: seq<Step>, id: PortId, j: nat)
    requires id in ids
    requires var s := After(Initial(ids), steps);
             id in s.ports && j < |s.ports[id].log| && s.ports[id].log[j].act.Set? && s.ports[id].log[j].act.ok
    ensures var s := After(Initial(ids), steps);
            var log := s.ports[id].log;
            Inside(s, log[j].worker, id) || exists k :: ClosesAt(log, j, k)
  {
    Reachable(ids, steps);
    FinishedAlways(ids, steps, id);
    SetIsClosed(After(Initial(ids), steps), id, j);
  }

  lemma SetIsClosed(s: System, id: PortId, j: nat)
    requires Invariant(s) && id in s.ports && FinishedInv(s, id)
    requires j < |s.ports[id].log| && s.ports[id].log[j].act.Set? && s.ports[id].log[j].act.ok
    ensures Inside(s, s.ports[id].log[j].worker, id) || exists k :: ClosesAt(s.ports[id].log, j, k)
  {
    var fs := s.ports[id].finished;
    var tail := TailOf(s, id);
    if j < |Joined(Block, fs)| {
      var i := CommandOf(Block, fs, j);
      FinishedSetIsClosed(s, id, i, j);
    } else {
      TailInside(s, id, tail, j - |Joined(Block, fs)|);
    }
  }

  lemma FinishedSetIsClosed(s: System, id: PortId, i: nat, j: nat)
    requires Invariant(s) && id in s.ports && FinishedInv(s, id) && i < |s.ports[id].finished|
    requires var fs := s.ports[id].finished; |Joined(Block, fs[..i])| <= j < |Joined(Block, fs[..i + 1])|
    requires j < |s.ports[id].log| && s.ports[id].log[j].act.Set? && s.ports[id].log[j].act.ok
    ensures exists k :: ClosesAt(s.ports[id].log, j, k)
  {
    var log, fs := s.ports[id].log, s.ports[id].finished;
    var tail := TailOf(s, id);
    JoinedPrefix(Block, fs, i + 1);
    JoinedStep(Block, fs, i);
    var k := ClosingBlock(log, Joined(Block, fs[..i]), fs[i].worker, fs[i].outcome, j);
    forall e | k + 3 <= e < |log|
      ensures log[e].worker != log[j].worker
    {
      LaterEventsDiffer(s, id, i, e);
    }
    assert ClosesAt(log, j, k);
  }

  lemma ClosingBlock(log: seq<Event>, before: seq<Event>, w: nat, o: Outcome, j: nat) returns (k: nat)
    requires before + By(w, Block(o)) <= log && |before| <= j < |before + By(w, Block(o))|
    requires log[j].act.Set? && log[j].act.ok
    ensures j < k && k + 3 == |before + By(w, Block(o))| && IsClosing(log, k)
    ensures forall i :: j <= i < k + 3 ==> log[i].worker == w
  {
    var v := log[j].act.value;
    ByAt(w, Block(o));
    assert log[j] == By(w, Block(o))[j - |before|];
    ChangedMeansPublished(o, v);
    var acts, on :| Block(o) == acts + [Poll] + [State(on)] + [Availability] && Set(v, true) in acts;
    k := ClosingActs(log, before, w, acts, on, j);
  }

  lemma ClosingActs(log: seq<Event>, before: seq<Event>, w: nat, acts: seq<Act>, on: bool, j: nat) returns (k: nat)
    requires var block := By(w, acts + [Poll] + [State(on)] + [Availability]);
             before + block <= log && |before| <= j < |before + block| && log[j].act.Set?
    ensures j < k && k + 3 == |before| + |By(w, acts + [Poll] + [State(on)] + [Availability])| && IsClosing(log, k)
    ensures forall i :: j <= i < k + 3 ==> log[i].worker == w
  {
    var block := By(w, acts + [Poll] + [State(on)] + [Availability]);
    ByAt(w, acts + [Poll] + [State(on)] + [Availability]);
    k := |before| + |acts|;
    assert forall i :: 0 <= i < |block| ==> log[|before| + i] == block[i];
    assert block[|acts|] == Event(w, Poll);
    assert block[|acts| + 1] == Event(w, State(on));
    assert block[|acts| + 2] == Event(w, Availability);
    assert log[j] == block[j - |before|];
    forall i | j <= i < k + 3
      ensures log[i].worker == w
    {
      assert log[i] == block[i - |before|];
    }
  }
}
