/** `StreamController`: the sync loop, with the recorder it starts from and writes to. */
module StreamSync {
  import opened Common

  datatype Config = Config(endBlock: Option<int>, steps: int, retryErrors: bool, maxRetries: int)

  /** An exception inside the loop body: one of Hemera's own, with its flags, or another. */
  datatype Error = HemeraError(crashable: bool, retriable: bool) | OtherError

  /** What the environment does in one iteration. A write of the recorder may fail before
      it takes effect, or take effect although the caller sees an exception. */
  datatype Poll = Head(block: int) | PollFails(error: Error)
  datatype Dispatch = Dispatched | DispatchFails(error: Error)
  datatype Write = Written | NotWritten(error: Error) | WrittenUnnoticed(error: Error)
  datatype Event = Event(poll: Poll, dispatch: Dispatch, write: Write)

  /** What outlives the process: the recorded block, the ranges that were dispatched
      successfully and the blocks that were written to the recorder. */
  datatype World = World(recorded: int, dispatched: seq<(int, int)>, writes: seq<int>)

  /** The loop: its variables and the world. */
  datatype State = State(last: int, tries: int, world: World)

  datatype Outcome = Returned | Raised | Killed

  function Min(a: int, b: int): int { if a < b then a else b }

  // --- The program, as a function of the events ---

  function TargetBlock(cfg: Config, current: int, last: int): int {
    var target := Min(current, last + cfg.steps);
    if cfg.endBlock.Some? then Min(target, cfg.endBlock.value) else target
  }

  function Record(w: World, block: int): World {
    w.(recorded := block, writes := w.writes + [block])
  }

  /** The `try` block: the state it leaves and the exception that ends it, if any. */
  function Attempt(cfg: Config, s: State, e: Event): (State, Option<Error>) {
    if e.poll.PollFails? then (s, Some(e.poll.error))
    else
      var target := TargetBlock(cfg, e.poll.block, s.last);
      if target <= s.last then (s, None)
      else if e.dispatch.DispatchFails? then (s, Some(e.dispatch.error))
      else
        var w := s.world.(dispatched := s.world.dispatched + [(s.last + 1, target)]);
        match e.write
        case Written => (State(target, s.tries, Record(w, target)), None)
        case NotWritten(error) => (s.(world := w), Some(error))
        case WrittenUnnoticed(error) => (s.(world := Record(w, target)), Some(error))
  }

  /** The exception handlers: whether the loop goes on, with how many tries counted. */
  predicate GivesUp(cfg: Config, tries: int, error: Error) {
    match error
    case HemeraError(crashable, retriable) => crashable || !retriable || tries + 1 >= cfg.maxRetries
    case OtherError => !cfg.retryErrors || tries + 1 >= cfg.maxRetries
  }

  function Iterate(cfg: Config, s: State, e: Event): State {
    var (s', error) := Attempt(cfg, s, e);
    s'.(tries := if error == None then 0 else s.tries + 1)
  }

  predicate Raises(cfg: Config, s: State, e: Event) {
    var (_, error) := Attempt(cfg, s, e);
    error.Some? && GivesUp(cfg, s.tries, error.value)
  }

  predicate GoesOn(cfg: Config, s: State) { cfg.endBlock == None || s.last < cfg.endBlock.value }

  /** The loop over the given events; when they run out, the process is killed. */
  function Run(cfg: Config, s: State, events: seq<Event>): (State, Outcome, nat)
    decreases |events|
  {
    if !GoesOn(cfg, s) then (s, Returned, 0)
    else if events == [] then (s, Killed, 0)
    else if Raises(cfg, s, events[0]) then (Attempt(cfg, s, events[0]).0, Raised, 1)
    else
      var (s', outcome, n) := Run(cfg, Iterate(cfg, s, events[0]), events[1..]);
      (s', outcome, n + 1)
  }

  lemma RunStep(cfg: Config, s: State, events: seq<Event>, i: nat)
    requires GoesOn(cfg, s) && i < |events|
    ensures Raises(cfg, s, events[i]) ==>
      Run(cfg, s, events[i..]) == (Attempt(cfg, s, events[i]).0, Raised, 1)
    ensures !Raises(cfg, s, events[i]) ==>
      var rest := Run(cfg, Iterate(cfg, s, events[i]), events[i + 1..]);
      Run(cfg, s, events[i..]) == (rest.0, rest.1, rest.2 + 1)
  {
    assert events[i..][0] == events[i] && events[i..][1..] == events[i + 1..];
  }

  /** One process, with the settings it was started with. */
  datatype Process = Process(cfg: Config, events: seq<Event>)

  function RunProcess(w: World, p: Process): World {
    Run(p.cfg, State(w.recorded, 0, w), p.events).0.world
  }

  /** A life of the service: processes that start from the recorder, one after another. */
  function Life(w: World, processes: seq<Process>): World {
    if processes == [] then w
    else RunProcess(Life(w, processes[..|processes| - 1]), processes[|processes| - 1])
  }

  // --- Safety ---

  predicate IsDispatched(d: seq<(int, int)>, block: int) {
    exists i :: 0 <= i < |d| && d[i].0 <= block <= d[i].1
  }

  /** The last block reached from `base` by the dispatched ranges. */
  function Reach(base: int, d: seq<(int, int)>): int {
    if d == [] then base
    else
      var before, last := Reach(base, d[..|d| - 1]), d[|d| - 1];
      if last.1 > before then last.1 else before
  }

  /** Each range starts after `base` and not beyond the first block not yet reached. */
  predicate IsChain(base: int, d: seq<(int, int)>) {
    d == [] ||
    var init, last := d[..|d| - 1], d[|d| - 1];
    IsChain(base, init) && base < last.0 <= Reach(base, init) + 1 && last.0 <= last.1
  }

  /** A chain covers one interval without a gap. */
  lemma {:induction false} ChainIsAnInterval(base: int, d: seq<(int, int)>)
    requires IsChain(base, d)
    ensures base <= Reach(base, d)
    ensures forall block :: IsDispatched(d, block) <==> base < block <= Reach(base, d)
  {
    if d != [] {
      var init, last := d[..|d| - 1], d[|d| - 1];
      ChainIsAnInterval(base, init);
      forall block ensures IsDispatched(d, block) <==> IsDispatched(init, block) || last.0 <= block <= last.1 {
        if IsDispatched(init, block) {
          var i :| 0 <= i < |init| && init[i].0 <= block <= init[i].1;
          assert d[i] == init[i];
        }
        if last.0 <= block <= last.1 { assert d[|d| - 1].0 <= block <= d[|d| - 1].1; }
      }
    }
  }

  /** Nothing is recorded that has not been dispatched. */
  predicate IsSafe(base: int, w: World) {
    IsChain(base, w.dispatched) && base <= w.recorded <= Reach(base, w.dispatched)
  }

  predicate IsSafeState(base: int, s: State) {
    IsSafe(base, s.world) && base <= s.last <= s.world.recorded
  }

  lemma AttemptIsSafe(cfg: Config, base: int, s: State, e: Event)
    requires IsSafeState(base, s)
    ensures IsSafe(base, Attempt(cfg, s, e).0.world)
    ensures base <= Attempt(cfg, s, e).0.last
  {
    var (s', _) := Attempt(cfg, s, e);
    if s'.world.dispatched != s.world.dispatched {
      assert s'.world.dispatched[..|s'.world.dispatched| - 1] == s.world.dispatched;
    }
  }

  lemma {:induction false} RunIsSafe(cfg: Config, base: int, s: State, events: seq<Event>)
    requires IsSafeState(base, s)
    ensures IsSafe(base, Run(cfg, s, events).0.world)
    decreases |events|
  {
    if GoesOn(cfg, s) && events != [] {
      AttemptIsSafe(cfg, base, s, events[0]);
      if !Raises(cfg, s, events[0]) {
        assert IsSafeState(base, Iterate(cfg, s, events[0]));
        RunIsSafe(cfg, base, Iterate(cfg, s, events[0]), events[1..]);
      }
    }
  }

  /** Over any number of processes, whatever their settings and however each of them
      ended, what was dispatched is one interval from the first recorded block on, and the
      recorder never runs ahead of it. */
  lemma LifeIsSafe(start: int, processes: seq<Process>)
    ensures var w := Life(World(start, [], []), processes);
      && start <= w.recorded <= Reach(start, w.dispatched)
      && forall block :: IsDispatched(w.dispatched, block) <==> start < block <= Reach(start, w.dispatched)
  {
    LifeStaysSafe(start, processes);
    ChainIsAnInterval(start, Life(World(start, [], []), processes).dispatched);
  }

  lemma {:induction false} LifeStaysSafe(start: int, processes: seq<Process>)
    ensures IsSafe(start, Life(World(start, [], []), processes))
  {
    if processes != [] {
      var init, last := processes[..|processes| - 1], processes[|processes| - 1];
      LifeStaysSafe(start, init);
      var w := Life(World(start, [], []), init);
      RunIsSafe(last.cfg, start, State(w.recorded, 0, w), last.events);
    }
  }

  // --- Every step is as long as it may be, and no longer ---

  predicate InBounds(cfg: Config, range: (int, int)) {
    range.0 <= range.1 < range.0 + cfg.steps && (cfg.endBlock.Some? ==> range.1 <= cfg.endBlock.value)
  }

  /** A dispatched range starts behind the last synced block and ends at the first of the
      head, the end block and the full step. */
  lemma DispatchGoesAsFarAsItMay(cfg: Config, s: State, e: Event)
    requires Attempt(cfg, s, e).0.world.dispatched != s.world.dispatched
    ensures e.poll.Head?
    ensures exists range ::
      && Attempt(cfg, s, e).0.world.dispatched == s.world.dispatched + [range]
      && range.0 == s.last + 1 && InBounds(cfg, range) && range.1 <= e.poll.block
      && (range.1 == e.poll.block || range.1 == s.last + cfg.steps || cfg.endBlock == Some(range.1))
  {
    var range := (s.last + 1, TargetBlock(cfg, e.poll.block, s.last));
    assert Attempt(cfg, s, e).0.world.dispatched == s.world.dispatched + [range];
  }

  /** There is something to dispatch: the node is ahead and the end block is not reached. */
  predicate HasWork(cfg: Config, last: int, poll: Poll) {
    poll.Head? && last < poll.block && cfg.steps >= 1 && (cfg.endBlock.Some? ==> last < cfg.endBlock.value)
  }

  /** An iteration dispatches, writes and moves on exactly if there is work and nothing
      fails before that, and raises the first thing that fails. */
  lemma IterationMovesIff(cfg: Config, s: State, e: Event)
    ensures var (s', error) := Attempt(cfg, s, e);
      var dispatches := HasWork(cfg, s.last, e.poll) && e.dispatch == Dispatched;
      && (s'.world.dispatched != s.world.dispatched <==> dispatches)
      && (s'.world.writes != s.world.writes <==> dispatches && !e.write.NotWritten?)
      && (s'.last != s.last <==> dispatches && e.write == Written)
      && (s'.last != s.last ==> s'.world == World(s'.last, s.world.dispatched + [(s.last + 1, s'.last)],
                                                  s.world.writes + [s'.last]))
      && (!dispatches ==> s' == s)
      && error == (if e.poll.PollFails? then Some(e.poll.error)
                   else if HasWork(cfg, s.last, e.poll) && e.dispatch.DispatchFails? then Some(e.dispatch.error)
                   else if dispatches && !e.write.Written? then Some(e.write.error)
                   else None)
  {
  }

  predicate AllInBounds(cfg: Config, d: seq<(int, int)>, from: nat) {
    forall i :: from <= i < |d| ==> InBounds(cfg, d[i])
  }

  /** No dispatch of a process is longer than its step or goes beyond its end block; the
      ranges that were dispatched before it stay. */
  lemma {:induction false} RunStaysInBounds(cfg: Config, s: State, events: seq<Event>, from: nat)
    requires from <= |s.world.dispatched| && AllInBounds(cfg, s.world.dispatched, from)
    ensures var d := Run(cfg, s, events).0.world.dispatched;
      s.world.dispatched <= d && AllInBounds(cfg, d, from)
    decreases |events|
  {
    if GoesOn(cfg, s) && events != [] {
      if Attempt(cfg, s, events[0]).0.world.dispatched != s.world.dispatched {
        DispatchGoesAsFarAsItMay(cfg, s, events[0]);
      }
      if !Raises(cfg, s, events[0]) { RunStaysInBounds(cfg, Iterate(cfg, s, events[0]), events[1..], from); }
    }
  }

  lemma ProcessStaysInBounds(w: World, p: Process)
    ensures var d := RunProcess(w, p).dispatched;
      w.dispatched <= d && AllInBounds(p.cfg, d, |w.dispatched|)
  {
    RunStaysInBounds(p.cfg, State(w.recorded, 0, w), p.events, |w.dispatched|);
  }

  /** A run begins behind its first last synced block: whatever fails before, that is
      where the first range starts that it adds. */
  lemma {:induction false} FirstRangeStarts(cfg: Config, s: State, events: seq<Event>)
    ensures var d, d' := s.world.dispatched, Run(cfg, s, events).0.world.dispatched;
      d <= d' && (|d| < |d'| ==> d'[|d|].0 == s.last + 1)
    decreases |events|
  {
    if GoesOn(cfg, s) && events != [] && !Raises(cfg, s, events[0]) {
      FirstRangeStarts(cfg, Iterate(cfg, s, events[0]), events[1..]);
    }
  }

  // --- Recorder writes increase ---

  /** Every write is greater than the one before it, the first one than `base`. */
  predicate IsIncreasing(base: int, writes: seq<int>) {
    writes == [] ||
    var init, last := writes[..|writes| - 1], writes[|writes| - 1];
    IsIncreasing(base, init) && (if init == [] then base else init[|init| - 1]) < last
  }

  function LastWrite(base: int, writes: seq<int>): int {
    if writes == [] then base else writes[|writes| - 1]
  }

  /** What is written is above all that was written before, exactly if the next target is
      above the recorded block. After an honest write it always is; after one that took
      effect unnoticed, the loop goes on from an older block and may get there again. */
  lemma WriteIncreasesIffAhead(cfg: Config, base: int, s: State, e: Event)
    requires IsIncreasing(base, s.world.writes) && s.world.recorded == LastWrite(base, s.world.writes)
    requires Attempt(cfg, s, e).0.world.writes != s.world.writes
    ensures e.poll.Head?
    ensures IsIncreasing(base, Attempt(cfg, s, e).0.world.writes) <==>
      TargetBlock(cfg, e.poll.block, s.last) > s.world.recorded
    ensures s.last == s.world.recorded ==> IsIncreasing(base, Attempt(cfg, s, e).0.world.writes)
  {
    var writes := Attempt(cfg, s, e).0.world.writes;
    assert writes[..|writes| - 1] == s.world.writes;
  }

  predicate IsTrackedWorld(base: int, w: World) {
    IsIncreasing(base, w.writes) && w.recorded == LastWrite(base, w.writes)
  }

  /** A write that takes effect unnoticed ends the process. */
  predicate IsHeeded(cfg: Config, e: Event) {
    e.write.WrittenUnnoticed? ==> GivesUp(cfg, 0, e.write.error)
  }

  predicate AllHeeded(p: Process) {
    forall i :: 0 <= i < |p.events| ==> IsHeeded(p.cfg, p.events[i])
  }

  lemma {:induction false} RunTracks(cfg: Config, base: int, s: State, events: seq<Event>)
    requires IsTrackedWorld(base, s.world) && s.last == s.world.recorded && s.tries >= 0
    requires forall i :: 0 <= i < |events| ==> IsHeeded(cfg, events[i])
    ensures IsTrackedWorld(base, Run(cfg, s, events).0.world)
    decreases |events|
  {
    if GoesOn(cfg, s) && events != [] {
      assert IsHeeded(cfg, events[0]);
      if Attempt(cfg, s, events[0]).0.world.writes != s.world.writes {
        WriteIncreasesIffAhead(cfg, base, s, events[0]);
      }
      if !Raises(cfg, s, events[0]) {
        RunTracks(cfg, base, Iterate(cfg, s, events[0]), events[1..]);
      }
    }
  }

  /** Over all processes the recorded block only goes up, if no process goes on after a
      write that took effect unnoticed. */
  lemma {:induction false} WritesIncrease(start: int, processes: seq<Process>)
    requires forall i :: 0 <= i < |processes| ==> AllHeeded(processes[i])
    ensures IsTrackedWorld(start, Life(World(start, [], []), processes))
  {
    if processes != [] {
      var init, last := processes[..|processes| - 1], processes[|processes| - 1];
      WritesIncrease(start, init);
      assert AllHeeded(last);
      var w := Life(World(start, [], []), init);
      RunTracks(last.cfg, start, State(w.recorded, 0, w), last.events);
    }
  }

  /** The lives with these settings in which unnoticed writes raise these errors only. */
  ghost predicate IsPossible(cfg: Config, unnoticed: set<Error>, processes: seq<Process>) {
    forall i :: 0 <= i < |processes| ==> processes[i].cfg == cfg && OnlyRaises(unnoticed, processes[i].events)
  }

  predicate OnlyRaises(unnoticed: set<Error>, events: seq<Event>) {
    forall i :: 0 <= i < |events| ==> events[i].write.WrittenUnnoticed? ==> events[i].write.error in unnoticed
  }

  /** The service can write at all. */
  predicate CanWrite(cfg: Config, start: int) {
    cfg.steps >= 1 && (cfg.endBlock.Some? ==> start < cfg.endBlock.value)
  }

  /** The loop dispatches a block twice and writes it twice. */
  lemma RetryWritesAgain(cfg: Config, start: int, error: Error)
    requires CanWrite(cfg, start) && !GivesUp(cfg, 0, error)
    ensures var e1 := Event(Head(start + 1), Dispatched, WrittenUnnoticed(error));
      var e2 := Event(Head(start + 1), Dispatched, Written);
      Life(World(start, [], []), [Process(cfg, [e1, e2])]).writes == [start + 1, start + 1]
  {
    var e1 := Event(Head(start + 1), Dispatched, WrittenUnnoticed(error));
    var e2 := Event(Head(start + 1), Dispatched, Written);
    var w, p := World(start, [], []), Process(cfg, [e1, e2]);
    var s := State(start, 0, w);
    var s1 := Iterate(cfg, s, e1);
    assert TargetBlock(cfg, start + 1, start) == start + 1;
    assert s1 == State(start, 1, World(start + 1, [(start + 1, start + 1)], [start + 1]));
    var s2 := Iterate(cfg, s1, e2);
    assert [e1, e2][1..] == [e2] && [e2][1..] == [];
    assert Run(cfg, s2, []).0 == s2;
    assert Run(cfg, s1, [e2]).0 == s2;
    assert Run(cfg, s, [e1, e2]).0 == s2;
    assert [p][..0] == [];
    assert Life(w, [p]) == RunProcess(w, p);
  }

  lemma {:induction false} IdleRun(cfg: Config, s: State, events: seq<Event>)
    requires !CanWrite(cfg, s.last)
    ensures Run(cfg, s, events).0.world == s.world
    decreases |events|
  {
    if GoesOn(cfg, s) && events != [] && !Raises(cfg, s, events[0]) {
      IdleRun(cfg, Iterate(cfg, s, events[0]), events[1..]);
    }
  }

  lemma {:induction false} NothingIsWritten(cfg: Config, start: int, processes: seq<Process>)
    requires !CanWrite(cfg, start) && forall i :: 0 <= i < |processes| ==> processes[i].cfg == cfg
    ensures Life(World(start, [], []), processes) == World(start, [], [])
  {
    if processes != [] {
      NothingIsWritten(cfg, start, processes[..|processes| - 1]);
      IdleRun(cfg, State(start, 0, World(start, [], [])), processes[|processes| - 1].events);
    }
  }

  /** Recorder writes strictly increase in every life exactly if the loop gives up on
      every error that a write may raise after it has taken effect, or never writes. */
  lemma WritesIncreaseIffUnnoticedEnds(cfg: Config, start: int, unnoticed: set<Error>)
    ensures (forall processes: seq<Process> :: IsPossible(cfg, unnoticed, processes) ==>
               IsIncreasing(start, Life(World(start, [], []), processes).writes)) <==>
            (!CanWrite(cfg, start) || forall error :: error in unnoticed ==> GivesUp(cfg, 0, error))
  {
    if !CanWrite(cfg, start) {
      forall processes: seq<Process> | IsPossible(cfg, unnoticed, processes)
        ensures IsIncreasing(start, Life(World(start, [], []), processes).writes)
      {
        NothingIsWritten(cfg, start, processes);
      }
    } else if error :| error in unnoticed && !GivesUp(cfg, 0, error) {
      var e1 := Event(Head(start + 1), Dispatched, WrittenUnnoticed(error));
      var e2 := Event(Head(start + 1), Dispatched, Written);
      var processes := [Process(cfg, [e1, e2])];
      RetryWritesAgain(cfg, start, error);
      assert [start + 1, start + 1][..1] == [start + 1];
      assert !IsIncreasing(start, [start + 1, start + 1]);
      assert OnlyRaises(unnoticed, processes[0].events);
      assert IsPossible(cfg, unnoticed, processes);
    } else {
      forall processes: seq<Process> | IsPossible(cfg, unnoticed, processes)
        ensures IsIncreasing(start, Life(World(start, [], []), processes).writes)
      {
        forall i | 0 <= i < |processes| ensures AllHeeded(processes[i]) {
          assert OnlyRaises(unnoticed, processes[i].events);
        }
        WritesIncrease(start, processes);
      }
    }
  }

  // --- Termination ---

  /** How many full steps a distance needs. */
  function Steps(distance: nat, steps: int): nat
    requires steps >= 1
  {
    if distance == 0 then 0
    else if distance <= steps then 1
    else 1 + Steps(distance - steps, steps)
  }

  /** `Steps` is the quotient rounded up. */
  lemma {:induction false} StepsIsCeiling(distance: nat, steps: int)
    requires steps >= 1
    ensures steps * Steps(distance, steps) >= distance
    ensures distance > 0 ==> steps * (Steps(distance, steps) - 1) < distance
  {
    if distance > steps { StepsIsCeiling(distance - steps, steps); }
  }

  /** The node is far enough: it never reports a head before the end block. */
  predicate HeadsReach(events: seq<Event>, end: int) {
    forall i :: 0 <= i < |events| ==> events[i].poll.Head? ==> events[i].poll.block >= end
  }

  function Tolerated(cfg: Config): int { if cfg.maxRetries > 1 then cfg.maxRetries else 1 }

  /** Blocks left, then retries left, as one number. */
  function IterationsLeft(cfg: Config, s: State): int
    requires cfg.endBlock.Some? && cfg.steps >= 1 && s.last <= cfg.endBlock.value
  {
    Tolerated(cfg) * Steps(cfg.endBlock.value - s.last, cfg.steps) - s.tries
  }

  lemma IterationCounts(cfg: Config, s: State, e: Event)
    requires cfg.endBlock.Some? && cfg.steps >= 1 && s.last < cfg.endBlock.value
    requires 0 <= s.tries < Tolerated(cfg) && !Raises(cfg, s, e)
    requires e.poll.Head? ==> e.poll.block >= cfg.endBlock.value
    ensures var s' := Iterate(cfg, s, e);
      && s'.last <= cfg.endBlock.value && 0 <= s'.tries < Tolerated(cfg)
      && IterationsLeft(cfg, s') < IterationsLeft(cfg, s)
  {
    var s', t := Iterate(cfg, s, e), Tolerated(cfg);
    var n := Steps(cfg.endBlock.value - s.last, cfg.steps);
    if s'.last != s.last {
      assert Steps(cfg.endBlock.value - s'.last, cfg.steps) == n - 1;
      assert t * (n - 1) == t * n - t;
    }
  }

  /** With an end block, steps forward and a node that is far enough, the loop ends within
      `max_retries` iterations per step: at the end block, or by raising. */
  lemma {:induction false} LoopTerminates(cfg: Config, s: State, events: seq<Event>)
    requires cfg.endBlock.Some? && cfg.steps >= 1 && s.last <= cfg.endBlock.value
    requires 0 <= s.tries < Tolerated(cfg) && HeadsReach(events, cfg.endBlock.value)
    requires |events| >= IterationsLeft(cfg, s)
    ensures var (s', outcome, n) := Run(cfg, s, events);
      && n <= (if GoesOn(cfg, s) then IterationsLeft(cfg, s) else 0)
      && (outcome == Raised || (outcome == Returned && s'.last == cfg.endBlock.value))
    decreases |events|
  {
    if s.last < cfg.endBlock.value {
      var t, n := Tolerated(cfg), Steps(cfg.endBlock.value - s.last, cfg.steps);
      assert n >= 1 && t * n >= t by { StepsIsCeiling(cfg.endBlock.value - s.last, cfg.steps); }
      if !Raises(cfg, s, events[0]) {
        IterationCounts(cfg, s, events[0]);
        LoopTerminates(cfg, Iterate(cfg, s, events[0]), events[1..]);
      }
    }
  }

  // --- How long the loop puts up with failures ---

  /** The number of failures in a row after which the loop raises: one, if the error is
      crashable or not retriable, or is none of Hemera's and such errors are not retried;
      `max_retries` otherwise. */
  function Patience(cfg: Config, error: Error): int {
    match error
    case HemeraError(crashable, retriable) => if crashable || !retriable then 1 else Tolerated(cfg)
    case OtherError => if cfg.retryErrors then Tolerated(cfg) else 1
  }

  /** While every poll fails with the same error, the loop counts the failures from where
      it stands, raises at the one that exhausts its patience, and goes nowhere. */
  lemma {:induction false} FailuresExhaustPatience(cfg: Config, s: State, error: Error, events: seq<Event>)
    requires GoesOn(cfg, s) && 0 <= s.tries && (s.tries < Patience(cfg, error) || Patience(cfg, error) == 1)
    requires forall i :: 0 <= i < |events| ==> events[i].poll == PollFails(error)
    ensures var (s', outcome, n) := Run(cfg, s, events);
      var left := if Patience(cfg, error) == 1 then 1 else Patience(cfg, error) - s.tries;
      && s'.last == s.last && s'.world == s.world
      && (if |events| >= left then outcome == Raised && n == left else outcome == Killed && n == |events|)
    decreases |events|
  {
    if events != [] {
      assert events[0].poll == PollFails(error);
      if !Raises(cfg, s, events[0]) { FailuresExhaustPatience(cfg, Iterate(cfg, s, events[0]), error, events[1..]); }
    }
  }

  /** An iteration without an exception, be it idle or successful, forgets the failures. */
  lemma SuccessForgetsFailures(cfg: Config, s: State, e: Event)
    requires e.poll.Head? && e.dispatch == Dispatched && e.write == Written
    ensures !Raises(cfg, s, e) && Iterate(cfg, s, e).tries == 0
  {
  }

  /** The loop returns only at the end block, never without one, and otherwise ends by
      raising or with the process. */
  lemma {:induction false} ReturnsOnlyAtTheEnd(cfg: Config, s: State, events: seq<Event>)
    ensures var (s', outcome, n) := Run(cfg, s, events);
      && n <= |events|
      && (outcome == Returned ==> cfg.endBlock.Some? && cfg.endBlock.value <= s'.last)
      && (outcome == Killed ==> n == |events| && (cfg.endBlock.Some? ==> s'.last < cfg.endBlock.value))
    decreases |events|
  {
    if GoesOn(cfg, s) && events != [] && !Raises(cfg, s, events[0]) {
      ReturnsOnlyAtTheEnd(cfg, Iterate(cfg, s, events[0]), events[1..]);
    }
  }

  // --- The program ---

  class SyncRecorder {
    var lastSyncedBlock: int

    constructor (lastSyncedBlock: int)
      ensures this.lastSyncedBlock == lastSyncedBlock
    {
      this.lastSyncedBlock := lastSyncedBlock;
    }

    method SetLastSyncedBlock(block: int, write: Write) returns (error: Option<Error>)
      modifies this
      ensures lastSyncedBlock == if write.NotWritten? then old(lastSyncedBlock) else block
      ensures error == if write.Written? then None else Some(write.error)
    {
      match write
      case Written => lastSyncedBlock := block; error := None;
      case NotWritten(e) => error := Some(e);
      case WrittenUnnoticed(e) => lastSyncedBlock := block; error := Some(e);
    }
  }

  class StreamController {
    const recorder: SyncRecorder
    ghost var dispatched: seq<(int, int)>
    ghost var writes: seq<int>

    constructor (recorder: SyncRecorder)
      ensures this.recorder == recorder && dispatched == [] && writes == []
    {
      this.recorder := recorder;
      dispatched, writes := [], [];
    }

    ghost function TheWorld(): World
      reads this, recorder
    {
      World(recorder.lastSyncedBlock, dispatched, writes)
    }

    /** The `try` block of the loop. */
    method SyncOnce(cfg: Config, last0: int, e: Event, ghost tries: int) returns (last: int, error: Option<Error>)
      modifies this, recorder
      ensures (State(last, tries, TheWorld()), error) == Attempt(cfg, State(last0, tries, old(TheWorld())), e)
    {
      last, error := last0, None;
      if e.poll.PollFails? { return last, Some(e.poll.error); }
      var target := TargetBlock(cfg, e.poll.block, last);
      var syncedBlocks := if target - last > 0 then target - last else 0;
      if syncedBlocks != 0 {
        if e.dispatch.DispatchFails? { return last, Some(e.dispatch.error); }
        dispatched := dispatched + [(last + 1, target)];
        error := recorder.SetLastSyncedBlock(target, e.write);
        if !e.write.NotWritten? { writes := writes + [target]; }
        if error == None { last := target; }
      }
    }

    /** The `except` and `finally` blocks: whether the exception leaves the loop. */
    method Handle(cfg: Config, tries0: int, error: Option<Error>) returns (tries: int, raised: bool)
      ensures raised <==> error.Some? && GivesUp(cfg, tries0, error.value)
      ensures !raised ==> tries == if error == None then 0 else tries0 + 1
    {
      tries, raised := tries0, false;
      var triesReset := true;
      match error {
        case None =>
        case Some(HemeraError(crashable, retriable)) =>
          if crashable { return tries, true; }
          if !retriable { return tries, true; }
          tries, triesReset := tries + 1, false;
          if tries >= cfg.maxRetries { return tries, true; }
        case Some(OtherError) =>
          tries, triesReset := tries + 1, false;
          if !cfg.retryErrors || tries >= cfg.maxRetries { return tries, true; }
      }
      if triesReset { tries := 0; }
    }

    method DoStream(cfg: Config, startBlock: Option<int>, events: seq<Event>)
      returns (outcome: Outcome, iterations: nat)
      modifies this, recorder
      ensures var first := if startBlock.Some? then startBlock.value - 1 else old(recorder.lastSyncedBlock);
        var run := Run(cfg, State(first, 0, old(TheWorld())), events);
        TheWorld() == run.0.world && outcome == run.1 && iterations == run.2
      ensures old(dispatched) <= dispatched
      ensures old(dispatched) < dispatched ==>
        var first := if startBlock.Some? then startBlock.value else old(recorder.lastSyncedBlock) + 1;
        dispatched[|old(dispatched)|].0 == first
    {
      var last := recorder.lastSyncedBlock;
      if startBlock.Some? { last := startBlock.value - 1; }
      var tries := 0;
      ghost var whole := Run(cfg, State(last, 0, TheWorld()), events);
      FirstRangeStarts(cfg, State(last, 0, TheWorld()), events);
      ghost var rest := whole;
      assert events[0..] == events;
      iterations := 0;
      while cfg.endBlock == None || last < cfg.endBlock.value
        invariant iterations <= |events|
        invariant rest == Run(cfg, State(last, tries, TheWorld()), events[iterations..])
        invariant whole == (rest.0, rest.1, rest.2 + iterations)
        decreases |events| - iterations
      {
        if iterations == |events| { return Killed, iterations; }
        ghost var s := State(last, tries, TheWorld());
        var e := events[iterations];
        RunStep(cfg, s, events, iterations);
        iterations := iterations + 1;
        var error, raised;
        last, error := SyncOnce(cfg, last, e, tries);
        tries, raised := Handle(cfg, tries, error);
        if raised { return Raised, iterations; }
        assert Iterate(cfg, s, e) == State(last, tries, TheWorld());
        rest := Run(cfg, State(last, tries, TheWorld()), events[iterations..]);
      }
      outcome := Returned;
    }
  }
}
