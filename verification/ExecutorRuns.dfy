/** What the runs of the batch executor say beyond its invariant: where each change of the
    batch size comes from, how large batches are, what is retried, and when a run fails. */
module ExecutorRuns {
  import opened Common
  import opened BatchExecution

  /** Step `i` of the run is one of task `k`. */
  predicate StepsAt(states: seq<State>, actions: seq<Action>, i: int, k: nat) {
    0 <= i < |actions| && i < |states| && k < |states[i].tasks| && actions[i].TaskStep? && actions[i].k == k
  }

  /** Step `i` is the end of the first handler call of task `k`, with this outcome. */
  predicate FirstCallEnds(states: seq<State>, actions: seq<Action>, i: int, k: nat, outcome: Outcome) {
    StepsAt(states, actions, i, k) && states[i].tasks[k].pc == FirstCall && actions[i].outcome == outcome
  }

  /** A step leaves the extent of every task, and the position of all tasks but its own. */
  lemma OtherTasksStay(cfg: Config, states: seq<State>, actions: seq<Action>, i: nat, k: nat)
    requires IsRun(cfg, states, actions) && i < |actions| && k < |states[i].tasks|
    ensures k < |states[i + 1].tasks|
    ensures states[i + 1].tasks[k].lo == states[i].tasks[k].lo && states[i + 1].tasks[k].hi == states[i].tasks[k].hi
    ensures !StepsAt(states, actions, i, k) ==> states[i + 1].tasks[k].pc == states[i].tasks[k].pc
  {
    assert Enabled(cfg, states[i], actions[i]) && states[i + 1] == Step(cfg, states[i], actions[i]);
  }

  /** A task that stands beyond the start of its work has come there from an earlier state. */
  lemma WasThereBefore(cfg: Config, states: seq<State>, actions: seq<Action>, i: nat, k: nat)
    requires IsRun(cfg, states, actions) && i < |states| && k < |states[i].tasks| && states[i].tasks[k].pc != Queued
    ensures i > 0 && k < |states[i - 1].tasks|
    ensures states[i - 1].tasks[k].lo == states[i].tasks[k].lo && states[i - 1].tasks[k].hi == states[i].tasks[k].hi
    ensures StepsAt(states, actions, i - 1, k) || states[i - 1].tasks[k].pc == states[i].tasks[k].pc
    ensures StepsAt(states, actions, i - 1, k) ==> var a := actions[i - 1];
      states[i].tasks[k].pc ==
      TaskEffect(cfg, states[i - 1].tasks[k], states[i - 1].batchSize, states[i - 1].latest, a.outcome, a.now).pc
  {
    if i > 0 {
      var s, a := states[i - 1], actions[i - 1];
      assert Enabled(cfg, s, a) && states[i - 1 + 1] == Step(cfg, s, a);
    }
  }

  // --- Why the batch size changes ---

  /** A call of the task failed retriably, and then the task read its own length. */
  ghost predicate FailedAndRead(states: seq<State>, actions: seq<Action>, i: int, k: nat, length: int) {
    exists m, r :: m < r < i && FirstCallEnds(states, actions, m, k, Retriable) &&
      StepsAt(states, actions, r, k) && states[r].tasks[k].pc == DecreaseRead && states[r].batchSize == length
  }

  lemma {:induction false} ReadingFollowsFailure(cfg: Config, states: seq<State>, actions: seq<Action>, i: nat, k: nat)
    returns (m: nat)
    requires IsRun(cfg, states, actions) && i < |states| && k < |states[i].tasks|
    requires states[i].tasks[k].pc == DecreaseRead
    ensures m < i && FirstCallEnds(states, actions, m, k, Retriable)
  {
    WasThereBefore(cfg, states, actions, i, k);
    if states[i - 1].tasks[k].pc == DecreaseRead && !StepsAt(states, actions, i - 1, k) {
      m := ReadingFollowsFailure(cfg, states, actions, i - 1, k);
    } else {
      m := i - 1;
    }
  }

  lemma {:induction false} HalvingFollowsReading(cfg: Config, states: seq<State>, actions: seq<Action>, i: nat, k: nat)
    requires IsRun(cfg, states, actions) && i < |states| && k < |states[i].tasks|
    requires states[i].tasks[k].pc == DecreaseWriteSize
    ensures FailedAndRead(states, actions, i, k, Len(states[i].tasks[k]))
  {
    WasThereBefore(cfg, states, actions, i, k);
    if StepsAt(states, actions, i - 1, k) {
      var m := ReadingFollowsFailure(cfg, states, actions, i - 1, k);
    } else {
      HalvingFollowsReading(cfg, states, actions, i - 1, k);
    }
  }

  /** A call of the task succeeded, the task read the clock, and then a time of the last
      change that lies more than the cooldown before that. */
  ghost predicate SucceededAndWaited(states: seq<State>, actions: seq<Action>, i: int, k: nat) {
    exists m, q, r :: m < q < r < i && FirstCallEnds(states, actions, m, k, Success) &&
      StepsAt(states, actions, q, k) && states[q].tasks[k].pc == IncreaseReadClock &&
      StepsAt(states, actions, r, k) && states[r].tasks[k].pc.IncreaseReadLatest? &&
      states[r].latest.Some? && actions[q].now - states[r].latest.value > 120
  }

  lemma {:induction false} ClockFollowsSuccess(cfg: Config, states: seq<State>, actions: seq<Action>, i: nat, k: nat)
    returns (m: nat)
    requires IsRun(cfg, states, actions) && i < |states| && k < |states[i].tasks|
    requires states[i].tasks[k].pc == IncreaseReadClock
    ensures m < i && FirstCallEnds(states, actions, m, k, Success)
  {
    WasThereBefore(cfg, states, actions, i, k);
    if StepsAt(states, actions, i - 1, k) {
      m := i - 1;
    } else {
      m := ClockFollowsSuccess(cfg, states, actions, i - 1, k);
    }
  }

  lemma {:induction false} LatestFollowsClock(cfg: Config, states: seq<State>, actions: seq<Action>, i: nat, k: nat)
    returns (m: nat, q: nat)
    requires IsRun(cfg, states, actions) && i < |states| && k < |states[i].tasks|
    requires states[i].tasks[k].pc.IncreaseReadLatest?
    ensures m < q < i && FirstCallEnds(states, actions, m, k, Success)
    ensures StepsAt(states, actions, q, k) && states[q].tasks[k].pc == IncreaseReadClock
    ensures actions[q].now == states[i].tasks[k].pc.now
  {
    WasThereBefore(cfg, states, actions, i, k);
    if StepsAt(states, actions, i - 1, k) {
      q := i - 1;
      m := ClockFollowsSuccess(cfg, states, actions, i - 1, k);
    } else {
      m, q := LatestFollowsClock(cfg, states, actions, i - 1, k);
    }
  }

  lemma {:induction false} DoublingFollowsWaiting(cfg: Config, states: seq<State>, actions: seq<Action>, i: nat, k: nat)
    requires IsRun(cfg, states, actions) && i < |states| && k < |states[i].tasks|
    requires states[i].tasks[k].pc.IncreaseWriteSize?
    ensures SucceededAndWaited(states, actions, i, k)
  {
    WasThereBefore(cfg, states, actions, i, k);
    if StepsAt(states, actions, i - 1, k) {
      var m, q := LatestFollowsClock(cfg, states, actions, i - 1, k);
    } else {
      DoublingFollowsWaiting(cfg, states, actions, i - 1, k);
    }
  }

  /** Every change of the batch size is the work of one task: half its length after a
      retriable failure, when the size it read was its length, or twice its length after
      a success and the cooldown. */
  lemma BatchSizeChangesForAReason(cfg: Config, states: seq<State>, actions: seq<Action>, i: nat)
    requires IsRun(cfg, states, actions) && i < |actions| && states[i + 1].batchSize != states[i].batchSize
    ensures !cfg.customSplitting && actions[i].TaskStep? && StepsAt(states, actions, i, actions[i].k)
    ensures var k, size := actions[i].k, states[i + 1].batchSize;
      var length := Len(states[i].tasks[k]);
      || (length > 1 && size == length / 2 && FailedAndRead(states, actions, i, k, length))
      || (size == 2 * length <= cfg.maxBatchSize && SucceededAndWaited(states, actions, i, k))
  {
    WhoWritesTheSize(cfg, states, actions, i);
    var k := actions[i].k;
    InvHoldsInEveryState(cfg, states, actions, i);
    OnlyOwnSplittingAdapts(cfg, states, actions, i, k);
    if states[i].tasks[k].pc.DecreaseWriteSize? {
      HalvingFollowsReading(cfg, states, actions, i, k);
    } else {
      DoublingFollowsWaiting(cfg, states, actions, i, k);
    }
  }

  lemma WhoWritesTheSize(cfg: Config, states: seq<State>, actions: seq<Action>, i: nat)
    requires IsRun(cfg, states, actions) && i < |actions| && states[i + 1].batchSize != states[i].batchSize
    ensures actions[i].TaskStep? && StepsAt(states, actions, i, actions[i].k)
    ensures var t, size := states[i].tasks[actions[i].k], states[i + 1].batchSize;
      (t.pc.DecreaseWriteSize? && size == Len(t) / 2) || (t.pc.IncreaseWriteSize? && size == 2 * Len(t))
  {
    assert Enabled(cfg, states[i], actions[i]) && states[i + 1] == Step(cfg, states[i], actions[i]);
  }

  /** With a custom split method no task adapts the batch size. */
  lemma {:induction false} OnlyOwnSplittingAdapts(cfg: Config, states: seq<State>, actions: seq<Action>, i: nat, k: nat)
    requires IsRun(cfg, states, actions) && i < |states| && k < |states[i].tasks|
    ensures var pc := states[i].tasks[k].pc;
      cfg.customSplitting ==> pc.Queued? || pc.FirstCall? || pc.Retry? || pc.RetryCall? || pc.Done? || pc.Failed?
  {
    if states[i].tasks[k].pc != Queued {
      WasThereBefore(cfg, states, actions, i, k);
      OnlyOwnSplittingAdapts(cfg, states, actions, i - 1, k);
    }
  }

  /** Step `j` is the next one of task `k` after step `i`. */
  ghost predicate IsNextStep(states: seq<State>, actions: seq<Action>, i: int, j: int, k: nat) {
    i < j && StepsAt(states, actions, i, k) && StepsAt(states, actions, j, k) &&
    forall m :: i < m < j ==> !StepsAt(states, actions, m, k)
  }

  lemma {:induction false} StaysUntilNextStep(cfg: Config, states: seq<State>, actions: seq<Action>,
                                              i: nat, j: nat, k: nat)
    requires IsRun(cfg, states, actions) && i < j < |states| && k < |states[i + 1].tasks|
    requires forall m :: i < m < j ==> !StepsAt(states, actions, m, k)
    ensures k < |states[j].tasks| && states[j].tasks[k].pc == states[i + 1].tasks[k].pc
    ensures states[j].tasks[k].lo == states[i + 1].tasks[k].lo && states[j].tasks[k].hi == states[i + 1].tasks[k].hi
  {
    if i + 1 < j {
      StaysUntilNextStep(cfg, states, actions, i, j - 1, k);
      OtherTasksStay(cfg, states, actions, j - 1, k);
      assert !StepsAt(states, actions, j - 1, k);
    }
  }

  lemma StepAtIs(cfg: Config, states: seq<State>, actions: seq<Action>, i: nat)
    requires IsRun(cfg, states, actions) && i < |actions|
    ensures Enabled(cfg, states[i], actions[i]) && states[i + 1] == Step(cfg, states[i], actions[i])
  {
  }

  /** What a step of the task does to it is still there at its next step. */
  lemma NextStepIs(cfg: Config, states: seq<State>, actions: seq<Action>, i: nat, j: nat, k: nat)
    requires IsRun(cfg, states, actions) && IsNextStep(states, actions, i, j, k)
    ensures k < |states[i + 1].tasks| && states[j].tasks[k].pc == states[i + 1].tasks[k].pc
    ensures Len(states[j].tasks[k]) == Len(states[i].tasks[k])
    ensures Enabled(cfg, states[i], actions[i]) && states[i + 1] == Step(cfg, states[i], actions[i])
    ensures Enabled(cfg, states[j], actions[j]) && states[j + 1] == Step(cfg, states[j], actions[j])
  {
    StepAtIs(cfg, states, actions, i);
    StepAtIs(cfg, states, actions, j);
    OtherTasksStay(cfg, states, actions, i, k);
    StaysUntilNextStep(cfg, states, actions, i, j, k);
  }

  /** And no such change is left out: after a retriable failure the next steps of the task
      read the batch size and, if that is its own length and greater than one, halve it
      and note the time. */
  lemma FailureLeadsToHalving(cfg: Config, states: seq<State>, actions: seq<Action>, k: nat,
                              m: nat, r: nat, w: nat, x: nat)
    requires IsRun(cfg, states, actions) && !cfg.customSplitting && FirstCallEnds(states, actions, m, k, Retriable)
    requires IsNextStep(states, actions, m, r, k) && states[r].batchSize == Len(states[m].tasks[k]) > 1
    requires IsNextStep(states, actions, r, w, k) && IsNextStep(states, actions, w, x, k)
    ensures states[w + 1].batchSize == Len(states[m].tasks[k]) / 2 && states[x + 1].latest == Some(actions[x].now)
  {
    NextStepIs(cfg, states, actions, m, r, k);
    NextStepIs(cfg, states, actions, r, w, k);
    NextStepIs(cfg, states, actions, w, x, k);
  }

  /** After a success the next steps of a task with at most half the largest batch read the
      clock and the time of the last change and, if that is more than the cooldown ago,
      double its length and note the time that was on the clock. */
  lemma SuccessLeadsToDoubling(cfg: Config, states: seq<State>, actions: seq<Action>, k: nat,
                               m: nat, q: nat, r: nat, w: nat, x: nat)
    requires IsRun(cfg, states, actions) && !cfg.customSplitting && FirstCallEnds(states, actions, m, k, Success)
    requires 2 * Len(states[m].tasks[k]) <= cfg.maxBatchSize
    requires IsNextStep(states, actions, m, q, k) && IsNextStep(states, actions, q, r, k)
    requires states[r].latest.Some? && actions[q].now - states[r].latest.value > 120
    requires IsNextStep(states, actions, r, w, k) && IsNextStep(states, actions, w, x, k)
    ensures states[w + 1].batchSize == 2 * Len(states[m].tasks[k]) && states[x + 1].latest == Some(actions[q].now)
  {
    NextStepIs(cfg, states, actions, m, q, k);
    NextStepIs(cfg, states, actions, q, r, k);
    NextStepIs(cfg, states, actions, r, w, k);
    NextStepIs(cfg, states, actions, w, x, k);
  }

  /** No task ends on the way to such a change: not after a retriable failure, not after a
      success that leaves room for doubling, and not before the change and its time are
      written. */
  lemma ChangesAreFinished(cfg: Config, states: seq<State>, actions: seq<Action>, i: nat, k: nat)
    requires IsRun(cfg, states, actions) && StepsAt(states, actions, i, k)
    requires var t, s := states[i].tasks[k], states[i];
      || FirstCallEnds(states, actions, i, k, Retriable)
      || (FirstCallEnds(states, actions, i, k, Success) && !cfg.customSplitting && 2 * Len(t) <= cfg.maxBatchSize)
      || (t.pc == DecreaseRead && s.batchSize == Len(t) > 1)
      || t.pc == DecreaseWriteSize || t.pc == IncreaseReadClock || t.pc.IncreaseWriteSize?
      || (t.pc.IncreaseReadLatest? && s.latest.Some? && t.pc.now - s.latest.value > 120)
    ensures k < |states[i + 1].tasks| && !IsFinished(states[i + 1].tasks[k])
  {
    StepAtIs(cfg, states, actions, i);
  }

  lemma {:induction false} TimeFollowsSize(cfg: Config, states: seq<State>, actions: seq<Action>, i: nat, k: nat)
    returns (w: nat)
    requires IsRun(cfg, states, actions) && i < |states| && k < |states[i].tasks|
    requires states[i].tasks[k].pc == DecreaseWriteTime || states[i].tasks[k].pc.IncreaseWriteTime?
    ensures w < i && StepsAt(states, actions, w, k) && Len(states[w].tasks[k]) == Len(states[i].tasks[k])
    ensures states[w + 1].batchSize ==
      if states[i].tasks[k].pc == DecreaseWriteTime then Len(states[i].tasks[k]) / 2 else 2 * Len(states[i].tasks[k])
  {
    WasThereBefore(cfg, states, actions, i, k);
    if StepsAt(states, actions, i - 1, k) {
      w := i - 1;
      StepAtIs(cfg, states, actions, w);
    } else {
      w := TimeFollowsSize(cfg, states, actions, i - 1, k);
    }
  }

  /** The time of the last change is only written by a task that has written the batch size,
      and is the time on the clock at some step of that task. */
  lemma TimeChangesAfterTheSize(cfg: Config, states: seq<State>, actions: seq<Action>, i: nat) returns (w: nat, q: nat)
    requires IsRun(cfg, states, actions) && i < |actions| && states[i + 1].latest != states[i].latest
    ensures actions[i].TaskStep? && w < i && q <= i
    ensures var k := actions[i].k;
      && StepsAt(states, actions, w, k) && StepsAt(states, actions, i, k) && StepsAt(states, actions, q, k)
      && states[w + 1].batchSize in {Len(states[i].tasks[k]) / 2, 2 * Len(states[i].tasks[k])}
      && states[i + 1].latest == Some(actions[q].now)
  {
    StepAtIs(cfg, states, actions, i);
    var k := actions[i].k;
    w := TimeFollowsSize(cfg, states, actions, i, k);
    q := i;
    if states[i].tasks[k].pc != DecreaseWriteTime { q := ClockWasRead(cfg, states, actions, i, k); }
  }

  lemma {:induction false} ClockWasRead(cfg: Config, states: seq<State>, actions: seq<Action>, i: nat, k: nat)
    returns (q: nat)
    requires IsRun(cfg, states, actions) && i < |states| && k < |states[i].tasks|
    requires states[i].tasks[k].pc.IncreaseWriteSize? || states[i].tasks[k].pc.IncreaseWriteTime?
    ensures q < i && StepsAt(states, actions, q, k) && actions[q].now == states[i].tasks[k].pc.now
  {
    WasThereBefore(cfg, states, actions, i, k);
    if StepsAt(states, actions, i - 1, k) && states[i].tasks[k].pc.IncreaseWriteSize? {
      var m;
      m, q := LatestFollowsClock(cfg, states, actions, i - 1, k);
    } else {
      q := ClockWasRead(cfg, states, actions, i - 1, k);
    }
  }

  // --- How large batches are ---

  ghost predicate FillsUp(cfg: Config, s: State) {
    && (s.sub == ReadSize ==> s.start == s.pos)
    && (s.sub.Fill? ==> 1 <= s.sub.size && (cfg.customSplitting || s.pos - s.start < s.sub.size))
  }

  lemma StepFillsUp(cfg: Config, s: State, a: Action)
    requires FillsUp(cfg, s) && SizesInRange(cfg, s) && Enabled(cfg, s, a)
    ensures FillsUp(cfg, Step(cfg, s, a))
  {
    if a.SubmitterStep? && (s.sub.Check? || s.sub.FinalCheck?) && s.sub.rest != [] {
      assert Step(cfg, s, a).sub != ReadSize && !Step(cfg, s, a).sub.Fill?;
    }
  }

  lemma {:induction false} BatchesFillUp(cfg: Config, states: seq<State>, actions: seq<Action>, i: nat)
    requires IsRun(cfg, states, actions) && i < |states|
    ensures FillsUp(cfg, states[i])
  {
    if i > 0 {
      BatchesFillUp(cfg, states, actions, i - 1);
      InvHoldsInEveryState(cfg, states, actions, i - 1);
      StepAtIs(cfg, states, actions, i - 1);
      StepFillsUp(cfg, states[i - 1], actions[i - 1]);
    }
  }

  /** The size that is being filled was the batch size when the submitter read it. */
  lemma {:induction false} SizeWasRead(cfg: Config, states: seq<State>, actions: seq<Action>, i: nat) returns (r: nat)
    requires IsRun(cfg, states, actions) && i < |states| && states[i].sub.Fill?
    ensures r < i && states[r].sub == ReadSize && states[r].batchSize == states[i].sub.size
  {
    if i > 0 {
      assert Enabled(cfg, states[i - 1], actions[i - 1]);
      assert states[i - 1 + 1] == Step(cfg, states[i - 1], actions[i - 1]);
      if states[i - 1].sub == ReadSize { r := i - 1; } else { r := SizeWasRead(cfg, states, actions, i - 1); }
    }
  }

  /** Without a custom split method a batch is ready for submission with as many items as
      the batch size was when it was begun, or with the last items of the work list. */
  lemma BatchesHaveTheSizeRead(cfg: Config, states: seq<State>, actions: seq<Action>, i: nat) returns (r: nat)
    requires IsRun(cfg, states, actions) && i < |actions| && !cfg.customSplitting
    requires states[i].sub.Fill? && states[i + 1].sub.Check?
    ensures r < i && states[r].sub == ReadSize
    ensures var length := states[i + 1].pos - states[i + 1].start;
      length == states[r].batchSize || (0 < length < states[r].batchSize && states[i + 1].pos == cfg.items)
  {
    r := SizeWasRead(cfg, states, actions, i);
    BatchesFillUp(cfg, states, actions, i);
    InvHoldsInEveryState(cfg, states, actions, i);
    StepAtIs(cfg, states, actions, i);
  }

  // --- What is retried, and when a run fails ---

  /** The items of the retry loop that the task is at. */
  predicate RetriesItems(pc: Pc, i: nat, j: nat) {
    (pc.Retry? || pc.RetryCall?) && pc.i == i && pc.j == j
  }

  /** A failed batch is retried one item at a time, or as a whole if it was split by a
      custom method. */
  lemma {:induction false} RetriesAreSingle(cfg: Config, states: seq<State>, actions: seq<Action>, n: nat, k: nat,
                                            i: nat, j: nat)
    requires IsRun(cfg, states, actions) && n < |states| && k < |states[n].tasks|
    requires RetriesItems(states[n].tasks[k].pc, i, j)
    ensures if cfg.customSplitting then i == states[n].tasks[k].lo && j == states[n].tasks[k].hi else j == i + 1
  {
    WasThereBefore(cfg, states, actions, n, k);
    OnlyOwnSplittingAdapts(cfg, states, actions, n - 1, k);
    var before := states[n - 1].tasks[k].pc;
    if before.Retry? || before.RetryCall? { RetriesAreSingle(cfg, states, actions, n - 1, k, before.i, before.j); }
  }

  /** A task fails exactly in a call that ends with an exception that is not retried, or
      in the last of all its retries of some item. */
  lemma TasksFailForAReason(cfg: Config, states: seq<State>, actions: seq<Action>, n: nat, k: nat)
    requires IsRun(cfg, states, actions) && n < |actions| && StepsAt(states, actions, n, k)
    requires states[n].tasks[k].pc != Failed
    ensures k < |states[n + 1].tasks|
    ensures states[n + 1].tasks[k].pc == Failed <==>
      (states[n].tasks[k].pc.FirstCall? && actions[n].outcome == Fatal) ||
      (states[n].tasks[k].pc.RetryCall? &&
       (actions[n].outcome == Fatal || (actions[n].outcome == Retriable && IsLastRetry(cfg, states[n], k))))
  {
    StepAtIs(cfg, states, actions, n);
    InvHoldsInEveryState(cfg, states, actions, n);
    var t := states[n].tasks[k];
    assert TaskOk(cfg, t, states[n].calls, states[n].succeeded);
    if t.pc.RetryCall? {
      assert ItemOk(cfg, t, t.lo, states[n].calls[t.lo], states[n].succeeded[t.lo]);
      assert ItemOk(cfg, t, t.pc.i, states[n].calls[t.pc.i], states[n].succeeded[t.pc.i]);
    }
  }

  /** The items that the task is retrying have been in all the calls that they may be in. */
  predicate IsLastRetry(cfg: Config, s: State, k: nat)
    requires k < |s.tasks|
  {
    s.tasks[k].pc.RetryCall? && s.tasks[k].pc.i < |s.calls| && s.calls[s.tasks[k].pc.i] == 1 + cfg.maxRetries
  }

  /** What `wait` still has to look at are the futures that are left, and all are done. */
  ghost predicate ChecksWhatIsLeft(s: State) {
    && (s.sub.WaitAll? || s.sub.FinalCheck? ==> forall f :: f in s.futures ==> f < |s.tasks|)
    && (s.sub.FinalCheck? ==> s.sub.rest == s.futures && AllFinished(s, s.futures))
  }

  lemma WithoutFirst(fs: seq<nat>)
    requires fs != []
    ensures Without(fs, fs[0]) == fs[1..]
  {
  }

  lemma {:induction false} ChecksAreComplete(cfg: Config, states: seq<State>, actions: seq<Action>, i: nat)
    requires IsRun(cfg, states, actions) && i < |states|
    ensures ChecksWhatIsLeft(states[i])
  {
    if i > 0 {
      ChecksAreComplete(cfg, states, actions, i - 1);
      InvHoldsInEveryState(cfg, states, actions, i - 1);
      InvHoldsInEveryState(cfg, states, actions, i);
      var s := states[i - 1];
      assert Enabled(cfg, s, actions[i - 1]) && states[i - 1 + 1] == Step(cfg, s, actions[i - 1]);
      if s.sub.FinalCheck? && s.futures != [] { WithoutFirst(s.futures); }
    }
  }

  /** `execute` and `wait` raise only if a task has failed, or the pool refused a task. */
  lemma {:induction false} RaisingHasAReason(cfg: Config, states: seq<State>, actions: seq<Action>, i: nat)
    requires IsRun(cfg, states, actions) && i < |states| && states[i].sub == Raised
    ensures (exists k :: 0 <= k < |states[i].tasks| && states[i].tasks[k].pc == Failed) ||
      exists m :: 0 <= m < i && actions[m] == SubmitFails
  {
    if i > 0 {
      var s := states[i - 1];
      assert Enabled(cfg, s, actions[i - 1]) && states[i - 1 + 1] == Step(cfg, s, actions[i - 1]);
      ChecksAreComplete(cfg, states, actions, i - 1);
      InvHoldsInEveryState(cfg, states, actions, i - 1);
      if s.sub == Raised {
        RaisingHasAReason(cfg, states, actions, i - 1);
        if k :| 0 <= k < |s.tasks| && s.tasks[k].pc == Failed {
          FailedStaysFailed(cfg, states, actions, i - 1, k);
        }
      } else if actions[i - 1].SubmitterStep? {
        assert states[i].tasks[s.sub.rest[0]].pc == Failed;
      }
    }
  }

  lemma FailedStaysFailed(cfg: Config, states: seq<State>, actions: seq<Action>, i: nat, k: nat)
    requires IsRun(cfg, states, actions) && i < |actions| && k < |states[i].tasks| && states[i].tasks[k].pc == Failed
    ensures k < |states[i + 1].tasks| && states[i + 1].tasks[k].pc == Failed
  {
    StepAtIs(cfg, states, actions, i);
  }
}
