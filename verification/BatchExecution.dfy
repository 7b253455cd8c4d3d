/** `BatchWorkExecutor` and `BoundedExecutor` as a state machine: the submitting thread
    and any number of worker tasks take turns, one read, write or handler call at a time. */
module BatchExecution {
  import opened Common

  const COOLDOWN_SECONDS := 120

  /** `items` is the length of the work list; `total` is `bound + max_workers`. */
  datatype Config = Config(items: nat, maxBatchSize: nat, maxRetries: nat, total: nat, customSplitting: bool)

  /** Where a task stands, with its local variables. `Retry(i, j, a)` is the retry loop
      for the items from i to j, after `a` failed attempts. */
  datatype Pc =
    | Queued
    | FirstCall
    | IncreaseReadClock | IncreaseReadLatest(now: int) | IncreaseWriteSize(now: int) | IncreaseWriteTime(now: int)
    | DecreaseRead | DecreaseWriteSize | DecreaseWriteTime
    | Retry(i: nat, j: nat, a: nat) | RetryCall(i: nat, j: nat, a: nat)
    | Done | Failed

  /** A submitted batch, the items from `lo` to `hi`, and whether its permit is back. */
  datatype Task = Task(lo: nat, hi: nat, pc: Pc, released: bool)

  /** Where the submitting thread stands; the lists are futures still to be looked at. */
  datatype Submitter =
    | ReadSize | Fill(size: int) | Check(rest: seq<nat>) | Acquire | Submit
    | WaitAll | FinalCheck(rest: seq<nat>) | Returned | Raised

  /** Positions from `start` to `pos` are in the batch that is being filled. `calls` and
      `succeeded` record, per item, the handler calls it was in and whether one succeeded. */
  datatype State = State(
    batchSize: int, latest: Option<int>, permits: int,
    sub: Submitter, start: nat, pos: nat, tasks: seq<Task>, futures: seq<nat>,
    calls: seq<nat>, succeeded: seq<bool>)

  /** How a handler call ends: normally, with a retriable or with another exception. */
  datatype Outcome = Success | Retriable | Fatal

  /** One step. The environment chooses the outcome of a call, the time on the clock,
      the splitting of a custom split method, and whether `submit` fails. */
  datatype Action =
    | SubmitterStep
    | CustomSplit
    | SubmitFails
    | TaskStep(k: nat, outcome: Outcome, now: int)
    | ReleasePermit(k: nat)

  predicate IsFinished(t: Task) { t.pc == Done || t.pc == Failed }

  function Len(t: Task): int { t.hi - t.lo }

  function AddCall(calls: seq<nat>, r: Range): seq<nat> {
    seq(|calls|, x requires 0 <= x < |calls| => if r.Has(x) then calls[x] + 1 else calls[x])
  }

  function Mark(succeeded: seq<bool>, r: Range): seq<bool> {
    seq(|succeeded|, x requires 0 <= x < |succeeded| => r.Has(x) || succeeded[x])
  }

  // --- Steps of a task ---

  /** After the items up to `j` have been retried. */
  function NextRetry(t: Task, j: nat): Pc {
    if j < t.hi then Retry(j, j + 1, 0) else Done
  }

  predicate TaskEnabled(s: State, k: nat) {
    k < |s.tasks| && !IsFinished(s.tasks[k])
  }

  /** A half-open range of items. */
  datatype Range = Range(from: nat, to: nat) {
    predicate Has(x: nat) { from <= x < to }
  }

  const NONE := Range(0, 0)

  /** What one step of a task does: where it stands then, what it writes to the shared
      fields, the items it calls the handler for, and those a call has succeeded for. */
  datatype Effect = Effect(pc: Pc, batchSize: int, latest: Option<int>, called: Range, marked: Range)

  function TaskEffect(cfg: Config, t: Task, batchSize: int, latest: Option<int>, outcome: Outcome, now: int): Effect {
    var moved := Effect(t.pc, batchSize, latest, NONE, NONE);
    match t.pc
    case Queued => moved.(pc := FirstCall, called := Range(t.lo, t.hi))
    case FirstCall =>
      (match outcome
       case Success =>
         moved.(marked := Range(t.lo, t.hi),
                pc := if !cfg.customSplitting && Len(t) * 2 <= cfg.maxBatchSize then IncreaseReadClock else Done)
       case Retriable => moved.(pc := if cfg.customSplitting then Retry(t.lo, t.hi, 0) else DecreaseRead)
       case Fatal => moved.(pc := Failed))
    case IncreaseReadClock => moved.(pc := IncreaseReadLatest(now))
    case IncreaseReadLatest(then') =>
      var elapsed := if latest.Some? then then' - latest.value else 0;
      moved.(pc := if elapsed > COOLDOWN_SECONDS then IncreaseWriteSize(then') else Done)
    case IncreaseWriteSize(then') => moved.(batchSize := Len(t) * 2, pc := IncreaseWriteTime(then'))
    case IncreaseWriteTime(then') => moved.(latest := Some(then'), pc := Done)
    case DecreaseRead =>
      moved.(pc := if batchSize == Len(t) && batchSize > 1 then DecreaseWriteSize else NextRetry(t, t.lo))
    case DecreaseWriteSize => moved.(batchSize := Len(t) / 2, pc := DecreaseWriteTime)
    case DecreaseWriteTime => moved.(latest := Some(now), pc := NextRetry(t, t.lo))
    case Retry(i, j, a) =>
      if a < cfg.maxRetries then moved.(called := Range(i, j), pc := RetryCall(i, j, a))
      else moved.(pc := NextRetry(t, j))
    case RetryCall(i, j, a) =>
      (match outcome
       case Success => moved.(marked := Range(i, j), pc := NextRetry(t, j))
       case Retriable => moved.(pc := if a + 1 < cfg.maxRetries then Retry(i, j, a + 1) else Failed)
       case Fatal => moved.(pc := Failed))
    case Done => moved
    case Failed => moved
  }

  function StepTask(cfg: Config, s: State, k: nat, outcome: Outcome, now: int): State
    requires TaskEnabled(s, k)
  {
    var e := TaskEffect(cfg, s.tasks[k], s.batchSize, s.latest, outcome, now);
    s.(batchSize := e.batchSize, latest := e.latest,
       calls := AddCall(s.calls, e.called), succeeded := Mark(s.succeeded, e.marked),
       tasks := s.tasks[k := s.tasks[k].(pc := e.pc)])
  }

  // --- Steps of the submitting thread ---

  predicate AllFinished(s: State, fs: seq<nat>) {
    forall f :: f in fs ==> f < |s.tasks| && IsFinished(s.tasks[f])
  }

  function Without(fs: seq<nat>, f: nat): seq<nat> {
    if fs == [] then [] else if fs[0] == f then fs[1..] else [fs[0]] + Without(fs[1..], f)
  }

  /** `_check_completed_futures` looking at one future; the state after the last one is `next`. */
  function CheckOne(s: State, rest: seq<nat>, final: bool): State
    requires rest != [] && rest[0] < |s.tasks|
  {
    var f := rest[0];
    var going := if final then FinalCheck(rest[1..]) else Check(rest[1..]);
    if s.tasks[f].pc == Failed then s.(sub := Raised)
    else if s.tasks[f].pc == Done then s.(sub := going, futures := Without(s.futures, f))
    else s.(sub := going)
  }

  predicate SubmitterEnabled(s: State) {
    match s.sub
    case Check(rest) => rest == [] || rest[0] < |s.tasks|
    case Acquire => s.permits > 0
    case WaitAll => AllFinished(s, s.futures)
    case FinalCheck(rest) => rest == [] || rest[0] < |s.tasks|
    case Returned => false
    case Raised => false
    case _ => true
  }

  function StepSubmitter(cfg: Config, s: State): State
    requires SubmitterEnabled(s)
  {
    match s.sub
    case ReadSize => s.(sub := Fill(s.batchSize))
    case Fill(size) =>
      if s.pos < cfg.items then
        var filled := s.(pos := s.pos + 1);
        if !cfg.customSplitting && s.pos + 1 - s.start >= size then filled.(sub := Check(s.futures)) else filled
      else if s.start < s.pos then s.(sub := Check(s.futures))
      else s.(sub := WaitAll)
    case Check(rest) => if rest == [] then s.(sub := Acquire) else CheckOne(s, rest, false)
    case Acquire => s.(permits := s.permits - 1, sub := Submit)
    case Submit =>
      s.(tasks := s.tasks + [Task(s.start, s.pos, Queued, false)], futures := s.futures + [|s.tasks|],
         start := s.pos, sub := ReadSize)
    case WaitAll => s.(sub := FinalCheck(s.futures))
    case FinalCheck(rest) =>
      if rest == [] then s.(sub := if s.futures == [] then Returned else Raised) else CheckOne(s, rest, true)
    case Returned => s
    case Raised => s
  }

  predicate Enabled(cfg: Config, s: State, a: Action) {
    match a
    case SubmitterStep => SubmitterEnabled(s)
    case CustomSplit => cfg.customSplitting && s.sub.Fill? && s.start < s.pos
    case SubmitFails => s.sub.Submit?
    case TaskStep(k, _, _) => TaskEnabled(s, k)
    case ReleasePermit(k) => k < |s.tasks| && IsFinished(s.tasks[k]) && !s.tasks[k].released
  }

  function Step(cfg: Config, s: State, a: Action): State
    requires Enabled(cfg, s, a)
  {
    match a
    case SubmitterStep => StepSubmitter(cfg, s)
    case CustomSplit => s.(sub := Check(s.futures))
    case SubmitFails => s.(permits := s.permits + 1, sub := Raised)
    case TaskStep(k, outcome, now) => StepTask(cfg, s, k, outcome, now)
    case ReleasePermit(k) =>
      s.(permits := s.permits + 1, tasks := s.tasks[k := s.tasks[k].(released := true)])
  }

  /** A fresh `execute`; the batch size and the time of its last change are what earlier
      ones left. */
  predicate IsInitial(cfg: Config, s: State) {
    && 1 <= s.batchSize <= cfg.maxBatchSize && s.permits == cfg.total >= 1
    && s.sub == ReadSize && s.start == s.pos == 0 && s.tasks == [] && s.futures == []
    && |s.calls| == |s.succeeded| == cfg.items
    && (forall x :: 0 <= x < cfg.items ==> s.calls[x] == 0 && !s.succeeded[x])
  }

  ghost predicate IsRun(cfg: Config, states: seq<State>, actions: seq<Action>) {
    && |states| == |actions| + 1 && IsInitial(cfg, states[0])
    && forall i :: 0 <= i < |actions| ==>
      Enabled(cfg, states[i], actions[i]) && states[i + 1] == Step(cfg, states[i], actions[i])
  }

  // --- The invariant ---

  function EndOf(tasks: seq<Task>): nat {
    if tasks == [] then 0 else tasks[|tasks| - 1].hi
  }

  /** The batches follow each other without gap or overlap from the first item on. */
  predicate InOrder(tasks: seq<Task>) {
    tasks == [] ||
    var init, last := tasks[..|tasks| - 1], tasks[|tasks| - 1];
    InOrder(init) && EndOf(init) == last.lo < last.hi
  }

  predicate BatchesInOrder(cfg: Config, s: State) {
    && InOrder(s.tasks) && EndOf(s.tasks) == s.start <= s.pos <= cfg.items
    && ((s.sub.Check? || s.sub.Acquire? || s.sub.Submit?) ==> s.start < s.pos)
    && ((s.sub.WaitAll? || s.sub.FinalCheck? || s.sub.Returned?) ==> s.start == cfg.items)
  }

  lemma {:induction false} InOrderAt(tasks: seq<Task>, k: nat)
    requires InOrder(tasks) && k < |tasks|
    ensures tasks[k].lo < tasks[k].hi <= EndOf(tasks)
  {
    if k < |tasks| - 1 { InOrderAt(tasks[..|tasks| - 1], k); }
  }

  /** Different batches have no item in common. */
  lemma {:induction false} BatchesAreApart(tasks: seq<Task>, k: nat, m: nat)
    requires InOrder(tasks) && k < m < |tasks|
    ensures tasks[k].hi <= tasks[m].lo
  {
    if m < |tasks| - 1 { BatchesAreApart(tasks[..|tasks| - 1], k, m); } else { InOrderAt(tasks[..m], k); }
  }

  lemma {:induction false} InOrderUpdate(tasks: seq<Task>, k: nat, t: Task)
    requires InOrder(tasks) && k < |tasks| && t.lo == tasks[k].lo && t.hi == tasks[k].hi
    ensures InOrder(tasks[k := t]) && EndOf(tasks[k := t]) == EndOf(tasks)
  {
    var n := |tasks| - 1;
    if k < n {
      InOrderUpdate(tasks[..n], k, t);
      assert tasks[k := t][..n] == tasks[..n][k := t];
    } else {
      assert tasks[k := t][..n] == tasks[..n];
    }
  }

  ghost predicate SizesInRange(cfg: Config, s: State) {
    && 1 <= s.batchSize <= cfg.maxBatchSize
    && forall k :: 0 <= k < |s.tasks| ==>
      (s.tasks[k].pc.DecreaseWriteSize? ==> 1 < Len(s.tasks[k]) <= cfg.maxBatchSize) &&
      ((s.tasks[k].pc.IncreaseReadClock? || s.tasks[k].pc.IncreaseReadLatest? || s.tasks[k].pc.IncreaseWriteSize?) ==>
        Len(s.tasks[k]) * 2 <= cfg.maxBatchSize)
  }

  /** How many handler calls item x of a task has been in, at most, and whether one succeeded. */
  ghost predicate ItemOk(cfg: Config, t: Task, x: nat, calls: nat, succeeded: bool) {
    match t.pc
    case Queued => calls == 0
    case FirstCall => calls == 1
    case DecreaseRead => calls == 1
    case DecreaseWriteSize => calls == 1
    case DecreaseWriteTime => calls == 1
    case Retry(i, j, a) =>
      t.lo <= i < j <= t.hi && (a == 0 || a < cfg.maxRetries) &&
      (if x < i then calls <= 1 + cfg.maxRetries && (cfg.maxRetries > 0 ==> succeeded)
       else if x < j then calls == 1 + a
       else calls == 1)
    case RetryCall(i, j, a) =>
      t.lo <= i < j <= t.hi && a < cfg.maxRetries &&
      (if x < i then calls <= 1 + cfg.maxRetries && (cfg.maxRetries > 0 ==> succeeded)
       else if x < j then calls == 2 + a
       else calls == 1)
    case Failed => calls <= 1 + cfg.maxRetries
    case _ => calls <= 1 + cfg.maxRetries && (cfg.maxRetries > 0 ==> succeeded)
  }

  ghost predicate TaskOk(cfg: Config, t: Task, calls: seq<nat>, succeeded: seq<bool>) {
    t.lo < t.hi <= |calls| == |succeeded| &&
    forall x: nat :: t.lo <= x < t.hi ==> ItemOk(cfg, t, x, calls[x], succeeded[x])
  }

  ghost predicate ItemsOk(cfg: Config, s: State) {
    && |s.calls| == |s.succeeded| == cfg.items
    && (forall k :: 0 <= k < |s.tasks| ==> TaskOk(cfg, s.tasks[k], s.calls, s.succeeded))
    && (forall x :: s.start <= x < cfg.items ==> s.calls[x] == 0)
  }

  /** A future that is no longer in the list belongs to a task that is done. */
  ghost predicate FuturesOk(s: State) {
    && (forall f :: f in s.futures ==> f < |s.tasks|)
    && (forall k :: 0 <= k < |s.tasks| ==> k in s.futures || s.tasks[k].pc == Done)
    && (s.sub.Check? ==> forall f :: f in s.sub.rest ==> f < |s.tasks|)
    && (s.sub.FinalCheck? ==> forall f :: f in s.sub.rest ==> f < |s.tasks|)
    && (s.sub.Returned? ==> s.futures == [])
  }

  /** The submissions whose permit has not been given back. */
  function Unreleased(tasks: seq<Task>): nat {
    if tasks == [] then 0
    else Unreleased(tasks[..|tasks| - 1]) + if tasks[|tasks| - 1].released then 0 else 1
  }

  /** Every permit is free, with the submitting thread, or with a task. */
  predicate PermitsAddUp(cfg: Config, s: State) {
    && s.permits >= 0
    && s.permits + Unreleased(s.tasks) + (if s.sub.Submit? then 1 else 0) == cfg.total
  }

  ghost predicate Inv(cfg: Config, s: State) {
    && BatchesInOrder(cfg, s) && SizesInRange(cfg, s) && ItemsOk(cfg, s) && FuturesOk(s) && PermitsAddUp(cfg, s)
    && (forall k :: 0 <= k < |s.tasks| && s.tasks[k].released ==> IsFinished(s.tasks[k]))
  }

  // --- Every step keeps it ---

  lemma InitialIsOk(cfg: Config, s: State)
    requires IsInitial(cfg, s)
    ensures Inv(cfg, s)
  {
  }

  /** A task touches the records of its own items only. */
  lemma EffectIsLocal(cfg: Config, t: Task, size: int, latest: Option<int>, outcome: Outcome, now: int, x: nat)
    requires t.lo < t.hi && (exists c, d :: ItemOk(cfg, t, t.lo, c, d)) && !(t.lo <= x < t.hi)
    ensures var e := TaskEffect(cfg, t, size, latest, outcome, now); !e.called.Has(x) && !e.marked.Has(x)
  {
  }

  ghost predicate ItemOkAfter(cfg: Config, t: Task, e: Effect, x: nat, c: nat, d: bool) {
    ItemOk(cfg, t.(pc := e.pc), x, if e.called.Has(x) then c + 1 else c, e.marked.Has(x) || d)
  }

  lemma FirstCallKeepsItem(cfg: Config, t: Task, size: int, latest: Option<int>, outcome: Outcome, now: int,
                           x: nat, c: nat, d: bool)
    requires t.pc.Queued? || t.pc.FirstCall?
    requires t.lo <= x < t.hi && ItemOk(cfg, t, x, c, d)
    ensures ItemOkAfter(cfg, t, TaskEffect(cfg, t, size, latest, outcome, now), x, c, d)
  {
    match outcome
    case Success =>
    case Retriable =>
    case Fatal =>
  }

  lemma DecreaseKeepsItem(cfg: Config, t: Task, size: int, latest: Option<int>, outcome: Outcome, now: int,
                          x: nat, c: nat, d: bool)
    requires t.pc.DecreaseRead? || t.pc.DecreaseWriteSize? || t.pc.DecreaseWriteTime?
    requires t.lo <= x < t.hi && ItemOk(cfg, t, x, c, d)
    ensures ItemOkAfter(cfg, t, TaskEffect(cfg, t, size, latest, outcome, now), x, c, d)
  {
  }

  lemma IncreaseKeepsItem(cfg: Config, t: Task, size: int, latest: Option<int>, outcome: Outcome, now: int,
                          x: nat, c: nat, d: bool)
    requires t.pc.IncreaseReadClock? || t.pc.IncreaseReadLatest? || t.pc.IncreaseWriteSize? || t.pc.IncreaseWriteTime?
    requires t.lo <= x < t.hi && ItemOk(cfg, t, x, c, d)
    ensures ItemOkAfter(cfg, t, TaskEffect(cfg, t, size, latest, outcome, now), x, c, d)
  {
  }

  lemma RetryKeepsItem(cfg: Config, t: Task, size: int, latest: Option<int>, outcome: Outcome, now: int,
                       x: nat, c: nat, d: bool)
    requires t.pc.Retry? || t.pc.RetryCall?
    requires t.lo <= x < t.hi && ItemOk(cfg, t, x, c, d)
    ensures ItemOkAfter(cfg, t, TaskEffect(cfg, t, size, latest, outcome, now), x, c, d)
  {
    match t.pc
    case Retry(i, j, a) => if a < cfg.maxRetries {} else {}
    case RetryCall(i, j, a) =>
      match outcome
      case Success =>
      case Retriable =>
      case Fatal =>
  }

  /** One step of a task keeps the account of each of its items. */
  lemma EffectKeepsItem(cfg: Config, t: Task, size: int, latest: Option<int>, outcome: Outcome, now: int,
                        x: nat, c: nat, d: bool)
    requires t.pc != Done && t.pc != Failed
    requires t.lo <= x < t.hi && ItemOk(cfg, t, x, c, d)
    ensures ItemOkAfter(cfg, t, TaskEffect(cfg, t, size, latest, outcome, now), x, c, d)
  {
    if t.pc.Queued? || t.pc.FirstCall? {
      FirstCallKeepsItem(cfg, t, size, latest, outcome, now, x, c, d);
    } else if t.pc.DecreaseRead? || t.pc.DecreaseWriteSize? || t.pc.DecreaseWriteTime? {
      DecreaseKeepsItem(cfg, t, size, latest, outcome, now, x, c, d);
    } else if t.pc.Retry? || t.pc.RetryCall? {
      RetryKeepsItem(cfg, t, size, latest, outcome, now, x, c, d);
    } else {
      IncreaseKeepsItem(cfg, t, size, latest, outcome, now, x, c, d);
    }
  }

  /** The records of items outside the task are as before. */
  ghost predicate SameOutside(t: Task, s: State, s': State) {
    |s'.calls| == |s.calls| && |s'.succeeded| == |s.succeeded| &&
    forall x: nat :: !(t.lo <= x < t.hi) ==>
      (x < |s.calls| ==> s'.calls[x] == s.calls[x]) && (x < |s.succeeded| ==> s'.succeeded[x] == s.succeeded[x])
  }

  lemma TaskStepIsLocal(cfg: Config, s: State, k: nat, outcome: Outcome, now: int)
    requires TaskEnabled(s, k) && TaskOk(cfg, s.tasks[k], s.calls, s.succeeded)
    ensures SameOutside(s.tasks[k], s, StepTask(cfg, s, k, outcome, now))
  {
    var s', t := StepTask(cfg, s, k, outcome, now), s.tasks[k];
    assert ItemOk(cfg, t, t.lo, s.calls[t.lo], s.succeeded[t.lo]);
    forall x: nat | !(t.lo <= x < t.hi)
      ensures (x < |s.calls| ==> s'.calls[x] == s.calls[x]) && (x < |s.succeeded| ==> s'.succeeded[x] == s.succeeded[x])
    {
      EffectIsLocal(cfg, t, s.batchSize, s.latest, outcome, now, x);
    }
  }

  lemma OwnTaskStaysOk(cfg: Config, s: State, k: nat, outcome: Outcome, now: int)
    requires TaskEnabled(s, k) && TaskOk(cfg, s.tasks[k], s.calls, s.succeeded)
    ensures var s' := StepTask(cfg, s, k, outcome, now); TaskOk(cfg, s'.tasks[k], s'.calls, s'.succeeded)
  {
    var s', t := StepTask(cfg, s, k, outcome, now), s.tasks[k];
    forall x: nat | t.lo <= x < t.hi ensures ItemOk(cfg, s'.tasks[k], x, s'.calls[x], s'.succeeded[x]) {
      EffectKeepsItem(cfg, t, s.batchSize, s.latest, outcome, now, x, s.calls[x], s.succeeded[x]);
    }
  }

  lemma OtherTaskStaysOk(cfg: Config, s: State, s': State, t: Task, u: Task)
    requires SameOutside(t, s, s') && TaskOk(cfg, u, s.calls, s.succeeded) && (u.hi <= t.lo || t.hi <= u.lo)
    ensures TaskOk(cfg, u, s'.calls, s'.succeeded)
  {
    forall x: nat | u.lo <= x < u.hi ensures ItemOk(cfg, u, x, s'.calls[x], s'.succeeded[x]) {
      assert ItemOk(cfg, u, x, s.calls[x], s.succeeded[x]);
    }
  }

  lemma TaskStepKeepsItems(cfg: Config, s: State, k: nat, outcome: Outcome, now: int)
    requires Inv(cfg, s) && TaskEnabled(s, k)
    ensures ItemsOk(cfg, StepTask(cfg, s, k, outcome, now))
  {
    var s' := StepTask(cfg, s, k, outcome, now);
    TaskStepIsLocal(cfg, s, k, outcome, now);
    OwnTaskStaysOk(cfg, s, k, outcome, now);
    InOrderAt(s.tasks, k);
    forall m | 0 <= m < |s'.tasks| ensures TaskOk(cfg, s'.tasks[m], s'.calls, s'.succeeded) {
      if m != k {
        BatchesAreApart(s.tasks, if m < k then m else k, if m < k then k else m);
        OtherTaskStaysOk(cfg, s, s', s.tasks[k], s.tasks[m]);
      }
    }
  }

  lemma TaskStepKeepsSizes(cfg: Config, s: State, k: nat, outcome: Outcome, now: int)
    requires Inv(cfg, s) && TaskEnabled(s, k)
    ensures SizesInRange(cfg, StepTask(cfg, s, k, outcome, now))
  {
    InOrderAt(s.tasks, k);
  }

  lemma {:induction false} UnreleasedAt(tasks: seq<Task>, k: nat, t: Task)
    requires k < |tasks|
    ensures Unreleased(tasks[k := t]) ==
      Unreleased(tasks) - (if tasks[k].released then 0 else 1) + (if t.released then 0 else 1)
  {
    var n := |tasks| - 1;
    if k < n {
      UnreleasedAt(tasks[..n], k, t);
      assert tasks[k := t][..n] == tasks[..n][k := t];
    } else {
      assert tasks[k := t][..n] == tasks[..n];
    }
  }

  lemma TaskStepKeepsInv(cfg: Config, s: State, k: nat, outcome: Outcome, now: int)
    requires Inv(cfg, s) && TaskEnabled(s, k)
    ensures Inv(cfg, StepTask(cfg, s, k, outcome, now))
  {
    var s' := StepTask(cfg, s, k, outcome, now);
    TaskStepKeepsItems(cfg, s, k, outcome, now);
    TaskStepKeepsSizes(cfg, s, k, outcome, now);
    UnreleasedAt(s.tasks, k, s'.tasks[k]);
    InOrderUpdate(s.tasks, k, s'.tasks[k]);
  }

  lemma {:induction false} WithoutKeepsOthers(fs: seq<nat>, f: nat)
    ensures forall g :: g in fs && g != f ==> g in Without(fs, f)
    ensures forall g :: g in Without(fs, f) ==> g in fs
  {
    if fs != [] && fs[0] != f {
      WithoutKeepsOthers(fs[1..], f);
      assert fs == [fs[0]] + fs[1..];
    } else if fs != [] {
      assert fs == [fs[0]] + fs[1..];
    }
  }

  /** Steps that change nothing but where the submitting thread stands, its futures, the
      permits and the filling of the batch. */
  lemma SubmitterFrame(cfg: Config, s: State, s': State)
    requires Inv(cfg, s)
    requires s' == s.(sub := s'.sub, futures := s'.futures, permits := s'.permits, pos := s'.pos)
    requires BatchesInOrder(cfg, s') && FuturesOk(s') && PermitsAddUp(cfg, s')
    ensures Inv(cfg, s')
  {
  }

  lemma CheckKeepsFutures(s: State, rest: seq<nat>, final: bool)
    requires FuturesOk(s) && rest != [] && s.sub == (if final then FinalCheck(rest) else Check(rest))
    ensures rest[0] < |s.tasks| && FuturesOk(CheckOne(s, rest, final))
  {
    assert rest[0] in rest;
    forall f | f in rest[1..] ensures f < |s.tasks| { assert f in rest; }
    WithoutKeepsOthers(s.futures, rest[0]);
  }

  lemma CheckKeepsInv(cfg: Config, s: State, rest: seq<nat>, final: bool)
    requires Inv(cfg, s) && rest != [] && s.sub == (if final then FinalCheck(rest) else Check(rest))
    ensures rest[0] < |s.tasks| && Inv(cfg, CheckOne(s, rest, final))
  {
    CheckKeepsFutures(s, rest, final);
    SubmitterFrame(cfg, s, CheckOne(s, rest, final));
  }

  lemma SubmitKeepsInv(cfg: Config, s: State)
    requires Inv(cfg, s) && s.sub.Submit?
    ensures Inv(cfg, StepSubmitter(cfg, s))
  {
    SubmitKeepsRecords(cfg, s);
    assert StepSubmitter(cfg, s).tasks[..|s.tasks|] == s.tasks;
  }

  lemma SubmitKeepsRecords(cfg: Config, s: State)
    requires ItemsOk(cfg, s) && FuturesOk(s) && s.sub.Submit? && s.start < s.pos <= cfg.items
    ensures ItemsOk(cfg, StepSubmitter(cfg, s)) && FuturesOk(StepSubmitter(cfg, s))
  {
    var s' := StepSubmitter(cfg, s);
    assert s'.tasks[|s.tasks|] == Task(s.start, s.pos, Queued, false) && |s.tasks| in s'.futures;
    forall k | 0 <= k < |s'.tasks| ensures k in s'.futures || s'.tasks[k].pc == Done {
      if k < |s.tasks| { assert k in s.futures || s.tasks[k].pc == Done; }
    }
  }

  lemma SubmitterKeepsInv(cfg: Config, s: State)
    requires Inv(cfg, s) && SubmitterEnabled(s)
    ensures Inv(cfg, StepSubmitter(cfg, s))
  {
    if (s.sub.Check? || s.sub.FinalCheck?) && s.sub.rest != [] {
      CheckKeepsInv(cfg, s, s.sub.rest, s.sub.FinalCheck?);
    } else if s.sub.Submit? {
      SubmitKeepsInv(cfg, s);
    } else {
      FillingKeepsInv(cfg, s);
    }
  }

  predicate IsSimple(s: State) {
    SubmitterEnabled(s) && !s.sub.Submit? && ((s.sub.Check? || s.sub.FinalCheck?) ==> s.sub.rest == [])
  }

  lemma FillingKeepsInv(cfg: Config, s: State)
    requires Inv(cfg, s) && IsSimple(s)
    ensures Inv(cfg, StepSubmitter(cfg, s))
  {
    FillingKeepsBatches(cfg, s);
    FillingKeepsFutures(cfg, s);
    SubmitterFrame(cfg, s, StepSubmitter(cfg, s));
  }

  lemma FillingKeepsBatches(cfg: Config, s: State)
    requires BatchesInOrder(cfg, s) && IsSimple(s)
    ensures BatchesInOrder(cfg, StepSubmitter(cfg, s))
  {
  }

  lemma FillingKeepsFutures(cfg: Config, s: State)
    requires FuturesOk(s) && IsSimple(s)
    ensures FuturesOk(StepSubmitter(cfg, s))
  {
  }

  lemma ReleaseKeepsInv(cfg: Config, s: State, k: nat)
    requires Inv(cfg, s) && Enabled(cfg, s, ReleasePermit(k))
    ensures Inv(cfg, Step(cfg, s, ReleasePermit(k)))
  {
    var s' := Step(cfg, s, ReleasePermit(k));
    InOrderUpdate(s.tasks, k, s'.tasks[k]);
    ReleaseKeepsItems(cfg, s, k);
    ReleaseKeepsPermits(cfg, s, k);
  }

  lemma ReleaseKeepsItems(cfg: Config, s: State, k: nat)
    requires ItemsOk(cfg, s) && Enabled(cfg, s, ReleasePermit(k))
    ensures ItemsOk(cfg, Step(cfg, s, ReleasePermit(k)))
  {
    ReleasedTaskIsOk(cfg, s.tasks[k], s.calls, s.succeeded);
  }

  lemma ReleaseKeepsPermits(cfg: Config, s: State, k: nat)
    requires PermitsAddUp(cfg, s) && FuturesOk(s) && SizesInRange(cfg, s) && Enabled(cfg, s, ReleasePermit(k))
    ensures var s' := Step(cfg, s, ReleasePermit(k)); PermitsAddUp(cfg, s') && FuturesOk(s') && SizesInRange(cfg, s')
  {
    UnreleasedAt(s.tasks, k, s.tasks[k].(released := true));
  }

  lemma ReleasedTaskIsOk(cfg: Config, t: Task, calls: seq<nat>, succeeded: seq<bool>)
    requires TaskOk(cfg, t, calls, succeeded)
    ensures TaskOk(cfg, t.(released := true), calls, succeeded)
  {
    forall x: nat | t.lo <= x < t.hi ensures ItemOk(cfg, t.(released := true), x, calls[x], succeeded[x]) {
      assert ItemOk(cfg, t, x, calls[x], succeeded[x]);
    }
  }

  lemma StepKeepsInv(cfg: Config, s: State, a: Action)
    requires Inv(cfg, s) && Enabled(cfg, s, a)
    ensures Inv(cfg, Step(cfg, s, a))
  {
    match a
    case SubmitterStep => SubmitterKeepsInv(cfg, s);
    case TaskStep(k, outcome, now) => TaskStepKeepsInv(cfg, s, k, outcome, now);
    case ReleasePermit(k) => ReleaseKeepsInv(cfg, s, k);
    case CustomSplit =>
    case SubmitFails =>
  }

  // --- What holds in every state of every run ---

  lemma {:induction false} InvHoldsInEveryState(cfg: Config, states: seq<State>, actions: seq<Action>, i: nat)
    requires IsRun(cfg, states, actions) && i < |states|
    ensures Inv(cfg, states[i])
  {
    if i == 0 {
      InitialIsOk(cfg, states[0]);
    } else {
      InvHoldsInEveryState(cfg, states, actions, i - 1);
      StepKeepsInv(cfg, states[i - 1], actions[i - 1]);
      assert states[i - 1 + 1] == Step(cfg, states[i - 1], actions[i - 1]);
    }
  }

  /** Whatever the races on it, the batch size stays in range. */
  lemma BatchSizeStaysInRange(cfg: Config, states: seq<State>, actions: seq<Action>, i: nat)
    requires IsRun(cfg, states, actions) && i < |states|
    ensures 1 <= states[i].batchSize <= cfg.maxBatchSize
  {
    InvHoldsInEveryState(cfg, states, actions, i);
  }

  /** No item is in more than one call and `max_retries` further ones. */
  lemma CallsAreBounded(cfg: Config, states: seq<State>, actions: seq<Action>, i: nat, x: nat)
    requires IsRun(cfg, states, actions) && i < |states| && x < cfg.items
    ensures |states[i].calls| == cfg.items && states[i].calls[x] <= 1 + cfg.maxRetries
  {
    var s := states[i];
    InvHoldsInEveryState(cfg, states, actions, i);
    if x < s.start {
      var k := TaskOf(s.tasks, x);
      assert TaskOk(cfg, s.tasks[k], s.calls, s.succeeded);
      assert ItemOk(cfg, s.tasks[k], x, s.calls[x], s.succeeded[x]);
    }
  }

  /** Every submitted item is in one of the batches. */
  lemma {:induction false} TaskOf(tasks: seq<Task>, x: nat) returns (k: nat)
    requires InOrder(tasks) && x < EndOf(tasks)
    ensures k < |tasks| && tasks[k].lo <= x < tasks[k].hi
  {
    if x >= tasks[|tasks| - 1].lo {
      k := |tasks| - 1;
    } else {
      k := TaskOf(tasks[..|tasks| - 1], x);
    }
  }

  /** `execute` and `wait` return normally only when every item has been in a successful
      handler call, given at least one retry. */
  lemma ReturningMeansAllSucceeded(cfg: Config, states: seq<State>, actions: seq<Action>, i: nat, x: nat)
    requires IsRun(cfg, states, actions) && i < |states| && states[i].sub == Returned
    requires cfg.maxRetries >= 1 && x < cfg.items
    ensures |states[i].succeeded| == cfg.items && states[i].succeeded[x]
  {
    var s := states[i];
    InvHoldsInEveryState(cfg, states, actions, i);
    var k := TaskOf(s.tasks, x);
    assert k in s.futures || s.tasks[k].pc == Done;
    assert TaskOk(cfg, s.tasks[k], s.calls, s.succeeded);
    assert ItemOk(cfg, s.tasks[k], x, s.calls[x], s.succeeded[x]);
  }

  /** The items of the submitted batches, in the order of submission. */
  function Submitted<T>(input: seq<T>, tasks: seq<Task>): seq<T>
    requires InOrder(tasks) && EndOf(tasks) <= |input|
  {
    if tasks == [] then []
    else
      var init, last := tasks[..|tasks| - 1], tasks[|tasks| - 1];
      Submitted(input, init) + input[last.lo..last.hi]
  }

  lemma {:induction false} BatchesJoin<T>(input: seq<T>, tasks: seq<Task>)
    requires InOrder(tasks) && EndOf(tasks) <= |input|
    ensures Submitted(input, tasks) == input[..EndOf(tasks)]
  {
    if tasks != [] { BatchesJoin(input, tasks[..|tasks| - 1]); }
  }

  /** The batches, one after the other, are the work list up to where it has been
      submitted, and all of it once `wait` is entered. */
  lemma BatchesAreTheInput<T>(cfg: Config, states: seq<State>, actions: seq<Action>, i: nat, input: seq<T>)
    requires IsRun(cfg, states, actions) && i < |states| && |input| == cfg.items
    ensures var s := states[i];
      && InOrder(s.tasks) && EndOf(s.tasks) == s.start <= |input|
      && Submitted(input, s.tasks) == input[..s.start]
      && (s.sub.WaitAll? || s.sub.FinalCheck? || s.sub.Returned? ==> Submitted(input, s.tasks) == input)
  {
    InvHoldsInEveryState(cfg, states, actions, i);
    BatchesJoin(input, states[i].tasks);
    assert input[..|input|] == input;
  }

  /** The bounded semaphore is never released beyond its bound, a failed submission
      included; and a submitter that has to wait for it has a task to wait for. */
  lemma PermitsAreKept(cfg: Config, states: seq<State>, actions: seq<Action>, i: nat)
    requires IsRun(cfg, states, actions) && i < |states|
    ensures PermitsAddUp(cfg, states[i]) && states[i].permits <= cfg.total
    ensures states[i].sub == Acquire && states[i].permits == 0 ==>
      exists k :: 0 <= k < |states[i].tasks| && !states[i].tasks[k].released
  {
    var s := states[i];
    InvHoldsInEveryState(cfg, states, actions, i);
    TotalIsPositive(cfg, states, actions);
    if Unreleased(s.tasks) > 0 {
      var k := SomeUnreleased(s.tasks);
    }
  }

  lemma TotalIsPositive(cfg: Config, states: seq<State>, actions: seq<Action>)
    requires IsRun(cfg, states, actions)
    ensures cfg.total >= 1
  {
    assert IsInitial(cfg, states[0]);
  }

  lemma {:induction false} SomeUnreleased(tasks: seq<Task>) returns (k: nat)
    requires Unreleased(tasks) > 0
    ensures k < |tasks| && !tasks[k].released
  {
    if !tasks[|tasks| - 1].released {
      k := |tasks| - 1;
    } else {
      k := SomeUnreleased(tasks[..|tasks| - 1]);
    }
  }

  // --- Without retries a failed batch passes for a done one ---

  ghost predicate IsReachable(cfg: Config, s: State) {
    exists states, actions :: IsRun(cfg, states, actions) && states[|states| - 1] == s
  }

  lemma StepIsReachable(cfg: Config, s: State, a: Action)
    requires IsReachable(cfg, s) && Enabled(cfg, s, a)
    ensures IsReachable(cfg, Step(cfg, s, a))
  {
    var states, actions :| IsRun(cfg, states, actions) && states[|states| - 1] == s;
    var states', actions' := states + [Step(cfg, s, a)], actions + [a];
    forall i | 0 <= i < |actions'|
      ensures Enabled(cfg, states'[i], actions'[i]) && states'[i + 1] == Step(cfg, states'[i], actions'[i])
    {
      if i < |actions| { assert states[i + 1] == Step(cfg, states[i], actions[i]); }
    }
    assert IsRun(cfg, states', actions') && states'[|states'| - 1] == Step(cfg, s, a);
  }

  function Zeros(n: nat): seq<nat> { seq(n, _ => 0) }

  function Nothing(n: nat): seq<bool> { seq(n, _ => false) }

  /** Tasks of one item each, all done and released. */
  function DoneTasks(n: nat): seq<Task> {
    if n == 0 then [] else DoneTasks(n - 1) + [Task(n - 1, n, Done, true)]
  }

  lemma {:induction false} DoneTasksAreMany(n: nat)
    ensures |DoneTasks(n)| == n
    ensures n > 0 ==> DoneTasks(n)[n - 1] == Task(n - 1, n, Done, true)
  {
    if n > 0 { DoneTasksAreMany(n - 1); }
  }

  /** The first `k` items have been submitted one by one, and no call has succeeded. */
  ghost predicate AllFailedSoFar(cfg: Config, s: State, k: nat) {
    && s.batchSize == 1 && s.latest == None && s.permits == cfg.total && s.sub == ReadSize
    && s.start == s.pos == k && s.tasks == DoneTasks(k) && s.futures == (if k == 0 then [] else [k - 1])
    && |s.calls| == cfg.items && s.succeeded == Nothing(cfg.items)
  }

  lemma FillOne(cfg: Config, s: State) returns (s': State)
    requires IsReachable(cfg, s) && s.sub == ReadSize && s.batchSize == 1 && s.start == s.pos < cfg.items
    ensures s' == s.(pos := s.pos + 1, sub := Check(s.futures)) && IsReachable(cfg, s')
  {
    StepIsReachable(cfg, s, SubmitterStep);
    var filling := s.(sub := Fill(1));
    StepIsReachable(cfg, filling, SubmitterStep);
    s' := Step(cfg, filling, SubmitterStep);
    if cfg.customSplitting {
      StepIsReachable(cfg, s', CustomSplit);
      s' := s'.(sub := Check(s'.futures));
    }
  }

  lemma CheckOnly(s: State, f: nat, final: bool)
    requires f < |s.tasks| && s.tasks[f].pc == Done && s.futures == [f]
    ensures CheckOne(s, [f], final) == s.(sub := if final then FinalCheck([]) else Check([]), futures := [])
  {
    assert [f][1..] == [];
    assert Without([f], f) == [];
  }

  lemma CheckOneDone(cfg: Config, s: State, k: nat) returns (s': State)
    requires IsReachable(cfg, s) && s.sub == Check(s.futures) && s.futures == (if k == 0 then [] else [k - 1])
    requires k > 0 ==> k - 1 < |s.tasks| && s.tasks[k - 1].pc == Done
    ensures s' == s.(sub := Acquire, futures := []) && IsReachable(cfg, s')
  {
    s' := s;
    if k > 0 {
      CheckOnly(s, k - 1, false);
      StepIsReachable(cfg, s, SubmitterStep);
      s' := s.(sub := Check([]), futures := []);
    }
    StepIsReachable(cfg, s', SubmitterStep);
    s' := s'.(sub := Acquire);
  }

  lemma SubmitBatch(cfg: Config, s: State) returns (s': State)
    requires IsReachable(cfg, s) && s.sub == Acquire && s.permits > 0
    ensures IsReachable(cfg, s')
    ensures s' == s.(permits := s.permits - 1, tasks := s.tasks + [Task(s.start, s.pos, Queued, false)],
                     futures := s.futures + [|s.tasks|], start := s.pos, sub := ReadSize)
  {
    StepIsReachable(cfg, s, SubmitterStep);
    s' := s.(sub := Submit, permits := s.permits - 1);
    StepIsReachable(cfg, s', SubmitterStep);
    s' := Step(cfg, s', SubmitterStep);
  }

  lemma SubmitOne(cfg: Config, s: State, k: nat) returns (s': State)
    requires IsReachable(cfg, s) && AllFailedSoFar(cfg, s, k) && k < cfg.items && cfg.total >= 1
    ensures IsReachable(cfg, s')
    ensures s' == s.(pos := k + 1, start := k + 1, permits := cfg.total - 1, futures := [k],
                     tasks := DoneTasks(k) + [Task(k, k + 1, Queued, false)])
  {
    DoneTasksAreMany(k);
    var filled := FillOne(cfg, s);
    var checked := CheckOneDone(cfg, filled, k);
    s' := SubmitBatch(cfg, checked);
    assert [] + [k] == [k];
  }

  lemma MarkNothing(n: nat)
    ensures Mark(Nothing(n), NONE) == Nothing(n)
  {
  }

  lemma TaskMoves(cfg: Config, s: State, before: seq<Task>, t: Task, outcome: Outcome) returns (s': State)
    requires IsReachable(cfg, s) && s.tasks == before + [t] && !IsFinished(t) && s.succeeded == Nothing(cfg.items)
    requires |s.calls| == cfg.items
    requires TaskEffect(cfg, t, s.batchSize, s.latest, outcome, 0).marked == NONE
    ensures IsReachable(cfg, s') && |s'.calls| == cfg.items
    ensures var e := TaskEffect(cfg, t, s.batchSize, s.latest, outcome, 0);
      s' == s.(tasks := before + [t.(pc := e.pc)], calls := s'.calls, batchSize := e.batchSize, latest := e.latest)
  {
    var k := |before|;
    assert s.tasks[k] == t;
    StepIsReachable(cfg, s, TaskStep(k, outcome, 0));
    MarkNothing(cfg.items);
    s' := Step(cfg, s, TaskStep(k, outcome, 0));
    assert (before + [t])[k := t.(pc := s'.tasks[k].pc)] == before + [s'.tasks[k]];
  }

  /** A task without retries gives up without a successful call, and counts as done. */
  lemma TaskFails(cfg: Config, s: State, before: seq<Task>, k: nat) returns (s': State)
    requires IsReachable(cfg, s) && s.tasks == before + [Task(k, k + 1, Queued, false)] && cfg.maxRetries == 0
    requires s.batchSize == 1 && s.succeeded == Nothing(cfg.items) && |s.calls| == cfg.items
    ensures IsReachable(cfg, s') && |s'.calls| == cfg.items
    ensures s' == s.(tasks := before + [Task(k, k + 1, Done, false)], calls := s'.calls)
  {
    var t := Task(k, k + 1, Queued, false);
    s' := TaskMoves(cfg, s, before, t, Success);
    s' := TaskMoves(cfg, s', before, t.(pc := FirstCall), Retriable);
    if !cfg.customSplitting { s' := TaskMoves(cfg, s', before, t.(pc := DecreaseRead), Success); }
    s' := TaskMoves(cfg, s', before, t.(pc := Retry(k, k + 1, 0)), Success);
  }

  lemma ReleaseLast(cfg: Config, s: State, before: seq<Task>, t: Task) returns (s': State)
    requires IsReachable(cfg, s) && s.tasks == before + [t] && t.pc == Done && !t.released
    ensures IsReachable(cfg, s')
    ensures s' == s.(permits := s.permits + 1, tasks := before + [t.(released := true)])
  {
    assert s.tasks[|before|] == t;
    StepIsReachable(cfg, s, ReleasePermit(|before|));
    s' := Step(cfg, s, ReleasePermit(|before|));
    assert (before + [t])[|before| := t.(released := true)] == before + [t.(released := true)];
  }

  lemma FailOne(cfg: Config, s: State, k: nat) returns (s': State)
    requires IsReachable(cfg, s) && AllFailedSoFar(cfg, s, k) && k < cfg.items && cfg.total >= 1 && cfg.maxRetries == 0
    ensures IsReachable(cfg, s') && AllFailedSoFar(cfg, s', k + 1)
  {
    s' := SubmitOne(cfg, s, k);
    s' := TaskFails(cfg, s', DoneTasks(k), k);
    s' := ReleaseLast(cfg, s', DoneTasks(k), Task(k, k + 1, Done, false));
  }

  lemma {:induction false} FailAll(cfg: Config, k: nat) returns (s: State)
    requires k <= cfg.items && cfg.maxBatchSize >= 1 && cfg.total >= 1 && cfg.maxRetries == 0
    ensures IsReachable(cfg, s) && AllFailedSoFar(cfg, s, k)
  {
    if k == 0 {
      s := State(1, None, cfg.total, ReadSize, 0, 0, [], [], Zeros(cfg.items), Nothing(cfg.items));
      assert IsRun(cfg, [s], []);
    } else {
      s := FailAll(cfg, k - 1);
      s := FailOne(cfg, s, k - 1);
    }
  }

  lemma WaitForAll(cfg: Config, s: State) returns (s': State)
    requires IsReachable(cfg, s) && AllFailedSoFar(cfg, s, cfg.items) && cfg.items > 0
    ensures IsReachable(cfg, s') && s' == s.(sub := FinalCheck(s.futures))
  {
    DoneTasksAreMany(cfg.items);
    StepIsReachable(cfg, s, SubmitterStep);
    s' := s.(sub := Fill(1));
    StepIsReachable(cfg, s', SubmitterStep);
    s' := s.(sub := WaitAll);
    StepIsReachable(cfg, s', SubmitterStep);
    s' := s.(sub := FinalCheck(s.futures));
  }

  lemma ReturnAfterAll(cfg: Config, s: State) returns (s': State)
    requires IsReachable(cfg, s) && AllFailedSoFar(cfg, s, cfg.items) && cfg.items > 0
    ensures IsReachable(cfg, s') && s'.sub == Returned && s'.succeeded == Nothing(cfg.items)
  {
    DoneTasksAreMany(cfg.items);
    var checking := WaitForAll(cfg, s);
    CheckOnly(checking, cfg.items - 1, true);
    StepIsReachable(cfg, checking, SubmitterStep);
    var checked := s.(sub := FinalCheck([]), futures := []);
    assert Step(cfg, checking, SubmitterStep) == checked;
    StepIsReachable(cfg, checked, SubmitterStep);
    s' := checked.(sub := Returned);
  }

  ghost predicate AllSucceeded(cfg: Config, s: State) {
    |s.succeeded| == cfg.items && forall x :: 0 <= x < cfg.items ==> s.succeeded[x]
  }

  /** A normal return means success exactly if the executor retries at all: with
      `max_retries` zero the retry loop makes no call and raises nothing, and `wait` can
      return although no item has ever been handled successfully. */
  lemma ReturnMeansSuccessIffRetrying(cfg: Config)
    requires cfg.items > 0 && cfg.maxBatchSize >= 1 && cfg.total >= 1
    ensures (forall s :: IsReachable(cfg, s) && s.sub == Returned ==> AllSucceeded(cfg, s)) <==> cfg.maxRetries >= 1
  {
    if cfg.maxRetries == 0 {
      var s := FailAll(cfg, cfg.items);
      s := ReturnAfterAll(cfg, s);
      assert !AllSucceeded(cfg, s) by { assert !s.succeeded[0]; }
    } else {
      forall s | IsReachable(cfg, s) && s.sub == Returned ensures AllSucceeded(cfg, s) {
        var states, actions :| IsRun(cfg, states, actions) && states[|states| - 1] == s;
        ReturningMeansAllSucceeded(cfg, states, actions, |states| - 1, 0);
        forall x | 0 <= x < cfg.items ensures s.succeeded[x] {
          ReturningMeansAllSucceeded(cfg, states, actions, |states| - 1, x);
        }
      }
    }
  }
}
