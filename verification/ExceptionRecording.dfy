/** The exception recorder: any number of threads put entries into one queue, and
    whoever finds it full drains it under two locks after checking again. */
module ExceptionRecording {
  import opened Common

  const LOG_BUFFER_SIZE: nat := 5000

  datatype Entry = Entry(blockNumber: int, dataclass: string, messageType: string, message: string, level: string)

  /** Where a thread stands in `log` or `force_to_flush`. */
  datatype Phase =
    | Outside
    | Checking                       // has put its entry, about to read the queue size
    | WaitingForQueueLock(force: bool)
    | Rechecking
    | WaitingForFlushLock
    | Draining(held: seq<Entry>)     // about to ask whether the queue is empty
    | Getting(held: seq<Entry>)      // was told that it is not
    | Flushing(held: seq<Entry>)
    | ReleasingFlushLock
    | ReleasingQueueLock

  /** One insert into `exception_records`. */
  datatype Flush = Flush(entries: seq<Entry>, stored: bool)

  datatype State = State(
    threads: seq<Phase>, queueLock: Option<nat>, flushLock: Option<nat>,
    buffer: seq<Entry>, puts: seq<Entry>, flushes: seq<Flush>)

  /** What the environment decides: which call a thread makes, and whether an insert
      succeeds. */
  datatype Choice = Log(entry: Entry) | ForceToFlush | Insert(succeeds: bool) | Continue

  function Initial(threads: nat): State {
    State(seq(threads, i => Outside), None, None, [], [], [])
  }

  function Moved(s: State, t: nat, phase: Phase): State
    requires t < |s.threads|
  {
    s.(threads := s.threads[t := phase])
  }

  /** One step of thread `t`; `None` when it has to wait, or cannot make that choice. */
  function Step(s: State, t: nat, c: Choice): Option<State>
    requires t < |s.threads|
  {
    match s.threads[t]
    case Outside =>
      if c.Log? then Some(Moved(s, t, Checking).(buffer := s.buffer + [c.entry], puts := s.puts + [c.entry]))
      else if c.ForceToFlush? then Some(Moved(s, t, WaitingForQueueLock(true)))
      else None
    case Checking =>
      Some(Moved(s, t, if |s.buffer| >= LOG_BUFFER_SIZE then WaitingForQueueLock(false) else Outside))
    case WaitingForQueueLock(force) =>
      if s.queueLock != None then None
      else Some(Moved(s, t, if force then WaitingForFlushLock else Rechecking).(queueLock := Some(t)))
    case Rechecking =>
      Some(Moved(s, t, if |s.buffer| >= LOG_BUFFER_SIZE then WaitingForFlushLock else ReleasingQueueLock))
    case WaitingForFlushLock =>
      if s.flushLock != None then None else Some(Moved(s, t, Draining([])).(flushLock := Some(t)))
    case Draining(held) =>
      Some(Moved(s, t, if s.buffer == [] then Flushing(held) else Getting(held)))
    case Getting(held) =>
      if s.buffer == [] then None
      else Some(Moved(s, t, Draining(held + [s.buffer[0]])).(buffer := s.buffer[1..]))
    case Flushing(held) =>
      if !c.Insert? then None
      else Some(Moved(s, t, ReleasingFlushLock).(flushes := s.flushes + [Flush(held, c.succeeds)]))
    case ReleasingFlushLock => Some(Moved(s, t, ReleasingQueueLock).(flushLock := None))
    case ReleasingQueueLock => Some(Moved(s, t, Outside).(queueLock := None))
  }

  /** Any interleaving; `None` if some step of it is not possible. */
  function Run(s: State, steps: seq<(nat, Choice)>): Option<State> {
    if steps == [] then Some(s)
    else
      var before := Run(s, steps[..|steps| - 1]);
      var (t, c) := steps[|steps| - 1];
      if before == None || t >= |before.value.threads| then None else Step(before.value, t, c)
  }

  // --- The invariant ---

  predicate HoldsQueueLock(p: Phase) {
    p.Rechecking? || p.WaitingForFlushLock? || p.ReleasingQueueLock? || HoldsFlushLock(p)
  }

  predicate HoldsFlushLock(p: Phase) {
    p.Draining? || p.Getting? || p.Flushing? || p.ReleasingFlushLock?
  }

  /** A lock has the owner that believes to own it, and no other. */
  ghost predicate LocksAgree(s: State) {
    && (s.queueLock.Some? ==> s.queueLock.value < |s.threads|)
    && (s.flushLock.Some? ==> s.flushLock.value < |s.threads|)
    && (forall t :: 0 <= t < |s.threads| ==>
         (HoldsQueueLock(s.threads[t]) <==> s.queueLock == Some(t)) &&
         (HoldsFlushLock(s.threads[t]) <==> s.flushLock == Some(t)))
  }

  function HeldIn(p: Phase): seq<Entry> {
    if p.Draining? || p.Getting? || p.Flushing? then p.held else []
  }

  /** What the thread that drains has taken out of the queue and not inserted yet. */
  function Held(s: State): seq<Entry> {
    if s.flushLock.Some? && s.flushLock.value < |s.threads| then HeldIn(s.threads[s.flushLock.value]) else []
  }

  function Entries(flushes: seq<Flush>): seq<Entry> {
    if flushes == [] then [] else Entries(flushes[..|flushes| - 1]) + flushes[|flushes| - 1].entries
  }

  /** The rows of `exception_records`. */
  function Stored(flushes: seq<Flush>): seq<Entry> {
    if flushes == [] then []
    else
      var last := flushes[|flushes| - 1];
      Stored(flushes[..|flushes| - 1]) + if last.stored then last.entries else []
  }

  /** First in, first out, and nothing in between. */
  ghost predicate Conserved(s: State) {
    Together(Entries(s.flushes), Held(s), s.buffer) == s.puts
  }

  ghost predicate GetsAreSafe(s: State) {
    forall t :: 0 <= t < |s.threads| ==> s.threads[t].Getting? ==> s.buffer != []
  }

  /** The thread will read the size of the queue again, or empty it, before it leaves. */
  predicate WillLook(p: Phase) {
    !(p.Outside? || p.Flushing? || p.ReleasingFlushLock? || p.ReleasingQueueLock?)
  }

  function Looking(threads: seq<Phase>): nat {
    if threads == [] then 0
    else Looking(threads[..|threads| - 1]) + if WillLook(threads[|threads| - 1]) then 1 else 0
  }

  ghost predicate IsBounded(s: State) { |s.buffer| < LOG_BUFFER_SIZE + Looking(s.threads) }

  ghost predicate Inv(s: State) {
    LocksAgree(s) && Conserved(s) && GetsAreSafe(s) && IsBounded(s)
  }

  lemma {:induction false} LookingAfterMove(threads: seq<Phase>, t: nat, p: Phase)
    requires t < |threads|
    ensures Looking(threads[t := p]) ==
      Looking(threads) - (if WillLook(threads[t]) then 1 else 0) + (if WillLook(p) then 1 else 0)
  {
    var init, moved := threads[..|threads| - 1], threads[t := p];
    if t < |threads| - 1 {
      LookingAfterMove(init, t, p);
      assert moved[..|moved| - 1] == init[t := p];
    } else {
      assert moved[..|moved| - 1] == init;
    }
  }

  lemma {:induction false} NobodyLooks(threads: seq<Phase>)
    requires forall t :: 0 <= t < |threads| ==> !WillLook(threads[t])
    ensures Looking(threads) == 0
  {
    if threads != [] { NobodyLooks(threads[..|threads| - 1]); }
  }

  lemma StepKeepsLocks(s: State, t: nat, c: Choice)
    requires t < |s.threads| && LocksAgree(s) && Step(s, t, c).Some?
    ensures LocksAgree(Step(s, t, c).value)
  {
    var next := Step(s, t, c).value;
    forall u | 0 <= u < |next.threads|
      ensures HoldsQueueLock(next.threads[u]) <==> next.queueLock == Some(u)
      ensures HoldsFlushLock(next.threads[u]) <==> next.flushLock == Some(u)
    {
      assert u != t ==> next.threads[u] == s.threads[u];
    }
  }

  lemma EntriesAppend(flushes: seq<Flush>, f: Flush)
    ensures Entries(flushes + [f]) == Entries(flushes) + f.entries
  {
    assert (flushes + [f])[..|flushes + [f]| - 1] == flushes;
  }

  lemma HeldByOwner(s: State, t: nat)
    requires t < |s.threads| && LocksAgree(s) && HoldsFlushLock(s.threads[t])
    ensures s.flushLock == Some(t) && Held(s) == HeldIn(s.threads[t])
  {
  }

  /** A thread without the flush lock does not change what is held. */
  lemma HeldByOthers(s: State, t: nat, c: Choice)
    requires t < |s.threads| && LocksAgree(s) && !HoldsFlushLock(s.threads[t]) && Step(s, t, c).Some?
    ensures Held(Step(s, t, c).value) == Held(s)
  {
  }

  /** What was logged, from where it is now. */
  function Together(inserted: seq<Entry>, held: seq<Entry>, buffer: seq<Entry>): seq<Entry> {
    inserted + held + buffer
  }

  lemma PutMoves(inserted: seq<Entry>, held: seq<Entry>, buffer: seq<Entry>, e: Entry)
    ensures Together(inserted, held, buffer + [e]) == Together(inserted, held, buffer) + [e]
  {
  }

  lemma GetMoves(inserted: seq<Entry>, held: seq<Entry>, buffer: seq<Entry>)
    requires buffer != []
    ensures Together(inserted, held + [buffer[0]], buffer[1..]) == Together(inserted, held, buffer)
  {
    assert buffer == [buffer[0]] + buffer[1..];
  }

  lemma InsertMoves(inserted: seq<Entry>, held: seq<Entry>, buffer: seq<Entry>)
    ensures Together(inserted + held, [], buffer) == Together(inserted, held, buffer)
  {
  }

  lemma OwnerConserves(s: State, t: nat, c: Choice)
    requires t < |s.threads| && LocksAgree(s) && Conserved(s) && Step(s, t, c).Some? && HoldsFlushLock(s.threads[t])
    ensures Conserved(Step(s, t, c).value)
  {
    HeldByOwner(s, t);
    var next := Step(s, t, c).value;
    if s.threads[t].Getting? {
      GetMoves(Entries(s.flushes), Held(s), s.buffer);
      assert Held(next) == Held(s) + [s.buffer[0]];
    } else if s.threads[t].Flushing? {
      InsertMoves(Entries(s.flushes), Held(s), s.buffer);
      EntriesAppend(s.flushes, Flush(Held(s), c.succeeds));
      assert Held(next) == [];
    } else {
      assert Held(next) == Held(s);
    }
  }

  lemma OthersConserve(s: State, t: nat, c: Choice)
    requires t < |s.threads| && LocksAgree(s) && Conserved(s) && Step(s, t, c).Some? && !HoldsFlushLock(s.threads[t])
    ensures Conserved(Step(s, t, c).value)
  {
    HeldByOthers(s, t, c);
    if s.threads[t].Outside? && c.Log? { PutMoves(Entries(s.flushes), Held(s), s.buffer, c.entry); }
  }

  lemma StepConserves(s: State, t: nat, c: Choice)
    requires t < |s.threads| && LocksAgree(s) && Conserved(s) && Step(s, t, c).Some?
    ensures Conserved(Step(s, t, c).value)
  {
    if HoldsFlushLock(s.threads[t]) {
      OwnerConserves(s, t, c);
    } else {
      OthersConserve(s, t, c);
    }
  }

  /** Only the owner of the flush lock takes entries out. */
  lemma StepKeepsGetsSafe(s: State, t: nat, c: Choice)
    requires t < |s.threads| && LocksAgree(s) && GetsAreSafe(s) && Step(s, t, c).Some?
    ensures GetsAreSafe(Step(s, t, c).value)
  {
    var next := Step(s, t, c).value;
    forall u | 0 <= u < |next.threads| && next.threads[u].Getting? ensures next.buffer != [] {
      if u != t {
        assert next.threads[u] == s.threads[u] && HoldsFlushLock(s.threads[u]);
        assert !HoldsFlushLock(s.threads[t]);
      }
    }
  }

  lemma StepKeepsBound(s: State, t: nat, c: Choice)
    requires t < |s.threads| && IsBounded(s) && Step(s, t, c).Some?
    ensures IsBounded(Step(s, t, c).value)
  {
    LookingAfterMove(s.threads, t, Step(s, t, c).value.threads[t]);
  }

  /** Every step of every thread keeps the invariant. */
  lemma StepKeepsInv(s: State, t: nat, c: Choice)
    requires t < |s.threads| && Inv(s) && Step(s, t, c).Some?
    ensures Inv(Step(s, t, c).value) && |Step(s, t, c).value.threads| == |s.threads|
  {
    StepKeepsLocks(s, t, c);
    StepConserves(s, t, c);
    StepKeepsGetsSafe(s, t, c);
    StepKeepsBound(s, t, c);
  }

  /** So it holds after any interleaving of any number of threads. */
  lemma {:induction false} InvAlwaysHolds(threads: nat, steps: seq<(nat, Choice)>, s: State)
    requires Run(Initial(threads), steps) == Some(s)
    ensures Inv(s) && |s.threads| == threads
  {
    if steps == [] {
      NobodyLooks(Initial(threads).threads);
    } else {
      var before := Run(Initial(threads), steps[..|steps| - 1]).value;
      var (t, c) := steps[|steps| - 1];
      InvAlwaysHolds(threads, steps[..|steps| - 1], before);
      StepKeepsInv(before, t, c);
    }
  }

  // --- What follows ---

  lemma {:induction false} StoredIsShorter(flushes: seq<Flush>)
    ensures |Stored(flushes)| <= |Entries(flushes)|
    ensures |Stored(flushes)| == |Entries(flushes)| ==> Stored(flushes) == Entries(flushes)
    ensures |Stored(flushes)| == |Entries(flushes)| <==>
      forall i :: 0 <= i < |flushes| ==> flushes[i].stored || flushes[i].entries == []
  {
    if flushes != [] {
      StoredIsShorter(flushes[..|flushes| - 1]);
      assert forall i :: 0 <= i < |flushes| - 1 ==> flushes[i] == flushes[..|flushes| - 1][i];
    }
  }

  /** At every moment the table, the entries in the hands of the draining thread and the
      queue make up what was logged, in that order, exactly if no insert of entries has
      failed so far. */
  lemma NothingIsLostUnlessAnInsertFails(threads: nat, steps: seq<(nat, Choice)>, s: State)
    requires Run(Initial(threads), steps) == Some(s)
    ensures Stored(s.flushes) + Held(s) + s.buffer == s.puts <==>
      forall i :: 0 <= i < |s.flushes| ==> s.flushes[i].stored || s.flushes[i].entries == []
  {
    InvAlwaysHolds(threads, steps, s);
    StoredIsShorter(s.flushes);
    assert |Entries(s.flushes)| + |Held(s)| + |s.buffer| == |s.puts|;
    if Stored(s.flushes) + Held(s) + s.buffer == s.puts {
      assert |Stored(s.flushes)| + |Held(s)| + |s.buffer| == |s.puts|;
    }
  }

  /** The loop that drains never blocks in `get`. */
  lemma GetNeverBlocks(threads: nat, steps: seq<(nat, Choice)>, s: State, t: nat)
    requires Run(Initial(threads), steps) == Some(s) && t < |s.threads|
    requires s.threads[t].Getting?
    ensures Step(s, t, Continue).Some?
  {
    InvAlwaysHolds(threads, steps, s);
  }

  lemma {:induction false} LookingIsAtMostAll(threads: seq<Phase>)
    ensures Looking(threads) <= |threads|
  {
    if threads != [] { LookingIsAtMostAll(threads[..|threads| - 1]); }
  }

  /** The queue is below its limit whenever no thread is inside the recorder, and never
      above it by as much as the number of threads. */
  lemma QueueStaysShort(threads: nat, steps: seq<(nat, Choice)>, s: State)
    requires Run(Initial(threads), steps) == Some(s)
    ensures |s.buffer| < 5000 + threads
    ensures (forall t :: 0 <= t < |s.threads| ==> s.threads[t].Outside?) ==> |s.buffer| < 5000
  {
    InvAlwaysHolds(threads, steps, s);
    LookingIsAtMostAll(s.threads);
    if forall t :: 0 <= t < |s.threads| ==> s.threads[t].Outside? { NobodyLooks(s.threads); }
  }

  /** A thread inside that does not have to wait. */
  predicate CanGoOn(s: State, t: nat)
    requires t < |s.threads|
  {
    !s.threads[t].Outside? && (Step(s, t, Continue).Some? || Step(s, t, Insert(true)).Some?)
  }

  /** The two locks cannot deadlock: while a thread is inside, some thread inside can go on. */
  lemma SomeoneCanGoOn(threads: nat, steps: seq<(nat, Choice)>, s: State, t: nat)
    requires Run(Initial(threads), steps) == Some(s) && t < |s.threads|
    requires !s.threads[t].Outside?
    ensures exists u :: 0 <= u < |s.threads| && CanGoOn(s, u)
  {
    InvAlwaysHolds(threads, steps, s);
    var u := if s.flushLock.Some? then s.flushLock.value else if s.queueLock.Some? then s.queueLock.value else t;
    assert CanGoOn(s, u);
  }

  // --- Flushes of a full queue ---

  /** Whoever is on the way to an insert has, or will take from the queue, enough entries. */
  predicate HasEnough(s: State, p: Phase) {
    match p
    case WaitingForQueueLock(force) => !force
    case WaitingForFlushLock => |s.buffer| >= 5000
    case Draining(held) => |held| + |s.buffer| >= 5000
    case Getting(held) => |held| + |s.buffer| >= 5000
    case Flushing(held) => |held| >= 5000
    case _ => true
  }

  ghost predicate FlushesAreLarge(s: State) {
    && (forall t :: 0 <= t < |s.threads| ==> HasEnough(s, s.threads[t]))
    && (forall f :: f in s.flushes ==> |f.entries| >= 5000)
  }

  /** While a thread is between its second look at the queue and its insert, no other
      thread takes entries out. */
  lemma OthersLeaveEnough(s: State, t: nat, c: Choice, u: nat)
    requires t < |s.threads| && u < |s.threads| && t != u && LocksAgree(s) && Step(s, t, c).Some?
    requires HasEnough(s, s.threads[u])
    ensures HasEnough(Step(s, t, c).value, s.threads[u])
  {
    if HoldsQueueLock(s.threads[u]) { assert !HoldsFlushLock(s.threads[t]); }
  }

  lemma OwnStepHasEnough(s: State, t: nat, c: Choice)
    requires t < |s.threads| && HasEnough(s, s.threads[t]) && Step(s, t, c).Some? && !c.ForceToFlush?
    ensures HasEnough(Step(s, t, c).value, Step(s, t, c).value.threads[t])
    ensures forall f :: f in Step(s, t, c).value.flushes ==> f in s.flushes || |f.entries| >= 5000
  {
  }

  lemma StepKeepsFlushesLarge(s: State, t: nat, c: Choice)
    requires t < |s.threads| && LocksAgree(s) && FlushesAreLarge(s) && Step(s, t, c).Some? && !c.ForceToFlush?
    ensures FlushesAreLarge(Step(s, t, c).value)
  {
    var next := Step(s, t, c).value;
    OwnStepHasEnough(s, t, c);
    forall u | 0 <= u < |next.threads| ensures HasEnough(next, next.threads[u]) {
      if u != t {
        OthersLeaveEnough(s, t, c, u);
        assert next.threads[u] == s.threads[u];
      }
    }
  }

  /** Over every interleaving in which nobody forces it, an insert has at least as many
      entries as make the queue full, although other threads log, look and wait meanwhile. */
  lemma {:induction false} UnforcedFlushesAreLarge(threads: nat, steps: seq<(nat, Choice)>, s: State)
    requires Run(Initial(threads), steps) == Some(s)
    requires forall i :: 0 <= i < |steps| ==> !steps[i].1.ForceToFlush?
    ensures FlushesAreLarge(s)
  {
    if steps != [] {
      var before := Run(Initial(threads), steps[..|steps| - 1]).value;
      var (t, c) := steps[|steps| - 1];
      UnforcedFlushesAreLarge(threads, steps[..|steps| - 1], before);
      InvAlwaysHolds(threads, steps[..|steps| - 1], before);
      StepKeepsFlushesLarge(before, t, c);
    }
  }

  /** Logging to a short queue takes no lock, whoever has the locks, and a thread that
      finds the queue short again leaves without an insert. */
  lemma ShortQueuesAreLeft(s: State, t: nat, c: Choice)
    requires t < |s.threads| && |s.buffer| < 5000 && (s.threads[t].Checking? || s.threads[t].Rechecking?)
    ensures Step(s, t, c).Some?
    ensures s.threads[t].Checking? ==> Step(s, t, c).value.threads[t] == Outside
    ensures s.threads[t].Rechecking? ==>
      var next := Step(s, t, c).value;
      Step(next, t, c).Some? && Step(next, t, c).value == s.(threads := s.threads[t := Outside], queueLock := None)
  {
    assert s.threads[t := ReleasingQueueLock][t := Outside] == s.threads[t := Outside];
  }

  // --- Forced flushes ---

  function Inserted(s: State): nat { |Entries(s.flushes)| }

  /** The first `n` entries have been inserted, or thread `t` is about to see to it. */
  predicate WillHaveInserted(s: State, t: nat, n: nat)
    requires t < |s.threads|
  {
    var p := s.threads[t];
    || Inserted(s) >= n
    || (p.Flushing? && Inserted(s) + |p.held| >= n)
    || ((p == WaitingForQueueLock(true) || p.WaitingForFlushLock? || p.Draining? || p.Getting?) && |s.puts| >= n)
  }

  lemma StepInsertsMore(s: State, t: nat, c: Choice)
    requires t < |s.threads| && Step(s, t, c).Some?
    ensures Inserted(s) <= Inserted(Step(s, t, c).value)
    ensures s.puts <= Step(s, t, c).value.puts
  {
    if s.threads[t].Flushing? { EntriesAppend(s.flushes, Flush(s.threads[t].held, c.succeeds)); }
  }

  /** The steps of other threads. */
  lemma OthersKeepPromise(s: State, t: nat, c: Choice, forcing: nat, n: nat)
    requires t < |s.threads| && forcing < |s.threads| && t != forcing && Step(s, t, c).Some?
    requires WillHaveInserted(s, forcing, n)
    ensures WillHaveInserted(Step(s, t, c).value, forcing, n)
  {
    StepInsertsMore(s, t, c);
    assert Step(s, t, c).value.threads[forcing] == s.threads[forcing];
  }

  /** A forcing thread that finds the queue empty holds what has been put and not inserted. */
  lemma DrainedIsHeld(s: State, t: nat)
    requires t < |s.threads| && LocksAgree(s) && Conserved(s) && s.threads[t].Draining? && s.buffer == []
    ensures Inserted(s) + |s.threads[t].held| == |s.puts|
  {
    HeldByOwner(s, t);
    assert Together(Entries(s.flushes), Held(s), s.buffer) == s.puts;
  }

  /** Its own steps. */
  lemma OwnStepKeepsPromise(s: State, t: nat, c: Choice, s': State, n: nat)
    requires t < |s.threads| && Step(s, t, c) == Some(s') && WillHaveInserted(s, t, n)
    requires s.threads[t].Draining? && s.buffer == [] ==> Inserted(s) + |s.threads[t].held| == |s.puts|
    ensures t < |s'.threads| && WillHaveInserted(s', t, n)
  {
    StepInsertsMore(s, t, c);
    if s.threads[t].Flushing? { EntriesAppend(s.flushes, Flush(s.threads[t].held, c.succeeds)); }
  }

  lemma StepKeepsPromise(s: State, t: nat, c: Choice, s': State, forcing: nat, n: nat)
    requires t < |s.threads| && forcing < |s.threads| && Step(s, t, c) == Some(s')
    requires LocksAgree(s) && Conserved(s) && WillHaveInserted(s, forcing, n)
    ensures forcing < |s'.threads| && WillHaveInserted(s', forcing, n)
  {
    if t != forcing {
      OthersKeepPromise(s, t, c, forcing, n);
    } else {
      if s.threads[t].Draining? && s.buffer == [] { DrainedIsHeld(s, t); }
      OwnStepKeepsPromise(s, t, c, s', n);
    }
  }

  lemma LastStep(threads: nat, steps: seq<(nat, Choice)>, n: nat, s: State) returns (before: State, t: nat, c: Choice)
    requires 0 < n <= |steps| && Run(Initial(threads), steps[..n]) == Some(s)
    ensures Run(Initial(threads), steps[..n - 1]) == Some(before)
    ensures t < |before.threads| && Step(before, t, c) == Some(s)
    ensures LocksAgree(before) && Conserved(before) && |before.threads| == threads
  {
    assert steps[..n][..n - 1] == steps[..n - 1] && steps[..n][n - 1] == steps[n - 1];
    before := Run(Initial(threads), steps[..n - 1]).value;
    t, c := steps[n - 1].0, steps[n - 1].1;
    InvAlwaysHolds(threads, steps[..n - 1], before);
  }

  lemma LastStepKeepsPromise(threads: nat, steps: seq<(nat, Choice)>, i: nat, s: State, forcing: nat, n: nat)
    returns (before: State)
    requires 0 < i <= |steps| && Run(Initial(threads), steps[..i]) == Some(s) && forcing < threads
    ensures Run(Initial(threads), steps[..i - 1]) == Some(before)
    ensures |before.threads| == |s.threads| == threads && before.puts <= s.puts
    ensures WillHaveInserted(before, forcing, n) ==> WillHaveInserted(s, forcing, n)
  {
    var t, c;
    before, t, c := LastStep(threads, steps, i, s);
    StepInsertsMore(before, t, c);
    if WillHaveInserted(before, forcing, n) { StepKeepsPromise(before, t, c, s, forcing, n); }
  }

  /** From the state after `from` steps on. */
  lemma {:induction false} PromiseIsKept(threads: nat, steps: seq<(nat, Choice)>, from: nat, to: nat,
                                         s: State, s': State, forcing: nat, n: nat)
    requires from <= to <= |steps| && forcing < threads
    requires Run(Initial(threads), steps[..from]) == Some(s) && Run(Initial(threads), steps[..to]) == Some(s')
    requires forcing < |s.threads| && WillHaveInserted(s, forcing, n)
    ensures forcing < |s'.threads| && WillHaveInserted(s', forcing, n) && s.puts <= s'.puts
  {
    if from < to {
      var before := LastStepKeepsPromise(threads, steps, to, s', forcing, n);
      PromiseIsKept(threads, steps, from, to - 1, s, before, forcing, n);
    }
  }

  lemma PrefixOfPrefix(inserted: seq<Entry>, held: seq<Entry>, buffer: seq<Entry>, early: seq<Entry>, late: seq<Entry>)
    requires Together(inserted, held, buffer) == late && early <= late && |early| <= |inserted|
    ensures early <= inserted
  {
    assert inserted == late[..|inserted|];
  }

  /** Over every interleaving: when a call of `force_to_flush` is back, everything that had
      been logged before it is among what was taken for insertion, in order; and it is in
      the table if no insert of entries has failed. */
  lemma ForcingFlushes(threads: nat, steps: seq<(nat, Choice)>, i: nat, j: nat, t: nat, before: State, after: State)
    requires i < j <= |steps| && t < |before.threads| && t < |after.threads|
    requires Run(Initial(threads), steps[..i]) == Some(before) && Run(Initial(threads), steps[..j]) == Some(after)
    requires before.threads[t].Outside? && steps[i] == (t, ForceToFlush) && after.threads[t].Outside?
    ensures before.puts <= Entries(after.flushes)
    ensures (forall f :: f in after.flushes ==> f.stored || f.entries == []) ==> before.puts <= Stored(after.flushes)
  {
    assert steps[..i + 1][..i] == steps[..i] && steps[..i + 1][i] == steps[i];
    InvAlwaysHolds(threads, steps[..i], before);
    InvAlwaysHolds(threads, steps[..j], after);
    var forced := Run(Initial(threads), steps[..i + 1]);
    RunIsDefinedBefore(threads, steps[..j], i + 1);
    assert steps[..j][..i + 1] == steps[..i + 1];
    PromiseIsKept(threads, steps, i + 1, j, forced.value, after, t, |before.puts|);
    PrefixOfPrefix(Entries(after.flushes), Held(after), after.buffer, before.puts, after.puts);
    StoredIsShorter(after.flushes);
  }

  lemma {:induction false} RunIsDefinedBefore(threads: nat, steps: seq<(nat, Choice)>, i: nat)
    requires i <= |steps| && Run(Initial(threads), steps).Some?
    ensures Run(Initial(threads), steps[..i]).Some?
  {
    if i < |steps| {
      RunIsDefinedBefore(threads, steps[..|steps| - 1], i);
      assert steps[..|steps| - 1][..i] == steps[..i];
    } else {
      assert steps[..i] == steps;
    }
  }
}
