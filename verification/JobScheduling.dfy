/** The job scheduler: which jobs a run needs, and in which order they run. */
module JobScheduling {
  import opened Common

  /** A job class, and a type of record that jobs read or write, by their names. */
  datatype Job = Job(name: string)
  datatype Output = Output(name: string)

  const BLOCKS_JOB := Job("ExportBlocksJob")

  /** The class attributes of a job. */
  datatype JobInfo = JobInfo(outputTypes: seq<Output>, dependencyTypes: seq<Output>)

  function ProducersIn(jobMap: map<Output, seq<Job>>, o: Output): seq<Job> {
    if o in jobMap then jobMap[o] else []
  }

  // --- What the scheduler is about, independent of its tables ---

  predicate Produces(info: map<Job, JobInfo>, j: Job, o: Output) {
    j in info && o in info[j].outputTypes
  }

  /** Job `c` reads something that job `p` writes. */
  predicate DependsOn(info: map<Job, JobInfo>, c: Job, p: Job) {
    c in info && exists o :: o in info[c].dependencyTypes && Produces(info, p, o)
  }

  /** `jobs` has every producer of a wanted type and of everything its members read. */
  ghost predicate IsClosed(info: map<Job, JobInfo>, wanted: seq<Output>, jobs: set<Job>) {
    && (forall j, o :: o in wanted && Produces(info, j, o) ==> j in jobs)
    && (forall c, p :: c in jobs && DependsOn(info, c, p) ==> p in jobs)
  }

  /** A type that is wanted from outside, or read by a member of `jobs`. */
  predicate IsWanted(info: map<Job, JobInfo>, wanted: seq<Output>, jobs: set<Job>, o: Output) {
    o in wanted || exists c :: c in jobs && c in info && o in info[c].dependencyTypes
  }

  /** The jobs reached from the wanted types in at most `n` steps. */
  function Reached(info: map<Job, JobInfo>, wanted: seq<Output>, n: nat): set<Job> {
    if n == 0 then {}
    else
      var before := Reached(info, wanted, n - 1);
      before + set j | j in info && exists o :: o in info[j].outputTypes && IsWanted(info, wanted, before, o)
  }

  lemma {:induction false} ReachedIsInEveryClosedSet(info: map<Job, JobInfo>, wanted: seq<Output>, n: nat,
                                                     other: set<Job>)
    requires IsClosed(info, wanted, other)
    ensures Reached(info, wanted, n) <= other
  {
    if n > 0 {
      ReachedIsInEveryClosedSet(info, wanted, n - 1, other);
      var before := Reached(info, wanted, n - 1);
      forall j, o | Produces(info, j, o) && IsWanted(info, wanted, before, o) ensures j in other {
        if o !in wanted {
          var c :| c in before && c in info && o in info[c].dependencyTypes;
          assert DependsOn(info, c, j);
        }
      }
    }
  }

  ghost predicate IsLeastClosed(info: map<Job, JobInfo>, wanted: seq<Output>, jobs: set<Job>) {
    IsClosed(info, wanted, jobs) && forall other :: IsClosed(info, wanted, other) ==> jobs <= other
  }

  /** A path of dependencies inside `jobs` that ends where it starts. */
  ghost predicate IsCycle(info: map<Job, JobInfo>, jobs: set<Job>, c: seq<Job>) {
    && |c| >= 2 && c[0] == c[|c| - 1]
    && (forall i :: 0 <= i < |c| ==> c[i] in jobs)
    && (forall i :: 0 <= i < |c| - 1 ==> DependsOn(info, c[i + 1], c[i]))
  }

  ghost predicate HasCycle(info: map<Job, JobInfo>, jobs: set<Job>) {
    exists c :: IsCycle(info, jobs, c)
  }

  ghost predicate Distinct(s: seq<Job>) {
    forall i, j :: 0 <= i < j < |s| ==> s[i] != s[j]
  }

  /** The jobs, once each, every producer before its consumers. */
  ghost predicate IsSchedule(info: map<Job, JobInfo>, jobs: set<Job>, order: seq<Job>) {
    && Distinct(order) && (forall j :: j in order <==> j in jobs)
    && (forall i, p :: 0 <= i < |order| && p in jobs && DependsOn(info, order[i], p) ==> p in order[..i])
  }

  // --- Schedules and cycles exclude each other ---

  lemma {:induction false} CycleGoesForward(info: map<Job, JobInfo>, jobs: set<Job>, order: seq<Job>,
                                            c: seq<Job>, k: nat, i: nat, j: nat)
    requires IsSchedule(info, jobs, order) && IsCycle(info, jobs, c)
    requires 0 < k < |c| && i < |order| && j < |order| && order[i] == c[0] && order[j] == c[k]
    ensures i < j
  {
    assert DependsOn(info, c[k - 1 + 1], c[k - 1]);
    assert c[k - 1] in order[..j];
    var m :| 0 <= m < j && order[m] == c[k - 1];
    if k > 1 { CycleGoesForward(info, jobs, order, c, k - 1, i, m); }
  }

  lemma ScheduledJobsHaveNoCycle(info: map<Job, JobInfo>, jobs: set<Job>, order: seq<Job>)
    requires IsSchedule(info, jobs, order)
    ensures !HasCycle(info, jobs)
  {
    if HasCycle(info, jobs) {
      var c :| IsCycle(info, jobs, c);
      assert c[0] in order;
      var i :| 0 <= i < |order| && order[i] == c[0];
      CycleGoesForward(info, jobs, order, c, |c| - 1, i, i);
    }
  }

  ghost predicate HasProducerIn(info: map<Job, JobInfo>, c: Job, jobs: set<Job>) {
    exists p :: p in jobs && DependsOn(info, c, p)
  }

  /** Going from job to producer without leaving a finite set must come back. */
  lemma {:induction false} StuckJobsHaveACycle(info: map<Job, JobInfo>, jobs: set<Job>, stuck: set<Job>,
                                               walk: seq<Job>)
    requires stuck <= jobs && walk != [] && Distinct(walk)
    requires forall i :: 0 <= i < |walk| ==> walk[i] in stuck
    requires forall i :: 0 <= i < |walk| - 1 ==> DependsOn(info, walk[i + 1], walk[i])
    requires forall c {:trigger HasProducerIn(info, c, stuck)} :: c in stuck ==> HasProducerIn(info, c, stuck)
    ensures HasCycle(info, jobs)
    decreases |stuck| - |walk|
  {
    assert HasProducerIn(info, walk[0], stuck);
    var p :| p in stuck && DependsOn(info, walk[0], p);
    if p in walk {
      var k :| 0 <= k < |walk| && walk[k] == p;
      WalkBackIsACycle(info, jobs, walk, k, p);
    } else {
      var longer := [p] + walk;
      DistinctFits(longer, stuck);
      forall i | 0 <= i < |longer| - 1 ensures DependsOn(info, longer[i + 1], longer[i]) {
        if i > 0 { assert DependsOn(info, walk[i - 1 + 1], walk[i - 1]); }
      }
      StuckJobsHaveACycle(info, jobs, stuck, longer);
    }
  }

  lemma WalkBackIsACycle(info: map<Job, JobInfo>, jobs: set<Job>, walk: seq<Job>, k: nat, p: Job)
    requires k < |walk| && walk[k] == p && DependsOn(info, walk[0], p)
    requires forall i :: 0 <= i < |walk| ==> walk[i] in jobs
    requires forall i :: 0 <= i < |walk| - 1 ==> DependsOn(info, walk[i + 1], walk[i])
    ensures HasCycle(info, jobs)
  {
    var c := [p] + walk[..k + 1];
    forall i | 0 <= i < |c| - 1 ensures DependsOn(info, c[i + 1], c[i]) {
      if i > 0 { assert DependsOn(info, walk[i - 1 + 1], walk[i - 1]); }
    }
    assert IsCycle(info, jobs, c);
  }

  lemma ProperSubsetIsSmaller<T>(a: set<T>, b: set<T>)
    requires a < b
    ensures |a| < |b|
  {
    var x :| x in b && x !in a;
    assert a <= b - {x};
    SubsetIsNotBigger(a, b - {x});
  }

  lemma {:induction false} SubsetIsNotBigger<T>(a: set<T>, b: set<T>)
    requires a <= b
    ensures |a| <= |b|
  {
    if x :| x in a {
      SubsetIsNotBigger(a - {x}, b - {x});
    }
  }

  lemma {:induction false} ElementsAreNoMore(s: seq<Job>)
    ensures |set j | j in s| <= |s|
  {
    if s != [] {
      ElementsAreNoMore(s[1..]);
      assert (set j | j in s) == {s[0]} + set j | j in s[1..];
    }
  }

  lemma {:induction false} DistinctFits(s: seq<Job>, all: set<Job>)
    requires Distinct(s) && forall i :: 0 <= i < |s| ==> s[i] in all
    ensures |s| <= |all|
    ensures |s| == |all| ==> forall j :: j in all ==> j in s
  {
    if s != [] {
      DistinctFits(s[1..], all - {s[0]});
      assert s == [s[0]] + s[1..];
    } else if |all| == 0 {
      assert all == {};
    }
  }

  // --- The tables of the sort ---

  type Graph = map<Job, seq<Job>>
  type Degrees = map<Job, int>

  function ChildrenIn(graph: Graph, p: Job): seq<Job> {
    if p in graph then graph[p] else []
  }

  function DegreeIn(inDegree: Degrees, c: Job): int {
    if c in inDegree then inDegree[c] else 0
  }

  /** Not in the program: per job, the edges still counted in its in-degree. An edge is
      a producer and a position in its list of children, so parallel edges differ. */
  type Incoming = map<Job, set<(Job, nat)>>

  ghost predicate Counted(jobs: set<Job>, inDegree: Degrees, incoming: Incoming) {
    incoming.Keys == jobs && forall c :: c in jobs ==> DegreeIn(inDegree, c) == |incoming[c]|
  }

  ghost predicate IsEdge(graph: Graph, p: Job, k: nat, c: Job) {
    k < |ChildrenIn(graph, p)| && ChildrenIn(graph, p)[k] == c
  }

  /** The edges still counted are those of the producers outside `sorted`, and of
      `current` those from position `from` on. */
  ghost predicate CountsRest(jobs: set<Job>, graph: Graph, incoming: Incoming, sorted: seq<Job>,
                             current: Option<Job>, from: nat)
    requires incoming.Keys == jobs
  {
    forall c, p, k: nat :: c in jobs ==>
      ((p, k) in incoming[c] <==>
        IsEdge(graph, p, k, c) && p !in sorted && (current == Some(p) ==> from <= k))
  }

  ghost predicate GraphInside(jobs: set<Job>, graph: Graph) {
    forall p, c {:trigger c in ChildrenIn(graph, p)} :: c in ChildrenIn(graph, p) ==> p in jobs && c in jobs
  }

  /** Sorted jobs and sources are different, and they are those no edge is counted for. */
  ghost predicate Frontier(jobs: set<Job>, incoming: Incoming, sorted: seq<Job>, sources: seq<Job>)
    requires incoming.Keys == jobs
  {
    && Distinct(sorted) && Distinct(sources)
    && (forall c :: c in sorted ==> c in jobs && c !in sources && incoming[c] == {})
    && (forall c :: c in sources ==> c in jobs && incoming[c] == {})
    && (forall c :: c in jobs && incoming[c] == {} ==> c in sorted || c in sources)
  }

  /** The producers of a sorted job are sorted before it. */
  ghost predicate IsOrdered(graph: Graph, sorted: seq<Job>) {
    forall i, p :: 0 <= i < |sorted| && sorted[i] in ChildrenIn(graph, p) ==> p in sorted[..i]
  }

  ghost predicate Running(jobs: set<Job>, graph: Graph, inDegree: Degrees, incoming: Incoming,
                          sorted: seq<Job>, sources: seq<Job>) {
    && Counted(jobs, inDegree, incoming) && GraphInside(jobs, graph)
    && CountsRest(jobs, graph, incoming, sorted, None, 0)
    && Frontier(jobs, incoming, sorted, sources)
    && IsOrdered(graph, sorted)
  }

  lemma AddedChild(graph: Graph, p: Job, c: Job)
    ensures forall q, d :: d in ChildrenIn(graph[p := ChildrenIn(graph, p) + [c]], q) <==>
      d in ChildrenIn(graph, q) || (q == p && d == c)
  {
    var longer := graph[p := ChildrenIn(graph, p) + [c]];
    forall q, d ensures d in ChildrenIn(longer, q) <==> d in ChildrenIn(graph, q) || (q == p && d == c) {
      if q == p { assert ChildrenIn(longer, q) == ChildrenIn(graph, p) + [c]; }
    }
  }

  lemma StaysInside(jobs: set<Job>, graph: Graph, p: Job, c: Job)
    requires GraphInside(jobs, graph) && p in jobs && c in jobs
    ensures GraphInside(jobs, graph[p := ChildrenIn(graph, p) + [c]])
  {
    AddedChild(graph, p, c);
    var longer := graph[p := ChildrenIn(graph, p) + [c]];
    forall q, d | d in ChildrenIn(longer, q) ensures q in jobs && d in jobs {
      if q != p || d != c { assert d in ChildrenIn(graph, q); }
    }
  }

  lemma AddedEdge(graph: Graph, p: Job, c: Job)
    ensures var longer, k := graph[p := ChildrenIn(graph, p) + [c]], |ChildrenIn(graph, p)|;
      forall q, i: nat, d ::
        IsEdge(longer, q, i, d) <==> IsEdge(graph, q, i, d) || (q == p && i == k && d == c)
  {
  }

  /** A new edge and its count in the in-degree belong together. */
  lemma AddedEdgeIsCounted(jobs: set<Job>, graph: Graph, inDegree: Degrees, incoming: Incoming, p: Job, c: Job)
    returns (incoming': Incoming)
    requires Counted(jobs, inDegree, incoming) && CountsRest(jobs, graph, incoming, [], None, 0) && c in jobs
    ensures Counted(jobs, inDegree[c := DegreeIn(inDegree, c) + 1], incoming')
    ensures CountsRest(jobs, graph[p := ChildrenIn(graph, p) + [c]], incoming', [], None, 0)
  {
    var k := |ChildrenIn(graph, p)|;
    assert !IsEdge(graph, p, k, c) && (p, k) !in incoming[c];
    incoming' := incoming[c := incoming[c] + {(p, k)}];
    AddedEdge(graph, p, c);
  }

  /** A source may be sorted next: its producers are. */
  lemma SourceIsReady(jobs: set<Job>, graph: Graph, inDegree: Degrees, incoming: Incoming,
                      sorted: seq<Job>, sources: seq<Job>)
    requires Running(jobs, graph, inDegree, incoming, sorted, sources) && sources != []
    ensures IsOrdered(graph, sorted + [sources[0]])
    ensures CountsRest(jobs, graph, incoming, sorted, Some(sources[0]), 0)
    ensures Frontier(jobs, incoming, sorted + [sources[0]], sources[1..])
  {
    var c := sources[0];
    var longer := sorted + [c];
    assert sources == [c] + sources[1..] && c in sources;
    forall p | c in ChildrenIn(graph, p) ensures p in sorted {
      var k :| 0 <= k < |ChildrenIn(graph, p)| && ChildrenIn(graph, p)[k] == c;
      assert IsEdge(graph, p, k, c) && (p, k) !in incoming[c];
    }
    forall i, p | 0 <= i < |longer| && longer[i] in ChildrenIn(graph, p) ensures p in longer[..i] {
      if i < |sorted| { assert longer[..i] == sorted[..i]; } else { assert longer[..i] == sorted; }
    }
  }

  lemma ReleasedEdge(jobs: set<Job>, graph: Graph, inDegree: Degrees, incoming: Incoming, sorted: seq<Job>,
                     p: Job, i: nat)
    requires Counted(jobs, inDegree, incoming) && GraphInside(jobs, graph) && p !in sorted
    requires CountsRest(jobs, graph, incoming, sorted, Some(p), i) && i < |ChildrenIn(graph, p)|
    ensures var c := ChildrenIn(graph, p)[i];
      && c in jobs
      && Counted(jobs, inDegree[c := DegreeIn(inDegree, c) - 1], incoming[c := incoming[c] - {(p, i)}])
      && CountsRest(jobs, graph, incoming[c := incoming[c] - {(p, i)}], sorted, Some(p), i + 1)
  {
    var c := ChildrenIn(graph, p)[i];
    assert c in ChildrenIn(graph, p) && IsEdge(graph, p, i, c);
    assert (p, i) in incoming[c];
    forall d, q, k: nat | d in jobs && (q, k) == (p, i) && IsEdge(graph, q, k, d) ensures d == c {}
  }

  /** With its last edge taken out, the current job is like the other sorted ones. */
  lemma AllReleased(jobs: set<Job>, graph: Graph, incoming: Incoming, sorted: seq<Job>, p: Job)
    requires incoming.Keys == jobs
    requires CountsRest(jobs, graph, incoming, sorted, Some(p), |ChildrenIn(graph, p)|)
    ensures CountsRest(jobs, graph, incoming, sorted + [p], None, 0)
  {
    forall c, q, k: nat | c in jobs
      ensures (q, k) in incoming[c] <==> IsEdge(graph, q, k, c) && q !in sorted + [p]
    {
      assert q in sorted + [p] <==> q in sorted || q == p;
    }
  }

  /** If the sort stops early, the remaining jobs wait for each other. */
  lemma StuckHasACycle(info: map<Job, JobInfo>, jobs: set<Job>, graph: Graph, inDegree: Degrees,
                       incoming: Incoming, sorted: seq<Job>)
    requires Running(jobs, graph, inDegree, incoming, sorted, []) && |sorted| < |jobs|
    requires forall p, c :: c in ChildrenIn(graph, p) ==> DependsOn(info, c, p)
    ensures HasCycle(info, jobs)
  {
    var stuck := set j | j in jobs && j !in sorted;
    forall c | c in stuck ensures HasProducerIn(info, c, stuck) {
      assert incoming[c] != {};
      var e: (Job, nat) :| e in incoming[c];
      var (p, k) := e;
      assert IsEdge(graph, p, k, c) && p !in sorted;
      assert c in ChildrenIn(graph, p);
    }
    if stuck == {} {
      var all := set j | j in sorted;
      forall j | j in jobs ensures j in all { assert j !in stuck; }
      ElementsAreNoMore(sorted);
      SubsetIsNotBigger(jobs, all);
    }
    var first :| first in stuck;
    StuckJobsHaveACycle(info, jobs, stuck, [first]);
  }

  class JobScheduler {
    const info: map<Job, JobInfo>
    var jobClasses: seq<Job>
    var jobMap: map<Output, seq<Job>>
    var jobs: seq<Job>

    /** The producer table lists exactly the producers. */
    ghost predicate Valid()
      reads this
    {
      forall j, o :: j in ProducersIn(jobMap, o) <==> Produces(info, j, o)
    }

    /** `discover_and_register_job_classes`; the classes come in no particular order. */
    constructor (info: map<Job, JobInfo>)
      ensures this.info == info && Valid()
      ensures forall j :: j in jobClasses <==> j in info
      ensures jobs == []
    {
      this.info := info;
      jobClasses, jobMap, jobs := [], map[], [];
      new;
      var left := info.Keys;
      while left != {}
        invariant left <= info.Keys && this.info == info && jobs == []
        invariant forall j :: j in jobClasses <==> j in info && j !in left
        invariant forall j, o :: j in ProducersIn(jobMap, o) <==> Produces(info, j, o) && j !in left
      {
        var cls :| cls in left;
        left := left - {cls};
        jobClasses := jobClasses + [cls];
        jobMap := Register(jobMap, cls, info[cls].outputTypes);
      }
    }

    /** Enters a class under each of its output types. */
    static method Register(jobMap: map<Output, seq<Job>>, cls: Job, outputs: seq<Output>)
      returns (jobMap': map<Output, seq<Job>>)
      ensures forall j, o :: j in ProducersIn(jobMap', o) <==>
        j in ProducersIn(jobMap, o) || (j == cls && o in outputs)
    {
      jobMap' := jobMap;
      for i := 0 to |outputs|
        invariant forall j, o :: j in ProducersIn(jobMap', o) <==>
          j in ProducersIn(jobMap, o) || (j == cls && o in outputs[..i])
      {
        var o := outputs[i];
        assert outputs[..i + 1] == outputs[..i] + [o];
        jobMap' := jobMap'[o := ProducersIn(jobMap', o) + [cls]];
      }
      assert outputs[..|outputs|] == outputs;
    }

    /** Every wanted type is dealt with or queued. */
    ghost predicate Covered(wanted: seq<Output>, required: set<Job>, done: set<Output>, queue: seq<Output>) {
      required <= info.Keys &&
      forall o :: IsWanted(info, wanted, required, o) ==> o in done || o in queue
    }

    /** Whatever is queued is wanted. */
    ghost predicate QueueIsWanted(wanted: seq<Output>, required: set<Job>, queue: seq<Output>) {
      forall o :: o in queue ==> IsWanted(info, wanted, required, o)
    }

    ghost predicate ProducersIncluded(required: set<Job>, done: set<Output>) {
      forall j, o :: o in done && Produces(info, j, o) ==> j in required
    }

    /** A worklist over output types. */
    method GetRequiredJobClasses(outputTypes: seq<Output>) returns (required: set<Job>)
      requires Valid()
      ensures required <= info.Keys && IsLeastClosed(info, outputTypes, required)
    {
      required := {};
      var queue := outputTypes;
      ghost var done: set<Output> := {};
      ghost var n := 0;
      while queue != []
        invariant Covered(outputTypes, required, done, queue)
        invariant QueueIsWanted(outputTypes, required, queue)
        invariant ProducersIncluded(required, done)
        invariant required <= Reached(info, outputTypes, n)
        decreases |info.Keys - required|, |queue|
      {
        ghost var required0 := required;
        required, queue, done := EnqueueProducers(queue, outputTypes, required, done, n);
        n := n + 1;
        if required != required0 { ProperSubsetIsSmaller(info.Keys - required, info.Keys - required0); }
      }
      WorklistIsDone(outputTypes, required, done, n);
    }

    lemma WorklistIsDone(outputTypes: seq<Output>, required: set<Job>, done: set<Output>, n: nat)
      requires Covered(outputTypes, required, done, []) && ProducersIncluded(required, done)
      requires required <= Reached(info, outputTypes, n)
      ensures IsLeastClosed(info, outputTypes, required)
    {
      forall other | IsClosed(info, outputTypes, other) ensures required <= other {
        ReachedIsInEveryClosedSet(info, outputTypes, n, other);
      }
      forall j, o | o in outputTypes && Produces(info, j, o) ensures j in required {
        assert IsWanted(info, outputTypes, required, o);
      }
      forall c, p | c in required && DependsOn(info, c, p) ensures p in required {
        var o :| o in info[c].dependencyTypes && Produces(info, p, o);
        assert IsWanted(info, outputTypes, required, o);
      }
    }

    lemma AddingKeepsCovered(wanted: seq<Output>, required: set<Job>, done: set<Output>, queue: seq<Output>, j: Job)
      requires Covered(wanted, required, done, queue) && QueueIsWanted(wanted, required, queue) && j in info
      ensures Covered(wanted, required + {j}, done, queue + info[j].dependencyTypes)
      ensures QueueIsWanted(wanted, required + {j}, queue + info[j].dependencyTypes)
    {
      var more := required + {j};
      forall o ensures IsWanted(info, wanted, more, o) <==>
          IsWanted(info, wanted, required, o) || o in info[j].dependencyTypes
      {
        if o in info[j].dependencyTypes { assert j in more; }
      }
    }

    lemma AddingIsReached(wanted: seq<Output>, required: set<Job>, n: nat, j: Job, o: Output)
      requires required <= Reached(info, wanted, n)
      requires IsWanted(info, wanted, required, o) && Produces(info, j, o)
      ensures j in Reached(info, wanted, n + 1)
    {
      assert IsWanted(info, wanted, Reached(info, wanted, n), o);
    }

    /** The body of the worklist: takes a type from the queue, adds the producers of it
        that are not there yet, and queues what they read. */
    method EnqueueProducers(queue0: seq<Output>, ghost wanted: seq<Output>, required0: set<Job>,
                            ghost done0: set<Output>, ghost n: nat)
      returns (required: set<Job>, queue: seq<Output>, ghost done: set<Output>)
      requires Valid() && queue0 != [] && Covered(wanted, required0, done0, queue0)
      requires QueueIsWanted(wanted, required0, queue0)
      requires ProducersIncluded(required0, done0) && required0 <= Reached(info, wanted, n)
      ensures Covered(wanted, required, done, queue)
      ensures QueueIsWanted(wanted, required, queue)
      ensures ProducersIncluded(required, done)
      ensures required0 <= required <= Reached(info, wanted, n + 1)
      ensures required == required0 ==> |queue| < |queue0|
    {
      var outputType := queue0[0];
      assert queue0 == [outputType] + queue0[1..] && outputType in queue0;
      required, queue, done := required0, queue0[1..], done0 + {outputType};
      assert IsWanted(info, wanted, required0, outputType);
      var producers := ProducersIn(jobMap, outputType);
      for i := 0 to |producers|
        invariant required0 <= required <= Reached(info, wanted, n + 1)
        invariant forall k :: 0 <= k < i ==> producers[k] in required
        invariant Covered(wanted, required, done, queue)
        invariant QueueIsWanted(wanted, required, queue)
        invariant required == required0 ==> |queue| < |queue0|
      {
        var jobClass := producers[i];
        if jobClass !in required {
          assert Produces(info, jobClass, outputType);
          AddingKeepsCovered(wanted, required, done, queue, jobClass);
          AddingIsReached(wanted, required0, n, jobClass, outputType);
          required := required + {jobClass};
          queue := queue + info[jobClass].dependencyTypes;
        }
      }
      forall j, o | o in done && Produces(info, j, o) ensures j in required {
        if o == outputType { assert j in ProducersIn(jobMap, o); }
      }
    }

    // --- Topological sort ---

    method ResolveDependencies(requiredJobs: set<Job>) returns (order: Option<seq<Job>>)
      requires Valid() && requiredJobs <= info.Keys
      ensures order.Some? ==> IsSchedule(info, requiredJobs, order.value)
      ensures order == None <==> HasCycle(info, requiredJobs)
    {
      var graph, inDegree;
      ghost var incoming;
      graph, inDegree, incoming := BuildGraph(requiredJobs);
      var sources := JobsWithoutProducers(requiredJobs, inDegree);
      var sorted: seq<Job> := [];
      while sources != []
        invariant Running(requiredJobs, graph, inDegree, incoming, sorted, sources)
        decreases |requiredJobs| - |sorted|
      {
        var jobClass := sources[0];
        SourceIsReady(requiredJobs, graph, inDegree, incoming, sorted, sources);
        DistinctFits(sorted + [jobClass], requiredJobs);
        inDegree, incoming, sources :=
          Release(jobClass, requiredJobs, graph, inDegree, incoming, sorted, sources[1..]);
        sorted := sorted + [jobClass];
      }
      DistinctFits(sorted, requiredJobs);
      if |sorted| != |requiredJobs| {
        StuckHasACycle(info, requiredJobs, graph, inDegree, incoming, sorted);
        return None;
      }
      OrderedIsSchedule(requiredJobs, graph, sorted);
      ScheduledJobsHaveNoCycle(info, requiredJobs, sorted);
      order := Some(sorted);
    }

    lemma OrderedIsSchedule(jobs: set<Job>, graph: Graph, sorted: seq<Job>)
      requires Distinct(sorted) && IsOrdered(graph, sorted) && forall j :: j in sorted <==> j in jobs
      requires IsDependencyGraph(jobs, graph)
      ensures IsSchedule(info, jobs, sorted)
    {
      forall i, p | 0 <= i < |sorted| && p in jobs && DependsOn(info, sorted[i], p) ensures p in sorted[..i] {
        assert sorted[i] in ChildrenIn(graph, p);
      }
    }

    /** The children of a job are the jobs that depend on it. */
    ghost predicate IsDependencyGraph(jobs: set<Job>, graph: Graph) {
      forall p, c :: c in ChildrenIn(graph, p) <==> c in jobs && p in jobs && DependsOn(info, c, p)
    }

    method BuildGraph(jobs: set<Job>) returns (graph: Graph, inDegree: Degrees, ghost incoming: Incoming)
      requires Valid() && jobs <= info.Keys
      ensures Counted(jobs, inDegree, incoming) && CountsRest(jobs, graph, incoming, [], None, 0)
      ensures GraphInside(jobs, graph) && IsDependencyGraph(jobs, graph)
    {
      graph, inDegree, incoming := map[], map[], map c | c in jobs :: {};
      assert forall p :: ChildrenIn(graph, p) == [];
      var left := jobs;
      while left != {}
        invariant left <= jobs
        invariant Counted(jobs, inDegree, incoming) && CountsRest(jobs, graph, incoming, [], None, 0)
        invariant GraphInside(jobs, graph)
        invariant forall p, c :: c in ChildrenIn(graph, p) <==>
          c in jobs && c !in left && p in jobs && DependsOn(info, c, p)
      {
        var jobClass :| jobClass in left;
        left := left - {jobClass};
        graph, inDegree, incoming := AddEdges(jobClass, jobs, graph, inDegree, incoming);
      }
    }

    /** The edges of one job: one for every dependency type and producer of it. */
    method AddEdges(jobClass: Job, jobs: set<Job>, graph0: Graph, inDegree0: Degrees, ghost incoming0: Incoming)
      returns (graph: Graph, inDegree: Degrees, ghost incoming: Incoming)
      requires Valid() && jobClass in jobs && jobs <= info.Keys
      requires Counted(jobs, inDegree0, incoming0) && CountsRest(jobs, graph0, incoming0, [], None, 0)
      requires GraphInside(jobs, graph0)
      ensures Counted(jobs, inDegree, incoming) && CountsRest(jobs, graph, incoming, [], None, 0)
      ensures GraphInside(jobs, graph)
      ensures forall p, c :: c in ChildrenIn(graph, p) <==>
        c in ChildrenIn(graph0, p) || (c == jobClass && p in jobs && DependsOn(info, c, p))
    {
      graph, inDegree, incoming := graph0, inDegree0, incoming0;
      var dependencies := info[jobClass].dependencyTypes;
      for i := 0 to |dependencies|
        invariant Counted(jobs, inDegree, incoming) && CountsRest(jobs, graph, incoming, [], None, 0)
        invariant GraphInside(jobs, graph)
        invariant forall p, c :: c in ChildrenIn(graph, p) <==>
          c in ChildrenIn(graph0, p) || (c == jobClass && p in jobs && ProducesOneOf(p, dependencies[..i]))
      {
        assert dependencies[..i + 1] == dependencies[..i] + [dependencies[i]];
        graph, inDegree, incoming := AddEdgesFrom(dependencies[i], jobClass, jobs, graph, inDegree, incoming);
      }
      assert dependencies[..|dependencies|] == dependencies;
    }

    ghost predicate ProducesOneOf(p: Job, types: seq<Output>) {
      exists o :: o in types && Produces(info, p, o)
    }

    method AddEdgesFrom(dependency: Output, jobClass: Job, jobs: set<Job>, graph0: Graph, inDegree0: Degrees,
                        ghost incoming0: Incoming)
      returns (graph: Graph, inDegree: Degrees, ghost incoming: Incoming)
      requires Valid() && jobClass in jobs
      requires Counted(jobs, inDegree0, incoming0) && CountsRest(jobs, graph0, incoming0, [], None, 0)
      requires GraphInside(jobs, graph0)
      ensures Counted(jobs, inDegree, incoming) && CountsRest(jobs, graph, incoming, [], None, 0)
      ensures GraphInside(jobs, graph)
      ensures forall p, c :: c in ChildrenIn(graph, p) <==>
        c in ChildrenIn(graph0, p) || (c == jobClass && p in jobs && Produces(info, p, dependency))
    {
      graph, inDegree, incoming := graph0, inDegree0, incoming0;
      var parents := ProducersIn(jobMap, dependency);
      for j := 0 to |parents|
        invariant Counted(jobs, inDegree, incoming) && CountsRest(jobs, graph, incoming, [], None, 0)
        invariant GraphInside(jobs, graph)
        invariant forall p, c :: c in ChildrenIn(graph, p) <==>
          c in ChildrenIn(graph0, p) || (c == jobClass && p in jobs && p in parents[..j])
      {
        assert parents[..j + 1] == parents[..j] + [parents[j]];
        if parents[j] in jobs {
          graph, inDegree, incoming := AddEdge(parents[j], jobClass, jobs, graph, inDegree, incoming);
        }
      }
      assert parents[..|parents|] == parents;
    }

    static method AddEdge(p: Job, c: Job, ghost jobs: set<Job>, graph: Graph, inDegree: Degrees,
                          ghost incoming: Incoming)
      returns (graph': Graph, inDegree': Degrees, ghost incoming': Incoming)
      requires p in jobs && c in jobs && GraphInside(jobs, graph)
      requires Counted(jobs, inDegree, incoming) && CountsRest(jobs, graph, incoming, [], None, 0)
      ensures Counted(jobs, inDegree', incoming') && CountsRest(jobs, graph', incoming', [], None, 0)
      ensures GraphInside(jobs, graph')
      ensures forall q, d :: d in ChildrenIn(graph', q) <==> d in ChildrenIn(graph, q) || (q == p && d == c)
    {
      graph' := graph[p := ChildrenIn(graph, p) + [c]];
      inDegree' := inDegree[c := DegreeIn(inDegree, c) + 1];
      incoming' := AddedEdgeIsCounted(jobs, graph, inDegree, incoming, p, c);
      AddedChild(graph, p, c);
      StaysInside(jobs, graph, p, c);
    }

    static method JobsWithoutProducers(jobs: set<Job>, inDegree: Degrees) returns (sources: seq<Job>)
      ensures Distinct(sources)
      ensures forall c :: c in sources <==> c in jobs && DegreeIn(inDegree, c) == 0
    {
      sources := [];
      var left := jobs;
      while left != {}
        invariant left <= jobs && Distinct(sources)
        invariant forall c :: c in sources <==> c in jobs - left && DegreeIn(inDegree, c) == 0
      {
        var jobClass :| jobClass in left;
        left := left - {jobClass};
        if DegreeIn(inDegree, jobClass) == 0 { sources := sources + [jobClass]; }
      }
    }

    /** Takes the edges from `p` out of the in-degrees; jobs left without one become
        sources. */
    static method Release(p: Job, ghost jobs: set<Job>, graph: Graph, inDegree0: Degrees,
                          ghost incoming0: Incoming, ghost sorted: seq<Job>, sources0: seq<Job>)
      returns (inDegree: Degrees, ghost incoming: Incoming, sources: seq<Job>)
      requires p !in sorted && GraphInside(jobs, graph) && IsOrdered(graph, sorted + [p])
      requires Counted(jobs, inDegree0, incoming0) && CountsRest(jobs, graph, incoming0, sorted, Some(p), 0)
      requires Frontier(jobs, incoming0, sorted + [p], sources0)
      ensures Running(jobs, graph, inDegree, incoming, sorted + [p], sources)
    {
      inDegree, incoming, sources := inDegree0, incoming0, sources0;
      var children := ChildrenIn(graph, p);
      for i := 0 to |children|
        invariant Counted(jobs, inDegree, incoming) && CountsRest(jobs, graph, incoming, sorted, Some(p), i)
        invariant Frontier(jobs, incoming, sorted + [p], sources)
      {
        var child := children[i];
        assert child in ChildrenIn(graph, p) && IsEdge(graph, p, i, child);
        assert (p, i) in incoming[child] && child !in sources && child !in sorted + [p];
        ReleasedEdge(jobs, graph, inDegree, incoming, sorted, p, i);
        inDegree := inDegree[child := DegreeIn(inDegree, child) - 1];
        incoming := incoming[child := incoming[child] - {(p, i)}];
        if DegreeIn(inDegree, child) == 0 { sources := sources + [child]; }
      }
      AllReleased(jobs, graph, incoming, sorted, p);
    }

    // --- Running the jobs ---

    /** What each job needs has run when the job starts. */
    ghost predicate ProducersComeFirst(order: seq<Job>) {
      forall i, p :: 0 <= i < |order| && DependsOn(info, order[i], p) ==> p in order[..i]
    }

    /** Every resolved job in its order, but the blocks job, needed or not, in front. */
    method InstantiateJobs(resolved: seq<Job>, ghost wanted: seq<Output>, ghost required: set<Job>)
      requires Valid() && IsLeastClosed(info, wanted, required) && IsSchedule(info, required, resolved)
      requires BLOCKS_JOB in info && info[BLOCKS_JOB].dependencyTypes == [] && jobs == []
      modifies this`jobs
      ensures jobs != [] && jobs[0] == BLOCKS_JOB && Distinct(jobs)
      ensures forall j :: j in jobs <==> j in required || j == BLOCKS_JOB
      ensures ProducersComeFirst(jobs)
    {
      for i := 0 to |resolved|
        invariant Distinct(jobs) && BLOCKS_JOB !in jobs
        invariant forall j :: j in jobs <==> j in resolved[..i] && j != BLOCKS_JOB
        invariant ProducersComeFirst([BLOCKS_JOB] + jobs)
      {
        var jobClass := resolved[i];
        assert resolved[..i + 1] == resolved[..i] + [jobClass] && jobClass !in resolved[..i];
        if jobClass != BLOCKS_JOB {
          ghost var before := [BLOCKS_JOB] + jobs;
          jobs := jobs + [jobClass];
          AppendReady(before, jobClass, resolved, i, required, wanted);
          assert before + [jobClass] == [BLOCKS_JOB] + jobs;
        }
      }
      assert resolved[..|resolved|] == resolved;
      jobs := [BLOCKS_JOB] + jobs;
    }

    lemma AppendReady(before: seq<Job>, jobClass: Job, resolved: seq<Job>, i: nat, required: set<Job>,
                      wanted: seq<Output>)
      requires IsLeastClosed(info, wanted, required) && IsSchedule(info, required, resolved)
      requires i < |resolved| && resolved[i] == jobClass
      requires forall j :: j in resolved[..i] ==> j in before
      requires ProducersComeFirst(before)
      ensures ProducersComeFirst(before + [jobClass])
    {
      var longer := before + [jobClass];
      forall k, p | 0 <= k < |longer| && DependsOn(info, longer[k], p) ensures p in longer[..k] {
        if k < |before| {
          assert longer[..k] == before[..k];
        } else {
          assert longer[..k] == before;
          assert jobClass in resolved && p in required;
          assert p in resolved[..i];
        }
      }
    }

    /** What a dispatcher sets up once: fails exactly when the jobs it needs form a cycle. */
    method SetUp(outputTypes: seq<Output>) returns (ok: bool, ghost required: set<Job>)
      requires Valid() && BLOCKS_JOB in info && info[BLOCKS_JOB].dependencyTypes == [] && jobs == []
      modifies this`jobs
      ensures IsLeastClosed(info, outputTypes, required)
      ensures ok <==> !HasCycle(info, required)
      ensures ok ==> jobs != [] && jobs[0] == BLOCKS_JOB && Distinct(jobs) && ProducersComeFirst(jobs)
      ensures ok ==> forall j :: j in jobs <==> j in required || j == BLOCKS_JOB
    {
      var requiredJobs := GetRequiredJobClasses(outputTypes);
      required := requiredJobs;
      var resolved := ResolveDependencies(requiredJobs);
      if resolved == None { return false, required; }
      InstantiateJobs(resolved.value, outputTypes, required);
      ok := true;
    }

    /** `run_jobs`: the jobs run one after the other until one of them fails. */
    method RunJobs(fails: set<Job>) returns (finished: seq<Job>, failed: bool)
      ensures finished <= jobs && failed == (finished != jobs)
      ensures failed <==> exists j :: j in jobs && j in fails
      ensures failed ==> |finished| < |jobs| && jobs[|finished|] in fails
      ensures forall j :: j in finished ==> j !in fails
    {
      finished, failed := [], false;
      for i := 0 to |jobs|
        invariant finished == jobs[..i] && forall j :: j in finished ==> j !in fails
      {
        if jobs[i] in fails { failed := true; return; }
        assert jobs[..i + 1] == jobs[..i] + [jobs[i]];
        finished := finished + [jobs[i]];
      }
    }
  }
}
