/** Transaction specifications, and how the blocks job turns the filters of other jobs
    into `eth_getLogs` queries and one predicate on transactions. */
module FilterPushdown {
  import opened Common

  datatype Log = Log(address: string, topic0: Option<string>)

  datatype Receipt = Receipt(contractAddress: Option<string>, logs: Option<seq<Log>>)

  datatype Transaction = Transaction(
    hash: string, fromAddress: string, toAddress: Option<string>, input: string,
    blockNumber: int, transactionIndex: nat, receipt: Option<Receipt>)

  // --- Specifications ---

  datatype TopicSpecification = TopicSpecification(topics: seq<string>, addresses: seq<string>)

  datatype Specification =
    | AlwaysTrue
    | AlwaysFalse
    | And(specs: seq<Specification>)
    | Or(specs: seq<Specification>)
    | Not(spec: Specification)
    | FromAddress(address: string)
    | ToAddress(address: string)
    | FuncSign(funcSign: string)
    | Topic(topic: TopicSpecification)
    | TransactionHash(hashes: set<string>)

  predicate LogSatisfies(spec: TopicSpecification, log: Log) {
    (spec.topics == [] || (log.topic0.Some? && log.topic0.value in spec.topics)) &&
    (spec.addresses == [] || log.address in spec.addresses)
  }

  predicate TopicSatisfied(spec: TopicSpecification, tx: Transaction) {
    tx.receipt.Some? && tx.receipt.value.logs.Some? &&
    exists log :: log in tx.receipt.value.logs.value && LogSatisfies(spec, log)
  }

  predicate IsSatisfiedBy(spec: Specification, tx: Transaction) {
    match spec
    case AlwaysTrue => true
    case AlwaysFalse => false
    case And(specs) => forall i :: 0 <= i < |specs| ==> IsSatisfiedBy(specs[i], tx)
    case Or(specs) => exists i :: 0 <= i < |specs| && IsSatisfiedBy(specs[i], tx)
    case Not(s) => !IsSatisfiedBy(s, tx)
    case FromAddress(a) => tx.fromAddress == a
    case ToAddress(a) => tx.toAddress == Some(a)
    case FuncSign(f) => tx.input[..if |tx.input| < 10 then |tx.input| else 10] == f
    case Topic(topic) => TopicSatisfied(topic, tx)
    case TransactionHash(hashes) => tx.hash in hashes
  }

  /** A conjunction with one more member. */
  lemma AndOfMore(specs: seq<Specification>, spec: Specification, tx: Transaction)
    ensures IsSatisfiedBy(And([]), tx)
    ensures IsSatisfiedBy(And(specs + [spec]), tx) <==> IsSatisfiedBy(And(specs), tx) && IsSatisfiedBy(spec, tx)
  {
    var more := specs + [spec];
    assert more[|specs|] == spec && forall i :: 0 <= i < |specs| ==> more[i] == specs[i];
  }

  /** A disjunction with one more member. */
  lemma OrOfMore(specs: seq<Specification>, spec: Specification, tx: Transaction)
    ensures !IsSatisfiedBy(Or([]), tx)
    ensures IsSatisfiedBy(Or(specs + [spec]), tx) <==> IsSatisfiedBy(Or(specs), tx) || IsSatisfiedBy(spec, tx)
  {
    var more := specs + [spec];
    assert more[|specs|] == spec && forall i :: 0 <= i < |specs| ==> more[i] == specs[i];
    if i :| 0 <= i < |specs| && IsSatisfiedBy(specs[i], tx) { assert IsSatisfiedBy(more[i], tx); }
  }

  /** What the atomic specifications ask of a transaction. A function signature has ten
      characters, as its constructor demands, and is asked of the beginning of the input. */
  lemma AtomsMean(tx: Transaction, spec: Specification)
    ensures IsSatisfiedBy(Not(spec), tx) <==> !IsSatisfiedBy(spec, tx)
    ensures spec.FromAddress? ==> (IsSatisfiedBy(spec, tx) <==> spec.address == tx.fromAddress)
    ensures spec.ToAddress? ==> (IsSatisfiedBy(spec, tx) <==> tx.toAddress.Some? && spec.address == tx.toAddress.value)
    ensures spec.FuncSign? && |spec.funcSign| == 10 ==> (IsSatisfiedBy(spec, tx) <==> spec.funcSign <= tx.input)
    ensures spec.TransactionHash? ==> (IsSatisfiedBy(spec, tx) <==> tx.hash in spec.hashes)
    ensures IsSatisfiedBy(AlwaysTrue, tx) && !IsSatisfiedBy(AlwaysFalse, tx)
  {
    if spec.FuncSign? && |spec.funcSign| == 10 && IsSatisfiedBy(spec, tx) {
      assert tx.input[..10] == spec.funcSign;
    }
  }

  /** A topic specification asks for one log that has one of its topics first, if it names
      any, and was emitted by one of its addresses, if it names any. */
  lemma TopicsMean(spec: TopicSpecification, topic: string, address: string, tx: Transaction)
    ensures var logs := if tx.receipt.Some? && tx.receipt.value.logs.Some? then tx.receipt.value.logs.value else [];
      && (TopicSatisfied(TopicSpecification([], []), tx) <==> logs != [])
      && (TopicSatisfied(TopicSpecification([topic], []), tx) <==>
            exists log :: log in logs && log.topic0 == Some(topic))
      && (TopicSatisfied(TopicSpecification([], [address]), tx) <==>
            exists log :: log in logs && log.address == address)
      && (TopicSatisfied(spec, tx) && spec.topics != [] && spec.addresses != [] ==>
            exists log, t, a :: log in logs && t in spec.topics && a in spec.addresses && log == Log(a, Some(t)))
      && (topic in spec.topics && address in spec.addresses && Log(address, Some(topic)) in logs ==>
            TopicSatisfied(spec, tx))
  {
    if tx.receipt.Some? && tx.receipt.value.logs.Some? {
      var logs := tx.receipt.value.logs.value;
      if logs != [] { assert LogSatisfies(TopicSpecification([], []), logs[0]); }
      forall log | log in logs && log.topic0 == Some(topic)
        ensures TopicSatisfied(TopicSpecification([topic], []), tx)
      {
        assert LogSatisfies(TopicSpecification([topic], []), log);
      }
      forall log | log in logs && log.address == address
        ensures TopicSatisfied(TopicSpecification([], [address]), tx)
      {
        assert LogSatisfies(TopicSpecification([], [address]), log);
      }
      if TopicSatisfied(spec, tx) && spec.topics != [] && spec.addresses != [] {
        var log :| log in logs && LogSatisfies(spec, log);
        assert log == Log(log.address, Some(log.topic0.value));
      }
      if topic in spec.topics && address in spec.addresses && Log(address, Some(topic)) in logs {
        assert LogSatisfies(spec, Log(address, Some(topic)));
      }
    }
  }

  /** The filters that jobs hand to the blocks job. */
  datatype Filter = ByLogs(topics: seq<TopicSpecification>) | ByInfo(infos: seq<Specification>) | Unsupported

  /** What a job's own filter says about a transaction. */
  predicate Accepts(f: Filter, tx: Transaction) {
    match f
    case ByLogs(topics) => exists i :: 0 <= i < |topics| && TopicSatisfied(topics[i], tx)
    case ByInfo(infos) => forall i :: 0 <= i < |infos| ==> IsSatisfiedBy(infos[i], tx)
    case Unsupported => false
  }

  // --- The node ---

  /** A transaction as the block request returns it: its receipt comes later. */
  type BlockTransaction = tx: Transaction | tx.receipt == None
    witness Transaction("", "", None, "", 0, 0, None)

  /** A transaction of a block, and the receipt that belongs to it. */
  datatype ChainTransaction = ChainTransaction(tx: BlockTransaction, receipt: Receipt)

  type ChainBlock = seq<ChainTransaction>

  /** `fill_with_receipt`, which a later job does. */
  function Filled(c: ChainTransaction): Transaction {
    c.tx.(receipt := Some(c.receipt),
          toAddress := if c.tx.toAddress == None then c.receipt.contractAddress else c.tx.toAddress)
  }

  /** Filter parameters of `eth_getLogs`. Addresses are sent in checksum spelling, which
      differs from the given one in upper and lower case only. */
  datatype LogQuery = LogQuery(topics: Option<seq<string>>, addresses: Option<seq<string>>)

  function ToFilterParams(spec: TopicSpecification): LogQuery {
    LogQuery(if spec.topics == [] then None else Some(spec.topics),
             if spec.addresses == [] then None else Some(spec.addresses))
  }

  /** EIP-1474, section eth_getLogs: alternatives for the first topic, alternatives for the
      emitting address; the node compares addresses as numbers. */
  predicate LogMatches(q: LogQuery, log: Log) {
    (q.topics == None || (log.topic0.Some? && log.topic0.value in q.topics.value)) &&
    (q.addresses == None || exists a :: a in q.addresses.value && Lower(a) == Lower(log.address))
  }

  predicate HasMatch(q: LogQuery, c: ChainTransaction) {
    c.receipt.logs.Some? && exists log :: log in c.receipt.logs.value && LogMatches(q, log)
  }

  predicate IsNormal(a: string) { Lower(a) == a }

  /** Addresses in lower case, as the domain classes and configurations hold them. */
  predicate NormalSpec(spec: TopicSpecification) { forall a :: a in spec.addresses ==> IsNormal(a) }

  predicate NormalTransaction(c: ChainTransaction) {
    c.receipt.logs.Some? ==> forall log :: log in c.receipt.logs.value ==> IsNormal(log.address)
  }

  /** On normalised addresses the query selects what the specification selects. */
  lemma QueryIsSpecification(spec: TopicSpecification, c: ChainTransaction)
    requires NormalSpec(spec) && NormalTransaction(c)
    ensures HasMatch(ToFilterParams(spec), c) <==> TopicSatisfied(spec, Filled(c))
  {
    if c.receipt.logs.Some? {
      forall log | log in c.receipt.logs.value
        ensures LogMatches(ToFilterParams(spec), log) <==> LogSatisfies(spec, log)
      {
        if log.address in spec.addresses { assert Lower(log.address) == Lower(log.address); }
      }
    }
  }

  // --- The predicate that is pushed down ---

  /** The transactions of the range in chain order. */
  function Flat(range: seq<ChainBlock>): seq<ChainTransaction> {
    if range == [] then [] else Flat(range[..|range| - 1]) + range[|range| - 1]
  }

  /** The hashes of the transactions of the range with a matching log. */
  function HashesOf(q: LogQuery, range: seq<ChainBlock>): set<string> {
    set c | c in Flat(range) && HasMatch(q, c) :: c.tx.hash
  }

  function BlocksOf(q: LogQuery, range: seq<ChainBlock>): set<int> {
    set c | c in Flat(range) && HasMatch(q, c) :: c.tx.blockNumber
  }

  function OrElse(a: Specification, b: Specification): Specification { Or([a, b]) }

  lemma OrElseIsOr(a: Specification, b: Specification, tx: Transaction)
    ensures IsSatisfiedBy(OrElse(a, b), tx) <==> IsSatisfiedBy(a, tx) || IsSatisfiedBy(b, tx)
  {
    var specs := [a, b];
    assert specs[0] == a && specs[1] == b;
    assert IsSatisfiedBy(Or(specs), tx) <==> exists i :: 0 <= i < |specs| && IsSatisfiedBy(specs[i], tx);
  }

  /** What one filter lets through: the hashes its queries found, or a disjunction. */
  predicate LetsThrough(f: Filter, range: seq<ChainBlock>, tx: Transaction) {
    match f
    case ByLogs(topics) => exists i :: 0 <= i < |topics| && tx.hash in HashesOf(ToFilterParams(topics[i]), range)
    case ByInfo(infos) => exists i :: 0 <= i < |infos| && IsSatisfiedBy(infos[i], tx)
    case Unsupported => false
  }

  /** No two transactions of the range have the same hash. */
  ghost predicate HashesDiffer(range: seq<ChainBlock>) {
    forall c, d :: c in Flat(range) && d in Flat(range) && c.tx.hash == d.tx.hash ==> c == d
  }

  ghost predicate NormalRange(range: seq<ChainBlock>) {
    forall c :: c in Flat(range) ==> NormalTransaction(c)
  }

  lemma HashMeansMatch(q: LogQuery, range: seq<ChainBlock>, c: ChainTransaction)
    requires c in Flat(range) && HashesDiffer(range) && c.tx.hash in HashesOf(q, range)
    ensures HasMatch(q, c)
  {
    var d :| d in Flat(range) && HasMatch(q, d) && d.tx.hash == c.tx.hash;
  }

  lemma HashSelects(spec: TopicSpecification, range: seq<ChainBlock>, c: ChainTransaction)
    requires c in Flat(range)
    requires HashesDiffer(range) && NormalRange(range) && NormalSpec(spec)
    ensures c.tx.hash in HashesOf(ToFilterParams(spec), range) <==> TopicSatisfied(spec, Filled(c))
  {
    QueryIsSpecification(spec, c);
    if c.tx.hash in HashesOf(ToFilterParams(spec), range) { HashMeansMatch(ToFilterParams(spec), range, c); }
  }

  ghost predicate NormalFilter(f: Filter) {
    f.ByLogs? ==> forall i :: 0 <= i < |f.topics| ==> NormalSpec(f.topics[i])
  }

  /** A log filter lets through exactly the transactions it accepts, although the
      receipts are not there yet when the predicate is applied. */
  lemma LogFilterIsExact(f: Filter, range: seq<ChainBlock>, c: ChainTransaction)
    requires c in Flat(range) && f.ByLogs?
    requires HashesDiffer(range) && NormalRange(range) && NormalFilter(f)
    ensures LetsThrough(f, range, c.tx) <==> Accepts(f, Filled(c))
  {
    forall k | 0 <= k < |f.topics|
      ensures c.tx.hash in HashesOf(ToFilterParams(f.topics[k]), range) <==>
        TopicSatisfied(f.topics[k], Filled(c))
    {
      HashSelects(f.topics[k], range, c);
    }
  }

  /** The specification reads nothing that the receipt fills in. */
  predicate IsReceiptFree(spec: Specification) {
    match spec
    case And(specs) => forall i :: 0 <= i < |specs| ==> IsReceiptFree(specs[i])
    case Or(specs) => forall i :: 0 <= i < |specs| ==> IsReceiptFree(specs[i])
    case Not(s) => IsReceiptFree(s)
    case ToAddress(_) => false
    case Topic(_) => false
    case _ => true
  }

  lemma {:induction false} ReceiptFreeIsStable(spec: Specification, c: ChainTransaction)
    requires IsReceiptFree(spec)
    ensures IsSatisfiedBy(spec, c.tx) == IsSatisfiedBy(spec, Filled(c))
  {
    match spec
    case And(specs) =>
      forall i | 0 <= i < |specs| ensures IsSatisfiedBy(specs[i], c.tx) == IsSatisfiedBy(specs[i], Filled(c)) {
        ReceiptFreeIsStable(specs[i], c);
      }
    case Or(specs) =>
      forall i | 0 <= i < |specs| ensures IsSatisfiedBy(specs[i], c.tx) == IsSatisfiedBy(specs[i], Filled(c)) {
        ReceiptFreeIsStable(specs[i], c);
      }
    case Not(s) => ReceiptFreeIsStable(s, c);
    case _ =>
  }

  /** Filling in the receipt cannot make the specification true. */
  predicate Falls(spec: Specification) {
    match spec
    case And(specs) => forall i :: 0 <= i < |specs| ==> Falls(specs[i])
    case Or(specs) => forall i :: 0 <= i < |specs| ==> Falls(specs[i])
    case Not(s) => Rises(s)
    case ToAddress(_) => false
    case Topic(_) => false
    case _ => true
  }

  /** Filling in the receipt cannot make the specification false. */
  predicate Rises(spec: Specification) {
    match spec
    case And(specs) => forall i :: 0 <= i < |specs| ==> Rises(specs[i])
    case Or(specs) => forall i :: 0 <= i < |specs| ==> Rises(specs[i])
    case Not(s) => Falls(s)
    case _ => true
  }

  lemma {:induction false} FallingAndRising(spec: Specification, c: ChainTransaction)
    ensures Falls(spec) && IsSatisfiedBy(spec, Filled(c)) ==> IsSatisfiedBy(spec, c.tx)
    ensures Rises(spec) && IsSatisfiedBy(spec, c.tx) ==> IsSatisfiedBy(spec, Filled(c))
  {
    match spec
    case And(specs) => forall i | 0 <= i < |specs| { FallingAndRising(specs[i], c); }
    case Or(specs) => forall i | 0 <= i < |specs| { FallingAndRising(specs[i], c); }
    case Not(s) => FallingAndRising(s, c);
    case _ =>
  }

  /** One of the specifications of an info filter was true before the receipt if it is
      true after it. */
  ghost predicate IsPushable(f: Filter) {
    f.ByInfo? ==> exists i :: 0 <= i < |f.infos| && Falls(f.infos[i])
  }

  /** A pushable filter lets through what it will accept. */
  lemma AcceptedIsLetThrough(f: Filter, range: seq<ChainBlock>, c: ChainTransaction)
    requires c in Flat(range)
    requires HashesDiffer(range) && NormalRange(range) && NormalFilter(f) && IsPushable(f)
    requires Accepts(f, Filled(c))
    ensures LetsThrough(f, range, c.tx)
  {
    if f.ByLogs? {
      LogFilterIsExact(f, range, c);
    } else {
      var i :| 0 <= i < |f.infos| && Falls(f.infos[i]);
      FallingAndRising(f.infos[i], c);
    }
  }

  /** Whatever an info filter will accept, it lets through. */
  ghost predicate LosesNothing(infos: seq<Specification>) {
    forall c :: Accepts(ByInfo(infos), Filled(c)) ==> LetsThrough(ByInfo(infos), [], c.tx)
  }

  predicate IsAtomic(spec: Specification) { !(spec.And? || spec.Or? || spec.Not?) }

  /** The filter names two recipients, so that it accepts nothing. */
  predicate NamesTwoRecipients(infos: seq<Specification>) {
    exists i, j :: 0 <= i < |infos| && 0 <= j < |infos| && infos[i].ToAddress? && infos[j].ToAddress? &&
      infos[i].address != infos[j].address
  }

  function SomeLog(spec: TopicSpecification): Log {
    Log(if spec.addresses == [] then "" else spec.addresses[0],
        if spec.topics == [] then None else Some(spec.topics[0]))
  }

  /** A receipt that satisfies all the topics and the recipient that the list names. */
  function SomeLogs(infos: seq<Specification>): seq<Log> {
    if infos == [] then []
    else
      var last := infos[|infos| - 1];
      SomeLogs(infos[..|infos| - 1]) + if last.Topic? then [SomeLog(last.topic)] else []
  }

  function SomeRecipient(infos: seq<Specification>): Option<string> {
    if infos == [] then None
    else
      var last := infos[|infos| - 1];
      if last.ToAddress? then Some(last.address) else SomeRecipient(infos[..|infos| - 1])
  }

  lemma {:induction false} LogsSatisfy(infos: seq<Specification>, i: nat)
    requires i < |infos| && infos[i].Topic?
    ensures SomeLog(infos[i].topic) in SomeLogs(infos) && LogSatisfies(infos[i].topic, SomeLog(infos[i].topic))
  {
    if i < |infos| - 1 { LogsSatisfy(infos[..|infos| - 1], i); }
  }

  lemma {:induction false} RecipientIsNamed(infos: seq<Specification>, i: nat)
    requires i < |infos| && infos[i].ToAddress? && !NamesTwoRecipients(infos)
    ensures SomeRecipient(infos) == Some(infos[i].address)
  {
    var init, last := infos[..|infos| - 1], infos[|infos| - 1];
    if last.ToAddress? {
      assert infos[|infos| - 1].ToAddress?;
    } else {
      RecipientIsNamed(init, i);
    }
  }

  /** A transaction that creates a contract: none of the specifications holds of it before
      the receipt is filled in, and all of them afterwards. */
  lemma CreationIsLost(infos: seq<Specification>) returns (c: ChainTransaction)
    requires forall i :: 0 <= i < |infos| ==> infos[i].ToAddress? || infos[i].Topic?
    requires !NamesTwoRecipients(infos)
    ensures Accepts(ByInfo(infos), Filled(c)) && !LetsThrough(ByInfo(infos), [], c.tx)
  {
    c := ChainTransaction(Transaction("", "", None, "", 0, 0, None),
                          Receipt(SomeRecipient(infos), Some(SomeLogs(infos))));
    forall i | 0 <= i < |infos| ensures IsSatisfiedBy(infos[i], Filled(c)) && !IsSatisfiedBy(infos[i], c.tx) {
      if infos[i].Topic? { LogsSatisfy(infos, i); } else { RecipientIsNamed(infos, i); }
    }
  }

  /** An info filter of atomic specifications loses nothing exactly if one of them reads
      only what is there before the receipt, or if it accepts nothing because it names two
      recipients. The empty filter loses what it accepts, which is everything. */
  lemma AtomicFilterLosesNothingIff(infos: seq<Specification>)
    requires forall i :: 0 <= i < |infos| ==> IsAtomic(infos[i])
    ensures LosesNothing(infos) <==>
      (exists i :: 0 <= i < |infos| && IsReceiptFree(infos[i])) || NamesTwoRecipients(infos)
  {
    if i :| 0 <= i < |infos| && IsReceiptFree(infos[i]) {
      forall c | Accepts(ByInfo(infos), Filled(c)) ensures LetsThrough(ByInfo(infos), [], c.tx) {
        ReceiptFreeIsStable(infos[i], c);
      }
    } else if NamesTwoRecipients(infos) {
      var i, j :| 0 <= i < |infos| && 0 <= j < |infos| && infos[i].ToAddress? && infos[j].ToAddress? &&
        infos[i].address != infos[j].address;
      forall c ensures !Accepts(ByInfo(infos), Filled(c)) {
        assert !IsSatisfiedBy(infos[i], Filled(c)) || !IsSatisfiedBy(infos[j], Filled(c));
      }
    } else {
      forall i | 0 <= i < |infos| ensures infos[i].ToAddress? || infos[i].Topic? {
        assert IsAtomic(infos[i]) && !IsReceiptFree(infos[i]);
      }
      var c := CreationIsLost(infos);
    }
  }

  /** For info filters on fields that are there from the start, not being empty is the
      exact condition, whatever their specifications are built of. */
  lemma InfoFilterKeepsIffNotEmpty(infos: seq<Specification>)
    requires forall i :: 0 <= i < |infos| ==> IsReceiptFree(infos[i])
    ensures LosesNothing(infos) <==> infos != []
  {
    if infos == [] {
      AtomicFilterLosesNothingIff(infos);
    } else {
      forall c | Accepts(ByInfo(infos), Filled(c)) ensures LetsThrough(ByInfo(infos), [], c.tx) {
        ReceiptFreeIsStable(infos[0], c);
      }
    }
  }

  // --- The job ---

  /** The blocks are numbered from `start` on, and their transactions know their place. */
  ghost predicate IsRange(start: int, range: seq<ChainBlock>) {
    forall n, i :: 0 <= n < |range| && 0 <= i < |range[n]| ==>
      range[n][i].tx.blockNumber == start + n && range[n][i].tx.transactionIndex == i
  }

  /** The specification the job builds up, disjunct by disjunct. */
  function PushTopics(spec: Specification, topics: seq<TopicSpecification>, range: seq<ChainBlock>): Specification {
    if topics == [] then spec
    else
      OrElse(PushTopics(spec, topics[..|topics| - 1], range),
             TransactionHash(HashesOf(ToFilterParams(topics[|topics| - 1]), range)))
  }

  function Push(spec: Specification, filters: seq<Filter>, range: seq<ChainBlock>): Specification {
    if filters == [] then spec
    else
      var before, last := Push(spec, filters[..|filters| - 1], range), filters[|filters| - 1];
      match last
      case ByLogs(topics) => PushTopics(before, topics, range)
      case ByInfo(infos) => OrElse(before, Or(infos))
      case Unsupported => before
  }

  lemma {:induction false} PushTopicsMeans(spec: Specification, topics: seq<TopicSpecification>,
                                           range: seq<ChainBlock>, tx: Transaction)
    ensures IsSatisfiedBy(PushTopics(spec, topics, range), tx) <==>
      IsSatisfiedBy(spec, tx) || LetsThrough(ByLogs(topics), range, tx)
  {
    if topics != [] {
      var init, last := topics[..|topics| - 1], topics[|topics| - 1];
      PushTopicsMeans(spec, init, range, tx);
      OrElseIsOr(PushTopics(spec, init, range), TransactionHash(HashesOf(ToFilterParams(last), range)), tx);
      assert forall i :: 0 <= i < |init| ==> topics[i] == init[i];
      if LetsThrough(ByLogs(init), range, tx) {
        var i :| 0 <= i < |init| && tx.hash in HashesOf(ToFilterParams(init[i]), range);
        assert tx.hash in HashesOf(ToFilterParams(topics[i]), range);
      }
    }
  }

  predicate SomeLetsThrough(filters: seq<Filter>, range: seq<ChainBlock>, tx: Transaction) {
    exists k :: 0 <= k < |filters| && LetsThrough(filters[k], range, tx)
  }

  /** A transaction satisfies it if it satisfied the first specification or one of the
      filters lets it through. */
  lemma {:induction false} PushMeans(spec: Specification, filters: seq<Filter>, range: seq<ChainBlock>, tx: Transaction)
    ensures IsSatisfiedBy(Push(spec, filters, range), tx) <==>
      IsSatisfiedBy(spec, tx) || SomeLetsThrough(filters, range, tx)
  {
    if filters != [] {
      var init, last := filters[..|filters| - 1], filters[|filters| - 1];
      PushMeans(spec, init, range, tx);
      if last.ByLogs? {
        PushTopicsMeans(Push(spec, init, range), last.topics, range, tx);
      } else if last.ByInfo? {
        OrElseIsOr(Push(spec, init, range), Or(last.infos), tx);
      }
      assert forall k :: 0 <= k < |init| ==> filters[k] == init[k];
    }
  }

  /** The blocks with a log that some log filter asks for. */
  function FoundBlocks(topics: seq<TopicSpecification>, range: seq<ChainBlock>): set<int> {
    if topics == [] then {}
    else FoundBlocks(topics[..|topics| - 1], range) + BlocksOf(ToFilterParams(topics[|topics| - 1]), range)
  }

  function FoundByAll(filters: seq<Filter>, range: seq<ChainBlock>): set<int> {
    if filters == [] then {}
    else
      FoundByAll(filters[..|filters| - 1], range) +
      if filters[|filters| - 1].ByLogs? then FoundBlocks(filters[|filters| - 1].topics, range) else {}
  }

  predicate OnlyLogFilters(filters: seq<Filter>) {
    forall k :: 0 <= k < |filters| ==> filters[k].ByLogs?
  }

  lemma {:induction false} FoundBlocksHas(topics: seq<TopicSpecification>, range: seq<ChainBlock>, k: nat,
                                          c: ChainTransaction)
    requires k < |topics| && c in Flat(range) && HasMatch(ToFilterParams(topics[k]), c)
    ensures c.tx.blockNumber in FoundBlocks(topics, range)
  {
    if k < |topics| - 1 { FoundBlocksHas(topics[..|topics| - 1], range, k, c); }
  }

  lemma {:induction false} FoundByAllHas(filters: seq<Filter>, range: seq<ChainBlock>, k: nat, block: int)
    requires k < |filters| && filters[k].ByLogs? && block in FoundBlocks(filters[k].topics, range)
    ensures block in FoundByAll(filters, range)
  {
    if k < |filters| - 1 { FoundByAllHas(filters[..|filters| - 1], range, k, block); }
  }

  lemma ChosenIsFound(topics: seq<TopicSpecification>, range: seq<ChainBlock>, c: ChainTransaction)
    requires c in Flat(range) && HashesDiffer(range) && LetsThrough(ByLogs(topics), range, c.tx)
    ensures c.tx.blockNumber in FoundBlocks(topics, range)
  {
    var k :| 0 <= k < |topics| && c.tx.hash in HashesOf(ToFilterParams(topics[k]), range);
    HashMeansMatch(ToFilterParams(topics[k]), range, c);
    FoundBlocksHas(topics, range, k, c);
  }

  /** Blocks that no query found have nothing to choose, so leaving them out is safe. */
  lemma SkippedBlocksAreEmpty(filters: seq<Filter>, range: seq<ChainBlock>, c: ChainTransaction)
    requires c in Flat(range) && OnlyLogFilters(filters) && HashesDiffer(range)
    requires SomeLetsThrough(filters, range, c.tx)
    ensures c.tx.blockNumber in FoundByAll(filters, range)
  {
    var k :| 0 <= k < |filters| && LetsThrough(filters[k], range, c.tx);
    ChosenIsFound(filters[k].topics, range, c);
    FoundByAllHas(filters, range, k, c.tx.blockNumber);
  }

  // --- What a run collects ---

  function InitialSpecification(isFilter: bool): Specification {
    if isFilter then AlwaysFalse else AlwaysTrue
  }

  function Pick(cs: seq<ChainTransaction>, keep: ChainTransaction -> bool): seq<Transaction> {
    if cs == [] then []
    else Pick(cs[..|cs| - 1], keep) + if keep(cs[|cs| - 1]) then [cs[|cs| - 1].tx] else []
  }

  /** What the specification keeps of the transactions, in the order in which they come. */
  function Satisfying(spec: Specification, txs: seq<Transaction>): seq<Transaction> {
    if txs == [] then []
    else
      Satisfying(spec, txs[..|txs| - 1]) +
      if IsSatisfiedBy(spec, txs[|txs| - 1]) then [txs[|txs| - 1]] else []
  }

  /** Whether the run asks for the block: all of them, or those that the queries found. */
  predicate IsWanted(isFilter: bool, filters: seq<Filter>, range: seq<ChainBlock>, block: int) {
    (isFilter && OnlyLogFilters(filters)) ==> block in FoundByAll(filters, range)
  }

  function WantedBy(isFilter: bool, filters: seq<Filter>, range: seq<ChainBlock>): ChainTransaction -> bool {
    (c: ChainTransaction) => IsWanted(isFilter, filters, range, c.tx.blockNumber)
  }

  function AlsoSatisfying(keep: ChainTransaction -> bool, spec: Specification): ChainTransaction -> bool {
    (c: ChainTransaction) => keep(c) && IsSatisfiedBy(spec, c.tx)
  }

  function AcceptedBy(filters: seq<Filter>): ChainTransaction -> bool {
    (c: ChainTransaction) => IsAccepted(filters, c)
  }

  /** The transactions of the blocks that the run asks for. */
  function Requested(isFilter: bool, filters: seq<Filter>, range: seq<ChainBlock>): seq<Transaction> {
    Pick(Flat(range), WantedBy(isFilter, filters, range))
  }

  function Collected(isFilter: bool, filters: seq<Filter>, range: seq<ChainBlock>): seq<Transaction> {
    Satisfying(Push(InitialSpecification(isFilter), filters, range), Requested(isFilter, filters, range))
  }

  /** Some job's filter accepts the transaction once its receipt is there. */
  predicate IsAccepted(filters: seq<Filter>, c: ChainTransaction) {
    exists k :: 0 <= k < |filters| && Accepts(filters[k], Filled(c))
  }

  lemma {:induction false} SatisfyingPick(spec: Specification, cs: seq<ChainTransaction>,
                                          keep: ChainTransaction -> bool)
    ensures Satisfying(spec, Pick(cs, keep)) == Pick(cs, AlsoSatisfying(keep, spec))
  {
    if cs != [] {
      SatisfyingPick(spec, cs[..|cs| - 1], keep);
      var p := Pick(cs, keep);
      if keep(cs[|cs| - 1]) {
        assert p[..|p| - 1] == Pick(cs[..|cs| - 1], keep) && p[|p| - 1] == cs[|cs| - 1].tx;
      } else {
        assert p == Pick(cs[..|cs| - 1], keep);
      }
    }
  }

  lemma {:induction false} PickAgrees(cs: seq<ChainTransaction>, f: ChainTransaction -> bool,
                                      g: ChainTransaction -> bool)
    requires forall c :: c in cs ==> f(c) == g(c)
    ensures Pick(cs, f) == Pick(cs, g)
  {
    if cs != [] { PickAgrees(cs[..|cs| - 1], f, g); }
  }

  lemma {:induction false} PickHas(cs: seq<ChainTransaction>, keep: ChainTransaction -> bool, c: ChainTransaction)
    requires c in cs && keep(c)
    ensures c.tx in Pick(cs, keep)
  {
    if c != cs[|cs| - 1] { PickHas(cs[..|cs| - 1], keep, c); }
  }

  ghost predicate IsChainRange(range: seq<ChainBlock>) {
    HashesDiffer(range) && NormalRange(range)
  }

  lemma LettingThroughIsAccepting(filters: seq<Filter>, range: seq<ChainBlock>, c: ChainTransaction)
    requires c in Flat(range) && HashesDiffer(range) && NormalRange(range)
    requires forall k :: 0 <= k < |filters| ==> filters[k].ByLogs? && NormalFilter(filters[k])
    ensures SomeLetsThrough(filters, range, c.tx) <==> IsAccepted(filters, c)
  {
    forall k | 0 <= k < |filters|
      ensures LetsThrough(filters[k], range, c.tx) <==> Accepts(filters[k], Filled(c))
    {
      LogFilterIsExact(filters[k], range, c);
    }
  }

  /** With log filters only, a transaction of the range is chosen if and only if some
      filter accepts it. */
  lemma LogFiltersChoose(filters: seq<Filter>, range: seq<ChainBlock>, c: ChainTransaction)
    requires IsChainRange(range) && OnlyLogFilters(filters) && c in Flat(range)
    requires forall k :: 0 <= k < |filters| ==> NormalFilter(filters[k])
    ensures (IsWanted(true, filters, range, c.tx.blockNumber) &&
             IsSatisfiedBy(Push(AlwaysFalse, filters, range), c.tx)) <==> IsAccepted(filters, c)
  {
    PushMeans(AlwaysFalse, filters, range, c.tx);
    LettingThroughIsAccepting(filters, range, c);
    if SomeLetsThrough(filters, range, c.tx) { SkippedBlocksAreEmpty(filters, range, c); }
  }

  /** Pushing log filters down loses nothing and adds nothing: the run collects, in
      chain order, exactly the transactions whose receipt logs satisfy some filter. */
  lemma PushdownIsExact(filters: seq<Filter>, range: seq<ChainBlock>)
    requires IsChainRange(range) && OnlyLogFilters(filters)
    requires forall k :: 0 <= k < |filters| ==> NormalFilter(filters[k])
    ensures Collected(true, filters, range) == Pick(Flat(range), AcceptedBy(filters))
  {
    var spec := Push(AlwaysFalse, filters, range);
    var wanted := WantedBy(true, filters, range);
    SatisfyingPick(spec, Flat(range), wanted);
    forall c | c in Flat(range) ensures (wanted(c) && IsSatisfiedBy(spec, c.tx)) == IsAccepted(filters, c) {
      LogFiltersChoose(filters, range, c);
    }
    PickAgrees(Flat(range), AlsoSatisfying(wanted, spec), AcceptedBy(filters));
  }

  /** Just the transactions. */
  function TransactionsOf(cs: seq<ChainTransaction>): seq<Transaction> {
    if cs == [] then [] else TransactionsOf(cs[..|cs| - 1]) + [cs[|cs| - 1].tx]
  }

  lemma {:induction false} PickAll(cs: seq<ChainTransaction>, keep: ChainTransaction -> bool)
    requires forall c :: c in cs ==> keep(c)
    ensures Pick(cs, keep) == TransactionsOf(cs)
  {
    if cs != [] { PickAll(cs[..|cs| - 1], keep); }
  }

  /** A run that does not filter collects every transaction of the range in chain order,
      whatever filters jobs have handed in. */
  lemma UnfilteredRunsCollectAll(filters: seq<Filter>, range: seq<ChainBlock>)
    ensures Collected(false, filters, range) == TransactionsOf(Flat(range))
  {
    var spec, wanted := Push(AlwaysTrue, filters, range), WantedBy(false, filters, range);
    SatisfyingPick(spec, Flat(range), wanted);
    forall c | c in Flat(range) ensures wanted(c) && IsSatisfiedBy(spec, c.tx) {
      PushMeans(AlwaysTrue, filters, range, c.tx);
    }
    PickAll(Flat(range), AlsoSatisfying(wanted, spec));
  }

  function LetThroughBy(filters: seq<Filter>, range: seq<ChainBlock>): ChainTransaction -> bool {
    (c: ChainTransaction) => SomeLetsThrough(filters, range, c.tx)
  }

  /** A run that filters collects, in chain order, exactly the transactions of the range
      that some filter lets through; asking for fewer blocks makes no difference. */
  lemma FilteredRunsCollectWhatPasses(filters: seq<Filter>, range: seq<ChainBlock>)
    requires HashesDiffer(range)
    ensures Collected(true, filters, range) == Pick(Flat(range), LetThroughBy(filters, range))
  {
    var spec, wanted := Push(AlwaysFalse, filters, range), WantedBy(true, filters, range);
    SatisfyingPick(spec, Flat(range), wanted);
    forall c | c in Flat(range)
      ensures (wanted(c) && IsSatisfiedBy(spec, c.tx)) == SomeLetsThrough(filters, range, c.tx)
    {
      PushMeans(AlwaysFalse, filters, range, c.tx);
      if OnlyLogFilters(filters) && SomeLetsThrough(filters, range, c.tx) { SkippedBlocksAreEmpty(filters, range, c); }
    }
    PickAgrees(Flat(range), AlsoSatisfying(wanted, spec), LetThroughBy(filters, range));
  }

  /** A run that does not filter asks for every block; one that does asks for a block
      exactly if some filter is not about logs, or the block has a log of a query. */
  lemma BlocksAreAskedForIff(filters: seq<Filter>, range: seq<ChainBlock>, block: int)
    ensures IsWanted(false, filters, range, block)
    ensures IsWanted(true, filters, range, block) <==>
      ((exists k :: 0 <= k < |filters| && !filters[k].ByLogs?) || HasMatchInBlock(filters, range, block))
  {
    if OnlyLogFilters(filters) { FoundMeansMatch(filters, range, block); }
  }

  /** Some transaction of the block has a log that some log filter asks for. */
  ghost predicate HasMatchInBlock(filters: seq<Filter>, range: seq<ChainBlock>, block: int) {
    exists k, d :: 0 <= k < |filters| && d in Flat(range) && d.tx.blockNumber == block && AsksFor(filters[k], d)
  }

  predicate AsksFor(f: Filter, d: ChainTransaction) {
    f.ByLogs? && exists i :: 0 <= i < |f.topics| && HasMatch(ToFilterParams(f.topics[i]), d)
  }

  lemma {:induction false} FoundBlocksMeansMatch(topics: seq<TopicSpecification>, range: seq<ChainBlock>, block: int)
    ensures block in FoundBlocks(topics, range) <==>
      exists d :: d in Flat(range) && d.tx.blockNumber == block && AsksFor(ByLogs(topics), d)
  {
    if topics != [] {
      var init := topics[..|topics| - 1];
      FoundBlocksMeansMatch(init, range, block);
      forall d ensures AsksFor(ByLogs(topics), d) <==>
        AsksFor(ByLogs(init), d) || HasMatch(ToFilterParams(topics[|topics| - 1]), d)
      {
        AsksForMore(topics, d);
      }
    }
  }

  lemma AsksForMore(topics: seq<TopicSpecification>, d: ChainTransaction)
    requires topics != []
    ensures AsksFor(ByLogs(topics), d) <==>
      AsksFor(ByLogs(topics[..|topics| - 1]), d) || HasMatch(ToFilterParams(topics[|topics| - 1]), d)
  {
    var init := topics[..|topics| - 1];
    if i :| 0 <= i < |init| && HasMatch(ToFilterParams(init[i]), d) {
      assert HasMatch(ToFilterParams(topics[i]), d);
    }
    if i :| 0 <= i < |topics| && HasMatch(ToFilterParams(topics[i]), d) {
      if i < |init| { assert HasMatch(ToFilterParams(init[i]), d); }
    }
  }

  lemma {:induction false} FoundMeansMatch(filters: seq<Filter>, range: seq<ChainBlock>, block: int)
    ensures block in FoundByAll(filters, range) <==> HasMatchInBlock(filters, range, block)
  {
    if filters != [] {
      var init, last := filters[..|filters| - 1], filters[|filters| - 1];
      FoundMeansMatch(init, range, block);
      assert forall k :: 0 <= k < |init| ==> init[k] == filters[k];
      if last.ByLogs? { FoundBlocksMeansMatch(last.topics, range, block); }
      if HasMatchInBlock(init, range, block) {
        var k, d :| 0 <= k < |init| && d in Flat(range) && d.tx.blockNumber == block && AsksFor(init[k], d);
        assert AsksFor(filters[k], d);
      }
      if last.ByLogs? && block in FoundBlocks(last.topics, range) {
        var d :| d in Flat(range) && d.tx.blockNumber == block && AsksFor(ByLogs(last.topics), d);
        assert AsksFor(filters[|filters| - 1], d);
      }
    }
  }

  lemma SomeAcceptedIsLetThrough(filters: seq<Filter>, range: seq<ChainBlock>, c: ChainTransaction)
    requires c in Flat(range) && HashesDiffer(range) && NormalRange(range)
    requires forall k :: 0 <= k < |filters| ==> NormalFilter(filters[k]) && IsPushable(filters[k])
    requires IsAccepted(filters, c)
    ensures SomeLetsThrough(filters, range, c.tx)
  {
    var k :| 0 <= k < |filters| && Accepts(filters[k], Filled(c));
    AcceptedIsLetThrough(filters[k], range, c);
  }

  lemma AcceptedIsChosen(isFilter: bool, filters: seq<Filter>, range: seq<ChainBlock>, c: ChainTransaction)
    requires IsChainRange(range) && c in Flat(range)
    requires isFilter ==> forall k :: 0 <= k < |filters| ==> NormalFilter(filters[k]) && IsPushable(filters[k])
    requires IsAccepted(filters, c)
    ensures IsSatisfiedBy(Push(InitialSpecification(isFilter), filters, range), c.tx)
    ensures IsWanted(isFilter, filters, range, c.tx.blockNumber)
  {
    if isFilter { SomeAcceptedIsLetThrough(filters, range, c); }
    PushMeans(InitialSpecification(isFilter), filters, range, c.tx);
    if isFilter && OnlyLogFilters(filters) { SkippedBlocksAreEmpty(filters, range, c); }
  }

  /** Whatever the mix of filters, and whether or not the run filters at all, no job
      loses a transaction that its own filter accepts. */
  lemma NoFilterLoses(isFilter: bool, filters: seq<Filter>, range: seq<ChainBlock>, c: ChainTransaction)
    requires IsChainRange(range) && c in Flat(range)
    requires isFilter ==> forall k :: 0 <= k < |filters| ==> NormalFilter(filters[k]) && IsPushable(filters[k])
    requires IsAccepted(filters, c)
    ensures c.tx in Collected(isFilter, filters, range)
  {
    var spec := Push(InitialSpecification(isFilter), filters, range);
    var wanted := WantedBy(isFilter, filters, range);
    AcceptedIsChosen(isFilter, filters, range, c);
    SatisfyingPick(spec, Flat(range), wanted);
    PickHas(Flat(range), AlsoSatisfying(wanted, spec), c);
  }

  // --- Arrival order ---

  lemma {:induction false} SatisfyingCounts(spec: Specification, txs: seq<Transaction>, tx: Transaction)
    ensures multiset(Satisfying(spec, txs))[tx] == if IsSatisfiedBy(spec, tx) then multiset(txs)[tx] else 0
  {
    if txs != [] {
      var init, last := txs[..|txs| - 1], txs[|txs| - 1];
      SatisfyingCounts(spec, init, tx);
      assert multiset(txs) == multiset(init) + multiset{last} by { assert txs == init + [last]; }
      assert multiset(Satisfying(spec, txs)) ==
        multiset(Satisfying(spec, init)) + if IsSatisfiedBy(spec, last) then multiset{last} else multiset{};
    }
  }

  /** `(block_number, transaction_index)`. */
  function PositionOf(tx: Transaction): seq<int> { [tx.blockNumber, tx.transactionIndex] }

  ghost predicate InChainOrder(txs: seq<Transaction>) {
    forall i, j :: 0 <= i < j < |txs| ==> LexLess(PositionOf(txs[i]), PositionOf(txs[j]))
  }

  predicate IsBefore(a: Transaction, b: Transaction) {
    a.blockNumber < b.blockNumber || (a.blockNumber == b.blockNumber && a.transactionIndex < b.transactionIndex)
  }

  lemma PositionsAreOrdered(a: Transaction, b: Transaction)
    ensures LexLess(PositionOf(a), PositionOf(b)) <==> IsBefore(a, b)
  {
    var i, j := PositionOf(a)[1..], PositionOf(b)[1..];
    assert i == [a.transactionIndex] && j == [b.transactionIndex] && i[1..] == [] && j[1..] == [];
    assert LexLess(i, j) <==> a.transactionIndex < b.transactionIndex;
  }

  lemma {:induction false} FlatIsOrdered(start: int, range: seq<ChainBlock>)
    requires IsRange(start, range)
    ensures forall i, j :: 0 <= i < j < |Flat(range)| ==> IsBefore(Flat(range)[i].tx, Flat(range)[j].tx)
    ensures forall c :: c in Flat(range) ==> c.tx.blockNumber < start + |range|
  {
    if range != [] {
      var init := range[..|range| - 1];
      assert IsRange(start, init) by {
        assert forall n :: 0 <= n < |init| ==> init[n] == range[n];
      }
      FlatIsOrdered(start, init);
    }
  }

  lemma {:induction false} PickComesFrom(cs: seq<ChainTransaction>, keep: ChainTransaction -> bool, tx: Transaction)
    requires tx in Pick(cs, keep)
    ensures exists c :: c in cs && c.tx == tx
  {
    if keep(cs[|cs| - 1]) && tx == cs[|cs| - 1].tx {
      assert cs[|cs| - 1] in cs;
    } else {
      PickComesFrom(cs[..|cs| - 1], keep, tx);
    }
  }

  lemma {:induction false} PickIsOrdered(cs: seq<ChainTransaction>, keep: ChainTransaction -> bool)
    requires forall i, j :: 0 <= i < j < |cs| ==> IsBefore(cs[i].tx, cs[j].tx)
    ensures InChainOrder(Pick(cs, keep))
  {
    if cs != [] {
      var init, last := cs[..|cs| - 1], cs[|cs| - 1];
      PickIsOrdered(init, keep);
      var p := Pick(init, keep);
      forall i | 0 <= i < |p| ensures LexLess(PositionOf(p[i]), PositionOf(last.tx)) {
        PickComesFrom(init, keep, p[i]);
        PositionsAreOrdered(p[i], last.tx);
      }
    }
  }

  /** The workers may deliver the transactions in any order: the sorted buffer is the same. */
  lemma ArrivalOrderIsInvisible(isFilter: bool, filters: seq<Filter>, start: int, range: seq<ChainBlock>,
                                arrivals: seq<Transaction>)
    requires IsRange(start, range) && multiset(arrivals) == multiset(Requested(isFilter, filters, range))
    ensures SortBy(Satisfying(Push(InitialSpecification(isFilter), filters, range), arrivals), PositionOf)
      == Collected(isFilter, filters, range)
  {
    var spec := Push(InitialSpecification(isFilter), filters, range);
    var wanted := WantedBy(isFilter, filters, range);
    var got, all := Satisfying(spec, arrivals), Collected(isFilter, filters, range);
    forall tx ensures multiset(got)[tx] == multiset(all)[tx] {
      SatisfyingCounts(spec, arrivals, tx);
      SatisfyingCounts(spec, Requested(isFilter, filters, range), tx);
    }
    SortPermutes(got, PositionOf);
    SortSorts(got, PositionOf);
    SatisfyingPick(spec, Flat(range), wanted);
    FlatIsOrdered(start, range);
    PickIsOrdered(Flat(range), AlsoSatisfying(wanted, spec));
    SortedListIsUnique(SortBy(got, PositionOf), all, PositionOf);
  }

  // --- The job ---

  class ExportBlocksJob {
    const filters: seq<Filter>
    const isFilter: bool
    var specification: Specification
    var transactions: seq<Transaction>

    /** Between two runs the predicate is the initial one. */
    ghost predicate Valid()
      reads this
    {
      specification == InitialSpecification(isFilter)
    }

    constructor (filters: seq<Filter>, isFilter: bool)
      ensures Valid() && this.filters == filters && this.isFilter == isFilter && transactions == []
    {
      this.filters, this.isFilter := filters, isFilter;
      specification := InitialSpecification(isFilter);
      transactions := [];
    }

    /** One log filter: a query and a disjunct for each of its specifications. */
    method PushLogFilter(topics: seq<TopicSpecification>, range: seq<ChainBlock>) returns (found: set<int>)
      modifies this`specification
      ensures specification == PushTopics(old(specification), topics, range)
      ensures found == FoundBlocks(topics, range)
    {
      found := {};
      for t := 0 to |topics|
        invariant specification == PushTopics(old(specification), topics[..t], range)
        invariant found == FoundBlocks(topics[..t], range)
      {
        var q := ToFilterParams(topics[t]);
        found := found + BlocksOf(q, range);
        specification := OrElse(specification, TransactionHash(HashesOf(q, range)));
        assert topics[..t + 1][..t] == topics[..t];
      }
      assert topics[..|topics|] == topics;
    }

    /** All filters; `broken` are those whose queries the node refuses. */
    method PushFilters(range: seq<ChainBlock>, broken: set<nat>)
      returns (ok: bool, found: set<int>, onlyLogs: bool)
      modifies this`specification
      ensures ok <==> forall k :: 0 <= k < |filters| ==>
        !filters[k].Unsupported? && (filters[k].ByLogs? ==> k !in broken)
      ensures ok ==> specification == Push(old(specification), filters, range)
      ensures ok ==> found == FoundByAll(filters, range) && onlyLogs == OnlyLogFilters(filters)
    {
      found, onlyLogs := {}, true;
      for k := 0 to |filters|
        invariant specification == Push(old(specification), filters[..k], range)
        invariant found == FoundByAll(filters[..k], range)
        invariant onlyLogs <==> forall m :: 0 <= m < k ==> filters[m].ByLogs?
        invariant forall m :: 0 <= m < k ==> !filters[m].Unsupported? && (filters[m].ByLogs? ==> m !in broken)
      {
        assert filters[..k + 1][..k] == filters[..k];
        match filters[k] {
          case ByLogs(topics) =>
            if k in broken { return false, found, onlyLogs; }
            var blocks := PushLogFilter(topics, range);
            found := found + blocks;
          case ByInfo(infos) =>
            onlyLogs := false;
            specification := OrElse(specification, Or(infos));
          case Unsupported => return false, found, onlyLogs;
        }
      }
      assert filters[..|filters|] == filters;
      ok := true;
    }

    /** The workers' side, with the transactions in the order in which they get to the buffer. */
    method CollectBatches(arrivals: seq<Transaction>)
      modifies this`transactions
      ensures transactions == old(transactions) + Satisfying(specification, arrivals)
    {
      for i := 0 to |arrivals|
        invariant transactions == old(transactions) + Satisfying(specification, arrivals[..i])
      {
        assert arrivals[..i + 1][..i] == arrivals[..i];
        if IsSatisfiedBy(specification, arrivals[i]) { transactions := transactions + [arrivals[i]]; }
      }
      assert arrivals[..|arrivals|] == arrivals;
    }

    method Process()
      modifies this`transactions
      ensures transactions == SortBy(old(transactions), PositionOf)
    {
      transactions := SortBy(transactions, PositionOf);
    }

    /** One run, with `_end` in a `finally`. The arrivals are the transactions of the
        requested blocks in any order; a failing request, worker or exporter ends the run
        with an exception, here `None`. Otherwise the result is what the shared buffer then
        holds for the jobs that follow. */
    method Run(start: int, range: seq<ChainBlock>, broken: set<nat>, arrivals: seq<Transaction>,
               workersOk: bool, exportOk: bool) returns (buffered: Option<seq<Transaction>>)
      requires Valid() && IsRange(start, range)
      requires workersOk ==> multiset(arrivals) == multiset(Requested(isFilter, filters, range))
      modifies this
      ensures Valid()
      ensures buffered.Some? <==> workersOk && exportOk && forall k :: 0 <= k < |filters| ==>
        !filters[k].Unsupported? && (filters[k].ByLogs? ==> k !in broken)
      ensures buffered.Some? ==> buffered.value == transactions && SortedBy(transactions, PositionOf)
      ensures buffered.Some? ==>
        multiset(transactions) == multiset(old(transactions)) + multiset(Collected(isFilter, filters, range))
      ensures buffered.Some? && old(transactions) == [] ==> transactions == Collected(isFilter, filters, range)
    {
      buffered := None;
      var ok, found, onlyLogs := PushFilters(range, broken);
      if ok {
        CollectBatches(arrivals);
        if workersOk {
          ghost var chosen := Satisfying(specification, arrivals);
          ArrivalOrderIsInvisible(isFilter, filters, start, range, arrivals);
          SortPermutes(chosen, PositionOf);
          SortPermutes(transactions, PositionOf);
          SortSorts(transactions, PositionOf);
          assert old(transactions) == [] ==> transactions == chosen;
          Process();
          if exportOk { buffered := Some(transactions); }
        }
      }
      specification := InitialSpecification(isFilter);
    }
  }

  class StreamDispatcher {
    const job: ExportBlocksJob

    constructor (job: ExportBlocksJob)
      ensures this.job == job
    {
      this.job := job;
    }

    /** Clears the buffer whether or not the run raises. When it raises while batches are
        still being submitted, workers may go on and append after that: `late` is what
        they append. What a run buffers depends on its range alone exactly if nothing was
        left in the buffer before it. */
    method Run(start: int, range: seq<ChainBlock>, broken: set<nat>, arrivals: seq<Transaction>,
               workersOk: bool, exportOk: bool, late: seq<Transaction>) returns (buffered: Option<seq<Transaction>>)
      requires job.Valid() && IsRange(start, range)
      requires workersOk ==> multiset(arrivals) == multiset(Requested(job.isFilter, job.filters, range))
      modifies job
      ensures job.Valid() && job.transactions == if buffered.Some? || workersOk then [] else late
      ensures buffered.Some? ==>
        multiset(buffered.value) ==
        multiset(old(job.transactions)) + multiset(Collected(job.isFilter, job.filters, range))
      ensures buffered.Some? ==>
        (buffered.value == Collected(job.isFilter, job.filters, range) <==> old(job.transactions) == [])
      ensures buffered.Some? <==> workersOk && exportOk && forall k :: 0 <= k < |job.filters| ==>
        !job.filters[k].Unsupported? && (job.filters[k].ByLogs? ==> k !in broken)
    {
      buffered := job.Run(start, range, broken, arrivals, workersOk, exportOk);
      assert buffered.Some? ==>
        |multiset(buffered.value)| ==
        |multiset(old(job.transactions))| + |multiset(Collected(job.isFilter, job.filters, range))|;
      job.transactions := [];
      if buffered == None && !workersOk { job.transactions := late; }
    }
  }
}
