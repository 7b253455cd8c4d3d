/** The latest price of each Uniswap V3 pool: swap logs grouped by block, split into
    batches, and merged by worker threads under one lock. */
module PoolPrices {
  import opened Grouping

  type Address = int

  datatype Log = Log(address: Address, topic0: int, blockNumber: int, logIndex: nat, price: int)

  datatype Price = Price(blockNumber: int, logIndex: nat, price: int)

  /** A price that belongs to a pool. */
  datatype Swap = Swap(address: Address, price: Price)

  function PriceOf(x: Log): Price { Price(x.blockNumber, x.logIndex, x.price) }

  predicate IsNewer(p: Price, q: Price) {
    p.blockNumber > q.blockNumber || (p.blockNumber == q.blockNumber && p.logIndex > q.logIndex)
  }

  // --- One log per pool, topic and block ---

  datatype Key = Key(address: Address, topic0: int, blockNumber: int)

  function KeyOf(x: Log): Key { Key(x.address, x.topic0, x.blockNumber) }

  /** `max(group, key=log_index)`: the first of the greatest. */
  function MaxOf(group: seq<Log>): Log
    requires group != []
  {
    var last := group[|group| - 1];
    if |group| == 1 then last
    else
      var best := MaxOf(group[..|group| - 1]);
      if last.logIndex > best.logIndex then last else best
  }

  function RecordOf(logs: seq<Log>, k: Key): Log
    requires GroupOf(logs, KeyOf, k) != []
  {
    MaxOf(GroupOf(logs, KeyOf, k))
  }

  lemma {:induction false} MaxIsGreatest(group: seq<Log>, x: Log)
    requires group != []
    ensures MaxOf(group) in group && (x in group ==> x.logIndex <= MaxOf(group).logIndex)
    ensures x == group[0] && x.logIndex == MaxOf(group).logIndex ==> MaxOf(group) == x
  {
    if |group| > 1 { MaxIsGreatest(group[..|group| - 1], x); }
  }

  ghost predicate BlocksAscend(logs: seq<Log>) {
    forall i, j :: 0 <= i < j < |logs| ==> logs[i].blockNumber <= logs[j].blockNumber
  }

  lemma {:induction false} KeysAscend(logs: seq<Log>)
    requires BlocksAscend(logs)
    ensures forall i, j :: 0 <= i < j < |KeysOf(logs, KeyOf)| ==>
      KeysOf(logs, KeyOf)[i].blockNumber <= KeysOf(logs, KeyOf)[j].blockNumber
    ensures forall i :: 0 <= i < |KeysOf(logs, KeyOf)| ==>
      KeysOf(logs, KeyOf)[i].blockNumber <= logs[|logs| - 1].blockNumber
  {
    if logs != [] { KeysAscend(logs[..|logs| - 1]); }
  }

  /** The logs that go to the workers. */
  ghost predicate AreRecords(logs: seq<Log>, records: seq<Log>) {
    && |records| == |KeysOf(logs, KeyOf)|
    && forall i :: 0 <= i < |records| ==>
         GroupOf(logs, KeyOf, KeysOf(logs, KeyOf)[i]) != [] && records[i] == RecordOf(logs, KeysOf(logs, KeyOf)[i])
  }

  method GroupLogs(logs: seq<Log>) returns (records: seq<Log>)
    ensures AreRecords(logs, records)
  {
    var keys, groups := GroupByKey(logs, KeyOf);
    records := [];
    for i := 0 to |keys|
      invariant |records| == i
      invariant forall j :: 0 <= j < i ==> GroupOf(logs, KeyOf, keys[j]) != [] && records[j] == RecordOf(logs, keys[j])
    {
      assert keys[i] in keys;
      KeysHaveGroups(logs, KeyOf, keys[i]);
      records := records + [MaxOf(groups[keys[i]])];
    }
  }

  /** Later records of a pool and topic have later blocks. */
  ghost predicate InOrder(records: seq<Log>) {
    forall i, j :: 0 <= i < j < |records| ==>
      records[i].address == records[j].address && records[i].topic0 == records[j].topic0 ==>
        records[i].blockNumber < records[j].blockNumber
  }

  lemma RecordHasKey(logs: seq<Log>, records: seq<Log>, i: nat)
    requires AreRecords(logs, records) && i < |records|
    ensures records[i] in logs && KeyOf(records[i]) == KeysOf(logs, KeyOf)[i]
  {
    MaxIsGreatest(GroupOf(logs, KeyOf, KeysOf(logs, KeyOf)[i]), records[i]);
    GroupHas(logs, KeyOf, KeysOf(logs, KeyOf)[i], records[i]);
  }

  lemma RecordsAreInOrder(logs: seq<Log>, records: seq<Log>)
    requires AreRecords(logs, records) && BlocksAscend(logs)
    ensures InOrder(records)
  {
    KeysAreDistinct(logs, KeyOf);
    KeysAscend(logs);
    forall i, j | 0 <= i < j < |records| &&
      records[i].address == records[j].address && records[i].topic0 == records[j].topic0
      ensures records[i].blockNumber < records[j].blockNumber
    {
      RecordHasKey(logs, records, i);
      RecordHasKey(logs, records, j);
    }
  }

  /** Each log is covered by a record of its pool, topic and block that is not before it. */
  lemma RecordsCover(logs: seq<Log>, records: seq<Log>, x: Log)
    requires AreRecords(logs, records) && x in logs
    ensures exists r :: r in records && KeyOf(r) == KeyOf(x) && x.logIndex <= r.logIndex
  {
    var k := KeyOf(x);
    GroupHas(logs, KeyOf, k, x);
    KeysHaveGroups(logs, KeyOf, k);
    var i :| 0 <= i < |KeysOf(logs, KeyOf)| && KeysOf(logs, KeyOf)[i] == k;
    MaxIsGreatest(GroupOf(logs, KeyOf, k), x);
    RecordHasKey(logs, records, i);
    assert records[i] in records;
  }

  // --- Prices ---

  predicate Counts(x: Log, known: set<Address>, swapTopic: int) {
    x.address in known && x.topic0 == swapTopic
  }

  /** The prices that swap logs of known pools give. */
  function Swaps(logs: seq<Log>, known: set<Address>, swapTopic: int): set<Swap> {
    set x | x in logs && Counts(x, known, swapTopic) :: Swap(x.address, PriceOf(x))
  }

  /** Every pool with a price seen has the newest one, and only those pools have one. */
  ghost predicate AreNewest(prices: map<Address, Price>, seen: set<Swap>) {
    && (forall a :: a in prices ==> Swap(a, prices[a]) in seen)
    && (forall s :: s in seen ==> s.address in prices && !IsNewer(s.price, prices[s.address]))
  }

  /** What one worker makes of its batch: later logs overwrite. */
  function LastPrices(batch: seq<Log>, known: set<Address>, swapTopic: int): map<Address, Price> {
    if batch == [] then map[]
    else
      var before, last := LastPrices(batch[..|batch| - 1], known, swapTopic), batch[|batch| - 1];
      if Counts(last, known, swapTopic) then before[last.address := PriceOf(last)] else before
  }

  /** Overwriting is right because the records are in order. */
  lemma {:induction false} LastIsNewest(batch: seq<Log>, known: set<Address>, swapTopic: int)
    requires InOrder(batch)
    ensures AreNewest(LastPrices(batch, known, swapTopic), Swaps(batch, known, swapTopic))
  {
    if batch != [] {
      var init, last := batch[..|batch| - 1], batch[|batch| - 1];
      LastIsNewest(init, known, swapTopic);
      assert batch == init + [last];
      var now := LastPrices(batch, known, swapTopic);
      forall s | s in Swaps(batch, known, swapTopic) ensures s.address in now && !IsNewer(s.price, now[s.address]) {
        var x :| x in batch && Counts(x, known, swapTopic) && s == Swap(x.address, PriceOf(x));
        if x in init { assert s in Swaps(init, known, swapTopic); }
      }
      forall a | a in now ensures Swap(a, now[a]) in Swaps(batch, known, swapTopic) {
        if !(Counts(last, known, swapTopic) && a == last.address) {
          assert Swap(a, now[a]) in Swaps(init, known, swapTopic);
        }
      }
    }
  }

  predicate Replaces(current: map<Address, Price>, a: Address, p: Price) {
    a in current ==> IsNewer(p, current[a])
  }

  function Merge(current: map<Address, Price>, news: map<Address, Price>): map<Address, Price> {
    map a | a in current.Keys + news.Keys ::
      if a in news && Replaces(current, a, news[a]) then news[a] else current[a]
  }

  /** What is stored after the addresses `items` of the new prices. */
  function MergeItems(current: map<Address, Price>, news: map<Address, Price>, items: seq<Address>): map<Address, Price>
    requires forall a :: a in items ==> a in news
  {
    if items == [] then current
    else
      var before, a := MergeItems(current, news, items[..|items| - 1]), items[|items| - 1];
      if Replaces(before, a, news[a]) then before[a := news[a]] else before
  }

  lemma {:induction false} MergeItemsAt(current: map<Address, Price>, news: map<Address, Price>, items: seq<Address>,
                                       a: Address)
    requires forall x :: x in items ==> x in news
    ensures var after := MergeItems(current, news, items);
      if a in items then a in after && after[a] == if Replaces(current, a, news[a]) then news[a] else current[a]
      else (a in after <==> a in current) && (a in current ==> after[a] == current[a])
  {
    if items != [] { MergeItemsAt(current, news, items[..|items| - 1], a); }
  }

  /** The order of a dictionary does not matter. */
  lemma MergeItemsIsMerge(current: map<Address, Price>, news: map<Address, Price>, items: seq<Address>)
    requires forall a :: a in items <==> a in news
    ensures MergeItems(current, news, items) == Merge(current, news)
  {
    forall a ensures
      (a in MergeItems(current, news, items) <==> a in Merge(current, news)) &&
      (a in Merge(current, news) ==> MergeItems(current, news, items)[a] == Merge(current, news)[a])
    {
      MergeItemsAt(current, news, items, a);
    }
  }

  lemma MergeKeepsNewest(current: map<Address, Price>, seen: set<Swap>, news: map<Address, Price>, more: set<Swap>)
    requires AreNewest(current, seen) && AreNewest(news, more)
    ensures AreNewest(Merge(current, news), seen + more)
  {
  }

  // --- Workers ---

  function Concat(batches: seq<seq<Log>>): seq<Log> {
    if batches == [] then [] else Concat(batches[..|batches| - 1]) + batches[|batches| - 1]
  }

  lemma {:induction false} BatchIsInOrder(batches: seq<seq<Log>>, b: seq<Log>)
    requires InOrder(Concat(batches)) && b in batches
    ensures InOrder(b)
  {
    var init, last := Concat(batches[..|batches| - 1]), batches[|batches| - 1];
    if b == last {
      forall i | 0 <= i < |b| ensures b[i] == Concat(batches)[|init| + i] {}
    } else {
      assert forall i :: 0 <= i < |init| ==> init[i] == Concat(batches)[i];
      BatchIsInOrder(batches[..|batches| - 1], b);
    }
  }

  lemma {:induction false} ConcatHas(batches: seq<seq<Log>>, x: Log)
    ensures x in Concat(batches) <==> exists b :: b in batches && x in b
  {
    if batches != [] {
      var init, last := batches[..|batches| - 1], batches[|batches| - 1];
      ConcatHas(init, x);
      assert batches == init + [last];
    }
  }

  /** The prices that the given batches contribute. */
  function SwapsOfAll(batches: seq<seq<Log>>, known: set<Address>, swapTopic: int): set<Swap> {
    Swaps(Concat(batches), known, swapTopic)
  }

  /** What may reach the lock: a batch, or one record of it. */
  predicate IsDelivery(batches: seq<seq<Log>>, b: seq<Log>) {
    b in batches || (|b| == 1 && b[0] in Concat(batches))
  }

  predicate AllArrive(batches: seq<seq<Log>>, arrivals: seq<seq<Log>>) {
    forall x :: x in Concat(batches) ==> x in Concat(arrivals)
  }

  lemma DeliveryIsInOrder(batches: seq<seq<Log>>, b: seq<Log>)
    requires InOrder(Concat(batches)) && IsDelivery(batches, b)
    ensures InOrder(b)
  {
    if b in batches { BatchIsInOrder(batches, b); }
  }

  lemma SameRecordsSameSwaps(batches: seq<seq<Log>>, arrivals: seq<seq<Log>>, known: set<Address>, swapTopic: int)
    requires AllArrive(batches, arrivals) && forall b :: b in arrivals ==> IsDelivery(batches, b)
    ensures SwapsOfAll(arrivals, known, swapTopic) == SwapsOfAll(batches, known, swapTopic)
  {
    forall x | x in Concat(arrivals) ensures x in Concat(batches) {
      ConcatHas(arrivals, x);
      var b :| b in arrivals && x in b;
      ConcatHas(batches, x);
    }
  }

  lemma SwapsOfConcat(a: seq<Log>, b: seq<Log>, known: set<Address>, swapTopic: int)
    ensures Swaps(a + b, known, swapTopic) == Swaps(a, known, swapTopic) + Swaps(b, known, swapTopic)
  {
  }

  /** The newest price of the records is the newest price of all logs. */
  lemma RecordsSpeakForLogs(prices: map<Address, Price>, seen: set<Swap>, logs: seq<Log>, records: seq<Log>,
                            known: set<Address>, swapTopic: int)
    requires AreRecords(logs, records)
    requires AreNewest(prices, seen + Swaps(records, known, swapTopic))
    ensures AreNewest(prices, seen + Swaps(logs, known, swapTopic))
  {
    forall s | s in Swaps(logs, known, swapTopic) ensures s.address in prices && !IsNewer(s.price, prices[s.address]) {
      var x :| x in logs && Counts(x, known, swapTopic) && s == Swap(x.address, PriceOf(x));
      RecordsCover(logs, records, x);
      var r :| r in records && KeyOf(r) == KeyOf(x) && x.logIndex <= r.logIndex;
      assert Swap(r.address, PriceOf(r)) in Swaps(records, known, swapTopic);
    }
    forall a | a in prices ensures Swap(a, prices[a]) in seen + Swaps(logs, known, swapTopic) {
      if Swap(a, prices[a]) !in seen {
        var r :| r in records && Counts(r, known, swapTopic) && Swap(a, prices[a]) == Swap(r.address, PriceOf(r));
        var i :| 0 <= i < |records| && records[i] == r;
        RecordHasKey(logs, records, i);
      }
    }
  }

  /** A block and log index stand for one price of a pool. */
  ghost predicate PositionsDiffer(seen: set<Swap>) {
    forall s, t :: s in seen && t in seen ==>
      s.address == t.address && s.price.blockNumber == t.price.blockNumber && s.price.logIndex == t.price.logIndex ==>
        s == t
  }

  /** So what is stored depends on what was seen, not on batches or schedules. */
  lemma NewestIsUnique(a: map<Address, Price>, b: map<Address, Price>, seen: set<Swap>)
    requires AreNewest(a, seen) && AreNewest(b, seen) && PositionsDiffer(seen)
    ensures a == b
  {
    forall k | k in a ensures k in b && a[k] == b[k] {
      assert Swap(k, a[k]) in seen && Swap(k, b[k]) in seen;
    }
    forall k | k in b ensures k in a {
      assert Swap(k, b[k]) in seen;
    }
  }

  predicate IsSwapLog(x: Log, a: Address, swapTopic: int) { x.address == a && x.topic0 == swapTopic }

  /** The stored fields are those of the log. */
  predicate IsStoredAs(x: Log, p: Price) {
    p.blockNumber == x.blockNumber && p.logIndex == x.logIndex && p.price == x.price
  }

  /** What the stored prices say, of the logs they come from: a known pool with swap logs
      has the price, block and log index of the last of them, and no other address has one. */
  lemma StoredPricesAreLogs(prices: map<Address, Price>, logs: seq<Log>, known: set<Address>, swapTopic: int,
                            a: Address)
    requires AreNewest(prices, Swaps(logs, known, swapTopic))
    ensures a in prices <==> a in known && exists x :: x in logs && IsSwapLog(x, a, swapTopic)
    ensures a in prices ==> exists x :: x in logs && IsSwapLog(x, a, swapTopic) && IsStoredAs(x, prices[a])
    ensures a in prices ==> forall y :: y in logs && IsSwapLog(y, a, swapTopic) ==>
      y.blockNumber < prices[a].blockNumber ||
      (y.blockNumber == prices[a].blockNumber && y.logIndex <= prices[a].logIndex)
  {
    forall y | a in known && y in logs && IsSwapLog(y, a, swapTopic)
      ensures a in prices && !IsNewer(PriceOf(y), prices[a])
    {
      assert Swap(a, PriceOf(y)) in Swaps(logs, known, swapTopic);
    }
    if a in prices {
      assert Swap(a, prices[a]) in Swaps(logs, known, swapTopic);
      var x :| x in logs && Counts(x, known, swapTopic) && Swap(x.address, PriceOf(x)) == Swap(a, prices[a]);
      assert IsSwapLog(x, a, swapTopic) && IsStoredAs(x, prices[a]);
    }
  }

  /** The value records that the workers emit, one per pool of each batch. */
  function ValueRecords(batches: seq<seq<Log>>, known: set<Address>, swapTopic: int): set<Swap> {
    set b, a | b in batches && a in LastPrices(b, known, swapTopic) :: Swap(a, LastPrices(b, known, swapTopic)[a])
  }

  /** No pool has two counted records. */
  predicate PoolsDiffer(records: seq<Log>, known: set<Address>, swapTopic: int) {
    forall i, j :: 0 <= i < j < |records| ==>
      Counts(records[i], known, swapTopic) && Counts(records[j], known, swapTopic) ==>
        records[i].address != records[j].address
  }

  lemma {:induction false} LastIsOnly(batch: seq<Log>, known: set<Address>, swapTopic: int, x: Log)
    requires PoolsDiffer(batch, known, swapTopic) && x in batch && Counts(x, known, swapTopic)
    ensures var prices := LastPrices(batch, known, swapTopic);
      x.address in prices && prices[x.address] == PriceOf(x)
  {
    if x != batch[|batch| - 1] { LastIsOnly(batch[..|batch| - 1], known, swapTopic, x); }
  }

  lemma {:induction false} LastIsSeen(batch: seq<Log>, known: set<Address>, swapTopic: int, a: Address)
    requires a in LastPrices(batch, known, swapTopic)
    ensures Swap(a, LastPrices(batch, known, swapTopic)[a]) in Swaps(batch, known, swapTopic)
  {
    var init, last := batch[..|batch| - 1], batch[|batch| - 1];
    assert batch == init + [last];
    if !(Counts(last, known, swapTopic) && last.address == a) { LastIsSeen(init, known, swapTopic, a); }
  }

  lemma {:induction false} BatchPoolsDiffer(batches: seq<seq<Log>>, b: seq<Log>, known: set<Address>, swapTopic: int)
    requires PoolsDiffer(Concat(batches), known, swapTopic) && b in batches
    ensures PoolsDiffer(b, known, swapTopic)
  {
    var init, last := Concat(batches[..|batches| - 1]), batches[|batches| - 1];
    if b == last {
      forall i | 0 <= i < |b| ensures b[i] == Concat(batches)[|init| + i] {}
    } else {
      assert forall i :: 0 <= i < |init| ==> init[i] == Concat(batches)[i];
      BatchPoolsDiffer(batches[..|batches| - 1], b, known, swapTopic);
    }
  }

  /** Then every counted record is emitted, in whatever batch it comes. */
  lemma AllAreEmitted(batches: seq<seq<Log>>, known: set<Address>, swapTopic: int)
    requires PoolsDiffer(Concat(batches), known, swapTopic)
    ensures ValueRecords(batches, known, swapTopic) == SwapsOfAll(batches, known, swapTopic)
  {
    forall s | s in ValueRecords(batches, known, swapTopic) ensures s in SwapsOfAll(batches, known, swapTopic) {
      var b, a :| b in batches && a in LastPrices(b, known, swapTopic) &&
        s == Swap(a, LastPrices(b, known, swapTopic)[a]);
      LastIsSeen(b, known, swapTopic, a);
      var x :| x in b && Counts(x, known, swapTopic) && Swap(x.address, PriceOf(x)) == s;
      ConcatHas(batches, x);
    }
    forall s | s in SwapsOfAll(batches, known, swapTopic) ensures s in ValueRecords(batches, known, swapTopic) {
      var x :| x in Concat(batches) && Counts(x, known, swapTopic) && Swap(x.address, PriceOf(x)) == s;
      ConcatHas(batches, x);
      var b :| b in batches && x in b;
      BatchPoolsDiffer(batches, b, known, swapTopic);
      LastIsOnly(b, known, swapTopic, x);
    }
  }

  lemma ConcatOfOne(records: seq<Log>)
    ensures Concat([records]) == records
  {
    assert [records][..0] == [];
  }

  lemma ConcatOfTwo(a: seq<Log>, b: seq<Log>)
    ensures Concat([a, b]) == a + b
  {
    ConcatOfOne(a);
    assert [a, b][..1] == [a];
  }

  lemma {:induction false} LastIsEmitted(batches: seq<seq<Log>>, b: seq<Log>, known: set<Address>, swapTopic: int)
    requires b in batches && b != [] && Counts(b[|b| - 1], known, swapTopic)
    ensures Swap(b[|b| - 1].address, PriceOf(b[|b| - 1])) in ValueRecords(batches, known, swapTopic)
  {
    var last := b[|b| - 1];
    assert last.address in LastPrices(b, known, swapTopic);
    assert LastPrices(b, known, swapTopic)[last.address] == PriceOf(last);
  }

  lemma EarlierIsHidden(records: seq<Log>, known: set<Address>, swapTopic: int, x: Log, y: Log)
    requires InOrder(records) && x.address == y.address && x.blockNumber < y.blockNumber
    requires y in records && Counts(y, known, swapTopic)
    ensures Swap(x.address, PriceOf(x)) !in ValueRecords([records], known, swapTopic)
  {
    LastIsNewest(records, known, swapTopic);
    assert Swap(y.address, PriceOf(y)) in Swaps(records, known, swapTopic);
  }

  /** Splitting behind the earlier of two records of a pool emits it; not splitting does not. */
  lemma SplitShows(records: seq<Log>, known: set<Address>, swapTopic: int, i: nat, j: nat)
    requires InOrder(records) && i < j < |records| && records[i].address == records[j].address
    requires Counts(records[i], known, swapTopic) && Counts(records[j], known, swapTopic)
    ensures Concat([records[..i + 1], records[i + 1..]]) == records
    ensures Swap(records[i].address, PriceOf(records[i])) in
      ValueRecords([records[..i + 1], records[i + 1..]], known, swapTopic) - ValueRecords([records], known, swapTopic)
  {
    var a, b, x, y := records[..i + 1], records[i + 1..], records[i], records[j];
    ConcatOfTwo(a, b);
    assert a + b == records;
    assert x.blockNumber < y.blockNumber;
    EarlierIsHidden(records, known, swapTopic, x, y);
    assert a[|a| - 1] == x;
    LastIsEmitted([a, b], a, known, swapTopic);
  }

  ghost predicate SplitIsInvisible(records: seq<Log>, known: set<Address>, swapTopic: int) {
    forall batches :: Concat(batches) == records ==>
      ValueRecords(batches, known, swapTopic) == ValueRecords([records], known, swapTopic)
  }

  lemma DifferentPoolsHideTheSplit(records: seq<Log>, known: set<Address>, swapTopic: int, batches: seq<seq<Log>>)
    requires PoolsDiffer(records, known, swapTopic) && Concat(batches) == records
    ensures ValueRecords(batches, known, swapTopic) == ValueRecords([records], known, swapTopic)
  {
    ConcatOfOne(records);
    AllAreEmitted([records], known, swapTopic);
    AllAreEmitted(batches, known, swapTopic);
  }

  lemma OnePoolShowsTheSplit(records: seq<Log>, known: set<Address>, swapTopic: int) returns (batches: seq<seq<Log>>)
    requires InOrder(records) && !PoolsDiffer(records, known, swapTopic)
    ensures Concat(batches) == records
    ensures ValueRecords(batches, known, swapTopic) != ValueRecords([records], known, swapTopic)
  {
    var i, j :| 0 <= i < j < |records| && Counts(records[i], known, swapTopic) &&
      Counts(records[j], known, swapTopic) && records[i].address == records[j].address;
    SplitShows(records, known, swapTopic, i, j);
    batches := [records[..i + 1], records[i + 1..]];
  }

  /** The emitted records, unlike the stored prices, may depend on how the work was split:
      they do not exactly if no pool has two counted records. */
  lemma SplitIsInvisibleIffPoolsDiffer(records: seq<Log>, known: set<Address>, swapTopic: int)
    requires InOrder(records)
    ensures SplitIsInvisible(records, known, swapTopic) <==> PoolsDiffer(records, known, swapTopic)
  {
    if PoolsDiffer(records, known, swapTopic) {
      forall batches | Concat(batches) == records
        ensures ValueRecords(batches, known, swapTopic) == ValueRecords([records], known, swapTopic)
      {
        DifferentPoolsHideTheSplit(records, known, swapTopic, batches);
      }
    } else {
      var batches := OnePoolShowsTheSplit(records, known, swapTopic);
    }
  }

  class ExportUniSwapV3PoolJob {
    const swapTopic: int
    var existPools: set<Address>
    var poolPrices: map<Address, Price>

    /** The prices of known pools that the workers have merged, over all runs. */
    ghost var seen: set<Swap>

    ghost predicate Valid()
      reads this
    {
      AreNewest(poolPrices, seen)
    }

    constructor (swapTopic: int, existPools: set<Address>)
      ensures Valid() && seen == {} && this.swapTopic == swapTopic && this.existPools == existPools
    {
      this.swapTopic, this.existPools := swapTopic, existPools;
      poolPrices, seen := map[], {};
    }

    /** A dictionary: its values, and its keys in the order of their first assignment. */
    method CollectPoolPrices(batch: seq<Log>) returns (prices: map<Address, Price>, items: seq<Address>)
      ensures prices == LastPrices(batch, existPools, swapTopic)
      ensures forall a :: a in items <==> a in prices
    {
      prices, items := map[], [];
      for i := 0 to |batch|
        invariant prices == LastPrices(batch[..i], existPools, swapTopic)
        invariant forall a :: a in items <==> a in prices
      {
        assert batch[..i + 1][..i] == batch[..i];
        if Counts(batch[i], existPools, swapTopic) {
          if batch[i].address !in prices { items := items + [batch[i].address]; }
          prices := prices[batch[i].address := PriceOf(batch[i])];
        }
      }
      assert batch[..|batch|] == batch;
    }

    /** Under the lock, item by item. */
    method UpdatePoolPrices(news: map<Address, Price>, items: seq<Address>)
      requires forall a :: a in items <==> a in news
      modifies this`poolPrices
      ensures poolPrices == Merge(old(poolPrices), news)
    {
      for i := 0 to |items|
        invariant poolPrices == MergeItems(old(poolPrices), news, items[..i])
      {
        assert items[..i + 1][..i] == items[..i];
        var a := items[i];
        if Replaces(poolPrices, a, news[a]) { poolPrices := poolPrices[a := news[a]]; }
      }
      assert items[..|items|] == items;
      MergeItemsIsMerge(old(poolPrices), news, items);
    }

    /** One worker with one batch. */
    method CollectBatch(batch: seq<Log>)
      requires Valid() && InOrder(batch)
      modifies this`poolPrices, this`seen
      ensures Valid() && seen == old(seen) + Swaps(batch, existPools, swapTopic)
      ensures poolPrices == Merge(old(poolPrices), LastPrices(batch, existPools, swapTopic))
    {
      var prices, items := CollectPoolPrices(batch);
      LastIsNewest(batch, existPools, swapTopic);
      MergeKeepsNewest(poolPrices, seen, prices, Swaps(batch, existPools, swapTopic));
      UpdatePoolPrices(prices, items);
      seen := seen + Swaps(batch, existPools, swapTopic);
    }

    /** The workers, in the order in which they take the lock. */
    method CollectAll(arrivals: seq<seq<Log>>)
      requires Valid() && forall b :: b in arrivals ==> InOrder(b)
      modifies this`poolPrices, this`seen
      ensures Valid() && seen == old(seen) + SwapsOfAll(arrivals, existPools, swapTopic)
    {
      for i := 0 to |arrivals|
        invariant Valid() && seen == old(seen) + SwapsOfAll(arrivals[..i], existPools, swapTopic)
      {
        assert arrivals[..i + 1][..i] == arrivals[..i];
        SwapsOfConcat(Concat(arrivals[..i]), arrivals[i], existPools, swapTopic);
        CollectBatch(arrivals[i]);
      }
      assert arrivals[..|arrivals|] == arrivals;
    }

    /** One run. The records are split into batches in any way, and the workers take the
        lock in any order. A batch that fails after it was merged is tried again item by
        item, so that batches and their single records may arrive any number of times; if
        the run fails, some may not arrive. */
    method Collect(logs: seq<Log>, newPools: set<Address>, batches: seq<seq<Log>>, arrivals: seq<seq<Log>>)
      requires Valid() && BlocksAscend(logs) && AreRecords(logs, Concat(batches))
      requires forall b :: b in arrivals ==> IsDelivery(batches, b)
      modifies this
      ensures Valid() && existPools == old(existPools) + newPools
      ensures seen == old(seen) + if AllArrive(batches, arrivals)
        then Swaps(logs, existPools, swapTopic)
        else SwapsOfAll(arrivals, existPools, swapTopic)
    {
      existPools := existPools + newPools;
      var records := GroupLogs(logs);
      assert records == Concat(batches);
      RecordsAreInOrder(logs, records);
      forall b | b in arrivals ensures InOrder(b) { DeliveryIsInOrder(batches, b); }
      CollectAll(arrivals);
      if AllArrive(batches, arrivals) {
        SameRecordsSameSwaps(batches, arrivals, existPools, swapTopic);
        RecordsSpeakForLogs(poolPrices, old(seen), logs, records, existPools, swapTopic);
        seen := old(seen) + Swaps(logs, existPools, swapTopic);
      }
    }
  }
}
