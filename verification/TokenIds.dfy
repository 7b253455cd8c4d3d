/** Token id details: the owner of an ERC721 token id, or the supply of an ERC1155 one,
    kept at the greatest block by guarded upserts. */
module TokenIds {
  import opened Common
  import opened Tables

  /** A row of a detail table. `holding` is the owner or the supply, which updates carry;
      `uri` comes with the first mint. */
  datatype Detail = Detail(
    tokenAddress: int, tokenId: int, holding: Option<int>, uri: Option<string>,
    blockNumber: int, blockTimestamp: int)

  type DetailKey = (int, int)

  function KeyOf(d: Detail): DetailKey { (d.tokenAddress, d.tokenId) }

  /** The primary key of both tables is token and id. */
  lemma KeysIdentify(x: Detail, y: Detail)
    ensures KeyOf(x) == KeyOf(y) <==> x.tokenAddress == y.tokenAddress && x.tokenId == y.tokenId
  {
  }

  const DETAIL_KEY: seq<Column> := [TokenAddress, TokenId]

  /** The columns of the two tables: they differ in the one for the holding. */
  function DetailColumns(holding: Column): seq<Column> {
    [TokenAddress, TokenId, holding, TokenUri, TokenUriInfo, BlockNumber, BlockTimestamp, CreateTime, UpdateTime, Reorg]
  }

  function UpdateFields(holding: Column): set<Column> { {TokenAddress, TokenId, holding, BlockNumber, BlockTimestamp} }

  /** A row as the update record gives it: without a URI. */
  predicate IsUpdate(d: Detail) { d.holding.Some? && d.uri == None }

  /** `EXCLUDED.block_number >= erc721_token_id_details.block_number`. */
  predicate IsNotOlder(old': Detail, new': Detail) { new'.blockNumber >= old'.blockNumber }

  function Overwrite(old': Detail, new': Detail, columns: set<Column>, holding: Column): Detail {
    Detail(
      if TokenAddress in columns then new'.tokenAddress else old'.tokenAddress,
      if TokenId in columns then new'.tokenId else old'.tokenId,
      if holding in columns then new'.holding else old'.holding,
      if TokenUri in columns then new'.uri else old'.uri,
      if BlockNumber in columns then new'.blockNumber else old'.blockNumber,
      if BlockTimestamp in columns then new'.blockTimestamp else old'.blockTimestamp)
  }

  function MergeBy(holding: Column, old': Detail, new': Detail): Detail {
    Overwrite(old', new', UpdateSet(DetailColumns(holding), DETAIL_KEY, UpdateFields(holding)), holding)
  }

  function MergeDetail(old': Detail, new': Detail): Detail { MergeBy(TokenOwner, old', new') }

  /** The table of ERC1155 supplies is updated as that of ERC721 owners is, so what
      follows holds for both. */
  lemma SuppliesMergeAsOwners(old': Detail, new': Detail)
    ensures MergeBy(TokenSupply, old', new') == MergeDetail(old', new')
  {
    assert TokenUri !in UpdateFields(TokenSupply) && TokenUri !in UpdateFields(TokenOwner);
  }

  const DETAIL_CONFLICT: Conflict<Detail> := Conflict(IsNotOlder, MergeDetail)

  type Details = map<DetailKey, Detail>

  function Updated(t: Details, updates: seq<Detail>): Details {
    UpsertAll(t, KeyOf, DETAIL_CONFLICT, updates)
  }

  /** An update that gets through sets holding, block and timestamp, and nothing else. */
  lemma UpdateLeavesUri(old': Detail, new': Detail)
    ensures MergeDetail(old', new') ==
      old'.(holding := new'.holding, blockNumber := new'.blockNumber, blockTimestamp := new'.blockTimestamp)
  {
    assert TokenUri !in UpdateFields(TokenOwner);
  }

  // --- The greatest block ---

  /** The last of the updates of a token id with the greatest block. */
  function Greatest(updates: seq<Detail>, k: DetailKey): Option<Detail> {
    if updates == [] then None
    else
      var before, last := Greatest(updates[..|updates| - 1], k), updates[|updates| - 1];
      if KeyOf(last) != k then before
      else if before.Some? && before.value.blockNumber > last.blockNumber then before
      else Some(last)
  }

  lemma {:induction false} GreatestIsGreatest(updates: seq<Detail>, k: DetailKey)
    ensures Greatest(updates, k) == None <==> forall x :: x in updates ==> KeyOf(x) != k
    ensures Greatest(updates, k).Some? ==>
      var g := Greatest(updates, k).value;
      g in updates && KeyOf(g) == k && forall x :: x in updates && KeyOf(x) == k ==> x.blockNumber <= g.blockNumber
  {
    if updates != [] {
      GreatestIsGreatest(updates[..|updates| - 1], k);
      assert updates == updates[..|updates| - 1] + [updates[|updates| - 1]];
    }
  }

  /** Key and block determine an update: the chain has one owner per token id and block. */
  ghost predicate Determined(updates: set<Detail>) {
    forall x, y :: x in updates && y in updates && KeyOf(x) == KeyOf(y) && x.blockNumber == y.blockNumber ==> x == y
  }

  ghost predicate UpdatesIn(updates: seq<Detail>, chain: set<Detail>) {
    forall x :: x in updates ==> x in chain && IsUpdate(x)
  }

  /** Then the greatest update depends on which updates there are, not on their order
      or on how often they come. */
  lemma GreatestIsOrderFree(a: seq<Detail>, b: seq<Detail>, k: DetailKey, chain: set<Detail>)
    requires Determined(chain) && UpdatesIn(a, chain) && UpdatesIn(b, chain)
    requires forall x :: x in a <==> x in b
    ensures Greatest(a, k) == Greatest(b, k)
  {
    GreatestIsGreatest(a, k);
    GreatestIsGreatest(b, k);
  }

  // --- What a sequence of updates leaves behind ---

  /** The row of `k`: of the row that was there and the greatest update, the later one;
      an update overwrites all but the URI. */
  function Expected(t: Details, updates: seq<Detail>, k: DetailKey): Option<Detail> {
    var g := Greatest(updates, k);
    if g == None then (if k in t then Some(t[k]) else None)
    else if k !in t then g
    else if g.value.blockNumber >= t[k].blockNumber then Some(MergeDetail(t[k], g.value))
    else Some(t[k])
  }

  function RowAt(t: Details, k: DetailKey): Option<Detail> {
    if k in t then Some(t[k]) else None
  }

  /** Guarded upserts, one after the other in any order, leave the greatest one. */
  lemma {:induction false} UpdatesLeaveTheGreatest(t: Details, updates: seq<Detail>, k: DetailKey, chain: set<Detail>)
    requires Determined(chain) && UpdatesIn(updates, chain)
    ensures RowAt(Updated(t, updates), k) == Expected(t, updates, k)
  {
    if updates != [] {
      var init, last := updates[..|updates| - 1], updates[|updates| - 1];
      assert updates == init + [last] && last in updates;
      UpdatesLeaveTheGreatest(t, init, k, chain);
      GreatestIsGreatest(init, k);
      if KeyOf(last) == k {
        UpdateStep(t, init, last, chain);
      }
    }
  }

  lemma UpdateStep(t: Details, init: seq<Detail>, last: Detail, chain: set<Detail>)
    requires Determined(chain) && UpdatesIn(init + [last], chain)
    requires RowAt(Updated(t, init), KeyOf(last)) == Expected(t, init, KeyOf(last))
    ensures RowAt(UpsertOne(Updated(t, init), KeyOf, DETAIL_CONFLICT, last), KeyOf(last)) ==
      Expected(t, init + [last], KeyOf(last))
  {
    var k, both := KeyOf(last), init + [last];
    assert both[..|both| - 1] == init && last in both;
    GreatestIsGreatest(init, k);
    var g := Greatest(init, k);
    if g.Some? {
      assert g.value in both;
      UpdateLeavesUri(g.value, last);
      if k in t { UpdateLeavesUri(t[k], g.value); UpdateLeavesUri(MergeDetail(t[k], g.value), last); }
    }
    if k in t { UpdateLeavesUri(t[k], last); }
  }

  /** Two sequences with the same updates, in whatever order, batches and number of
      repetitions, turn the same table into the same table. */
  lemma ReplaysConverge(t: Details, a: seq<Detail>, b: seq<Detail>, chain: set<Detail>)
    requires Determined(chain) && UpdatesIn(a, chain) && UpdatesIn(b, chain)
    requires forall x :: x in a <==> x in b
    ensures Updated(t, a) == Updated(t, b)
  {
    forall k ensures RowAt(Updated(t, a), k) == RowAt(Updated(t, b), k) {
      GreatestIsOrderFree(a, b, k, chain);
      UpdatesLeaveTheGreatest(t, a, k, chain);
      UpdatesLeaveTheGreatest(t, b, k, chain);
    }
    SameRowsSameTable(Updated(t, a), Updated(t, b));
  }

  lemma SameRowsSameTable(a: Details, b: Details)
    requires forall k :: RowAt(a, k) == RowAt(b, k)
    ensures a == b
  {
    forall k ensures k in a <==> k in b { assert RowAt(a, k) == RowAt(b, k); }
    forall k | k in a ensures a[k] == b[k] { assert RowAt(a, k) == RowAt(b, k); }
  }

  // --- Sorting and keeping the last of each group ---

  function DetailSortKey(d: Detail): seq<int> { [d.tokenAddress, d.tokenId, d.blockNumber] }

  /** One update per token id that occurs: the greatest one. */
  ghost predicate IsReduced(updates: seq<Detail>, reduced: seq<Detail>) {
    KeysDiffer(reduced, KeyOf) && forall k :: First(reduced, KeyOf, k) == Greatest(updates, k)
  }

  lemma KeysAreSorted(s: seq<Detail>, i: nat, j: nat, m: nat)
    requires SortedBy(s, DetailSortKey) && i <= m <= j < |s| && KeyOf(s[i]) == KeyOf(s[j])
    ensures KeyOf(s[m]) == KeyOf(s[i])
    ensures s[i].blockNumber <= s[j].blockNumber
  {
    var a, b, c := DetailSortKey(s[i]), DetailSortKey(s[m]), DetailSortKey(s[j]);
    assert (i < m ==> !LexLess(b, a)) && (m < j ==> !LexLess(c, b)) && (i < j ==> !LexLess(c, a));
    LexOfTriples(s[i], s[m]);
    LexOfTriples(s[m], s[j]);
    LexOfTriples(s[i], s[j]);
  }

  lemma LexOfTriples(x: Detail, y: Detail)
    ensures LexLess(DetailSortKey(y), DetailSortKey(x)) <==>
      y.tokenAddress < x.tokenAddress ||
      (y.tokenAddress == x.tokenAddress &&
        (y.tokenId < x.tokenId || (y.tokenId == x.tokenId && y.blockNumber < x.blockNumber)))
  {
    var a, b := DetailSortKey(y), DetailSortKey(x);
    assert a[1..] == [y.tokenId, y.blockNumber] && b[1..] == [x.tokenId, x.blockNumber];
    assert a[1..][1..] == [y.blockNumber] && b[1..][1..] == [x.blockNumber];
    assert LexLess([y.blockNumber], [x.blockNumber]) <==> y.blockNumber < x.blockNumber by {
      assert [y.blockNumber][1..] == [] && [x.blockNumber][1..] == [];
    }
  }

  /** `[list(group)[-1] for key, group in groupby(...)]` on the sorted list: adjacent
      equal keys form a group. */
  method LastOfEachGroup(s: seq<Detail>) returns (result: seq<Detail>)
    requires SortedBy(s, DetailSortKey)
    ensures IsReduced(s, result)
  {
    result := [];
    for i := 0 to |s|
      invariant |result| <= i && (i > 0 ==> result != [] && result[|result| - 1] == s[i - 1])
      invariant forall x :: x in result ==> x in s[..i]
      invariant KeysDiffer(result, KeyOf)
      invariant forall k :: First(result, KeyOf, k) == Greatest(s[..i], k)
    {
      assert s[..i + 1] == s[..i] + [s[i]] && s[..i + 1][..i] == s[..i];
      if i > 0 && KeyOf(s[i - 1]) == KeyOf(s[i]) {
        ReplaceLast(result, s, i);
        result := result[..|result| - 1] + [s[i]];
      } else {
        AppendGroup(result, s, i);
        result := result + [s[i]];
      }
    }
    assert s[..|s|] == s;
  }

  lemma ReplaceLast(result: seq<Detail>, s: seq<Detail>, i: nat)
    requires SortedBy(s, DetailSortKey) && 0 < i < |s| && KeyOf(s[i - 1]) == KeyOf(s[i])
    requires result != [] && result[|result| - 1] == s[i - 1] && KeysDiffer(result, KeyOf)
    requires forall k :: First(result, KeyOf, k) == Greatest(s[..i], k)
    ensures var result' := result[..|result| - 1] + [s[i]];
      KeysDiffer(result', KeyOf) && forall k :: First(result', KeyOf, k) == Greatest(s[..i + 1], k)
  {
    var result' := result[..|result| - 1] + [s[i]];
    assert s[..i + 1][..i] == s[..i] && result'[..|result'| - 1] == result[..|result| - 1];
    KeysAreSorted(s, i - 1, i, i);
    FirstIsThere(result[..|result| - 1], KeyOf, KeyOf(s[i]));
    forall k ensures First(result', KeyOf, k) == Greatest(s[..i + 1], k) {
      assert First(result, KeyOf, k) == Greatest(s[..i], k);
    }
  }

  lemma AppendGroup(result: seq<Detail>, s: seq<Detail>, i: nat)
    requires SortedBy(s, DetailSortKey) && i < |s| && (i > 0 ==> KeyOf(s[i - 1]) != KeyOf(s[i]))
    requires forall x :: x in result ==> x in s[..i]
    requires KeysDiffer(result, KeyOf)
    requires forall k :: First(result, KeyOf, k) == Greatest(s[..i], k)
    ensures var result' := result + [s[i]];
      KeysDiffer(result', KeyOf) && forall k :: First(result', KeyOf, k) == Greatest(s[..i + 1], k)
  {
    var result', k0 := result + [s[i]], KeyOf(s[i]);
    assert s[..i + 1][..i] == s[..i] && result'[..|result'| - 1] == result;
    forall x | x in s[..i] ensures KeyOf(x) != k0 {
      var j :| 0 <= j < i && s[j] == x;
      if KeyOf(s[j]) == k0 { KeysAreSorted(s, j, i, i - 1); }
    }
    GreatestIsGreatest(s[..i], k0);
    forall k ensures First(result', KeyOf, k) == Greatest(s[..i + 1], k) {
      assert First(result, KeyOf, k) == Greatest(s[..i], k);
    }
  }

  // --- Whole runs ---

  /** Exporting the reduced updates has the effect of all of them, one by one. */
  lemma ReducingLosesNothing(t: Details, updates: seq<Detail>, reduced: seq<Detail>, chain: set<Detail>)
    requires Determined(chain) && UpdatesIn(updates, chain) && IsReduced(updates, reduced)
    ensures Updated(t, reduced) == Updated(t, updates)
  {
    forall k ensures RowAt(Updated(t, reduced), k) == RowAt(Updated(t, updates), k) {
      UpsertAllAt(t, KeyOf, DETAIL_CONFLICT, reduced, k);
      UpdatesLeaveTheGreatest(t, updates, k, chain);
    }
    SameRowsSameTable(Updated(t, reduced), Updated(t, updates));
  }

  ghost predicate IsUpdateStep(t: Details, batch: seq<Detail>, t': Details) {
    exists reduced :: IsReduced(batch, reduced) && t' == Updated(t, reduced)
  }

  ghost predicate IsUpdateRun(states: seq<Details>, batches: seq<seq<Detail>>) {
    |states| == |batches| + 1 &&
    forall i :: 0 <= i < |batches| ==> IsUpdateStep(states[i], batches[i], states[i + 1])
  }

  function Flat(batches: seq<seq<Detail>>): seq<Detail> {
    if batches == [] then [] else Flat(batches[..|batches| - 1]) + batches[|batches| - 1]
  }

  lemma {:induction false} RunIsAllUpdates(states: seq<Details>, batches: seq<seq<Detail>>, chain: set<Detail>)
    requires IsUpdateRun(states, batches) && Determined(chain) && UpdatesIn(Flat(batches), chain)
    ensures states[|states| - 1] == Updated(states[0], Flat(batches))
  {
    if batches != [] {
      var n := |batches| - 1;
      var init, last := batches[..n], batches[n];
      forall i | 0 <= i < n ensures IsUpdateStep(states[..n + 1][i], init[i], states[..n + 1][i + 1]) {
        assert IsUpdateStep(states[i], batches[i], states[i + 1]);
      }
      RunIsAllUpdates(states[..n + 1], init, chain);
      assert IsUpdateStep(states[n], batches[n], states[n + 1]);
      var reduced :| IsReduced(last, reduced) && states[n + 1] == Updated(states[n], reduced);
      ReducingLosesNothing(states[n], last, reduced, chain);
      UpsertAllAppend(states[0], KeyOf, DETAIL_CONFLICT, Flat(init), last);
    }
  }

  /** Runs over the same updates end in the same table, however the blocks were split
      into batches, in whatever order they came and however often they were replayed. */
  lemma RunsConverge(a: seq<Details>, batchesA: seq<seq<Detail>>, b: seq<Details>, batchesB: seq<seq<Detail>>,
                     chain: set<Detail>)
    requires IsUpdateRun(a, batchesA) && IsUpdateRun(b, batchesB) && a[0] == b[0]
    requires Determined(chain) && UpdatesIn(Flat(batchesA), chain) && UpdatesIn(Flat(batchesB), chain)
    requires forall x :: x in Flat(batchesA) <==> x in Flat(batchesB)
    ensures a[|a| - 1] == b[|b| - 1]
  {
    RunIsAllUpdates(a, batchesA, chain);
    RunIsAllUpdates(b, batchesB, chain);
    ReplaysConverge(a[0], Flat(batchesA), Flat(batchesB), chain);
  }

  // --- Mint rows and updates together ---

  /** A write to a detail table: the insert of a mint row, or a guarded update. */
  datatype Write = Insert(row: Detail) | Update(row: Detail)

  function Applied(t: Details, writes: seq<Write>): Details {
    if writes == [] then t
    else
      var before, last := Applied(t, writes[..|writes| - 1]), writes[|writes| - 1];
      match last
      case Insert(row) => InsertOne(before, KeyOf, row)
      case Update(row) => UpsertOne(before, KeyOf, DETAIL_CONFLICT, row)
  }

  function UpdatesOf(writes: seq<Write>): seq<Detail> {
    if writes == [] then []
    else
      var last := writes[|writes| - 1];
      UpdatesOf(writes[..|writes| - 1]) + if last.Update? then [last.row] else []
  }

  /** The first row written for a token id. */
  function FirstRow(writes: seq<Write>, k: DetailKey): Option<Detail> {
    if writes == [] then None
    else
      var before, last := FirstRow(writes[..|writes| - 1], k), writes[|writes| - 1];
      if before.Some? then before else if KeyOf(last.row) == k then Some(last.row) else None
  }

  /** What is written for `k` after the first row of it. */
  function LaterWrites(writes: seq<Write>, k: DetailKey): seq<Write> {
    if writes == [] then []
    else
      var init := writes[..|writes| - 1];
      LaterWrites(init, k) + if FirstRow(init, k).Some? then [writes[|writes| - 1]] else []
  }

  lemma AppendUpdate(t: Details, updates: seq<Detail>, row: Detail)
    ensures Updated(t, updates + [row]) == UpsertOne(Updated(t, updates), KeyOf, DETAIL_CONFLICT, row)
  {
    assert (updates + [row])[..|updates|] == updates;
  }

  /** What one write does to a row depends on that row only. */
  lemma UpsertIsLocal(a: Details, b: Details, row: Detail, k: DetailKey)
    requires RowAt(a, k) == RowAt(b, k)
    ensures RowAt(UpsertOne(a, KeyOf, DETAIL_CONFLICT, row), k) == RowAt(UpsertOne(b, KeyOf, DETAIL_CONFLICT, row), k)
  {
  }

  /** One more write to a token id that has a row. */
  lemma LaterWrite(before: Details, t: Details, updates: seq<Detail>, w: Write, k: DetailKey)
    requires k in before && RowAt(before, k) == RowAt(Updated(t, updates), k)
    ensures var after := if w.Insert? then InsertOne(before, KeyOf, w.row)
                         else UpsertOne(before, KeyOf, DETAIL_CONFLICT, w.row);
      && RowAt(after, k) == RowAt(Updated(t, updates + if w.Update? then [w.row] else []), k)
      && k in after && after[k].uri == before[k].uri
  {
    if w.Update? {
      AppendUpdate(t, updates, w.row);
      UpsertIsLocal(before, Updated(t, updates), w.row, k);
      UpdateLeavesUri(before[k], w.row);
    } else {
      assert updates + [] == updates;
    }
  }

  /** Once the token id has a row, inserts do nothing: the updates alone decide. */
  lemma {:induction false} InsertsComeTooLate(t: Details, writes: seq<Write>, k: DetailKey)
    requires k in t
    ensures k in Applied(t, writes) && RowAt(Applied(t, writes), k) == RowAt(Updated(t, UpdatesOf(writes)), k)
    ensures Applied(t, writes)[k].uri == t[k].uri
  {
    if writes != [] {
      var init, last := writes[..|writes| - 1], writes[|writes| - 1];
      InsertsComeTooLate(t, init, k);
      LaterWrite(Applied(t, init), t, UpdatesOf(init), last, k);
    }
  }

  /** The row of a token id after any mixture of mint inserts and guarded updates: the
      first row written for it, with the later updates applied, and the URI of that first
      row for good. */
  lemma {:induction false} FirstWriteDecides(t: Details, writes: seq<Write>, k: DetailKey)
    requires k !in t
    ensures RowAt(Applied(t, writes), k) ==
      if FirstRow(writes, k) == None then None
      else RowAt(Updated(map[k := FirstRow(writes, k).value], UpdatesOf(LaterWrites(writes, k))), k)
    ensures FirstRow(writes, k).Some? ==>
      k in Applied(t, writes) && Applied(t, writes)[k].uri == FirstRow(writes, k).value.uri
  {
    if writes != [] {
      var init, last := writes[..|writes| - 1], writes[|writes| - 1];
      FirstWriteDecides(t, init, k);
      if FirstRow(init, k).Some? {
        var first, later := map[k := FirstRow(init, k).value], LaterWrites(init, k);
        assert LaterWrites(writes, k) == later + [last];
        assert (later + [last])[..|later|] == later;
        LaterWrite(Applied(t, init), first, UpdatesOf(later), last, k);
      } else {
        NothingLater(init, k);
      }
    }
  }

  lemma {:induction false} NothingLater(writes: seq<Write>, k: DetailKey)
    requires FirstRow(writes, k) == None
    ensures LaterWrites(writes, k) == []
  {
    if writes != [] { NothingLater(writes[..|writes| - 1], k); }
  }

  /** An update that comes before the mint row keeps the URI out for good, whatever
      inserts and updates follow. */
  lemma LateUriStaysLost(t: Details, update: Detail, later: seq<Write>)
    requires IsUpdate(update) && KeyOf(update) !in t
    ensures var t' := UpsertOne(t, KeyOf, DETAIL_CONFLICT, update);
      KeyOf(update) in Applied(t', later) && Applied(t', later)[KeyOf(update)].uri == None
  {
    InsertsComeTooLate(UpsertOne(t, KeyOf, DETAIL_CONFLICT, update), later, KeyOf(update));
  }

  /** Inserting the row with the URI and updating commute exactly when the token id is
      there already. */
  lemma LateUriIsLost(t: Details, mint: Detail, update: Detail)
    requires KeyOf(mint) == KeyOf(update) && IsUpdate(update) && mint.uri.Some?
    ensures (InsertOne(UpsertOne(t, KeyOf, DETAIL_CONFLICT, update), KeyOf, mint) ==
             UpsertOne(InsertOne(t, KeyOf, mint), KeyOf, DETAIL_CONFLICT, update)) <==> KeyOf(mint) in t
  {
    UpdateLeavesUri(mint, update);
    var k := KeyOf(mint);
    if k !in t {
      assert InsertOne(UpsertOne(t, KeyOf, DETAIL_CONFLICT, update), KeyOf, mint)[k].uri == None;
      assert UpsertOne(InsertOne(t, KeyOf, mint), KeyOf, DETAIL_CONFLICT, update)[k].uri.Some?;
    }
  }

  // --- The job ---

  class ExportTokenIdInfosJob {
    var updates: seq<Detail>
    const details: PgTable<DetailKey, Detail>

    constructor (details: PgTable<DetailKey, Detail>)
      requires details.key == KeyOf
      ensures this.details == details && updates == []
    {
      this.details := details;
      updates := [];
    }

    method Process()
      modifies this
      ensures IsReduced(SortBy(old(updates), DetailSortKey), updates)
    {
      SortSorts(updates, DetailSortKey);
      updates := LastOfEachGroup(SortBy(updates, DetailSortKey));
    }

    /** After `Process` no statement carries a primary key twice, so only the database
        itself can make the export fail. */
    method Export(broken: set<nat>) returns (ok: bool)
      requires details.key == KeyOf && KeysDiffer(updates, KeyOf)
      modifies details`rows
      ensures ok ==> details.rows == Updated(old(details.rows), updates)
      ensures !ok ==> exists n: nat :: n < |updates| && details.rows == Updated(old(details.rows), updates[..n])
      ensures ok <==> !BreaksAt(broken, |updates|)
    {
      ghost var n;
      ok, n := details.ExportDoUpdate(updates, DETAIL_CONFLICT, broken);
      assert updates[..|updates|] == updates;
    }
  }
}
