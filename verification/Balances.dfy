/** Token balances: the history table and the current-balance table that is kept up
    to date beside it. */
module Balances {
  import opened Common
  import opened Tables

  /** A balance record; the current-balance record has the same fields. Addresses are
      opaque numbers. */
  datatype TokenBalance = TokenBalance(
    address: int, tokenId: Option<int>, tokenType: string, tokenAddress: int,
    balance: Option<int>, blockNumber: int, blockTimestamp: int)

  type CurrentKey = (int, int)
  type HistoryKey = (int, int, int)

  function CurrentKeyOf(b: TokenBalance): CurrentKey { (b.address, b.tokenAddress) }

  function HistoryKeyOf(b: TokenBalance): HistoryKey { AtBlock(CurrentKeyOf(b), b.blockNumber) }

  function AtBlock(k: CurrentKey, block: int): HistoryKey { (k.0, k.1, block) }

  /** The primary keys: holder and token, and for the history the block as well. */
  lemma KeysIdentify(x: TokenBalance, y: TokenBalance)
    ensures CurrentKeyOf(x) == CurrentKeyOf(y) <==> x.address == y.address && x.tokenAddress == y.tokenAddress
    ensures HistoryKeyOf(x) == HistoryKeyOf(y) <==>
      x.address == y.address && x.tokenAddress == y.tokenAddress && x.blockNumber == y.blockNumber
  {
  }

  const CURRENT_COLUMNS: seq<Column> :=
    [Address, TokenId, TokenType, TokenAddress, Balance, BlockNumber, BlockTimestamp, CreateTime, UpdateTime, Reorg]
  const CURRENT_KEY: seq<Column> := [Address, TokenAddress]
  const BALANCE_FIELDS: set<Column> :=
    {Address, TokenId, TokenType, TokenAddress, Balance, BlockNumber, BlockTimestamp}

  /** `EXCLUDED.block_number > address_current_token_balances.block_number`. */
  predicate IsNewer(old': TokenBalance, new': TokenBalance) { new'.blockNumber > old'.blockNumber }

  /** Overwrites the given columns. */
  function Overwrite(old': TokenBalance, new': TokenBalance, columns: set<Column>): TokenBalance {
    TokenBalance(
      if Address in columns then new'.address else old'.address,
      if TokenId in columns then new'.tokenId else old'.tokenId,
      if TokenType in columns then new'.tokenType else old'.tokenType,
      if TokenAddress in columns then new'.tokenAddress else old'.tokenAddress,
      if Balance in columns then new'.balance else old'.balance,
      if BlockNumber in columns then new'.blockNumber else old'.blockNumber,
      if BlockTimestamp in columns then new'.blockTimestamp else old'.blockTimestamp)
  }

  function MergeCurrent(old': TokenBalance, new': TokenBalance): TokenBalance {
    Overwrite(old', new', UpdateSet(CURRENT_COLUMNS, CURRENT_KEY, BALANCE_FIELDS))
  }

  const CURRENT_CONFLICT: Conflict<TokenBalance> := Conflict(IsNewer, MergeCurrent)

  /** The update sets every column outside the key, so it replaces the row. */
  lemma MergeReplaces(old': TokenBalance, new': TokenBalance)
    requires CurrentKeyOf(old') == CurrentKeyOf(new')
    ensures MergeCurrent(old', new') == new'
  {
  }

  // --- Reducing a run to the current balances ---

  /** Among the rows of one holder and token, the first of those with the greatest block. */
  function Best(rows: seq<TokenBalance>, k: CurrentKey): Option<TokenBalance> {
    if rows == [] then None
    else
      var before, last := Best(rows[..|rows| - 1], k), rows[|rows| - 1];
      if CurrentKeyOf(last) != k then before
      else if before == None || before.value.blockNumber < last.blockNumber then Some(last)
      else before
  }

  /** One row per holder and token that occurs: the best one. */
  ghost predicate IsReduced(rows: seq<TokenBalance>, reduced: seq<TokenBalance>) {
    KeysDiffer(reduced, CurrentKeyOf) && forall k :: First(reduced, CurrentKeyOf, k) == Best(rows, k)
  }

  /** `Best` is what its name says, and the history insert picks the same row. */
  lemma {:induction false} BestIsGreatest(rows: seq<TokenBalance>, k: CurrentKey)
    ensures Best(rows, k) == None ==> forall x :: x in rows ==> CurrentKeyOf(x) != k
    ensures Best(rows, k).Some? ==>
      var b := Best(rows, k).value;
      b in rows && CurrentKeyOf(b) == k &&
      First(rows, HistoryKeyOf, HistoryKeyOf(b)) == Some(b) &&
      forall x :: x in rows && CurrentKeyOf(x) == k ==> x.blockNumber <= b.blockNumber
  {
    if rows != [] {
      var init, last := rows[..|rows| - 1], rows[|rows| - 1];
      BestIsGreatest(init, k);
      assert rows == init + [last];
      if Best(rows, k) == Some(last) && Best(init, k) != Some(last) {
        FirstIsThere(init, HistoryKeyOf, HistoryKeyOf(last));
        assert First(init, HistoryKeyOf, HistoryKeyOf(last)) == None;
      }
    }
  }

  /** `distinct_collections_by_group` with `max_key`: a dictionary from group to the
      best item so far, in the order in which the groups first occur. */
  method DistinctCollectionsByGroup(items: seq<TokenBalance>) returns (result: seq<TokenBalance>)
    ensures IsReduced(items, result)
  {
    var distinct: map<CurrentKey, TokenBalance> := map[];
    var order: seq<CurrentKey> := [];
    for i := 0 to |items|
      invariant forall k :: k in distinct <==> k in order
      invariant forall a, b :: 0 <= a < b < |order| ==> order[a] != order[b]
      invariant forall k :: Best(items[..i], k) == if k in distinct then Some(distinct[k]) else None
      invariant forall k :: k in distinct ==> CurrentKeyOf(distinct[k]) == k
    {
      var item := items[i];
      var key := CurrentKeyOf(item);
      assert items[..i + 1][..i] == items[..i];
      if key !in distinct {
        distinct := distinct[key := item];
        order := order + [key];
      } else if distinct[key].blockNumber < item.blockNumber {
        distinct := distinct[key := item];
      }
    }
    assert items[..|items|] == items;
    result := seq(|order|, i requires 0 <= i < |order| && order[i] in distinct => distinct[order[i]]);
    forall k ensures First(result, CurrentKeyOf, k) == Best(items, k) {
      FirstIsThere(result, CurrentKeyOf, k);
      if k in distinct {
        var a :| 0 <= a < |order| && order[a] == k;
        assert CurrentKeyOf(result[a]) == k;
      }
    }
  }

  // --- The view ---

  type History = map<HistoryKey, TokenBalance>
  type Current = map<CurrentKey, TokenBalance>

  /** The current row of a holder and token is its history row at the greatest block. */
  ghost predicate ViewAt(h: History, c: Current, k: CurrentKey) {
    && (k in c <==> exists b :: AtBlock(k, b) in h)
    && (k in c ==>
         && CurrentKeyOf(c[k]) == k && HistoryKeyOf(c[k]) in h && h[HistoryKeyOf(c[k])] == c[k]
         && forall b :: AtBlock(k, b) in h ==> b <= c[k].blockNumber)
  }

  ghost predicate IsView(h: History, c: Current) {
    forall k :: ViewAt(h, c, k)
  }

  function HistoryAfter(h: History, rows: seq<TokenBalance>): History { InsertAll(h, HistoryKeyOf, rows) }

  function CurrentAfter(c: Current, reduced: seq<TokenBalance>): Current {
    UpsertAll(c, CurrentKeyOf, CURRENT_CONFLICT, reduced)
  }

  lemma HistoryAfterAt(h: History, rows: seq<TokenBalance>, k: CurrentKey)
    ensures forall b :: AtBlock(k, b) in HistoryAfter(h, rows) <==> AtBlock(k, b) in h || HasBlock(rows, k, b)
    ensures forall b :: AtBlock(k, b) in h ==>
      AtBlock(k, b) in HistoryAfter(h, rows) && HistoryAfter(h, rows)[AtBlock(k, b)] == h[AtBlock(k, b)]
  {
    forall b
      ensures AtBlock(k, b) in HistoryAfter(h, rows) <==> AtBlock(k, b) in h || HasBlock(rows, k, b)
      ensures AtBlock(k, b) in h ==>
        AtBlock(k, b) in HistoryAfter(h, rows) && HistoryAfter(h, rows)[AtBlock(k, b)] == h[AtBlock(k, b)]
    {
      InsertAllAt(h, HistoryKeyOf, rows, AtBlock(k, b));
      FirstIsThere(rows, HistoryKeyOf, AtBlock(k, b));
      if HasBlock(rows, k, b) {
        var x :| x in rows && HistoryKeyOf(x) == AtBlock(k, b);
      }
    }
  }

  ghost predicate HasBlock(rows: seq<TokenBalance>, k: CurrentKey, b: int) {
    exists x :: x in rows && HistoryKeyOf(x) == AtBlock(k, b)
  }

  /** A complete export keeps the view, whatever blocks it covers, also again. */
  lemma ExportKeepsViewAt(h: History, c: Current, rows: seq<TokenBalance>, reduced: seq<TokenBalance>, k: CurrentKey)
    requires ViewAt(h, c, k) && IsReduced(rows, reduced)
    ensures ViewAt(HistoryAfter(h, rows), CurrentAfter(c, reduced), k)
  {
    BestIsGreatest(rows, k);
    UpsertAllAt(c, CurrentKeyOf, CURRENT_CONFLICT, reduced, k);
    HistoryAfterAt(h, rows, k);
    if Best(rows, k) == None {
      forall b ensures !HasBlock(rows, k, b) {}
    } else {
      var best := Best(rows, k).value;
      InsertAllAt(h, HistoryKeyOf, rows, HistoryKeyOf(best));
      assert HasBlock(rows, k, best.blockNumber);
      forall b | HasBlock(rows, k, b) ensures b <= best.blockNumber {}
      if k in c { MergeReplaces(c[k], best); }
    }
  }

  datatype Db = Db(history: History, current: Current)

  ghost predicate IsCompleteExport(db: Db, rows: seq<TokenBalance>, db': Db) {
    exists reduced :: IsReduced(rows, reduced) &&
      db' == Db(HistoryAfter(db.history, rows), CurrentAfter(db.current, reduced))
  }

  /** In every state reached by complete exports, in any order of blocks, with overlaps,
      repetitions and ties, the current table is the view it should be. */
  lemma {:induction false} ViewHoldsInEveryState(states: seq<Db>, batches: seq<seq<TokenBalance>>, i: nat)
    requires |states| == |batches| + 1 && i < |states|
    requires IsView(states[0].history, states[0].current)
    requires forall j :: 0 <= j < |batches| ==> IsCompleteExport(states[j], batches[j], states[j + 1])
    ensures IsView(states[i].history, states[i].current)
  {
    if i > 0 {
      ViewHoldsInEveryState(states, batches, i - 1);
      assert IsCompleteExport(states[i - 1], batches[i - 1], states[i - 1 + 1]);
      var reduced :| IsReduced(batches[i - 1], reduced) &&
        states[i] == Db(HistoryAfter(states[i - 1].history, batches[i - 1]),
                        CurrentAfter(states[i - 1].current, reduced));
      forall k ensures ViewAt(states[i].history, states[i].current, k) {
        ExportKeepsViewAt(states[i - 1].history, states[i - 1].current, batches[i - 1], reduced, k);
      }
    }
  }

  // --- Failed exports and their retries ---

  /** The rows that the chain can give; `Determined` when the key and block of a row
      determine it, which two token ids of one ERC1155 contract break. */
  ghost predicate Determined(chain: set<TokenBalance>) {
    forall x, y :: x in chain && y in chain && HistoryKeyOf(x) == HistoryKeyOf(y) ==> x == y
  }

  /** Both tables hold rows of the chain, and every current row is in the history. */
  ghost predicate IsSound(db: Db, chain: set<TokenBalance>) {
    && (forall hk :: hk in db.history ==> db.history[hk] in chain && HistoryKeyOf(db.history[hk]) == hk)
    && (forall k :: k in db.current ==>
         db.current[k] in chain && CurrentKeyOf(db.current[k]) == k && HistoryKeyOf(db.current[k]) in db.history)
  }

  /** Where the current table is behind the history, `pending` has the missing blocks. */
  ghost predicate LagsBy(db: Db, pending: seq<TokenBalance>) {
    forall k, b :: AtBlock(k, b) in db.history ==>
      (k in db.current && b <= db.current[k].blockNumber) || HasBlock(pending, k, b)
  }

  /** An export that failed: part of the history, or all of it and part of the view. */
  ghost predicate IsFailedExport(db: Db, rows: seq<TokenBalance>, db': Db) {
    exists reduced, i, j :: IsReduced(rows, reduced) && 0 <= i <= |rows| && 0 <= j <= |reduced| &&
      (j > 0 ==> i == |rows|) &&
      db' == Db(HistoryAfter(db.history, rows[..i]), CurrentAfter(db.current, reduced[..j]))
  }

  lemma NoLagIsView(db: Db, chain: set<TokenBalance>)
    requires Determined(chain) && IsSound(db, chain) && LagsBy(db, [])
    ensures IsView(db.history, db.current)
  {
    forall k ensures ViewAt(db.history, db.current, k) {
      if k in db.current {
        assert AtBlock(k, db.current[k].blockNumber) in db.history;
      }
    }
  }

  lemma ReducedRowIsARow(rows: seq<TokenBalance>, reduced: seq<TokenBalance>, j: nat, k: CurrentKey)
    requires IsReduced(rows, reduced) && j <= |reduced|
    ensures First(reduced[..j], CurrentKeyOf, k).Some? ==> First(reduced[..j], CurrentKeyOf, k).value in rows
    ensures j == |reduced| ==> First(reduced[..j], CurrentKeyOf, k) == Best(rows, k)
  {
    FirstIsThere(reduced[..j], CurrentKeyOf, k);
    if First(reduced[..j], CurrentKeyOf, k).Some? {
      var x := First(reduced[..j], CurrentKeyOf, k).value;
      var i :| 0 <= i < j && reduced[..j][i] == x;
      FirstIsThere(reduced, CurrentKeyOf, k);
      BestIsGreatest(rows, k);
    }
    assert reduced[..|reduced|] == reduced;
  }

  /** What one attempt does to the current row of a holder and token. */
  lemma CurrentAfterAt(c: Current, rows: seq<TokenBalance>, reduced: seq<TokenBalance>, j: nat, k: CurrentKey)
    requires IsReduced(rows, reduced) && j <= |reduced|
    requires forall q :: q in c ==> CurrentKeyOf(c[q]) == q
    ensures var c' := CurrentAfter(c, reduced[..j]);
      && (k in c ==> k in c' && c[k].blockNumber <= c'[k].blockNumber)
      && (k in c' ==> CurrentKeyOf(c'[k]) == k && ((k in c && c'[k] == c[k]) || (c'[k] in rows && j > 0)))
      && (j == |reduced| && Best(rows, k).Some? ==> k in c' && Best(rows, k).value.blockNumber <= c'[k].blockNumber)
  {
    UpsertAllAt(c, CurrentKeyOf, CURRENT_CONFLICT, reduced[..j], k);
    ReducedRowIsARow(rows, reduced, j, k);
    FirstIsThere(reduced[..j], CurrentKeyOf, k);
    if First(reduced[..j], CurrentKeyOf, k).Some? {
      var x := First(reduced[..j], CurrentKeyOf, k).value;
      if k in c { MergeReplaces(c[k], x); }
    }
  }

  ghost predicate RowsIn(rows: seq<TokenBalance>, chain: set<TokenBalance>) {
    forall x :: x in rows ==> x in chain
  }

  /** The retry has every row the failed attempt had; the order may differ. */
  ghost predicate Covers(retry: seq<TokenBalance>, pending: seq<TokenBalance>) {
    forall x :: x in pending ==> x in retry
  }

  lemma AttemptIsSound(db: Db, rows: seq<TokenBalance>, reduced: seq<TokenBalance>, i: nat, j: nat,
                       chain: set<TokenBalance>)
    requires IsSound(db, chain) && RowsIn(rows, chain) && IsReduced(rows, reduced)
    requires i <= |rows| && j <= |reduced| && (j > 0 ==> i == |rows|)
    ensures IsSound(Db(HistoryAfter(db.history, rows[..i]), CurrentAfter(db.current, reduced[..j])), chain)
  {
    var h, c := HistoryAfter(db.history, rows[..i]), CurrentAfter(db.current, reduced[..j]);
    assert rows[..|rows|] == rows;
    forall hk | hk in h ensures h[hk] in chain && HistoryKeyOf(h[hk]) == hk {
      InsertAllAt(db.history, HistoryKeyOf, rows[..i], hk);
      FirstIsThere(rows[..i], HistoryKeyOf, hk);
    }
    forall k | k in c ensures c[k] in chain && CurrentKeyOf(c[k]) == k && HistoryKeyOf(c[k]) in h {
      CurrentAfterAt(db.current, rows, reduced, j, k);
      HistoryAfterAt(db.history, rows[..i], k);
      if !(k in db.current && c[k] == db.current[k]) {
        assert HasBlock(rows, k, c[k].blockNumber);
      }
    }
  }

  lemma FailureLags(db: Db, rows: seq<TokenBalance>, reduced: seq<TokenBalance>, i: nat, j: nat,
                    pending: seq<TokenBalance>, chain: set<TokenBalance>)
    requires IsSound(db, chain) && LagsBy(db, pending) && Covers(rows, pending) && IsReduced(rows, reduced)
    requires i <= |rows| && j <= |reduced|
    ensures LagsBy(Db(HistoryAfter(db.history, rows[..i]), CurrentAfter(db.current, reduced[..j])), rows)
  {
    var h, c := HistoryAfter(db.history, rows[..i]), CurrentAfter(db.current, reduced[..j]);
    forall k, b | AtBlock(k, b) in h ensures (k in c && b <= c[k].blockNumber) || HasBlock(rows, k, b) {
      CurrentAfterAt(db.current, rows, reduced, j, k);
      HistoryAfterAt(db.history, rows[..i], k);
      if AtBlock(k, b) !in db.history {
        var x :| x in rows[..i] && HistoryKeyOf(x) == AtBlock(k, b);
      } else if HasBlock(pending, k, b) {
        var x :| x in pending && HistoryKeyOf(x) == AtBlock(k, b);
      }
    }
  }

  lemma SuccessCatchesUp(db: Db, rows: seq<TokenBalance>, reduced: seq<TokenBalance>,
                         pending: seq<TokenBalance>, chain: set<TokenBalance>)
    requires IsSound(db, chain) && LagsBy(db, pending) && Covers(rows, pending) && IsReduced(rows, reduced)
    ensures LagsBy(Db(HistoryAfter(db.history, rows), CurrentAfter(db.current, reduced)), [])
  {
    var h, c := HistoryAfter(db.history, rows), CurrentAfter(db.current, reduced);
    assert rows[..|rows|] == rows && reduced[..|reduced|] == reduced;
    FailureLags(db, rows, reduced, |rows|, |reduced|, pending, chain);
    forall k, b | AtBlock(k, b) in h ensures k in c && b <= c[k].blockNumber {
      CurrentAfterAt(db.current, rows, reduced, |reduced|, k);
      BestIsGreatest(rows, k);
      if HasBlock(rows, k, b) {
        var x :| x in rows && HistoryKeyOf(x) == AtBlock(k, b);
        assert CurrentKeyOf(x) == k;
      }
    }
  }

  datatype Attempt = Attempt(rows: seq<TokenBalance>, completed: bool)

  /** Attempts, each failed one followed by one that has its rows again. */
  ghost predicate IsRun(states: seq<Db>, attempts: seq<Attempt>) {
    && |states| == |attempts| + 1
    && (forall i :: 0 <= i < |attempts| ==>
         if attempts[i].completed then IsCompleteExport(states[i], attempts[i].rows, states[i + 1])
         else IsFailedExport(states[i], attempts[i].rows, states[i + 1]))
    && (forall i :: 0 <= i < |attempts| - 1 && !attempts[i].completed ==>
         Covers(attempts[i + 1].rows, attempts[i].rows))
  }

  function PendingAfter(attempts: seq<Attempt>, i: nat): seq<TokenBalance>
    requires i <= |attempts|
  {
    if i > 0 && !attempts[i - 1].completed then attempts[i - 1].rows else []
  }

  lemma {:induction false} RunStaysSound(states: seq<Db>, attempts: seq<Attempt>, i: nat, chain: set<TokenBalance>)
    requires IsRun(states, attempts) && i < |states|
    requires forall j :: 0 <= j < |attempts| ==> RowsIn(attempts[j].rows, chain)
    requires IsSound(states[0], chain) && LagsBy(states[0], [])
    ensures IsSound(states[i], chain) && LagsBy(states[i], PendingAfter(attempts, i))
  {
    if i > 0 {
      RunStaysSound(states, attempts, i - 1, chain);
      var db, rows, pending := states[i - 1], attempts[i - 1].rows, PendingAfter(attempts, i - 1);
      assert Covers(rows, pending) by {
        if i > 1 && !attempts[i - 2].completed { assert Covers(attempts[i - 2 + 1].rows, attempts[i - 2].rows); }
      }
      assert rows[..|rows|] == rows;
      if attempts[i - 1].completed {
        assert IsCompleteExport(db, rows, states[i - 1 + 1]);
        var reduced :| IsReduced(rows, reduced) &&
          states[i] == Db(HistoryAfter(db.history, rows), CurrentAfter(db.current, reduced));
        assert reduced[..|reduced|] == reduced;
        AttemptIsSound(db, rows, reduced, |rows|, |reduced|, chain);
        SuccessCatchesUp(db, rows, reduced, pending, chain);
      } else {
        assert IsFailedExport(db, rows, states[i - 1 + 1]);
        var reduced, n, m :| IsReduced(rows, reduced) && 0 <= n <= |rows| && 0 <= m <= |reduced| &&
          (m > 0 ==> n == |rows|) &&
          states[i] == Db(HistoryAfter(db.history, rows[..n]), CurrentAfter(db.current, reduced[..m]));
        AttemptIsSound(db, rows, reduced, n, m, chain);
        FailureLags(db, rows, reduced, n, m, pending, chain);
      }
    }
  }

  /** Exports may fail anywhere between two commits: once the failed range has been
      exported again, the view is right, if the rows are determined by key and block. */
  lemma RetriesRestoreTheView(states: seq<Db>, attempts: seq<Attempt>, i: nat, chain: set<TokenBalance>)
    requires IsRun(states, attempts) && 0 < i < |states| && attempts[i - 1].completed
    requires Determined(chain) && forall j :: 0 <= j < |attempts| ==> RowsIn(attempts[j].rows, chain)
    requires IsSound(states[0], chain) && LagsBy(states[0], [])
    ensures IsView(states[i].history, states[i].current)
  {
    RunStaysSound(states, attempts, i, chain);
    NoLagIsView(states[i], chain);
  }

  /** Without that, a retry can leave the tables apart: for any two different rows with
      one key and block, a first attempt that stops after the history insert and a retry
      that meets them in the other order. */
  lemma TiesBreakRetries(x: TokenBalance, y: TokenBalance, reduced: seq<TokenBalance>)
    requires x != y && HistoryKeyOf(x) == HistoryKeyOf(y) && IsReduced([y, x], reduced)
    ensures var failed := Db(HistoryAfter(map[], [x, y]), map[]);
      !IsView(HistoryAfter(failed.history, [y, x]), CurrentAfter(failed.current, reduced))
  {
    var k := CurrentKeyOf(x);
    var h := HistoryAfter(map[], [x, y]);
    assert [x, y][..1] == [x] && [x][..0] == [] && [y, x][..1] == [y] && [y][..0] == [];
    InsertAllAt(map[], HistoryKeyOf, [x, y], HistoryKeyOf(x));
    InsertAllAt(h, HistoryKeyOf, [y, x], HistoryKeyOf(x));
    UpsertAllAt(map[], CurrentKeyOf, CURRENT_CONFLICT, reduced, k);
    assert CurrentKeyOf(y) == k && y.blockNumber == x.blockNumber;
    assert Best([], k) == None && Best([y], k) == Some(y);
    assert Best([y, x], k) == Some(y);
    assert First([], HistoryKeyOf, HistoryKeyOf(x)) == None && First([x], HistoryKeyOf, HistoryKeyOf(x)) == Some(x);
    assert First([x, y], HistoryKeyOf, HistoryKeyOf(x)) == Some(x);
    assert !ViewAt(HistoryAfter(h, [y, x]), CurrentAfter(map[], reduced), k);
  }

  /** Runs over rows of the chain, from empty tables. */
  ghost predicate IsRunOver(chain: set<TokenBalance>, states: seq<Db>, attempts: seq<Attempt>) {
    IsRun(states, attempts) && states[0] == Db(map[], map[]) &&
    forall i :: 0 <= i < |attempts| ==> RowsIn(attempts[i].rows, chain)
  }

  /** After every completed export the current table is the view. */
  ghost predicate ShowsTheView(states: seq<Db>, attempts: seq<Attempt>)
    requires |states| == |attempts| + 1
  {
    forall i :: 0 <= i < |attempts| && attempts[i].completed ==> IsView(states[i + 1].history, states[i + 1].current)
  }

  ghost predicate RunsShowTheView(chain: set<TokenBalance>) {
    forall states: seq<Db>, attempts: seq<Attempt> ::
      IsRunOver(chain, states, attempts) ==> ShowsTheView(states, attempts)
  }

  lemma OneRowIsReduced(first: TokenBalance, second: TokenBalance)
    requires HistoryKeyOf(first) == HistoryKeyOf(second)
    ensures IsReduced([first, second], [first])
  {
    assert [first, second][..1] == [first] && [first][..0] == [];
    forall k ensures First([first], CurrentKeyOf, k) == Best([first, second], k) {
      assert Best([first], k) == if CurrentKeyOf(first) == k then Some(first) else None;
      assert First([], CurrentKeyOf, k) == None;
    }
  }

  /** The run of `TiesBreakRetries`: the first attempt stops after the history insert. */
  lemma TiedRun(x: TokenBalance, y: TokenBalance, chain: set<TokenBalance>)
    returns (states: seq<Db>, attempts: seq<Attempt>)
    requires x in chain && y in chain && x != y && HistoryKeyOf(x) == HistoryKeyOf(y)
    ensures IsRunOver(chain, states, attempts) && |states| == 3 && attempts[1].completed
    ensures !IsView(states[2].history, states[2].current)
  {
    var start, rows, again := Db(map[], map[]), [x, y], [y, x];
    var failed := Db(HistoryAfter(map[], rows), map[]);
    var after := Db(HistoryAfter(failed.history, again), CurrentAfter(failed.current, [y]));
    OneRowIsReduced(x, y);
    OneRowIsReduced(y, x);
    assert rows[..|rows|] == rows && [x][..0] == [];
    assert IsFailedExport(start, rows, failed) by {
      assert failed == Db(HistoryAfter(start.history, rows[..2]), CurrentAfter(start.current, [x][..0]));
    }
    assert IsCompleteExport(failed, again, after);
    TiesBreakRetries(x, y, [y]);
    states, attempts := [start, failed, after], [Attempt(rows, false), Attempt(again, true)];
  }

  /** Retries restore the view in every run exactly if key and block determine the rows
      of the chain. */
  lemma RetriesRestoreTheViewIffDetermined(chain: set<TokenBalance>)
    ensures RunsShowTheView(chain) <==> Determined(chain)
  {
    if Determined(chain) {
      forall states: seq<Db>, attempts: seq<Attempt> | IsRunOver(chain, states, attempts)
        ensures ShowsTheView(states, attempts)
      {
        forall i | 0 <= i < |attempts| && attempts[i].completed
          ensures IsView(states[i + 1].history, states[i + 1].current)
        {
          RetriesRestoreTheView(states, attempts, i + 1, chain);
        }
      }
    } else {
      var x, y :| x in chain && y in chain && HistoryKeyOf(x) == HistoryKeyOf(y) && x != y;
      var states, attempts := TiedRun(x, y, chain);
      assert !ShowsTheView(states, attempts) by { assert !IsView(states[1 + 1].history, states[1 + 1].current); }
    }
  }

  // --- The job ---

  function BalanceSortKey(b: TokenBalance): seq<int> { [b.blockNumber, b.address] }

  /** By block, and within a block by holder. */
  predicate IsEarlier(x: TokenBalance, y: TokenBalance) {
    x.blockNumber < y.blockNumber || (x.blockNumber == y.blockNumber && x.address < y.address)
  }

  lemma SortIsByBlock(s: seq<TokenBalance>)
    requires SortedBy(s, BalanceSortKey)
    ensures forall i, j :: 0 <= i < j < |s| ==> !IsEarlier(s[j], s[i])
  {
    forall i, j | 0 <= i < j < |s| ensures !IsEarlier(s[j], s[i]) {
      var p, q := BalanceSortKey(s[j]), BalanceSortKey(s[i]);
      assert p[1..] == [s[j].address] && q[1..] == [s[i].address];
      assert s[j].address < s[i].address ==> LexLess(p[1..], q[1..]);
    }
  }

  class ExportTokenBalancesJob {
    var balances: seq<TokenBalance>
    var currentBalances: seq<TokenBalance>
    const history: PgTable<HistoryKey, TokenBalance>
    const current: PgTable<CurrentKey, TokenBalance>

    ghost predicate Valid() {
      history.key == HistoryKeyOf && current.key == CurrentKeyOf
    }

    constructor (history: PgTable<HistoryKey, TokenBalance>, current: PgTable<CurrentKey, TokenBalance>)
      requires history.key == HistoryKeyOf && current.key == CurrentKeyOf
      ensures Valid() && this.history == history && this.current == current && balances == []
    {
      this.history, this.current := history, current;
      balances, currentBalances := [], [];
    }

    method Process()
      modifies this
      ensures balances == SortBy(old(balances), BalanceSortKey)
      ensures multiset(balances) == multiset(old(balances))
      ensures forall i, j :: 0 <= i < j < |balances| ==> !IsEarlier(balances[j], balances[i])
      ensures IsReduced(balances, currentBalances)
    {
      SortPermutes(balances, BalanceSortKey);
      SortSorts(balances, BalanceSortKey);
      SortIsByBlock(SortBy(balances, BalanceSortKey));
      balances := SortBy(balances, BalanceSortKey);
      currentBalances := DistinctCollectionsByGroup(balances);
    }

    /** The balances first, then the current balances; an exception ends the export. */
    method Export(brokenHistory: set<nat>, brokenCurrent: set<nat>) returns (ok: bool)
      requires Valid() && IsReduced(balances, currentBalances)
      modifies history`rows, current`rows
      ensures var before, after := Db(old(history.rows), old(current.rows)), Db(history.rows, current.rows);
        if ok then IsCompleteExport(before, balances, after) else IsFailedExport(before, balances, after)
      ensures ok <==> !BreaksAt(brokenHistory, |balances|) && !BreaksAt(brokenCurrent, |currentBalances|)
    {
      ghost var n, m;
      ghost var before := Db(history.rows, current.rows);
      assert currentBalances[..0] == [] && balances[..|balances|] == balances;
      assert currentBalances[..|currentBalances|] == currentBalances;
      ok, n := history.ExportDoNothing(balances, brokenHistory);
      if !ok {
        assert Db(history.rows, current.rows) ==
          Db(HistoryAfter(before.history, balances[..n]), CurrentAfter(before.current, currentBalances[..0]));
        return;
      }
      ok, m := current.ExportDoUpdate(currentBalances, CURRENT_CONFLICT, brokenCurrent);
      assert Db(history.rows, current.rows) ==
        Db(HistoryAfter(before.history, balances[..n]), CurrentAfter(before.current, currentBalances[..m]));
    }
  }
}
