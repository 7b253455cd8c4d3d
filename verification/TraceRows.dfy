/** `ExtractTraces`: flattening the call tree of a transaction, as a debug node
    returns it, into one row per call. */
module TraceRows {
  import opened Common

  type Path = seq<nat>

  /** The fields of a call that a row copies without looking at them. */
  datatype Payload = Payload(
    sender: Option<string>, recipient: Option<string>, input: Option<string>,
    output: Option<string>, value: Option<string>, gas: Option<string>,
    gasUsed: Option<string>, error: Option<string>)

  /** A call with the calls it made, as in the answer of the debug node. */
  datatype Call = Call(kind: string, payload: Payload, calls: seq<Call>)

  /** The block and transaction that a trace belongs to. */
  datatype Context = Context(
    blockNumber: int, blockHash: string, blockTimestamp: int, txIndex: nat, txHash: string)

  datatype Trace = Trace(
    context: Context, idSuffix: nat, payload: Payload, traceType: string, callType: string,
    subtraces: nat, traceAddress: Path, status: int, traceIndex: nat)

  /** A tree of rows; `row` is absent for a node no row was stored in. */
  datatype Tree = Tree(row: Option<Trace>, calls: seq<Tree>)

  predicate IsCallKind(kind: string) {
    kind in {"call", "callcode", "delegatecall", "staticcall"}
  }

  function TraceTypeOf(kind: string): string {
    if Lower(kind) == "selfdestruct" then "suicide"
    else if IsCallKind(Lower(kind)) then "call"
    else Lower(kind)
  }

  function CallTypeOf(kind: string): string {
    if IsCallKind(Lower(kind)) then Lower(kind) else ""
  }

  /** The row of one call; `index` calls of the transaction come before it. */
  function RowOf(ctx: Context, c: Call, address: Path, index: nat): Trace {
    Trace(ctx, index, c.payload, TraceTypeOf(c.kind), CallTypeOf(c.kind), |c.calls|, address,
          if c.payload.error == None then 1 else 0, index + 1)
  }

  // --- The flattened rows, as a specification ---

  function Size(c: Call): nat
    decreases c, |c.calls| + 1
  {
    1 + SizeOfKids(c, |c.calls|)
  }

  function SizeOfKids(c: Call, k: nat): nat
    requires k <= |c.calls|
    decreases c, k
  {
    if k == 0 then 0 else SizeOfKids(c, k - 1) + Size(c.calls[k - 1])
  }

  /** The call tree with every call replaced by its row. */
  function TreeOf(ctx: Context, c: Call, address: Path, index: nat): Tree
    decreases c, |c.calls| + 1
  {
    Tree(Some(RowOf(ctx, c, address, index)), TreesOfKids(ctx, c, |c.calls|, address, index))
  }

  function TreesOfKids(ctx: Context, c: Call, k: nat, address: Path, index: nat): (r: seq<Tree>)
    requires k <= |c.calls|
    ensures |r| == k
    decreases c, k
  {
    if k == 0 then []
    else TreesOfKids(ctx, c, k - 1, address, index) + [KidTree(ctx, c, k - 1, address, index)]
  }

  function KidTree(ctx: Context, c: Call, i: nat, address: Path, index: nat): Tree
    requires i < |c.calls|
    decreases c, i, 0
  {
    TreeOf(ctx, c.calls[i], address + [i], index + 1 + SizeOfKids(c, i))
  }

  lemma {:induction false} KidTreeAt(ctx: Context, c: Call, k: nat, address: Path, index: nat, i: nat)
    requires i < k <= |c.calls|
    ensures TreesOfKids(ctx, c, k, address, index)[i] == KidTree(ctx, c, i, address, index)
  {
    if i < k - 1 { KidTreeAt(ctx, c, k - 1, address, index, i); }
  }

  /** The rows of a tree, each node before its calls, the calls from left to right. */
  function Preorder(t: Tree): seq<Option<Trace>>
    decreases t, |t.calls| + 1
  {
    [t.row] + PreorderOfKids(t, |t.calls|)
  }

  function PreorderOfKids(t: Tree, k: nat): seq<Option<Trace>>
    requires k <= |t.calls|
    decreases t, k
  {
    if k == 0 then [] else PreorderOfKids(t, k - 1) + Preorder(t.calls[k - 1])
  }

  function Stored(rows: seq<Trace>): seq<Option<Trace>> {
    seq(|rows|, i requires 0 <= i < |rows| => Some(rows[i]))
  }

  lemma StoredAppend(a: seq<Trace>, b: seq<Trace>)
    ensures Stored(a + b) == Stored(a) + Stored(b)
  {
  }

  lemma AppendKid(result: seq<Trace>, rows: seq<Trace>, t: Tree, k: nat)
    requires k < |t.calls|
    requires Stored(result) == [t.row] + PreorderOfKids(t, k)
    requires Stored(rows) == Preorder(t.calls[k])
    ensures Stored(result + rows) == [t.row] + PreorderOfKids(t, k + 1)
  {
    StoredAppend(result, rows);
  }

  // --- The program ---

  class ExtractTraces {
    var traceIdx: nat

    constructor ()
      ensures traceIdx == 0
    {
      traceIdx := 0;
    }

    method GethTraceToTraces(blockNumber: int, blockHash: string, blockTimestamp: int,
                             transactions: seq<(string, Call)>) returns (traces: seq<Trace>)
      modifies this
      ensures Stored(traces) ==
        BlockRows(blockNumber, blockHash, blockTimestamp, transactions, |transactions|)
    {
      traces := [];
      for txIndex := 0 to |transactions|
        invariant Stored(traces) ==
          BlockRows(blockNumber, blockHash, blockTimestamp, transactions, txIndex)
      {
        traceIdx := 0;
        var ctx := Context(blockNumber, blockHash, blockTimestamp, txIndex, transactions[txIndex].0);
        var rows := IterateTransactionTrace(ctx, transactions[txIndex].1, []);
        StoredAppend(traces, rows);
        traces := traces + rows;
      }
    }

    /** Numbers the calls of `c` from the counter on, and leaves the counter
        behind the last of them. */
    method IterateTransactionTrace(ctx: Context, c: Call, address: Path) returns (result: seq<Trace>)
      modifies this
      ensures traceIdx == old(traceIdx) + Size(c)
      ensures Stored(result) == Preorder(TreeOf(ctx, c, address, old(traceIdx)))
      decreases c
    {
      var index := traceIdx;
      traceIdx := traceIdx + 1;
      var traceType := Lower(c.kind);
      var callType := "";
      if traceType == "selfdestruct" {
        traceType := "suicide";
      } else if IsCallKind(traceType) {
        callType := traceType;
        traceType := "call";
      }
      var trace := Trace(ctx, index, c.payload, traceType, callType, |c.calls|, address,
                         if c.payload.error == None then 1 else 0, traceIdx);
      result := [trace];
      ghost var t := TreeOf(ctx, c, address, index);
      assert Stored(result) == [t.row] + PreorderOfKids(t, 0);
      for callIndex := 0 to |c.calls|
        invariant traceIdx == index + 1 + SizeOfKids(c, callIndex)
        invariant Stored(result) == [t.row] + PreorderOfKids(t, callIndex)
      {
        ghost var start := traceIdx;
        var rows := IterateTransactionTrace(ctx, c.calls[callIndex], address + [callIndex]);
        KidTreeAt(ctx, c, |c.calls|, address, index, callIndex);
        AppendKid(result, rows, t, callIndex);
        result := result + rows;
      }
    }
  }

  function BlockRows(blockNumber: int, blockHash: string, blockTimestamp: int,
                     transactions: seq<(string, Call)>, k: nat): seq<Option<Trace>>
    requires k <= |transactions|
  {
    if k == 0 then []
    else
      BlockRows(blockNumber, blockHash, blockTimestamp, transactions, k - 1) +
      Preorder(TreeOf(Context(blockNumber, blockHash, blockTimestamp, k - 1, transactions[k - 1].0),
                      transactions[k - 1].1, [], 0))
  }

  // --- What the rows say about the calls ---

  predicate ValidPath(t: Tree, p: Path) {
    p == [] || (p[0] < |t.calls| && ValidPath(t.calls[p[0]], p[1..]))
  }

  function At(t: Tree, p: Path): Tree
    requires ValidPath(t, p)
  {
    if p == [] then t else At(t.calls[p[0]], p[1..])
  }

  predicate ValidCall(c: Call, p: Path) {
    p == [] || (p[0] < |c.calls| && ValidCall(c.calls[p[0]], p[1..]))
  }

  function CallAt(c: Call, p: Path): Call
    requires ValidCall(c, p)
  {
    if p == [] then c else CallAt(c.calls[p[0]], p[1..])
  }

  /** Every node is stored and carries its own path, below `address`. */
  ghost predicate Addressed(t: Tree, address: Path) {
    forall p :: ValidPath(t, p) ==> At(t, p).row.Some? && At(t, p).row.value.traceAddress == address + p
  }

  /** The row at a path describes exactly the call at that path: the tree has the
      call's shape, and every row the payload, kind and child count of its call. */
  lemma {:induction false} RowsDescribeCalls(ctx: Context, c: Call, address: Path, index: nat, p: Path)
    ensures var t := TreeOf(ctx, c, address, index);
      ValidPath(t, p) == ValidCall(c, p) &&
      (ValidPath(t, p) ==>
        var row, call := At(t, p).row, CallAt(c, p);
        row.Some? && row.value.context == ctx && row.value.traceAddress == address + p &&
        row.value.payload == call.payload && row.value.subtraces == |call.calls| &&
        row.value.traceType == TraceTypeOf(call.kind) && row.value.callType == CallTypeOf(call.kind) &&
        (row.value.status == 1 <==> call.payload.error == None) &&
        row.value.traceIndex == row.value.idSuffix + 1)
    decreases p
  {
    if p != [] && p[0] < |c.calls| {
      KidTreeAt(ctx, c, |c.calls|, address, index, p[0]);
      RowsDescribeCalls(ctx, c.calls[p[0]], address + [p[0]], index + 1 + SizeOfKids(c, p[0]), p[1..]);
      assert (address + [p[0]]) + p[1..] == address + p;
    } else {
      assert address + [] == address;
    }
  }

  /** The types of a row, by the kind of its call: a call of one of the four kinds is a
      "call" with its kind as call type, a self-destruction is a "suicide", and anything
      else keeps its kind and has no call type. */
  lemma RowTypesByKind(ctx: Context, c: Call, address: Path, index: nat, p: Path)
    requires ValidPath(TreeOf(ctx, c, address, index), p)
    ensures ValidCall(c, p) && At(TreeOf(ctx, c, address, index), p).row.Some?
    ensures var row, kind := At(TreeOf(ctx, c, address, index), p).row.value, Lower(CallAt(c, p).kind);
      && (kind in {"call", "callcode", "delegatecall", "staticcall"} ==>
           row.traceType == "call" && row.callType == kind)
      && (kind == "selfdestruct" ==> row.traceType == "suicide" && row.callType == "")
      && (kind !in {"call", "callcode", "delegatecall", "staticcall", "selfdestruct"} ==>
           row.traceType == kind && row.callType == "")
  {
    RowsDescribeCalls(ctx, c, address, index, p);
    assert |"selfdestruct"| == 12 && |"delegatecall"| == 12;
    assert |"call"| == 4 && |"callcode"| == 8 && |"staticcall"| == 10;
    assert "selfdestruct"[0] == 's' && "delegatecall"[0] == 'd';
  }

  lemma FlattenedTreeIsAddressed(ctx: Context, c: Call, index: nat)
    ensures Addressed(TreeOf(ctx, c, [], index), [])
  {
    forall p | ValidPath(TreeOf(ctx, c, [], index), p)
      ensures At(TreeOf(ctx, c, [], index), p).row.Some?
           && At(TreeOf(ctx, c, [], index), p).row.value.traceAddress == [] + p
    {
      RowsDescribeCalls(ctx, c, [], index, p);
    }
  }

  /** The stored pair of types determines the kind of call, except that a
      `suicide` row may come from either spelling of self-destruction. */
  lemma KindIsRecoverable(k: string, l: string)
    requires TraceTypeOf(k) == TraceTypeOf(l) && CallTypeOf(k) == CallTypeOf(l)
    ensures Lower(k) == Lower(l) || {Lower(k), Lower(l)} == {"selfdestruct", "suicide"}
  {
    assert |"call"| == 4 && |"suicide"| == 7 && |"selfdestruct"| == 12;
  }

  // --- Numbering ---

  /** The i-th row has index suffix `index + i` and belongs to `ctx`. */
  ghost predicate Numbered(rows: seq<Option<Trace>>, ctx: Context, index: nat) {
    forall i :: 0 <= i < |rows| ==>
      rows[i].Some? && rows[i].value.context == ctx &&
      rows[i].value.idSuffix == index + i && rows[i].value.traceIndex == index + i + 1
  }

  lemma NumberedAppend(a: seq<Option<Trace>>, b: seq<Option<Trace>>, ctx: Context, index: nat)
    requires Numbered(a, ctx, index) && Numbered(b, ctx, index + |a|)
    ensures Numbered(a + b, ctx, index)
  {
  }

  /** A transaction's rows are numbered without gap or repetition in preorder: no
      two of them share a trace id. */
  lemma {:induction false} RowsAreNumbered(ctx: Context, c: Call, address: Path, index: nat)
    ensures |Preorder(TreeOf(ctx, c, address, index))| == Size(c)
    ensures Numbered(Preorder(TreeOf(ctx, c, address, index)), ctx, index)
    decreases c, |c.calls| + 1
  {
    var t := TreeOf(ctx, c, address, index);
    KidRowsAreNumbered(ctx, c, |c.calls|, address, index, t);
    NumberedAppend([t.row], PreorderOfKids(t, |t.calls|), ctx, index);
  }

  lemma {:induction false} KidRowsAreNumbered(
    ctx: Context, c: Call, k: nat, address: Path, index: nat, t: Tree)
    requires t == TreeOf(ctx, c, address, index)
    requires k <= |c.calls| == |t.calls|
    ensures |PreorderOfKids(t, k)| == SizeOfKids(c, k)
    ensures Numbered(PreorderOfKids(t, k), ctx, index + 1)
    decreases c, k
  {
    if k > 0 {
      KidTreeAt(ctx, c, |c.calls|, address, index, k - 1);
      KidRowsAreNumbered(ctx, c, k - 1, address, index, t);
      RowsAreNumbered(ctx, c.calls[k - 1], address + [k - 1], index + 1 + SizeOfKids(c, k - 1));
      OneMoreIsNumbered(t, c, k, ctx, index + 1);
    }
  }

  lemma OneMoreIsNumbered(t: Tree, c: Call, k: nat, ctx: Context, from: nat)
    requires 0 < k <= |c.calls| == |t.calls|
    requires |PreorderOfKids(t, k - 1)| == SizeOfKids(c, k - 1) && Numbered(PreorderOfKids(t, k - 1), ctx, from)
    requires |Preorder(t.calls[k - 1])| == Size(c.calls[k - 1])
    requires Numbered(Preorder(t.calls[k - 1]), ctx, from + SizeOfKids(c, k - 1))
    ensures |PreorderOfKids(t, k)| == SizeOfKids(c, k) && Numbered(PreorderOfKids(t, k), ctx, from)
  {
    NumberedAppend(PreorderOfKids(t, k - 1), Preorder(t.calls[k - 1]), ctx, from);
  }

  /** Each transaction of a block is numbered from zero, and has its place and hash. */
  lemma TransactionsAreNumbered(number: int, hash: string, timestamp: int, transactions: seq<(string, Call)>, k: nat)
    requires k < |transactions|
    ensures var before := BlockRows(number, hash, timestamp, transactions, k);
      var rows := BlockRows(number, hash, timestamp, transactions, k + 1);
      && before <= rows && |rows| == |before| + Size(transactions[k].1)
      && Numbered(rows[|before|..], Context(number, hash, timestamp, k, transactions[k].0), 0)
  {
    RowsAreNumbered(Context(number, hash, timestamp, k, transactions[k].0), transactions[k].1, [], 0);
  }

  // --- The sort before the export ---

  datatype Block = Block(number: int, hash: string, timestamp: int, transactions: seq<(string, Call)>)

  function RowsOfBlock(b: Block): seq<Option<Trace>> {
    BlockRows(b.number, b.hash, b.timestamp, b.transactions, |b.transactions|)
  }

  /** The rows of consecutive blocks in chain order. */
  function ChainRows(blocks: seq<Block>): seq<Option<Trace>> {
    if blocks == [] then [] else ChainRows(blocks[..|blocks| - 1]) + RowsOfBlock(blocks[|blocks| - 1])
  }

  predicate ComesBefore(a: Trace, b: Trace) {
    a.context.blockNumber < b.context.blockNumber ||
    (a.context.blockNumber == b.context.blockNumber &&
     (a.context.txIndex < b.context.txIndex ||
      (a.context.txIndex == b.context.txIndex && a.traceIndex < b.traceIndex)))
  }

  /** All rows are there, and each comes before the ones behind it. */
  ghost predicate InChainOrder(rows: seq<Option<Trace>>) {
    (forall i :: 0 <= i < |rows| ==> rows[i].Some?) &&
    forall i, j :: 0 <= i < j < |rows| ==> ComesBefore(rows[i].value, rows[j].value)
  }

  lemma AppendLater(a: seq<Option<Trace>>, b: seq<Option<Trace>>)
    requires InChainOrder(a) && InChainOrder(b)
    requires forall i, j :: 0 <= i < |a| && 0 <= j < |b| ==> ComesBefore(a[i].value, b[j].value)
    ensures InChainOrder(a + b)
  {
  }

  predicate IsRowOf(row: Option<Trace>, number: int, transactions: nat) {
    row.Some? && row.value.context.blockNumber == number && row.value.context.txIndex < transactions
  }

  lemma {:induction false} BlockIsInOrder(number: int, hash: string, timestamp: int,
                                          transactions: seq<(string, Call)>, k: nat)
    requires k <= |transactions|
    ensures var rows := BlockRows(number, hash, timestamp, transactions, k);
      InChainOrder(rows) && forall i :: 0 <= i < |rows| ==> IsRowOf(rows[i], number, k)
  {
    if k > 0 {
      BlockIsInOrder(number, hash, timestamp, transactions, k - 1);
      var ctx := Context(number, hash, timestamp, k - 1, transactions[k - 1].0);
      var before := BlockRows(number, hash, timestamp, transactions, k - 1);
      var rows := Preorder(TreeOf(ctx, transactions[k - 1].1, [], 0));
      RowsAreNumbered(ctx, transactions[k - 1].1, [], 0);
      assert InChainOrder(rows);
      forall i | 0 <= i < |before| ensures IsRowOf(before[i], number, k) {
        assert IsRowOf(before[i], number, k - 1);
      }
      AppendLater(before, rows);
    }
  }

  /** The numbers of later blocks are greater. */
  predicate NumbersAscend(blocks: seq<Block>) {
    forall i, j :: 0 <= i < j < |blocks| ==> blocks[i].number < blocks[j].number
  }

  lemma {:induction false} ChainIsInOrder(blocks: seq<Block>)
    requires NumbersAscend(blocks)
    ensures InChainOrder(ChainRows(blocks))
    ensures forall i :: 0 <= i < |ChainRows(blocks)| ==>
      blocks != [] && ChainRows(blocks)[i].value.context.blockNumber <= blocks[|blocks| - 1].number
  {
    if blocks != [] {
      var init, last := blocks[..|blocks| - 1], blocks[|blocks| - 1];
      ChainIsInOrder(init);
      BlockIsInOrder(last.number, last.hash, last.timestamp, last.transactions, |last.transactions|);
      var a, b := ChainRows(init), RowsOfBlock(last);
      forall i | 0 <= i < |a| ensures a[i].value.context.blockNumber < last.number {
        assert blocks[|init| - 1].number < blocks[|blocks| - 1].number;
      }
      forall j | 0 <= j < |b| ensures b[j].value.context.blockNumber == last.number {
        assert IsRowOf(b[j], last.number, |last.transactions|);
      }
      AppendLater(a, b);
    }
  }

  function TraceSortKey(t: Trace): seq<int> {
    [t.context.blockNumber, t.context.txIndex, t.traceIndex]
  }

  lemma KeysAreCompared(a: Trace, b: Trace)
    ensures LexLess(TraceSortKey(a), TraceSortKey(b)) <==> ComesBefore(a, b)
  {
    var p, q := TraceSortKey(a)[1..], TraceSortKey(b)[1..];
    assert p == [a.context.txIndex, a.traceIndex] && q == [b.context.txIndex, b.traceIndex];
    assert p[1..] == [a.traceIndex] && q[1..] == [b.traceIndex] && p[1..][1..] == [] && q[1..][1..] == [];
    assert LexLess(p[1..], q[1..]) <==> a.traceIndex < b.traceIndex;
  }

  /** In whatever order the workers deliver the rows of any number of blocks, the sorted
      buffer has them in chain order: block by block, transaction by transaction, each in
      preorder. */
  lemma SortRestoresChainOrder(blocks: seq<Block>, rows: seq<Trace>, delivered: seq<Trace>)
    requires NumbersAscend(blocks) && Stored(rows) == ChainRows(blocks) && multiset(delivered) == multiset(rows)
    ensures SortBy(delivered, TraceSortKey) == rows
  {
    ChainIsInOrder(blocks);
    forall i, j | 0 <= i < j < |rows| ensures LexLess(TraceSortKey(rows[i]), TraceSortKey(rows[j])) {
      assert Stored(rows)[i] == Some(rows[i]) && Stored(rows)[j] == Some(rows[j]);
      KeysAreCompared(rows[i], rows[j]);
    }
    SortPermutes(delivered, TraceSortKey);
    SortSorts(delivered, TraceSortKey);
    SortedListIsUnique(SortBy(delivered, TraceSortKey), rows, TraceSortKey);
  }
}
