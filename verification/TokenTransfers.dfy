/** Token transfers, from logs to rows: extraction, the token cache, and the rows of the
    three transfer tables. */
module TokenTransfers {
  import opened Common
  import opened Grouping
  import opened Tables

  type Address = int

  const ZERO_ADDRESS: Address := 0

  datatype TokenType = ERC20 | ERC721 | ERC1155 | ERC404

  /** The decoded parts of an event; `None` where the codec could not decode it. */
  datatype Event =
    | Transfer(transfer: Option<Parties>, hasTopic1: bool, hasTopic2: bool, hasTopic3: bool)
    | Deposit(deposit: Option<Single>)
    | Withdrawal(withdrawal: Option<Single>)
    | TransferSingle(single: Option<Parties>, id: nat)
    | TransferBatch(parties: Option<Parties>, ids: seq<nat>, values: seq<nat>)
    | OtherEvent

  datatype Parties = Parties(from: Address, to: Address, value: nat)

  datatype Single = Single(wallet: Address, wad: nat)

  datatype Log = Log(
    address: Address, transactionHash: int, blockHash: int, blockNumber: int, logIndex: nat, event: Event)

  /** The fields that a transfer and its row share. */
  datatype Origin = Origin(
    transactionHash: int, blockHash: int, blockNumber: int, logIndex: nat,
    fromAddress: Address, toAddress: Address, tokenAddress: Address)

  datatype TokenTransfer = TokenTransfer(origin: Origin, tokenId: Option<nat>, value: nat, tokenType: TokenType)

  datatype Row =
    | ERC20TokenTransfer(origin: Origin, value: nat)
    | ERC721TokenTransfer(origin: Origin, tokenId: nat)
    | ERC1155TokenTransfer(origin: Origin, tokenId: nat, value: nat)

  // --- From logs to transfers ---

  function OriginOf(log: Log, from: Address, to: Address): Origin {
    Origin(log.transactionHash, log.blockHash, log.blockNumber, log.logIndex, from, to, log.address)
  }

  function Itself(id: nat): nat { id }

  /** The different ids of a batch, in the order of their first appearance. */
  function IdsOf(ids: seq<nat>): seq<nat> { KeysOf(ids, Itself) }

  function SumOf(ids: seq<nat>, values: seq<nat>, id: nat): nat
    requires |ids| == |values|
  {
    if ids == [] then 0
    else
      SumOf(ids[..|ids| - 1], values[..|ids| - 1], id) + if ids[|ids| - 1] == id then values[|ids| - 1] else 0
  }

  function BatchTransfer(log: Log, p: Parties, id: nat): TokenTransfer
    requires log.event.TransferBatch? && |log.event.ids| == |log.event.values|
  {
    TokenTransfer(OriginOf(log, p.from, p.to), Some(id), SumOf(log.event.ids, log.event.values, id), ERC1155)
  }

  function BatchTransfers(log: Log, p: Parties, order: seq<nat>): seq<TokenTransfer>
    requires log.event.TransferBatch? && |log.event.ids| == |log.event.values|
  {
    if order == [] then []
    else BatchTransfers(log, p, order[..|order| - 1]) + [BatchTransfer(log, p, order[|order| - 1])]
  }

  /** `extract_transfer_from_log`; `None` is an exception. */
  function TransfersOf(log: Log): Option<seq<TokenTransfer>> {
    match log.event
    case Transfer(p, t1, t2, t3) =>
      if p == None then None
      else
        var tokenType := if t3 || !(t1 || t2) then ERC721 else ERC20;
        Some([TokenTransfer(OriginOf(log, p.value.from, p.value.to), None, p.value.value, tokenType)])
    case Deposit(s) =>
      if s == None then Some([])
      else Some([TokenTransfer(OriginOf(log, ZERO_ADDRESS, s.value.wallet), None, s.value.wad, ERC20)])
    case Withdrawal(s) =>
      if s == None then None
      else Some([TokenTransfer(OriginOf(log, s.value.wallet, ZERO_ADDRESS), None, s.value.wad, ERC20)])
    case TransferSingle(p, id) =>
      if p == None then None
      else Some([TokenTransfer(OriginOf(log, p.value.from, p.value.to), Some(id), p.value.value, ERC1155)])
    case TransferBatch(p, ids, values) =>
      if p == None then None
      else if |ids| != |values| then Some([])
      else Some(BatchTransfers(log, p.value, IdsOf(ids)))
    case OtherEvent => Some([])
  }

  /** The ids and values of a batch, gathered in a dictionary that keeps its keys in order. */
  method HandleTransferBatch(log: Log) returns (transfers: seq<TokenTransfer>)
    requires log.event.TransferBatch? && log.event.parties.Some?
    ensures Some(transfers) == TransfersOf(log)
  {
    var p, ids, values := log.event.parties.value, log.event.ids, log.event.values;
    if |ids| != |values| { return []; }
    var order: seq<nat>, amounts: map<nat, nat> := [], map[];
    for i := 0 to |ids|
      invariant order == IdsOf(ids[..i])
      invariant forall id :: id in amounts <==> id in order
      invariant forall id: nat :: (if id in amounts then amounts[id] else 0) == SumOf(ids[..i], values[..i], id)
    {
      assert ids[..i + 1][..i] == ids[..i] && values[..i + 1][..i] == values[..i];
      var before := if ids[i] in amounts then amounts[ids[i]] else 0;
      if ids[i] !in amounts { order := order + [ids[i]]; }
      amounts := amounts[ids[i] := before + values[i]];
    }
    assert ids[..|ids|] == ids && values[..|values|] == values;
    transfers := [];
    for i := 0 to |order|
      invariant transfers == BatchTransfers(log, p, order[..i])
    {
      assert order[..i + 1][..i] == order[..i] && order[i] in amounts;
      transfers := transfers + [TokenTransfer(OriginOf(log, p.from, p.to), Some(order[i]), amounts[order[i]], ERC1155)];
    }
    assert order[..|order|] == order;
  }

  lemma IdsAreDistinct(ids: seq<nat>)
    ensures forall i, j :: 0 <= i < j < |IdsOf(ids)| ==> IdsOf(ids)[i] != IdsOf(ids)[j]
    ensures forall id :: id in IdsOf(ids) <==> id in ids
  {
    KeysAreDistinct(ids, Itself);
    forall id ensures id in IdsOf(ids) <==> id in ids {
      KeysHaveGroups(ids, Itself, id);
      GroupHas(ids, Itself, id, id);
      if GroupOf(ids, Itself, id) != [] { GroupHas(ids, Itself, id, GroupOf(ids, Itself, id)[0]); }
    }
  }

  lemma {:induction false} BatchTransferAt(log: Log, p: Parties, order: seq<nat>, i: nat)
    requires log.event.TransferBatch? && |log.event.ids| == |log.event.values| && i < |order|
    ensures |BatchTransfers(log, p, order)| == |order|
    ensures BatchTransfers(log, p, order)[i] == BatchTransfer(log, p, order[i])
  {
    if i < |order| - 1 {
      BatchTransferAt(log, p, order[..|order| - 1], i);
    } else if |order| > 1 {
      BatchTransferAt(log, p, order[..|order| - 1], 0);
    }
  }

  // --- The values of a batch ---

  function Total(values: seq<nat>): nat {
    if values == [] then 0 else Total(values[..|values| - 1]) + values[|values| - 1]
  }

  function TotalValue(transfers: seq<TokenTransfer>): nat {
    if transfers == [] then 0 else TotalValue(transfers[..|transfers| - 1]) + transfers[|transfers| - 1].value
  }

  function SumOver(order: seq<nat>, ids: seq<nat>, values: seq<nat>): nat
    requires |ids| == |values|
  {
    if order == [] then 0
    else SumOver(order[..|order| - 1], ids, values) + SumOf(ids, values, order[|order| - 1])
  }

  lemma {:induction false} SumOfAbsent(ids: seq<nat>, values: seq<nat>, id: nat)
    requires |ids| == |values| && id !in ids
    ensures SumOf(ids, values, id) == 0
  {
    if ids != [] { SumOfAbsent(ids[..|ids| - 1], values[..|ids| - 1], id); }
  }

  /** One more pair adds its value to the sum of its id and to no other. */
  lemma {:induction false} SumOverOneMore(order: seq<nat>, ids: seq<nat>, values: seq<nat>)
    requires |ids| == |values| > 0
    requires forall i, j :: 0 <= i < j < |order| ==> order[i] != order[j]
    ensures SumOver(order, ids, values) ==
      SumOver(order, ids[..|ids| - 1], values[..|ids| - 1]) + if ids[|ids| - 1] in order then values[|ids| - 1] else 0
  {
    if order != [] {
      var init, last := order[..|order| - 1], order[|order| - 1];
      SumOverOneMore(init, ids, values);
      assert order == init + [last];
    }
  }

  lemma SumOverNewId(ids: seq<nat>, values: seq<nat>)
    requires |ids| == |values| > 0 && ids[|ids| - 1] !in IdsOf(ids[..|ids| - 1])
    ensures SumOver(IdsOf(ids), ids, values) ==
      SumOver(IdsOf(ids[..|ids| - 1]), ids, values) + values[|values| - 1]
  {
    var init, id := ids[..|ids| - 1], ids[|ids| - 1];
    var order := IdsOf(ids);
    assert order[..|order| - 1] == IdsOf(init) && order[|order| - 1] == id;
    IdsAreDistinct(init);
    SumOfAbsent(init, values[..|ids| - 1], id);
  }

  lemma {:induction false} SumOverAll(ids: seq<nat>, values: seq<nat>)
    requires |ids| == |values|
    ensures SumOver(IdsOf(ids), ids, values) == Total(values)
  {
    if ids != [] {
      var init := ids[..|ids| - 1];
      SumOverAll(init, values[..|ids| - 1]);
      IdsAreDistinct(init);
      SumOverOneMore(IdsOf(init), ids, values);
      if ids[|ids| - 1] !in IdsOf(init) { SumOverNewId(ids, values); }
    }
  }

  lemma {:induction false} TotalValueIsSumOver(log: Log, p: Parties, order: seq<nat>)
    requires log.event.TransferBatch? && |log.event.ids| == |log.event.values|
    ensures TotalValue(BatchTransfers(log, p, order)) == SumOver(order, log.event.ids, log.event.values)
  {
    if order != [] {
      TotalValueIsSumOver(log, p, order[..|order| - 1]);
      var all := BatchTransfers(log, p, order);
      assert all[..|all| - 1] == BatchTransfers(log, p, order[..|order| - 1]);
    }
  }

  /** EIP-1155: the transfers of a batch together move what the batch moves. */
  lemma BatchTotalIsConserved(log: Log)
    requires log.event.TransferBatch? && log.event.parties.Some? && |log.event.ids| == |log.event.values|
    ensures TotalValue(TransfersOf(log).value) == Total(log.event.values)
  {
    SumOverAll(log.event.ids, log.event.values);
    TotalValueIsSumOver(log, log.event.parties.value, IdsOf(log.event.ids));
  }

  /** Each id that a batch names has one transfer, of the sum of the values given for it,
      and there are no others. */
  lemma BatchHasEachIdOnce(log: Log, id: nat)
    requires log.event.TransferBatch? && log.event.parties.Some? && |log.event.ids| == |log.event.values|
    ensures var t := BatchTransfer(log, log.event.parties.value, id);
      multiset(TransfersOf(log).value)[t] == (if id in log.event.ids then 1 else 0)
    ensures forall t :: t in TransfersOf(log).value ==>
      t.tokenId.Some? && t == BatchTransfer(log, log.event.parties.value, t.tokenId.value)
  {
    IdsAreDistinct(log.event.ids);
    BatchTransfersCount(log, log.event.parties.value, IdsOf(log.event.ids), id);
  }

  lemma {:induction false} BatchTransfersCount(log: Log, p: Parties, order: seq<nat>, id: nat)
    requires log.event.TransferBatch? && |log.event.ids| == |log.event.values|
    requires forall i, j :: 0 <= i < j < |order| ==> order[i] != order[j]
    ensures multiset(BatchTransfers(log, p, order))[BatchTransfer(log, p, id)] == (if id in order then 1 else 0)
    ensures forall t :: t in BatchTransfers(log, p, order) ==>
      t.tokenId.Some? && t == BatchTransfer(log, p, t.tokenId.value) && t.tokenId.value in order
  {
    if order != [] {
      var init, last := order[..|order| - 1], order[|order| - 1];
      BatchTransfersCount(log, p, init, id);
      assert order == init + [last];
      assert BatchTransfer(log, p, last) == BatchTransfer(log, p, id) <==> last == id;
    }
  }

  // --- What a log does to an account ---

  function Flow(from: Address, to: Address, value: nat, a: Address): int {
    (if a == to then value else 0) - (if a == from then value else 0)
  }

  /** What an account gains by an event. Wrapping mints from the zero address and
      unwrapping burns to it; a batch moves all its values. */
  function Gain(log: Log, a: Address): int {
    match log.event
    case Transfer(Some(p), _, _, _) => Flow(p.from, p.to, p.value, a)
    case Deposit(Some(s)) => Flow(ZERO_ADDRESS, s.wallet, s.wad, a)
    case Withdrawal(Some(s)) => Flow(s.wallet, ZERO_ADDRESS, s.wad, a)
    case TransferSingle(Some(p), _) => Flow(p.from, p.to, p.value, a)
    case TransferBatch(Some(p), ids, values) => if |ids| == |values| then Flow(p.from, p.to, Total(values), a) else 0
    case _ => 0
  }

  function GainOf(transfers: seq<TokenTransfer>, a: Address): int {
    if transfers == [] then 0
    else
      var last := transfers[|transfers| - 1];
      GainOf(transfers[..|transfers| - 1], a) + Flow(last.origin.fromAddress, last.origin.toAddress, last.value, a)
  }

  lemma {:induction false} BatchGain(log: Log, p: Parties, order: seq<nat>, a: Address)
    requires log.event.TransferBatch? && |log.event.ids| == |log.event.values|
    ensures GainOf(BatchTransfers(log, p, order), a) == Flow(p.from, p.to, TotalValue(BatchTransfers(log, p, order)), a)
  {
    if order != [] {
      var init, all := order[..|order| - 1], BatchTransfers(log, p, order);
      BatchGain(log, p, init, a);
      assert all[..|all| - 1] == BatchTransfers(log, p, init);
    }
  }

  lemma GainOfOne(t: TokenTransfer, a: Address)
    ensures GainOf([t], a) == Flow(t.origin.fromAddress, t.origin.toAddress, t.value, a)
  {
    assert [t][..0] == [];
  }

  /** The transfers of a log give every account what the event gives it. */
  lemma TransfersDoWhatTheEventDoes(log: Log, a: Address)
    requires TransfersOf(log).Some?
    ensures GainOf(TransfersOf(log).value, a) == Gain(log, a)
  {
    var transfers := TransfersOf(log).value;
    if log.event.TransferBatch? {
      if |log.event.ids| == |log.event.values| {
        BatchTotalIsConserved(log);
        BatchGain(log, log.event.parties.value, IdsOf(log.event.ids), a);
      }
    } else if transfers != [] {
      GainOfOne(transfers[0], a);
    }
  }

  // --- All logs of a run ---

  function Extracted(logs: seq<Log>): Option<seq<TokenTransfer>> {
    if logs == [] then Some([])
    else
      var before, last := Extracted(logs[..|logs| - 1]), TransfersOf(logs[|logs| - 1]);
      if before.Some? && last.Some? then Some(before.value + last.value) else None
  }

  /** Where a log stands in the chain; with the token id, what identifies a transfer. */
  datatype Position = Position(transactionHash: int, blockHash: int, logIndex: nat)

  datatype TransferKey = TransferKey(position: Position, tokenId: Option<nat>)

  function PositionOf(log: Log): Position { Position(log.transactionHash, log.blockHash, log.logIndex) }

  function OriginPosition(o: Origin): Position { Position(o.transactionHash, o.blockHash, o.logIndex) }

  function TransferKeyOf(t: TokenTransfer): TransferKey { TransferKey(OriginPosition(t.origin), t.tokenId) }

  predicate ComesFrom(t: TokenTransfer, log: Log) {
    OriginPosition(t.origin) == PositionOf(log) && t.origin.blockNumber == log.blockNumber &&
    t.origin.tokenAddress == log.address &&
    (t.tokenId.Some? ==> t.tokenType == ERC1155) && (t.tokenType == ERC1155 ==> t.tokenId.Some?)
  }

  lemma LogGivesDistinctTransfers(log: Log)
    requires TransfersOf(log).Some?
    ensures KeysDiffer(TransfersOf(log).value, TransferKeyOf)
    ensures forall t :: t in TransfersOf(log).value ==> ComesFrom(t, log)
  {
    if log.event.TransferBatch? && |log.event.ids| == |log.event.values| {
      var p, order := log.event.parties.value, IdsOf(log.event.ids);
      IdsAreDistinct(log.event.ids);
      if order != [] { BatchTransferAt(log, p, order, 0); }
      forall i | 0 <= i < |order| ensures BatchTransfers(log, p, order)[i] == BatchTransfer(log, p, order[i]) {
        BatchTransferAt(log, p, order, i);
      }
    }
  }

  lemma {:induction false} ExtractedComeFromLogs(logs: seq<Log>, t: TokenTransfer)
    requires Extracted(logs).Some? && t in Extracted(logs).value
    ensures exists i :: 0 <= i < |logs| && ComesFrom(t, logs[i])
  {
    var init, last := logs[..|logs| - 1], logs[|logs| - 1];
    if t in Extracted(init).value {
      ExtractedComeFromLogs(init, t);
      var i :| 0 <= i < |init| && ComesFrom(t, init[i]);
      assert ComesFrom(t, logs[i]);
    } else {
      LogGivesDistinctTransfers(last);
      assert ComesFrom(t, logs[|logs| - 1]);
    }
  }

  /** Logs at different places give transfers with different keys. */
  lemma {:induction false} ExtractedAreDistinct(logs: seq<Log>)
    requires Extracted(logs).Some? && KeysDiffer(logs, PositionOf)
    ensures KeysDiffer(Extracted(logs).value, TransferKeyOf)
  {
    if logs != [] {
      var init, last := logs[..|logs| - 1], logs[|logs| - 1];
      ExtractedAreDistinct(init);
      LogGivesDistinctTransfers(last);
      var a, b := Extracted(init).value, TransfersOf(last).value;
      forall i, j | 0 <= i < |a| && 0 <= j < |b| ensures TransferKeyOf(a[i]) != TransferKeyOf(b[j]) {
        ExtractedComeFromLogs(init, a[i]);
        var k :| 0 <= k < |init| && ComesFrom(a[i], init[k]);
        assert init[k] == logs[k] && b[j] in b;
        assert PositionOf(logs[k]) != PositionOf(logs[|logs| - 1]);
      }
      KeysDifferAppend(a, b, TransferKeyOf);
    }
  }

  lemma KeysDifferAppend<K, R>(a: seq<R>, b: seq<R>, key: R -> K)
    requires KeysDiffer(a, key) && KeysDiffer(b, key)
    requires forall i, j :: 0 <= i < |a| && 0 <= j < |b| ==> key(a[i]) != key(b[j])
    ensures KeysDiffer(a + b, key)
  {
  }

  function Without<R>(s: seq<R>, j: nat): seq<R>
    requires j < |s|
  {
    s[..j] + s[j + 1..]
  }

  lemma WithoutDropsOne<R>(s: seq<R>, j: nat)
    requires j < |s|
    ensures multiset(Without(s, j)) == multiset(s) - multiset{s[j]}
  {
    assert s == s[..j] + [s[j]] + s[j + 1..];
  }

  lemma WithoutDiffers<K, R>(s: seq<R>, j: nat, key: R -> K)
    requires j < |s| && KeysDiffer(s, key)
    ensures KeysDiffer(Without(s, j), key)
    ensures forall x :: x in Without(s, j) ==> key(x) != key(s[j])
  {
    forall i | 0 <= i < |Without(s, j)| ensures Without(s, j)[i] == s[if i < j then i else i + 1] {}
  }

  /** The order does not matter. */
  lemma {:induction false} KeysDifferPermuted<K, R>(a: seq<R>, b: seq<R>, key: R -> K)
    requires multiset(a) == multiset(b) && KeysDiffer(b, key)
    ensures KeysDiffer(a, key)
    decreases |a|
  {
    if a != [] {
      var init, last := a[..|a| - 1], a[|a| - 1];
      assert a == init + [last];
      assert last in multiset(b);
      var j :| 0 <= j < |b| && b[j] == last;
      WithoutDropsOne(b, j);
      WithoutDiffers(b, j, key);
      KeysDifferPermuted(init, Without(b, j), key);
      forall x | x in init ensures key(x) != key(last) {
        assert x in multiset(Without(b, j));
      }
      LastDiffers(a, key);
    }
  }

  lemma LastDiffers<K, R>(a: seq<R>, key: R -> K)
    requires a != [] && KeysDiffer(a[..|a| - 1], key)
    requires forall x :: x in a[..|a| - 1] ==> key(x) != key(a[|a| - 1])
    ensures KeysDiffer(a, key)
  {
    var init := a[..|a| - 1];
    forall i | 0 <= i < |init| ensures a[i] == init[i] {}
  }

  /** An event of a kind that the job reads, whose parts the codec could not decode. A
      deposit that cannot be decoded is skipped instead. */
  predicate IsUndecodable(e: Event) {
    (e.Transfer? && e.transfer == None) || (e.Withdrawal? && e.withdrawal == None) ||
    (e.TransferSingle? && e.single == None) || (e.TransferBatch? && e.parties == None)
  }

  /** Extraction fails exactly on such an event. */
  lemma {:induction false} ExtractionFailsIff(logs: seq<Log>)
    ensures Extracted(logs) == None <==> exists i :: 0 <= i < |logs| && IsUndecodable(logs[i].event)
  {
    if logs != [] {
      var init := logs[..|logs| - 1];
      ExtractionFailsIff(init);
      assert forall i :: 0 <= i < |init| ==> init[i] == logs[i];
      assert IsUndecodable(logs[|logs| - 1].event) <==> TransfersOf(logs[|logs| - 1]) == None;
    }
  }

  /** A single transfer has its id and value; one of a plain event has no id, and the type
      ERC721 if it has a third topic or no topics at all. */
  lemma SingleEventsGiveOne(log: Log, ts: seq<TokenTransfer>)
    requires TransfersOf(log) == Some(ts)
    ensures log.event.TransferSingle? ==>
      |ts| == 1 && ts[0].tokenId == Some(log.event.id) && ts[0].value == log.event.single.value.value
    ensures log.event.Transfer? ==>
      && |ts| == 1 && ts[0].tokenId == None && ts[0].value == log.event.transfer.value.value
      && ts[0].tokenType in {ERC20, ERC721}
      && (ts[0].tokenType == ERC721 <==>
           log.event.hasTopic3 || (!log.event.hasTopic1 && !log.event.hasTopic2 && !log.event.hasTopic3))
    ensures (log.event.Deposit? && log.event.deposit.Some?) || log.event.Withdrawal? ==>
      |ts| == 1 && ts[0].tokenId == None && ts[0].tokenType == ERC20
  {
  }

  // --- Tokens and rows ---

  datatype Token = Token(tokenType: TokenType, blockNumber: int)

  /** `token_dict`: for each address, from the first transfer with the greatest block. */
  function TokensOf(transfers: seq<TokenTransfer>): map<Address, Token> {
    if transfers == [] then map[]
    else
      var before, t := TokensOf(transfers[..|transfers| - 1]), transfers[|transfers| - 1];
      var a := t.origin.tokenAddress;
      if a !in before || t.origin.blockNumber > before[a].blockNumber
      then before[a := Token(t.tokenType, t.origin.blockNumber)]
      else before
  }

  lemma {:induction false} TokensOfHas(transfers: seq<TokenTransfer>, a: Address)
    ensures a in TokensOf(transfers) <==> exists t :: t in transfers && t.origin.tokenAddress == a
  {
    if transfers != [] {
      var init, last := transfers[..|transfers| - 1], transfers[|transfers| - 1];
      TokensOfHas(init, a);
      assert transfers == init + [last];
    }
  }

  /** Transfer `i` is the first of those of its token with the greatest block. */
  predicate IsNewest(transfers: seq<TokenTransfer>, a: Address, i: nat) {
    i < |transfers| && transfers[i].origin.tokenAddress == a &&
    forall j :: 0 <= j < |transfers| && transfers[j].origin.tokenAddress == a ==>
      transfers[j].origin.blockNumber <= transfers[i].origin.blockNumber &&
      (j < i ==> transfers[j].origin.blockNumber < transfers[i].origin.blockNumber)
  }

  /** The token of an address is described by that transfer. */
  lemma {:induction false} TokenIsNewest(transfers: seq<TokenTransfer>, a: Address) returns (i: nat)
    requires a in TokensOf(transfers)
    ensures IsNewest(transfers, a, i)
    ensures TokensOf(transfers)[a] == Token(transfers[i].tokenType, transfers[i].origin.blockNumber)
  {
    var init, n := transfers[..|transfers| - 1], |transfers| - 1;
    assert forall j :: 0 <= j < n ==> init[j] == transfers[j];
    TokensOfHas(init, a);
    if a in TokensOf(init) {
      i := TokenIsNewest(init, a);
      if transfers[n].origin.tokenAddress == a && transfers[n].origin.blockNumber > TokensOf(init)[a].blockNumber {
        i := n;
      }
    } else {
      i := n;
    }
  }

  /** What the contract answers to `tokenURI(1)`, `ownerOf(1)` and `decimals()`. */
  datatype Answers = Answers(hasTokenUri: bool, hasOwner: bool, hasDecimals: bool)

  function CheckedType(t: TokenType, a: Answers): TokenType {
    if t == ERC1155 then ERC1155
    else if a.hasTokenUri || a.hasOwner || !a.hasDecimals then ERC721
    else ERC20
  }

  /** The cache after the tokens it did not know have been looked up. */
  function CacheAfter(cache: map<Address, TokenType>, tokens: map<Address, Token>, answers: Address -> Answers)
    : map<Address, TokenType>
  {
    map a | a in cache.Keys + tokens.Keys ::
      if a in cache then cache[a] else CheckedType(tokens[a].tokenType, answers(a))
  }

  /** The cache forgets nothing, and learns of a new token: an ERC1155 token is taken as
      such, any other is ERC20 exactly if its contract has decimals and answers neither
      question about token 1, and ERC721 if not. */
  lemma CacheLearns(cache: map<Address, TokenType>, tokens: map<Address, Token>, answers: Address -> Answers,
                    a: Address)
    ensures var after := CacheAfter(cache, tokens, answers);
      && (a in after <==> a in cache || a in tokens)
      && (a in cache ==> after[a] == cache[a])
      && (a !in cache && a in tokens ==>
           && (after[a] == ERC1155 <==> tokens[a].tokenType == ERC1155)
           && (after[a] == ERC20 <==> tokens[a].tokenType != ERC1155 && answers(a) == Answers(false, false, true))
           && after[a] != ERC404)
  {
  }

  /** `to_specific_transfer`; `None` is an exception. */
  function Specific(t: TokenTransfer): Option<Row> {
    match t.tokenType
    case ERC20 => Some(ERC20TokenTransfer(t.origin, t.value))
    case ERC721 => Some(ERC721TokenTransfer(t.origin, t.value))
    case ERC1155 =>
      if t.tokenId.Some? then Some(ERC1155TokenTransfer(t.origin, t.tokenId.value, t.value))
      else Some(ERC20TokenTransfer(t.origin, t.value))
    case ERC404 => None
  }

  predicate IsCached(cache: map<Address, TokenType>, transfers: seq<TokenTransfer>) {
    forall i :: 0 <= i < |transfers| ==> transfers[i].origin.tokenAddress in cache
  }

  /** The row of a transfer; without a token id, the cache decides on its type. */
  function RowOf(cache: map<Address, TokenType>, t: TokenTransfer): Option<Row>
    requires t.origin.tokenAddress in cache
  {
    Specific(if t.tokenId == None then t.(tokenType := cache[t.origin.tokenAddress]) else t)
  }

  /** The rows of the transfers, or `None` if one of them has no row. */
  function RowsOf(cache: map<Address, TokenType>, transfers: seq<TokenTransfer>): Option<seq<Row>>
    requires IsCached(cache, transfers)
  {
    if transfers == [] then Some([])
    else
      var before, last := RowsOf(cache, transfers[..|transfers| - 1]), RowOf(cache, transfers[|transfers| - 1]);
      if before.Some? && last.Some? then Some(before.value + [last.value]) else None
  }

  /** The three tables side by side, with their primary keys. */
  datatype Table = ERC20Table | ERC721Table | ERC1155Table

  datatype PrimaryKey = PrimaryKey(table: Table, position: Position, tokenId: Option<nat>)

  function PrimaryKeyOf(r: Row): PrimaryKey {
    match r
    case ERC20TokenTransfer(o, _) => PrimaryKey(ERC20Table, OriginPosition(o), None)
    case ERC721TokenTransfer(o, _) => PrimaryKey(ERC721Table, OriginPosition(o), None)
    case ERC1155TokenTransfer(o, id, _) => PrimaryKey(ERC1155Table, OriginPosition(o), Some(id))
  }

  /** Rows are told apart by table, transaction, block and log index, and by the token id
      in the ERC1155 table only. */
  lemma PrimaryKeysIdentify(r: Row, q: Row)
    ensures PrimaryKeyOf(r) == PrimaryKeyOf(q) <==>
      && (r.ERC20TokenTransfer? <==> q.ERC20TokenTransfer?) && (r.ERC721TokenTransfer? <==> q.ERC721TokenTransfer?)
      && r.origin.transactionHash == q.origin.transactionHash && r.origin.blockHash == q.origin.blockHash
      && r.origin.logIndex == q.origin.logIndex
      && (r.ERC1155TokenTransfer? && q.ERC1155TokenTransfer? ==> r.tokenId == q.tokenId)
  {
  }

  lemma {:induction false} RowAt(cache: map<Address, TokenType>, transfers: seq<TokenTransfer>, i: nat)
    requires IsCached(cache, transfers) && RowsOf(cache, transfers).Some? && i < |transfers|
    ensures |RowsOf(cache, transfers).value| == |transfers|
    ensures Some(RowsOf(cache, transfers).value[i]) == RowOf(cache, transfers[i])
  {
    var init := transfers[..|transfers| - 1];
    if i < |init| {
      RowAt(cache, init, i);
    } else if init != [] {
      RowAt(cache, init, 0);
    }
  }

  /** Rows lose nothing that tells two transfers apart. */
  lemma RowsHaveDistinctKeys(cache: map<Address, TokenType>, transfers: seq<TokenTransfer>)
    requires IsCached(cache, transfers) && RowsOf(cache, transfers).Some? && KeysDiffer(transfers, TransferKeyOf)
    requires forall i :: 0 <= i < |transfers| ==> transfers[i].tokenId.Some? ==> transfers[i].tokenType == ERC1155
    ensures KeysDiffer(RowsOf(cache, transfers).value, PrimaryKeyOf)
  {
    var rows := RowsOf(cache, transfers).value;
    if transfers != [] { RowAt(cache, transfers, 0); }
    forall i, j | 0 <= i < j < |rows| ensures PrimaryKeyOf(rows[i]) != PrimaryKeyOf(rows[j]) {
      RowAt(cache, transfers, i);
      RowAt(cache, transfers, j);
      assert TransferKeyOf(transfers[i]) != TransferKeyOf(transfers[j]);
    }
  }

  /** Do-nothing inserts of rows with different keys lose none: each row is stored, or its
      key was there before. */
  lemma InsertsLoseNothing(table: map<PrimaryKey, Row>, rows: seq<Row>, i: nat)
    requires KeysDiffer(rows, PrimaryKeyOf) && i < |rows|
    ensures var after, k := InsertAll(table, PrimaryKeyOf, rows), PrimaryKeyOf(rows[i]);
      k in after && after[k] == if k in table then table[k] else rows[i]
  {
    InsertAllAt(table, PrimaryKeyOf, rows, PrimaryKeyOf(rows[i]));
    FirstIsThere(rows, PrimaryKeyOf, PrimaryKeyOf(rows[i]));
  }

  class ExportTokensAndTransfersJob {
    var tokens: map<Address, TokenType>
    var tokenTransfers: seq<TokenTransfer>
    var rows: seq<Row>

    constructor (tokens: map<Address, TokenType>)
      ensures this.tokens == tokens && tokenTransfers == [] && rows == []
    {
      this.tokens, tokenTransfers, rows := tokens, [], [];
    }

    method ExtractTransferFromLog(log: Log) returns (transfers: Option<seq<TokenTransfer>>)
      ensures transfers == TransfersOf(log)
    {
      if log.event.TransferBatch? && log.event.parties.Some? {
        var batch := HandleTransferBatch(log);
        transfers := Some(batch);
      } else {
        transfers := TransfersOf(log);
      }
    }

    method Extract(logs: seq<Log>) returns (transfers: Option<seq<TokenTransfer>>)
      ensures transfers == Extracted(logs)
    {
      transfers := Some([]);
      for i := 0 to |logs|
        invariant transfers == Extracted(logs[..i])
      {
        assert logs[..i + 1][..i] == logs[..i];
        var more := ExtractTransferFromLog(logs[i]);
        transfers := if transfers.Some? && more.Some? then Some(transfers.value + more.value) else None;
      }
      assert logs[..|logs|] == logs;
    }

    method CollectTokens() returns (tokenDict: map<Address, Token>)
      ensures tokenDict == TokensOf(tokenTransfers)
    {
      tokenDict := map[];
      for i := 0 to |tokenTransfers|
        invariant tokenDict == TokensOf(tokenTransfers[..i])
      {
        var t := tokenTransfers[i];
        assert tokenTransfers[..i + 1][..i] == tokenTransfers[..i];
        if t.origin.tokenAddress !in tokenDict || t.origin.blockNumber > tokenDict[t.origin.tokenAddress].blockNumber {
          tokenDict := tokenDict[t.origin.tokenAddress := Token(t.tokenType, t.origin.blockNumber)];
        }
      }
      assert tokenTransfers[..|tokenTransfers|] == tokenTransfers;
    }

    /** Types the transfers in place and buffers their rows. The lookup in the cache is a
        plain subscript: that it cannot fail is the precondition. */
    method GenerateTokenTransfers() returns (ok: bool)
      requires IsCached(tokens, tokenTransfers) && rows == []
      modifies this`tokenTransfers, this`rows
      ensures ok <==> RowsOf(tokens, old(tokenTransfers)).Some?
      ensures ok ==> rows == RowsOf(tokens, old(tokenTransfers)).value
    {
      ghost var before := tokenTransfers;
      for i := 0 to |tokenTransfers|
        invariant |tokenTransfers| == |before| && tokenTransfers[i..] == before[i..]
        invariant IsCached(tokens, before[..i]) && RowsOf(tokens, before[..i]) == Some(rows)
      {
        assert before[..i + 1][..i] == before[..i] && tokenTransfers[i] == tokenTransfers[i..][0] == before[i];
        if tokenTransfers[i].tokenId == None {
          var tokenType := tokens[tokenTransfers[i].origin.tokenAddress];
          tokenTransfers := tokenTransfers[i := tokenTransfers[i].(tokenType := tokenType)];
        }
        var row := Specific(tokenTransfers[i]);
        if row == None {
          NoRowNoRows(tokens, before, i);
          return false;
        }
        rows := rows + [row.value];
        assert tokenTransfers[i + 1..] == tokenTransfers[i..][1..];
      }
      assert before[..|before|] == before;
      ok := true;
    }

    /** One run. `arrivals` are the extracted transfers in the order in which the workers
        buffer them, `answers` what the contracts say; `infoOk` and `supplyOk` are false if
        the node refuses the token details or the total supplies. The cache is filled
        before the supplies are asked for, and stays filled if the run then fails. */
    method Collect(logs: seq<Log>, arrivals: seq<TokenTransfer>, answers: Address -> Answers, infoOk: bool,
                   supplyOk: bool) returns (ok: bool)
      requires tokenTransfers == [] && rows == []
      requires Extracted(logs).Some? ==> multiset(arrivals) == multiset(Extracted(logs).value)
      modifies this
      ensures tokens == if Extracted(logs).Some? && infoOk
        then CacheAfter(old(tokens), TokensOf(arrivals), answers)
        else old(tokens)
      ensures ok ==> Extracted(logs).Some? && infoOk && supplyOk
      ensures Extracted(logs).Some? && infoOk ==> IsCached(tokens, arrivals)
      ensures Extracted(logs).Some? && infoOk && supplyOk ==> (ok <==> RowsOf(tokens, arrivals).Some?)
      ensures ok ==> Some(rows) == RowsOf(tokens, arrivals)
    {
      ok := false;
      var extracted := Extract(logs);
      if extracted == None { return; }
      tokenTransfers := arrivals;
      var tokenDict := CollectTokens();
      EveryTokenIsCached(tokens, arrivals, answers);
      if !infoOk { return; }
      tokens := CacheAfter(tokens, tokenDict, answers);
      if !supplyOk { return; }
      ok := GenerateTokenTransfers();
    }
  }

  /** Every transfer finds its token: the cache has it, or it has just been added. */
  lemma EveryTokenIsCached(cache: map<Address, TokenType>, transfers: seq<TokenTransfer>, answers: Address -> Answers)
    ensures IsCached(CacheAfter(cache, TokensOf(transfers), answers), transfers)
  {
    forall i | 0 <= i < |transfers| ensures transfers[i].origin.tokenAddress in TokensOf(transfers) {
      TokensOfHas(transfers, transfers[i].origin.tokenAddress);
    }
  }

  lemma {:induction false} NoRowNoRows(cache: map<Address, TokenType>, transfers: seq<TokenTransfer>, i: nat)
    requires IsCached(cache, transfers) && i < |transfers| && RowOf(cache, transfers[i]) == None
    ensures RowsOf(cache, transfers) == None
  {
    if i < |transfers| - 1 { NoRowNoRows(cache, transfers[..|transfers| - 1], i); }
  }

  // --- What the rows say ---

  /** A row holds what its transfer holds, in the table of its token: one with an id goes
      to the ERC1155 table, one without goes by the cached type of its token, and the
      value of an ERC721 transfer is its token id. */
  lemma RowsKeepTheTransfers(cache: map<Address, TokenType>, transfers: seq<TokenTransfer>, i: nat)
    requires IsCached(cache, transfers) && RowsOf(cache, transfers).Some? && i < |transfers|
    requires transfers[i].tokenId.Some? ==> transfers[i].tokenType == ERC1155
    ensures |RowsOf(cache, transfers).value| == |transfers|
    ensures var t, row := transfers[i], RowsOf(cache, transfers).value[i];
      var cached := cache[t.origin.tokenAddress];
      && row.origin == t.origin
      && (t.tokenId.Some? ==>
           row.ERC1155TokenTransfer? && row.tokenId == t.tokenId.value && row.value == t.value)
      && (t.tokenId == None && cached in {ERC20, ERC1155} ==> row.ERC20TokenTransfer? && row.value == t.value)
      && (t.tokenId == None && cached == ERC721 ==> row.ERC721TokenTransfer? && row.tokenId == t.value)
      && (t.tokenId == None ==> cached != ERC404)
  {
    RowAt(cache, transfers, i);
  }

  /** There are rows exactly if no transfer without an id belongs to a token whose type
      has no transfers. */
  lemma {:induction false} RowsExistIff(cache: map<Address, TokenType>, transfers: seq<TokenTransfer>)
    requires IsCached(cache, transfers)
    requires forall i :: 0 <= i < |transfers| ==> transfers[i].tokenId.Some? ==> transfers[i].tokenType == ERC1155
    ensures RowsOf(cache, transfers).Some? <==> forall i :: 0 <= i < |transfers| ==>
      transfers[i].tokenId == None ==> cache[transfers[i].origin.tokenAddress] != ERC404
  {
    if transfers != [] {
      var init := transfers[..|transfers| - 1];
      assert forall i :: 0 <= i < |init| ==> init[i] == transfers[i];
      RowsExistIff(cache, init);
    }
  }

  /** The token of the log is not an ERC721 collection, as far as the log goes. */
  predicate IsFungible(cache: map<Address, TokenType>, log: Log) {
    log.event.TransferSingle? || log.event.TransferBatch? || log.address !in cache || cache[log.address] != ERC721
  }

  /** What an account gains by the fungible transfers that logs report. */
  function GainOfLogs(cache: map<Address, TokenType>, logs: seq<Log>, a: Address): int {
    if logs == [] then 0
    else
      var last := logs[|logs| - 1];
      GainOfLogs(cache, logs[..|logs| - 1], a) + if IsFungible(cache, last) then Gain(last, a) else 0
  }

  /** What an account gains by a row of one of the two tables that have values, and by
      several. */
  function GainOfRow(row: Row, a: Address): int {
    if row.ERC721TokenTransfer? then 0 else Flow(row.origin.fromAddress, row.origin.toAddress, row.value, a)
  }

  function GainOfRows(rows: seq<Row>, a: Address): int {
    if rows == [] then 0 else GainOfRows(rows[..|rows| - 1], a) + GainOfRow(rows[|rows| - 1], a)
  }

  /** The same of one transfer, and of several. */
  function GainOfTransfer(cache: map<Address, TokenType>, t: TokenTransfer, a: Address): int
    requires t.origin.tokenAddress in cache
  {
    if t.tokenId == None && cache[t.origin.tokenAddress] == ERC721 then 0
    else Flow(t.origin.fromAddress, t.origin.toAddress, t.value, a)
  }

  function GainOfTransfers(cache: map<Address, TokenType>, transfers: seq<TokenTransfer>, a: Address): int
    requires IsCached(cache, transfers)
  {
    if transfers == [] then 0
    else
      GainOfTransfers(cache, transfers[..|transfers| - 1], a) +
      GainOfTransfer(cache, transfers[|transfers| - 1], a)
  }

  lemma RowGainsAsTransfer(cache: map<Address, TokenType>, t: TokenTransfer, a: Address)
    requires t.origin.tokenAddress in cache && RowOf(cache, t).Some?
    requires t.tokenId.Some? ==> t.tokenType == ERC1155
    ensures GainOfRow(RowOf(cache, t).value, a) == GainOfTransfer(cache, t, a)
  {
  }

  lemma RowsOfUnfolds(cache: map<Address, TokenType>, transfers: seq<TokenTransfer>)
    requires IsCached(cache, transfers) && RowsOf(cache, transfers).Some? && transfers != []
    ensures var init, last := transfers[..|transfers| - 1], transfers[|transfers| - 1];
      var rows := RowsOf(cache, transfers).value;
      && IsCached(cache, init) && RowsOf(cache, init).Some? && RowOf(cache, last).Some?
      && rows != [] && rows[..|rows| - 1] == RowsOf(cache, init).value && rows[|rows| - 1] == RowOf(cache, last).value
  {
  }

  lemma {:induction false} RowsGainAsTransfers(cache: map<Address, TokenType>, transfers: seq<TokenTransfer>,
                                               a: Address)
    requires IsCached(cache, transfers) && RowsOf(cache, transfers).Some?
    requires forall i :: 0 <= i < |transfers| ==> transfers[i].tokenId.Some? ==> transfers[i].tokenType == ERC1155
    ensures GainOfRows(RowsOf(cache, transfers).value, a) == GainOfTransfers(cache, transfers, a)
  {
    if transfers != [] {
      var init := transfers[..|transfers| - 1];
      assert forall i :: 0 <= i < |init| ==> init[i] == transfers[i];
      RowsOfUnfolds(cache, transfers);
      RowsGainAsTransfers(cache, init, a);
      RowGainsAsTransfer(cache, transfers[|transfers| - 1], a);
    }
  }

  lemma {:induction false} GainsAppend(cache: map<Address, TokenType>, x: seq<TokenTransfer>, y: seq<TokenTransfer>,
                                       a: Address)
    requires IsCached(cache, x) && IsCached(cache, y)
    ensures IsCached(cache, x + y)
    ensures GainOfTransfers(cache, x + y, a) == GainOfTransfers(cache, x, a) + GainOfTransfers(cache, y, a)
  {
    if y == [] {
      assert x + y == x;
    } else {
      GainsAppend(cache, x, y[..|y| - 1], a);
      assert (x + y)[..|x + y| - 1] == x + y[..|y| - 1];
    }
  }

  lemma GainOfSingle(cache: map<Address, TokenType>, t: TokenTransfer, a: Address)
    requires t.origin.tokenAddress in cache
    ensures GainOfTransfers(cache, [t], a) == GainOfTransfer(cache, t, a)
  {
    assert [t][..0] == [];
  }

  lemma CachedParts(cache: map<Address, TokenType>, left: seq<TokenTransfer>, t: TokenTransfer,
                    right: seq<TokenTransfer>)
    requires IsCached(cache, left + [t] + right)
    ensures IsCached(cache, left) && IsCached(cache, right) && t.origin.tokenAddress in cache
  {
    var all := left + [t] + right;
    assert all[|left|] == t;
    assert forall i :: 0 <= i < |left| ==> all[i] == left[i];
    assert forall i :: 0 <= i < |right| ==> all[|left| + 1 + i] == right[i];
  }

  lemma GainsOfParts(cache: map<Address, TokenType>, left: seq<TokenTransfer>, t: TokenTransfer,
                     right: seq<TokenTransfer>, a: Address)
    requires IsCached(cache, left) && IsCached(cache, right) && t.origin.tokenAddress in cache
    ensures IsCached(cache, left + [t] + right) && IsCached(cache, left + right)
    ensures GainOfTransfers(cache, left + [t] + right, a) ==
      GainOfTransfers(cache, left + right, a) + GainOfTransfer(cache, t, a)
  {
    GainOfSingle(cache, t, a);
    GainsAppend(cache, left, [t], a);
    GainsAppend(cache, left + [t], right, a);
    GainsAppend(cache, left, right, a);
  }

  /** Taking one out. */
  lemma GainsWithout(cache: map<Address, TokenType>, y: seq<TokenTransfer>, j: nat, a: Address)
    requires IsCached(cache, y) && j < |y|
    ensures IsCached(cache, Without(y, j))
    ensures GainOfTransfers(cache, y, a) == GainOfTransfers(cache, Without(y, j), a) + GainOfTransfer(cache, y[j], a)
  {
    var left, t, right := y[..j], y[j], y[j + 1..];
    assert y == left + [t] + right;
    CachedParts(cache, left, t, right);
    GainsOfParts(cache, left, t, right, a);
  }

  lemma {:induction false} GainsPermute(cache: map<Address, TokenType>, x: seq<TokenTransfer>, y: seq<TokenTransfer>,
                                        a: Address)
    requires multiset(x) == multiset(y) && IsCached(cache, x) && IsCached(cache, y)
    ensures GainOfTransfers(cache, x, a) == GainOfTransfers(cache, y, a)
    decreases |x|
  {
    assert |multiset(x)| == |multiset(y)|;
    if x != [] {
      var init, last := x[..|x| - 1], x[|x| - 1];
      assert x == init + [last];
      assert last in multiset(y);
      var j :| 0 <= j < |y| && y[j] == last;
      WithoutDropsOne(y, j);
      GainsWithout(cache, y, j, a);
      GainsPermute(cache, init, Without(y, j), a);
    }
  }

  /** The transfers of one log, all of one token and all with or all without an id. */
  lemma {:induction false} GainsOfOneLog(cache: map<Address, TokenType>, log: Log, transfers: seq<TokenTransfer>,
                                         a: Address)
    requires IsCached(cache, transfers)
    requires forall i :: 0 <= i < |transfers| ==> IsTransferOf(transfers[i], log)
    ensures GainOfTransfers(cache, transfers, a) == if IsFungible(cache, log) then GainOf(transfers, a) else 0
  {
    if transfers != [] {
      var init := transfers[..|transfers| - 1];
      assert forall i :: 0 <= i < |init| ==> init[i] == transfers[i];
      GainsOfOneLog(cache, log, init, a);
    }
  }

  predicate IsTransferOf(t: TokenTransfer, log: Log) {
    t.origin.tokenAddress == log.address &&
    (t.tokenId.Some? <==> log.event.TransferSingle? || log.event.TransferBatch?)
  }

  lemma IdsComeFromTwoEvents(log: Log, t: TokenTransfer)
    requires TransfersOf(log).Some? && t in TransfersOf(log).value
    ensures IsTransferOf(t, log)
  {
    LogGivesDistinctTransfers(log);
    if log.event.TransferBatch? && |log.event.ids| == |log.event.values| { BatchHasEachIdOnce(log, 0); }
  }

  lemma SplitCached(cache: map<Address, TokenType>, x: seq<TokenTransfer>, y: seq<TokenTransfer>)
    requires IsCached(cache, x + y)
    ensures IsCached(cache, x) && IsCached(cache, y)
  {
    assert forall i :: 0 <= i < |x| ==> (x + y)[i] == x[i];
    assert forall i :: 0 <= i < |y| ==> (x + y)[|x| + i] == y[i];
  }

  lemma {:induction false} GainsOfLogs(cache: map<Address, TokenType>, logs: seq<Log>, a: Address)
    requires Extracted(logs).Some? && IsCached(cache, Extracted(logs).value)
    ensures GainOfTransfers(cache, Extracted(logs).value, a) == GainOfLogs(cache, logs, a)
  {
    if logs != [] {
      var init, last := logs[..|logs| - 1], logs[|logs| - 1];
      var before, more := Extracted(init).value, TransfersOf(last).value;
      SplitCached(cache, before, more);
      GainsOfLogs(cache, init, a);
      forall i | 0 <= i < |more| ensures IsTransferOf(more[i], last) { IdsComeFromTwoEvents(last, more[i]); }
      GainsOfOneLog(cache, last, more, a);
      TransfersDoWhatTheEventDoes(last, a);
      GainsAppend(cache, before, more, a);
    }
  }

  lemma {:induction false} CachedPermuted(cache: map<Address, TokenType>, x: seq<TokenTransfer>, y: seq<TokenTransfer>)
    requires multiset(x) == multiset(y) && IsCached(cache, x)
    ensures IsCached(cache, y)
  {
    forall i | 0 <= i < |y| ensures y[i].origin.tokenAddress in cache {
      assert y[i] in multiset(x);
    }
  }

  /** Whatever the schedule, every account gains by the rows of the ERC20 and ERC1155
      tables exactly what it gains by the logs of fungible tokens. */
  lemma RowsGainWhatTheLogsSay(cache: map<Address, TokenType>, logs: seq<Log>, arrivals: seq<TokenTransfer>, a: Address)
    requires Extracted(logs).Some? && multiset(arrivals) == multiset(Extracted(logs).value)
    requires IsCached(cache, arrivals) && RowsOf(cache, arrivals).Some?
    ensures GainOfRows(RowsOf(cache, arrivals).value, a) == GainOfLogs(cache, logs, a)
  {
    forall k | 0 <= k < |arrivals| && arrivals[k].tokenId.Some? ensures arrivals[k].tokenType == ERC1155 {
      assert arrivals[k] in multiset(Extracted(logs).value);
      ExtractedComeFromLogs(logs, arrivals[k]);
    }
    CachedPermuted(cache, arrivals, Extracted(logs).value);
    RowsGainAsTransfers(cache, arrivals, a);
    GainsOfLogs(cache, logs, a);
    GainsPermute(cache, arrivals, Extracted(logs).value, a);
  }

  // --- From logs to rows ---

  /** A run that succeeds gives the tables exactly one row for each extracted transfer,
      all with different primary keys, whatever the schedule. */
  lemma TransfersAreConserved(cache: map<Address, TokenType>, logs: seq<Log>, arrivals: seq<TokenTransfer>,
                              answers: Address -> Answers, table: map<PrimaryKey, Row>, i: nat)
    requires KeysDiffer(logs, PositionOf) && Extracted(logs).Some?
    requires multiset(arrivals) == multiset(Extracted(logs).value) && i < |arrivals|
    requires IsCached(CacheAfter(cache, TokensOf(arrivals), answers), arrivals)
    requires RowsOf(CacheAfter(cache, TokensOf(arrivals), answers), arrivals).Some?
    ensures var rows := RowsOf(CacheAfter(cache, TokensOf(arrivals), answers), arrivals).value;
      var after := InsertAll(table, PrimaryKeyOf, rows);
      && |rows| == |arrivals| == |Extracted(logs).value|
      && KeysDiffer(rows, PrimaryKeyOf)
      && Some(rows[i]) == RowOf(CacheAfter(cache, TokensOf(arrivals), answers), arrivals[i])
      && rows[i].origin == arrivals[i].origin
      && (PrimaryKeyOf(rows[i]) !in table ==> PrimaryKeyOf(rows[i]) in after && after[PrimaryKeyOf(rows[i])] == rows[i])
  {
    var known := CacheAfter(cache, TokensOf(arrivals), answers);
    ExtractedAreDistinct(logs);
    KeysDifferPermuted(arrivals, Extracted(logs).value, TransferKeyOf);
    assert |multiset(arrivals)| == |multiset(Extracted(logs).value)|;
    forall k | 0 <= k < |arrivals| && arrivals[k].tokenId.Some? ensures arrivals[k].tokenType == ERC1155 {
      assert arrivals[k] in multiset(Extracted(logs).value);
      ExtractedComeFromLogs(logs, arrivals[k]);
    }
    RowAt(known, arrivals, i);
    RowsKeepTheTransfers(known, arrivals, i);
    RowsHaveDistinctKeys(known, arrivals);
    InsertsLoseNothing(table, RowsOf(known, arrivals).value, i);
  }
}
