/** The decoders of the bridge: packed big-endian deposits, their hexadecimal spelling
    in event data, and versioned nonces. */
module Deposits {
  import opened Common

  type Byte = b: int | 0 <= b < 256

  type HexDigit = d: int | 0 <= d < 16

  // --- Numbers ---

  function Pow(base: nat, e: nat): (p: nat)
    ensures base > 0 ==> p > 0
  {
    if e == 0 then 1 else base * Pow(base, e - 1)
  }

  /** `int.from_bytes(bytes, "big")`. */
  function FromBytes(bytes: seq<Byte>): nat {
    if bytes == [] then 0 else FromBytes(bytes[..|bytes| - 1]) * 256 + bytes[|bytes| - 1]
  }

  /** `int(digits, 16)`. */
  function FromDigits(digits: seq<HexDigit>): nat {
    if digits == [] then 0 else FromDigits(digits[..|digits| - 1]) * 16 + digits[|digits| - 1]
  }

  /** A number in `width` bytes, the most significant first. */
  function ToBytes(n: nat, width: nat): (bytes: seq<Byte>)
    ensures |bytes| == width
  {
    if width == 0 then [] else ToBytes(n / 256, width - 1) + [n % 256]
  }

  lemma {:induction false} FromToBytes(n: nat, width: nat)
    requires n < Pow(256, width)
    ensures FromBytes(ToBytes(n, width)) == n
  {
    if width > 0 {
      FromToBytes(n / 256, width - 1);
      assert ToBytes(n, width)[..width - 1] == ToBytes(n / 256, width - 1);
    }
  }

  lemma {:induction false} ToFromBytes(bytes: seq<Byte>)
    ensures FromBytes(bytes) < Pow(256, |bytes|) && ToBytes(FromBytes(bytes), |bytes|) == bytes
  {
    if bytes != [] { ToFromBytes(bytes[..|bytes| - 1]); }
  }

  /** The first byte weighs most. */
  lemma {:induction false} FirstByteWeighsMost(first: Byte, rest: seq<Byte>)
    ensures FromBytes([first] + rest) == first * Pow(256, |rest|) + FromBytes(rest)
  {
    var all := [first] + rest;
    if rest == [] {
      assert all[..0] == [];
    } else {
      var init := rest[..|rest| - 1];
      FirstByteWeighsMost(first, init);
      assert all[..|all| - 1] == [first] + init;
      assert first * Pow(256, |rest|) == first * Pow(256, |init|) * 256;
    }
  }

  // --- Hexadecimal ---

  function HighDigit(b: Byte): HexDigit { b / 16 }

  function LowDigit(b: Byte): HexDigit { b % 16 }

  function ByteOf(high: HexDigit, low: HexDigit): Byte { high * 16 + low }

  function ToHex(bytes: seq<Byte>): (digits: seq<HexDigit>)
    ensures |digits| == 2 * |bytes|
  {
    seq(2 * |bytes|, i requires 0 <= i < 2 * |bytes| =>
      if i % 2 == 0 then HighDigit(bytes[i / 2]) else LowDigit(bytes[i / 2]))
  }

  /** `bytes.fromhex`; `None` for half a byte. */
  function FromHex(digits: seq<HexDigit>): Option<seq<Byte>> {
    if digits == [] then Some([])
    else if |digits| == 1 then None
    else
      var rest := FromHex(digits[2..]);
      if rest == None then None else Some([ByteOf(digits[0], digits[1])] + rest.value)
  }

  /** A Python slice, which stops at the end. */
  function Slice<T>(s: seq<T>, from: nat, to: nat): seq<T> {
    var end := if to < |s| then to else |s|;
    if from < end then s[from..end] else []
  }

  lemma HexAppend(a: seq<Byte>, b: seq<Byte>)
    ensures ToHex(a + b) == ToHex(a) + ToHex(b)
  {
    forall i | 0 <= i < 2 * |a + b| ensures ToHex(a + b)[i] == (ToHex(a) + ToHex(b))[i] {
      if i >= 2 * |a| {
        assert (i - 2 * |a|) / 2 == i / 2 - |a| && (i - 2 * |a|) % 2 == i % 2;
      }
    }
  }

  lemma {:induction false} FromToHex(bytes: seq<Byte>)
    ensures FromHex(ToHex(bytes)) == Some(bytes)
  {
    if bytes != [] {
      var first, rest, digits := bytes[0], bytes[1..], ToHex(bytes);
      FromToHex(rest);
      HexAppend([first], rest);
      assert bytes == [first] + rest && ToHex([first]) == [HighDigit(first), LowDigit(first)];
      assert digits[2..] == ToHex(rest) && ByteOf(digits[0], digits[1]) == first;
    }
  }

  lemma SliceMiddle<T>(a: seq<T>, b: seq<T>, c: seq<T>)
    ensures Slice(a + b + c, |a|, |a| + |b|) == b
  {
  }

  /** Two digits a byte. */
  lemma SliceOfHex(a: seq<Byte>, b: seq<Byte>, c: seq<Byte>)
    ensures Slice(ToHex(a + b + c), 2 * |a|, 2 * |a| + 2 * |b|) == ToHex(b)
  {
    HexAppend(a + b, c);
    HexAppend(a, b);
    SliceMiddle(ToHex(a), ToHex(b), ToHex(c));
  }

  lemma {:induction false} DigitsOfHex(bytes: seq<Byte>)
    ensures FromDigits(ToHex(bytes)) == FromBytes(bytes)
  {
    if bytes != [] {
      var init, last := bytes[..|bytes| - 1], bytes[|bytes| - 1];
      DigitsOfHex(init);
      HexAppend(init, [last]);
      assert bytes == init + [last];
      assert ToHex([last]) == [HighDigit(last), LowDigit(last)];
      DigitsAppend(ToHex(init), HighDigit(last), LowDigit(last));
    }
  }

  lemma DigitsAppend(digits: seq<HexDigit>, a: HexDigit, b: HexDigit)
    ensures FromDigits(digits + [a, b]) == FromDigits(digits) * 256 + a * 16 + b
  {
    var all := digits + [a, b];
    assert all[..|all| - 1] == digits + [a] && (digits + [a])[..|digits|] == digits;
  }

  // --- Deposits of version 0 and 1 ---

  /** The bytes of a `uint256` and of a `uint64`. What follows holds for all widths. */
  datatype Layout = Layout(word: nat, gas: nat)

  const LAYOUT := Layout(32, 8)

  datatype Deposit0 = Deposit0(mint: Option<nat>, value: nat, gas: nat, isCreation: bool, data: seq<Byte>)

  datatype Deposit1 = Deposit1(
    mint: Option<nat>, value: nat, ethValue: nat, ethTxValue: nat, gas: nat, isCreation: bool, data: seq<Byte>)

  function MintOf(mint: nat): Option<nat> { if mint == 0 then None else Some(mint) }

  function ValueOf(mint: Option<nat>): nat { if mint.Some? then mint.value else 0 }

  /** The bytes of each field. */
  datatype Parts0 = Parts0(mint: seq<Byte>, value: seq<Byte>, gas: seq<Byte>, creation: Byte, data: seq<Byte>)

  datatype Parts1 = Parts1(head: Parts0, ethValue: seq<Byte>, ethTxValue: seq<Byte>)

  function Join0(p: Parts0): seq<Byte> { p.mint + (p.value + (p.gas + ([p.creation] + p.data))) }

  function Join1(p: Parts1): seq<Byte> {
    p.head.mint + (p.head.value + (p.ethValue + (p.ethTxValue + (p.head.gas + ([p.head.creation] + p.head.data)))))
  }

  /** OP Stack specification, Deposits: the packed encoding of version 0. */
  function Pack0(l: Layout, mint: nat, value: nat, gas: nat, creation: Byte, data: seq<Byte>): seq<Byte> {
    Join0(Parts0(ToBytes(mint, l.word), ToBytes(value, l.word), ToBytes(gas, l.gas), creation, data))
  }

  function Pack1(l: Layout, mint: nat, value: nat, ethValue: nat, ethTxValue: nat, gas: nat, creation: Byte,
                 data: seq<Byte>): seq<Byte>
  {
    Join1(Parts1(Parts0(ToBytes(mint, l.word), ToBytes(value, l.word), ToBytes(gas, l.gas), creation, data),
                 ToBytes(ethValue, l.word), ToBytes(ethTxValue, l.word)))
  }

  function Cut0(l: Layout, d: seq<Byte>): Option<Parts0> {
    if |d| <= 2 * l.word + l.gas then None
    else
      var fromValue := d[l.word..];
      var fromGas := fromValue[l.word..];
      var fromCreation := fromGas[l.gas..];
      Some(Parts0(d[..l.word], fromValue[..l.word], fromGas[..l.gas], fromCreation[0], fromCreation[1..]))
  }

  function Cut1(l: Layout, d: seq<Byte>): Option<Parts1> {
    if |d| <= 4 * l.word + l.gas then None
    else
      var fromValue := d[l.word..];
      var fromEthValue := fromValue[l.word..];
      var fromEthTxValue := fromEthValue[l.word..];
      var fromGas := fromEthTxValue[l.word..];
      var fromCreation := fromGas[l.gas..];
      Some(Parts1(Parts0(d[..l.word], fromValue[..l.word], fromGas[..l.gas], fromCreation[0], fromCreation[1..]),
                  fromEthValue[..l.word], fromEthTxValue[..l.word]))
  }

  function Deposit0Of(p: Parts0): Deposit0 {
    Deposit0(MintOf(FromBytes(p.mint)), FromBytes(p.value), FromBytes(p.gas), p.creation == 1, p.data)
  }

  function Deposit1Of(p: Parts1): Deposit1 {
    Deposit1(MintOf(FromBytes(p.head.mint)), FromBytes(p.head.value), FromBytes(p.ethValue), FromBytes(p.ethTxValue),
             FromBytes(p.head.gas), p.head.creation == 1, p.head.data)
  }

  /** `None` is a failed assertion. */
  function Unmarshalled0(l: Layout, d: seq<Byte>): Option<Deposit0> {
    if Cut0(l, d) == None then None else Some(Deposit0Of(Cut0(l, d).value))
  }

  function Unmarshalled1(l: Layout, d: seq<Byte>): Option<Deposit1> {
    if Cut1(l, d) == None then None else Some(Deposit1Of(Cut1(l, d).value))
  }

  lemma DropTake(d: seq<Byte>, from: nat, width: nat)
    requires from + width <= |d|
    ensures d[from..from + width] == d[from..][..width]
  {
  }

  lemma DropDrop(d: seq<Byte>, a: nat, b: nat)
    requires a + b <= |d|
    ensures d[a..][b..] == d[a + b..]
  {
  }

  lemma CutIsSlices(l: Layout, o: seq<Byte>)
    requires Cut0(l, o).Some?
    ensures var p, w, c := Cut0(l, o).value, l.word, 2 * l.word + l.gas;
      p.mint == o[0..w] && p.value == o[w..2 * w] && p.gas == o[2 * w..c] && [p.creation] == o[c..c + 1] &&
      p.data == o[c + 1..|o|]
  {
    var w, c := l.word, 2 * l.word + l.gas;
    DropTake(o, w, w);
    DropTake(o, 2 * w, l.gas);
    DropDrop(o, w, w);
    DropDrop(o, 2 * w, l.gas);
  }

  lemma Cut1IsSlices(l: Layout, o: seq<Byte>)
    requires Cut1(l, o).Some?
    ensures var p, w, c := Cut1(l, o).value, l.word, 4 * l.word + l.gas;
      p.head.mint == o[0..w] && p.head.value == o[w..2 * w] && p.ethValue == o[2 * w..3 * w] &&
      p.ethTxValue == o[3 * w..4 * w] && p.head.gas == o[4 * w..c] &&
      p.head.creation == o[c] && p.head.data == o[c + 1..]
  {
    var w, c := l.word, 4 * l.word + l.gas;
    DropTake(o, w, w);
    DropTake(o, 2 * w, w);
    DropTake(o, 3 * w, w);
    DropTake(o, 4 * w, l.gas);
    DropDrop(o, w, w);
    DropDrop(o, 2 * w, w);
    DropDrop(o, 3 * w, w);
    DropDrop(o, 4 * w, l.gas);
  }

  /** The second assertion of the decoders can never fail. */
  lemma EightBytesFit(bytes: seq<Byte>, width: nat)
    requires |bytes| == width
    ensures FromBytes(bytes) < Pow(256, width)
  {
    ToFromBytes(bytes);
  }

  method UnmarshalDepositVersion0(opaqueData: seq<Byte>) returns (deposit: Option<Deposit0>)
    ensures deposit == Unmarshalled0(LAYOUT, opaqueData)
  {
    if |opaqueData| < 32 + 32 + 8 + 1 { return None; }
    CutIsSlices(LAYOUT, opaqueData);
    var offset := 0;
    var mint := FromBytes(opaqueData[offset..offset + 32]);
    var mintOption := MintOf(mint);
    offset := offset + 32;
    var value := FromBytes(opaqueData[offset..offset + 32]);
    offset := offset + 32;
    var gas := FromBytes(opaqueData[offset..offset + 8]);
    EightBytesFit(opaqueData[offset..offset + 8], 8);
    if gas >= Pow(256, 8) { return None; }
    offset := offset + 8;
    var isCreation := opaqueData[offset] == 1;
    offset := offset + 1;
    deposit := Some(Deposit0(mintOption, value, gas, isCreation, opaqueData[offset..]));
  }

  method UnmarshalDepositVersion1(opaqueData: seq<Byte>) returns (deposit: Option<Deposit1>)
    ensures deposit == Unmarshalled1(LAYOUT, opaqueData)
  {
    if |opaqueData| < 32 + 32 + 32 + 32 + 8 + 1 { return None; }
    Cut1IsSlices(LAYOUT, opaqueData);
    var offset := 0;
    var mint := FromBytes(opaqueData[offset..offset + 32]);
    var mintOption := MintOf(mint);
    offset := offset + 32;
    var value := FromBytes(opaqueData[offset..offset + 32]);
    offset := offset + 32;
    var ethValue := FromBytes(opaqueData[offset..offset + 32]);
    offset := offset + 32;
    var ethTxValue := FromBytes(opaqueData[offset..offset + 32]);
    offset := offset + 32;
    var gas := FromBytes(opaqueData[offset..offset + 8]);
    EightBytesFit(opaqueData[offset..offset + 8], 8);
    if gas >= Pow(256, 8) { return None; }
    offset := offset + 8;
    var isCreation := opaqueData[offset] == 1;
    offset := offset + 1;
    deposit := Some(Deposit1(mintOption, value, ethValue, ethTxValue, gas, isCreation, opaqueData[offset..]));
  }

  lemma HeadAndTail(a: seq<Byte>, b: seq<Byte>)
    ensures (a + b)[..|a|] == a && (a + b)[|a|..] == b
  {
  }

  predicate Fits(l: Layout, p: Parts0) { |p.mint| == |p.value| == l.word && |p.gas| == l.gas }

  lemma CutInvertsJoin0(l: Layout, p: Parts0)
    requires Fits(l, p)
    ensures Cut0(l, Join0(p)) == Some(p)
  {
    var fromCreation := [p.creation] + p.data;
    var fromGas := p.gas + fromCreation;
    HeadAndTail(p.mint, p.value + fromGas);
    HeadAndTail(p.value, fromGas);
    HeadAndTail(p.gas, fromCreation);
    HeadAndTail([p.creation], p.data);
  }

  lemma CutInvertsJoin1(l: Layout, p: Parts1)
    requires Fits(l, p.head) && |p.ethValue| == |p.ethTxValue| == l.word
    ensures Cut1(l, Join1(p)) == Some(p)
  {
    var fromCreation := [p.head.creation] + p.head.data;
    var fromGas := p.head.gas + fromCreation;
    var fromEthValue := p.ethValue + (p.ethTxValue + fromGas);
    HeadAndTail(p.head.mint, p.head.value + fromEthValue);
    HeadAndTail(p.head.value, fromEthValue);
    HeadAndTail(p.ethValue, p.ethTxValue + fromGas);
    HeadAndTail(p.ethTxValue, fromGas);
    HeadAndTail(p.head.gas, fromCreation);
    HeadAndTail([p.head.creation], p.head.data);
  }

  lemma Split(d: seq<Byte>, n: nat)
    requires n <= |d|
    ensures d == d[..n] + d[n..]
  {
  }

  lemma JoinInvertsCut0(l: Layout, d: seq<Byte>)
    requires Cut0(l, d).Some?
    ensures Fits(l, Cut0(l, d).value) && Join0(Cut0(l, d).value) == d
  {
    var fromValue := d[l.word..];
    var fromGas := fromValue[l.word..];
    var fromCreation := fromGas[l.gas..];
    Split(fromCreation, 1);
    assert fromCreation[..1] == [fromCreation[0]];
    Split(fromGas, l.gas);
    Split(fromValue, l.word);
    Split(d, l.word);
  }

  /** Decoding inverts packing, for all field values and payloads. */
  lemma Decode0InvertsPack(l: Layout, mint: nat, value: nat, gas: nat, creation: Byte, data: seq<Byte>)
    requires mint < Pow(256, l.word) && value < Pow(256, l.word) && gas < Pow(256, l.gas)
    ensures Unmarshalled0(l, Pack0(l, mint, value, gas, creation, data)) ==
      Some(Deposit0(if mint == 0 then None else Some(mint), value, gas, creation == 1, data))
  {
    FromToBytes(mint, l.word);
    FromToBytes(value, l.word);
    FromToBytes(gas, l.gas);
    CutInvertsJoin0(l, Parts0(ToBytes(mint, l.word), ToBytes(value, l.word), ToBytes(gas, l.gas), creation, data));
  }

  lemma Decode1InvertsPack(l: Layout, mint: nat, value: nat, ethValue: nat, ethTxValue: nat, gas: nat, creation: Byte,
                           data: seq<Byte>)
    requires mint < Pow(256, l.word) && value < Pow(256, l.word)
    requires ethValue < Pow(256, l.word) && ethTxValue < Pow(256, l.word) && gas < Pow(256, l.gas)
    ensures Unmarshalled1(l, Pack1(l, mint, value, ethValue, ethTxValue, gas, creation, data)) ==
      Some(Deposit1(if mint == 0 then None else Some(mint), value, ethValue, ethTxValue, gas, creation == 1, data))
  {
    FromToBytes(mint, l.word);
    FromToBytes(value, l.word);
    FromToBytes(ethValue, l.word);
    FromToBytes(ethTxValue, l.word);
    FromToBytes(gas, l.gas);
    var head := Parts0(ToBytes(mint, l.word), ToBytes(value, l.word), ToBytes(gas, l.gas), creation, data);
    CutInvertsJoin1(l, Parts1(head, ToBytes(ethValue, l.word), ToBytes(ethTxValue, l.word)));
  }

  lemma PackOfParts(l: Layout, p: Parts0, creation: Byte)
    requires Fits(l, p)
    ensures Pack0(l, FromBytes(p.mint), FromBytes(p.value), FromBytes(p.gas), creation, p.data) ==
      Join0(p.(creation := creation))
  {
    ToFromBytes(p.mint);
    ToFromBytes(p.value);
    ToFromBytes(p.gas);
  }

  /** And packing inverts decoding: whatever is long enough is the encoding of what the
      decoder makes of it, if the creation byte is 0 or 1, and only then. */
  lemma Pack0InvertsDecode(l: Layout, d: seq<Byte>, r: Deposit0)
    requires Unmarshalled0(l, d) == Some(r)
    ensures d == Pack0(l, ValueOf(r.mint), r.value, r.gas, if r.isCreation then 1 else 0, r.data) <==>
      d[2 * l.word + l.gas] <= 1
  {
    var p, creation: Byte := Cut0(l, d).value, if r.isCreation then 1 else 0;
    JoinInvertsCut0(l, d);
    CreationIsAt(l, d);
    PackOfDeposit(l, p, creation);
    JoinsAgree(l, p, creation);
  }

  lemma CreationIsAt(l: Layout, d: seq<Byte>)
    requires Cut0(l, d).Some?
    ensures Cut0(l, d).value.creation == d[2 * l.word + l.gas]
  {
    CutIsSlices(l, d);
    assert d[2 * l.word + l.gas] == d[2 * l.word + l.gas..2 * l.word + l.gas + 1][0];
  }

  lemma PackOfDeposit(l: Layout, p: Parts0, creation: Byte)
    requires Fits(l, p)
    ensures var r := Deposit0Of(p);
      Pack0(l, ValueOf(r.mint), r.value, r.gas, creation, r.data) == Join0(p.(creation := creation))
  {
    PackOfParts(l, p, creation);
    assert ValueOf(MintOf(FromBytes(p.mint))) == FromBytes(p.mint);
  }

  lemma JoinsAgree(l: Layout, p: Parts0, creation: Byte)
    requires Fits(l, p)
    ensures Join0(p) == Join0(p.(creation := creation)) <==> p.creation == creation
  {
    CutInvertsJoin0(l, p);
    CutInvertsJoin0(l, p.(creation := creation));
  }

  // --- The decoder of event data ---

  /** The fields of the transaction that come from the event data. */
  datatype BedrockDeposit = BedrockDeposit(mint: nat, value: nat, gas: nat, isSystemTransaction: bool, data: seq<Byte>)

  /** The digits of the content. The content offset is read and not used: the content is
      taken to follow its length. `None` is an exception: no digits for a number. */
  function ContentOf(l: Layout, digits: seq<HexDigit>): Option<seq<HexDigit>> {
    var word := 2 * l.word;
    if |Slice(digits, 0, word)| == 0 || |Slice(digits, word, 2 * word)| == 0 then None
    else Some(Slice(digits, 2 * word, 2 * word + 2 * FromDigits(Slice(digits, word, 2 * word))))
  }

  function HexField(content: seq<HexDigit>, from: nat, to: nat): Option<seq<Byte>> {
    FromHex(Slice(content, 2 * from, 2 * to))
  }

  function HexRest(content: seq<HexDigit>, from: nat): Option<seq<Byte>> {
    FromHex(Slice(content, 2 * from, |content|))
  }

  /** `None` is an exception: half a byte. */
  function FromContent(l: Layout, content: seq<HexDigit>): Option<BedrockDeposit> {
    var w, c := l.word, 2 * l.word + l.gas;
    var mint, value := HexField(content, 0, w), HexField(content, w, 2 * w);
    var gas, creation := HexField(content, 2 * w, c), HexField(content, c, c + 1);
    var data := HexRest(content, c + 1);
    if mint == None || value == None || gas == None || creation == None || data == None then None
    else Some(BedrockOf(mint.value, value.value, gas.value, creation.value, data.value))
  }

  /** `deposit_event_to_op_bedrock_transaction` on the digits after `0x`. */
  function FromEventData(l: Layout, digits: seq<HexDigit>): Option<BedrockDeposit> {
    if ContentOf(l, digits) == None then None else FromContent(l, ContentOf(l, digits).value)
  }

  function BedrockOf(mint: seq<Byte>, value: seq<Byte>, gas: seq<Byte>, creation: seq<Byte>, data: seq<Byte>)
    : BedrockDeposit
  {
    BedrockDeposit(FromBytes(mint), FromBytes(value), FromBytes(gas), FromBytes(creation) != 0, data)
  }

  /** Event data: one word that gives the offset, one that gives the length, the
      payload, and padding. */
  predicate IsEventData(l: Layout, bytes: seq<Byte>, offset: seq<Byte>, length: seq<Byte>, payload: seq<Byte>,
                        padding: seq<Byte>)
  {
    l.word > 0 && |offset| == |length| == l.word && FromBytes(length) == |payload| &&
    bytes == offset + length + payload + padding
  }

  /** Slices of the digits, from the bytes around them. */
  lemma SliceIs(bytes: seq<Byte>, a: seq<Byte>, b: seq<Byte>, c: seq<Byte>)
    requires bytes == a + b + c
    ensures Slice(ToHex(bytes), 2 * |a|, 2 * |a| + 2 * |b|) == ToHex(b)
  {
    SliceOfHex(a, b, c);
  }

  lemma Regroup(a: seq<Byte>, b: seq<Byte>, c: seq<Byte>, d: seq<Byte>)
    ensures a + b + c + d == [] + a + (b + c + d)
    ensures a + b + c + d == a + b + (c + d)
  {
  }

  lemma EventDataParts(l: Layout, bytes: seq<Byte>, offset: seq<Byte>, length: seq<Byte>, payload: seq<Byte>,
                       padding: seq<Byte>)
    requires IsEventData(l, bytes, offset, length, payload, padding)
    ensures var digits, word := ToHex(bytes), 2 * l.word;
      && Slice(digits, 0, word) == ToHex(offset)
      && Slice(digits, word, 2 * word) == ToHex(length)
      && Slice(digits, 2 * word, 2 * word + 2 * |payload|) == ToHex(payload)
  {
    Regroup(offset, length, payload, padding);
    SliceIs(bytes, [], offset, length + payload + padding);
    SliceIs(bytes, offset, length, payload + padding);
    SliceIs(bytes, offset + length, payload, padding);
  }

  lemma ContentIsFound(l: Layout, bytes: seq<Byte>, offset: seq<Byte>, length: seq<Byte>, payload: seq<Byte>,
                       padding: seq<Byte>)
    requires IsEventData(l, bytes, offset, length, payload, padding)
    ensures ContentOf(l, ToHex(bytes)) == Some(ToHex(payload))
  {
    EventDataParts(l, bytes, offset, length, payload, padding);
    DigitsOfHex(length);
  }

  lemma FieldOfHex(bytes: seq<Byte>, from: nat, to: nat, field: seq<Byte>)
    requires from <= to <= |bytes| && field == bytes[from..to]
    ensures HexField(ToHex(bytes), from, to) == Some(field)
  {
    var a, c := bytes[..from], bytes[to..];
    assert bytes == a + field + c;
    SliceOfHex(a, field, c);
    FromToHex(field);
  }

  lemma RestOfHex(bytes: seq<Byte>, from: nat, rest: seq<Byte>)
    requires from <= |bytes| && rest == bytes[from..|bytes|]
    ensures HexRest(ToHex(bytes), from) == Some(rest)
  {
    FieldOfHex(bytes, from, |bytes|, rest);
  }

  lemma ContentFromFields(l: Layout, content: seq<HexDigit>, p: Parts0)
    requires var w, c := l.word, 2 * l.word + l.gas;
      && HexField(content, 0, w) == Some(p.mint) && HexField(content, w, 2 * w) == Some(p.value)
      && HexField(content, 2 * w, c) == Some(p.gas) && HexField(content, c, c + 1) == Some([p.creation])
      && HexRest(content, c + 1) == Some(p.data)
    ensures FromContent(l, content) == Some(BedrockOf(p.mint, p.value, p.gas, [p.creation], p.data))
  {
  }

  lemma SlicesAreDecoded(l: Layout, o: seq<Byte>, p: Parts0)
    requires |o| > 2 * l.word + l.gas
    requires var w, c := l.word, 2 * l.word + l.gas;
      p.mint == o[0..w] && p.value == o[w..2 * w] && p.gas == o[2 * w..c] && [p.creation] == o[c..c + 1] &&
      p.data == o[c + 1..|o|]
    ensures FromContent(l, ToHex(o)) == Some(BedrockOf(p.mint, p.value, p.gas, [p.creation], p.data))
  {
    var w, c := l.word, 2 * l.word + l.gas;
    FieldOfHex(o, 0, w, p.mint);
    FieldOfHex(o, w, 2 * w, p.value);
    FieldOfHex(o, 2 * w, c, p.gas);
    FieldOfHex(o, c, c + 1, [p.creation]);
    RestOfHex(o, c + 1, p.data);
    ContentFromFields(l, ToHex(o), p);
  }

  /** What the decoder makes of the digits of a payload. */
  lemma ContentIsDecoded(l: Layout, o: seq<Byte>)
    requires Cut0(l, o).Some?
    ensures var p := Cut0(l, o).value;
      FromContent(l, ToHex(o)) == Some(BedrockOf(p.mint, p.value, p.gas, [p.creation], p.data))
  {
    CutIsSlices(l, o);
    SlicesAreDecoded(l, o, Cut0(l, o).value);
  }

  /** The two decoders agree on a payload, up to `None` for a mint of zero, exactly if
      its creation byte is 0 or 1. */
  lemma DecodersAgree(l: Layout, bytes: seq<Byte>, offset: seq<Byte>, length: seq<Byte>, payload: seq<Byte>,
                      padding: seq<Byte>)
    requires IsEventData(l, bytes, offset, length, payload, padding) && Unmarshalled0(l, payload).Some?
    ensures FromEventData(l, ToHex(bytes)).Some?
    ensures var a, b := FromEventData(l, ToHex(bytes)).value, Unmarshalled0(l, payload).value;
      && MintOf(a.mint) == b.mint && a.value == b.value && a.gas == b.gas && a.data == b.data
      && (a.isSystemTransaction == b.isCreation <==> payload[2 * l.word + l.gas] <= 1)
  {
    ContentIsFound(l, bytes, offset, length, payload, padding);
    ContentIsDecoded(l, payload);
    var creation := Cut0(l, payload).value.creation;
    assert [creation][..0] == [] && FromBytes([creation]) == creation;
    CutIsSlices(l, payload);
  }

  // --- Nonces ---

  /** The hexadecimal digits of an index. What follows holds for any number of them. */
  const INDEX_DIGITS: nat := 60
  const VERSION_SHIFT: nat := 4 * INDEX_DIGITS

  function ShiftRight(n: int, k: nat): int
    decreases k
  {
    if k == 0 then n else ShiftRight(n / 2, k - 1)
  }

  /** Bitwise conjunction with a mask that is not negative. */
  function And(n: int, mask: nat): nat
    decreases mask
  {
    if mask == 0 then 0 else 2 * And(n / 2, mask / 2) + if n % 2 == 1 && mask % 2 == 1 then 1 else 0
  }

  /** The mask is spelled with leading zeros and one `F` a digit. */
  function IndexMask(zeros: nat, digits: nat): nat {
    FromDigits(seq<HexDigit>(zeros, _ => 0) + seq<HexDigit>(digits, _ => 15))
  }

  function VersionAndIndex(nonce: int, zeros: nat, digits: nat): (int, nat) {
    (ShiftRight(nonce, 4 * digits), And(nonce, IndexMask(zeros, digits)))
  }

  lemma {:induction false} PowOfPow(k: nat)
    ensures Pow(16, k) == Pow(2, 4 * k)
  {
    if k > 0 {
      PowOfPow(k - 1);
      assert Pow(2, 4 * k) == 2 * Pow(2, 4 * k - 1);
      assert Pow(2, 4 * k - 1) == 2 * Pow(2, 4 * k - 2);
      assert Pow(2, 4 * k - 2) == 2 * Pow(2, 4 * k - 3);
      assert Pow(2, 4 * k - 3) == 2 * Pow(2, 4 * (k - 1));
    }
  }

  lemma {:induction false} MaskIsOnes(zeros: nat, digits: nat)
    ensures IndexMask(zeros, digits) == Pow(16, digits) - 1
  {
    var mask := seq<HexDigit>(zeros, _ => 0) + seq<HexDigit>(digits, _ => 15);
    if digits > 0 {
      MaskIsOnes(zeros, digits - 1);
      assert mask[..|mask| - 1] == seq<HexDigit>(zeros, _ => 0) + seq<HexDigit>(digits - 1, _ => 15);
    } else if zeros > 0 {
      MaskIsOnes(zeros - 1, 0);
      assert mask[..|mask| - 1] == seq<HexDigit>(zeros - 1, _ => 0) + seq<HexDigit>(0, _ => 15);
    }
  }

  lemma TwiceAProduct(s: int, half: nat)
    ensures s * (2 * half) == 2 * (s * half)
  {
  }

  /** Splitting a number at a bit loses nothing. */
  lemma {:induction false} SplitAtBit(n: int, k: nat)
    ensures And(n, Pow(2, k) - 1) < Pow(2, k)
    ensures ShiftRight(n, k) * Pow(2, k) + And(n, Pow(2, k) - 1) == n
    decreases k
  {
    if k > 0 {
      SplitAtBit(n / 2, k - 1);
      var half := Pow(2, k - 1);
      assert (2 * half - 1) / 2 == half - 1;
      assert And(n, 2 * half - 1) == 2 * And(n / 2, half - 1) + n % 2;
      TwiceAProduct(ShiftRight(n / 2, k - 1), half);
    }
  }

  lemma MultiplesAreFar(d: int, p: nat)
    ensures d >= 1 ==> d * p >= p
    ensures d <= -1 ==> d * p + p <= 0
  {
  }

  lemma UniqueSplit(v: int, i: int, w: int, j: int, p: nat)
    requires 0 <= i < p && 0 <= j < p && v * p + i == w * p + j
    ensures v == w && i == j
  {
    assert (v - w) * p == j - i;
    MultiplesAreFar(v - w, p);
  }

  /** Version and index reassemble every nonce, and are those that it was made of; with
      60 index digits the version starts at bit 240. */
  lemma NonceReassembles(nonce: int, zeros: nat, digits: nat, v: int, i: nat)
    requires i < Pow(2, 4 * digits)
    ensures var (version, index) := VersionAndIndex(nonce, zeros, digits);
      && index < Pow(2, 4 * digits)
      && version * Pow(2, 4 * digits) + index == nonce
      && (nonce == v * Pow(2, 4 * digits) + i <==> version == v && index == i)
  {
    MaskIsOnes(zeros, digits);
    PowOfPow(digits);
    SplitAtBit(nonce, 4 * digits);
    var (version, index) := VersionAndIndex(nonce, zeros, digits);
    if nonce == v * Pow(2, 4 * digits) + i { UniqueSplit(version, index, v, i, Pow(2, 4 * digits)); }
  }

  function Reassembled(version: int, index: nat): int { version * Pow(2, VERSION_SHIFT) + index }

  /** The version is what lies from bit 240 on, the index what lies below; no other pair
      reassembles the nonce. */
  method GetVersionAndIndexFromNonce(nonce: int) returns (version: int, index: nat)
    ensures VERSION_SHIFT == 240
    ensures index < Pow(2, VERSION_SHIFT) && version * Pow(2, VERSION_SHIFT) + index == nonce
    ensures forall v: int, i: nat {:trigger Reassembled(v, i)} ::
      i < Pow(2, VERSION_SHIFT) && Reassembled(v, i) == nonce ==> v == version && i == index
  {
    version := ShiftRight(nonce, VERSION_SHIFT);
    index := And(nonce, IndexMask(4, INDEX_DIGITS));
    forall v: int, i: nat | i < Pow(2, VERSION_SHIFT) && Reassembled(v, i) == nonce
      ensures v == version && i == index
    {
      NonceReassembles(nonce, 4, INDEX_DIGITS, v, i);
    }
    NonceReassembles(nonce, 4, INDEX_DIGITS, 0, 0);
  }
}
