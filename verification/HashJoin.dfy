/** `join`, which groups both sides by key, against the nested loop it stands for, and
    the length check of the functions that call it. */
module HashJoin {
  import opened Common
  import opened Grouping

  type Field = string
  type Value = int
  type Item = map<Field, Value>

  /** A joined row; `None` where the source item does not have the field. */
  type Joined = map<Field, Option<Value>>

  function Get(item: Item, f: Field): Option<Value> { if f in item then Some(item[f]) else None }

  /** A field to copy, and the name it gets. */
  datatype Copy = Copy(src: Field, dst: Field)

  /** Copies of one item on top of what is there; later ones overwrite. */
  function Project(base: Joined, item: Item, fields: seq<Copy>): Joined {
    if fields == [] then base
    else
      var last := fields[|fields| - 1];
      Project(base, item, fields[..|fields| - 1])[last.dst := Get(item, last.src)]
  }

  /** The dictionary that a field list stands for: a source field keeps its first place
      and gets its last name. */
  function ToDict(fields: seq<Copy>): seq<Copy> {
    if fields == [] then []
    else Renamed(ToDict(fields[..|fields| - 1]), fields[|fields| - 1])
  }

  function SourcesOf(fields: seq<Copy>): seq<Field> {
    if fields == [] then [] else SourcesOf(fields[..|fields| - 1]) + [fields[|fields| - 1].src]
  }

  /** An assignment to a key of a dictionary, which keeps its place or gets the last one. */
  function Renamed(fields: seq<Copy>, c: Copy): seq<Copy> {
    if c.src in SourcesOf(fields) then Replaced(fields, c) else fields + [c]
  }

  function Replaced(fields: seq<Copy>, c: Copy): seq<Copy> {
    seq(|fields|, i requires 0 <= i < |fields| => if fields[i].src == c.src then c else fields[i])
  }

  datatype Spec = Spec(leftField: Field, rightField: Field, leftFields: seq<Copy>, rightFields: seq<Copy>)

  function Pair(spec: Spec, l: Item, r: Item): Joined {
    Project(Project(map[], l, ToDict(spec.leftFields)), r, ToDict(spec.rightFields))
  }

  // --- What a joined row holds ---

  /** The last copy of a list with the given name or source. */
  function LastTo(fields: seq<Copy>, dst: Field): Option<Copy> {
    if fields == [] then None
    else if fields[|fields| - 1].dst == dst then Some(fields[|fields| - 1])
    else LastTo(fields[..|fields| - 1], dst)
  }

  function LastFrom(fields: seq<Copy>, src: Field): Option<Copy> {
    if fields == [] then None
    else if fields[|fields| - 1].src == src then Some(fields[|fields| - 1])
    else LastFrom(fields[..|fields| - 1], src)
  }

  lemma {:induction false} ProjectAt(base: Joined, item: Item, fields: seq<Copy>, f: Field)
    ensures var row := Project(base, item, fields);
      if LastTo(fields, f).Some? then f in row && row[f] == Get(item, LastTo(fields, f).value.src)
      else (f in row <==> f in base) && (f in base ==> row[f] == base[f])
  {
    if fields != [] { ProjectAt(base, item, fields[..|fields| - 1], f); }
  }

  /** A joined row has a field exactly if one of the lists names it; the right one wins. */
  lemma PairAt(spec: Spec, l: Item, r: Item, f: Field)
    ensures var left, right := LastTo(ToDict(spec.leftFields), f), LastTo(ToDict(spec.rightFields), f);
      && (f in Pair(spec, l, r) <==> left.Some? || right.Some?)
      && (right.Some? ==> Pair(spec, l, r)[f] == Get(r, right.value.src))
      && (right == None && left.Some? ==> Pair(spec, l, r)[f] == Get(l, left.value.src))
  {
    ProjectAt(map[], l, ToDict(spec.leftFields), f);
    ProjectAt(Project(map[], l, ToDict(spec.leftFields)), r, ToDict(spec.rightFields), f);
  }

  predicate SourcesDiffer(fields: seq<Copy>) {
    forall i, j :: 0 <= i < j < |fields| ==> fields[i].src != fields[j].src
  }

  lemma {:induction false} SourcesHave(fields: seq<Copy>, src: Field)
    ensures |SourcesOf(fields)| == |fields|
    ensures forall i :: 0 <= i < |fields| ==> SourcesOf(fields)[i] == fields[i].src
    ensures src in SourcesOf(fields) <==> exists d :: d in fields && d.src == src
  {
    if fields != [] {
      var init, last := fields[..|fields| - 1], fields[|fields| - 1];
      SourcesHave(init, src);
      assert fields == init + [last];
    }
  }

  lemma RenamedKeeps(fields: seq<Copy>, c: Copy)
    requires SourcesDiffer(fields)
    ensures SourcesDiffer(Renamed(fields, c))
    ensures forall d :: d in Renamed(fields, c) <==> d == c || (d in fields && d.src != c.src)
  {
    SourcesHave(fields, c.src);
    if c.src in SourcesOf(fields) {
      forall d ensures d in Replaced(fields, c) <==> d == c || (d in fields && d.src != c.src) {
        var e :| e in fields && e.src == c.src;
        var i :| 0 <= i < |fields| && fields[i] == e;
        assert Replaced(fields, c)[i] == c;
        if d in fields && d.src != c.src {
          var j :| 0 <= j < |fields| && fields[j] == d;
          assert Replaced(fields, c)[j] == d;
        }
      }
    }
  }

  /** The dictionary has each source field once, under its last name. */
  lemma {:induction false} DictHasLast(fields: seq<Copy>)
    ensures SourcesDiffer(ToDict(fields))
    ensures forall d :: d in ToDict(fields) <==> LastFrom(fields, d.src) == Some(d)
  {
    if fields != [] {
      DictHasLast(fields[..|fields| - 1]);
      RenamedKeeps(ToDict(fields[..|fields| - 1]), fields[|fields| - 1]);
    }
  }

  function SourceOf(c: Copy): Field { c.src }

  lemma RenamedSources(fields: seq<Copy>, c: Copy)
    ensures SourcesOf(Renamed(fields, c)) ==
      if c.src in SourcesOf(fields) then SourcesOf(fields) else SourcesOf(fields) + [c.src]
  {
    if c.src in SourcesOf(fields) {
      SourcesHave(fields, c.src);
      SourcesHave(Replaced(fields, c), c.src);
    } else {
      assert (fields + [c])[..|fields|] == fields;
    }
  }

  /** And it has them in the order in which they are first named. */
  lemma {:induction false} DictIsInOrder(fields: seq<Copy>)
    ensures SourcesOf(ToDict(fields)) == KeysOf(fields, SourceOf)
  {
    if fields != [] {
      DictIsInOrder(fields[..|fields| - 1]);
      RenamedSources(ToDict(fields[..|fields| - 1]), fields[|fields| - 1]);
    }
  }

  /** Of the copies with one name the last one counts, and of those with one source. */
  lemma {:induction false} LastCounts(fields: seq<Copy>, i: nat)
    requires i < |fields|
    ensures (forall j :: i < j < |fields| ==> fields[j].dst != fields[i].dst) ==>
      LastTo(fields, fields[i].dst) == Some(fields[i])
    ensures (forall j :: i < j < |fields| ==> fields[j].src != fields[i].src) ==>
      LastFrom(fields, fields[i].src) == Some(fields[i])
  {
    var init := fields[..|fields| - 1];
    if i < |init| {
      LastCounts(init, i);
      assert forall j :: 0 <= j < |init| ==> init[j] == fields[j];
    }
  }

  // --- The nested loop ---

  function MatchesOf(spec: Spec, l: Item, right: seq<Item>): seq<Joined> {
    if right == [] then []
    else
      var r := right[|right| - 1];
      MatchesOf(spec, l, right[..|right| - 1]) +
      if Get(l, spec.leftField) == Get(r, spec.rightField) then [Pair(spec, l, r)] else []
  }

  function NestedLoop(spec: Spec, left: seq<Item>, right: seq<Item>): seq<Joined> {
    if left == [] then []
    else NestedLoop(spec, left[..|left| - 1], right) + MatchesOf(spec, left[|left| - 1], right)
  }

  // --- The hash join ---

  function LeftKey(spec: Spec): Item -> Option<Value> { (l: Item) => Get(l, spec.leftField) }

  function RightKey(spec: Spec): Item -> Option<Value> { (r: Item) => Get(r, spec.rightField) }

  function RowProduct(spec: Spec, l: Item, rs: seq<Item>): seq<Joined> {
    if rs == [] then [] else RowProduct(spec, l, rs[..|rs| - 1]) + [Pair(spec, l, rs[|rs| - 1])]
  }

  /** `itertools.product`, projected. */
  function Product(spec: Spec, ls: seq<Item>, rs: seq<Item>): seq<Joined> {
    if ls == [] then [] else Product(spec, ls[..|ls| - 1], rs) + RowProduct(spec, ls[|ls| - 1], rs)
  }

  function LeftGroup(spec: Spec, left: seq<Item>, k: Option<Value>): seq<Item> { GroupOf(left, LeftKey(spec), k) }

  function RightGroup(spec: Spec, right: seq<Item>, k: Option<Value>): seq<Item> { GroupOf(right, RightKey(spec), k) }

  function ByKeys(spec: Spec, keys: seq<Option<Value>>, left: seq<Item>, right: seq<Item>): seq<Joined> {
    if keys == [] then []
    else
      var k := keys[|keys| - 1];
      ByKeys(spec, keys[..|keys| - 1], left, right) +
      Product(spec, LeftGroup(spec, left, k), RightGroup(spec, right, k))
  }

  function HashJoined(spec: Spec, left: seq<Item>, right: seq<Item>): seq<Joined> {
    ByKeys(spec, KeysOf(left, LeftKey(spec)), left, right)
  }

  lemma {:induction false} MatchesAreTheGroup(spec: Spec, l: Item, right: seq<Item>)
    ensures MatchesOf(spec, l, right) == RowProduct(spec, l, RightGroup(spec, right, Get(l, spec.leftField)))
  {
    if right != [] {
      var init := right[..|right| - 1];
      MatchesAreTheGroup(spec, l, init);
      var k := Get(l, spec.leftField);
      var before, now := RightGroup(spec, init, k), RightGroup(spec, right, k);
      if Get(right[|right| - 1], spec.rightField) == Get(l, spec.leftField) {
        assert now[..|now| - 1] == before;
      } else {
        assert now == before;
      }
    }
  }

  lemma ProductOneMore(spec: Spec, ls: seq<Item>, l: Item, rs: seq<Item>)
    ensures Product(spec, ls + [l], rs) == Product(spec, ls, rs) + RowProduct(spec, l, rs)
  {
    assert (ls + [l])[..|ls + [l]| - 1] == ls;
  }

  function Extra(spec: Spec, l: Item, right: seq<Item>, counts: bool): multiset<Joined> {
    if counts then multiset(MatchesOf(spec, l, right)) else multiset{}
  }

  /** A row of the left side belongs to the product of its own key, and to no other. */
  lemma GroupProduct(spec: Spec, left: seq<Item>, right: seq<Item>, k: Option<Value>)
    requires left != []
    ensures multiset(Product(spec, LeftGroup(spec, left, k), RightGroup(spec, right, k))) ==
      multiset(Product(spec, LeftGroup(spec, left[..|left| - 1], k), RightGroup(spec, right, k))) +
      Extra(spec, left[|left| - 1], right, LeftKey(spec)(left[|left| - 1]) == k)
  {
    var init, l := left[..|left| - 1], left[|left| - 1];
    if LeftKey(spec)(l) == k {
      MatchesAreTheGroup(spec, l, right);
      ProductOneMore(spec, LeftGroup(spec, init, k), l, RightGroup(spec, right, k));
    } else {
      assert LeftGroup(spec, left, k) == LeftGroup(spec, init, k);
    }
  }

  function ProductAt(spec: Spec, left: seq<Item>, right: seq<Item>, k: Option<Value>): multiset<Joined> {
    multiset(Product(spec, LeftGroup(spec, left, k), RightGroup(spec, right, k)))
  }

  lemma ByKeysUnfolds(spec: Spec, keys: seq<Option<Value>>, left: seq<Item>, right: seq<Item>)
    requires keys != []
    ensures multiset(ByKeys(spec, keys, left, right)) ==
      multiset(ByKeys(spec, keys[..|keys| - 1], left, right)) + ProductAt(spec, left, right, keys[|keys| - 1])
  {
  }

  lemma ExtraOfKeys(spec: Spec, keys: seq<Option<Value>>, l: Item, right: seq<Item>, k: Option<Value>)
    requires keys != [] && forall i, j :: 0 <= i < j < |keys| ==> keys[i] != keys[j]
    ensures Extra(spec, l, right, k in keys) ==
      Extra(spec, l, right, k in keys[..|keys| - 1]) + Extra(spec, l, right, k == keys[|keys| - 1])
  {
    assert keys == keys[..|keys| - 1] + [keys[|keys| - 1]];
  }

  lemma Combine<T>(whole: multiset<T>, rest: multiset<T>, extra: multiset<T>,
                   a: multiset<T>, b: multiset<T>, c: multiset<T>, d: multiset<T>)
    requires whole == (a + b) + (c + d) && rest == a + c && extra == b + d
    ensures whole == rest + extra
  {
  }

  lemma {:induction false} ByKeysOneMore(spec: Spec, keys: seq<Option<Value>>, left: seq<Item>, right: seq<Item>)
    requires left != [] && forall i, j :: 0 <= i < j < |keys| ==> keys[i] != keys[j]
    ensures multiset(ByKeys(spec, keys, left, right)) ==
      multiset(ByKeys(spec, keys, left[..|left| - 1], right)) +
      Extra(spec, left[|left| - 1], right, LeftKey(spec)(left[|left| - 1]) in keys)
  {
    if keys != [] {
      var init, last, before, l := keys[..|keys| - 1], keys[|keys| - 1], left[..|left| - 1], left[|left| - 1];
      var k := LeftKey(spec)(l);
      ByKeysOneMore(spec, init, left, right);
      GroupProduct(spec, left, right, last);
      ByKeysUnfolds(spec, keys, left, right);
      ByKeysUnfolds(spec, keys, before, right);
      ExtraOfKeys(spec, keys, l, right, k);
      Combine(multiset(ByKeys(spec, keys, left, right)), multiset(ByKeys(spec, keys, before, right)),
              Extra(spec, l, right, k in keys),
              multiset(ByKeys(spec, init, before, right)), Extra(spec, l, right, k in init),
              ProductAt(spec, before, right, last), Extra(spec, l, right, k == last));
    }
  }

  /** A key without rows adds nothing. */
  lemma ByKeysNewKey(spec: Spec, left: seq<Item>, right: seq<Item>)
    requires left != []
    ensures ByKeys(spec, KeysOf(left, LeftKey(spec)), left[..|left| - 1], right) ==
      HashJoined(spec, left[..|left| - 1], right)
  {
    var init, k := left[..|left| - 1], LeftKey(spec)(left[|left| - 1]);
    var before, now := KeysOf(init, LeftKey(spec)), KeysOf(left, LeftKey(spec));
    if k !in before {
      KeysHaveGroups(init, LeftKey(spec), k);
      assert now[..|now| - 1] == before && now[|now| - 1] == k;
      assert Product(spec, LeftGroup(spec, init, k), RightGroup(spec, right, k)) == [];
    }
  }

  lemma {:induction false} KeysHaveLast(rows: seq<Item>, key: Item -> Option<Value>)
    requires rows != []
    ensures key(rows[|rows| - 1]) in KeysOf(rows, key)
  {
    KeysHaveGroups(rows, key, key(rows[|rows| - 1]));
  }

  /** The hash join yields what the nested loop yields, each row as often. */
  lemma {:induction false} HashJoinIsNestedLoop(spec: Spec, left: seq<Item>, right: seq<Item>)
    ensures multiset(HashJoined(spec, left, right)) == multiset(NestedLoop(spec, left, right))
  {
    if left != [] {
      HashJoinIsNestedLoop(spec, left[..|left| - 1], right);
      KeysAreDistinct(left, LeftKey(spec));
      KeysHaveLast(left, LeftKey(spec));
      ByKeysOneMore(spec, KeysOf(left, LeftKey(spec)), left, right);
      ByKeysNewKey(spec, left, right);
    }
  }

  lemma JoinsHaveOneLength(spec: Spec, left: seq<Item>, right: seq<Item>)
    ensures |HashJoined(spec, left, right)| == |NestedLoop(spec, left, right)|
  {
    HashJoinIsNestedLoop(spec, left, right);
    assert |multiset(HashJoined(spec, left, right))| == |multiset(NestedLoop(spec, left, right))|;
  }

  // --- The length check ---

  predicate AllHave(items: seq<Item>, f: Field) { forall i :: 0 <= i < |items| ==> f in items[i] }

  predicate Matches(spec: Spec, l: Item, r: Item) { Get(l, spec.leftField) == Get(r, spec.rightField) }

  predicate HasMatch(spec: Spec, l: Item, right: seq<Item>) {
    exists i :: 0 <= i < |right| && Matches(spec, l, right[i])
  }

  predicate AllMatch(spec: Spec, left: seq<Item>, right: seq<Item>) {
    forall i :: 0 <= i < |left| ==> HasMatch(spec, left[i], right)
  }

  predicate KeysAreUnique(spec: Spec, right: seq<Item>) {
    forall i, j :: 0 <= i < j < |right| ==> Get(right[i], spec.rightField) != Get(right[j], spec.rightField)
  }

  lemma {:induction false} UniqueKeysMatchOnce(spec: Spec, l: Item, right: seq<Item>)
    requires KeysAreUnique(spec, right)
    ensures |MatchesOf(spec, l, right)| == if HasMatch(spec, l, right) then 1 else 0
  {
    if right != [] {
      var init := right[..|right| - 1];
      UniqueKeysMatchOnce(spec, l, init);
      if HasMatch(spec, l, init) {
        var i :| 0 <= i < |init| && Matches(spec, l, init[i]);
        assert right[i] == init[i];
      }
      if i :| 0 <= i < |right| && Matches(spec, l, right[i]) {
        if i < |init| { assert init[i] == right[i]; }
      }
    }
  }

  lemma {:induction false} UniqueKeysJoinAtMostOnce(spec: Spec, left: seq<Item>, right: seq<Item>)
    requires KeysAreUnique(spec, right)
    ensures |NestedLoop(spec, left, right)| <= |left|
    ensures |NestedLoop(spec, left, right)| == |left| <==> AllMatch(spec, left, right)
  {
    if left != [] {
      var init, last := left[..|left| - 1], left[|left| - 1];
      UniqueKeysJoinAtMostOnce(spec, init, right);
      UniqueKeysMatchOnce(spec, last, right);
      assert forall i :: 0 <= i < |init| ==> left[i] == init[i];
    }
  }

  /** With unique keys on the right, the length check passes exactly if every row on the
      left has found its match. */
  lemma LengthCheckIsExact(spec: Spec, left: seq<Item>, right: seq<Item>)
    requires KeysAreUnique(spec, right)
    ensures |HashJoined(spec, left, right)| == |left| <==> AllMatch(spec, left, right)
  {
    JoinsHaveOneLength(spec, left, right);
    UniqueKeysJoinAtMostOnce(spec, left, right);
  }

  lemma {:induction false} MatchIsCounted(spec: Spec, l: Item, right: seq<Item>, i: nat)
    requires i < |right| && Matches(spec, l, right[i])
    ensures |MatchesOf(spec, l, right)| >= 1
  {
    if i < |right| - 1 { MatchIsCounted(spec, l, right[..|right| - 1], i); }
  }

  lemma {:induction false} TwoMatchesAreCounted(spec: Spec, l: Item, right: seq<Item>, i: nat, j: nat)
    requires i < j < |right| && Matches(spec, l, right[i]) && Matches(spec, l, right[j])
    ensures |MatchesOf(spec, l, right)| >= 2
  {
    var init := right[..|right| - 1];
    if j < |init| {
      TwoMatchesAreCounted(spec, l, init, i, j);
    } else {
      MatchIsCounted(spec, l, init, i);
    }
  }

  /** A value above all join fields of the list. */
  function Above(right: seq<Item>, f: Field): Value
    requires AllHave(right, f)
  {
    if right == [] then 0
    else
      var before, last := Above(right[..|right| - 1], f), right[|right| - 1][f];
      if last >= before then last + 1 else before
  }

  lemma {:induction false} AboveIsNew(spec: Spec, l: Item, right: seq<Item>, bound: Value)
    requires AllHave(right, spec.rightField) && Get(l, spec.leftField) == Some(bound)
    requires bound >= Above(right, spec.rightField)
    ensures MatchesOf(spec, l, right) == [] && !HasMatch(spec, l, right)
  {
    if right != [] {
      var init := right[..|right| - 1];
      AboveIsNew(spec, l, init, bound);
      forall i | 0 <= i < |right| ensures !Matches(spec, l, right[i]) {
        if i < |init| { assert init[i] == right[i]; }
      }
    }
  }

  function Copies(b: Item, n: nat): seq<Item> { if n == 0 then [] else Copies(b, n - 1) + [b] }

  lemma {:induction false} CopiesAdd(spec: Spec, a: Item, b: Item, n: nat, right: seq<Item>)
    requires MatchesOf(spec, b, right) == [] && spec.leftField in a && spec.leftField in b
    ensures |[a] + Copies(b, n)| == n + 1 && AllHave([a] + Copies(b, n), spec.leftField)
    ensures |NestedLoop(spec, [a] + Copies(b, n), right)| == |MatchesOf(spec, a, right)|
    ensures n > 0 ==> ([a] + Copies(b, n))[n] == b
  {
    var left := [a] + Copies(b, n);
    if n == 0 {
      assert left == [a] && left[..0] == [];
    } else {
      CopiesAdd(spec, a, b, n - 1, right);
      assert left[..|left| - 1] == [a] + Copies(b, n - 1) && left[|left| - 1] == b;
    }
  }

  /** With a repeated key on the right, one row that matches m times makes up for m - 1
      rows that do not match. */
  lemma RepeatedKeyHidesALoss(spec: Spec, right: seq<Item>) returns (left: seq<Item>)
    requires AllHave(right, spec.rightField) && !KeysAreUnique(spec, right)
    ensures AllHave(left, spec.leftField) && |HashJoined(spec, left, right)| == |left| && !AllMatch(spec, left, right)
  {
    var i, j :| 0 <= i < j < |right| && Get(right[i], spec.rightField) == Get(right[j], spec.rightField);
    var a: Item := map[spec.leftField := right[i][spec.rightField]];
    var b: Item := map[spec.leftField := Above(right, spec.rightField)];
    TwoMatchesAreCounted(spec, a, right, i, j);
    AboveIsNew(spec, b, right, Above(right, spec.rightField));
    var m := |MatchesOf(spec, a, right)|;
    left := [a] + Copies(b, m - 1);
    CopiesAdd(spec, a, b, m - 1, right);
    JoinsHaveOneLength(spec, left, right);
    assert !HasMatch(spec, left[m - 1], right);
  }

  /** The length check tells whether every row has found its match, for all left sides,
      exactly if the keys on the right are unique. */
  lemma LengthCheckIsExactIffKeysAreUnique(spec: Spec, right: seq<Item>)
    requires AllHave(right, spec.rightField)
    ensures (forall left: seq<Item> :: AllHave(left, spec.leftField) ==>
               (|HashJoined(spec, left, right)| == |left| <==> AllMatch(spec, left, right))) <==>
            KeysAreUnique(spec, right)
  {
    if KeysAreUnique(spec, right) {
      forall left: seq<Item> | AllHave(left, spec.leftField)
        ensures |HashJoined(spec, left, right)| == |left| <==> AllMatch(spec, left, right)
      {
        LengthCheckIsExact(spec, left, right);
      }
    } else {
      var left := RepeatedKeyHidesALoss(spec, right);
    }
  }

  // --- The program ---

  /** `field_list_to_dict`. */
  method FieldListToDict(fields: seq<Copy>) returns (dict: seq<Copy>)
    ensures dict == ToDict(fields)
  {
    dict := [];
    for i := 0 to |fields|
      invariant dict == ToDict(fields[..i])
    {
      assert fields[..i + 1][..i] == fields[..i];
      dict := Renamed(dict, fields[i]);
    }
    assert fields[..|fields|] == fields;
  }

  method ProductOf(spec: Spec, ls: seq<Item>, rs: seq<Item>, leftDict: seq<Copy>, rightDict: seq<Copy>)
    returns (rows: seq<Joined>)
    requires leftDict == ToDict(spec.leftFields) && rightDict == ToDict(spec.rightFields)
    ensures rows == Product(spec, ls, rs)
  {
    rows := [];
    for i := 0 to |ls|
      invariant rows == Product(spec, ls[..i], rs)
    {
      var row: seq<Joined> := [];
      for j := 0 to |rs|
        invariant row == RowProduct(spec, ls[i], rs[..j])
      {
        assert rs[..j + 1][..j] == rs[..j];
        row := row + [Project(Project(map[], ls[i], leftDict), rs[j], rightDict)];
      }
      assert rs[..|rs|] == rs && ls[..i + 1][..i] == ls[..i];
      rows := rows + row;
    }
    assert ls[..|ls|] == ls;
  }

  /** `None` is the exception for an item without its join field. */
  method Join(spec: Spec, left: seq<Item>, right: seq<Item>) returns (result: Option<seq<Joined>>)
    ensures result.Some? <==> AllHave(left, spec.leftField) && AllHave(right, spec.rightField)
    ensures result.Some? ==> result.value == HashJoined(spec, left, right)
  {
    var leftDict := FieldListToDict(spec.leftFields);
    var rightDict := FieldListToDict(spec.rightFields);
    if !AllHave(left, spec.leftField) || !AllHave(right, spec.rightField) { return None; }
    var keys, leftMap := GroupByKey(left, LeftKey(spec));
    var _, rightMap := GroupByKey(right, RightKey(spec));
    var rows: seq<Joined> := [];
    for i := 0 to |keys|
      invariant rows == ByKeys(spec, keys[..i], left, right)
    {
      assert keys[..i + 1][..i] == keys[..i] && keys[i] in keys;
      KeysHaveGroups(right, RightKey(spec), keys[i]);
      var partners := if keys[i] in rightMap then rightMap[keys[i]] else [];
      assert partners == RightGroup(spec, right, keys[i]);
      var product := ProductOf(spec, leftMap[keys[i]], partners, leftDict, rightDict);
      rows := rows + product;
    }
    assert keys[..|keys|] == keys;
    result := Some(rows);
  }

  /** `enrich_transactions` and its siblings; `None` is an exception. Receipts have
      different hashes, so a result means that every row has its partner. */
  method Enrich(spec: Spec, left: seq<Item>, right: seq<Item>) returns (result: Option<seq<Joined>>)
    ensures result.Some? ==> multiset(result.value) == multiset(NestedLoop(spec, left, right))
    ensures KeysAreUnique(spec, right) ==>
      (result.Some? <==>
       AllHave(left, spec.leftField) && AllHave(right, spec.rightField) && AllMatch(spec, left, right))
  {
    result := Join(spec, left, right);
    HashJoinIsNestedLoop(spec, left, right);
    if KeysAreUnique(spec, right) { LengthCheckIsExact(spec, left, right); }
    if result.Some? && |result.value| != |left| { result := None; }
  }
}
