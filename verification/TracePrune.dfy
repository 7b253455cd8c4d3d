/** `prune_delegates`: cutting delegate proxies out of a call tree, in place. */
module TracePrune {
  import opened Common
  import opened TraceRows
  import opened TraceOrder
  import opened TraceAddress
  import opened TraceTree

  // --- The specification, on values ---

  /** A node whose one call is a delegatecall. */
  predicate IsProxy(t: Tree) {
    |t.calls| == 1 && t.calls[0].row.Some? && t.calls[0].row.value.callType == "delegatecall"
  }

  function Pruned(t: Tree): Tree
    decreases t, |t.calls| + 1
  {
    if IsProxy(t) then Pruned(t.calls[0]) else Tree(t.row, PrunedKids(t, |t.calls|))
  }

  function PrunedKids(t: Tree, k: nat): (r: seq<Tree>)
    requires k <= |t.calls|
    ensures |r| == k
    decreases t, k
  {
    if k == 0 then [] else PrunedKids(t, k - 1) + [Pruned(t.calls[k - 1])]
  }

  lemma {:induction false} PrunedKidAt(t: Tree, k: nat, i: nat)
    requires i < k <= |t.calls|
    ensures PrunedKids(t, k)[i] == Pruned(t.calls[i])
  {
    if i < k - 1 { PrunedKidAt(t, k - 1, i); }
  }

  /** Every only call has a row, so that its `call_type` can be read. */
  predicate OnlyCallsHaveRows(t: Tree) {
    (|t.calls| == 1 ==> t.calls[0].row.Some?) &&
    forall i :: 0 <= i < |t.calls| ==> OnlyCallsHaveRows(t.calls[i])
  }

  /** The nodes of a tree in preorder, each with the subtree it heads. */
  function Subtrees(t: Tree): seq<Tree>
    decreases t, |t.calls| + 1
  {
    [t] + SubtreesOfKids(t, |t.calls|)
  }

  function SubtreesOfKids(t: Tree, k: nat): seq<Tree>
    requires k <= |t.calls|
    decreases t, k
  {
    if k == 0 then [] else SubtreesOfKids(t, k - 1) + Subtrees(t.calls[k - 1])
  }

  /** The row of a node, as a list: empty for a proxy. */
  function KeptRow(t: Tree): seq<Option<Trace>> {
    if IsProxy(t) then [] else [t.row]
  }

  /** The rows of the nodes that are not proxies. */
  function KeptRows(nodes: seq<Tree>): seq<Option<Trace>> {
    if nodes == [] then [] else KeptRows(nodes[..|nodes| - 1]) + KeptRow(nodes[|nodes| - 1])
  }

  function LeafRow(t: Tree): seq<Option<Trace>> {
    if |t.calls| == 0 then [t.row] else []
  }

  /** The rows of the nodes without calls. */
  function LeafRows(nodes: seq<Tree>): seq<Option<Trace>> {
    if nodes == [] then [] else LeafRows(nodes[..|nodes| - 1]) + LeafRow(nodes[|nodes| - 1])
  }

  lemma {:induction false} KeptRowsAppend(a: seq<Tree>, b: seq<Tree>)
    ensures KeptRows(a + b) == KeptRows(a) + KeptRows(b)
  {
    if b == [] {
      assert a + b == a;
    } else {
      var init, last := b[..|b| - 1], b[|b| - 1];
      KeptRowsAppend(a, init);
      assert (a + b)[..|a + b| - 1] == a + init;
      Associate(KeptRows(a), KeptRows(init), KeptRow(last));
    }
  }

  lemma {:induction false} LeafRowsAppend(a: seq<Tree>, b: seq<Tree>)
    ensures LeafRows(a + b) == LeafRows(a) + LeafRows(b)
  {
    if b == [] {
      assert a + b == a;
    } else {
      var init, last := b[..|b| - 1], b[|b| - 1];
      LeafRowsAppend(a, init);
      assert (a + b)[..|a + b| - 1] == a + init;
      Associate(LeafRows(a), LeafRows(init), LeafRow(last));
    }
  }

  /** Pruning is a filter: the preorder of the pruned tree is the preorder of the tree
      without the rows of exactly those nodes that are proxies in the original tree. */
  lemma {:induction false} PruningIsAFilter(t: Tree)
    ensures Preorder(Pruned(t)) == KeptRows(Subtrees(t))
    decreases t, |t.calls| + 1
  {
    KeptRowsAppend([t], SubtreesOfKids(t, |t.calls|));
    if IsProxy(t) {
      PruningIsAFilter(t.calls[0]);
      assert SubtreesOfKids(t, 1) == SubtreesOfKids(t, 0) + Subtrees(t.calls[0]) == Subtrees(t.calls[0]);
    } else {
      KidsArePruned(t);
      PruningKidsIsAFilter(t, |t.calls|, Pruned(t));
    }
    assert KeptRows([t]) == KeptRow(t) by { assert [t][..0] == []; }
  }

  /** The calls of `p` are the pruned calls of `t`. */
  ghost predicate PrunedCalls(t: Tree, p: Tree) {
    |p.calls| == |t.calls| && forall i :: 0 <= i < |t.calls| ==> p.calls[i] == Pruned(t.calls[i])
  }

  lemma KidsArePruned(t: Tree)
    requires !IsProxy(t)
    ensures PrunedCalls(t, Pruned(t))
  {
    forall i | 0 <= i < |t.calls| ensures Pruned(t).calls[i] == Pruned(t.calls[i]) {
      PrunedKidAt(t, |t.calls|, i);
    }
  }

  lemma {:induction false} PruningKidsIsAFilter(t: Tree, k: nat, p: Tree)
    requires PrunedCalls(t, p) && k <= |t.calls|
    ensures PreorderOfKids(p, k) == KeptRows(SubtreesOfKids(t, k))
    decreases t, k
  {
    if k > 0 {
      PruningKidsIsAFilter(t, k - 1, p);
      PruningIsAFilter(t.calls[k - 1]);
      FilterStep(t, k, p);
    }
  }

  lemma FilterStep(t: Tree, k: nat, p: Tree)
    requires 0 < k <= |t.calls| == |p.calls|
    requires PreorderOfKids(p, k - 1) == KeptRows(SubtreesOfKids(t, k - 1))
    requires Preorder(p.calls[k - 1]) == KeptRows(Subtrees(t.calls[k - 1]))
    ensures PreorderOfKids(p, k) == KeptRows(SubtreesOfKids(t, k))
  {
    KeptRowsAppend(SubtreesOfKids(t, k - 1), Subtrees(t.calls[k - 1]));
  }

  /** The calls at the bottom of the tree stay, in their order from left to right. */
  lemma {:induction false} PruningKeepsLeaves(t: Tree)
    ensures LeafRows(Subtrees(Pruned(t))) == LeafRows(Subtrees(t))
    decreases t, |t.calls| + 1
  {
    var p := Pruned(t);
    LeafRowsAppend([t], SubtreesOfKids(t, |t.calls|));
    assert [t][..0] == [];
    if IsProxy(t) {
      PruningKeepsLeaves(t.calls[0]);
      assert SubtreesOfKids(t, 1) == SubtreesOfKids(t, 0) + Subtrees(t.calls[0]) == Subtrees(t.calls[0]);
    } else {
      KidsArePruned(t);
      PruningKidsKeepsLeaves(t, |t.calls|, p);
      LeafRowsAppend([p], SubtreesOfKids(p, |p.calls|));
      assert [p][..0] == [];
    }
  }

  lemma {:induction false} PruningKidsKeepsLeaves(t: Tree, k: nat, p: Tree)
    requires PrunedCalls(t, p) && k <= |t.calls|
    ensures LeafRows(SubtreesOfKids(p, k)) == LeafRows(SubtreesOfKids(t, k))
    decreases t, k
  {
    if k > 0 {
      PruningKidsKeepsLeaves(t, k - 1, p);
      PruningKeepsLeaves(t.calls[k - 1]);
      LeavesStep(t, k);
      LeavesStep(p, k);
    }
  }

  lemma LeavesStep(t: Tree, k: nat)
    requires 0 < k <= |t.calls|
    ensures LeafRows(SubtreesOfKids(t, k)) ==
      LeafRows(SubtreesOfKids(t, k - 1)) + LeafRows(Subtrees(t.calls[k - 1]))
  {
    LeafRowsAppend(SubtreesOfKids(t, k - 1), Subtrees(t.calls[k - 1]));
  }

  // --- When a second pruning would change something ---

  predicate NoProxy(t: Tree) {
    !IsProxy(t) && forall i :: 0 <= i < |t.calls| ==> NoProxy(t.calls[i])
  }

  /** No node that stays has a proxy as its only call. */
  predicate Settled(t: Tree) {
    (|t.calls| == 1 && !IsProxy(t) ==> !IsProxy(t.calls[0])) &&
    forall i :: 0 <= i < |t.calls| ==> Settled(t.calls[i])
  }

  /** Pruning is not idempotent in general: a second run changes nothing exactly when,
      in the original tree, no surviving node has a proxy as its only call. */
  lemma PruningTwice(t: Tree)
    ensures Pruned(Pruned(t)) == Pruned(t) <==> Settled(t)
  {
    PrunedIsSameIffNoProxy(Pruned(t));
    NoProxyLeftIffSettled(t);
  }

  /** What is left of a proxy is headed by a delegatecall. */
  lemma {:induction false} PrunedProxyIsDelegatecall(t: Tree)
    requires IsProxy(t)
    ensures Pruned(t).row.Some? && Pruned(t).row.value.callType == "delegatecall"
  {
    if IsProxy(t.calls[0]) { PrunedProxyIsDelegatecall(t.calls[0]); }
  }

  lemma {:induction false} NoProxyLeftIffSettled(t: Tree)
    ensures NoProxy(Pruned(t)) <==> Settled(t)
  {
    forall i | 0 <= i < |t.calls| ensures NoProxy(Pruned(t.calls[i])) <==> Settled(t.calls[i]) {
      NoProxyLeftIffSettled(t.calls[i]);
    }
    if !IsProxy(t) {
      var p := Pruned(t);
      KidsArePruned(t);
      if |t.calls| == 1 && IsProxy(t.calls[0]) { PrunedProxyIsDelegatecall(t.calls[0]); }
    }
  }

  /** The number of nodes. */
  function Count(t: Tree): nat
    decreases t, |t.calls| + 1
  {
    1 + CountOfKids(t, |t.calls|)
  }

  function CountOfKids(t: Tree, k: nat): nat
    requires k <= |t.calls|
    decreases t, k
  {
    if k == 0 then 0 else CountOfKids(t, k - 1) + Count(t.calls[k - 1])
  }

  lemma {:induction false} PruningShrinks(t: Tree)
    ensures Count(Pruned(t)) <= Count(t)
    ensures IsProxy(t) ==> Count(Pruned(t)) < Count(t)
    decreases t, |t.calls| + 1
  {
    if IsProxy(t) {
      PruningShrinks(t.calls[0]);
      assert CountOfKids(t, 1) == CountOfKids(t, 0) + Count(t.calls[0]);
    } else {
      PruningKidsShrinks(t, |t.calls|);
    }
  }

  lemma {:induction false} PruningKidsShrinks(t: Tree, k: nat)
    requires !IsProxy(t) && k <= |t.calls|
    ensures CountOfKids(Pruned(t), k) <= CountOfKids(t, k)
    decreases t, k
  {
    if k > 0 {
      PruningKidsShrinks(t, k - 1);
      PruningShrinks(t.calls[k - 1]);
      PrunedKidAt(t, |t.calls|, k - 1);
    }
  }

  lemma {:induction false} PrunedIsSameIffNoProxy(t: Tree)
    ensures Pruned(t) == t <==> NoProxy(t)
  {
    PruningShrinks(t);
    if !IsProxy(t) {
      forall i | 0 <= i < |t.calls| ensures Pruned(t.calls[i]) == t.calls[i] <==> NoProxy(t.calls[i]) {
        PrunedIsSameIffNoProxy(t.calls[i]);
      }
      KidsArePruned(t);
      if NoProxy(t) { assert Pruned(t).calls == t.calls; }
    }
  }

  // --- Parts of a heap tree ---

  /** The nodes under the i-th call, by their paths from there. */
  ghost function Sub(nodes: Nodes, i: nat): (r: Nodes)
    ensures forall p :: p in r <==> [i] + p in nodes
    ensures forall p :: p in r ==> r[p] == nodes[[i] + p]
  {
    var keys := set q | q in nodes && q != [] && q[0] == i :: q[1..];
    assert forall p: Path :: ([i] + p)[1..] == p;
    assert forall q: Path :: q != [] ==> q == [q[0]] + q[1..];
    map p | p in keys :: nodes[[i] + p]
  }

  lemma UnderKid(i: nat, p: Path, j: nat)
    ensures Kid([i] + p, j) == [i] + Kid(p, j)
    ensures Kid([], i) == [i] + []
  {
  }

  /** The part of a copy of `t` under its i-th call is a copy of that call. */
  lemma SubHolds(root: TraceNode, nodes: Nodes, all: set<TraceNode>, t: Tree, i: nat)
    requires Holds(root, nodes, all, t) && i < |t.calls|
    ensures |root.calls| == |t.calls|
    ensures Holds(root.calls[i], Sub(nodes, i), Sub(nodes, i).Values, t.calls[i])
    ensures Sub(nodes, i).Values <= all - {root}
  {
    CallCountsAgree(root, nodes, all, t);
    var sub := Sub(nodes, i);
    UnderKid(i, [], 0);
    assert sub[[]] == root.calls[i];
    forall p: Path, j: nat
      ensures Kid(p, j) in sub <==> p in sub && j < |sub[p].calls|
      ensures Kid(p, j) in sub && p in sub ==> sub[p].calls[j] == sub[Kid(p, j)]
    {
      UnderKid(i, p, j);
    }
    forall p, q | p in sub && q in sub && sub[p] == sub[q] ensures p == q {
      assert ([i] + p)[1..] == p && ([i] + q)[1..] == q;
    }
    forall p: Path ensures p in sub <==> ValidPath(t.calls[i], p) {
      assert ([i] + p)[1..] == p;
    }
    forall p | p in sub ensures sub[p].row == At(t.calls[i], p).row && sub[p] != root {
      assert ([i] + p)[1..] == p && [i] + p != [];
    }
  }

  lemma CallCountsAgree(root: TraceNode, nodes: Nodes, all: set<TraceNode>, t: Tree)
    requires Holds(root, nodes, all, t)
    ensures |root.calls| == |t.calls| && root.row == t.row
  {
    var a, b := |root.calls|, |t.calls|;
    assert Kid([], a) == [a] && Kid([], b) == [b];
    assert Kid([], a) !in nodes && !ValidPath(t, [b]);
    assert ValidPath(t, [a]) <==> a < b;
    assert Kid([], b) in nodes <==> b < a;
    assert [] in nodes && At(t, []) == t;
  }

  /** Different calls of a tree have no dictionary in common. */
  lemma SubsAreDisjoint(root: TraceNode, nodes: Nodes, all: set<TraceNode>, i: nat, j: nat)
    requires IsTree(root, nodes, all) && i != j
    ensures Sub(nodes, i).Values !! Sub(nodes, j).Values
  {
    var a, b := Sub(nodes, i), Sub(nodes, j);
    forall p, q | p in a && q in b ensures a[p] != b[q] {
      assert ([i] + p)[0] == i && ([j] + q)[0] == j;
    }
  }

  // --- Copies of a tree, node by node ---

  /** The dictionaries of a structure, arranged as the structure is; `own` is what
      it may use. */
  datatype Shape = Shape(node: TraceNode, own: set<TraceNode>, calls: seq<Shape>)

  /** No dictionary occurs twice: the calls live apart from each other and from the node. */
  ghost predicate Unshared(s: Shape) {
    s.node in s.own &&
    (forall i :: 0 <= i < |s.calls| ==> Unshared(s.calls[i]) && s.calls[i].own <= s.own - {s.node}) &&
    (forall i, j :: 0 <= i < j < |s.calls| ==> s.calls[i].own !! s.calls[j].own)
  }

  /** The dictionaries hold the rows of `t` and are linked as `t` is. */
  ghost predicate Shows(s: Shape, t: Tree)
    requires Unshared(s)
    reads s.own
  {
    && s.node.row == t.row
    && |s.node.calls| == |s.calls| == |t.calls|
    && forall i :: 0 <= i < |s.calls| ==>
      s.node.calls[i] == s.calls[i].node && Shows(s.calls[i], t.calls[i])
  }

  /** The shapes are unshared and live inside the calls of `s`. */
  ghost predicate Within(s: Shape, kids: seq<Shape>) {
    |kids| == |s.calls| &&
    forall j :: 0 <= j < |kids| ==> Unshared(kids[j]) && kids[j].own <= s.calls[j].own
  }

  lemma ReplacingCallsIsUnshared(s: Shape, kids: seq<Shape>)
    requires Unshared(s) && Within(s, kids)
    ensures Unshared(Shape(s.node, s.own, kids))
  {
    forall i, j | 0 <= i < j < |kids| ensures kids[i].own !! kids[j].own {
      assert s.calls[i].own !! s.calls[j].own;
    }
  }

  /** The flat listing of an unshared copy gives its shape. */
  lemma {:induction false} ReadShape(root: TraceNode, nodes: Nodes, all: set<TraceNode>, t: Tree)
    returns (s: Shape)
    requires Holds(root, nodes, all, t)
    ensures s.node == root && Unshared(s) && Shows(s, t) && s.own <= nodes.Values
    decreases t, |t.calls| + 1
  {
    CallCountsAgree(root, nodes, all, t);
    var kids := ReadShapesOfCalls(root, nodes, all, t, |t.calls|);
    s := Shape(root, nodes.Values, kids);
    forall i | 0 <= i < |kids| ensures root !in kids[i].own && kids[i].own <= nodes.Values {
      SubHolds(root, nodes, all, t, i);
    }
    forall i, j | 0 <= i < j < |kids| ensures kids[i].own !! kids[j].own {
      SubsAreDisjoint(root, nodes, all, i, j);
    }
  }

  /** `kid` is an unshared copy of the i-th call, inside the nodes under it. */
  ghost predicate IsShapeOfCall(kid: Shape, root: TraceNode, nodes: Nodes, t: Tree, i: nat)
    requires i < |t.calls|
    reads root, kid.own
  {
    Unshared(kid) && i < |root.calls| && kid.node == root.calls[i] && Shows(kid, t.calls[i]) &&
    kid.own <= Sub(nodes, i).Values
  }

  lemma {:induction false} ReadShapesOfCalls(root: TraceNode, nodes: Nodes, all: set<TraceNode>, t: Tree, k: nat)
    returns (kids: seq<Shape>)
    requires Holds(root, nodes, all, t) && k <= |t.calls|
    ensures |kids| == k
    ensures forall j :: 0 <= j < k ==> IsShapeOfCall(kids[j], root, nodes, t, j)
    decreases t, k
  {
    kids := [];
    if k > 0 {
      var before := ReadShapesOfCalls(root, nodes, all, t, k - 1);
      SubHolds(root, nodes, all, t, k - 1);
      var kid := ReadShape(root.calls[k - 1], Sub(nodes, k - 1), Sub(nodes, k - 1).Values, t.calls[k - 1]);
      assert IsShapeOfCall(kid, root, nodes, t, k - 1);
      kids := before + [kid];
    }
  }

  // --- The program ---

  /** Prunes the structure under `node` in place and returns its new root; `ok` is
      false for the KeyError of reading the `call_type` of a node without a row. */
  method PruneDelegates(node: TraceNode, ghost s: Shape, ghost t: Tree)
    returns (ok: bool, root: TraceNode, ghost s': Shape)
    requires s.node == node && Unshared(s) && Shows(s, t)
    modifies s.own`calls
    ensures ok <==> OnlyCallsHaveRows(t)
    ensures ok ==> s'.node == root && Unshared(s') && Shows(s', Pruned(t)) && s'.own <= s.own
    decreases t
  {
    root, s' := node, s;
    ghost var left := t;
    while |root.calls| == 1
      invariant s'.node == root && Unshared(s') && Shows(s', left) && s'.own <= s.own
      invariant left == t || left < t
      invariant OnlyCallsHaveRows(t) <==> OnlyCallsHaveRows(left)
      invariant Pruned(t) == Pruned(left)
      decreases left
    {
      var only := root.calls[0];
      assert only == s'.calls[0].node && Shows(s'.calls[0], left.calls[0]);
      if only.row == None { return false, root, s'; }
      if only.row.value.callType != "delegatecall" { break; }
      root, s', left := only, s'.calls[0], left.calls[0];
    }
    ok, s' := PruneCalls(root, s', left);
  }

  /** The calls of `s.node` are shaped as `kids`; the first `i` of them are pruned. */
  ghost predicate Halfway(s: Shape, kids: seq<Shape>, t: Tree, i: nat)
    reads s.own
  {
    && Unshared(s) && Within(s, kids)
    && s.node.row == t.row && |s.node.calls| == |kids| == |t.calls|
    && forall j :: 0 <= j < |kids| ==>
      s.node.calls[j] == kids[j].node && Shows(kids[j], if j < i then Pruned(t.calls[j]) else t.calls[j])
  }

  /** The loop over the calls of a node that stays. */
  method PruneCalls(node: TraceNode, ghost s: Shape, ghost t: Tree) returns (ok: bool, ghost s': Shape)
    requires s.node == node && Unshared(s) && Shows(s, t)
    requires !IsProxy(t) && (|t.calls| == 1 ==> t.calls[0].row.Some?)
    modifies s.own`calls
    ensures ok <==> OnlyCallsHaveRows(t)
    ensures ok ==> s'.node == node && Unshared(s') && Shows(s', Pruned(t)) && s'.own <= s.own
    decreases t, 1
  {
    ghost var kids := s.calls;
    for i := 0 to |node.calls|
      invariant Halfway(s, kids, t, i) && |node.calls| == |t.calls|
      invariant forall j :: 0 <= j < i ==> OnlyCallsHaveRows(t.calls[j])
    {
      ok, kids := PruneCall(node, i, s, kids, t);
      if !ok { return false, s; }
    }
    ok, s' := true, Shape(node, s.own, kids);
    ReplacingCallsIsUnshared(s, kids);
    KidsArePruned(t);
  }

  method PruneCall(node: TraceNode, i: nat, ghost s: Shape, ghost kids: seq<Shape>, ghost t: Tree)
    returns (ok: bool, ghost kids': seq<Shape>)
    requires s.node == node && Halfway(s, kids, t, i) && i < |t.calls|
    modifies s.own`calls
    ensures ok <==> OnlyCallsHaveRows(t.calls[i])
    ensures ok ==> Halfway(s, kids', t, i + 1)
    decreases t, 0
  {
    ReplacingCallsIsUnshared(s, kids);
    assert forall j :: 0 <= j < |kids| && j != i ==> kids[j].own !! kids[i].own by {
      assert Unshared(Shape(node, s.own, kids));
    }
    var child;
    ghost var kid;
    ok, child, kid := PruneDelegates(node.calls[i], kids[i], t.calls[i]);
    kids' := kids;
    if ok {
      node.calls := node.calls[i := child];
      kids' := kids[i := kid];
    }
  }

  // --- Which calls of the debug node are cut out ---

  /** A call whose one call is a delegatecall. */
  predicate IsProxyCall(c: Call) { |c.calls| == 1 && Lower(c.calls[0].kind) == "delegatecall" }

  /** The payloads of the other calls, each before its own calls, from left to right. */
  function KeptPayloads(c: Call): seq<Payload>
    decreases c, |c.calls| + 1
  {
    (if IsProxyCall(c) then [] else [c.payload]) + KeptPayloadsOfKids(c, |c.calls|)
  }

  function KeptPayloadsOfKids(c: Call, k: nat): seq<Payload>
    requires k <= |c.calls|
    decreases c, k
  {
    if k == 0 then [] else KeptPayloadsOfKids(c, k - 1) + KeptPayloads(c.calls[k - 1])
  }

  function PayloadsOf(rows: seq<Option<Trace>>): seq<Payload> {
    if rows == [] then []
    else
      var last := rows[|rows| - 1];
      PayloadsOf(rows[..|rows| - 1]) + if last.Some? then [last.value.payload] else []
  }

  /** Proxies among the rows are the calls that only delegate, and no others. */
  lemma ProxiesAreDelegations(ctx: Context, c: Call, address: Path, index: nat)
    ensures IsProxy(TreeOf(ctx, c, address, index)) <==> IsProxyCall(c)
  {
    var t := TreeOf(ctx, c, address, index);
    if |c.calls| == 1 {
      KidTreeAt(ctx, c, 1, address, index, 0);
      assert ValidPath(t.calls[0], []) && ValidPath(t, [0]) && [0][1..] == [];
      assert At(t, [0]) == At(t.calls[0], []) == t.calls[0];
      RowTypesByKind(ctx, c, address, index, [0]);
      assert CallAt(c, [0]) == CallAt(c.calls[0], []) == c.calls[0];
    }
  }

  lemma {:induction false} PayloadsAppend(a: seq<Option<Trace>>, b: seq<Option<Trace>>)
    ensures PayloadsOf(a + b) == PayloadsOf(a) + PayloadsOf(b)
  {
    if b == [] {
      assert a + b == a;
    } else {
      PayloadsAppend(a, b[..|b| - 1]);
      assert (a + b)[..|a + b| - 1] == a + b[..|b| - 1];
    }
  }

  /** What is kept of the tree are the payloads kept of the call. */
  predicate KeepsPayloads(t: Tree, c: Call) { PayloadsOf(KeptRows(Subtrees(t))) == KeptPayloads(c) }

  lemma {:induction false} KeptRowsArePayloads(ctx: Context, c: Call, address: Path, index: nat, t: Tree)
    requires t == TreeOf(ctx, c, address, index)
    ensures KeepsPayloads(t, c)
    decreases c, |c.calls| + 1
  {
    KidsKeepPayloads(ctx, c, |c.calls|, address, index, t);
    ProxiesAreDelegations(ctx, c, address, index);
    NodeKeepsPayloads(t, c);
  }

  lemma NodeKeepsPayloads(t: Tree, c: Call)
    requires t.row.Some? && t.row.value.payload == c.payload && |t.calls| == |c.calls|
    requires IsProxy(t) <==> IsProxyCall(c)
    requires KeptBelow(t, |t.calls|) == KeptPayloadsOfKids(c, |c.calls|)
    ensures KeepsPayloads(t, c)
  {
    KeptPayloadsAppend([t], SubtreesOfKids(t, |t.calls|));
    assert KeptRows([t]) == KeptRow(t) by { assert [t][..0] == []; }
    PayloadOfRow(t, c.payload);
  }

  lemma PayloadOfRow(t: Tree, payload: Payload)
    requires t.row.Some? && t.row.value.payload == payload
    ensures PayloadsOf(KeptRow(t)) == if IsProxy(t) then [] else [payload]
  {
    assert [t.row][..0] == [];
  }

  /** What is kept below the first `k` calls of a node. */
  function KeptBelow(t: Tree, k: nat): seq<Payload>
    requires k <= |t.calls|
  {
    PayloadsOf(KeptRows(SubtreesOfKids(t, k)))
  }

  lemma KeptBelowOneMore(t: Tree, k: nat)
    requires 0 < k <= |t.calls|
    ensures KeptBelow(t, k) == KeptBelow(t, k - 1) + PayloadsOf(KeptRows(Subtrees(t.calls[k - 1])))
  {
    KeptPayloadsAppend(SubtreesOfKids(t, k - 1), Subtrees(t.calls[k - 1]));
  }

  lemma KidOfTree(ctx: Context, c: Call, address: Path, index: nat, i: nat)
    requires i < |c.calls|
    ensures |TreeOf(ctx, c, address, index).calls| == |c.calls|
    ensures TreeOf(ctx, c, address, index).calls[i] ==
      TreeOf(ctx, c.calls[i], address + [i], index + 1 + SizeOfKids(c, i))
  {
    KidTreeAt(ctx, c, |c.calls|, address, index, i);
  }

  lemma {:induction false} KidsKeepPayloads(ctx: Context, c: Call, k: nat, address: Path, index: nat, t: Tree)
    requires t == TreeOf(ctx, c, address, index) && k <= |c.calls| == |t.calls|
    ensures KeptBelow(t, k) == KeptPayloadsOfKids(c, k)
    decreases c, k
  {
    if k > 0 {
      KidsKeepPayloads(ctx, c, k - 1, address, index, t);
      KidOfTree(ctx, c, address, index, k - 1);
      KeptRowsArePayloads(ctx, c.calls[k - 1], address + [k - 1], index + 1 + SizeOfKids(c, k - 1), t.calls[k - 1]);
      OneMoreKeepsPayloads(t, c, k);
    }
  }

  lemma OneMoreKeepsPayloads(t: Tree, c: Call, k: nat)
    requires 0 < k <= |c.calls| == |t.calls|
    requires KeptBelow(t, k - 1) == KeptPayloadsOfKids(c, k - 1) && KeepsPayloads(t.calls[k - 1], c.calls[k - 1])
    ensures KeptBelow(t, k) == KeptPayloadsOfKids(c, k)
  {
    KeptBelowOneMore(t, k);
  }

  lemma KeptPayloadsAppend(a: seq<Tree>, b: seq<Tree>)
    ensures PayloadsOf(KeptRows(a + b)) == PayloadsOf(KeptRows(a)) + PayloadsOf(KeptRows(b))
  {
    KeptRowsAppend(a, b);
    PayloadsAppend(KeptRows(a), KeptRows(b));
  }

  /** From the answer of the debug node to the pruned tree: what is left, in preorder, are
      the calls that do more than delegate. */
  lemma PruningCutsDelegations(ctx: Context, c: Call)
    ensures PayloadsOf(Preorder(Pruned(TreeOf(ctx, c, [], 0)))) == KeptPayloads(c)
  {
    PruningIsAFilter(TreeOf(ctx, c, [], 0));
    KeptRowsArePayloads(ctx, c, [], 0, TreeOf(ctx, c, [], 0));
  }

  // --- From the debug node to the explorer ---

  lemma {:induction false} AddressedTreeIsTyped(t: Tree, address: Path)
    requires Addressed(t, address)
    ensures OnlyCallsHaveRows(t)
  {
    forall i | 0 <= i < |t.calls| ensures OnlyCallsHaveRows(t.calls[i]) && t.calls[i].row.Some? {
      KidIsAddressed(t, i, address);
      AddressedTreeIsTyped(t.calls[i], address + [i]);
      assert ValidPath(t.calls[i], []) && At(t.calls[i], []) == t.calls[i];
    }
  }

  /** `get_debug_trace_transaction` on rows in tree order: an unshared copy of the pruned
      tree that the rows grow. `None` is the ValueError of an address that is no list of
      integers, or the KeyError of an only call without a row, and nothing else fails. */
  method GetDebugTraceTransaction(rows: seq<ApiRow>, ghost t: Tree)
    returns (result: Option<TraceNode>, ghost shape: Option<Shape>)
    requires Readable(rows) ==> Grows(rows, t)
    ensures result.Some? <==> Readable(rows) && OnlyCallsHaveRows(t)
    ensures result.Some? ==>
      shape.Some? && result.value == shape.value.node && Unshared(shape.value) && Shows(shape.value, Pruned(t))
  {
    var root, all, nodes := BuildTree(rows);
    if root == None { return None, None; }
    RowsBuildTheTree(rows, t, root.value, nodes, all);
    ghost var built := ReadShape(root.value, nodes, all, t);
    assert built.own <= all;
    var ok, top;
    ghost var pruned;
    ok, top, pruned := PruneDelegates(root.value, built, t);
    result, shape := if ok then Some(top) else None, Some(pruned);
  }

  /** On the rows of a call tree neither exception can occur. */
  lemma CallTreesAreReadable(rows: seq<ApiRow>, t: Tree)
    requires Addressed(t, []) && RowsOf(rows, t)
    ensures Readable(rows) && Grows(rows, t) && OnlyCallsHaveRows(t)
  {
    RowsGrowTheTree(rows, t);
    AddressedTreeIsTyped(t, []);
  }

  /** However the rows of a call tree were stored, the query by address, the text form
      of the addresses and the parser bring them to the builder as the rows of it. */
  lemma StoredRowsReachTheExplorer(ctx: Context, c: Call, traces: seq<Trace>, stored: seq<Trace>,
                                   rows: seq<ApiRow>)
    requires Stored(traces) == Preorder(TreeOf(ctx, c, [], 0))
    requires multiset(stored) == multiset(traces) && |rows| == |stored|
    requires var queried := SortBy(stored, AddressKey);
      |queried| == |rows| &&
      forall i :: 0 <= i < |rows| ==> rows[i] == ApiRow(queried[i], AddressText(queried[i].traceAddress))
    ensures Addressed(TreeOf(ctx, c, [], 0), []) && RowsOf(rows, TreeOf(ctx, c, [], 0))
  {
    var t := TreeOf(ctx, c, [], 0);
    FlattenedTreeIsAddressed(ctx, c, 0);
    QueryReturnsPreorder(t, stored, traces);
    forall i | 0 <= i < |rows|
      ensures Preorder(t)[i] == Some(rows[i].trace)
      ensures ParseTraceAddress(rows[i].address) == Some(rows[i].trace.traceAddress)
    {
      assert Stored(traces)[i] == Some(traces[i]);
      ParseInvertsText(traces[i].traceAddress);
    }
  }
}
