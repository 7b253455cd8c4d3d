/** `get_debug_trace_transaction`: growing a tree of dictionaries from trace rows,
    in place, and cutting delegate proxies out of it, in place. */
module TraceTree {
  import opened Common
  import opened TraceRows
  import opened TraceOrder
  import opened TraceAddress

  /** A dictionary of the tree. `row` is absent in `{}`; an absent `calls` key and
      an empty list behave alike, so `calls` is then empty. */
  class TraceNode {
    var row: Option<Trace>
    var calls: seq<TraceNode>

    constructor ()
      ensures row == None && calls == []
    {
      row, calls := None, [];
    }
  }

  type Nodes = map<Path, TraceNode>

  /** `nodes` lists the dictionaries under `root` by path, and no dictionary sits
      at two paths. */
  ghost predicate IsTree(root: TraceNode, nodes: Nodes, all: set<TraceNode>)
    reads all`calls
  {
    && (forall p :: p in nodes ==> nodes[p] in all)
    && [] in nodes && nodes[[]] == root
    && (forall p, q :: p in nodes && q in nodes && nodes[p] == nodes[q] ==> p == q)
    && (forall p: Path, i: nat :: Kid(p, i) in nodes <==> p in nodes && i < |nodes[p].calls|)
    && (forall p: Path, i: nat :: p in nodes && Kid(p, i) in nodes ==> nodes[p].calls[i] == nodes[Kid(p, i)])
  }

  /** Some dictionary holds one and the same dictionary at two positions. */
  ghost predicate Aliased(all: set<TraceNode>)
    reads all`calls
  {
    exists n, i, j :: n in all && 0 <= i < j < |n.calls| && n.calls[i] == n.calls[j]
  }

  ghost predicate Closed(all: set<TraceNode>)
    reads all`calls
  {
    forall n, i :: n in all && 0 <= i < |n.calls| ==> n.calls[i] in all
  }

  /** What the builder keeps: while the rows fit, a tree; after the first row that
      does not, a structure with a shared dictionary. */
  ghost predicate Growing(root: TraceNode, all: set<TraceNode>, nodes: Nodes, fits: bool)
    reads all`calls
  {
    && root in all && Closed(all)
    && (if fits then IsTree(root, nodes, all) else Aliased(all))
  }

  // --- Insertion ---

  /** `count` says how many calls each node has. */
  ghost predicate CountsCalls(nodes: Nodes, count: map<Path, nat>) {
    && count.Keys == nodes.Keys
    && forall p: Path, i: nat :: Kid(p, i) in nodes <==> p in nodes && i < count[p]
  }

  lemma CallCounts(root: TraceNode, nodes: Nodes, all: set<TraceNode>) returns (count: map<Path, nat>)
    requires IsTree(root, nodes, all)
    ensures CountsCalls(nodes, count)
    ensures forall p :: p in nodes ==> count[p] == |nodes[p].calls|
  {
    count := map p | p in nodes :: |nodes[p].calls|;
    forall p: Path, i: nat ensures Kid(p, i) in nodes <==> p in nodes && i < count[p] {}
  }

  /** Appending one new dictionary to the calls of one node keeps the tree a tree;
      `before` is what the calls were before. */
  lemma GrownByOne(root: TraceNode, nodes: Nodes, all: set<TraceNode>, before: map<Path, nat>,
                   p: Path, added: TraceNode)
    requires CountsCalls(nodes, before) && p in nodes && added !in all
    requires [] in nodes && nodes[[]] == root
    requires forall q :: q in nodes ==> nodes[q] in all
    requires forall q, r :: q in nodes && r in nodes && nodes[q] == nodes[r] ==> q == r
    requires forall q :: q in nodes ==> |nodes[q].calls| == if q == p then before[p] + 1 else before[q]
    requires forall q: Path, i: nat :: q in nodes && Kid(q, i) in nodes ==> nodes[q].calls[i] == nodes[Kid(q, i)]
    requires nodes[p].calls[before[p]] == added && added.calls == []
    ensures IsTree(root, nodes[Kid(p, before[p]) := added], all + {added})
  {
    var k := before[p];
    var q := Kid(p, k);
    var nodes' := nodes[q := added];
    assert q !in nodes;
    forall r: Path, i: nat
      ensures Kid(r, i) in nodes' <==> r in nodes' && i < |nodes'[r].calls|
      ensures Kid(r, i) in nodes' ==> nodes'[r].calls[i] == nodes'[Kid(r, i)]
    {
      if Kid(r, i) == q { assert r == p && i == k; }
      if r == q { assert Kid(r, i) !in nodes && |Kid(r, i)| > |q|; }
    }
  }

  /** `[{}] * (step + 1 - len(calls))`: one new dictionary, appended that many times. */
  method FillCalls(node: TraceNode, step: nat, ghost all: set<TraceNode>) returns (added: TraceNode)
    requires |node.calls| <= step && node in all && Closed(all)
    modifies node`calls
    ensures fresh(added) && added.row == None && added.calls == []
    ensures node.calls == old(node.calls) + seq(step + 1 - |old(node.calls)|, _ => added)
    ensures Closed(all + {added})
    ensures old(Aliased(all)) || |old(node.calls)| < step ==> Aliased(all + {added})
  {
    ghost var s, i, j := node, |node.calls|, |node.calls| + 1;
    if Aliased(all) {
      s, i, j :| s in all && 0 <= i < j < |s.calls| && s.calls[i] == s.calls[j];
    }
    added := new TraceNode();
    node.calls := node.calls + seq(step + 1 - |node.calls|, _ => added);
    if old(Aliased(all)) || |old(node.calls)| < step {
      assert s.calls[i] == s.calls[j];
    }
  }

  /** One step down from the node at path `p`. */
  method Descend(node: TraceNode, step: nat, ghost root: TraceNode, ghost all: set<TraceNode>,
                 ghost nodes: Nodes, ghost fits: bool, ghost p: Path)
    returns (child: TraceNode, ghost all': set<TraceNode>, ghost nodes': Nodes, ghost fits': bool)
    requires Growing(root, all, nodes, fits) && node in all
    requires fits ==> p in nodes && nodes[p] == node
    modifies node`calls
    ensures Growing(root, all', nodes', fits') && child in all'
    ensures all <= all' && fresh(all' - all)
    ensures forall n :: n in all' - all ==> n.row == None
    ensures fits' <==> fits && (step == 0 || Kid(p, step - 1) in nodes)
    ensures fits' ==> nodes' == nodes[Kid(p, step) := child]
    ensures fits' ==> if Kid(p, step) in nodes then child == nodes[Kid(p, step)] else child !in all
  {
    all', nodes', fits' := all, nodes, fits && (step == 0 || Kid(p, step - 1) in nodes);
    if |node.calls| <= step {
      ghost var before := map[];
      if fits { before := CallCounts(root, nodes, all); }
      var added := FillCalls(node, step, all);
      all' := all + {added};
      if fits' {
        nodes' := nodes[Kid(p, step) := added];
        assert forall r :: r in nodes && r != p ==> nodes[r] != node;
        GrownByOne(root, nodes, all, before, p, added);
      }
    }
    child := node.calls[step];
  }

  /** `add_trace_to_tree`. On a tree it stores the row at `path`, creating the missing
      nodes on the way, if every step fits; otherwise it makes a shared dictionary. */
  method AddTraceToTree(root: TraceNode, trace: Trace, path: Path,
                        ghost all: set<TraceNode>, ghost nodes: Nodes, ghost fits: bool)
    returns (ghost all': set<TraceNode>, ghost nodes': Nodes, ghost fits': bool)
    requires Growing(root, all, nodes, fits)
    modifies all
    ensures Growing(root, all', nodes', fits') && all <= all' && fresh(all' - all)
    ensures fits' <==> fits && Fits(nodes.Keys, path)
    ensures fits' ==> nodes'.Keys == nodes.Keys + Prefixes(path)
    ensures fits' ==> path in nodes' && nodes'[path].row == Some(trace.(traceAddress := path))
    ensures fits' ==> forall p :: p in nodes && p != path ==>
      nodes'[p] == nodes[p] && nodes'[p].row == old(nodes[p].row)
    ensures fits' ==> forall p :: p in nodes' && p !in nodes && p != path ==> nodes'[p].row == None
  {
    var node;
    node, all', nodes', fits' := Locate(root, path, all, nodes, fits);
    node.row := Some(trace.(traceAddress := path));
  }

  /** The old nodes are still there, and the others are new dictionaries. */
  ghost predicate Extends(nodes: Nodes, nodes': Nodes, all: set<TraceNode>, all': set<TraceNode>) {
    && (forall p :: p in nodes ==> p in nodes' && nodes'[p] == nodes[p])
    && (forall p :: p in nodes' && p !in nodes ==> nodes'[p] in all' - all)
  }

  method Locate(root: TraceNode, path: Path,
                ghost all: set<TraceNode>, ghost nodes: Nodes, ghost fits: bool)
    returns (node: TraceNode, ghost all': set<TraceNode>, ghost nodes': Nodes, ghost fits': bool)
    requires Growing(root, all, nodes, fits)
    modifies all`calls
    ensures Growing(root, all', nodes', fits') && all <= all' && fresh(all' - all) && node in all'
    ensures forall n :: n in all' - all ==> n.row == None
    ensures fits' <==> fits && Fits(nodes.Keys, path)
    ensures fits' ==> path in nodes' && nodes'[path] == node
    ensures fits' ==> nodes'.Keys == nodes.Keys + Prefixes(path)
    ensures fits' ==> Extends(nodes, nodes', all, all')
  {
    node := root;
    all', nodes', fits' := all, nodes, fits;
    for i := 0 to |path|
      invariant Growing(root, all', nodes', fits') && all <= all' && fresh(all' - all) && node in all'
      invariant forall n :: n in all' - all ==> n.row == None
      invariant fits' <==> fits && FitsUpTo(nodes.Keys, path, i)
      invariant fits' ==> path[..i] in nodes' && nodes'[path[..i]] == node
      invariant fits' ==> nodes'.Keys == nodes.Keys + Prefixes(path[..i])
      invariant fits' ==> Extends(nodes, nodes', all, all')
    {
      PrefixStep(nodes.Keys, path, i);
      assert fits' ==>
        (path[i] == 0 || Kid(path[..i], path[i] - 1) in nodes' <==> StepFits(nodes.Keys, path, i));
      ghost var nodes0, fits0 := nodes', fits';
      node, all', nodes', fits' := Descend(node, path[i], root, all', nodes', fits', path[..i]);
      assert fits' <==> fits0 && StepFits(nodes.Keys, path, i);
      assert fits' ==> nodes'.Keys == nodes0.Keys + {path[..i + 1]};
    }
    assert path[..|path|] == path;
  }

  lemma PrefixStep(keys: set<Path>, path: Path, i: nat)
    requires i < |path|
    ensures Kid(path[..i], path[i]) == path[..i + 1]
    ensures Prefixes(path[..i + 1]) == Prefixes(path[..i]) + {path[..i + 1]}
    ensures path[i] > 0 ==>
      (Kid(path[..i], path[i] - 1) in keys + Prefixes(path[..i]) <==> StepFits(keys, path, i))
  {
    assert path[..i + 1][..i] == path[..i];
    PrefixesArePrefixes(path[..i]);
  }

  // --- Building ---

  /** A row as the explorer passes it on: its address comes as text. */
  datatype ApiRow = ApiRow(trace: Trace, address: string)

  predicate Readable(rows: seq<ApiRow>) {
    forall i :: 0 <= i < |rows| ==> ParseTraceAddress(rows[i].address).Some?
  }

  function Addresses(rows: seq<ApiRow>): (r: seq<Path>)
    requires Readable(rows)
  {
    seq(|rows|, i requires 0 <= i < |rows| => ParseTraceAddress(rows[i].address).value)
  }

  /** The row stored for a path: the last one with that address. */
  function RowFor(rows: seq<ApiRow>, p: Path): Option<Trace>
    requires Readable(rows)
  {
    if rows == [] then None
    else
      var last := rows[|rows| - 1];
      if ParseTraceAddress(last.address) == Some(p) then Some(last.trace.(traceAddress := p))
      else RowFor(rows[..|rows| - 1], p)
  }

  lemma TreeOrderStep(addresses: seq<Path>, p: Path)
    ensures InTreeOrder(addresses + [p]) <==> InTreeOrder(addresses) && Fits(Grown(addresses), p)
    ensures Grown(addresses + [p]) == Grown(addresses) + Prefixes(p)
  {
    assert (addresses + [p])[..|addresses|] == addresses;
  }

  lemma {:induction false} NoRowBeyondGrown(rows: seq<ApiRow>, p: Path)
    requires Readable(rows) && p !in Grown(Addresses(rows))
    ensures RowFor(rows, p) == None
  {
    if rows != [] {
      var init, a := rows[..|rows| - 1], Addresses(rows);
      assert Addresses(init) == a[..|a| - 1];
      GrownHas(a, |a| - 1);
      NoRowBeyondGrown(init, p);
    }
  }

  lemma RowsStep(rows: seq<ApiRow>, k: nat)
    requires k < |rows| && Readable(rows[..k]) && ParseTraceAddress(rows[k].address).Some?
    ensures Readable(rows[..k + 1])
    ensures var a, p := Addresses(rows[..k]), ParseTraceAddress(rows[k].address).value;
      && (InTreeOrder(Addresses(rows[..k + 1])) <==> InTreeOrder(a) && Fits(Grown(a), p))
      && Grown(Addresses(rows[..k + 1])) == Grown(a) + Prefixes(p)
      && RowFor(rows[..k + 1], p) == Some(rows[k].trace.(traceAddress := p))
      && forall q :: q != p ==> RowFor(rows[..k + 1], q) == RowFor(rows[..k], q)
  {
    var p := ParseTraceAddress(rows[k].address).value;
    assert rows[..k + 1] == rows[..k] + [rows[k]] && rows[..k + 1][..k] == rows[..k];
    assert Addresses(rows[..k + 1]) == Addresses(rows[..k]) + [p];
    TreeOrderStep(Addresses(rows[..k]), p);
  }

  ghost predicate Built(root: TraceNode, nodes: Nodes, all: set<TraceNode>, rows: seq<ApiRow>)
    reads all
  {
    && IsTree(root, nodes, all) && Readable(rows) && nodes.Keys == Grown(Addresses(rows))
    && forall p :: p in nodes ==> nodes[p].row == RowFor(rows, p)
  }

  /** The tree grown from the rows: unshared, with exactly the rows' addresses and
      their ancestors as nodes, if the rows come in tree order; with a shared
      dictionary in it if they do not. None is the failed `int()`. */
  method BuildTree(rows: seq<ApiRow>)
    returns (root: Option<TraceNode>, ghost all: set<TraceNode>, ghost nodes: Nodes)
    ensures root.Some? <==> Readable(rows)
    ensures fresh(all)
    ensures root.Some? ==> root.value in all
    ensures root.Some? && InTreeOrder(Addresses(rows)) ==> Built(root.value, nodes, all, rows)
    ensures root.Some? && !InTreeOrder(Addresses(rows)) ==> Aliased(all)
  {
    var top := new TraceNode();
    all, nodes := {top}, map[[] := top];
    ghost var fits := true;
    for k := 0 to |rows|
      invariant fresh(all) && Growing(top, all, nodes, fits) && Readable(rows[..k])
      invariant fits <==> InTreeOrder(Addresses(rows[..k]))
      invariant fits ==> Built(top, nodes, all, rows[..k])
    {
      var path := ParseTraceAddress(rows[k].address);
      if path == None { return None, all, nodes; }
      ghost var nodes0 := nodes;
      RowsStep(rows, k);
      all, nodes, fits := AddTraceToTree(top, rows[k].trace, path.value, all, nodes, fits);
      if fits {
        forall p | p in nodes ensures nodes[p].row == RowFor(rows[..k + 1], p) {
          if p !in nodes0 { NoRowBeyondGrown(rows[..k], p); }
        }
      }
    }
    assert rows[..|rows|] == rows;
    root := Some(top);
  }

  // --- The tree a heap structure stands for ---

  /** The structure under `root` is an unshared copy of `t`. */
  ghost predicate Holds(root: TraceNode, nodes: Nodes, all: set<TraceNode>, t: Tree)
    reads all
  {
    && IsTree(root, nodes, all)
    && (forall p :: p in nodes <==> ValidPath(t, p))
    && (forall p :: p in nodes ==> nodes[p].row == At(t, p).row)
  }

  /** The rows of a tree, in any text that parses to their addresses. */
  ghost predicate RowsOf(rows: seq<ApiRow>, t: Tree) {
    && Readable(rows) && |rows| == |Preorder(t)|
    && forall i :: 0 <= i < |rows| ==>
      Preorder(t)[i] == Some(rows[i].trace) &&
      ParseTraceAddress(rows[i].address) == Some(rows[i].trace.traceAddress)
  }

  lemma {:induction false} RowForIsUnique(rows: seq<ApiRow>, i: nat)
    requires Readable(rows) && i < |rows|
    requires forall j, k :: 0 <= j < k < |rows| ==> Addresses(rows)[j] != Addresses(rows)[k]
    ensures RowFor(rows, Addresses(rows)[i]) ==
      Some(rows[i].trace.(traceAddress := Addresses(rows)[i]))
  {
    if i < |rows| - 1 {
      var init := rows[..|rows| - 1];
      forall j | 0 <= j < |init| ensures Addresses(init)[j] == Addresses(rows)[j] {}
      assert Addresses(rows)[i] != Addresses(rows)[|rows| - 1];
      RowForIsUnique(init, i);
    }
  }

  /** The rows come in tree order, and `t` is the tree they grow: its nodes are their
      addresses and the ancestors of those, with the last row of each address in it. */
  ghost predicate Grows(rows: seq<ApiRow>, t: Tree)
    requires Readable(rows)
  {
    && InTreeOrder(Addresses(rows))
    && (forall p :: p in Grown(Addresses(rows)) <==> ValidPath(t, p))
    && (forall p :: ValidPath(t, p) ==> At(t, p).row == RowFor(rows, p))
  }

  /** Building is the inverse of flattening: the rows of any tree grow that tree. */
  lemma RowsGrowTheTree(rows: seq<ApiRow>, t: Tree)
    requires Addressed(t, []) && RowsOf(rows, t)
    ensures Grows(rows, t)
  {
    var paths := PathsOf(t, []);
    PreorderAddresses(t, []);
    PreorderIsTreeOrder(t);
    assert Addresses(rows) == paths;
    forall j, k | 0 <= j < k < |rows| ensures paths[j] != paths[k] {
      assert LexLess(paths[j], paths[k]);
      LexIrreflexive(paths[j]);
    }
    forall p | ValidPath(t, p) ensures At(t, p).row == RowFor(rows, p) {
      RowIsInPreorder(t, p);
      var i :| 0 <= i < |rows| && Preorder(t)[i] == At(t, p).row;
      assert rows[i].trace.traceAddress == p == paths[i];
      RowForIsUnique(rows, i);
    }
  }

  /** And what is built on the heap is an unshared copy of it. */
  lemma RowsBuildTheTree(rows: seq<ApiRow>, t: Tree, root: TraceNode, nodes: Nodes, all: set<TraceNode>)
    requires Readable(rows) && Grows(rows, t) && Built(root, nodes, all, rows)
    ensures Holds(root, nodes, all, t)
  {
  }
}
