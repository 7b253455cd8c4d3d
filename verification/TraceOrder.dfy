/** The order in which trace rows reach the tree builder: by `trace_address`. */
module TraceOrder {
  import opened Common
  import opened TraceRows

  /** The path of the i-th child of the node at `p`. */
  function Kid(p: Path, i: nat): (r: Path)
    ensures |r| == |p| + 1 && r[..|p|] == p && r[|p|] == i
  {
    p + [i]
  }

  // --- Lists of addresses a tree can be grown from, one node at a time ---

  function Prefixes(p: Path): set<Path> {
    if p == [] then {[]} else Prefixes(p[..|p| - 1]) + {p}
  }

  lemma {:induction false} PrefixesArePrefixes(p: Path)
    ensures forall q :: q in Prefixes(p) <==> q <= p
  {
    if p != [] {
      PrefixesArePrefixes(p[..|p| - 1]);
      forall q ensures q in Prefixes(p) <==> q <= p {
        if |q| == |p| && q <= p { assert q == p; }
      }
    }
  }

  /** The nodes that exist once the given addresses have been stored. */
  function Grown(addresses: seq<Path>): set<Path> {
    if addresses == [] then {[]}
    else Grown(addresses[..|addresses| - 1]) + Prefixes(addresses[|addresses| - 1])
  }

  /** The j-th step leads to an existing node or to the next free child position. */
  predicate StepFits(grown: set<Path>, p: Path, j: nat)
    requires j < |p|
  {
    p[j] == 0 || Kid(p[..j], p[j] - 1) in grown
  }

  /** The first k steps fit. */
  predicate FitsUpTo(grown: set<Path>, p: Path, k: nat)
    requires k <= |p|
  {
    k == 0 || (FitsUpTo(grown, p, k - 1) && StepFits(grown, p, k - 1))
  }

  predicate Fits(grown: set<Path>, p: Path) {
    FitsUpTo(grown, p, |p|)
  }

  lemma {:induction false} FitsIfAllStepsFit(grown: set<Path>, p: Path, k: nat)
    requires k <= |p| && forall j :: 0 <= j < k ==> StepFits(grown, p, j)
    ensures FitsUpTo(grown, p, k)
  {
    if k > 0 { FitsIfAllStepsFit(grown, p, k - 1); }
  }

  /** Every address fits the tree grown from the addresses before it. */
  predicate InTreeOrder(addresses: seq<Path>) {
    addresses == [] ||
    (InTreeOrder(addresses[..|addresses| - 1]) &&
     Fits(Grown(addresses[..|addresses| - 1]), addresses[|addresses| - 1]))
  }

  lemma {:induction false} GrownHas(addresses: seq<Path>, k: nat)
    requires k < |addresses|
    ensures addresses[k] in Grown(addresses)
  {
    if k == |addresses| - 1 {
      PrefixesArePrefixes(addresses[k]);
    } else {
      GrownHas(addresses[..|addresses| - 1], k);
    }
  }

  // --- Any sorted list of the addresses of a tree is such a list ---

  ghost predicate StrictlyIncreasing(addresses: seq<Path>) {
    forall i, j :: 0 <= i < j < |addresses| ==> LexLess(addresses[i], addresses[j])
  }

  /** The addresses are those of a tree: with a node its ancestors and its left
      siblings are there. */
  ghost predicate ClosedUp(addresses: seq<Path>) {
    forall p, j :: p in addresses && 0 <= j < |p| ==>
      p[..j] in addresses && (p[j] > 0 ==> Kid(p[..j], p[j] - 1) in addresses)
  }

  lemma SmallerComesEarlier(addresses: seq<Path>, k: nat, q: Path)
    requires StrictlyIncreasing(addresses) && k < |addresses|
    requires q in addresses && LexLess(q, addresses[k])
    ensures q in addresses[..k]
  {
    var i :| 0 <= i < |addresses| && addresses[i] == q;
    if i >= k {
      if i == k { LexIrreflexive(q); } else { LexAsymmetric(q, addresses[k]); }
    }
    assert addresses[..k][i] == q;
  }

  lemma AncestorIsSmaller(p: Path, j: nat)
    requires j < |p|
    ensures LexLess(p[..j], p)
  {
    LexPrefix(p[..j], [], p[j..]);
    assert p[..j] + [] == p[..j] && p[..j] + p[j..] == p;
  }

  lemma LeftSiblingIsSmaller(p: Path, j: nat)
    requires j < |p| && p[j] > 0
    ensures LexLess(Kid(p[..j], p[j] - 1), p)
  {
    LexPrefix(p[..j], [p[j] - 1], p[j..]);
    assert p[..j] + p[j..] == p;
  }

  /** The nodes above an address come before it. */
  lemma AncestorComesEarlier(addresses: seq<Path>, k: nat, q: Path)
    requires StrictlyIncreasing(addresses) && ClosedUp(addresses) && k < |addresses|
    requires q in Prefixes(addresses[k]) && q != addresses[k]
    ensures q in addresses[..k]
  {
    var p := addresses[k];
    PrefixesArePrefixes(p);
    assert q == p[..|q|] && p in addresses;
    AncestorIsSmaller(p, |q|);
    SmallerComesEarlier(addresses, k, q);
  }

  lemma {:induction false} GrownOfClosed(addresses: seq<Path>, k: nat)
    requires StrictlyIncreasing(addresses) && ClosedUp(addresses) && k <= |addresses|
    ensures forall p :: p in Grown(addresses[..k]) <==> p == [] || p in addresses[..k]
  {
    if k > 0 {
      var p := addresses[k - 1];
      GrownOfClosed(addresses, k - 1);
      assert addresses[..k][..k - 1] == addresses[..k - 1];
      assert addresses[..k] == addresses[..k - 1] + [p];
      PrefixesArePrefixes(p);
      forall q | q in Prefixes(p) && q != p ensures q in addresses[..k - 1] {
        AncestorComesEarlier(addresses, k - 1, q);
      }
    }
  }

  lemma SortedAddressFits(addresses: seq<Path>, k: nat)
    requires StrictlyIncreasing(addresses) && ClosedUp(addresses) && k < |addresses|
    ensures Fits(Grown(addresses[..k]), addresses[k])
  {
    var p := addresses[k];
    GrownOfClosed(addresses, k);
    forall j | 0 <= j < |p| ensures StepFits(Grown(addresses[..k]), p, j) {
      if p[j] > 0 {
        assert p in addresses;
        LeftSiblingIsSmaller(p, j);
        SmallerComesEarlier(addresses, k, Kid(p[..j], p[j] - 1));
      }
    }
    FitsIfAllStepsFit(Grown(addresses[..k]), p, |p|);
  }

  /** Sorting the addresses of a tree is enough for the builder. */
  lemma {:induction false} SortedAddressesAreInTreeOrder(addresses: seq<Path>, k: nat)
    requires StrictlyIncreasing(addresses) && ClosedUp(addresses) && k <= |addresses|
    ensures InTreeOrder(addresses[..k])
  {
    if k > 0 {
      SortedAddressesAreInTreeOrder(addresses, k - 1);
      SortedAddressFits(addresses, k - 1);
      assert addresses[..k][..k - 1] == addresses[..k - 1];
    }
  }

  // --- Preorder is the sorted order ---

  /** The addresses of the nodes of `t` in preorder, `t` itself standing at `address`. */
  function PathsOf(t: Tree, address: Path): seq<Path>
    decreases t, |t.calls| + 1
  {
    [address] + PathsOfKids(t, |t.calls|, address)
  }

  function PathsOfKids(t: Tree, k: nat, address: Path): seq<Path>
    requires k <= |t.calls|
    decreases t, k
  {
    if k == 0 then []
    else PathsOfKids(t, k - 1, address) + PathsOf(t.calls[k - 1], address + [k - 1])
  }

  ghost predicate Below(p: Path, address: Path, t: Tree) {
    address <= p && ValidPath(t, p[|address|..])
  }

  lemma {:induction false} PathsOfIsAllPaths(t: Tree, address: Path)
    ensures forall p :: p in PathsOf(t, address) <==> Below(p, address, t)
    decreases t, |t.calls| + 1
  {
    PathsOfKidsIsAllPaths(t, |t.calls|, address);
    forall p ensures p in PathsOf(t, address) <==> Below(p, address, t) {
      if address <= p && p[|address|..] == [] { assert p == address; }
    }
  }

  lemma {:induction false} PathsOfKidsIsAllPaths(t: Tree, k: nat, address: Path)
    requires k <= |t.calls|
    ensures forall p :: p in PathsOfKids(t, k, address) <==>
      Below(p, address, t) && p != address && p[|address|] < k
    decreases t, k
  {
    if k > 0 {
      var kid := t.calls[k - 1];
      PathsOfKidsIsAllPaths(t, k - 1, address);
      PathsOfIsAllPaths(kid, address + [k - 1]);
      forall p ensures p in PathsOf(kid, address + [k - 1]) <==>
          Below(p, address, t) && p != address && p[|address|] == k - 1 {
        if address <= p && p != address {
          assert p[|address|..][1..] == p[|address| + 1..];
          assert p == p[..|address|] + [p[|address|]] + p[|address| + 1..];
        }
        if address + [k - 1] <= p {
          assert p[|address|] == (address + [k - 1])[|address|];
          assert p[..|address| + 1][..|address|] == address;
        }
      }
    }
  }

  lemma {:induction false} PreorderIsIncreasing(t: Tree, address: Path)
    ensures StrictlyIncreasing(PathsOf(t, address))
    decreases t, |t.calls| + 1
  {
    KidsAreIncreasing(t, |t.calls|, address);
    PathsOfKidsIsAllPaths(t, |t.calls|, address);
    var kids := PathsOfKids(t, |t.calls|, address);
    forall p | p in kids ensures LexLess(address, p) { BelowIsLater(p, address, t); }
  }

  lemma BelowIsLater(p: Path, address: Path, t: Tree)
    requires Below(p, address, t) && p != address
    ensures LexLess(address, p)
  {
    AncestorIsSmaller(p, |address|);
  }

  lemma {:induction false} KidsAreIncreasing(t: Tree, k: nat, address: Path)
    requires k <= |t.calls|
    ensures StrictlyIncreasing(PathsOfKids(t, k, address))
    decreases t, k
  {
    if k > 0 {
      var a, b := PathsOfKids(t, k - 1, address), PathsOf(t.calls[k - 1], address + [k - 1]);
      KidsAreIncreasing(t, k - 1, address);
      PreorderIsIncreasing(t.calls[k - 1], address + [k - 1]);
      PathsOfKidsIsAllPaths(t, k - 1, address);
      PathsOfIsAllPaths(t.calls[k - 1], address + [k - 1]);
      forall p, q | p in a && q in b ensures LexLess(p, q) {
        EarlierKidIsSmaller(p, q, address, t, k - 1);
      }
    }
  }

  lemma EarlierKidIsSmaller(p: Path, q: Path, address: Path, t: Tree, k: nat)
    requires k < |t.calls|
    requires Below(p, address, t) && p != address && p[|address|] < k
    requires Below(q, address + [k], t.calls[k])
    ensures LexLess(p, q)
  {
    assert q[|address|] == (address + [k])[|address|] == k;
    assert q[..|address| + 1][..|address|] == q[..|address|] == address;
    LexPrefix(address, p[|address|..], q[|address|..]);
    assert p == address + p[|address|..] && q == address + q[|address|..];
  }

  lemma {:induction false} ValidIsClosed(t: Tree, p: Path, j: nat)
    requires ValidPath(t, p) && j < |p|
    ensures ValidPath(t, p[..j])
    ensures p[j] > 0 ==> ValidPath(t, Kid(p[..j], p[j] - 1))
  {
    if j > 0 {
      ValidIsClosed(t.calls[p[0]], p[1..], j - 1);
      assert p[..j][1..] == p[1..][..j - 1];
      if p[j] > 0 { assert Kid(p[..j], p[j] - 1)[1..] == Kid(p[1..][..j - 1], p[1..][j - 1] - 1); }
    }
  }

  /** The preorder of a tree is the one strictly increasing list of its addresses,
      and the builder can grow the tree from it. */
  lemma PreorderIsTreeOrder(t: Tree)
    ensures StrictlyIncreasing(PathsOf(t, [])) && InTreeOrder(PathsOf(t, []))
    ensures forall p :: p in Grown(PathsOf(t, [])) <==> ValidPath(t, p)
    ensures forall p :: p in PathsOf(t, []) <==> ValidPath(t, p)
  {
    var paths := PathsOf(t, []);
    PreorderIsIncreasing(t, []);
    PathsOfIsAllPaths(t, []);
    forall p: Path ensures Below(p, [], t) <==> ValidPath(t, p) {
      assert p[0..] == p;
    }
    forall p, j | p in paths && 0 <= j < |p|
      ensures p[..j] in paths && (p[j] > 0 ==> Kid(p[..j], p[j] - 1) in paths)
    {
      ValidIsClosed(t, p, j);
    }
    SortedAddressesAreInTreeOrder(paths, |paths|);
    GrownOfClosed(paths, |paths|);
    assert paths[..|paths|] == paths;
  }

  // --- Rows in preorder are rows sorted by address ---

  ghost predicate AddressedAt(rows: seq<Option<Trace>>, paths: seq<Path>) {
    |rows| == |paths| &&
    forall i :: 0 <= i < |rows| ==> rows[i].Some? && rows[i].value.traceAddress == paths[i]
  }

  lemma {:induction false} PreorderAddresses(t: Tree, address: Path)
    requires Addressed(t, address)
    ensures AddressedAt(Preorder(t), PathsOf(t, address))
    decreases t, |t.calls| + 1
  {
    assert ValidPath(t, []) && address + [] == address;
    PreorderAddressesOfKids(t, |t.calls|, address);
  }

  lemma {:induction false} PreorderAddressesOfKids(t: Tree, k: nat, address: Path)
    requires Addressed(t, address) && k <= |t.calls|
    ensures AddressedAt(PreorderOfKids(t, k), PathsOfKids(t, k, address))
    decreases t, k
  {
    if k > 0 {
      KidIsAddressed(t, k - 1, address);
      PreorderAddressesOfKids(t, k - 1, address);
      PreorderAddresses(t.calls[k - 1], address + [k - 1]);
    }
  }

  lemma KidIsAddressed(t: Tree, i: nat, address: Path)
    requires Addressed(t, address) && i < |t.calls|
    ensures Addressed(t.calls[i], address + [i])
  {
    forall p | ValidPath(t.calls[i], p)
      ensures At(t.calls[i], p).row.Some?
           && At(t.calls[i], p).row.value.traceAddress == address + [i] + p
    {
      var q := [i] + p;
      assert q[1..] == p && ValidPath(t, q);
      assert address + [i] + p == address + q;
    }
  }

  /** The row at a path is one of the rows of the preorder. */
  lemma {:induction false} RowIsInPreorder(t: Tree, p: Path)
    requires ValidPath(t, p)
    ensures At(t, p).row in Preorder(t)
    decreases p
  {
    if p != [] {
      RowIsInPreorder(t.calls[p[0]], p[1..]);
      KidRowsAreInPreorder(t, |t.calls|, p[0], At(t, p).row);
    }
  }

  lemma {:induction false} KidRowsAreInPreorder(t: Tree, k: nat, i: nat, row: Option<Trace>)
    requires i < k <= |t.calls| && row in Preorder(t.calls[i])
    ensures row in PreorderOfKids(t, k)
  {
    if i < k - 1 { KidRowsAreInPreorder(t, k - 1, i, row); }
  }

  function AddressKey(t: Trace): seq<int> {
    t.traceAddress
  }

  /** `ORDER BY trace_address` returns exactly the preorder, in whatever order the
      rows were stored. */
  lemma QueryReturnsPreorder(t: Tree, stored: seq<Trace>, rows: seq<Trace>)
    requires Addressed(t, []) && Stored(rows) == Preorder(t)
    requires multiset(stored) == multiset(rows)
    ensures SortBy(stored, AddressKey) == rows
  {
    var sorted := SortBy(stored, AddressKey);
    SortPermutes(stored, AddressKey);
    SortSorts(stored, AddressKey);
    PreorderAddresses(t, []);
    PreorderIsIncreasing(t, []);
    forall i, j | 0 <= i < j < |rows| ensures LexLess(AddressKey(rows[i]), AddressKey(rows[j])) {
      assert Stored(rows)[i] == Some(rows[i]) && Stored(rows)[j] == Some(rows[j]);
    }
    SortedListIsUnique(sorted, rows, AddressKey);
  }
}
