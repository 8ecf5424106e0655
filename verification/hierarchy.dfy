/** The hierarchy builder: the nested tree view computed from the flat
    parent-pointer list (`buildHierarchy`), together with an independent,
    relational description of the tree it must produce. */
module Hierarchy {
  import opened Optional
  import opened Store

  /** A node of the tree view: the record plus its `children` attribute. */
  datatype Node = Node(category: Category, children: ChildList)

  /** The `children` attribute of a node: absent on a leaf, never an empty
      list. */
  datatype ChildList = Absent | Present(nodes: seq<Node>)

  /** The child list of a node, empty when the attribute is absent. */
  function Kids(n: Node): (r: seq<Node>)
  {
    match n.children
    case Absent => []
    case Present(cs) => cs
  }

  /** The records at the top level of a forest, in order. */
  function Roots(ns: seq<Node>): (r: seq<Category>)
  {
    seq(|ns|, k requires 0 <= k < |ns| => ns[k].category)
  }

  // ---------------------------------------------------------------------
  // Reference description of the tree.
  // ---------------------------------------------------------------------

  /** The records of `cats` whose parent is `p`, in their relative order
      in `cats` (strict equality: `None` matches only `None`). */
  function ChildrenOf(cats: seq<Category>, p: Option<int>): (r: seq<Category>)
    ensures |r| <= |cats|
  {
    if cats == [] then []
    else (if cats[0].parentId == p then [cats[0]] else []) + ChildrenOf(cats[1..], p)
  }

  /** A record is selected exactly when it is stored and its parent is `p`. */
  lemma {:induction false} ChildrenOfMembers(cats: seq<Category>, p: Option<int>)
    ensures forall c :: c in ChildrenOf(cats, p) <==> c in cats && c.parentId == p
  {
    if cats != [] {
      ChildrenOfMembers(cats[1..], p);
      assert forall c :: c in cats <==> c == cats[0] || c in cats[1..];
    }
  }

  /** The positions, from `i` on, of the records whose parent is `p`, in
      increasing order. */
  function SelectedFrom(cats: seq<Category>, p: Option<int>, i: nat): (r: seq<nat>)
    requires i <= |cats|
    decreases |cats| - i
  {
    if i == |cats| then []
    else if cats[i].parentId == p then [i] + SelectedFrom(cats, p, i + 1)
    else SelectedFrom(cats, p, i + 1)
  }

  /** The selected positions lie in the store from `i` on and hold records
      whose parent is `p`. */
  lemma {:induction false} SelectedSound(cats: seq<Category>, p: Option<int>, i: nat)
    requires i <= |cats|
    ensures forall k :: 0 <= k < |SelectedFrom(cats, p, i)| ==>
              i <= SelectedFrom(cats, p, i)[k] < |cats| && cats[SelectedFrom(cats, p, i)[k]].parentId == p
    decreases |cats| - i
  {
    if i < |cats| {
      SelectedSound(cats, p, i + 1);
    }
  }

  /** The selected positions increase. */
  lemma {:induction false} SelectedIncreasing(cats: seq<Category>, p: Option<int>, i: nat)
    requires i <= |cats|
    ensures forall k, l :: 0 <= k < l < |SelectedFrom(cats, p, i)| ==>
              SelectedFrom(cats, p, i)[k] < SelectedFrom(cats, p, i)[l]
    decreases |cats| - i
  {
    if i < |cats| {
      SelectedSound(cats, p, i + 1);
      SelectedIncreasing(cats, p, i + 1);
    }
  }

  /** Every position from `i` on whose record has parent `p` is selected. */
  lemma {:induction false} SelectedComplete(cats: seq<Category>, p: Option<int>, i: nat)
    requires i <= |cats|
    ensures forall j :: i <= j < |cats| && cats[j].parentId == p ==> j in SelectedFrom(cats, p, i)
    decreases |cats| - i
  {
    if i < |cats| {
      SelectedComplete(cats, p, i + 1);
    }
  }

  /** `ChildrenOf` lists the records whose parent is `p` in store order:
      its k-th element is the record at the k-th of the increasing positions
      that hold such records. */
  lemma {:induction false} ChildrenInStoreOrder(cats: seq<Category>, p: Option<int>)
    ensures var idx := SelectedFrom(cats, p, 0);
            && (forall k :: 0 <= k < |idx| ==> idx[k] < |cats|)
            && (forall k, l :: 0 <= k < l < |idx| ==> idx[k] < idx[l])
            && (forall j :: 0 <= j < |cats| ==> (cats[j].parentId == p <==> j in idx))
            && |ChildrenOf(cats, p)| == |idx|
            && forall k :: 0 <= k < |idx| ==> ChildrenOf(cats, p)[k] == cats[idx[k]]
  {
    SelectedSound(cats, p, 0);
    SelectedIncreasing(cats, p, 0);
    SelectedComplete(cats, p, 0);
    ChildrenFromInOrder(cats, p, 0);
    assert cats[0..] == cats;
  }

  lemma {:induction false} ChildrenFromInOrder(cats: seq<Category>, p: Option<int>, i: nat)
    requires i <= |cats|
    ensures var idx := SelectedFrom(cats, p, i);
            && |ChildrenOf(cats[i..], p)| == |idx|
            && forall k :: 0 <= k < |idx| ==> idx[k] < |cats| && ChildrenOf(cats[i..], p)[k] == cats[idx[k]]
    decreases |cats| - i
  {
    if i < |cats| {
      ChildrenFromInOrder(cats, p, i + 1);
      ChildrenOfStep(cats, p, i);
      ListingStep(cats, i, cats[i].parentId == p,
                  ChildrenOf(cats[i + 1..], p), SelectedFrom(cats, p, i + 1));
    }
  }

  /** Putting record `i` (when `taken`) in front of a listing that matches
      its positions gives a listing that matches the positions with `i` in
      front. */
  lemma {:induction false} ListingStep(cats: seq<Category>, i: nat, taken: bool, later: seq<Category>, laterIdx: seq<nat>)
    requires i < |cats| && |later| == |laterIdx|
    requires forall k :: 0 <= k < |laterIdx| ==> laterIdx[k] < |cats| && later[k] == cats[laterIdx[k]]
    ensures var r := (if taken then [cats[i]] else []) + later;
            var idx := (if taken then [i] else []) + laterIdx;
            && |r| == |idx|
            && forall k :: 0 <= k < |idx| ==> idx[k] < |cats| && r[k] == cats[idx[k]]
  {
    var r := (if taken then [cats[i]] else []) + later;
    var idx := (if taken then [i] else []) + laterIdx;
    if taken {
      forall k | 0 <= k < |idx| ensures idx[k] < |cats| && r[k] == cats[idx[k]] {
        if k > 0 {
          assert r[k] == later[k - 1] && idx[k] == laterIdx[k - 1];
        }
      }
    } else {
      assert r == later && idx == laterIdx;
    }
  }

  /** Unfolds `ChildrenOf` once on the suffix from `i`. */
  lemma {:induction false} ChildrenOfStep(cats: seq<Category>, p: Option<int>, i: nat)
    requires i < |cats|
    ensures ChildrenOf(cats[i..], p)
         == (if cats[i].parentId == p then [cats[i]] else []) + ChildrenOf(cats[i + 1..], p)
  {
    assert cats[i..][1..] == cats[i + 1..];
    assert cats[i..][0] == cats[i];
  }

  /** The node for record `n.category` is correctly built from `cats`:
      it has no `children` attribute exactly when the record has no
      children, and otherwise its child list holds those children in store
      order, each correctly built in turn. */
  ghost predicate NodeBuilt(cats: seq<Category>, n: Node)
    decreases n
  {
    match n.children
    case Absent => ChildrenOf(cats, Some(n.category.id)) == []
    case Present(cs) =>
      && ChildrenOf(cats, Some(n.category.id)) != []
      && Roots(cs) == ChildrenOf(cats, Some(n.category.id))
      && forall k :: 0 <= k < |cs| ==> NodeBuilt(cats, cs[k])
  }

  /** Every node of `ns` is correctly built from `cats`. */
  ghost predicate AllBuilt(cats: seq<Category>, ns: seq<Node>)
  {
    forall k :: 0 <= k < |ns| ==> NodeBuilt(cats, ns[k])
  }

  /** The forest hanging under parent `p` is correctly built from `cats`. */
  ghost predicate ForestBuilt(cats: seq<Category>, ns: seq<Node>, p: Option<int>)
  {
    Roots(ns) == ChildrenOf(cats, p) && AllBuilt(cats, ns)
  }

  /** The node `buildHierarchy` makes for record `c` whose subtree is `sub`:
      the `children` attribute is set only when `sub` is non-empty. */
  function MakeNode(c: Category, sub: seq<Node>): (r: Node)
    ensures r.category == c && Kids(r) == sub
    ensures r.children.Present? <==> |sub| > 0
  {
    Node(c, if |sub| > 0 then Present(sub) else Absent)
  }

  lemma {:induction false} MakeNodeBuilt(cats: seq<Category>, c: Category, sub: seq<Node>)
    requires ForestBuilt(cats, sub, Some(c.id))
    ensures NodeBuilt(cats, MakeNode(c, sub))
  {
    assert |Roots(sub)| == |sub|;
  }

  lemma {:induction false} ConsBuilt(cats: seq<Category>, rest: seq<Category>, p: Option<int>, n: Node, tail: seq<Node>)
    requires rest != [] && rest[0].parentId == p && n.category == rest[0]
    requires NodeBuilt(cats, n) && AllBuilt(cats, tail)
    requires Roots(tail) == ChildrenOf(rest[1..], p)
    ensures Roots([n] + tail) == ChildrenOf(rest, p)
    ensures AllBuilt(cats, [n] + tail)
  {
    var ns := [n] + tail;
    assert ChildrenOf(rest, p) == [rest[0]] + ChildrenOf(rest[1..], p);
    assert Roots(ns) == [n.category] + Roots(tail);
    forall k | 0 <= k < |ns| ensures NodeBuilt(cats, ns[k]) {
      if k > 0 {
        assert ns[k] == tail[k - 1];
      }
    }
  }

  // ---------------------------------------------------------------------
  // The builder. `buildHierarchy` recurses without a cycle guard; `fuel`
  // bounds the depth of nested calls, and `None` stands for the call stack
  // running out before the recursion returns.
  // ---------------------------------------------------------------------

  /** `buildHierarchy(cats, p)` with at most `fuel` nested calls. */
  function Build(cats: seq<Category>, p: Option<int>, fuel: nat): (r: Option<seq<Node>>)
    decreases fuel, 0
  {
    if fuel == 0 then None else Scan(cats, cats, p, fuel - 1)
  }

  /** The `forEach` over the records still to visit (`rest`, a suffix of
      `cats`): each record whose parent is `p` gets its subtree built
      first, and becomes a node that carries `children` only when that
      subtree is non-empty. */
  function Scan(cats: seq<Category>, rest: seq<Category>, p: Option<int>, fuel: nat): (r: Option<seq<Node>>)
    decreases fuel, 1, |rest|
  {
    if rest == [] then Some([])
    else if rest[0].parentId == p then
      match Build(cats, Some(rest[0].id), fuel)
      case None => None
      case Some(sub) =>
        match Scan(cats, rest[1..], p, fuel)
        case None => None
        case Some(tail) =>
          Some([MakeNode(rest[0], sub)] + tail)
    else Scan(cats, rest[1..], p, fuel)
  }

  /** Whenever the builder returns, it returns the correctly built forest:
      the records whose parent is `p`, in store order, each carrying its
      own subtree, with `children` set exactly on the nodes that have some. */
  lemma {:induction false} BuildSound(cats: seq<Category>, p: Option<int>, fuel: nat)
    requires Build(cats, p, fuel).Some?
    ensures ForestBuilt(cats, Build(cats, p, fuel).value, p)
    decreases fuel, 0
  {
    ScanSound(cats, cats, p, fuel - 1);
  }

  lemma {:induction false} ScanSound(cats: seq<Category>, rest: seq<Category>, p: Option<int>, fuel: nat)
    requires Scan(cats, rest, p, fuel).Some?
    ensures Roots(Scan(cats, rest, p, fuel).value) == ChildrenOf(rest, p)
    ensures AllBuilt(cats, Scan(cats, rest, p, fuel).value)
    decreases fuel, 1, |rest|
  {
    if rest != [] {
      ScanSound(cats, rest[1..], p, fuel);
      if rest[0].parentId == p {
        var tail := Scan(cats, rest[1..], p, fuel).value;
        var sub := Build(cats, Some(rest[0].id), fuel).value;
        BuildSound(cats, Some(rest[0].id), fuel);
        MakeNodeBuilt(cats, rest[0], sub);
        ConsBuilt(cats, rest, p, MakeNode(rest[0], sub), tail);
      }
    }
  }

  // ---------------------------------------------------------------------
  // Properties of the reference description.
  // ---------------------------------------------------------------------

  /** Two nodes for the same record, both correctly built, are equal. */
  lemma {:induction false} NodeBuiltUnique(cats: seq<Category>, m: Node, n: Node)
    requires NodeBuilt(cats, m) && NodeBuilt(cats, n)
    requires m.category == n.category
    ensures m == n
    decreases m
  {
    match m.children
    case Absent =>
    case Present(cs) =>
      var ds := n.children.nodes;
      assert |cs| == |Roots(cs)| == |Roots(ds)| == |ds|;
      forall k | 0 <= k < |cs| ensures cs[k] == ds[k] {
        assert Roots(cs)[k] == Roots(ds)[k];
        NodeBuiltUnique(cats, cs[k], ds[k]);
      }
  }

  /** There is at most one correctly built forest under each parent, so the
      builder's result does not depend on how much fuel it was given. */
  lemma {:induction false} ForestBuiltUnique(cats: seq<Category>, a: seq<Node>, b: seq<Node>, p: Option<int>)
    requires ForestBuilt(cats, a, p) && ForestBuilt(cats, b, p)
    ensures a == b
  {
    assert |a| == |Roots(a)| == |Roots(b)| == |b|;
    forall k | 0 <= k < |a| ensures a[k] == b[k] {
      assert Roots(a)[k] == Roots(b)[k];
      NodeBuiltUnique(cats, a[k], b[k]);
    }
  }

  /** Every node below `n` sits under the node whose id is its `parentId`,
      and a `children` attribute, when present, is never empty. */
  ghost predicate Linked(n: Node)
    decreases n
  {
    match n.children
    case Absent => true
    case Present(cs) =>
      && |cs| > 0
      && forall k :: 0 <= k < |cs| ==>
           cs[k].category.parentId == Some(n.category.id) && Linked(cs[k])
  }

  lemma {:induction false} NodeBuiltLinked(cats: seq<Category>, n: Node)
    requires NodeBuilt(cats, n)
    ensures Linked(n)
    decreases n
  {
    match n.children
    case Absent =>
    case Present(cs) =>
      forall k | 0 <= k < |cs|
        ensures cs[k].category.parentId == Some(n.category.id) && Linked(cs[k])
      {
        assert cs[k].category == Roots(cs)[k];
        ChildrenOfMembers(cats, Some(n.category.id));
        NodeBuiltLinked(cats, cs[k]);
      }
  }

  /** A correctly built forest under `p` has roots whose parent is `p`, and
      below them every node sits under its parent's node; leaves carry no
      `children` attribute. */
  lemma {:induction false} ForestBuiltLinked(cats: seq<Category>, ns: seq<Node>, p: Option<int>)
    requires ForestBuilt(cats, ns, p)
    ensures forall k :: 0 <= k < |ns| ==> ns[k].category.parentId == p && Linked(ns[k])
  {
    forall k | 0 <= k < |ns| ensures ns[k].category.parentId == p && Linked(ns[k]) {
      assert ns[k].category == Roots(ns)[k];
      ChildrenOfMembers(cats, p);
      NodeBuiltLinked(cats, ns[k]);
    }
  }

  // ---------------------------------------------------------------------
  // Fuel.
  // ---------------------------------------------------------------------

  /** More fuel never turns a finished build into an exhausted one. */
  lemma {:induction false} BuildMoreFuel(cats: seq<Category>, p: Option<int>, fuel: nat)
    requires Build(cats, p, fuel).Some?
    ensures Build(cats, p, fuel + 1) == Build(cats, p, fuel)
    decreases fuel, 0
  {
    ScanMoreFuel(cats, cats, p, fuel - 1);
    BuildSound(cats, p, fuel);
    BuildSound(cats, p, fuel + 1);
    ForestBuiltUnique(cats, Build(cats, p, fuel + 1).value, Build(cats, p, fuel).value, p);
  }

  lemma {:induction false} ScanMoreFuel(cats: seq<Category>, rest: seq<Category>, p: Option<int>, fuel: nat)
    requires Scan(cats, rest, p, fuel).Some?
    ensures Scan(cats, rest, p, fuel + 1).Some?
    decreases fuel, 1, |rest|
  {
    if rest != [] {
      if rest[0].parentId == p {
        BuildMoreFuel(cats, Some(rest[0].id), fuel);
      }
      ScanMoreFuel(cats, rest[1..], p, fuel);
    }
  }

  /** A scan returns when the scan of the remaining records does and, if
      the first record is selected, so does the build of its subtree. */
  lemma {:induction false} ScanStep(cats: seq<Category>, rest: seq<Category>, p: Option<int>, fuel: nat)
    requires rest != []
    requires Scan(cats, rest[1..], p, fuel).Some?
    requires rest[0].parentId == p ==> Build(cats, Some(rest[0].id), fuel).Some?
    ensures Scan(cats, rest, p, fuel).Some?
  {
    var tail := Scan(cats, rest[1..], p, fuel).value;
    if rest[0].parentId == p {
      var sub := Build(cats, Some(rest[0].id), fuel).value;
      assert Scan(cats, rest, p, fuel) == Some([MakeNode(rest[0], sub)] + tail);
    }
  }

  /** One record whose subtree build runs out of fuel makes the whole scan
      run out. */
  lemma {:induction false} ScanExhausted(cats: seq<Category>, rest: seq<Category>, p: Option<int>, fuel: nat, c: Category)
    requires c in rest && c.parentId == p
    requires Build(cats, Some(c.id), fuel).None?
    ensures Scan(cats, rest, p, fuel).None?
    decreases |rest|
  {
    if rest[0] != c {
      if rest[0].parentId == p && Build(cats, Some(rest[0].id), fuel).Some? {
        ScanExhausted(cats, rest[1..], p, fuel, c);
      } else if rest[0].parentId != p {
        ScanExhausted(cats, rest[1..], p, fuel, c);
      }
    }
  }

  /** The children of a correctly built node form the correctly built
      forest under its id. */
  lemma {:induction false} NodeKidsBuilt(cats: seq<Category>, n: Node)
    requires NodeBuilt(cats, n)
    ensures ForestBuilt(cats, Kids(n), Some(n.category.id))
  {
    match n.children
    case Absent =>
      assert Roots([]) == [];
    case Present(cs) =>
  }

  /** When the builder returns, so does the recursive call for each record
      it selects, one level deeper. */
  lemma {:induction false} ChildBuildReturns(cats: seq<Category>, p: Option<int>, fuel: nat, c: Category)
    requires Build(cats, p, fuel).Some? && c in cats && c.parentId == p
    ensures fuel > 0 && Build(cats, Some(c.id), fuel - 1).Some?
  {
    if Build(cats, Some(c.id), fuel - 1).None? {
      ScanExhausted(cats, cats, p, fuel - 1, c);
    }
  }

  /** Each node the builder returns carries, as its children, exactly what
      the recursive call `buildHierarchy(cats, node.id)` returned. */
  lemma {:induction false} SubtreeIsRecursiveBuild(cats: seq<Category>, p: Option<int>, fuel: nat, k: nat)
    requires Build(cats, p, fuel).Some? && k < |Build(cats, p, fuel).value|
    ensures fuel > 0
    ensures var n := Build(cats, p, fuel).value[k];
            Build(cats, Some(n.category.id), fuel - 1) == Some(Kids(n))
  {
    var ns := Build(cats, p, fuel).value;
    var c := ns[k].category;
    BuildSound(cats, p, fuel);
    ForestNodeSelected(cats, ns, p, k);
    ChildBuildReturns(cats, p, fuel, c);
    BuildSound(cats, Some(c.id), fuel - 1);
    KidsAreForest(cats, ns, p, k, Build(cats, Some(c.id), fuel - 1).value);
  }

  /** Every top node of a correctly built forest under `p` holds a stored
      record whose parent is `p`. */
  lemma {:induction false} ForestNodeSelected(cats: seq<Category>, ns: seq<Node>, p: Option<int>, k: nat)
    requires ForestBuilt(cats, ns, p) && k < |ns|
    ensures ns[k].category in cats && ns[k].category.parentId == p
  {
    assert ns[k].category == Roots(ns)[k];
    ChildrenOfMembers(cats, p);
    assert ns[k].category in ChildrenOf(cats, p);
  }

  /** In a correctly built forest, the correctly built forest under a node's
      id is that node's children. */
  lemma {:induction false} KidsAreForest(cats: seq<Category>, ns: seq<Node>, p: Option<int>, k: nat, sub: seq<Node>)
    requires ForestBuilt(cats, ns, p) && k < |ns|
    requires ForestBuilt(cats, sub, Some(ns[k].category.id))
    ensures sub == Kids(ns[k])
  {
    assert NodeBuilt(cats, ns[k]);
    NodeKidsBuilt(cats, ns[k]);
    ForestBuiltUnique(cats, sub, Kids(ns[k]), Some(ns[k].category.id));
  }
}
