/** Parent chains: which records the tree view shows, and when the
    unguarded recursion of the hierarchy builder returns at all. */
module Chains {
  import opened Optional
  import opened Store
  import opened Hierarchy

  /** `path` is a chain of stored records hanging from the root level: the
      first has a `null` parent, and each next one names the previous one
      as its parent. These are exactly the nested calls the builder makes. */
  ghost predicate Chain(cats: seq<Category>, path: seq<Category>)
  {
    && (forall i :: 0 <= i < |path| ==> path[i] in cats)
    && (|path| > 0 ==> path[0].parentId == None)
    && (forall i :: 0 < i < |path| ==> path[i].parentId == Some(path[i - 1].id))
  }

  /** The parent argument of the builder call at the end of a chain. */
  function Tip(path: seq<Category>): (r: Option<int>)
  {
    if |path| == 0 then None else Some(path[|path| - 1].id)
  }

  /** A record is reachable when some chain from the root level ends at it. */
  ghost predicate Reachable(cats: seq<Category>, c: Category)
  {
    exists path :: Chain(cats, path) && |path| > 0 && path[|path| - 1] == c
  }

  /** No chain is longer than the store: the condition under which the
      builder, started from the root level, returns. */
  ghost predicate ChainsBounded(cats: seq<Category>)
  {
    forall path :: Chain(cats, path) ==> |path| <= |cats|
  }

  lemma {:induction false} ChainExtend(cats: seq<Category>, path: seq<Category>, c: Category)
    requires Chain(cats, path)
    requires c in cats && c.parentId == Tip(path)
    ensures Chain(cats, path + [c]) && Tip(path + [c]) == Some(c.id)
  {
  }

  // ---------------------------------------------------------------------
  // Which records the tree view shows.
  // ---------------------------------------------------------------------

  /** `c` is the record of `n` or of some node below it. */
  ghost predicate NodeContains(n: Node, c: Category)
    decreases n
  {
    || n.category == c
    || match n.children
       case Absent => false
       case Present(cs) => exists k :: 0 <= k < |cs| && NodeContains(cs[k], c)
  }

  ghost predicate ForestContains(ns: seq<Node>, c: Category)
  {
    exists k :: 0 <= k < |ns| && NodeContains(ns[k], c)
  }

  /** Completeness: a correctly built node for the `j`-th record of a chain
      contains every later record of the chain. */
  lemma {:induction false} NodeHoldsChain(cats: seq<Category>, n: Node, path: seq<Category>, j: nat)
    requires Chain(cats, path) && j < |path|
    requires NodeBuilt(cats, n) && n.category == path[j]
    ensures NodeContains(n, path[|path| - 1])
    decreases |path| - j
  {
    if j + 1 < |path| {
      var next := path[j + 1];
      ChildrenOfMembers(cats, Some(n.category.id));
      assert next in ChildrenOf(cats, Some(n.category.id));
      var cs := n.children.nodes;
      var k :| 0 <= k < |cs| && Roots(cs)[k] == next;
      NodeHoldsChain(cats, cs[k], path, j + 1);
    }
  }

  /** Soundness: every record below a correctly built node for the end of a
      chain is itself the end of a chain. */
  lemma {:induction false} NodeOnlyChains(cats: seq<Category>, n: Node, path: seq<Category>, c: Category)
    requires Chain(cats, path) && |path| > 0 && path[|path| - 1] == n.category
    requires NodeBuilt(cats, n) && NodeContains(n, c)
    ensures Reachable(cats, c)
    decreases n
  {
    if n.category != c {
      var cs := n.children.nodes;
      var k :| 0 <= k < |cs| && NodeContains(cs[k], c);
      assert cs[k].category == Roots(cs)[k];
      ChildrenOfMembers(cats, Some(n.category.id));
      ChainExtend(cats, path, cs[k].category);
      NodeOnlyChains(cats, cs[k], path + [cs[k].category], c);
    }
  }

  /** The tree view under the `null` parent shows exactly the records that
      are reachable from the root level. */
  lemma {:induction false} TreeShowsReachable(cats: seq<Category>, ns: seq<Node>, c: Category)
    requires ForestBuilt(cats, ns, None)
    ensures ForestContains(ns, c) <==> Reachable(cats, c)
  {
    if ForestContains(ns, c) {
      var k :| 0 <= k < |ns| && NodeContains(ns[k], c);
      assert ns[k].category == Roots(ns)[k];
      ChildrenOfMembers(cats, None);
      NodeOnlyChains(cats, ns[k], [ns[k].category], c);
    }
    if Reachable(cats, c) {
      var path :| Chain(cats, path) && |path| > 0 && path[|path| - 1] == c;
      ChildrenOfMembers(cats, None);
      assert path[0] in ChildrenOf(cats, None);
      var k :| 0 <= k < |ns| && Roots(ns)[k] == path[0];
      NodeHoldsChain(cats, ns[k], path, 0);
    }
  }

  /** A record whose parent id names no stored record is not reachable. */
  lemma {:induction false} DanglingUnreachable(cats: seq<Category>, c: Category, q: int)
    requires c.parentId == Some(q)
    requires forall d :: d in cats ==> d.id != q
    ensures !Reachable(cats, c)
  {
    forall path | Chain(cats, path) && |path| > 0 ensures path[|path| - 1] != c {
      if |path| > 1 {
        assert path[|path| - 2] in cats;
      }
    }
  }

  // ---------------------------------------------------------------------
  // When the builder returns.
  // ---------------------------------------------------------------------

  /** A sequence without repeats drawn from `t` is no longer than `t`. */
  lemma {:induction false} DistinctBound<T>(s: seq<T>, t: seq<T>)
    requires forall i, j :: 0 <= i < j < |s| ==> s[i] != s[j]
    requires forall i :: 0 <= i < |s| ==> s[i] in t
    ensures |s| <= |t|
    decreases |s|
  {
    if |s| > 0 {
      var x := s[|s| - 1];
      var k :| 0 <= k < |t| && t[k] == x;
      var t' := t[..k] + t[k + 1..];
      forall i | 0 <= i < |s| - 1 ensures s[i] in t' {
        var m :| 0 <= m < |t| && t[m] == s[i];
        if m < k {
          assert t'[m] == s[i];
        } else {
          assert m != k && t'[m - 1] == s[i];
        }
      }
      DistinctBound(s[..|s| - 1], t');
    }
  }

  /** With unique ids, a chain never visits the same record twice. */
  lemma {:induction false} ChainNoRepeat(cats: seq<Category>, path: seq<Category>, i: nat, j: nat)
    requires UniqueIds(cats) && Chain(cats, path)
    requires i < j < |path|
    ensures path[i] != path[j]
    decreases i
  {
    assert path[j].parentId == Some(path[j - 1].id);
    if path[i] == path[j] && i > 0 {
      SameIdSameRecord(cats, path[i - 1], path[j - 1]);
      ChainNoRepeat(cats, path, i - 1, j - 1);
    }
  }

  /** Unique ids bound every chain by the size of the store. */
  lemma {:induction false} UniqueIdsBoundChains(cats: seq<Category>)
    requires UniqueIds(cats)
    ensures ChainsBounded(cats)
  {
    forall path | Chain(cats, path) ensures |path| <= |cats| {
      forall i, j | 0 <= i < j < |path| ensures path[i] != path[j] {
        ChainNoRepeat(cats, path, i, j);
      }
      DistinctBound(path, cats);
    }
  }

  /** With bounded chains, the builder call at the end of a chain returns
      when it has more fuel than the store has records left over. */
  lemma {:induction false} BuildReturns(cats: seq<Category>, path: seq<Category>, fuel: nat)
    requires ChainsBounded(cats) && Chain(cats, path)
    requires fuel + |path| >= |cats|
    ensures Build(cats, Tip(path), fuel + 1).Some?
    decreases fuel, 2
  {
    ScanReturns(cats, path, 0, fuel);
    assert cats[0..] == cats;
  }

  lemma {:induction false} ScanReturns(cats: seq<Category>, path: seq<Category>, from: nat, fuel: nat)
    requires ChainsBounded(cats) && Chain(cats, path)
    requires fuel + |path| >= |cats|
    requires from <= |cats|
    ensures Scan(cats, cats[from..], Tip(path), fuel).Some?
    decreases fuel, 1, |cats| - from
  {
    if from < |cats| {
      ScanReturns(cats, path, from + 1, fuel);
      var c := cats[from];
      if c.parentId == Tip(path) {
        ChainExtend(cats, path, c);
        assert |path + [c]| <= |cats|;
        BuildReturns(cats, path + [c], fuel - 1);
      }
      assert cats[from..][1..] == cats[from + 1..];
      ScanStep(cats, cats[from..], Tip(path), fuel);
    }
  }

  /** A chain at least `fuel` records longer than its prefix `path[..m]`
      drives the builder call for that prefix out of fuel. */
  lemma {:induction false} LongChainExhausts(cats: seq<Category>, path: seq<Category>, m: nat, fuel: nat)
    requires Chain(cats, path)
    requires m + fuel <= |path|
    ensures Build(cats, Tip(path[..m]), fuel).None?
    decreases fuel
  {
    if fuel > 0 {
      assert path[..m + 1][..m] == path[..m];
      LongChainExhausts(cats, path, m + 1, fuel - 1);
      ScanExhausted(cats, cats, Tip(path[..m]), fuel - 1, path[m]);
    }
  }

  /** A chain that ends on a record it already visited at position `i`
      can be extended to any length by going round the cycle again. */
  lemma {:induction false} Pump(cats: seq<Category>, path: seq<Category>, i: nat, len: nat)
      returns (longer: seq<Category>)
    requires Chain(cats, path)
    requires i < |path| - 1 && path[i] == path[|path| - 1]
    ensures Chain(cats, longer) && |longer| >= len
    decreases len - |path|
  {
    if |path| >= len {
      longer := path;
    } else {
      var next := path + path[i + 1..];
      forall k | |path| <= k < |next| ensures next[k].parentId == Some(next[k - 1].id) {
        assert next[k] == path[k - |path| + i + 1];
        if k > |path| {
          assert next[k - 1] == path[k - 1 - |path| + i + 1];
        }
      }
      longer := Pump(cats, next, i, len);
    }
  }

  /** The builder, started at the root level with `fuel`, returns only if no
      chain is longer than the store. */
  lemma {:induction false} ReturnsOnlyIfBounded(cats: seq<Category>, fuel: nat)
    requires Build(cats, None, fuel).Some?
    ensures ChainsBounded(cats)
  {
    forall path | Chain(cats, path) ensures |path| <= |cats| {
      if |path| > |cats| {
        if forall i, j :: 0 <= i < j < |path| ==> path[i] != path[j] {
          DistinctBound(path, cats);
        }
        var i, j :| 0 <= i < j < |path| && path[i] == path[j];
        var longer := Pump(cats, path[..j + 1], i, fuel);
        assert longer[..0] == [];
        LongChainExhausts(cats, longer, 0, fuel);
      }
    }
  }

  /** GET /categories returns exactly when every chain is bounded by the
      store size, fuel `|cats| + 1` is enough whenever any fuel is, and when
      it runs out no amount of fuel would do. */
  lemma {:induction false} RootBuildReturnsIff(cats: seq<Category>)
    ensures Build(cats, None, |cats| + 1).Some? <==> ChainsBounded(cats)
    ensures forall fuel: nat :: Build(cats, None, fuel).Some? ==>
              Build(cats, None, fuel) == Build(cats, None, |cats| + 1)
  {
    if ChainsBounded(cats) {
      BuildReturns(cats, [], |cats|);
    }
    if Build(cats, None, |cats| + 1).Some? {
      ReturnsOnlyIfBounded(cats, |cats| + 1);
    }
    forall fuel: nat | Build(cats, None, fuel).Some?
      ensures Build(cats, None, fuel) == Build(cats, None, |cats| + 1)
    {
      ReturnsOnlyIfBounded(cats, fuel);
      BuildReturns(cats, [], |cats|);
      BuildSound(cats, None, fuel);
      BuildSound(cats, None, |cats| + 1);
      ForestBuiltUnique(cats, Build(cats, None, fuel).value, Build(cats, None, |cats| + 1).value, None);
    }
  }

  /** With unique ids the tree view always returns, whatever cycles the
      parent ids form: a record on a cycle is never reached from a root. */
  lemma {:induction false} UniqueIdsBuildReturns(cats: seq<Category>)
    requires UniqueIds(cats)
    ensures Build(cats, None, |cats| + 1).Some?
  {
    UniqueIdsBoundChains(cats);
    RootBuildReturnsIff(cats);
  }
}
