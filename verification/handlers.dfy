/** The five `/categories` request handlers, each a pure transition from
    the store and the request to a response and the next store, plus the
    dispatcher that runs a sequence of requests one after another. */
module Handlers {
  import opened Optional
  import opened Store
  import opened Hierarchy
  import opened Chains

  // ---------------------------------------------------------------------
  // Requests and responses.
  // ---------------------------------------------------------------------

  /** The `parentId` field of a JSON request body: not sent, `null`, or a
      number. */
  datatype ParentField = Missing | Null | Number(n: int)

  /** A JSON request body `{name?, parentId?}`. */
  datatype Body = Body(name: Option<string>, parentId: ParentField)

  /** JavaScript truthiness of the `name` field: sent and non-empty. */
  predicate NameTruthy(name: Option<string>)
  {
    name.Some? && name.value != ""
  }

  /** JavaScript truthiness of the `parentId` field: sent, not `null`, not 0. */
  predicate ParentTruthy(parentId: ParentField)
  {
    parentId.Number? && parentId.n != 0
  }

  /** A JSON response body: one flat record, the tree view, or a message. */
  datatype Payload = Record(category: Category) | Tree(nodes: seq<Node>) | Message(text: string)

  datatype Response = Response(status: int, payload: Payload)

  /** The outcome of one request: the response and the store after it. */
  datatype Reply = Reply(response: Response, store: seq<Category>)

  const NotFound := Response(404, Message("Category not found"))
  const MissingFields := Response(400, Message("Name and parentId are required"))

  // ---------------------------------------------------------------------
  // Handlers.
  // ---------------------------------------------------------------------

  /** GET /categories: the tree view from the `null` parent. `None` when
      the builder's recursion never returns (a chain longer than the
      store, which needs a parent cycle reachable from a root). */
  function ListCategories(cats: seq<Category>): (r: Option<Response>)
    ensures r.Some? <==> ChainsBounded(cats)
    ensures r.Some? ==> r.value.status == 200 && r.value.payload.Tree?
    ensures r.Some? ==> ForestBuilt(cats, r.value.payload.nodes, None)
  {
    RootBuildReturnsIff(cats);
    match Build(cats, None, |cats| + 1)
    case None => None
    case Some(ns) =>
      BuildSound(cats, None, |cats| + 1);
      Some(Response(200, Tree(ns)))
  }

  /** GET /categories/:id: the flat record, or 404. A path id that does not
      parse (`None`) matches nothing. */
  function GetCategory(cats: seq<Category>, id: Option<int>): (r: Response)
    ensures r.status == 200 <==> HasId(cats, id)
    ensures r.status != 200 ==> r == NotFound
    ensures id.None? ==> r == NotFound
    ensures r.status == 200 ==>
              r.payload.Record? && r.payload.category in cats && Some(r.payload.category.id) == id
    ensures r.status == 200 ==> r.payload == Record(cats[FindCategoryIndex(cats, id)])
  {
    FindAgreesWithIndex(cats, id);
    match FindCategory(cats, id)
    case Some(c) => Response(200, Record(c))
    case None => NotFound
  }

  /** POST /categories: with a truthy `name` and a truthy `parentId`,
      appends a record with a fresh id and answers 201; otherwise 400 and
      the store is unchanged. */
  function CreateCategory(cats: seq<Category>, body: Body): (r: Reply)
    ensures !(NameTruthy(body.name) && ParentTruthy(body.parentId)) ==> r == Reply(MissingFields, cats)
    ensures NameTruthy(body.name) && ParentTruthy(body.parentId) ==>
              && |r.store| == |cats| + 1
              && r.store[..|cats|] == cats
              && r.store[|cats|].id == NextId(cats)
              && r.store[|cats|].name == body.name.value
              && r.store[|cats|].parentId == Some(body.parentId.n)
              && (forall c :: c in cats ==> c.id < r.store[|cats|].id)
              && r.response == Response(201, Record(r.store[|cats|]))
    ensures UniqueIds(cats) ==> UniqueIds(r.store)
  {
    if !NameTruthy(body.name) || !ParentTruthy(body.parentId) then
      Reply(MissingFields, cats)
    else
      var created := Category(NextId(cats), body.name.value, Some(body.parentId.n));
      AppendFreshKeepsUnique(cats, created);
      assert (cats + [created])[..|cats|] == cats;
      Reply(Response(201, Record(created)), cats + [created])
  }

  /** PUT /categories/:id: 404 when no record has the id; otherwise the
      first such record takes the sent `name` and `parentId`, each only when
      truthy, keeping its id and position. */
  function UpdateCategory(cats: seq<Category>, id: Option<int>, body: Body): (r: Reply)
    ensures !HasId(cats, id) ==> r == Reply(NotFound, cats)
    ensures id.None? ==> r == Reply(NotFound, cats)
    ensures HasId(cats, id) ==>
              var k := FindCategoryIndex(cats, id);
              && |r.store| == |cats|
              && r.store[k].id == cats[k].id
              && r.store[k].name == (if NameTruthy(body.name) then body.name.value else cats[k].name)
              && r.store[k].parentId == (if ParentTruthy(body.parentId) then Some(body.parentId.n) else cats[k].parentId)
              && (forall j :: 0 <= j < |cats| && j != k ==> r.store[j] == cats[j])
              && r.response == Response(200, Record(r.store[k]))
    ensures |r.store| == |cats| && forall j :: 0 <= j < |cats| ==> r.store[j].id == cats[j].id
    ensures UniqueIds(cats) ==> UniqueIds(r.store)
  {
    var k := FindCategoryIndex(cats, id);
    if k == -1 then Reply(NotFound, cats)
    else
      var prior := cats[k];
      var updated := Category(
        prior.id,
        if NameTruthy(body.name) then body.name.value else prior.name,
        if ParentTruthy(body.parentId) then Some(body.parentId.n) else prior.parentId);
      Reply(Response(200, Record(updated)), cats[k := updated])
  }

  /** DELETE /categories/:id: 404 when no record has the id; otherwise the
      first such record is spliced out and returned. Its children are left
      as they are. */
  function DeleteCategory(cats: seq<Category>, id: Option<int>): (r: Reply)
    ensures !HasId(cats, id) ==> r == Reply(NotFound, cats)
    ensures id.None? ==> r == Reply(NotFound, cats)
    ensures HasId(cats, id) ==>
              var k := FindCategoryIndex(cats, id);
              && |r.store| == |cats| - 1
              && (forall j :: 0 <= j < k ==> r.store[j] == cats[j])
              && (forall j :: k <= j < |r.store| ==> r.store[j] == cats[j + 1])
              && r.response == Response(200, Record(cats[k]))
    ensures UniqueIds(cats) ==> UniqueIds(r.store)
    ensures UniqueIds(cats) ==> forall c :: c in r.store ==> c in cats
    ensures UniqueIds(cats) ==> !HasId(r.store, id)
  {
    var k := FindCategoryIndex(cats, id);
    if k == -1 then Reply(NotFound, cats)
    else
      var rest := cats[..k] + cats[k + 1..];
      RemoveKeepsUnique(cats, k);
      Reply(Response(200, Record(cats[k])), rest)
  }

  lemma {:induction false} RemoveKeepsUnique(cats: seq<Category>, k: nat)
    requires k < |cats|
    ensures forall c :: c in cats[..k] + cats[k + 1..] ==> c in cats
    ensures UniqueIds(cats) ==> UniqueIds(cats[..k] + cats[k + 1..])
    ensures UniqueIds(cats) ==> forall c :: c in cats[..k] + cats[k + 1..] ==> c.id != cats[k].id
  {
    var rest := cats[..k] + cats[k + 1..];
    forall j | 0 <= j < |rest| ensures rest[j] == cats[if j < k then j else j + 1] {
    }
    if UniqueIds(cats) {
      forall i, j | 0 <= i < j < |rest| ensures rest[i].id != rest[j].id {
        assert rest[i] == cats[if i < k then i else i + 1];
        assert rest[j] == cats[if j < k then j else j + 1];
      }
      forall c | c in rest ensures c.id != cats[k].id {
        var j :| 0 <= j < |rest| && rest[j] == c;
        assert rest[j] == cats[if j < k then j else j + 1];
      }
    }
  }

  // ---------------------------------------------------------------------
  // Properties of the tree view.
  // ---------------------------------------------------------------------

  /** GET /categories shows exactly the records reachable from a root by
      parent links: roots carry the `null` parent, every other node sits
      under its parent's node, and a record whose parent id names no record
      never appears. */
  lemma {:induction false} ListShowsReachable(cats: seq<Category>)
    requires ListCategories(cats).Some?
    ensures var ns := ListCategories(cats).value.payload.nodes;
            && (forall k :: 0 <= k < |ns| ==> ns[k].category.parentId == None && Linked(ns[k]))
            && (forall c :: ForestContains(ns, c) <==> Reachable(cats, c))
            && (forall c: Category, q: int :: c.parentId == Some(q) && !HasId(cats, Some(q)) ==> !ForestContains(ns, c))
  {
    var ns := ListCategories(cats).value.payload.nodes;
    ForestBuiltLinked(cats, ns, None);
    forall c ensures ForestContains(ns, c) <==> Reachable(cats, c) {
      TreeShowsReachable(cats, ns, c);
    }
    forall c: Category, q: int | c.parentId == Some(q) && !HasId(cats, Some(q)) ensures !ForestContains(ns, c) {
      DanglingUnreachable(cats, c, q);
    }
  }

  /** With unique ids GET /categories always answers, even when some
      records form a parent cycle: such a cycle is never reached from a
      root. */
  lemma {:induction false} ListAnswersOnUniqueIds(cats: seq<Category>)
    requires UniqueIds(cats)
    ensures ListCategories(cats).Some?
  {
    UniqueIdsBoundChains(cats);
  }

  /** Records that share an id can make the builder recurse forever:
      "Dresses" shares id 1 with "Women", so its children are those of
      "Women", among them "Sale", whose child is "Dresses" again. */
  lemma {:induction false} DuplicateIdsDiverge()
    ensures ListCategories([Category(1, "Women", None), Category(2, "Sale", Some(1)),
                            Category(1, "Dresses", Some(2))]).None?
  {
    var cats := [Category(1, "Women", None), Category(2, "Sale", Some(1)), Category(1, "Dresses", Some(2))];
    var path := [cats[0], cats[1], cats[2], cats[1]];
    assert Chain(cats, path);
    assert !ChainsBounded(cats);
  }

  /** No record from position `k` on has parent `p`, checked one by one. */
  predicate NoChildFrom(cats: seq<Category>, p: Option<int>, k: nat)
    decreases |cats| - k
  {
    k >= |cats| || (cats[k].parentId != p && NoChildFrom(cats, p, k + 1))
  }

  lemma {:induction false} NoChildFromHasNoChildren(cats: seq<Category>, p: Option<int>, k: nat)
    requires k <= |cats| && NoChildFrom(cats, p, k)
    ensures ChildrenOf(cats[k..], p) == []
    decreases |cats| - k
  {
    if k < |cats| {
      NoChildFromHasNoChildren(cats, p, k + 1);
      assert cats[k..][1..] == cats[k + 1..];
    }
  }

  /** A store whose first two records are its only roots. */
  lemma {:induction false} FirstTwoRoots(cats: seq<Category>)
    requires |cats| >= 2 && cats[0].parentId == None && cats[1].parentId == None
    requires NoChildFrom(cats, None, 2)
    ensures ChildrenOf(cats, None) == [cats[0], cats[1]]
  {
    NoChildFromHasNoChildren(cats, None, 2);
    assert cats[1..][1..] == cats[2..];
    assert ChildrenOf(cats[1..], None) == [cats[1]];
  }

  /** In the seed data only the first two records are roots. */
  lemma {:induction false} SeedRootsFirst()
    ensures NoChildFrom(Seed, None, 2)
  {
    // Walked backwards from the end so that each step unfolds the predicate once.
    assert NoChildFrom(Seed, None, 20);
    assert NoChildFrom(Seed, None, 19);
    assert NoChildFrom(Seed, None, 18);
    assert NoChildFrom(Seed, None, 17);
    assert NoChildFrom(Seed, None, 16);
    assert NoChildFrom(Seed, None, 15);
    assert NoChildFrom(Seed, None, 14);
    assert NoChildFrom(Seed, None, 13);
    assert NoChildFrom(Seed, None, 12);
    assert NoChildFrom(Seed, None, 11);
    assert NoChildFrom(Seed, None, 10);
    assert NoChildFrom(Seed, None, 9);
    assert NoChildFrom(Seed, None, 8);
    assert NoChildFrom(Seed, None, 7);
    assert NoChildFrom(Seed, None, 6);
    assert NoChildFrom(Seed, None, 5);
    assert NoChildFrom(Seed, None, 4);
    assert NoChildFrom(Seed, None, 3);
    assert NoChildFrom(Seed, None, 2);
  }

  /** With unique ids and exactly the first two records as roots, the tree
      view has those two records at the top, in order. */
  lemma {:induction false} ShowsFirstTwo(cats: seq<Category>)
    requires UniqueIds(cats)
    requires |cats| >= 2 && cats[0].parentId == None && cats[1].parentId == None
    requires NoChildFrom(cats, None, 2)
    ensures ListCategories(cats).Some?
    ensures var ns := ListCategories(cats).value.payload.nodes;
            |ns| == 2 && ns[0].category == cats[0] && ns[1].category == cats[1]
  {
    ListAnswersOnUniqueIds(cats);
    FirstTwoRoots(cats);
    ListedRoots(cats);
  }

  /** The seed data's tree: the roots are "Women" (`Seed[0]`) and "Men"
      (`Seed[1]`), in that order. */
  lemma {:induction false} SeedRoots()
    ensures ListCategories(Seed).Some?
    ensures var ns := ListCategories(Seed).value.payload.nodes;
            |ns| == 2 && ns[0].category == Seed[0] && ns[1].category == Seed[1]
  {
    SeedUniqueIds();
    SeedRootsFirst();
    ShowsFirstTwo(Seed);
  }

  /** In the seed data no record after "T-shirts" (`Seed[3]`) is a child
      of "Women". */
  lemma {:induction false} SeedWomenChildrenFirst()
    ensures NoChildFrom(Seed, Some(1), 4)
  {
    // Walked backwards from the end so that each step unfolds the predicate once.
    assert NoChildFrom(Seed, Some(1), 20);
    assert NoChildFrom(Seed, Some(1), 19);
    assert NoChildFrom(Seed, Some(1), 18);
    assert NoChildFrom(Seed, Some(1), 17);
    assert NoChildFrom(Seed, Some(1), 16);
    assert NoChildFrom(Seed, Some(1), 15);
    assert NoChildFrom(Seed, Some(1), 14);
    assert NoChildFrom(Seed, Some(1), 13);
    assert NoChildFrom(Seed, Some(1), 12);
    assert NoChildFrom(Seed, Some(1), 11);
    assert NoChildFrom(Seed, Some(1), 10);
    assert NoChildFrom(Seed, Some(1), 9);
    assert NoChildFrom(Seed, Some(1), 8);
    assert NoChildFrom(Seed, Some(1), 7);
    assert NoChildFrom(Seed, Some(1), 6);
    assert NoChildFrom(Seed, Some(1), 5);
    assert NoChildFrom(Seed, Some(1), 4);
  }

  /** A store whose records at positions 2 and 3 are the only children of
      `p`. */
  lemma {:induction false} ChildrenAtTwoAndThree(cats: seq<Category>, p: Option<int>)
    requires |cats| >= 4 && cats[0].parentId != p && cats[1].parentId != p
    requires cats[2].parentId == p && cats[3].parentId == p
    requires NoChildFrom(cats, p, 4)
    ensures ChildrenOf(cats, p) == [cats[2], cats[3]]
  {
    NoChildFromHasNoChildren(cats, p, 4);
    ChildrenOfStep(cats, p, 3);
    ChildrenOfStep(cats, p, 2);
    ChildrenOfStep(cats, p, 1);
    ChildrenOfStep(cats, p, 0);
    assert cats[0..] == cats;
  }

  /** Each top node of the tree view carries exactly its record's children,
      and has a `children` attribute exactly when there are some. */
  lemma {:induction false} ListedChildren(cats: seq<Category>, k: nat)
    requires ListCategories(cats).Some?
    requires k < |ListCategories(cats).value.payload.nodes|
    ensures var n := ListCategories(cats).value.payload.nodes[k];
            && Roots(Kids(n)) == ChildrenOf(cats, Some(n.category.id))
            && (n.children.Present? <==> ChildrenOf(cats, Some(n.category.id)) != [])
  {
    var n := ListCategories(cats).value.payload.nodes[k];
    assert NodeBuilt(cats, n);
    NodeKidsBuilt(cats, n);
  }

  /** A store shaped like the seed data's first branch: two roots at the
      front, and the first root's only children at positions 2 and 3. */
  lemma {:induction false} ShowsFirstBranch(cats: seq<Category>)
    requires UniqueIds(cats)
    requires |cats| >= 4 && cats[0].parentId == None && cats[1].parentId == None
    requires NoChildFrom(cats, None, 2)
    requires cats[2].parentId == Some(cats[0].id) && cats[3].parentId == Some(cats[0].id)
    requires NoChildFrom(cats, Some(cats[0].id), 4)
    ensures ListCategories(cats).Some?
    ensures var ns := ListCategories(cats).value.payload.nodes;
            && |ns| == 2
            && ns[0].category == cats[0]
            && ns[0].children.Present?
            && Roots(Kids(ns[0])) == [cats[2], cats[3]]
  {
    ShowsFirstTwo(cats);
    ListedChildren(cats, 0);
    ChildrenAtTwoAndThree(cats, Some(cats[0].id));
  }

  /** In the seed data's tree, "Women" (`Seed[0]`) carries a `children`
      attribute whose nodes are "Clothing" (`Seed[2]`) and "T-shirts"
      (`Seed[3]`), in that order. */
  lemma {:induction false} SeedWomenChildren()
    ensures ListCategories(Seed).Some?
    ensures var ns := ListCategories(Seed).value.payload.nodes;
            && |ns| == 2
            && ns[0].category == Seed[0]
            && ns[0].children.Present?
            && Roots(Kids(ns[0])) == [Seed[2], Seed[3]]
  {
    SeedUniqueIds();
    SeedRootsFirst();
    SeedWomenChildrenFirst();
    ShowsFirstBranch(Seed);
  }

  /** The roots GET /categories shows are the records whose parent is
      `null`, in store order. */
  lemma {:induction false} ListedRoots(cats: seq<Category>)
    requires ListCategories(cats).Some?
    ensures var ns := ListCategories(cats).value.payload.nodes;
            |ns| == |ChildrenOf(cats, None)| &&
            forall k :: 0 <= k < |ns| ==> ns[k].category == ChildrenOf(cats, None)[k]
  {
    var ns := ListCategories(cats).value.payload.nodes;
    assert Roots(ns) == ChildrenOf(cats, None);
    forall k | 0 <= k < |ns| ensures ns[k].category == ChildrenOf(cats, None)[k] {
      assert ns[k].category == Roots(ns)[k];
    }
  }

  // ---------------------------------------------------------------------
  // Properties of the mutating handlers.
  // ---------------------------------------------------------------------

  /** A record created by POST is what GET /categories/:id then returns
      for its id. */
  lemma {:induction false} CreateThenGet(cats: seq<Category>, body: Body)
    requires NameTruthy(body.name) && ParentTruthy(body.parentId)
    ensures var r := CreateCategory(cats, body);
            var created := r.store[|cats|];
            && r.response == Response(201, Record(created))
            && GetCategory(r.store, Some(created.id)) == Response(200, Record(created))
  {
    var r := CreateCategory(cats, body);
    var created := r.store[|cats|];
    var k := FindCategoryIndex(r.store, Some(created.id));
    FindAgreesWithIndex(r.store, Some(created.id));
  }

  /** POST never creates a root: the new record's parent is a non-zero
      number. */
  lemma {:induction false} CreateNeverMakesRoot(cats: seq<Category>, body: Body)
    ensures var r := CreateCategory(cats, body);
            forall c :: c in r.store && c.parentId == None ==> c in cats
  {
    var r := CreateCategory(cats, body);
    if NameTruthy(body.name) && ParentTruthy(body.parentId) {
      forall c | c in r.store && c.parentId == None ensures c in cats {
        var j :| 0 <= j < |r.store| && r.store[j] == c;
        if j < |cats| {
          assert r.store[..|cats|][j] == c;
        }
      }
    }
  }

  /** PUT ignores an empty name and a `parentId` of 0, `null` or nothing:
      with only such fields the request changes no record. */
  lemma {:induction false} FalsyUpdateChangesNothing(cats: seq<Category>, id: Option<int>, body: Body)
    requires !NameTruthy(body.name) && !ParentTruthy(body.parentId)
    ensures UpdateCategory(cats, id, body).store == cats
  {
    var r := UpdateCategory(cats, id, body);
    if HasId(cats, id) {
      var k := FindCategoryIndex(cats, id);
      assert r.store[k] == cats[k];
      assert forall j :: 0 <= j < |cats| ==> r.store[j] == cats[j];
    }
  }

  /** DELETE does not cascade: the removed record's children (other than
      itself, when it is its own parent) stay in the store, and since their
      parent id now names no record they drop out of the tree view. */
  lemma {:induction false} DeleteOrphansChildren(cats: seq<Category>, x: int)
    requires UniqueIds(cats) && HasId(cats, Some(x))
    ensures var after := DeleteCategory(cats, Some(x)).store;
            && (forall c :: c in cats && c.parentId == Some(x) && c.id != x ==> c in after)
            && ListCategories(after).Some?
            && (forall c :: c in after && c.parentId == Some(x) ==>
                  !ForestContains(ListCategories(after).value.payload.nodes, c))
  {
    var after := DeleteCategory(cats, Some(x)).store;
    var k := FindCategoryIndex(cats, Some(x));
    forall c | c in cats && c.parentId == Some(x) && c.id != x ensures c in after {
      var j :| 0 <= j < |cats| && cats[j] == c;
      if j < k {
        assert after[j] == c;
      } else if j > k {
        assert after[j - 1] == c;
      }
    }
    ListAnswersOnUniqueIds(after);
    ListShowsReachable(after);
  }

  // ---------------------------------------------------------------------
  // Sessions: requests applied one after another.
  // ---------------------------------------------------------------------

  datatype Request =
    | ListAll
    | GetOne(id: Option<int>)
    | Create(body: Body)
    | Update(id: Option<int>, body: Body)
    | Delete(id: Option<int>)

  /** Routes one request to its handler. `None` when GET /categories never
      answers. */
  function Handle(cats: seq<Category>, req: Request): (r: Option<Reply>)
    ensures r.None? <==> req.ListAll? && !ChainsBounded(cats)
    ensures r.Some? && (req.ListAll? || req.GetOne?) ==> r.value.store == cats
    ensures r.Some? && UniqueIds(cats) ==> UniqueIds(r.value.store)
  {
    match req
    case ListAll =>
      (match ListCategories(cats)
       case None => None
       case Some(resp) => Some(Reply(resp, cats)))
    case GetOne(id) => Some(Reply(GetCategory(cats, id), cats))
    case Create(body) => Some(CreateCategory(cats, body))
    case Update(id, body) => Some(UpdateCategory(cats, id, body))
    case Delete(id) => Some(DeleteCategory(cats, id))
  }

  /** The responses of a session and the store it leaves behind. */
  datatype Session = Session(responses: seq<Response>, store: seq<Category>)

  /** Applies the requests in order, each to the store the previous one
      left; `None` as soon as one never answers. */
  function Run(cats: seq<Category>, reqs: seq<Request>): (r: Option<Session>)
    ensures r.Some? ==> |r.value.responses| == |reqs|
    decreases |reqs|
  {
    if reqs == [] then Some(Session([], cats))
    else
      match Handle(cats, reqs[0])
      case None => None
      case Some(reply) =>
        match Run(reply.store, reqs[1..])
        case None => None
        case Some(later) => Some(Session([reply.response] + later.responses, later.store))
  }

  /** Starting from unique ids, every session answers every request and
      keeps ids unique. */
  lemma {:induction false} RunKeepsUniqueIds(cats: seq<Category>, reqs: seq<Request>)
    requires UniqueIds(cats)
    ensures Run(cats, reqs).Some?
    ensures UniqueIds(Run(cats, reqs).value.store)
    decreases |reqs|
  {
    if reqs != [] {
      UniqueIdsBoundChains(cats);
      var reply := Handle(cats, reqs[0]).value;
      RunKeepsUniqueIds(reply.store, reqs[1..]);
    }
  }

  /** From the seed data, any sequence of requests is answered in full and
      leaves a store with unique ids. */
  lemma {:induction false} SeedSessionsSucceed(reqs: seq<Request>)
    ensures Run(Seed, reqs).Some?
    ensures UniqueIds(Run(Seed, reqs).value.store)
  {
    SeedUniqueIds();
    RunKeepsUniqueIds(Seed, reqs);
  }
}
