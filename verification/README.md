# Hierarchical categories API — a Dafny model

The service keeps a flat, in-memory list of category records
`{id, name, parentId}` (a root has `parentId: null`). It serves five
endpoints: `GET /categories` answers with the records as a tree, and
`GET`, `POST`, `PUT` and `DELETE` on `/categories[/:id]` read and edit
single records. The tree is built by `buildHierarchy`, which recurses
once per child with no cycle guard. A node gets a `children` attribute
only when its list of children is non-empty.

This project models that core as pure functions over an immutable
`seq<Category>`. Each handler is a transition from the store and the
request to a response and the next store. The modules are:

- `Optional`: the `Option` type.
- `Store`: the record type, the 21 seed records, `findCategory`,
  `findCategoryIndex` and the id generator.
- `Hierarchy`: the tree node type and the builder. `Build` and `Scan`
  mirror `buildHierarchy` and its `forEach`. A relational reference
  definition (`NodeBuilt`, `ForestBuilt`) says what a correctly built
  forest is.
- `Chains`: parent chains from a root, reachability, and when the
  builder's recursion returns.
- `Handlers`: the five request handlers, a dispatcher `Handle`, and `Run`,
  which applies a sequence of requests.

The recursion of `buildHierarchy` is modelled with a depth bound `fuel`.
`None` stands for the call stack running out. The endpoint uses the bound
`|store| + 1`, and `Chains.RootBuildReturnsIff` shows that this choice
loses nothing: if the recursion returns under any bound, it returns this
same forest. The recursion returns exactly when every chain of parent
links from a root is at most as long as the store.

With unique ids, parent cycles among records cannot be reached from a root.
So in the model `GET /categories` always answers on such a store, and it
simply leaves the cycle out of the tree. The source can still answer 500
there, because of the `children` arrays it leaves on the stored records
(see Left out). Endless recursion needs two records that share
an id (`Handlers.DuplicateIdsDiverge`). In the model, a sequence of
requests starting from the seed data never produces such a store
(`Handlers.SeedSessionsSucceed`). Ids stay unique because the model's id
generator starts again at 1 on an empty store. The source's generator
does not: deleting every record and then creating two gives both the id
`-Infinity` (see Findings). Every request of such a session is answered
because the model keeps no `children` arrays between requests; the
source's stale arrays can make it answer 500 (see Left out).

JavaScript truthiness is spelled out:

- `name` counts only when it is sent and non-empty.
- `parentId` counts only when it is a number other than 0.

A path id that `parseInt` cannot read is `NaN`, which is modelled as
`None`. It matches no record.

## Model

| member | source | states |
|---|---|---|
| Store.FindCategoryIndex | server.js:319-322 | The result is -1 exactly when no record has the id. Otherwise it is the position of a record with that id, and no earlier record has it (the first match). |
| Store.FindCategory | server.js:314-317 | `None` exactly when no record has the id. Otherwise the result is a stored record with that id. A not-a-number id finds nothing. |
| Store.FindAgreesWithIndex | server.js:314-322 | `findCategory` and `findCategoryIndex` agree. Both report "not found" together, and otherwise `findCategory` returns the record at the index `findCategoryIndex` gives. |
| Store.FindUnique | server.js:314-317 | When ids are unique, looking up a stored record's id returns that very record. |
| Store.MaxId | server.js:326 | The maximum of a non-empty store's ids is an upper bound of all ids and is itself one of them. |
| Store.NextId | server.js:324-327 | A new id is larger than every stored id. On a non-empty store it is one more than some stored id (the largest); on an empty store it is 1. |
| Store.AsWrittenMatchesNextId | server.js:325-327 | On a non-empty store, `Math.max(...ids) + 1` as written equals `NextId`. |
| Store.MaxAsWritten | server.js:326 | `Math.max(...ids)` with `-Infinity` as the least value: every finite argument is at most the result, and a finite result is one of the arguments. |
| Store.GenerateIdAsWritten | server.js:325-327 | The generator as written is `-Infinity` exactly when every id is (in particular on an empty store). Otherwise it is one more than some stored id and larger than every finite id. |
| Store.MaxAsWrittenBottom | server.js:326 | `Math.max` over the ids is `-Infinity` exactly when every argument is `-Infinity`, which includes the case of no arguments at all. |
| Store.EmptyStoreIdsCollide | server.js:325-327 | As written, the generator gives `-Infinity` on an empty store, and again on a store whose only ids are `-Infinity`, so two records created in a row get the same id. |
| Store.AppendFreshKeepsUnique | server.js:208-215 | Pushing a record whose id exceeds every stored id keeps ids unique. |
| Store.SeedUniqueIds | server.js:10-116 | The 21 seed records have unique, strictly increasing ids. |
| Store.SeedIncreasing | server.js:10-116 | Each seed id is smaller than the next one. |
| Store.SeedNextId | server.js:10-116 | The first id generated on the seed data is 22. |
| Hierarchy.ChildrenOfMembers | server.js:301-302 | A record is selected for parent `p` exactly when it is stored and its `parentId` is strictly equal to `p`. `null` matches only `null`. |
| Hierarchy.ChildrenInStoreOrder | server.js:299-311 | The selected records come out in store order. The k-th one is the record at the k-th of the increasing positions whose records have parent `p`, and every such position is counted. |
| Hierarchy.SelectedSound | server.js:301-302 | Every selected position lies in the store and holds a record whose parent is `p`. |
| Hierarchy.SelectedIncreasing | server.js:301 | The selected positions strictly increase, following the `forEach` order. |
| Hierarchy.SelectedComplete | server.js:301-302 | Every position whose record has parent `p` is selected. |
| Hierarchy.Build | server.js:298-312 | `buildHierarchy(cats, p)` with a stack-depth bound; `None` when the bound runs out. The function itself carries no contract: its properties are proved in `Hierarchy.BuildSound` (soundness against the reference definition) and `Chains.RootBuildReturnsIff` (when it returns). |
| Hierarchy.Scan | server.js:301-309 | The `forEach` loop of `buildHierarchy` over the remaining records. No contract of its own: `Hierarchy.ScanSound` states what it builds. |
| Hierarchy.BuildSound | server.js:298-312 | When `buildHierarchy(cats, p)` returns, the result's nodes are exactly the records whose parent is `p`, in store order. Each node carries its own correctly built subtree, and `children` is present exactly on nodes that have children. |
| Hierarchy.ScanSound | server.js:301-309 | The `forEach` over a suffix of the store yields the nodes of that suffix's records whose parent is `p`, in order, each correctly built. |
| Hierarchy.ChildBuildReturns | server.js:301-306 | When the builder returns, the recursive call for each record it selects returns too, one level deeper. |
| Hierarchy.SubtreeIsRecursiveBuild | server.js:303-306 | Each node the builder returns carries as its children exactly what the recursive call for its id returned, one level deeper. |
| Hierarchy.NodeKidsBuilt | server.js:303-306 | The children of a correctly built node are the correctly built forest under that node's id. A missing `children` attribute stands for the empty forest. |
| Hierarchy.MakeNode | server.js:303-307 | The node made for a record keeps the record and the subtree, and has a `children` attribute exactly when the subtree is non-empty. |
| Hierarchy.MakeNodeBuilt | server.js:303-307 | A record whose subtree is correctly built becomes a correctly built node. The `children` attribute is set only when the subtree is non-empty. |
| Hierarchy.ConsBuilt | server.js:301-308 | Pushing a selected record's node in front of the nodes the rest of the loop yields gives the correct forest for the longer suffix. |
| Hierarchy.NodeBuiltUnique | server.js:298-312 | For a given record, there is only one correctly built node. |
| Hierarchy.ForestBuiltUnique | server.js:298-312 | For a given parent, there is only one correctly built forest, so the tree view is fully determined by the store. |
| Hierarchy.NodeBuiltLinked | server.js:302-306 | Inside a correctly built node, every child's `parentId` is its parent node's id, and no `children` list is empty. |
| Hierarchy.ForestBuiltLinked | server.js:298-312 | In a correctly built forest for `p`, every top node has parent `p`, and below it every node sits under its parent. |
| Hierarchy.BuildMoreFuel | server.js:298-312 | Once the recursion returns within a depth bound, a larger bound gives the same result. |
| Hierarchy.ScanMoreFuel | server.js:301-309 | Once the loop returns within a depth bound, it also returns under a larger bound. |
| Hierarchy.ScanStep | server.js:301-309 | The loop returns when the rest of the loop returns and, if the current record is selected, its own subtree returns. |
| Hierarchy.ScanExhausted | server.js:301-303 | If the subtree of any selected record never returns, the whole loop never returns. |
| Chains.TreeShowsReachable | server.js:143-146 | The tree built from `null` contains a record exactly when a chain of parent links leads from a root to that record. |
| Chains.DanglingUnreachable | server.js:302 | A record whose `parentId` names no stored id is reached by no chain. |
| Chains.UniqueIdsBoundChains | server.js:298-312 | With unique ids, no chain from a root repeats a record, so no chain is longer than the store. |
| Chains.BuildReturns | server.js:298-312 | If all chains are bounded by the store's size, then the recursion from the end of any chain returns within the remaining depth. |
| Chains.ScanReturns | server.js:301-309 | Under the same bound, the loop over any suffix of the store returns. |
| Chains.LongChainExhausts | server.js:303 | A chain at least as long as the depth bound makes the recursion run out. |
| Chains.ReturnsOnlyIfBounded | server.js:298-312 | If the build from `null` returns under any depth bound, then all chains are bounded by the store's size. |
| Chains.RootBuildReturnsIff | server.js:144 | The build from `null` with depth bound `|store| + 1` returns exactly when all chains are bounded. Whenever a build under any other bound returns, it gives the same forest. |
| Chains.UniqueIdsBuildReturns | server.js:144 | With unique ids, the build from `null` returns. |
| Handlers.ListCategories | server.js:143-146 | `GET /categories` answers exactly when all chains are bounded. The answer is 200 with the correctly built forest under `null`. |
| Handlers.ListShowsReachable | server.js:143-146 | Every top node of the tree view is a root. Every other node sits under its parent. The view shows exactly the records reachable from a root, and never a record whose parent id names no record. |
| Handlers.ListAnswersOnUniqueIds | server.js:143-146 | In the model, with unique ids, `GET /categories` always answers, even when records form a parent cycle. |
| Handlers.DuplicateIdsDiverge | server.js:298-312 | A three-record store in which two records share id 1 makes the recursion run forever. |
| Handlers.ListedRoots | server.js:143-146 | The top nodes of the tree view are the records with a `null` parent, in store order. |
| Handlers.ShowsFirstTwo | server.js:143-146 | With unique ids, when only the first two records are roots, the tree view has exactly those two at the top. |
| Handlers.SeedRoots | server.js:10-116 | On the seed data the tree view has two top nodes, "Women" and then "Men". |
| Handlers.ListedChildren | server.js:143-146 | Each top node of the tree view carries exactly its record's children, in store order, and has a `children` attribute exactly when there are some. |
| Handlers.ShowsFirstBranch | server.js:143-146 | On a store with unique ids, two roots at the front and the first root's only children at positions 2 and 3, the first top node carries `children` with exactly those two records. |
| Handlers.SeedWomenChildren | server.js:10-116 | On the seed data, the "Women" node carries `children` whose nodes are "Clothing" and then "T-shirts". |
| Handlers.NameTruthy | server.js:203 | JavaScript truthiness of `name`: true exactly when it was sent and is a non-empty string. A predicate with no contract, used by the handlers' contracts. |
| Handlers.ParentTruthy | server.js:203 | JavaScript truthiness of `parentId`: true exactly when it is a number other than 0; missing and `null` are falsy. A predicate with no contract, used by the handlers' contracts. |
| Handlers.GetCategory | server.js:165-174 | The answer is 200 exactly when some record has the id. It then holds the first stored record with that id, the one at the index `findCategoryIndex` gives. Otherwise it is 404 "Category not found", and a `NaN` id always gets 404. |
| Handlers.CreateCategory | server.js:200-217 | If `name` or `parentId` is falsy, the answer is 400 and the store is unchanged. Otherwise one record is appended and the existing records are untouched. The new record has the sent name and parent, and its id is `NextId`: the largest existing id plus one, so larger than every existing id, and the answer is 201 with that record. Unique ids are preserved. |
| Handlers.UpdateCategory | server.js:251-265 | If no record has the id, which includes a `NaN` id, the answer is 404 and the store is unchanged. Otherwise the first such record takes each sent field only when it is truthy, and keeps its id and position. Every other record is unchanged, and the answer is 200 with the updated record. No id changes, so unique ids are preserved. |
| Handlers.DeleteCategory | server.js:284-295 | If no record has the id, which includes a `NaN` id, the answer is 404 and the store is unchanged. Otherwise exactly the first such record is removed and the others keep their order. The answer is 200 with the removed record. With unique ids, no record with that id remains and no other record is lost or changed. |
| Handlers.RemoveKeepsUnique | server.js:293 | Splicing one record out adds nothing to the store, and keeps ids unique. |
| Handlers.CreateThenGet | server.js:165-217 | After a successful `POST`, a `GET` of the new id returns the created record. |
| Handlers.CreateNeverMakesRoot | server.js:203-213 | `POST` never adds a root: every root after it was already stored. |
| Handlers.FalsyUpdateChangesNothing | server.js:261-262 | A `PUT` whose `name` is empty or missing and whose `parentId` is 0, `null` or missing leaves the store as it was. |
| Handlers.DeleteOrphansChildren | server.js:293 | `DELETE` does not cascade. The removed record's other children stay in the store, and the model's tree view then leaves them out. The source's tree can still show them through a stale `children` array (see Left out). |
| Handlers.Handle | server.js:143-295 | A request fails to answer only when it is `GET /categories` on a store with an over-long chain. Reads leave the store unchanged, and every request keeps unique ids unique. |
| Handlers.Run | server.js:143-295 | A session that answers gives one response per request. |
| Handlers.RunKeepsUniqueIds | server.js:143-295 | From a store with unique ids, every sequence of requests is answered in full, and the store keeps unique ids. |
| Handlers.SeedSessionsSucceed | server.js:10-295 | From the seed data, every sequence of requests is answered in full and leaves unique ids. This is with the corrected id generator `Store.NextId` and with no `children` arrays kept between requests. The source breaks it in two ways: its generator repeats `-Infinity` (see Findings), and its stale `children` arrays can make a response circular, which it answers with 500 (see Left out). |

## Left out

- Express routing, JSON body parsing, the Swagger set-up and `app.listen` (server.js:1-8, 118-131, 330 on) are not modelled. Each handler takes its parsed inputs as parameters.
- `parseInt` of the path segment is not modelled. The path id arrives as an `Option<int>`, with `None` for `NaN`. A prefix such as `"3abc"` parsing as 3 is the caller's concern.
- JSON values of other types are not modelled. A string, boolean, object or fractional `parentId` and a non-string `name` are left out: the model takes `name` as an optional string and `parentId` as missing, `null` or an integer.
- Handlers.ListCategories: the model answers every request from flat records and computes the tree afresh. The source writes `children` onto the stored objects themselves (server.js:305) and never deletes it. A tree request replaces the attribute only on records it reaches from a root (server.js:301-303) and that have children at that moment. So from the first `GET /categories` on, a record carries the array from the last tree request that reached it from a root while it had children. A record cut off from the roots keeps its old array even when it has children: after `GET /categories`, `PUT /categories/3 {parentId: 999}`, `POST /categories {name: "Maxi", parentId: 3}` and `GET /categories`, the source's `GET /categories/3` still shows `children` ["Dress"], without "Maxi". The attribute shows in every later response that includes the record: `GET /categories/:id` (server.js:170), `PUT` (server.js:264), `DELETE` (server.js:294) and the tree. The array holds the child objects themselves, so it shows their later edits. It does not follow later changes to which records are children, unless a later tree request reaches the parent while it has children. A child created since is missing from it. A child moved away or deleted since stays in it. For example, after `GET /categories`, `DELETE /categories/5` and `GET /categories`, the source's tree still shows "Dress", with "Casual Dresses" and "Party Dresses", under "Clothing". The model's tree leaves them out (`Handlers.DeleteOrphansChildren`). Stale arrays can also make the objects circular, and then the source answers 500 where the model answers 200 (see `Handlers.Handle` below).
- Store.NextId: on an empty store the source produces `-Infinity`, which JSON serialises as `null`. The model starts again at 1 instead. The as-written behaviour is kept in `Store.GenerateIdAsWritten` and reported under Findings.
- Hierarchy.Build: the function has no contract of its own. Its properties are stated in `Hierarchy.BuildSound`, `Chains.RootBuildReturnsIff` and the related lemmas, which keep the solver's work small. The real stack depth of the JavaScript engine is replaced by the bound `|store| + 1`. The bound is exact: a build that returns at any depth returns within this bound, with the same result.
- Handlers.Handle: the source answers 500 in two cases the model does not treat as failures. Express catches each error, answers 500 and keeps serving.
  - When the recursion of `buildHierarchy` exhausts the stack, the source throws a `RangeError`. The model answers `None` there instead of a 500, and `Handlers.Run` stops the session at that request, so later requests of the same session are not modelled. Sibling subtrees finished before the overflow have already written `children` onto the stored records.
  - When stale `children` arrays make the objects circular, `res.json` throws a `TypeError` ("Converting circular structure to JSON"). This needs neither duplicate ids nor a parent cycle. From the seed data, the sequence is `GET /categories` (which gives "Clothing" the array ["Dress"]), then `PUT /categories/5 {parentId: 1}`, then `PUT /categories/3 {parentId: 5}`, then `GET /categories`. That tree request gives "Dress" the array ["Clothing", "Casual Dresses", "Party Dresses"], while "Clothing" has no children now and keeps ["Dress"]. From then on, until a later request changes those records, `GET /categories` answers 500, and so do `GET`, `PUT` and `DELETE` on every record whose `children` lead to "Dress", such as ids 1, 3 and 5; the store change of such a `PUT` or `DELETE` has already been made. For example, `DELETE /categories/1` answers 500 after removing "Women", and the next `GET /categories` answers 200 again, because "Dress" is no longer reached from a root. The model answers 200 to all of these.
- Store.Category: ids and parent ids are JavaScript numbers (IEEE doubles); the model uses unbounded integers. The two agree only below 2^53. Beyond it `Math.max(...ids) + 1` can return the maximum itself, so a new id would repeat an old one; the model does not treat that range.
- Concurrent requests are not modelled, because Node.js runs each handler to completion. Sessions apply requests one at a time.

## Findings

| source | as written | input that shows it | evidently intended | confidence | as-written member | corrected member |
|---|---|---|---|---|---|---|
| server.js:325-327 | `Math.max(...categories.map(c => c.id)) + 1` is `-Infinity` when the store is empty, and stays `-Infinity` afterwards | delete all 21 seed records, then `POST` two categories: both get id `-Infinity` (JSON `null`), so ids are no longer unique | a fresh, finite id even on an empty store (here 1) | medium, not executed | Store.EmptyStoreIdsCollide | Store.NextId |
