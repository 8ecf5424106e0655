/** The in-memory category store: a flat, insertion-ordered list of records,
    the lookups the request handlers use on it, and the id generator. */
module Store {
  import opened Optional

  /** A stored record. `parentId == None` is the `null` parent of a root. */
  datatype Category = Category(id: int, name: string, parentId: Option<int>)

  /** The invariant the service relies on: no two records share an id. */
  predicate UniqueIds(cats: seq<Category>)
  {
    forall i, j :: 0 <= i < j < |cats| ==> cats[i].id != cats[j].id
  }

  /** Under unique ids a record is determined by its id. */
  lemma {:induction false} SameIdSameRecord(cats: seq<Category>, a: Category, b: Category)
    requires UniqueIds(cats)
    requires a in cats && b in cats && a.id == b.id
    ensures a == b
  {
    var i :| 0 <= i < |cats| && cats[i] == a;
    var j :| 0 <= j < |cats| && cats[j] == b;
    assert !(i < j) && !(j < i);
  }

  /** Whether some record of `cats` has the (possibly not-a-number) path id. */
  predicate HasId(cats: seq<Category>, id: Option<int>)
  {
    exists c :: c in cats && Some(c.id) == id
  }

  // ---------------------------------------------------------------------
  // Lookups. A path id that does not parse is `None` (not-a-number): it is
  // strictly unequal to every stored id, so it matches nothing.
  // ---------------------------------------------------------------------

  /** The first index at or after `from` whose record has the id, or -1. */
  function FindIndexFrom(cats: seq<Category>, id: Option<int>, from: nat): (r: int)
    requires from <= |cats|
    ensures r == -1 || from <= r < |cats|
    ensures r == -1 <==> forall k :: from <= k < |cats| ==> Some(cats[k].id) != id
    ensures r != -1 ==> Some(cats[r].id) == id
    ensures r != -1 ==> forall k :: from <= k < r ==> Some(cats[k].id) != id
    decreases |cats| - from
  {
    if from == |cats| then -1
    else if Some(cats[from].id) == id then from
    else FindIndexFrom(cats, id, from + 1)
  }

  /** `findCategoryIndex`: the position of the first record with the id, or -1. */
  function FindCategoryIndex(cats: seq<Category>, id: Option<int>): (r: int)
    ensures -1 <= r < |cats|
    ensures r == -1 <==> !HasId(cats, id)
    ensures r != -1 ==> Some(cats[r].id) == id
    ensures r != -1 ==> forall k :: 0 <= k < r ==> Some(cats[k].id) != id
  {
    FindIndexFrom(cats, id, 0)
  }

  /** `findCategory`: the first record with the id, scanning front to back. */
  function FindCategory(cats: seq<Category>, id: Option<int>): (r: Option<Category>)
    ensures r.None? <==> !HasId(cats, id)
    ensures r.Some? ==> r.value in cats && Some(r.value.id) == id
    ensures id.None? ==> r.None?
  {
    if cats == [] then None
    else if Some(cats[0].id) == id then Some(cats[0])
    else FindCategory(cats[1..], id)
  }

  /** The record `findCategory` returns is the one at the index
      `findCategoryIndex` returns, and each reports "not found" exactly
      when the other does. */
  lemma {:induction false} FindAgreesWithIndex(cats: seq<Category>, id: Option<int>)
    ensures FindCategoryIndex(cats, id) == -1 <==> FindCategory(cats, id).None?
    ensures FindCategoryIndex(cats, id) != -1 ==>
              FindCategory(cats, id) == Some(cats[FindCategoryIndex(cats, id)])
  {
    FindFromAgrees(cats, id, 0);
    assert cats[0..] == cats;
  }

  lemma {:induction false} FindFromAgrees(cats: seq<Category>, id: Option<int>, from: nat)
    requires from <= |cats|
    ensures FindIndexFrom(cats, id, from) == -1 ==> FindCategory(cats[from..], id).None?
    ensures FindIndexFrom(cats, id, from) != -1 ==>
              FindCategory(cats[from..], id) == Some(cats[FindIndexFrom(cats, id, from)])
    decreases |cats| - from
  {
    if from < |cats| && Some(cats[from].id) != id {
      FindFromAgrees(cats, id, from + 1);
      assert cats[from..][1..] == cats[from + 1..];
    }
  }

  /** Under unique ids, the first record with an id is the only one. */
  lemma {:induction false} FindUnique(cats: seq<Category>, c: Category)
    requires UniqueIds(cats)
    requires c in cats
    ensures FindCategory(cats, Some(c.id)) == Some(c)
  {
    var r := FindCategory(cats, Some(c.id));
    SameIdSameRecord(cats, r.value, c);
  }

  // ---------------------------------------------------------------------
  // Id generation.
  // ---------------------------------------------------------------------

  /** `Math.max` over the ids of a non-empty store. */
  function MaxId(cats: seq<Category>): (m: int)
    requires |cats| > 0
    ensures forall c :: c in cats ==> c.id <= m
    ensures exists c :: c in cats && c.id == m
  {
    if |cats| == 1 then cats[0].id
    else
      var rest := MaxId(cats[1..]);
      assert forall c :: c in cats ==> c == cats[0] || c in cats[1..];
      if cats[0].id >= rest then cats[0].id else rest
  }

  /** `generateCategoryId`: one more than the largest id. On an empty store
      the source computes `-Infinity`; the model starts again at 1. */
  function NextId(cats: seq<Category>): (r: int)
    ensures forall c :: c in cats ==> c.id < r
    ensures |cats| > 0 ==> exists c :: c in cats && r == c.id + 1
    ensures |cats| == 0 ==> r == 1
  {
    if |cats| == 0 then 1 else MaxId(cats) + 1
  }

  /** A JavaScript number as `Math.max` sees the ids: `-Infinity` or an
      integer. */
  datatype ExtInt = NegInfinity | Finite(v: int)

  /** `Math.max` of two values, `-Infinity` being the least. */
  function MaxExt(a: ExtInt, b: ExtInt): (r: ExtInt)
    ensures r == a || r == b
    ensures a.Finite? ==> r.Finite? && a.v <= r.v
    ensures b.Finite? ==> r.Finite? && b.v <= r.v
  {
    if a.NegInfinity? then b
    else if b.NegInfinity? then a
    else Finite(if a.v >= b.v then a.v else b.v)
  }

  /** `Math.max(...ids)`: `-Infinity` for no arguments. */
  function MaxAsWritten(ids: seq<ExtInt>): (r: ExtInt)
    ensures forall k :: 0 <= k < |ids| && ids[k].Finite? ==> r.Finite? && ids[k].v <= r.v
    ensures r.Finite? ==> r in ids
  {
    if ids == [] then NegInfinity
    else
      var rest := MaxAsWritten(ids[1..]);
      assert forall k :: 1 <= k < |ids| ==> ids[k] == ids[1..][k - 1];
      MaxExt(ids[0], rest)
  }

  /** `generateCategoryId` as written: `Math.max(...ids) + 1`, where
      `-Infinity + 1` is `-Infinity`. */
  function GenerateIdAsWritten(ids: seq<ExtInt>): (r: ExtInt)
    ensures r.NegInfinity? <==> forall k :: 0 <= k < |ids| ==> ids[k].NegInfinity?
    ensures forall k :: 0 <= k < |ids| && ids[k].Finite? ==> r.Finite? && ids[k].v < r.v
    ensures r.Finite? ==> Finite(r.v - 1) in ids
  {
    MaxAsWrittenBottom(ids);
    match MaxAsWritten(ids)
    case NegInfinity => NegInfinity
    case Finite(m) => Finite(m + 1)
  }

  /** The stored ids as `Math.max` receives them. */
  function IdsOf(cats: seq<Category>): (r: seq<ExtInt>)
    ensures |r| == |cats| && forall k :: 0 <= k < |cats| ==> r[k] == Finite(cats[k].id)
  {
    seq(|cats|, k requires 0 <= k < |cats| => Finite(cats[k].id))
  }

  /** The maximum is `-Infinity` exactly when every argument is. */
  lemma {:induction false} MaxAsWrittenBottom(ids: seq<ExtInt>)
    ensures MaxAsWritten(ids).NegInfinity? <==> forall k :: 0 <= k < |ids| ==> ids[k].NegInfinity?
  {
    if ids != [] {
      MaxAsWrittenBottom(ids[1..]);
      assert forall k :: 1 <= k < |ids| ==> ids[k] == ids[1..][k - 1];
    }
  }

  /** On a non-empty store the source's generator and `NextId` agree. */
  lemma {:induction false} AsWrittenMatchesNextId(cats: seq<Category>)
    requires |cats| > 0
    ensures GenerateIdAsWritten(IdsOf(cats)) == Finite(NextId(cats))
  {
    MaxMatches(cats);
  }

  lemma {:induction false} MaxMatches(cats: seq<Category>)
    requires |cats| > 0
    ensures MaxAsWritten(IdsOf(cats)) == Finite(MaxId(cats))
  {
    assert IdsOf(cats)[1..] == IdsOf(cats[1..]);
    if |cats| == 1 {
      assert IdsOf(cats)[1..] == [];
    } else {
      MaxMatches(cats[1..]);
    }
  }

  /** Once the store is empty, the source's generator answers `-Infinity`
      and keeps answering it: two records created one after the other on
      an emptied store get the same id. */
  lemma {:induction false} EmptyStoreIdsCollide()
    ensures GenerateIdAsWritten([]) == NegInfinity
    ensures GenerateIdAsWritten([GenerateIdAsWritten([])]) == NegInfinity
    ensures forall ids: seq<ExtInt> :: (forall k :: 0 <= k < |ids| ==> ids[k].NegInfinity?) ==>
              GenerateIdAsWritten(ids) == NegInfinity
  {
    forall ids: seq<ExtInt> | forall k :: 0 <= k < |ids| ==> ids[k].NegInfinity?
      ensures GenerateIdAsWritten(ids) == NegInfinity
    {
      MaxAsWrittenBottom(ids);
    }
  }

  /** Appending a record whose id exceeds every stored id keeps ids unique. */
  lemma {:induction false} AppendFreshKeepsUnique(cats: seq<Category>, c: Category)
    requires forall d :: d in cats ==> d.id < c.id
    ensures UniqueIds(cats) ==> UniqueIds(cats + [c])
  {
    var s := cats + [c];
    if UniqueIds(cats) {
      forall i, j | 0 <= i < j < |s| ensures s[i].id != s[j].id {
        if j == |cats| {
          assert s[i] in cats;
        }
      }
    }
  }

  // ---------------------------------------------------------------------
  // The seed list the store starts with.
  // ---------------------------------------------------------------------

  const Seed: seq<Category> := [
    Category(1, "Women", None),
    Category(2, "Men", None),
    Category(3, "Clothing", Some(1)),
    Category(4, "T-shirts", Some(1)),
    Category(5, "Dress", Some(3)),
    Category(6, "Casual Dresses", Some(5)),
    Category(7, "Party Dresses", Some(5)),
    Category(8, "Printed T-shirts", Some(4)),
    Category(9, "Causal T-Shirts", Some(4)),
    Category(10, "Plain T-Shirts", Some(4)),
    Category(11, "Footwear", Some(2)),
    Category(12, "T-Shirts", Some(2)),
    Category(13, "Shirts", Some(2)),
    Category(14, "Branded", Some(11)),
    Category(15, "Non-Branded", Some(11)),
    Category(16, "Printed T-Shirts", Some(12)),
    Category(17, "Causual T-Shirts", Some(12)),
    Category(18, "Plain T-Shirts", Some(12)),
    Category(19, "Party Shirts", Some(13)),
    Category(20, "Casual Shirts", Some(13)),
    Category(21, "Plain Shirts", Some(13))
  ]

  /** Ids that strictly increase along the list from position `k` on,
      checked neighbour by neighbour. */
  predicate IncreasingFrom(cats: seq<Category>, k: nat)
    decreases |cats| - k
  {
    k + 1 >= |cats| || (cats[k].id < cats[k + 1].id && IncreasingFrom(cats, k + 1))
  }

  lemma {:induction false} IncreasingIdsAreUnique(cats: seq<Category>, k: nat)
    requires IncreasingFrom(cats, k)
    ensures forall i, j :: k <= i < j < |cats| ==> cats[i].id < cats[j].id
    decreases |cats| - k
  {
    if k + 1 < |cats| {
      IncreasingIdsAreUnique(cats, k + 1);
    }
  }

  lemma {:induction false} SeedIncreasing()
    ensures IncreasingFrom(Seed, 0)
  {
    // Walked backwards from the end so that each step unfolds the predicate once.
    assert IncreasingFrom(Seed, 20);
    assert IncreasingFrom(Seed, 19);
    assert IncreasingFrom(Seed, 18);
    assert IncreasingFrom(Seed, 17);
    assert IncreasingFrom(Seed, 16);
    assert IncreasingFrom(Seed, 15);
    assert IncreasingFrom(Seed, 14);
    assert IncreasingFrom(Seed, 13);
    assert IncreasingFrom(Seed, 12);
    assert IncreasingFrom(Seed, 11);
    assert IncreasingFrom(Seed, 10);
    assert IncreasingFrom(Seed, 9);
    assert IncreasingFrom(Seed, 8);
    assert IncreasingFrom(Seed, 7);
    assert IncreasingFrom(Seed, 6);
    assert IncreasingFrom(Seed, 5);
    assert IncreasingFrom(Seed, 4);
    assert IncreasingFrom(Seed, 3);
    assert IncreasingFrom(Seed, 2);
    assert IncreasingFrom(Seed, 1);
    assert IncreasingFrom(Seed, 0);
  }

  /** The seed ids 1..21 are unique. */
  lemma {:induction false} SeedUniqueIds()
    ensures UniqueIds(Seed)
    ensures forall i, j :: 0 <= i < j < |Seed| ==> Seed[i].id < Seed[j].id
  {
    SeedIncreasing();
    IncreasingIdsAreUnique(Seed, 0);
  }

  /** The first id handed out on the seed store is 22. */
  lemma {:induction false} SeedNextId()
    ensures NextId(Seed) == 22
  {
    SeedUniqueIds();
    var c :| c in Seed && NextId(Seed) == c.id + 1;
    var i :| 0 <= i < |Seed| && Seed[i] == c;
    assert Seed[20].id == 21;
    assert i < 20 ==> Seed[i].id < Seed[20].id;
  }
}
