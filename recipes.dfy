/** The in-memory recipe store: the recipe and ingredient records, the pure
    sequence transformers behind each store operation, and the store object
    whose single field every mutator reassigns. */
module Recipes {

  /** The result of a lookup: `undefined` in the store's interface is None. */
  datatype Option<+T> = None | Some(value: T)

  /** The four units an ingredient quantity may be given in. */
  datatype Unit = Mg | L | Ml | Nos

  datatype Ingredient = Ingredient(name: string, unit: Unit, quantity: real)

  datatype Recipe = Recipe(
    id: string,
    title: string,
    description: string,
    ingredients: seq<Ingredient>,
    isArchived: bool)

  /** Some recipe of `rs` carries identifier `id`. */
  predicate HasId(rs: seq<Recipe>, id: string)
  {
    exists i :: 0 <= i < |rs| && rs[i].id == id
  }

  /** No two recipes of `rs` share an identifier. */
  predicate UniqueIds(rs: seq<Recipe>)
  {
    forall i, j :: 0 <= i < j < |rs| ==> rs[i].id != rs[j].id
  }

  /** The data invariant a recipe built from a valid form satisfies. */
  predicate WellFormed(r: Recipe)
  {
    && r.title != ""
    && r.description != ""
    && forall k :: 0 <= k < |r.ingredients| ==>
         r.ingredients[k].name != "" && r.ingredients[k].quantity >= 1.0
  }

  predicate AllWellFormed(rs: seq<Recipe>)
  {
    forall i :: 0 <= i < |rs| ==> WellFormed(rs[i])
  }

  // ---------------------------------------------------------------------
  // Adding: the new recipe goes after all the others

  function Appended(rs: seq<Recipe>, recipe: Recipe): (res: seq<Recipe>)
    ensures |res| == |rs| + 1
    ensures res[..|rs|] == rs && res[|rs|] == recipe
  {
    rs + [recipe]
  }

  // ---------------------------------------------------------------------
  // Finding: the first recipe carrying the id

  /** Position of the first recipe with identifier `id`, or `|rs|` if none. */
  function FindIndex(rs: seq<Recipe>, id: string): (k: nat)
    ensures k <= |rs|
    ensures forall j :: 0 <= j < k ==> rs[j].id != id
    ensures k < |rs| ==> rs[k].id == id
  {
    if rs == [] then 0
    else if rs[0].id == id then 0
    else 1 + FindIndex(rs[1..], id)
  }

  /** The first recipe whose identifier is `id`, or None when there is none. */
  function Find(rs: seq<Recipe>, id: string): (r: Option<Recipe>)
    ensures r.None? <==> !HasId(rs, id)
    ensures r.Some? ==> r.value in rs && r.value.id == id
    ensures r.Some? ==> exists k :: 0 <= k < |rs| && rs[k] == r.value && !HasId(rs[..k], id)
  {
    var k := FindIndex(rs, id);
    if k < |rs| then
      assert !HasId(rs[..k], id);
      Some(rs[k])
    else
      None
  }

  // ---------------------------------------------------------------------
  // Deleting: keep the recipes whose id differs

  function Removed(rs: seq<Recipe>, id: string): (res: seq<Recipe>)
    ensures |res| <= |rs|
    ensures forall r :: r in res <==> r in rs && r.id != id
  {
    if rs == [] then []
    else if rs[0].id != id then [rs[0]] + Removed(rs[1..], id)
    else Removed(rs[1..], id)
  }

  // ---------------------------------------------------------------------
  // Archiving and unarchiving: every recipe carrying the id gets the new flag

  /** `rs` with the archive flag of every recipe identified by `id` set to `flag`. */
  function WithArchived(rs: seq<Recipe>, id: string, flag: bool): (res: seq<Recipe>)
    ensures |res| == |rs|
    ensures forall i :: 0 <= i < |rs| ==>
              res[i] == if rs[i].id == id then rs[i].(isArchived := flag) else rs[i]
  {
    if rs == [] then []
    else [if rs[0].id == id then rs[0].(isArchived := flag) else rs[0]]
         + WithArchived(rs[1..], id, flag)
  }

  // ---------------------------------------------------------------------
  // Properties of the store operations

  lemma UniqueIdsCons(r: Recipe, rs: seq<Recipe>)
    requires !HasId(rs, r.id) && UniqueIds(rs)
    ensures UniqueIds([r] + rs)
  {
    var s := [r] + rs;
    forall i, j | 0 <= i < j < |s| ensures s[i].id != s[j].id {
      if i == 0 {
        assert s[j] == rs[j - 1];
      } else {
        assert s[i] == rs[i - 1] && s[j] == rs[j - 1];
      }
    }
  }

  /** The recipes after the first keep unique identifiers, none of them the first one's. */
  lemma UniqueIdsTail(rs: seq<Recipe>)
    requires rs != [] && UniqueIds(rs)
    ensures UniqueIds(rs[1..]) && !HasId(rs[1..], rs[0].id)
  {
    var t := rs[1..];
    forall i, j | 0 <= i < j < |t| ensures t[i].id != t[j].id {
      assert t[i] == rs[i + 1] && t[j] == rs[j + 1];
    }
    forall i | 0 <= i < |t| ensures t[i].id != rs[0].id {
      assert t[i] == rs[i + 1];
    }
  }

  /** Appending a recipe whose id is new keeps identifiers unique. */
  lemma AppendedUnique(rs: seq<Recipe>, recipe: Recipe)
    requires UniqueIds(rs) && !HasId(rs, recipe.id)
    ensures UniqueIds(Appended(rs, recipe))
  {
    var s := Appended(rs, recipe);
    forall i, j | 0 <= i < j < |s| ensures s[i].id != s[j].id {
      if j == |rs| {
        assert s[i] == rs[i];
      } else {
        assert s[i] == rs[i] && s[j] == rs[j];
      }
    }
  }

  /** The position `FindIndex` returns is the first match, or the length when there is none. */
  lemma FindIndexIs(rs: seq<Recipe>, id: string, k: nat)
    requires k <= |rs|
    requires forall j :: 0 <= j < k ==> rs[j].id != id
    requires k < |rs| ==> rs[k].id == id
    ensures FindIndex(rs, id) == k
  {
  }

  /** Lookup after an append: earlier matches win, otherwise the new recipe is found. */
  lemma FindAppended(rs: seq<Recipe>, recipe: Recipe, id: string)
    ensures Find(Appended(rs, recipe), id) ==
              if HasId(rs, id) then Find(rs, id)
              else if recipe.id == id then Some(recipe)
              else None
  {
    var s := Appended(rs, recipe);
    var k := FindIndex(rs, id);
    forall j | 0 <= j < |rs| ensures s[j] == rs[j] {
      assert s[..|rs|][j] == rs[j];
    }
    if k < |rs| {
      FindIndexIs(s, id, k);
    } else {
      FindIndexIs(s, id, if recipe.id == id then |rs| else |rs| + 1);
    }
  }

  /** After adding a recipe whose id was absent, looking that id up yields the recipe. */
  lemma FindAfterAdd(rs: seq<Recipe>, recipe: Recipe)
    requires !HasId(rs, recipe.id)
    ensures Find(Appended(rs, recipe), recipe.id) == Some(recipe)
  {
    FindAppended(rs, recipe, recipe.id);
  }

  /** With unique identifiers, the lookup returns the one recipe that carries the id. */
  lemma FindUnique(rs: seq<Recipe>, i: nat)
    requires UniqueIds(rs) && i < |rs|
    ensures Find(rs, rs[i].id) == Some(rs[i])
  {
    var k := FindIndex(rs, rs[i].id);
    assert k == i;
  }

  /** The filter distributes over concatenation: survivors keep their order. */
  lemma {:induction false} RemovedAppend(a: seq<Recipe>, b: seq<Recipe>, id: string)
    ensures Removed(a + b, id) == Removed(a, id) + Removed(b, id)
  {
    if a == [] {
      assert a + b == b;
    } else {
      assert (a + b)[1..] == a[1..] + b;
      RemovedAppend(a[1..], b, id);
    }
  }

  /** Deleting an identifier that is not present leaves the collection as it was. */
  lemma {:induction false} RemovedAbsent(rs: seq<Recipe>, id: string)
    requires !HasId(rs, id)
    ensures Removed(rs, id) == rs
  {
    if rs != [] {
      assert rs[0].id != id;
      forall i | 0 <= i < |rs[1..]| ensures rs[1..][i].id != id {
        assert rs[1..][i] == rs[i + 1];
      }
      RemovedAbsent(rs[1..], id);
    }
  }

  /** After a delete no recipe has the identifier, so deleting again changes nothing. */
  lemma RemovedIdempotent(rs: seq<Recipe>, id: string)
    ensures !HasId(Removed(rs, id), id)
    ensures Removed(Removed(rs, id), id) == Removed(rs, id)
  {
    var once := Removed(rs, id);
    forall i | 0 <= i < |once| ensures once[i].id != id {
      assert once[i] in once;
    }
    RemovedAbsent(once, id);
  }

  /** Lookup examines the first recipe, then the rest. */
  lemma FindCons(rs: seq<Recipe>, id: string)
    requires rs != []
    ensures Find(rs, id) == if rs[0].id == id then Some(rs[0]) else Find(rs[1..], id)
  {
    if rs[0].id != id {
      var k := FindIndex(rs[1..], id);
      assert FindIndex(rs, id) == k + 1;
      if k < |rs| - 1 {
        assert rs[1..][k] == rs[k + 1];
      }
    }
  }

  /** Deleting one identifier does not disturb the lookup of another. */
  lemma {:induction false} RemovedKeepsOthers(rs: seq<Recipe>, id: string, other: string)
    requires other != id
    ensures Find(Removed(rs, id), other) == Find(rs, other)
  {
    if rs != [] {
      RemovedKeepsOthers(rs[1..], id, other);
      FindCons(rs, other);
      var rest := Removed(rs[1..], id);
      if rs[0].id != id {
        var s := [rs[0]] + rest;
        assert Removed(rs, id) == s;
        assert s[0] == rs[0] && s[1..] == rest;
        FindCons(s, other);
      } else {
        assert Removed(rs, id) == rest;
      }
    }
  }

  /** Deleting keeps identifiers unique. */
  lemma {:induction false} RemovedUnique(rs: seq<Recipe>, id: string)
    requires UniqueIds(rs)
    ensures UniqueIds(Removed(rs, id))
  {
    if rs != [] {
      assert UniqueIds(rs[1..]) by {
        forall i, j | 0 <= i < j < |rs[1..]| ensures rs[1..][i].id != rs[1..][j].id {
          assert rs[1..][i] == rs[i + 1] && rs[1..][j] == rs[j + 1];
        }
      }
      RemovedUnique(rs[1..], id);
      if rs[0].id != id {
        var rest := Removed(rs[1..], id);
        forall i | 0 <= i < |rest| ensures rest[i].id != rs[0].id {
          assert rest[i] in rs[1..];
          var j :| 0 <= j < |rs[1..]| && rs[1..][j] == rest[i];
          assert rs[j + 1] == rest[i];
        }
        UniqueIdsCons(rs[0], Removed(rs[1..], id));
      }
    }
  }

  /** Deleting keeps every remaining recipe well formed. */
  lemma RemovedWellFormed(rs: seq<Recipe>, id: string)
    requires AllWellFormed(rs)
    ensures AllWellFormed(Removed(rs, id))
  {
    var s := Removed(rs, id);
    forall i | 0 <= i < |s| ensures WellFormed(s[i]) {
      assert s[i] in rs;
    }
  }

  /** Setting the flag twice is the same as setting it once. */
  lemma WithArchivedIdempotent(rs: seq<Recipe>, id: string, flag: bool)
    ensures WithArchived(WithArchived(rs, id, flag), id, flag) == WithArchived(rs, id, flag)
  {
  }

  /** Archiving or unarchiving an identifier that is not present changes nothing. */
  lemma WithArchivedAbsent(rs: seq<Recipe>, id: string, flag: bool)
    requires !HasId(rs, id)
    ensures WithArchived(rs, id, flag) == rs
  {
    var s := WithArchived(rs, id, flag);
    forall i | 0 <= i < |rs| ensures s[i] == rs[i] {
      assert rs[i].id != id;
    }
  }

  /** Archive then unarchive gives back a collection whose matching recipes were all active. */
  lemma ArchiveThenUnarchive(rs: seq<Recipe>, id: string)
    requires forall i :: 0 <= i < |rs| && rs[i].id == id ==> !rs[i].isArchived
    ensures WithArchived(WithArchived(rs, id, true), id, false) == rs
  {
    var s := WithArchived(WithArchived(rs, id, true), id, false);
    forall i | 0 <= i < |rs| ensures s[i] == rs[i] {
    }
  }

  /** The toggles keep every identifier in place, so they keep identifiers unique. */
  lemma WithArchivedUnique(rs: seq<Recipe>, id: string, flag: bool)
    requires UniqueIds(rs)
    ensures UniqueIds(WithArchived(rs, id, flag))
  {
    var s := WithArchived(rs, id, flag);
    assert forall i :: 0 <= i < |rs| ==> s[i].id == rs[i].id;
  }

  /** The toggles keep every recipe well formed. */
  lemma WithArchivedWellFormed(rs: seq<Recipe>, id: string, flag: bool)
    requires AllWellFormed(rs)
    ensures AllWellFormed(WithArchived(rs, id, flag))
  {
    var s := WithArchived(rs, id, flag);
    forall i | 0 <= i < |rs| ensures WellFormed(s[i]) {
      assert WellFormed(rs[i]);
    }
  }

  // ---------------------------------------------------------------------
  // The store object

  /** The store: one collection that every mutator replaces by a new value. */
  class RecipeStore {
    var recipes: seq<Recipe>

    /** The store starts from a seed collection. */
    constructor (seed: seq<Recipe>)
      ensures recipes == seed
    {
      recipes := seed;
    }

    method AddRecipe(recipe: Recipe)
      modifies this
      ensures recipes == Appended(old(recipes), recipe)
      ensures !HasId(old(recipes), recipe.id) ==> Find(recipes, recipe.id) == Some(recipe)
      ensures UniqueIds(old(recipes)) && !HasId(old(recipes), recipe.id) ==> UniqueIds(recipes)
    {
      var current := recipes;
      recipes := current + [recipe];
      if !HasId(current, recipe.id) {
        FindAfterAdd(current, recipe);
        if UniqueIds(current) {
          AppendedUnique(current, recipe);
        }
      }
    }

    method FindRecipe(id: string) returns (recipe: Option<Recipe>)
      ensures recipe == Find(recipes, id)
      ensures recipe.None? <==> !HasId(recipes, id)
    {
      recipe := Find(recipes, id);
    }

    method DeleteRecipe(id: string)
      modifies this
      ensures recipes == Removed(old(recipes), id)
      ensures UniqueIds(old(recipes)) ==> UniqueIds(recipes)
    {
      if UniqueIds(recipes) {
        RemovedUnique(recipes, id);
      }
      recipes := Removed(recipes, id);
    }

    method ArchiveRecipe(id: string)
      modifies this
      ensures recipes == WithArchived(old(recipes), id, true)
      ensures UniqueIds(old(recipes)) ==> UniqueIds(recipes)
    {
      if UniqueIds(recipes) {
        WithArchivedUnique(recipes, id, true);
      }
      recipes := WithArchived(recipes, id, true);
    }

    method UnarchiveRecipe(id: string)
      modifies this
      ensures recipes == WithArchived(old(recipes), id, false)
      ensures UniqueIds(old(recipes)) ==> UniqueIds(recipes)
    {
      if UniqueIds(recipes) {
        WithArchivedUnique(recipes, id, false);
      }
      recipes := WithArchived(recipes, id, false);
    }
  }
}
