/** The rows of the recipes application: ingredients, tags, recipes, the
    ingredient-in-recipe junction, and the favorite and shopping-cart pairs,
    with the constraints and orderings their declarations state. */
module RecipeModels {
  import opened Common
  import Text

  datatype Ingredient = Ingredient(name: string, measurementUnit: string)

  /** `color` is nullable; `slug` carries a unique constraint. */
  datatype Tag = Tag(name: string, color: Option<string>, slug: string)

  /** A recipe row together with its many-to-many tag set. The image is not
      modelled. */
  datatype Recipe = Recipe(name: string, author: UserId, text: string, cookingTime: nat, tags: set<TagId>)

  /** A row of the ingredient-in-recipe junction table. */
  datatype IngredientRecipe = IngredientRecipe(ingredient: IngredientId, recipe: RecipeId, amount: nat)

  /** A row of the Favorite table or of the ShoppingCart table: both are a
      (user, recipe) pair under a unique constraint, so each table is a set. */
  datatype UserRecipe = UserRecipe(user: UserId, recipe: RecipeId)

  /** The MinValueValidator bounds declared on `cooking_time` and `amount`. */
  const MinCookingTime: nat := 1
  const MinAmount: nat := 1

  /** What the validator on `amount` declares. It is a form-level validator:
      `bulk_create` does not run it, so stored rows need not satisfy it. */
  predicate AmountDeclaredValid(row: IngredientRecipe)
  {
    row.amount >= MinAmount
  }

  /** The key of the unique constraint `unique_ingredient_recipe`. */
  function RowKey(row: IngredientRecipe): (RecipeId, IngredientId)
  {
    (row.recipe, row.ingredient)
  }

  /** At most one junction row per (recipe, ingredient). */
  predicate UniqueIngredientPerRecipe(rows: seq<IngredientRecipe>)
  {
    forall i, j :: 0 <= i < j < |rows| ==> RowKey(rows[i]) != RowKey(rows[j])
  }

  /** Tag slugs are unique. */
  predicate UniqueSlugs(tags: map<TagId, Tag>)
  {
    forall a, b :: a in tags && b in tags && a != b ==> tags[a].slug != tags[b].slug
  }

  lemma {:induction false} UniqueConcat(a: seq<IngredientRecipe>, b: seq<IngredientRecipe>)
    requires UniqueIngredientPerRecipe(a) && UniqueIngredientPerRecipe(b)
    requires forall x, y :: x in a && y in b ==> RowKey(x) != RowKey(y)
    ensures UniqueIngredientPerRecipe(a + b)
  {
    var c := a + b;
    forall i, j | 0 <= i < j < |c| ensures RowKey(c[i]) != RowKey(c[j]) {
      if j < |a| {
        assert c[i] == a[i] && c[j] == a[j];
      } else if i >= |a| {
        assert c[i] == b[i - |a|] && c[j] == b[j - |a|];
      } else {
        assert c[i] == a[i] && c[j] == b[j - |a|];
        assert c[i] in a && c[j] in b;
      }
    }
  }

  /** The junction rows that survive deleting the given recipes and the given
      ingredients (the CASCADE on both foreign keys of IngredientRecipe). */
  function RowsExcept(rows: seq<IngredientRecipe>, recipes: set<RecipeId>, ingredients: set<IngredientId>): (r: seq<IngredientRecipe>)
    ensures forall x :: x in r <==> x in rows && x.recipe !in recipes && x.ingredient !in ingredients
    ensures UniqueIngredientPerRecipe(rows) ==> UniqueIngredientPerRecipe(r)
    ensures |r| <= |rows|
  {
    if rows == [] then []
    else
      var rest := RowsExcept(rows[1..], recipes, ingredients);
      if rows[0].recipe !in recipes && rows[0].ingredient !in ingredients then
        assert UniqueIngredientPerRecipe(rows) ==> UniqueIngredientPerRecipe([rows[0]] + rest) by {
          if UniqueIngredientPerRecipe(rows) {
            UniqueTail(rows);
            forall x, y | x in [rows[0]] && y in rest ensures RowKey(x) != RowKey(y) {
              var j :| 0 <= j < |rows[1..]| && rows[1..][j] == y;
              assert rows[j + 1] == y;
            }
            UniqueConcat([rows[0]], rest);
          }
        }
        [rows[0]] + rest
      else
        assert UniqueIngredientPerRecipe(rows) ==> UniqueIngredientPerRecipe(rows[1..]) by {
          if UniqueIngredientPerRecipe(rows) {
            UniqueTail(rows);
          }
        }
        rest
  }

  lemma UniqueTail(rows: seq<IngredientRecipe>)
    requires rows != [] && UniqueIngredientPerRecipe(rows)
    ensures UniqueIngredientPerRecipe(rows[1..])
  {
    var t := rows[1..];
    forall i, j | 0 <= i < j < |t| ensures RowKey(t[i]) != RowKey(t[j]) {
      assert t[i] == rows[i + 1] && t[j] == rows[j + 1];
    }
  }

  /** The recipes written by one author. */
  function RecipesBy(recipes: map<RecipeId, Recipe>, author: UserId): set<RecipeId>
  {
    set r | r in recipes && recipes[r].author == author
  }

  /** The recipes that survive deleting their author (the CASCADE on
      `Recipe.author`). */
  function RecipesNotBy(recipes: map<RecipeId, Recipe>, author: UserId): map<RecipeId, Recipe>
  {
    map r | r in recipes && recipes[r].author != author :: recipes[r]
  }

  /** The favorite or cart pairs that survive deleting the given users and
      the given recipes (the CASCADE on both foreign keys). */
  function PairsExcept(pairs: set<UserRecipe>, users: set<UserId>, recipes: set<RecipeId>): set<UserRecipe>
  {
    set p | p in pairs && p.user !in users && p.recipe !in recipes
  }

  /** The junction rows of one recipe, in table order. */
  function RowsOf(rows: seq<IngredientRecipe>, recipe: RecipeId): (r: seq<IngredientRecipe>)
    ensures forall x :: x in r <==> x in rows && x.recipe == recipe
  {
    if rows == [] then []
    else if rows[0].recipe == recipe then [rows[0]] + RowsOf(rows[1..], recipe)
    else RowsOf(rows[1..], recipe)
  }

  lemma {:induction false} RowsOfConcat(a: seq<IngredientRecipe>, b: seq<IngredientRecipe>, recipe: RecipeId)
    ensures RowsOf(a + b, recipe) == RowsOf(a, recipe) + RowsOf(b, recipe)
  {
    if a != [] {
      assert (a + b)[0] == a[0] && (a + b)[1..] == a[1..] + b;
      RowsOfConcat(a[1..], b, recipe);
      if a[0].recipe == recipe {
        assert RowsOf(a + b, recipe) == [a[0]] + (RowsOf(a[1..], recipe) + RowsOf(b, recipe));
      }
    } else {
      assert a + b == b;
    }
  }

  // Orderings declared in the models' Meta classes.

  ghost function MaxId(s: set<nat>): (m: nat)
    requires s != {}
    ensures m in s && forall x :: x in s ==> x <= m
    decreases |s|
  {
    var x :| x in s;
    if s == {x} then
      assert forall z :: z in s ==> z == x;
      x
    else
      var y := MaxId(s - {x});
      assert forall z :: z in s ==> z == x || z in s - {x};
      if x >= y then x else y
  }

  /** `ordering = ['-id']`: every recipe once, newest (largest id) first. */
  ghost function RecipeOrdering(ids: set<RecipeId>): (r: seq<RecipeId>)
    ensures forall x :: x in r <==> x in ids
    ensures forall i, j :: 0 <= i < j < |r| ==> r[i] > r[j]
    ensures |r| == |ids|
    decreases |ids|
  {
    if ids == {} then []
    else
      var m := MaxId(ids);
      var rest := RecipeOrdering(ids - {m});
      DescendingCons(ids, m, rest);
      [m] + rest
  }

  lemma DescendingCons(ids: set<nat>, m: nat, rest: seq<nat>)
    requires m in ids && forall x :: x in ids ==> x <= m
    requires forall x :: x in rest <==> x in ids - {m}
    requires forall i, j :: 0 <= i < j < |rest| ==> rest[i] > rest[j]
    requires |rest| == |ids - {m}|
    ensures forall x :: x in [m] + rest <==> x in ids
    ensures forall i, j :: 0 <= i < j < |[m] + rest| ==> ([m] + rest)[i] > ([m] + rest)[j]
    ensures |[m] + rest| == |ids|
  {
    var r := [m] + rest;
    forall i, j | 0 <= i < j < |r| ensures r[i] > r[j] {
      assert r[j] == rest[j - 1] && r[j] in rest;
      if i > 0 {
        assert r[i] == rest[i - 1];
      }
    }
    assert forall x :: x in r <==> x == m || x in rest;
  }

  /** The order `ordering = ["name"]` asks for; equal names fall back to
      the id, which the database leaves unspecified. */
  predicate IngredientBefore(ingredients: map<IngredientId, Ingredient>, a: IngredientId, b: IngredientId)
    requires a in ingredients && b in ingredients
  {
    Text.Less(ingredients[a].name, ingredients[b].name)
    || (ingredients[a].name == ingredients[b].name && a < b)
  }

  ghost function FirstIngredient(ingredients: map<IngredientId, Ingredient>, s: set<IngredientId>): (m: IngredientId)
    requires s != {} && s <= ingredients.Keys
    ensures m in s && forall x :: x in s && x != m ==> IngredientBefore(ingredients, m, x)
    decreases |s|
  {
    var x :| x in s;
    if s == {x} then x
    else
      var y := FirstIngredient(ingredients, s - {x});
      if IngredientBefore(ingredients, x, y) then
        assert forall z :: z in s && z != x ==> IngredientBefore(ingredients, x, z) by {
          forall z | z in s && z != x && z != y ensures IngredientBefore(ingredients, x, z) {
            IngredientBeforeTransitive(ingredients, x, y, z);
          }
        }
        x
      else
        assert IngredientBefore(ingredients, y, x) by {
          if ingredients[x].name != ingredients[y].name {
            Text.LessTotal(ingredients[x].name, ingredients[y].name);
          }
        }
        y
  }

  lemma IngredientBeforeTransitive(ingredients: map<IngredientId, Ingredient>, a: IngredientId, b: IngredientId, c: IngredientId)
    requires a in ingredients && b in ingredients && c in ingredients
    requires IngredientBefore(ingredients, a, b) && IngredientBefore(ingredients, b, c)
    ensures IngredientBefore(ingredients, a, c)
  {
    if ingredients[a].name != ingredients[b].name && ingredients[b].name != ingredients[c].name {
      Text.LessTransitive(ingredients[a].name, ingredients[b].name, ingredients[c].name);
    }
  }

  /** `ordering = ["name"]`: every ingredient once, names nondecreasing. */
  ghost function IngredientOrdering(ingredients: map<IngredientId, Ingredient>, s: set<IngredientId>): (r: seq<IngredientId>)
    requires s <= ingredients.Keys
    ensures forall x :: x in r <==> x in s
    ensures |r| == |s|
    ensures forall i, j :: 0 <= i < j < |r| ==> IngredientBefore(ingredients, r[i], r[j])
    decreases |s|
  {
    if s == {} then []
    else
      var m := FirstIngredient(ingredients, s);
      var rest := IngredientOrdering(ingredients, s - {m});
      IngredientOrderingCons(ingredients, s, m, rest);
      [m] + rest
  }

  lemma IngredientOrderingCons(ingredients: map<IngredientId, Ingredient>, s: set<IngredientId>, m: IngredientId, rest: seq<IngredientId>)
    requires s <= ingredients.Keys
    requires m in s && forall x :: x in s && x != m ==> IngredientBefore(ingredients, m, x)
    requires forall x :: x in rest <==> x in s - {m}
    requires forall i :: 0 <= i < |rest| ==> rest[i] in ingredients
    requires forall i, j :: 0 <= i < j < |rest| ==> IngredientBefore(ingredients, rest[i], rest[j])
    requires |rest| == |s - {m}|
    ensures forall x :: x in [m] + rest <==> x in s
    ensures forall i :: 0 <= i < |[m] + rest| ==> ([m] + rest)[i] in ingredients
    ensures forall i, j :: 0 <= i < j < |[m] + rest| ==> IngredientBefore(ingredients, ([m] + rest)[i], ([m] + rest)[j])
    ensures |[m] + rest| == |s|
  {
    var r := [m] + rest;
    forall i, j | 0 <= i < j < |r| ensures IngredientBefore(ingredients, r[i], r[j]) {
      assert r[j] == rest[j - 1] && r[j] in rest;
      if i > 0 {
        assert r[i] == rest[i - 1];
      }
    }
    assert forall x :: x in r <==> x == m || x in rest;
  }
}
