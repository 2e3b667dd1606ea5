/** The recipe viewset's extra actions: marking a recipe as a favourite or
    putting it in the shopping cart (and undoing either), and downloading
    the shopping list. */
module RecipeViews {
  import opened Common
  import opened RecipeModels
  import opened UserModels
  import opened Database
  import opened ShoppingList
  import Serializers

  /** What `favorite` and `shopping_cart` do to their table of (user,
      recipe) pairs, and the status they answer with. `IsAuthenticated`
      refuses the anonymous user, `get_object_or_404` an unknown recipe;
      POST inserts the pair (a second insert breaks the unique constraint),
      DELETE removes it (404 when absent), and any other method gets a 400. */
  function PairAction(pairs: set<UserRecipe>, recipes: map<RecipeId, Recipe>, viewer: Viewer, verb: HttpMethod,
                      recipe: RecipeId): (r: (Status, set<UserRecipe>))
    ensures viewer.Anonymous? ==> r == (NotAuthenticated401, pairs)
    ensures viewer.Authenticated? && recipe !in recipes ==> r == (NotFound404, pairs)
    ensures (r.0 == Created201 || r.0 == NoContent204) <==> r.1 != pairs
    ensures viewer.Authenticated? ==> forall q :: q != UserRecipe(viewer.id, recipe) ==> (q in r.1 <==> q in pairs)
    ensures r.0 == Created201 ==> verb == Post && UserRecipe(viewer.id, recipe) !in pairs && UserRecipe(viewer.id, recipe) in r.1
    ensures r.0 == NoContent204 ==> verb == Delete && UserRecipe(viewer.id, recipe) in pairs && UserRecipe(viewer.id, recipe) !in r.1
    ensures viewer.Authenticated? && recipe in recipes && verb == Post && UserRecipe(viewer.id, recipe) !in pairs
      ==> r == (Created201, pairs + {UserRecipe(viewer.id, recipe)})
    ensures viewer.Authenticated? && recipe in recipes && verb == Delete && UserRecipe(viewer.id, recipe) in pairs
      ==> r == (NoContent204, pairs - {UserRecipe(viewer.id, recipe)})
    ensures viewer.Authenticated? && recipe in recipes && verb == Post && UserRecipe(viewer.id, recipe) in pairs
      ==> r == (IntegrityError, pairs)
    ensures viewer.Authenticated? && recipe in recipes && verb == Delete && UserRecipe(viewer.id, recipe) !in pairs
      ==> r == (NotFound404, pairs)
    ensures viewer.Authenticated? && recipe in recipes && verb != Post && verb != Delete ==> r == (BadRequest400, pairs)
  {
    match viewer
    case Anonymous => (NotAuthenticated401, pairs)
    case Authenticated(user, _) =>
      var p := UserRecipe(user, recipe);
      if recipe !in recipes then (NotFound404, pairs)
      else if verb == Post then
        if p in pairs then (IntegrityError, pairs) else (Created201, pairs + {p})
      else if verb == Delete then
        if p in pairs then (NoContent204, pairs - {p}) else (NotFound404, pairs)
      else (BadRequest400, pairs)
  }

  /** For a signed-in user and an existing recipe, POST succeeds exactly
      when the recipe was not yet marked and DELETE exactly when it was;
      afterwards the serializer's flag reads as the action left it. */
  lemma PairActionSetsFlag(pairs: set<UserRecipe>, recipes: map<RecipeId, Recipe>, viewer: Viewer, verb: HttpMethod,
                           recipe: RecipeId)
    requires viewer.Authenticated? && recipe in recipes
    ensures verb == Post ==>
      && (PairAction(pairs, recipes, viewer, verb, recipe).0 == Created201 <==> !Serializers.IsFavorited(pairs, viewer, recipe))
      && Serializers.IsFavorited(PairAction(pairs, recipes, viewer, verb, recipe).1, viewer, recipe)
    ensures verb == Delete ==>
      && (PairAction(pairs, recipes, viewer, verb, recipe).0 == NoContent204 <==> Serializers.IsFavorited(pairs, viewer, recipe))
      && !Serializers.IsFavorited(PairAction(pairs, recipes, viewer, verb, recipe).1, viewer, recipe)
  {
  }

  /** Repeating an action fails without further change: a second POST hits
      the unique constraint, a second DELETE finds nothing. */
  lemma PairActionRepeated(pairs: set<UserRecipe>, recipes: map<RecipeId, Recipe>, viewer: Viewer, verb: HttpMethod,
                           recipe: RecipeId)
    requires viewer.Authenticated? && recipe in recipes && (verb == Post || verb == Delete)
    ensures var once := PairAction(pairs, recipes, viewer, verb, recipe).1;
      var twice := PairAction(once, recipes, viewer, verb, recipe);
      twice.1 == once && twice.0 == (if verb == Post then IntegrityError else NotFound404)
  {
  }

  /** A successful POST is undone by a DELETE. */
  lemma PairActionUndo(pairs: set<UserRecipe>, recipes: map<RecipeId, Recipe>, viewer: Viewer, recipe: RecipeId)
    requires PairAction(pairs, recipes, viewer, Post, recipe).0 == Created201
    ensures PairAction(PairAction(pairs, recipes, viewer, Post, recipe).1, recipes, viewer, Delete, recipe) == (NoContent204, pairs)
  {
  }

  /** The `favorite` action. */
  method Favorite(store: Store, viewer: Viewer, verb: HttpMethod, recipe: RecipeId) returns (s: Status)
    requires store.Valid() && (viewer.Authenticated? ==> viewer.id in store.tables.users)
    modifies store`tables
    ensures store.Valid()
    ensures (s, store.tables.favorites) == PairAction(old(store.tables.favorites), old(store.tables.recipes), viewer, verb, recipe)
    ensures store.tables == old(store.tables).(favorites := store.tables.favorites)
  {
    if viewer.Anonymous? {
      return NotAuthenticated401;
    }
    if recipe !in store.tables.recipes {
      return NotFound404;
    }
    var p := UserRecipe(viewer.id, recipe);
    if verb == Post {
      if p in store.tables.favorites {
        return IntegrityError;
      }
      store.tables := store.tables.(favorites := store.tables.favorites + {p});
      return Created201;
    }
    if verb == Delete {
      if p !in store.tables.favorites {
        return NotFound404;
      }
      store.tables := store.tables.(favorites := store.tables.favorites - {p});
      return NoContent204;
    }
    return BadRequest400;
  }

  /** The `shopping_cart` action: the same steps on the ShoppingCart table. */
  method ShoppingCartAction(store: Store, viewer: Viewer, verb: HttpMethod, recipe: RecipeId) returns (s: Status)
    requires store.Valid() && (viewer.Authenticated? ==> viewer.id in store.tables.users)
    modifies store`tables
    ensures store.Valid()
    ensures (s, store.tables.shoppingCart) == PairAction(old(store.tables.shoppingCart), old(store.tables.recipes), viewer, verb, recipe)
    ensures store.tables == old(store.tables).(shoppingCart := store.tables.shoppingCart)
  {
    if viewer.Anonymous? {
      return NotAuthenticated401;
    }
    if recipe !in store.tables.recipes {
      return NotFound404;
    }
    var p := UserRecipe(viewer.id, recipe);
    if verb == Post {
      if p in store.tables.shoppingCart {
        return IntegrityError;
      }
      store.tables := store.tables.(shoppingCart := store.tables.shoppingCart + {p});
      return Created201;
    }
    if verb == Delete {
      if p !in store.tables.shoppingCart {
        return NotFound404;
      }
      store.tables := store.tables.(shoppingCart := store.tables.shoppingCart - {p});
      return NoContent204;
    }
    return BadRequest400;
  }

  // The shopping list download.

  /** `download_shopping_cart` as written: `user.shoppingcart` is not an
      attribute of the user (the reverse accessor of `ShoppingCart.user`,
      which has no related name, is `shoppingcart_set`), so every signed-in
      request fails before the query runs. */
  function DownloadShoppingCartAsWritten(t: Tables, viewer: Viewer): (r: Result<string, Status>)
    ensures viewer.Anonymous? ==> r == Err(NotAuthenticated401)
    ensures viewer.Authenticated? ==> r == Err(AttributeError)
  {
    if viewer.Anonymous? then Err(NotAuthenticated401) else Err(AttributeError)
  }

  /** `download_shopping_cart` with the emptiness test reading the user's
      cart rows: 400 for an empty cart, otherwise the rendered list of
      the cart recipes' ingredient rows, grouped by name and unit. */
  function DownloadShoppingCart(t: Tables, viewer: Viewer): (r: Result<string, Status>)
    ensures viewer.Anonymous? ==> r == Err(NotAuthenticated401)
    ensures viewer.Authenticated? ==> (r.Err? <==> CartRecipes(t.shoppingCart, viewer.id) == {})
    ensures viewer.Authenticated? && r.Err? ==> r.error == BadRequest400
    ensures r.Ok? ==> |r.value| >= |Header| && r.value[..|Header|] == Header
  {
    match viewer
    case Anonymous => Err(NotAuthenticated401)
    case Authenticated(user, _) =>
      var basket := CartRecipes(t.shoppingCart, user);
      if basket == {} then Err(BadRequest400)
      else Ok(Render(Groups(t.ingredientRecipes, t.ingredients, basket)))
  }

  /** The two differ on every user with something in the cart. */
  lemma DownloadAsWrittenFails(t: Tables, viewer: Viewer, recipe: RecipeId)
    requires viewer.Authenticated? && UserRecipe(viewer.id, recipe) in t.shoppingCart
    ensures DownloadShoppingCartAsWritten(t, viewer) == Err(AttributeError)
    ensures DownloadShoppingCart(t, viewer).Ok?
  {
    assert recipe in CartRecipes(t.shoppingCart, viewer.id);
  }

  /** The downloaded file: the header, then one line `name - total unit` per
      (name, unit) pair among the ingredients of the cart recipes, in
      (name, unit) order, each total the sum of that pair's amounts. */
  lemma DownloadedList(t: Tables, viewer: Viewer)
    requires viewer.Authenticated? && DownloadShoppingCart(t, viewer).Ok?
    requires forall i :: i in t.ingredients ==> '\n' !in t.ingredients[i].name && '\n' !in t.ingredients[i].measurementUnit
    ensures var basket := CartRecipes(t.shoppingCart, viewer.id);
      var g := Groups(t.ingredientRecipes, t.ingredients, basket);
      var text := DownloadShoppingCart(t, viewer).value;
      && (g == [] ==> text == Header)
      && (g != [] ==> SplitLines(text[|Header|..]) == FormatAll(g))
      && (forall i, j :: 0 <= i < j < |g| ==> KeyLess(KeyOf(g[i]), KeyOf(g[j])))
      && (forall k :: Listed(t.ingredientRecipes, t.ingredients, basket, k) <==> exists i :: 0 <= i < |g| && KeyOf(g[i]) == k)
      && (forall i :: 0 <= i < |g| ==> g[i].total == Total(t.ingredientRecipes, t.ingredients, basket, KeyOf(g[i])))
  {
    var basket := CartRecipes(t.shoppingCart, viewer.id);
    var g := Groups(t.ingredientRecipes, t.ingredients, basket);
    GroupsSpec(t.ingredientRecipes, t.ingredients, basket);
    if g != [] {
      forall i | 0 <= i < |g| ensures '\n' !in g[i].name && '\n' !in g[i].unit {
        GroupLineFromIngredient(t.ingredientRecipes, t.ingredients, basket, KeyOf(g[i]));
      }
      RenderLines(g);
    } else {
      assert FormatAll(g) == [];
    }
  }

  /** Every line's name and unit are those of some stored ingredient. */
  lemma GroupLineFromIngredient(rows: seq<IngredientRecipe>, ingredients: map<IngredientId, Ingredient>, basket: set<RecipeId>,
                                k: Key)
    requires Listed(rows, ingredients, basket, k)
    ensures exists i :: i in ingredients && k == (ingredients[i].name, ingredients[i].measurementUnit)
  {
    var row :| row in rows && Contributes(row, ingredients, basket) && RowKeyOf(row, ingredients) == k;
    assert row.ingredient in ingredients;
  }

  /** Two cart recipes that both use flour: the flour rows add up into one
      line, and the lines come in name order. */
  lemma DownloadExample()
    ensures Consistent(ExampleTables())
    ensures DownloadShoppingCart(ExampleTables(), Authenticated(7, false)) == Ok(Header + "Мука - 300 г\nСоль - 5 г")
  {
    ExampleConsistent();
    var t := ExampleTables();
    var basket := CartRecipes(t.shoppingCart, 7);
    assert basket == {10, 11} by {
      assert 10 in basket && 11 in basket;
    }
    ExampleGroups();
    ExampleRender();
  }

  /** One user (7) with their recipes 10 and 11 in the cart; flour appears
      in both. */
  function ExampleTables(): Tables
  {
    Empty.(
      users := map[7 := User("cook", "cook@example.com", "", "")],
      tags := map[3 := Tag("Завтрак", None, "breakfast")],
      recipes := map[10 := Recipe("Блины", 7, "", 20, {3}), 11 := Recipe("Оладьи", 7, "", 15, {3})],
      ingredients := map[1 := Ingredient("Мука", "г"), 2 := Ingredient("Соль", "г")],
      ingredientRecipes := [IngredientRecipe(1, 10, 200), IngredientRecipe(2, 10, 5), IngredientRecipe(1, 11, 100)],
      shoppingCart := {UserRecipe(7, 10), UserRecipe(7, 11)})
  }

  /** That state is one the store can hold. */
  lemma ExampleConsistent()
    ensures Consistent(ExampleTables())
  {
    var t := ExampleTables();
    var rows := t.ingredientRecipes;
    assert forall i :: 0 <= i < |rows| ==> rows[i].recipe in t.recipes && rows[i].ingredient in t.ingredients;
    assert UniqueIngredientPerRecipe(rows) by {
      assert forall i, j :: 0 <= i < j < |rows| ==> RowKey(rows[i]) != RowKey(rows[j]);
    }
  }

  /** The query result for that cart. */
  lemma ExampleGroups()
    ensures Groups(ExampleTables().ingredientRecipes, ExampleTables().ingredients, {10, 11})
         == [Line("Мука", "г", 300), Line("Соль", "г", 5)]
  {
    var t := ExampleTables();
    var basket: set<RecipeId> := {10, 11};
    var rows := t.ingredientRecipes;
    assert rows[1..][1..] == [IngredientRecipe(1, 11, 100)];
    assert Groups(rows[1..][1..], t.ingredients, basket) == [Line("Мука", "г", 100)];
    assert rows[1..] == [IngredientRecipe(2, 10, 5), IngredientRecipe(1, 11, 100)];
    assert !Text.Less("Соль", "Мука");
    assert !KeyLess(("Соль", "г"), ("Мука", "г"));
    assert Merge([Line("Мука", "г", 100)], ("Соль", "г"), 5) == [Line("Мука", "г", 100), Line("Соль", "г", 5)];
    assert Groups(rows[1..], t.ingredients, basket) == [Line("Мука", "г", 100), Line("Соль", "г", 5)];
  }

  /** The file for that result. */
  lemma ExampleRender()
    ensures Render([Line("Мука", "г", 300), Line("Соль", "г", 5)]) == Header + "Мука - 300 г\nСоль - 5 г"
  {
    ExampleFormat();
    var lines := ["Мука - 300 г", "Соль - 5 г"];
    assert lines[1..] == ["Соль - 5 г"];
    assert JoinLines(lines[1..]) == "Соль - 5 г";
    assert JoinLines(lines) == "Мука - 300 г" + "\n" + "Соль - 5 г";
  }

  /** Its two lines. */
  lemma ExampleFormat()
    ensures FormatAll([Line("Мука", "г", 300), Line("Соль", "г", 5)]) == ["Мука - 300 г", "Соль - 5 г"]
  {
    var g := [Line("Мука", "г", 300), Line("Соль", "г", 5)];
    assert Text.NatToString(300) == "300" by {
      assert Text.NatToString(3) == "3";
      assert Text.NatToString(30) == "30";
    }
    assert Text.NatToString(5) == "5";
    assert FormatLine(g[0]) == "Мука - 300 г";
    assert FormatLine(g[1]) == "Соль - 5 г";
  }
}
