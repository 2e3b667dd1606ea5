/** The recipe serializer (validation, and the writes behind create and
    update), the viewer-relative flags, and the subscription serializer's
    computed fields. */
module Serializers {
  import opened Common
  import opened RecipeModels
  import opened UserModels
  import opened Database

  /** One element of the submitted `ingredients` list. */
  datatype IngredientEntry = IngredientEntry(id: IngredientId, amount: nat)

  /** A recipe payload once the fields themselves have been parsed. The
      `ingredients` and `tags` lists are the raw request data. */
  datatype RecipeData = RecipeData(name: string, text: string, cookingTime: nat, ingredients: seq<IngredientEntry>, tags: seq<TagId>)

  datatype ValidationError =
    | EmptyName
    | DuplicateName
    | NoIngredients
    | IngredientNotFound
    | DuplicateIngredient
    | NoTags

  /** The response a failed validation produces: `get_object_or_404` raises
      a 404, every other check a 400. */
  function ErrorStatus(e: ValidationError): (s: Status)
    ensures s == NotFound404 <==> e == IngredientNotFound
    ensures s != NotFound404 ==> s == BadRequest400
  {
    if e == IngredientNotFound then NotFound404 else BadRequest400
  }

  /** The author already has a recipe with this name. */
  predicate NameTaken(recipes: map<RecipeId, Recipe>, author: UserId, name: string)
  {
    exists r :: r in recipes && recipes[r].author == author && recipes[r].name == name
  }

  function EntryIds(entries: seq<IngredientEntry>): (ids: seq<IngredientId>)
    ensures |ids| == |entries| && forall i :: 0 <= i < |entries| ==> ids[i] == entries[i].id
  {
    if entries == [] then [] else [entries[0].id] + EntryIds(entries[1..])
  }

  /** Entry `j` passes the loop body: its ingredient exists and no earlier
      entry named it. */
  predicate EntryPasses(ids: seq<IngredientId>, known: set<IngredientId>, j: int)
    requires 0 <= j < |ids|
  {
    ids[j] in known && ids[j] !in ids[..j]
  }

  /** The validation loop stops at entry `k`: every earlier entry passed and
      this one does not. */
  predicate ScanStopsAt(ids: seq<IngredientId>, known: set<IngredientId>, k: int)
  {
    && 0 <= k < |ids|
    && (forall j :: 0 <= j < k ==> EntryPasses(ids, known, j))
    && !EntryPasses(ids, known, k)
  }

  lemma ScanStopUnique(ids: seq<IngredientId>, known: set<IngredientId>, k1: int, k2: int)
    requires ScanStopsAt(ids, known, k1) && ScanStopsAt(ids, known, k2)
    ensures k1 == k2
  {
  }

  /** What `validate` decides, check by check in the order the code makes
      them. */
  function Verdict(data: RecipeData, verb: HttpMethod, author: UserId, recipes: map<RecipeId, Recipe>,
                   ingredients: map<IngredientId, Ingredient>): (r: Result<RecipeData, ValidationError>)
    ensures r.Ok? ==> r.value == data
    ensures r == Err(EmptyName) <==> data.name == ""
    ensures r == Err(NoTags) ==> |data.tags| == 0
  {
    var ids := EntryIds(data.ingredients);
    if data.name == "" then Err(EmptyName)
    else if verb == Post && NameTaken(recipes, author, data.name) then Err(DuplicateName)
    else if |data.ingredients| == 0 then Err(NoIngredients)
    else if exists k :: 0 <= k < |ids| && ScanStopsAt(ids, ingredients.Keys, k) && ids[k] !in ingredients then Err(IngredientNotFound)
    else if exists k :: 0 <= k < |ids| && ScanStopsAt(ids, ingredients.Keys, k) then Err(DuplicateIngredient)
    else if |data.tags| == 0 then Err(NoTags)
    else Ok(data)
  }

  /** `RecipeSerializer.validate`. */
  method Validate(data: RecipeData, verb: HttpMethod, author: UserId, recipes: map<RecipeId, Recipe>,
                  ingredients: map<IngredientId, Ingredient>) returns (r: Result<RecipeData, ValidationError>)
    ensures r == Verdict(data, verb, author, recipes, ingredients)
  {
    if data.name == "" {
      return Err(EmptyName);
    }
    if verb == Post && exists id :: id in recipes && recipes[id].author == author && recipes[id].name == data.name {
      return Err(DuplicateName);
    }
    if |data.ingredients| == 0 {
      return Err(NoIngredients);
    }
    ghost var ids := EntryIds(data.ingredients);
    var seen: seq<IngredientId> := [];
    var i := 0;
    while i < |data.ingredients|
      invariant 0 <= i <= |data.ingredients|
      invariant seen == ids[..i]
      invariant forall j :: 0 <= j < i ==> EntryPasses(ids, ingredients.Keys, j)
    {
      var id := data.ingredients[i].id;
      if id !in ingredients {
        assert ScanStopsAt(ids, ingredients.Keys, i);
        return Err(IngredientNotFound);
      }
      if id in seen {
        assert ScanStopsAt(ids, ingredients.Keys, i);
        forall k | 0 <= k < |ids| && ScanStopsAt(ids, ingredients.Keys, k) ensures ids[k] in ingredients {
          ScanStopUnique(ids, ingredients.Keys, i, k);
        }
        return Err(DuplicateIngredient);
      }
      seen := seen + [id];
      i := i + 1;
    }
    if |data.tags| == 0 {
      return Err(NoTags);
    }
    return Ok(data);
  }

  /** Every entry names an existing ingredient, and no ingredient twice:
      what the junction table's foreign key and unique constraint need. */
  predicate EntriesResolve(entries: seq<IngredientEntry>, ingredients: map<IngredientId, Ingredient>)
  {
    && (forall i :: 0 <= i < |entries| ==> entries[i].id in ingredients)
    && (forall i, j :: 0 <= i < j < |entries| ==> entries[i].id != entries[j].id)
  }

  lemma {:induction false} StopExists(ids: seq<IngredientId>, known: set<IngredientId>, n: nat)
    requires n <= |ids| && forall j :: 0 <= j < n ==> EntryPasses(ids, known, j)
    requires exists j :: n <= j < |ids| && !EntryPasses(ids, known, j)
    ensures exists k :: 0 <= k < |ids| && ScanStopsAt(ids, known, k)
    decreases |ids| - n
  {
    if EntryPasses(ids, known, n) {
      StopExists(ids, known, n + 1);
    } else {
      assert ScanStopsAt(ids, known, n);
    }
  }

  /** The loop runs to the end exactly when the entries resolve. */
  lemma ScanPassesIff(entries: seq<IngredientEntry>, ingredients: map<IngredientId, Ingredient>)
    ensures (exists k :: 0 <= k < |EntryIds(entries)| && ScanStopsAt(EntryIds(entries), ingredients.Keys, k))
        <==> !EntriesResolve(entries, ingredients)
  {
    var ids := EntryIds(entries);
    if exists k :: 0 <= k < |ids| && ScanStopsAt(ids, ingredients.Keys, k) {
      var k :| 0 <= k < |ids| && ScanStopsAt(ids, ingredients.Keys, k);
      if ids[k] in ingredients {
        var j :| 0 <= j < k && ids[..k][j] == ids[k];
        assert entries[j].id == entries[k].id;
      }
      assert !EntriesResolve(entries, ingredients);
      assert 0 <= k < |EntryIds(entries)| && ScanStopsAt(EntryIds(entries), ingredients.Keys, k);
    } else if !EntriesResolve(entries, ingredients) {
      if forall i :: 0 <= i < |entries| ==> entries[i].id in ingredients {
        var i, j :| 0 <= i < j < |entries| && entries[i].id == entries[j].id;
        assert ids[..j][i] == ids[j];
        assert !EntryPasses(ids, ingredients.Keys, j);
      } else {
        var i :| 0 <= i < |entries| && entries[i].id !in ingredients;
        assert !EntryPasses(ids, ingredients.Keys, i);
      }
      StopExists(ids, ingredients.Keys, 0);
      assert false;
    }
  }

  /** Validation accepts exactly the payloads with a non-blank name that (on
      POST) the author has not used, a non-empty ingredient list naming
      existing, pairwise different ingredients, and a non-empty tag list.
      The amounts play no part. */
  lemma VerdictAccepts(data: RecipeData, verb: HttpMethod, author: UserId, recipes: map<RecipeId, Recipe>,
                       ingredients: map<IngredientId, Ingredient>)
    ensures Verdict(data, verb, author, recipes, ingredients).Ok? <==>
      && data.name != ""
      && !(verb == Post && NameTaken(recipes, author, data.name))
      && |data.ingredients| > 0
      && EntriesResolve(data.ingredients, ingredients)
      && |data.tags| > 0
    ensures Verdict(data, verb, author, recipes, ingredients).Ok? ==>
      Verdict(data, verb, author, recipes, ingredients).value == data
  {
    ScanPassesIff(data.ingredients, ingredients);
  }

  /** The tag check runs last: a payload refused for its tags has passed
      every ingredient check. */
  lemma NoTagsAfterIngredients(data: RecipeData, verb: HttpMethod, author: UserId, recipes: map<RecipeId, Recipe>,
                               ingredients: map<IngredientId, Ingredient>)
    requires Verdict(data, verb, author, recipes, ingredients) == Err(NoTags)
    ensures data.name != "" && |data.ingredients| > 0 && EntriesResolve(data.ingredients, ingredients)
  {
    ScanPassesIff(data.ingredients, ingredients);
  }

  /** The entries are scanned in order: the verdict is not-found exactly when
      an unknown id comes before any repeated one. */
  lemma FirstFailureDecides(data: RecipeData, verb: HttpMethod, author: UserId, recipes: map<RecipeId, Recipe>,
                            ingredients: map<IngredientId, Ingredient>, k: nat)
    requires data.name != "" && !(verb == Post && NameTaken(recipes, author, data.name))
    requires ScanStopsAt(EntryIds(data.ingredients), ingredients.Keys, k)
    ensures data.ingredients[k].id !in ingredients ==> Verdict(data, verb, author, recipes, ingredients) == Err(IngredientNotFound)
    ensures data.ingredients[k].id in ingredients ==> Verdict(data, verb, author, recipes, ingredients) == Err(DuplicateIngredient)
  {
    var ids := EntryIds(data.ingredients);
    forall k' | 0 <= k' < |ids| && ScanStopsAt(ids, ingredients.Keys, k') ensures k' == k {
      ScanStopUnique(ids, ingredients.Keys, k, k');
    }
  }

  /** The response of a payload the loop stops on: 404 exactly when the
      entry it stops at names a missing ingredient, 400 when it repeats one. */
  lemma FailureStatus(data: RecipeData, verb: HttpMethod, author: UserId, recipes: map<RecipeId, Recipe>,
                      ingredients: map<IngredientId, Ingredient>, k: nat)
    requires data.name != "" && !(verb == Post && NameTaken(recipes, author, data.name))
    requires ScanStopsAt(EntryIds(data.ingredients), ingredients.Keys, k)
    ensures Verdict(data, verb, author, recipes, ingredients).Err?
    ensures ErrorStatus(Verdict(data, verb, author, recipes, ingredients).error) == NotFound404
        <==> data.ingredients[k].id !in ingredients
    ensures ErrorStatus(Verdict(data, verb, author, recipes, ingredients).error) == BadRequest400
        <==> data.ingredients[k].id in ingredients
  {
    FirstFailureDecides(data, verb, author, recipes, ingredients, k);
  }

  /** A repeated ingredient before an unknown one is reported as the
      repetition; a zero amount passes. */
  lemma ScanOrderExample(ingredients: map<IngredientId, Ingredient>, recipes: map<RecipeId, Recipe>)
    requires 1 in ingredients && 99 !in ingredients
    ensures var data := RecipeData("Блины", "", 10, [IngredientEntry(1, 0), IngredientEntry(1, 5), IngredientEntry(99, 1)], [1]);
      Verdict(data, Patch, 0, recipes, ingredients) == Err(DuplicateIngredient)
    ensures var data := RecipeData("Блины", "", 10, [IngredientEntry(1, 0)], [1]);
      Verdict(data, Patch, 0, recipes, ingredients) == Ok(data)
  {
    var data := RecipeData("Блины", "", 10, [IngredientEntry(1, 0), IngredientEntry(1, 5), IngredientEntry(99, 1)], [1]);
    var ids := EntryIds(data.ingredients);
    assert ids == [1, 1, 99];
    assert ids[..1] == [1];
    assert ScanStopsAt(ids, ingredients.Keys, 1);
    FirstFailureDecides(data, Patch, 0, recipes, ingredients, 1);
    var ok := RecipeData("Блины", "", 10, [IngredientEntry(1, 0)], [1]);
    VerdictAccepts(ok, Patch, 0, recipes, ingredients);
  }

  // The writes behind create and update.

  /** The rows `create_ingredients` bulk-inserts for a recipe, one per entry
      with that entry's amount. */
  function RowsFor(recipe: RecipeId, entries: seq<IngredientEntry>): (rows: seq<IngredientRecipe>)
    ensures |rows| == |entries|
    ensures forall i :: 0 <= i < |entries| ==> rows[i] == IngredientRecipe(entries[i].id, recipe, entries[i].amount)
  {
    if entries == [] then [] else [IngredientRecipe(entries[0].id, recipe, entries[0].amount)] + RowsFor(recipe, entries[1..])
  }

  /** The tag set `tags.set` leaves on the recipe. */
  function TagSet(tags: seq<TagId>): (s: set<TagId>)
    ensures forall x :: x in s <==> x in tags
  {
    set x | x in tags
  }

  /** The tables once recipe `id` holds `recipe` and its junction rows are
      exactly the rows for `entries`. */
  function WithRecipe(t: Tables, id: RecipeId, recipe: Recipe, entries: seq<IngredientEntry>): (r: Tables)
    ensures r.recipes.Keys == t.recipes.Keys + {id} && r.recipes[id] == recipe
    ensures forall x :: x in t.recipes && x != id ==> r.recipes[x] == t.recipes[x]
    ensures r.users == t.users && r.ingredients == t.ingredients && r.tags == t.tags
    ensures r.favorites == t.favorites && r.shoppingCart == t.shoppingCart && r.follows == t.follows
  {
    t.(recipes := t.recipes[id := recipe],
       ingredientRecipes := RowsExcept(t.ingredientRecipes, {id}, {}) + RowsFor(id, entries))
  }

  /** The database accepts the write: every tag exists and the entries
      resolve. */
  predicate Writable(t: Tables, data: RecipeData)
  {
    (forall x :: x in data.tags ==> x in t.tags) && EntriesResolve(data.ingredients, t.ingredients)
  }

  lemma {:induction false} RowsOfRowsFor(recipe: RecipeId, entries: seq<IngredientEntry>, other: RecipeId)
    ensures RowsOf(RowsFor(recipe, entries), recipe) == RowsFor(recipe, entries)
    ensures other != recipe ==> RowsOf(RowsFor(recipe, entries), other) == []
    decreases |entries|
  {
    if entries != [] {
      var rows := RowsFor(recipe, entries);
      assert rows[1..] == RowsFor(recipe, entries[1..]);
      RowsOfRowsFor(recipe, entries[1..], other);
    }
  }

  lemma {:induction false} RowsOfRowsExcept(rows: seq<IngredientRecipe>, id: RecipeId, other: RecipeId)
    ensures RowsOf(RowsExcept(rows, {id}, {}), id) == []
    ensures other != id ==> RowsOf(RowsExcept(rows, {id}, {}), other) == RowsOf(rows, other)
    decreases |rows|
  {
    if rows != [] {
      RowsOfRowsExcept(rows[1..], id, other);
      if rows[0].recipe != id {
        var rest := RowsExcept(rows[1..], {id}, {});
        assert RowsExcept(rows, {id}, {}) == [rows[0]] + rest;
        assert ([rows[0]] + rest)[0] == rows[0] && ([rows[0]] + rest)[1..] == rest;
      }
    }
  }

  /** After the write, recipe `id` has exactly one row per entry, carrying
      the entry's amount, and every other recipe keeps its rows. */
  lemma WithRecipeRows(t: Tables, id: RecipeId, recipe: Recipe, entries: seq<IngredientEntry>, other: RecipeId)
    ensures RowsOf(WithRecipe(t, id, recipe, entries).ingredientRecipes, id) == RowsFor(id, entries)
    ensures other != id ==> RowsOf(WithRecipe(t, id, recipe, entries).ingredientRecipes, other) == RowsOf(t.ingredientRecipes, other)
  {
    var kept := RowsExcept(t.ingredientRecipes, {id}, {});
    RowsOfConcat(kept, RowsFor(id, entries), id);
    RowsOfConcat(kept, RowsFor(id, entries), other);
    RowsOfRowsExcept(t.ingredientRecipes, id, other);
    RowsOfRowsFor(id, entries, other);
  }

  lemma WithRecipeKeepsConsistent(t: Tables, id: RecipeId, recipe: Recipe, entries: seq<IngredientEntry>)
    requires Consistent(t)
    requires recipe.author in t.users && recipe.tags <= t.tags.Keys && recipe.cookingTime >= MinCookingTime
    requires EntriesResolve(entries, t.ingredients)
    ensures Consistent(WithRecipe(t, id, recipe, entries))
  {
    var kept := RowsExcept(t.ingredientRecipes, {id}, {});
    var added := RowsFor(id, entries);
    forall i, j | 0 <= i < j < |added| ensures RowKey(added[i]) != RowKey(added[j]) {
    }
    forall x, y | x in kept && y in added ensures RowKey(x) != RowKey(y) {
    }
    UniqueConcat(kept, added);
    var r := WithRecipe(t, id, recipe, entries);
    forall row | row in r.ingredientRecipes ensures row.recipe in r.recipes && row.ingredient in r.ingredients {
      if row !in kept {
        var i :| 0 <= i < |added| && added[i] == row;
      }
    }
  }

  /** `create`, after `perform_create` has supplied the author: insert the
      recipe row, set its tags, bulk-insert its ingredient rows. The write
      is refused as a whole when a tag or an ingredient does not resolve. */
  method Create(store: Store, author: UserId, data: RecipeData) returns (r: Result<RecipeId, Status>)
    requires store.Valid() && author in store.tables.users
    requires data.cookingTime >= MinCookingTime
    modifies store`tables, store`nextRecipeId
    ensures store.Valid()
    ensures Writable(old(store.tables), data) ==>
      && r == Ok(old(store.nextRecipeId)) && r.value !in old(store.tables.recipes)
      && store.nextRecipeId == r.value + 1
      && store.tables == WithRecipe(old(store.tables), r.value,
                                    Recipe(data.name, author, data.text, data.cookingTime, TagSet(data.tags)), data.ingredients)
    ensures !Writable(old(store.tables), data) ==>
      r == Err(IntegrityError) && store.tables == old(store.tables) && store.nextRecipeId == old(store.nextRecipeId)
  {
    if !Writable(store.tables, data) {
      return Err(IntegrityError);
    }
    var id := store.nextRecipeId;
    var recipe := Recipe(data.name, author, data.text, data.cookingTime, TagSet(data.tags));
    WithRecipeKeepsConsistent(store.tables, id, recipe, data.ingredients);
    store.tables := WithRecipe(store.tables, id, recipe, data.ingredients);
    store.nextRecipeId := id + 1;
    r := Ok(id);
  }

  /** `update`: clear and reset the tags, delete the recipe's ingredient
      rows, insert the new ones, save the scalar fields. The author does
      not change. */
  method Update(store: Store, id: RecipeId, data: RecipeData) returns (s: Status)
    requires store.Valid() && id in store.tables.recipes
    requires data.cookingTime >= MinCookingTime
    modifies store`tables
    ensures store.Valid()
    ensures Writable(old(store.tables), data) ==>
      && s == Ok200
      && store.tables == WithRecipe(old(store.tables), id,
                                    old(store.tables.recipes[id]).(name := data.name, text := data.text,
                                                                   cookingTime := data.cookingTime, tags := TagSet(data.tags)),
                                    data.ingredients)
    ensures !Writable(old(store.tables), data) ==> s == IntegrityError && store.tables == old(store.tables)
  {
    if !Writable(store.tables, data) {
      return IntegrityError;
    }
    var recipe := store.tables.recipes[id].(name := data.name, text := data.text,
                                            cookingTime := data.cookingTime, tags := TagSet(data.tags));
    WithRecipeKeepsConsistent(store.tables, id, recipe, data.ingredients);
    store.tables := WithRecipe(store.tables, id, recipe, data.ingredients);
    s := Ok200;
  }

  /** A payload that passed validation can only be refused by the database
      for an unknown tag. */
  lemma ValidatedEntriesResolve(data: RecipeData, verb: HttpMethod, author: UserId, t: Tables)
    requires Verdict(data, verb, author, t.recipes, t.ingredients).Ok?
    ensures Writable(t, data) <==> forall x :: x in data.tags ==> x in t.tags
  {
    VerdictAccepts(data, verb, author, t.recipes, t.ingredients);
  }

  // Viewer-relative flags.

  /** `get_is_favorited`: false for the anonymous user, else whether the
      (viewer, recipe) Favorite row exists. */
  function IsFavorited(favorites: set<UserRecipe>, viewer: Viewer, recipe: RecipeId): (b: bool)
    ensures b ==> viewer.Authenticated?
    ensures viewer.Authenticated? ==> (b <==> UserRecipe(viewer.id, recipe) in favorites)
  {
    match viewer
    case Anonymous => false
    case Authenticated(id, _) => UserRecipe(id, recipe) in favorites
  }

  /** `get_is_in_shopping_cart`: the same over the ShoppingCart table. */
  function IsInShoppingCart(cart: set<UserRecipe>, viewer: Viewer, recipe: RecipeId): (b: bool)
    ensures b ==> viewer.Authenticated?
    ensures viewer.Authenticated? ==> (b <==> UserRecipe(viewer.id, recipe) in cart)
  {
    match viewer
    case Anonymous => false
    case Authenticated(id, _) => UserRecipe(id, recipe) in cart
  }

  /** `CustomUserSerializer.get_is_subscribed`: the viewer is signed in and
      follows the shown user. */
  function IsSubscribed(follows: set<Follow>, viewer: Viewer, shown: UserId): (b: bool)
    ensures b ==> viewer.Authenticated?
    ensures viewer.Authenticated? ==> (b <==> Follow(viewer.id, shown) in follows)
  {
    viewer.Authenticated? && Follow(viewer.id, shown) in follows
  }

  // The subscription serializer.

  /** `FollowSerializer.get_recipes`: how many recipes the followed author
      has (a count, not a list). */
  function FollowRecipes(recipes: map<RecipeId, Recipe>, obj: Follow): (n: nat)
    ensures n == 0 <==> forall x :: x in recipes ==> recipes[x].author != obj.author
  {
    var mine := RecipesBy(recipes, obj.author);
    assert forall x :: x in recipes && recipes[x].author == obj.author ==> x in mine;
    |mine|
  }

  /** A new recipe raises its author's count by one and no one else's. */
  lemma FollowRecipesAfterCreate(t: Tables, id: RecipeId, recipe: Recipe, entries: seq<IngredientEntry>, obj: Follow)
    requires id !in t.recipes
    ensures obj.author == recipe.author ==>
      FollowRecipes(WithRecipe(t, id, recipe, entries).recipes, obj) == FollowRecipes(t.recipes, obj) + 1
    ensures obj.author != recipe.author ==>
      FollowRecipes(WithRecipe(t, id, recipe, entries).recipes, obj) == FollowRecipes(t.recipes, obj)
  {
    var after := WithRecipe(t, id, recipe, entries).recipes;
    if obj.author == recipe.author {
      assert RecipesBy(after, obj.author) == RecipesBy(t.recipes, obj.author) + {id};
    } else {
      assert RecipesBy(after, obj.author) == RecipesBy(t.recipes, obj.author);
    }
  }

  /** `FollowSerializer.get_is_subscribed` as written:
      `obj.author.follower` are the Follow rows whose subscriber is the
      author, filtered to subscriber `obj.user`. */
  function FollowIsSubscribedAsWritten(follows: set<Follow>, obj: Follow): (b: bool)
    ensures b ==> obj.user == obj.author
  {
    exists f :: f in follows && f.user == obj.author && f.user == obj.user
  }

  /** On a stored subscription the flag as written holds only when the user
      follows themself. */
  lemma FollowIsSubscribedAsWrittenMeans(follows: set<Follow>, obj: Follow)
    requires obj in follows
    ensures FollowIsSubscribedAsWritten(follows, obj) <==> obj.user == obj.author
  {
    if obj.user == obj.author {
      assert obj.user == obj.author && obj in follows;
    }
  }

  /** The flag on the subscriptions list: whether `obj.user` follows
      `obj.author`. */
  function FollowIsSubscribed(follows: set<Follow>, obj: Follow): (b: bool)
    ensures b <==> Follow(obj.user, obj.author) in follows
  {
    exists f :: f in follows && f.user == obj.user && f.author == obj.author
  }

  /** Every row of the subscriptions list is shown as subscribed, while the
      flag as written is false on any row between two different users. */
  lemma FollowIsSubscribedExample(follows: set<Follow>, obj: Follow)
    requires obj in follows && obj.user != obj.author
    ensures FollowIsSubscribed(follows, obj)
    ensures !FollowIsSubscribedAsWritten(follows, obj)
  {
    FollowIsSubscribedAsWrittenMeans(follows, obj);
  }
}
