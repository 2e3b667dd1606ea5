/** The relational store the application runs on: the contents of every
    table as one value, the database's constraints as a predicate on it, the
    cascading deletes the models declare, and the connection object whose
    methods write the tables. */
module Database {
  import opened Common
  import opened RecipeModels
  import opened UserModels

  /** The contents of every modelled table at one moment. A recipe's tag
      links travel with the recipe row (`Recipe.tags`). */
  datatype Tables = Tables(
    users: map<UserId, User>,
    ingredients: map<IngredientId, Ingredient>,
    tags: map<TagId, Tag>,
    recipes: map<RecipeId, Recipe>,
    ingredientRecipes: seq<IngredientRecipe>,
    favorites: set<UserRecipe>,
    shoppingCart: set<UserRecipe>,
    follows: set<Follow>)

  /** A freshly migrated database. */
  const Empty: Tables := Tables(map[], map[], map[], map[], [], {}, {}, {})

  /** Every recipe's author and tags exist, and its cooking time passed the
      field validator. */
  ghost predicate RecipeRefsValid(recipes: map<RecipeId, Recipe>, users: map<UserId, User>, tags: map<TagId, Tag>)
  {
    forall r :: r in recipes ==>
      recipes[r].author in users && recipes[r].tags <= tags.Keys && recipes[r].cookingTime >= MinCookingTime
  }

  /** Both foreign keys of every junction row resolve. */
  ghost predicate RowRefsValid(rows: seq<IngredientRecipe>, recipes: map<RecipeId, Recipe>, ingredients: map<IngredientId, Ingredient>)
  {
    forall row :: row in rows ==> row.recipe in recipes && row.ingredient in ingredients
  }

  /** Both foreign keys of every favorite or cart pair resolve. */
  ghost predicate PairRefsValid(pairs: set<UserRecipe>, users: map<UserId, User>, recipes: map<RecipeId, Recipe>)
  {
    forall p :: p in pairs ==> p.user in users && p.recipe in recipes
  }

  /** Both foreign keys of every Follow row resolve. */
  ghost predicate FollowRefsValid(follows: set<Follow>, users: map<UserId, User>)
  {
    forall f :: f in follows ==> f.user in users && f.author in users
  }

  /** The unique constraints and the foreign keys. The unique constraints on
      the Favorite, ShoppingCart and Follow pairs hold by construction: those
      tables are sets. */
  ghost predicate Consistent(t: Tables)
  {
    && UniqueUsernames(t.users) && UniqueEmails(t.users)
    && UniqueSlugs(t.tags)
    && UniqueIngredientPerRecipe(t.ingredientRecipes)
    && RecipeRefsValid(t.recipes, t.users, t.tags)
    && RowRefsValid(t.ingredientRecipes, t.recipes, t.ingredients)
    && PairRefsValid(t.favorites, t.users, t.recipes)
    && PairRefsValid(t.shoppingCart, t.users, t.recipes)
    && FollowRefsValid(t.follows, t.users)
  }

  /** Every id in use was handed out by the sequence before `next`. */
  ghost predicate Below(ids: set<nat>, next: nat)
  {
    forall i :: i in ids ==> i < next
  }

  /** Deleting a recipe: its junction rows, favorites and cart entries go
      with it (CASCADE on their `recipe` foreign keys). */
  function WithoutRecipe(t: Tables, id: RecipeId): (r: Tables)
    ensures id !in r.recipes && forall x :: x in r.recipes <==> x in t.recipes && x != id
    ensures r.recipes == t.recipes - {id}
    ensures forall row :: row in r.ingredientRecipes <==> row in t.ingredientRecipes && row.recipe != id
    ensures forall p :: p in r.favorites <==> p in t.favorites && p.recipe != id
    ensures forall p :: p in r.shoppingCart <==> p in t.shoppingCart && p.recipe != id
    ensures r.users == t.users && r.ingredients == t.ingredients && r.tags == t.tags && r.follows == t.follows
  {
    t.(recipes := t.recipes - {id},
       ingredientRecipes := RowsExcept(t.ingredientRecipes, {id}, {}),
       favorites := PairsExcept(t.favorites, {}, {id}),
       shoppingCart := PairsExcept(t.shoppingCart, {}, {id}))
  }

  /** Deleting an ingredient: the junction rows naming it go with it. */
  function WithoutIngredient(t: Tables, id: IngredientId): (r: Tables)
    ensures id !in r.ingredients && forall x :: x in r.ingredients <==> x in t.ingredients && x != id
    ensures r.ingredients == t.ingredients - {id}
    ensures forall row :: row in r.ingredientRecipes <==> row in t.ingredientRecipes && row.ingredient != id
    ensures r.users == t.users && r.tags == t.tags && r.recipes == t.recipes
    ensures r.favorites == t.favorites && r.shoppingCart == t.shoppingCart && r.follows == t.follows
  {
    t.(ingredients := t.ingredients - {id},
       ingredientRecipes := RowsExcept(t.ingredientRecipes, {}, {id}))
  }

  /** Deleting a user: the recipes they wrote go (and with them those
      recipes' rows, favorites and cart entries), and so do their own
      favorites, cart entries and every Follow row naming them on either
      side. */
  function WithoutUser(t: Tables, u: UserId): (r: Tables)
    ensures u !in r.users && forall x :: x in r.users <==> x in t.users && x != u
    ensures r.users == t.users - {u}
    ensures forall x :: x in r.recipes <==> x in t.recipes && t.recipes[x].author != u
    ensures forall x :: x in r.recipes ==> r.recipes[x] == t.recipes[x]
    ensures forall row :: row in r.ingredientRecipes <==> row in t.ingredientRecipes && row.recipe !in RecipesBy(t.recipes, u)
    ensures forall p :: p in r.favorites <==> p in t.favorites && p.user != u && p.recipe !in RecipesBy(t.recipes, u)
    ensures forall p :: p in r.shoppingCart <==> p in t.shoppingCart && p.user != u && p.recipe !in RecipesBy(t.recipes, u)
    ensures forall f :: f in r.follows <==> f in t.follows && f.user != u && f.author != u
    ensures r.ingredients == t.ingredients && r.tags == t.tags
  {
    var gone := RecipesBy(t.recipes, u);
    t.(users := t.users - {u},
       recipes := RecipesNotBy(t.recipes, u),
       ingredientRecipes := RowsExcept(t.ingredientRecipes, gone, {}),
       favorites := PairsExcept(t.favorites, {u}, gone),
       shoppingCart := PairsExcept(t.shoppingCart, {u}, gone),
       follows := FollowsWithout(t.follows, u))
  }

  lemma WithoutRecipeKeepsConsistent(t: Tables, id: RecipeId)
    requires Consistent(t)
    ensures Consistent(WithoutRecipe(t, id))
  {
    var r := WithoutRecipe(t, id);
    assert r.ingredientRecipes == RowsExcept(t.ingredientRecipes, {id}, {});
    PairsExceptKeepsRefs(t.favorites, t.users, t.recipes, {}, {id}, r.recipes);
    PairsExceptKeepsRefs(t.shoppingCart, t.users, t.recipes, {}, {id}, r.recipes);
  }

  lemma WithoutIngredientKeepsConsistent(t: Tables, id: IngredientId)
    requires Consistent(t)
    ensures Consistent(WithoutIngredient(t, id))
  {
    var r := WithoutIngredient(t, id);
    assert r.ingredientRecipes == RowsExcept(t.ingredientRecipes, {}, {id});
  }

  lemma WithoutUserKeepsConsistent(t: Tables, u: UserId)
    requires Consistent(t)
    ensures Consistent(WithoutUser(t, u))
  {
    var r := WithoutUser(t, u);
    var gone := RecipesBy(t.recipes, u);
    assert r.ingredientRecipes == RowsExcept(t.ingredientRecipes, gone, {});
    assert forall x :: x in t.recipes ==> (x in r.recipes <==> x !in gone);
    PairsExceptKeepsRefs(t.favorites, t.users, t.recipes, {u}, gone, r.recipes);
    PairsExceptKeepsRefs(t.shoppingCart, t.users, t.recipes, {u}, gone, r.recipes);
  }

  lemma PairsExceptKeepsRefs(pairs: set<UserRecipe>, users: map<UserId, User>, recipes: map<RecipeId, Recipe>,
                             goneUsers: set<UserId>, goneRecipes: set<RecipeId>, kept: map<RecipeId, Recipe>)
    requires PairRefsValid(pairs, users, recipes)
    requires forall x :: x in recipes ==> (x in kept <==> x !in goneRecipes)
    ensures PairRefsValid(PairsExcept(pairs, goneUsers, goneRecipes), users - goneUsers, kept)
  {
  }

  /** The database connection: the tables and the primary-key sequences,
      which never hand out an id twice. */
  class Store {
    var tables: Tables
    var nextUserId: UserId
    var nextIngredientId: IngredientId
    var nextTagId: TagId
    var nextRecipeId: RecipeId

    /** The constraints hold, and every id in use came from its sequence. */
    ghost predicate Valid()
      reads this
    {
      && Consistent(tables)
      && Below(tables.users.Keys, nextUserId) && Below(tables.ingredients.Keys, nextIngredientId)
      && Below(tables.tags.Keys, nextTagId) && Below(tables.recipes.Keys, nextRecipeId)
    }

    constructor ()
      ensures Valid() && tables == Empty
    {
      tables := Empty;
      nextUserId, nextIngredientId, nextTagId, nextRecipeId := 0, 0, 0, 0;
    }

    /** INSERT into the User table: refused when the username or the e-mail
        is already taken. */
    method InsertUser(u: User) returns (r: Result<UserId, Status>)
      requires Valid()
      modifies this`tables, this`nextUserId
      ensures Valid()
      ensures Clashes(old(tables.users), u) ==> r == Err(IntegrityError) && tables == old(tables)
      ensures !Clashes(old(tables.users), u) ==>
        r.Ok? && r.value !in old(tables.users) && tables == old(tables).(users := old(tables.users)[r.value := u])
    {
      if exists k :: k in tables.users && (tables.users[k].username == u.username || tables.users[k].email == u.email) {
        return Err(IntegrityError);
      }
      r := Ok(nextUserId);
      tables := tables.(users := tables.users[nextUserId := u]);
      nextUserId := nextUserId + 1;
    }

    /** INSERT into the Ingredient table, which has no unique constraint. */
    method InsertIngredient(i: Ingredient) returns (id: IngredientId)
      requires Valid()
      modifies this`tables, this`nextIngredientId
      ensures Valid()
      ensures id !in old(tables.ingredients) && tables == old(tables).(ingredients := old(tables.ingredients)[id := i])
    {
      id := nextIngredientId;
      tables := tables.(ingredients := tables.ingredients[id := i]);
      nextIngredientId := nextIngredientId + 1;
    }

    /** INSERT into the Tag table: refused when the slug is taken. */
    method InsertTag(tag: Tag) returns (r: Result<TagId, Status>)
      requires Valid()
      modifies this`tables, this`nextTagId
      ensures Valid()
      ensures (exists k :: k in old(tables.tags) && old(tables.tags)[k].slug == tag.slug) ==>
        r == Err(IntegrityError) && tables == old(tables)
      ensures (forall k :: k in old(tables.tags) ==> old(tables.tags)[k].slug != tag.slug) ==>
        r.Ok? && r.value !in old(tables.tags) && tables == old(tables).(tags := old(tables.tags)[r.value := tag])
    {
      if exists k :: k in tables.tags && tables.tags[k].slug == tag.slug {
        return Err(IntegrityError);
      }
      r := Ok(nextTagId);
      tables := tables.(tags := tables.tags[nextTagId := tag]);
      nextTagId := nextTagId + 1;
    }

    /** DELETE of a recipe row, with its cascades. */
    method DeleteRecipe(id: RecipeId)
      requires Valid() && id in tables.recipes
      modifies this`tables
      ensures Valid()
      ensures tables == WithoutRecipe(old(tables), id)
    {
      WithoutRecipeKeepsConsistent(tables, id);
      tables := WithoutRecipe(tables, id);
    }

    /** DELETE of an ingredient row, with its cascade. */
    method DeleteIngredient(id: IngredientId)
      requires Valid() && id in tables.ingredients
      modifies this`tables
      ensures Valid()
      ensures tables == WithoutIngredient(old(tables), id)
    {
      WithoutIngredientKeepsConsistent(tables, id);
      tables := WithoutIngredient(tables, id);
    }

    /** DELETE of a user row, with its cascades. */
    method DeleteUser(u: UserId)
      requires Valid() && u in tables.users
      modifies this`tables
      ensures Valid()
      ensures tables == WithoutUser(old(tables), u)
    {
      WithoutUserKeepsConsistent(tables, u);
      tables := WithoutUser(tables, u);
    }
  }
}
