# foodgram core in Dafny

foodgram is a recipe-sharing backend (Django and Django REST framework).
Users publish recipes made of ingredients with amounts and tagged with
tags. They mark recipes as favourites, put recipes in a shopping cart,
subscribe to other authors, and download a shopping list that adds up the
ingredients of every recipe in their cart.

This project models the part of the backend that is logic rather than
framework configuration:

- **Store.** The database is one value, `Database.Tables`: users,
  ingredients, tags, recipes, the recipe–ingredient junction rows, the
  favourite and cart pair tables, and the Follow table. Its unique and
  foreign-key constraints form the predicate `Database.Consistent`. The
  class `Database.Store` holds the tables and the primary-key sequences.
  Its methods insert rows and run the cascading deletes the models
  declare.
- **Recipe serializer.** `validate` is a method with the source's loop,
  proved equal to a declarative verdict. Create and update are methods that
  rewrite the store. The viewer-relative flags and the subscription
  serializer's counts and flag are functions.
- **Recipe viewset actions.** The favourite and cart actions are methods on
  the store, each proved against a specification function. The shopping
  list download is a function, with the grouping, summing, ordering and
  text layout proved.
- **User viewset actions.** The subscribe action is a method on the store.
  The subscriptions list is a function.
- **Filters and permissions.** The recipe filters `is_favorited` and
  `is_in_shopping_cart`, and the two permission classes, are functions over
  ids and the request user.

Files: `common.dfy` (ids, request user, methods, statuses), `text.dfy`
(string order, decimal rendering), `recipe_models.dfy`, `user_models.dfy`,
`database.dfy`, `shopping_list.dfy`, `serializers.dfy`, `recipe_views.dfy`,
`user_views.dfy`, `filters.dfy`, `permissions.dfy`.

Each request is modelled as one atomic step. A write that the database
refuses (an insert breaking a unique constraint, a link to a missing tag or
ingredient) yields the status `IntegrityError` and leaves the store as it
was. `validate` looks up every submitted ingredient and rejects repeats
before the write, so only unknown tags, taken usernames, e-mails and slugs,
and repeated favourite, cart and Follow pairs are left to the database.

## Model

| member | source | states |
|---|---|---|
| Text.NatToString | backend/api/views.py:90 | `str()` of a total: at least one character, all decimal digits, no leading zero |
| Text.NatToStringRoundTrip | backend/api/views.py:90 | the decimal text written for a total is all digits, has no leading zero, and reads back as that total |
| Text.NatToStringInjective | backend/api/views.py:90 | different totals are written differently |
| RecipeModels.RowsExcept | backend/recipes/models.py:89-97 | a junction row survives the deletion exactly when neither its recipe nor its ingredient is deleted; the per-recipe uniqueness of ingredients is kept and no row is added |
| RecipeModels.RecipeOrdering | backend/recipes/models.py:78 | the recipe list holds every recipe exactly once, ids strictly descending |
| RecipeModels.IngredientOrdering | backend/recipes/models.py:18 | the ingredient list holds every ingredient exactly once, names in nondecreasing order |
| Database.Consistent | backend/recipes/models.py:37-154 | the unique constraints (username and e-mail, backend/users/models.py:11 and :28; tag slug; one junction row per recipe and ingredient; the favourite, cart and Follow pairs) and every foreign key resolving; the proofs that each write keeps it are the KeepsConsistent lemmas and the store methods' `Valid` |
| Database.WithoutRecipe | backend/recipes/models.py:93-97 | deleting a recipe removes exactly the recipe, its junction rows, and its favourite and cart pairs (CASCADE); users, ingredients, tags and follows are unchanged |
| Database.WithoutIngredient | backend/recipes/models.py:89-92 | deleting an ingredient removes exactly it and the junction rows naming it; nothing else changes |
| Database.WithoutUser | backend/recipes/models.py:63-66 | deleting a user removes their recipes, those recipes' rows and pairs, the user's own favourites and cart pairs, and every Follow row naming them on either side; other recipes keep their values |
| Database.WithoutRecipeKeepsConsistent | backend/recipes/models.py:119-122 | the constraints still hold after a recipe's cascade |
| Database.WithoutIngredientKeepsConsistent | backend/recipes/models.py:106-109 | the constraints still hold after an ingredient's cascade |
| Database.WithoutUserKeepsConsistent | backend/users/models.py:46-55 | the constraints still hold after a user's cascade |
| Database.Store.InsertUser | backend/users/models.py:8-29 | an account whose username or e-mail is taken gives IntegrityError and no change; otherwise it gets a new id and only the users table changes |
| Database.Store.InsertIngredient | backend/recipes/models.py:7-15 | an ingredient always gets a new id; only the ingredients table changes |
| Database.Store.InsertTag | backend/recipes/models.py:37-40 | a taken slug gives IntegrityError and no change; otherwise the tag gets a new id |
| Database.Store.DeleteRecipe | backend/recipes/models.py:93-97 | the tables become the recipe cascade of the old tables, and the constraints keep holding |
| Database.Store.DeleteIngredient | backend/recipes/models.py:89-92 | the tables become the ingredient cascade of the old tables, and the constraints keep holding |
| Database.Store.DeleteUser | backend/users/models.py:46-55 | the tables become the user cascade of the old tables, and the constraints keep holding |
| ShoppingList.Merge | backend/api/views.py:87 | the `Sum` step for one row: the list grows by at most one line; MergeCorrect states the rest |
| ShoppingList.MergeCorrect | backend/api/views.py:87 | adding a row's amount to a sorted group list keeps it sorted, adds its key, and raises only that key's total, by the amount |
| ShoppingList.Groups | backend/api/views.py:82-87 | the query's grouped, summed and ordered result, built row by row; it has at most as many lines as there are rows, and GroupsCorrect and GroupsSpec state its order, keys and totals |
| ShoppingList.GroupsCorrect | backend/api/views.py:82-87 | the grouped result is sorted by (name, unit); a key is present iff some cart row with an existing ingredient has it; each total is the sum over those rows |
| ShoppingList.GroupsSpec | backend/api/views.py:82-87 | the same, by line index: keys strictly increasing, a key is listed iff some line carries it, and each line's total is the sum of its group's amounts |
| ShoppingList.OneLinePerKey | backend/api/views.py:84-85 | no two lines share a (name, unit) pair: the same name with two units gives two lines, and equal names with equal units merge |
| ShoppingList.NamesNondecreasing | backend/api/views.py:86 | line names appear in nondecreasing order |
| ShoppingList.SortedLinesDetermined | backend/api/views.py:84-87 | two strictly sorted line lists with the same keys and totals are equal, so the result is fixed by the cart's contents |
| ShoppingList.TotalPermutation | backend/api/views.py:87 | a group's sum does not depend on the order of the rows |
| ShoppingList.RowOrderIrrelevant | backend/api/views.py:82-87 | the whole grouped result does not depend on the order of the rows |
| ShoppingList.CartRecipes | backend/api/views.py:83 | the recipes taken are exactly those the user has a cart pair for |
| ShoppingList.SplitJoin | backend/api/views.py:89-92 | splitting the newline-joined lines at newlines gives the lines back when none contains a newline |
| ShoppingList.Render | backend/api/views.py:88-92 | the file text always starts with the header "Список покупок:\n\n"; RenderLines states what follows it |
| ShoppingList.RenderLines | backend/api/views.py:88-92 | the text is the header "Список покупок:\n\n" followed by exactly the lines `name - total unit`, one per group |
| Serializers.ErrorStatus | backend/api/serializers.py:131 | an unknown ingredient answers 404; every other validation error answers 400 |
| Serializers.Verdict | backend/api/serializers.py:116-139 | the declarative outcome of `validate`: an accepted payload comes back unchanged, `EmptyName` iff the name is blank, and `NoTags` only for an empty tag list; VerdictAccepts and FirstFailureDecides state the rest |
| Serializers.FailureStatus | backend/api/serializers.py:130-133 | when the loop stops on an entry, the response is 404 iff that entry names a missing ingredient and 400 iff it repeats one |
| Serializers.Validate | backend/api/serializers.py:116-139 | the loop's outcome equals the declarative verdict: blank name, then duplicate name on POST, then empty ingredient list, then the first failing entry (unknown gives not-found, repeated gives duplicate), then empty tag list |
| Serializers.VerdictAccepts | backend/api/serializers.py:116-139 | a payload is accepted iff its name is non-blank, (on POST) unused by the author, its ingredient list is non-empty with existing and pairwise different ingredients, and its tag list is non-empty; amounts play no part; an accepted payload comes back unchanged |
| Serializers.ScanPassesIff | backend/api/serializers.py:129-134 | the loop stops early iff some entry names a missing ingredient or repeats an earlier one |
| Serializers.NoTagsAfterIngredients | backend/api/serializers.py:136-138 | a payload refused for its tags passed the name and every ingredient check |
| Serializers.FirstFailureDecides | backend/api/serializers.py:129-134 | the first failing entry decides the error: not-found if its ingredient is missing, duplicate otherwise |
| Serializers.ScanOrderExample | backend/api/serializers.py:129-134 | a repetition before an unknown id is reported as the repetition; an entry with amount 0 is accepted |
| Serializers.RowsFor | backend/api/serializers.py:107-114 | one junction row per entry, in order, with the entry's ingredient and amount |
| Serializers.TagSet | backend/api/serializers.py:147 | the recipe's tag set is exactly the submitted tags |
| Serializers.WithRecipe | backend/api/serializers.py:141-159 | the write behind create and update: the recipe row id holds the new fields, every other recipe keeps its values, and users, ingredients, tags, pairs and follows are unchanged |
| Serializers.WithRecipeRows | backend/api/serializers.py:151-159 | after the write the recipe has exactly the rows for the submitted entries, and every other recipe keeps its rows |
| Serializers.WithRecipeKeepsConsistent | backend/recipes/models.py:106-109 | with the author, the tags and the ingredients existing and no ingredient repeated, the constraints still hold after the write |
| Serializers.Create | backend/api/serializers.py:141-149 | with every tag and ingredient resolving, the recipe gets a fresh id, the submitted fields and tags, and exactly the submitted rows; otherwise IntegrityError and no change |
| Serializers.Update | backend/api/serializers.py:151-159 | with every tag and ingredient resolving, the recipe keeps its author and gets the submitted fields, tags and rows; otherwise IntegrityError and no change |
| Serializers.ValidatedEntriesResolve | backend/api/serializers.py:141-149 | after validation passes, only an unknown tag can make the write fail |
| Serializers.IsFavorited | backend/api/serializers.py:89-94 | false for the anonymous user; otherwise true iff the (viewer, recipe) favourite exists |
| Serializers.IsInShoppingCart | backend/api/serializers.py:96-101 | false for the anonymous user; otherwise true iff the (viewer, recipe) cart pair exists |
| Serializers.IsSubscribed | backend/api/serializers.py:24-28 | false for the anonymous user; otherwise true iff the viewer follows the shown user |
| Serializers.FollowRecipes | backend/api/serializers.py:187-188 | the author's recipe count, zero iff the author has no recipe |
| Serializers.FollowRecipesAfterCreate | backend/api/serializers.py:187-188 | the count of the followed author's recipes rises by one when that author creates a recipe, and is unchanged by anyone else's |
| Serializers.FollowIsSubscribedAsWritten | backend/api/serializers.py:190-191 | the flag as written: the subscriber must be the author, so it can hold only on a self-follow |
| Serializers.FollowIsSubscribedAsWrittenMeans | backend/api/serializers.py:190-191 | on a stored subscription, the flag as written is true iff the subscriber is the author |
| Serializers.FollowIsSubscribed | backend/api/serializers.py:190-191 | the corrected flag is true iff the row's subscriber follows the row's author |
| Serializers.FollowIsSubscribedExample | backend/api/serializers.py:190-191 | on a stored row between two different users, the corrected flag is true and the flag as written is false |
| RecipeViews.PairAction | backend/api/views.py:42-57 | anonymous gives 401 and an unknown recipe 404, with no change; POST on an absent pair inserts it with 201, POST on a present pair gives IntegrityError with no change; DELETE on a present pair removes it with 204, DELETE on an absent pair gives 404 with no change; any other method gives 400; only that pair can change, and the table changes iff the answer is 201 or 204 |
| RecipeViews.PairActionSetsFlag | backend/api/views.py:46-54 | POST succeeds iff the recipe was not marked, DELETE iff it was; afterwards the flag reads marked after POST and unmarked after DELETE |
| RecipeViews.PairActionRepeated | backend/api/views.py:48-53 | a second POST fails with IntegrityError and a second DELETE with 404, both without change |
| RecipeViews.PairActionUndo | backend/api/views.py:48-53 | a successful POST followed by DELETE restores the table |
| RecipeViews.Favorite | backend/api/views.py:42-57 | the status and the favourites table are those of the action on the old table; no other table changes; the constraints keep holding |
| RecipeViews.ShoppingCartAction | backend/api/views.py:59-74 | the same for the cart table |
| RecipeViews.DownloadShoppingCartAsWritten | backend/api/views.py:80 | every signed-in request fails with AttributeError |
| RecipeViews.DownloadShoppingCart | backend/api/views.py:78-97 | anonymous gives 401; a signed-in user gets 400 iff their cart is empty, and otherwise a text starting with the header |
| RecipeViews.DownloadAsWrittenFails | backend/api/views.py:80-81 | any user with a cart pair gets AttributeError from the code as written and a list from the corrected one |
| RecipeViews.DownloadedList | backend/api/views.py:82-92 | the file is the header alone for an empty group list, and otherwise the header then one `name - total unit` line per (name, unit) group in key order, each total the sum of its group's amounts |
| RecipeViews.GroupLineFromIngredient | backend/api/views.py:84-85 | every line's name and unit are those of a stored ingredient |
| RecipeViews.DownloadExample | backend/api/views.py:82-92 | on a state satisfying the constraints, two cart recipes that both use flour give the header, then "Мука - 300 г" and "Соль - 5 г" |
| UserViews.FollowAction | backend/users/views.py:43-55 | anonymous gives 401 and an unknown author 404, with no change; POST inserts the row, giving 201 iff it was absent (IntegrityError otherwise); POST on a present row gives IntegrityError with no change; every other method answers 204, and DELETE removes the row; only that row can change |
| UserViews.UnfollowIdempotent | backend/users/views.py:52-55 | a second DELETE answers 204 and changes nothing more |
| UserViews.SelfFollowAllowed | backend/users/views.py:47-51 | a user can subscribe to themself |
| UserViews.Subscribe | backend/users/views.py:43-55 | the status and the Follow table are those of the action on the old table; no other table changes; the constraints keep holding |
| UserViews.Subscriptions | backend/users/views.py:37 | anonymous gives 401; a signed-in viewer always gets a list, holding exactly the Follow rows whose subscriber is the viewer |
| UserViews.SubscriptionsAfterAction | backend/users/views.py:47-54 | after a successful POST the row is on the viewer's list and both flags read subscribed; after DELETE it is gone and the profile flag reads unsubscribed |
| UserViews.ListedRowsSubscribed | backend/users/views.py:37 | every listed row reads as subscribed, under the corrected flag and the profile flag |
| Filters.Marked | backend/api/filters.py:28 | the filtered list holds exactly the recipes of the input the user has a row for, each no more often than in the input |
| Filters.MarkedKeepsOrder | backend/api/filters.py:28 | a list ordered by descending id stays so after filtering |
| Filters.MarkedIdempotent | backend/api/filters.py:28 | filtering twice by the same table is filtering once |
| Filters.FilterIsFavorited | backend/api/filters.py:25-29 | unchanged unless the value is true and the viewer is signed in; otherwise exactly the favourited recipes; always a sub-multiset of the input |
| Filters.FilterIsInShoppingCart | backend/api/filters.py:31-35 | the same for the viewer's cart |
| Filters.FilteredListOrdered | backend/recipes/models.py:78 | the recipe list, newest first, stays newest first under both filters |
| Filters.FiltersCommute | backend/api/filters.py:25-35 | the two filters give the same list in either order |
| Permissions.IsAdminOrReadOnly | backend/api/permissions.py:7-10 | a safe method is always allowed, any other only for a superuser; the anonymous user can only read |
| Permissions.IsAdminOrAuthorAsWritten | backend/api/permissions.py:16-19 | a safe method is allowed without evaluating the rest; every other method raises NameError |
| Permissions.IsAdminOrAuthor | backend/api/permissions.py:16-19 | a safe method is allowed; any other only for the object's author or a superuser |
| Permissions.IsAdminOrAuthorDiffers | backend/api/permissions.py:16-19 | where the code as written answers, it agrees with the corrected check; an unsafe request by the author raises instead of being allowed |
| Permissions.PermissionOrder | backend/api/permissions.py:4-19 | the anonymous user can only read under both classes, and whoever may write under the admin class may write under the author class |

## Left out

- Image upload (`Base64ImageField`), djoser account creation, token authentication and passwords. These are library calls. A signed-in request user is a `Viewer.Authenticated` whose id is a stored user.
- `CustomRecipeSerializer` and `IsAuthorOrReadOnly` are imported in backend/api/views.py:13-14 but not defined in these files, so they are not part of this model. Likewise `recipes_count` (backend/api/serializers.py:179) has no `get_recipes_count` method.
- The whole response bodies of `subscribe` and `subscriptions` are not modelled. Serializing them needs `recipes_count`, which has no method.
- UserViews.Subscribe: states the status and the new Follow table only, not the serialized author returned with a 201. The 201 also assumes the response serializes: as written, `FollowSerializer(...).data` declares `recipes_count` (backend/api/serializers.py:179) with no `get_recipes_count`, so it would raise AttributeError after the row is inserted.
- Pagination (`PageLimitPagination`), the `^name` ingredient search and the `author`/`tags` recipe filters are left out. They are library behaviour.
- HTTP response building is not modelled, including the `Content-Disposition` header and the file name (backend/api/views.py:93-96).
- The router allows only POST and DELETE on the pair actions and only GET on the download, and any other method gets a 405 before the handler runs. The model keeps the handlers' own fallback branches instead: 400 for the pair actions, 204 for `subscribe`.
- Transactions and concurrency are not modelled. The code has no atomic blocks, so a failed tag or ingredient link after `Recipe.objects.create` would leave a partial recipe. The model treats each write as atomic.
- Serializers.Create: requires a cooking time of at least 1 and an author that exists. DRF's field validation (the model's `MinValueValidator`) and authentication ensure these before `validate` runs, and field validation itself is not modelled.
- Serializers.Update: requires a cooking time of at least 1, for the same reason as Serializers.Create.
- The blank-name check that DRF's CharField applies before `validate` is not modelled. A missing `name`, `ingredients` or `tags` key (a `KeyError`) is not modelled either: the payload always has every field.
- Amounts are natural numbers. Negative or non-integer amounts from the raw request are not modelled. Neither are the 16-bit bound of `PositiveSmallIntegerField` and its database check, which `bulk_create` leaves to the database.
- The `amount >= 1` rule is a model validator that `bulk_create` does not run, so `Database.Consistent` does not include it. `RecipeModels.AmountDeclaredValid` only states the declared rule.
- ShoppingList.GroupsSpec: lines with equal names are ordered by unit. The query orders by name only and leaves ties to the database, so the model picks one order. `ShoppingList.NamesNondecreasing` is what the code itself promises.
- RecipeModels.IngredientOrdering: ingredients with equal names are ordered by id. `ordering = ["name"]` leaves ties to the database, so the model picks one order; only the nondecreasing names are what the code promises.
- String order is lexicographic on code points. Database collations are not modelled.
- The `ordering` of `User` (username, backend/users/models.py:35) and of `Follow` (user, backend/users/models.py:58) is not modelled. Users are a map and follows a set.
- The admin screens, the URL configuration and the paginator class are configuration, with no logic to model.

## Behaviour of the code worth knowing

- **Self-follow.** `subscribe` has no check against following oneself (backend/users/views.py:47-51); `UserViews.SelfFollowAllowed` proves the POST succeeds.
- **Amounts.** `validate` never looks at an amount (backend/api/serializers.py:129-134), and the `amount` validator does not run under `bulk_create`; `Serializers.ScanOrderExample` proves an entry with amount 0 is accepted.
- **Refused writes.** A repeated favourite, cart pair or subscription is not checked for first; the database's unique constraint refuses it and the model answers `IntegrityError` (`RecipeViews.PairAction`, `UserViews.FollowAction`).

## Findings

| source | as written | input that shows it | evidently intended | confidence | as-written member | corrected member |
|---|---|---|---|---|---|---|
| backend/api/views.py:80 | `user.shoppingcart.exists()` reads an attribute the user does not have. `ShoppingCart.user` has no related name, so the reverse accessor is `shoppingcart_set`, and the lookup raises AttributeError | any signed-in user with a cart pair (`RecipeViews.DownloadAsWrittenFails`) | 400 when the user has no cart pair, otherwise the shopping list | high, not executed | RecipeViews.DownloadShoppingCartAsWritten | RecipeViews.DownloadShoppingCart |
| backend/api/serializers.py:191 | `obj.author.follower.filter(user=obj.user)` looks for rows whose subscriber is both the author and `obj.user` | a stored row `Follow(1, 2)` (`Serializers.FollowIsSubscribedExample`) | true: the listed subscriber follows the listed author | high, not executed | Serializers.FollowIsSubscribedAsWritten | Serializers.FollowIsSubscribed |
| backend/api/permissions.py:18 | `has_permission` reads `obj`, which is not bound there, so every unsafe request raises NameError | PATCH by the recipe's author (`Permissions.IsAdminOrAuthorDiffers`) | an object-level check that lets the author or a superuser write | high, not executed | Permissions.IsAdminOrAuthorAsWritten | Permissions.IsAdminOrAuthor |
