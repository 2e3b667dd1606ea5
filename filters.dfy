/** The recipe list's `is_favorited` and `is_in_shopping_cart` filters, over
    the list of recipe ids the queryset yields. */
module Filters {
  import opened Common
  import opened RecipeModels

  /** `queryset.filter(<table>__user=user)`: the recipes the user has a row
      for, in queryset order. The pair is unique, so the join yields each
      recipe at most once. */
  function Marked(queryset: seq<RecipeId>, pairs: set<UserRecipe>, user: UserId): (r: seq<RecipeId>)
    ensures forall x :: x in r <==> x in queryset && UserRecipe(user, x) in pairs
    ensures multiset(r) <= multiset(queryset)
  {
    if queryset == [] then []
    else
      var rest := Marked(queryset[1..], pairs, user);
      assert queryset == [queryset[0]] + queryset[1..];
      if UserRecipe(user, queryset[0]) in pairs then [queryset[0]] + rest else rest
  }

  /** Strictly decreasing ids: the recipe list's `-id` ordering. */
  predicate Descending(s: seq<RecipeId>)
  {
    forall i, j :: 0 <= i < j < |s| ==> s[i] > s[j]
  }

  /** The filtered list keeps the queryset's order: a list ordered by
      descending id stays so. */
  lemma {:induction false} MarkedKeepsOrder(queryset: seq<RecipeId>, pairs: set<UserRecipe>, user: UserId)
    requires Descending(queryset)
    ensures Descending(Marked(queryset, pairs, user))
  {
    if queryset != [] {
      var rest := Marked(queryset[1..], pairs, user);
      MarkedKeepsOrder(queryset[1..], pairs, user);
      if UserRecipe(user, queryset[0]) in pairs {
        var r := [queryset[0]] + rest;
        forall i, j | 0 <= i < j < |r| ensures r[i] > r[j] {
          assert r[j] == rest[j - 1] && r[j] in rest;
          var k :| 0 <= k < |queryset[1..]| && queryset[1..][k] == r[j];
          assert queryset[k + 1] == r[j];
          if i > 0 {
            assert r[i] == rest[i - 1];
          }
        }
      }
    }
  }

  /** Filtering a list twice by the same mark changes nothing more. */
  lemma {:induction false} MarkedIdempotent(queryset: seq<RecipeId>, pairs: set<UserRecipe>, user: UserId)
    ensures Marked(Marked(queryset, pairs, user), pairs, user) == Marked(queryset, pairs, user)
  {
    if queryset != [] {
      MarkedIdempotent(queryset[1..], pairs, user);
      var rest := Marked(queryset[1..], pairs, user);
      if UserRecipe(user, queryset[0]) in pairs {
        assert ([queryset[0]] + rest)[1..] == rest;
      }
    }
  }

  /** `RecipeFilter.get_is_favorited`: filter only when the value is true
      and the viewer is signed in. */
  function FilterIsFavorited(queryset: seq<RecipeId>, favorites: set<UserRecipe>, viewer: Viewer, value: bool): (r: seq<RecipeId>)
    ensures !(value && viewer.Authenticated?) ==> r == queryset
    ensures value && viewer.Authenticated? ==> forall x :: x in r <==> x in queryset && UserRecipe(viewer.id, x) in favorites
    ensures multiset(r) <= multiset(queryset)
  {
    if value && viewer.Authenticated? then Marked(queryset, favorites, viewer.id) else queryset
  }

  /** `RecipeFilter.get_is_in_shopping_cart`: the same over the cart. */
  function FilterIsInShoppingCart(queryset: seq<RecipeId>, cart: set<UserRecipe>, viewer: Viewer, value: bool): (r: seq<RecipeId>)
    ensures !(value && viewer.Authenticated?) ==> r == queryset
    ensures value && viewer.Authenticated? ==> forall x :: x in r <==> x in queryset && UserRecipe(viewer.id, x) in cart
    ensures multiset(r) <= multiset(queryset)
  {
    if value && viewer.Authenticated? then Marked(queryset, cart, viewer.id) else queryset
  }

  /** The recipe list, newest first, stays newest first under both
      filters. */
  lemma FilteredListOrdered(ids: set<RecipeId>, favorites: set<UserRecipe>, cart: set<UserRecipe>, viewer: Viewer,
                            favorited: bool, inCart: bool)
    ensures Descending(FilterIsInShoppingCart(FilterIsFavorited(RecipeOrdering(ids), favorites, viewer, favorited), cart, viewer, inCart))
  {
    var all := RecipeOrdering(ids);
    var f := FilterIsFavorited(all, favorites, viewer, favorited);
    if favorited && viewer.Authenticated? {
      MarkedKeepsOrder(all, favorites, viewer.id);
    }
    if inCart && viewer.Authenticated? {
      MarkedKeepsOrder(f, cart, viewer.id);
    }
  }

  /** The two filters commute: applying both keeps the recipes that are
      favourited and in the cart, whichever runs first. */
  lemma {:induction false} FiltersCommute(queryset: seq<RecipeId>, favorites: set<UserRecipe>, cart: set<UserRecipe>, user: UserId)
    ensures Marked(Marked(queryset, favorites, user), cart, user) == Marked(Marked(queryset, cart, user), favorites, user)
  {
    if queryset != [] {
      FiltersCommute(queryset[1..], favorites, cart, user);
      var x := queryset[0];
      var f := Marked(queryset[1..], favorites, user);
      var c := Marked(queryset[1..], cart, user);
      if UserRecipe(user, x) in favorites {
        assert ([x] + f)[1..] == f;
      }
      if UserRecipe(user, x) in cart {
        assert ([x] + c)[1..] == c;
      }
    }
  }
}
