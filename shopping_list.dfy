/** The shopping list: the junction rows of every recipe in a user's cart,
    grouped by (ingredient name, measurement unit), amounts summed, groups
    ordered by name, rendered as text. The query is modelled by an explicit
    fold whose result is proved to be the unique sorted grouping with the
    right totals. */
module ShoppingList {
  import opened Common
  import opened RecipeModels
  import Text

  /** A group key: (ingredient name, measurement unit). */
  type Key = (string, string)

  /** One line of the list: a group and the sum of its amounts. */
  datatype Line = Line(name: string, unit: string, total: nat)

  function KeyOf(l: Line): Key
  {
    (l.name, l.unit)
  }

  /** The order of the lines: by name, as the query asks, and by unit among
      equal names. */
  predicate KeyLess(a: Key, b: Key)
  {
    Text.Less(a.0, b.0) || (a.0 == b.0 && Text.Less(a.1, b.1))
  }

  lemma KeyLessIrreflexive(a: Key)
    ensures !KeyLess(a, a)
  {
    Text.LessIrreflexive(a.0);
    Text.LessIrreflexive(a.1);
  }

  lemma KeyLessTransitive(a: Key, b: Key, c: Key)
    requires KeyLess(a, b) && KeyLess(b, c)
    ensures KeyLess(a, c)
  {
    if Text.Less(a.0, b.0) && Text.Less(b.0, c.0) {
      Text.LessTransitive(a.0, b.0, c.0);
    } else if a.0 == b.0 && b.0 == c.0 {
      Text.LessTransitive(a.1, b.1, c.1);
    }
  }

  lemma KeyLessTotal(a: Key, b: Key)
    requires a != b
    ensures KeyLess(a, b) || KeyLess(b, a)
  {
    if a.0 != b.0 {
      Text.LessTotal(a.0, b.0);
    } else {
      Text.LessTotal(a.1, b.1);
    }
  }

  lemma KeyLessAsymmetric(a: Key, b: Key)
    requires KeyLess(a, b)
    ensures !KeyLess(b, a)
  {
    if KeyLess(b, a) {
      KeyLessTransitive(a, b, a);
      KeyLessIrreflexive(a);
    }
  }

  /** Lines in strictly increasing key order: sorted, and no key twice. */
  predicate StrictlySorted(ls: seq<Line>)
  {
    forall i, j :: 0 <= i < j < |ls| ==> KeyLess(KeyOf(ls[i]), KeyOf(ls[j]))
  }

  /** The keys that have a line. */
  function Keys(ls: seq<Line>): set<Key>
  {
    if ls == [] then {} else {KeyOf(ls[0])} + Keys(ls[1..])
  }

  /** The total on the first line with key `k`, or 0 when there is none. */
  function TotalOf(ls: seq<Line>, k: Key): (r: nat)
    ensures k !in Keys(ls) ==> r == 0
  {
    if ls == [] then 0
    else if KeyOf(ls[0]) == k then ls[0].total
    else TotalOf(ls[1..], k)
  }

  lemma {:induction false} KeysMeans(ls: seq<Line>, k: Key)
    ensures k in Keys(ls) <==> exists i :: 0 <= i < |ls| && KeyOf(ls[i]) == k
    decreases |ls|
  {
    if ls != [] {
      KeysMeans(ls[1..], k);
      if k in Keys(ls[1..]) {
        var i :| 0 <= i < |ls[1..]| && KeyOf(ls[1..][i]) == k;
        assert KeyOf(ls[i + 1]) == k;
      }
      if exists i :: 0 <= i < |ls| && KeyOf(ls[i]) == k {
        var i :| 0 <= i < |ls| && KeyOf(ls[i]) == k;
        if i > 0 {
          assert KeyOf(ls[1..][i - 1]) == k;
        }
      }
    }
  }

  lemma SortedTail(ls: seq<Line>)
    requires ls != [] && StrictlySorted(ls)
    ensures StrictlySorted(ls[1..])
  {
    forall i, j | 0 <= i < j < |ls[1..]| ensures KeyLess(KeyOf(ls[1..][i]), KeyOf(ls[1..][j])) {
      assert ls[1..][i] == ls[i + 1] && ls[1..][j] == ls[j + 1];
    }
  }

  /** In a sorted list the head's key is below every key of the tail. */
  lemma HeadLeast(ls: seq<Line>, k: Key)
    requires ls != [] && StrictlySorted(ls) && k in Keys(ls[1..])
    ensures KeyLess(KeyOf(ls[0]), k)
  {
    KeysMeans(ls[1..], k);
    var i :| 0 <= i < |ls[1..]| && KeyOf(ls[1..][i]) == k;
    assert ls[1..][i] == ls[i + 1];
  }

  lemma HeadNotInTail(ls: seq<Line>)
    requires ls != [] && StrictlySorted(ls)
    ensures KeyOf(ls[0]) !in Keys(ls[1..])
  {
    if KeyOf(ls[0]) in Keys(ls[1..]) {
      HeadLeast(ls, KeyOf(ls[0]));
      KeyLessIrreflexive(KeyOf(ls[0]));
    }
  }

  lemma BelowHeadNotIn(ls: seq<Line>, k: Key)
    requires ls != [] && StrictlySorted(ls) && KeyLess(k, KeyOf(ls[0]))
    ensures k !in Keys(ls)
  {
    if k in Keys(ls) {
      KeyLessIrreflexive(k);
      assert k in Keys(ls[1..]);
      HeadLeast(ls, k);
      KeyLessAsymmetric(k, KeyOf(ls[0]));
    }
  }

  /** In a sorted list the total of a line's key is that line's total. */
  lemma {:induction false} TotalOfAt(ls: seq<Line>, i: nat)
    requires StrictlySorted(ls) && i < |ls|
    ensures TotalOf(ls, KeyOf(ls[i])) == ls[i].total
    decreases i
  {
    if i > 0 {
      if KeyOf(ls[0]) == KeyOf(ls[i]) {
        KeyLessIrreflexive(KeyOf(ls[0]));
      }
      SortedTail(ls);
      assert ls[1..][i - 1] == ls[i];
      TotalOfAt(ls[1..], i - 1);
    }
  }

  /** Adds `amount` to the line of key `k`, inserting the line in order when
      it is missing. */
  function Merge(ls: seq<Line>, k: Key, amount: nat): (r: seq<Line>)
    ensures |ls| <= |r| <= |ls| + 1
  {
    if ls == [] then [Line(k.0, k.1, amount)]
    else if KeyOf(ls[0]) == k then [ls[0].(total := ls[0].total + amount)] + ls[1..]
    else if KeyLess(k, KeyOf(ls[0])) then [Line(k.0, k.1, amount)] + ls
    else [ls[0]] + Merge(ls[1..], k, amount)
  }

  lemma {:induction false} MergeCorrect(ls: seq<Line>, k: Key, amount: nat)
    requires StrictlySorted(ls)
    ensures StrictlySorted(Merge(ls, k, amount))
    ensures Keys(Merge(ls, k, amount)) == Keys(ls) + {k}
    ensures forall k' :: TotalOf(Merge(ls, k, amount), k') == TotalOf(ls, k') + (if k' == k then amount else 0)
    decreases |ls|
  {
    var m := Merge(ls, k, amount);
    var added := Line(k.0, k.1, amount);
    assert KeyOf(added) == k;
    if ls == [] {
      assert m == [added] && m[1..] == [];
    } else if KeyOf(ls[0]) == k {
      assert m[1..] == ls[1..];
      assert forall i :: 0 <= i < |m| ==> KeyOf(m[i]) == KeyOf(ls[i]);
    } else if KeyLess(k, KeyOf(ls[0])) {
      assert m[1..] == ls;
      forall j | 0 < j < |m| ensures KeyLess(k, KeyOf(m[j])) {
        assert m[j] == ls[j - 1];
        if j > 1 {
          KeyLessTransitive(k, KeyOf(ls[0]), KeyOf(ls[j - 1]));
        }
      }
      BelowHeadNotIn(ls, k);
    } else {
      KeyLessTotal(k, KeyOf(ls[0]));
      SortedTail(ls);
      var rest := Merge(ls[1..], k, amount);
      MergeCorrect(ls[1..], k, amount);
      assert m[0] == ls[0] && m[1..] == rest;
      forall j | 0 < j < |m| ensures KeyLess(KeyOf(m[0]), KeyOf(m[j])) {
        assert m[j] == rest[j - 1];
        KeysMeans(rest, KeyOf(rest[j - 1]));
        if KeyOf(rest[j - 1]) != k {
          HeadLeast(ls, KeyOf(rest[j - 1]));
        }
      }
      forall i, j | 0 <= i < j < |m| ensures KeyLess(KeyOf(m[i]), KeyOf(m[j])) {
        if i > 0 {
          assert m[i] == rest[i - 1] && m[j] == rest[j - 1];
        }
      }
    }
  }

  /** A row enters the list when its recipe is in the basket; the join with
      Ingredient drops a row whose ingredient is missing. */
  predicate Contributes(row: IngredientRecipe, ingredients: map<IngredientId, Ingredient>, basket: set<RecipeId>)
  {
    row.recipe in basket && row.ingredient in ingredients
  }

  function RowKeyOf(row: IngredientRecipe, ingredients: map<IngredientId, Ingredient>): Key
    requires row.ingredient in ingredients
  {
    (ingredients[row.ingredient].name, ingredients[row.ingredient].measurementUnit)
  }

  /** Some contributing row has key `k`: the group exists. */
  predicate Listed(rows: seq<IngredientRecipe>, ingredients: map<IngredientId, Ingredient>, basket: set<RecipeId>, k: Key)
  {
    exists row :: row in rows && Contributes(row, ingredients, basket) && RowKeyOf(row, ingredients) == k
  }

  /** What one row adds to the group of key `k`. */
  function Share(row: IngredientRecipe, ingredients: map<IngredientId, Ingredient>, basket: set<RecipeId>, k: Key): nat
  {
    if Contributes(row, ingredients, basket) && RowKeyOf(row, ingredients) == k then row.amount else 0
  }

  /** `Sum("amount")` over the group of key `k`. */
  function Total(rows: seq<IngredientRecipe>, ingredients: map<IngredientId, Ingredient>, basket: set<RecipeId>, k: Key): nat
  {
    if rows == [] then 0 else Share(rows[0], ingredients, basket, k) + Total(rows[1..], ingredients, basket, k)
  }

  /** The grouped, summed, ordered query result. */
  function Groups(rows: seq<IngredientRecipe>, ingredients: map<IngredientId, Ingredient>, basket: set<RecipeId>): (r: seq<Line>)
    ensures |r| <= |rows|
  {
    if rows == [] then []
    else
      var rest := Groups(rows[1..], ingredients, basket);
      if Contributes(rows[0], ingredients, basket) then Merge(rest, RowKeyOf(rows[0], ingredients), rows[0].amount)
      else rest
  }

  lemma {:induction false} GroupsCorrect(rows: seq<IngredientRecipe>, ingredients: map<IngredientId, Ingredient>, basket: set<RecipeId>)
    ensures StrictlySorted(Groups(rows, ingredients, basket))
    ensures forall k :: k in Keys(Groups(rows, ingredients, basket)) <==> Listed(rows, ingredients, basket, k)
    ensures forall k :: TotalOf(Groups(rows, ingredients, basket), k) == Total(rows, ingredients, basket, k)
    decreases |rows|
  {
    if rows != [] {
      var g := Groups(rows, ingredients, basket);
      var rest := Groups(rows[1..], ingredients, basket);
      GroupsCorrect(rows[1..], ingredients, basket);
      if Contributes(rows[0], ingredients, basket) {
        MergeCorrect(rest, RowKeyOf(rows[0], ingredients), rows[0].amount);
      }
      forall k ensures k in Keys(g) <==> Listed(rows, ingredients, basket, k) {
        if Listed(rows[1..], ingredients, basket, k) {
          var row :| row in rows[1..] && Contributes(row, ingredients, basket) && RowKeyOf(row, ingredients) == k;
          assert row in rows;
        }
        if Listed(rows, ingredients, basket, k) {
          var row :| row in rows && Contributes(row, ingredients, basket) && RowKeyOf(row, ingredients) == k;
          if row != rows[0] {
            assert row in rows[1..];
          }
        }
        if Contributes(rows[0], ingredients, basket) && RowKeyOf(rows[0], ingredients) == k {
          assert rows[0] in rows;
        }
      }
    }
  }

  /** The lines are in strictly increasing (name, unit) order, there is a
      line exactly for each (name, unit) some cart row has, and each line's
      total is the sum of the amounts of the rows in its group. */
  lemma GroupsSpec(rows: seq<IngredientRecipe>, ingredients: map<IngredientId, Ingredient>, basket: set<RecipeId>)
    ensures var g := Groups(rows, ingredients, basket);
      && (forall i, j :: 0 <= i < j < |g| ==> KeyLess(KeyOf(g[i]), KeyOf(g[j])))
      && (forall k :: Listed(rows, ingredients, basket, k) <==> exists i :: 0 <= i < |g| && KeyOf(g[i]) == k)
      && (forall i :: 0 <= i < |g| ==> g[i].total == Total(rows, ingredients, basket, KeyOf(g[i])))
  {
    var g := Groups(rows, ingredients, basket);
    GroupsCorrect(rows, ingredients, basket);
    forall k {
      KeysMeans(g, k);
    }
    forall i | 0 <= i < |g| ensures g[i].total == Total(rows, ingredients, basket, KeyOf(g[i])) {
      TotalOfAt(g, i);
    }
  }

  /** No (name, unit) has two lines. */
  lemma OneLinePerKey(rows: seq<IngredientRecipe>, ingredients: map<IngredientId, Ingredient>, basket: set<RecipeId>)
    ensures var g := Groups(rows, ingredients, basket);
      forall i, j :: 0 <= i < |g| && 0 <= j < |g| && i != j ==> KeyOf(g[i]) != KeyOf(g[j])
  {
    var g := Groups(rows, ingredients, basket);
    GroupsCorrect(rows, ingredients, basket);
    forall i, j | 0 <= i < |g| && 0 <= j < |g| && i != j ensures KeyOf(g[i]) != KeyOf(g[j]) {
      KeyLessIrreflexive(KeyOf(g[i]));
    }
  }

  /** The lines come in nondecreasing order of ingredient name. */
  lemma NamesNondecreasing(rows: seq<IngredientRecipe>, ingredients: map<IngredientId, Ingredient>, basket: set<RecipeId>)
    ensures var g := Groups(rows, ingredients, basket);
      forall i, j :: 0 <= i < j < |g| ==> g[i].name == g[j].name || Text.Less(g[i].name, g[j].name)
  {
    GroupsCorrect(rows, ingredients, basket);
  }

  /** A strictly sorted list of lines is determined by its keys and totals. */
  lemma {:induction false} SortedLinesDetermined(a: seq<Line>, b: seq<Line>)
    requires StrictlySorted(a) && StrictlySorted(b)
    requires Keys(a) == Keys(b)
    requires forall k :: TotalOf(a, k) == TotalOf(b, k)
    ensures a == b
    decreases |a|
  {
    if a != [] {
      assert b != [] by {
        assert KeyOf(a[0]) in Keys(a);
      }
      var ka, kb := KeyOf(a[0]), KeyOf(b[0]);
      if ka != kb {
        assert ka in Keys(b[1..]) && kb in Keys(a[1..]);
        HeadLeast(b, ka);
        HeadLeast(a, kb);
        KeyLessAsymmetric(ka, kb);
      }
      HeadNotInTail(a);
      HeadNotInTail(b);
      SortedTail(a);
      SortedTail(b);
      forall k ensures TotalOf(a[1..], k) == TotalOf(b[1..], k) {
        if k == ka {
          assert TotalOf(a[1..], k) == 0 && TotalOf(b[1..], k) == 0;
        } else {
          assert TotalOf(a, k) == TotalOf(a[1..], k) && TotalOf(b, k) == TotalOf(b[1..], k);
        }
      }
      assert Keys(a[1..]) == Keys(a) - {ka} && Keys(b[1..]) == Keys(b) - {kb};
      SortedLinesDetermined(a[1..], b[1..]);
      assert a[0].total == TotalOf(a, ka) == TotalOf(b, kb) == b[0].total;
      assert a[0] == b[0];
      assert a == [a[0]] + a[1..] && b == [b[0]] + b[1..];
    }
  }

  lemma {:induction false} TotalConcat(a: seq<IngredientRecipe>, b: seq<IngredientRecipe>, ingredients: map<IngredientId, Ingredient>, basket: set<RecipeId>, k: Key)
    ensures Total(a + b, ingredients, basket, k) == Total(a, ingredients, basket, k) + Total(b, ingredients, basket, k)
    decreases |a|
  {
    if a == [] {
      assert a + b == b;
    } else {
      assert (a + b)[0] == a[0] && (a + b)[1..] == a[1..] + b;
      TotalConcat(a[1..], b, ingredients, basket, k);
    }
  }

  /** A group's total depends only on the multiset of rows. */
  lemma {:induction false} TotalPermutation(a: seq<IngredientRecipe>, b: seq<IngredientRecipe>, ingredients: map<IngredientId, Ingredient>, basket: set<RecipeId>, k: Key)
    requires multiset(a) == multiset(b)
    ensures Total(a, ingredients, basket, k) == Total(b, ingredients, basket, k)
    decreases |a|
  {
    if a == [] {
      assert |b| == |multiset(b)| == 0;
    } else {
      assert a[0] in multiset(b);
      var i :| 0 <= i < |b| && b[i] == a[0];
      RemoveKeepsRest(a, b, i);
      TotalPermutation(a[1..], b[..i] + b[i + 1..], ingredients, basket, k);
      TotalRemove(b, i, ingredients, basket, k);
    }
  }

  lemma RemoveKeepsRest(a: seq<IngredientRecipe>, b: seq<IngredientRecipe>, i: nat)
    requires a != [] && i < |b| && b[i] == a[0] && multiset(a) == multiset(b)
    ensures multiset(a[1..]) == multiset(b[..i] + b[i + 1..])
  {
    assert a == [a[0]] + a[1..];
    assert b == b[..i] + [b[i]] + b[i + 1..];
    assert multiset(b) == multiset(b[..i]) + multiset{b[i]} + multiset(b[i + 1..]);
    assert multiset(a[1..]) == multiset(a) - multiset{a[0]};
  }

  lemma TotalRemove(b: seq<IngredientRecipe>, i: nat, ingredients: map<IngredientId, Ingredient>, basket: set<RecipeId>, k: Key)
    requires i < |b|
    ensures Total(b, ingredients, basket, k) == Share(b[i], ingredients, basket, k) + Total(b[..i] + b[i + 1..], ingredients, basket, k)
  {
    assert b == (b[..i] + [b[i]]) + b[i + 1..];
    TotalConcat(b[..i] + [b[i]], b[i + 1..], ingredients, basket, k);
    TotalConcat(b[..i], [b[i]], ingredients, basket, k);
    TotalConcat(b[..i], b[i + 1..], ingredients, basket, k);
    assert [b[i]][1..] == [];
  }

  /** The list does not depend on the order of the rows in the table. */
  lemma RowOrderIrrelevant(a: seq<IngredientRecipe>, b: seq<IngredientRecipe>, ingredients: map<IngredientId, Ingredient>, basket: set<RecipeId>)
    requires multiset(a) == multiset(b)
    ensures Groups(a, ingredients, basket) == Groups(b, ingredients, basket)
  {
    GroupsCorrect(a, ingredients, basket);
    GroupsCorrect(b, ingredients, basket);
    forall k ensures TotalOf(Groups(a, ingredients, basket), k) == TotalOf(Groups(b, ingredients, basket), k) {
      TotalPermutation(a, b, ingredients, basket, k);
    }
    forall k ensures Listed(a, ingredients, basket, k) == Listed(b, ingredients, basket, k) {
      assert forall row :: row in a <==> row in multiset(a);
      assert forall row :: row in b <==> row in multiset(b);
    }
    SortedLinesDetermined(Groups(a, ingredients, basket), Groups(b, ingredients, basket));
  }

  /** The recipes in one user's cart. */
  function CartRecipes(cart: set<UserRecipe>, user: UserId): (r: set<RecipeId>)
    ensures forall x :: x in r <==> UserRecipe(user, x) in cart
  {
    set p | p in cart && p.user == user :: p.recipe
  }

  // Rendering.

  const Header: string := "Список покупок:\n\n"

  /** `f'{name} - {total} {unit}'`. */
  function FormatLine(l: Line): string
  {
    l.name + " - " + Text.NatToString(l.total) + " " + l.unit
  }

  function FormatAll(ls: seq<Line>): (r: seq<string>)
    ensures |r| == |ls| && forall i :: 0 <= i < |ls| ==> r[i] == FormatLine(ls[i])
  {
    if ls == [] then [] else [FormatLine(ls[0])] + FormatAll(ls[1..])
  }

  /** Python's `'\n'.join(parts)`. */
  function JoinLines(parts: seq<string>): string
  {
    if |parts| == 0 then ""
    else if |parts| == 1 then parts[0]
    else parts[0] + "\n" + JoinLines(parts[1..])
  }

  /** The whole file: the header, then the lines joined by newlines. */
  function Render(ls: seq<Line>): (r: string)
    ensures |r| >= |Header| && r[..|Header|] == Header
  {
    Header + JoinLines(FormatAll(ls))
  }

  /** Index of the first newline (or the length when there is none). */
  function NewlineAt(s: string): (i: nat)
    ensures i <= |s| && (i < |s| <==> '\n' in s)
    ensures i < |s| ==> s[i] == '\n'
    ensures '\n' !in s[..i]
  {
    if s == [] then 0
    else if s[0] == '\n' then 0
    else
      var j := NewlineAt(s[1..]);
      assert s[..j + 1] == [s[0]] + s[1..][..j];
      assert '\n' in s[1..] ==> '\n' in s;
      assert '\n' in s ==> '\n' in s[1..] by {
        if '\n' in s {
          var k :| 0 <= k < |s| && s[k] == '\n';
          assert s[1..][k - 1] == '\n';
        }
      }
      1 + j
  }

  /** Python's `s.split('\n')`. */
  function SplitLines(s: string): (r: seq<string>)
    ensures |r| >= 1
    decreases |s|
  {
    var i := NewlineAt(s);
    if i == |s| then [s] else [s[..i]] + SplitLines(s[i + 1..])
  }

  lemma NewlineAfter(p: string, q: string)
    requires '\n' !in p
    ensures NewlineAt(p + "\n" + q) == |p|
  {
    var s := p + "\n" + q;
    assert s[|p|] == '\n' && s[..|p|] == p;
  }

  /** Splitting at the first newline. */
  lemma SplitCons(p: string, q: string)
    requires '\n' !in p
    ensures SplitLines(p + "\n" + q) == [p] + SplitLines(q)
  {
    var s := p + "\n" + q;
    NewlineAfter(p, q);
    assert s[..|p|] == p && s[|p| + 1..] == q;
  }

  /** Splitting the joined lines gives them back, when none holds a newline. */
  lemma {:induction false} SplitJoin(parts: seq<string>)
    requires |parts| >= 1
    requires forall i :: 0 <= i < |parts| ==> '\n' !in parts[i]
    ensures SplitLines(JoinLines(parts)) == parts
    decreases |parts|
  {
    if |parts| == 1 {
      assert NewlineAt(parts[0]) == |parts[0]|;
    } else {
      var rest := parts[1..];
      assert forall i :: 0 <= i < |rest| ==> rest[i] == parts[i + 1];
      SplitJoin(rest);
      assert JoinLines(parts) == parts[0] + "\n" + JoinLines(rest);
      SplitCons(parts[0], JoinLines(rest));
      assert parts == [parts[0]] + rest;
    }
  }

  lemma DigitsHaveNoNewline(n: nat)
    ensures '\n' !in Text.NatToString(n)
  {
    var s := Text.NatToString(n);
    assert forall i :: 0 <= i < |s| ==> s[i] != '\n';
  }

  /** Concatenating newline-free texts gives a newline-free text. */
  lemma NoNewlineConcat(a: string, b: string)
    requires '\n' !in a && '\n' !in b
    ensures '\n' !in a + b
  {
    forall i | 0 <= i < |a + b| ensures (a + b)[i] != '\n' {
      if i < |a| {
        assert (a + b)[i] == a[i];
      } else {
        assert (a + b)[i] == b[i - |a|];
      }
    }
  }

  /** A formatted line holds a newline only when its name or unit does. */
  lemma FormatLineNoNewline(l: Line)
    requires '\n' !in l.name && '\n' !in l.unit
    ensures '\n' !in FormatLine(l)
  {
    DigitsHaveNoNewline(l.total);
    NoNewlineConcat(l.name, " - ");
    NoNewlineConcat(l.name + " - ", Text.NatToString(l.total));
    NoNewlineConcat(l.name + " - " + Text.NatToString(l.total), " ");
    NoNewlineConcat(l.name + " - " + Text.NatToString(l.total) + " ", l.unit);
  }

  /** The file is the header followed by the joined lines. */
  lemma RenderParts(ls: seq<Line>)
    ensures Render(ls)[..|Header|] == Header
    ensures Render(ls)[|Header|..] == JoinLines(FormatAll(ls))
  {
  }

  /** Reading the file back: after the header, splitting on newlines gives
      the formatted lines, one per group, when no name or unit holds a
      newline. */
  lemma RenderLines(ls: seq<Line>)
    requires |ls| >= 1
    requires forall i :: 0 <= i < |ls| ==> '\n' !in ls[i].name && '\n' !in ls[i].unit
    ensures Render(ls)[..|Header|] == Header
    ensures SplitLines(Render(ls)[|Header|..]) == FormatAll(ls)
  {
    var parts := FormatAll(ls);
    forall i | 0 <= i < |parts| ensures '\n' !in parts[i] {
      FormatLineNoNewline(ls[i]);
    }
    SplitJoin(parts);
    RenderParts(ls);
  }
}
