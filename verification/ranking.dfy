/** `_rank_recipes` (meal_planner/service.py): score every recipe against the
    preferences, sort by score from highest to lowest keeping the original
    order among equal scores, then shuffle each run of equal scores. */
module Ranking {
  import opened Options
  import opened Recipes
  import opened Preferences
  import opened Shuffling

  /** How many of the newest history entries count as recently used. */
  const RecentWindow: nat := 10

  /** The ids of the newest ten history entries that carry one. */
  function RecentIds(h: seq<Meal>): (ids: seq<int>)
    ensures forall id :: id in ids <==> WithId(id) in h
  {
    if |h| == 0 then []
    else (if h[0].WithId? then [h[0].id] else []) + RecentIds(h[1..])
  }

  predicate RecentlyUsed(p: Prefs, r: Recipe) {
    r.id in RecentIds(Last(p.mealHistory, RecentWindow))
  }

  predicate FavoriteCuisine(p: Prefs, r: Recipe) {
    r.cuisineType.Some? && r.cuisineType.value in p.favoriteCuisines
  }

  predicate FavoriteRecipe(p: Prefs, r: Recipe) {
    r.id in p.favoriteRecipes
  }

  /** +2 for a favourite cuisine, +3 for a favourite recipe, -1 when it is
      among the ten newest meals of the history. */
  function Score(p: Prefs, r: Recipe): int {
    (if FavoriteCuisine(p, r) then 2 else 0)
    + (if FavoriteRecipe(p, r) then 3 else 0)
    - (if RecentlyUsed(p, r) then 1 else 0)
  }

  /** What a score tells about a recipe: it lies in -1..5, a favourite
      recipe scores at least 2, a recipe with neither favourite mark at most
      0, and the extremes are reached exactly by the all-yes and all-no
      combinations. */
  lemma ScoreRange(p: Prefs, r: Recipe)
    ensures -1 <= Score(p, r) <= 5
    ensures FavoriteRecipe(p, r) ==> Score(p, r) >= 2
    ensures !FavoriteRecipe(p, r) && !FavoriteCuisine(p, r) ==> Score(p, r) <= 0
    ensures Score(p, r) == 5 <==> FavoriteRecipe(p, r) && FavoriteCuisine(p, r) && !RecentlyUsed(p, r)
    ensures Score(p, r) == -1 <==> !FavoriteRecipe(p, r) && !FavoriteCuisine(p, r) && RecentlyUsed(p, r)
  {
  }

  /** A recipe paired with its score, the tuples `_rank_recipes` sorts. */
  datatype Scored = Scored(recipe: Recipe, score: int)

  /** `ranked` before the sort: every recipe with its score, in input order. */
  function ScoreAll(p: Prefs, xs: seq<Recipe>): (ps: seq<Scored>)
    ensures |ps| == |xs|
    ensures forall k :: 0 <= k < |xs| ==> ps[k] == Scored(xs[k], Score(p, xs[k]))
  {
    if |xs| == 0 then [] else [Scored(xs[0], Score(p, xs[0]))] + ScoreAll(p, xs[1..])
  }

  /** The recipes of a scored list, in order. */
  function RecipesOf(ps: seq<Scored>): (rs: seq<Recipe>)
    ensures |rs| == |ps| && forall k :: 0 <= k < |ps| ==> rs[k] == ps[k].recipe
  {
    seq(|ps|, k requires 0 <= k < |ps| => ps[k].recipe)
  }

  /** Scores never increase from one entry to the next. */
  predicate NonIncreasing(ps: seq<Scored>) {
    forall k :: 0 < k < |ps| ==> ps[k - 1].score >= ps[k].score
  }

  /** Hence no later entry outscores an earlier one. */
  lemma {:induction false} NonIncreasingPairwise(ps: seq<Scored>, i: nat, j: nat)
    requires NonIncreasing(ps) && i <= j < |ps|
    ensures ps[i].score >= ps[j].score
    decreases j - i
  {
    if i < j {
      NonIncreasingPairwise(ps, i, j - 1);
    }
  }

  /** The entries of `ps` with score `s`, in order. */
  function WithScore(ps: seq<Scored>, s: int): (r: seq<Scored>)
    ensures forall x :: x in r ==> x in ps && x.score == s
  {
    if |ps| == 0 then []
    else (if ps[0].score == s then [ps[0]] else []) + WithScore(ps[1..], s)
  }

  /** `WithScore` distributes over concatenation. */
  lemma {:induction false} WithScoreAppend(a: seq<Scored>, b: seq<Scored>, s: int)
    ensures WithScore(a + b, s) == WithScore(a, s) + WithScore(b, s)
    decreases |a|
  {
    if |a| > 0 {
      assert (a + b)[0] == a[0];
      assert (a + b)[1..] == a[1..] + b;
      WithScoreAppend(a[1..], b, s);
    } else {
      assert a + b == b;
    }
  }

  /** Insert `x` into a sorted list before the first entry scoring no more
      than it, so it precedes the equal-scoring entries that came after it. */
  function Insert(x: Scored, ys: seq<Scored>): (r: seq<Scored>)
    requires NonIncreasing(ys)
    ensures |r| == |ys| + 1 && multiset(r) == multiset(ys) + multiset{x}
    ensures NonIncreasing(r)
    ensures r[0] == x || (|ys| > 0 && r[0] == ys[0])
    decreases |ys|
  {
    if |ys| == 0 || ys[0].score <= x.score then
      [x] + ys
    else
      var tail := Insert(x, ys[1..]);
      assert ys == [ys[0]] + ys[1..];
      [ys[0]] + tail
  }

  lemma WithScoreCons(y: Scored, ys: seq<Scored>, s: int)
    ensures WithScore([y] + ys, s) == (if y.score == s then [y] else []) + WithScore(ys, s)
  {
    assert ([y] + ys)[0] == y;
    assert ([y] + ys)[1..] == ys;
  }

  /** The inserted entry lands in front of the entries of its own score and
      the other scores keep their entries. */
  lemma {:induction false} InsertWithScore(x: Scored, ys: seq<Scored>, s: int)
    requires NonIncreasing(ys)
    ensures WithScore(Insert(x, ys), s) == if x.score == s then [x] + WithScore(ys, s) else WithScore(ys, s)
    decreases |ys|
  {
    if |ys| == 0 || ys[0].score <= x.score {
      WithScoreCons(x, ys, s);
    } else {
      InsertSkips(x, ys);
      var t := Insert(x, ys[1..]);
      InsertWithScore(x, ys[1..], s);
      WithScoreCons(ys[0], t, s);
      WithScoreCons(ys[0], ys[1..], s);
      assert [ys[0]] + ys[1..] == ys;
      if x.score == s {
        assert ys[0].score != s;
        assert WithScore(Insert(x, ys), s) == WithScore(t, s);
        assert WithScore(ys, s) == WithScore(ys[1..], s);
      }
    }
  }

  /** An entry scoring below the head is inserted into the tail. */
  lemma InsertSkips(x: Scored, ys: seq<Scored>)
    requires NonIncreasing(ys) && |ys| > 0 && ys[0].score > x.score
    ensures NonIncreasing(ys[1..])
    ensures Insert(x, ys) == [ys[0]] + Insert(x, ys[1..])
  {
    assert NonIncreasing(ys[1..]);
  }

  /** Python's stable `sort(key=lambda x: x[1], reverse=True)`. */
  function SortByScore(ps: seq<Scored>): (r: seq<Scored>)
    ensures NonIncreasing(r)
    ensures |r| == |ps| && multiset(r) == multiset(ps)
    decreases |ps|
  {
    if |ps| == 0 then []
    else
      assert ps == [ps[0]] + ps[1..];
      Insert(ps[0], SortByScore(ps[1..]))
  }

  /** The sort is stable: the entries of each score appear in input order. */
  lemma {:induction false} SortIsStable(ps: seq<Scored>, s: int)
    ensures WithScore(SortByScore(ps), s) == WithScore(ps, s)
    decreases |ps|
  {
    if |ps| > 0 {
      SortIsStable(ps[1..], s);
      InsertWithScore(ps[0], SortByScore(ps[1..]), s);
      WithScoreAppend([ps[0]], ps[1..], s);
      assert [ps[0]] + ps[1..] == ps;
    }
  }

  /** The length of the leading run of entries scoring `s`. */
  function LeadRun(ys: seq<Scored>, s: int): (n: nat)
    ensures n <= |ys|
    ensures forall k :: 0 <= k < n ==> ys[k].score == s
    ensures n < |ys| ==> ys[n].score != s
  {
    if |ys| == 0 || ys[0].score != s then 0 else 1 + LeadRun(ys[1..], s)
  }

  /** The draws for the `g`-th group's shuffle. */
  function GroupCoins(shuffles: seq<seq<nat>>, g: nat): seq<nat> {
    if g < |shuffles| then shuffles[g] else []
  }

  /** Shuffling a run whose entries all score `s` gives entries scoring `s`. */
  lemma ShuffleKeepsScore(group: seq<Scored>, coins: seq<nat>, s: int)
    requires forall k :: 0 <= k < |group| ==> group[k].score == s
    ensures |Shuffle(group, coins)| == |group|
    ensures forall k :: 0 <= k < |group| ==> Shuffle(group, coins)[k].score == s
  {
    ShufflePermutes(group, coins);
    var sh := Shuffle(group, coins);
    forall k | 0 <= k < |group|
      ensures sh[k].score == s
    {
      assert sh[k] in multiset(sh);
      assert sh[k] in multiset(group);
      var m :| 0 <= m < |group| && group[m] == sh[k];
    }
  }

  /** The second half of `_rank_recipes`: cut the sorted list into runs of
      equal score and shuffle each run in place, run `g` with draws
      `shuffles[g]`. */
  function ShuffleGroups(ys: seq<Scored>, shuffles: seq<seq<nat>>): (r: seq<Scored>)
    ensures |r| == |ys| && multiset(r) == multiset(ys)
    decreases |ys|
  {
    if |ys| == 0 then []
    else
      var n := LeadRun(ys, ys[0].score);
      ShufflePermutes(ys[..n], GroupCoins(shuffles, 0));
      assert ys == ys[..n] + ys[n..];
      Shuffle(ys[..n], GroupCoins(shuffles, 0)) + ShuffleGroups(ys[n..], if |shuffles| == 0 then [] else shuffles[1..])
  }

  /** Only entries of equal score change places: every position keeps its score. */
  lemma {:induction false} ShuffleGroupsKeepsScores(ys: seq<Scored>, shuffles: seq<seq<nat>>)
    ensures forall k :: 0 <= k < |ys| ==> ShuffleGroups(ys, shuffles)[k].score == ys[k].score
    decreases |ys|
  {
    if |ys| > 0 {
      var s := ys[0].score;
      var n := LeadRun(ys, s);
      var group := Shuffle(ys[..n], GroupCoins(shuffles, 0));
      var tail := if |shuffles| == 0 then [] else shuffles[1..];
      var rest := ShuffleGroups(ys[n..], tail);
      ShuffleKeepsScore(ys[..n], GroupCoins(shuffles, 0), s);
      ShuffleGroupsKeepsScores(ys[n..], tail);
      var r := ShuffleGroups(ys, shuffles);
      assert r == group + rest;
      forall k | 0 <= k < |ys|
        ensures r[k].score == ys[k].score
      {
        if k < n {
          assert r[k] == group[k];
        } else {
          assert r[k] == rest[k - n];
          assert ys[n..][k - n] == ys[k];
        }
      }
    }
  }

  /** `_rank_recipes(recipes)`, the shuffles' draws as a parameter: the
      scored entries, sorted and group-shuffled. The recipes are `RecipesOf(r)`. */
  function RankScored(p: Prefs, xs: seq<Recipe>, shuffles: seq<seq<nat>>): (r: seq<Scored>)
    ensures |r| == |xs| && multiset(r) == multiset(ScoreAll(p, xs))
    ensures NonIncreasing(r)
    ensures forall k :: 0 <= k < |r| ==> r[k].score == Score(p, r[k].recipe)
    ensures forall k :: 0 <= k < |r| ==> r[k].score == SortByScore(ScoreAll(p, xs))[k].score
  {
    var sorted := SortByScore(ScoreAll(p, xs));
    ShuffleGroupsKeepsScores(sorted, shuffles);
    var r := ShuffleGroups(sorted, shuffles);
    SameScoresSameOrder(sorted, r);
    forall k | 0 <= k < |r|
      ensures r[k].score == Score(p, r[k].recipe)
    {
      assert r[k] in multiset(r);
      ScoredEntryIsScore(p, xs, r[k]);
    }
    r
  }

  /** Entries with the scores of a non-increasing list are non-increasing. */
  lemma SameScoresSameOrder(a: seq<Scored>, b: seq<Scored>)
    requires NonIncreasing(a) && |b| == |a|
    requires forall k :: 0 <= k < |a| ==> b[k].score == a[k].score
    ensures NonIncreasing(b)
  {
    forall k | 0 < k < |b|
      ensures b[k - 1].score >= b[k].score
    {
      assert a[k - 1].score >= a[k].score;
    }
  }

  /** An entry of `ScoreAll(p, xs)` carries its recipe's score. */
  lemma ScoredEntryIsScore(p: Prefs, xs: seq<Recipe>, e: Scored)
    requires e in multiset(ScoreAll(p, xs))
    ensures e.score == Score(p, e.recipe)
  {
    var m :| 0 <= m < |xs| && ScoreAll(p, xs)[m] == e;
  }

  lemma RecipesOfAppend(a: seq<Scored>, b: seq<Scored>)
    ensures RecipesOf(a + b) == RecipesOf(a) + RecipesOf(b)
  {
    assert forall k :: 0 <= k < |a| + |b| ==> RecipesOf(a + b)[k] == (RecipesOf(a) + RecipesOf(b))[k];
  }

  /** Rearranging scored entries rearranges their recipes alike. */
  lemma {:induction false} RecipesOfPermutation(a: seq<Scored>, b: seq<Scored>)
    requires multiset(a) == multiset(b)
    ensures multiset(RecipesOf(a)) == multiset(RecipesOf(b))
    decreases |a|
  {
    if |a| == 0 {
      assert |b| == |multiset(b)| == |multiset(a)| == 0;
      assert RecipesOf(a) == [] == RecipesOf(b);
    } else {
      var x := a[0];
      assert x in multiset(b);
      var k :| 0 <= k < |b| && b[k] == x;
      var a', b' := a[1..], b[..k] + b[k + 1..];
      RemoveOne(b, k);
      assert a == [x] + a';
      assert multiset(a') == multiset(a) - multiset{x};
      RecipesOfPermutation(a', b');
      ConsRecipes(x, a');
    }
  }

  lemma ConsRecipes(x: Scored, ps: seq<Scored>)
    ensures multiset(RecipesOf([x] + ps)) == multiset{x.recipe} + multiset(RecipesOf(ps))
  {
    RecipesOfAppend([x], ps);
    assert RecipesOf([x]) == [x.recipe];
  }

  /** Taking out the entry at `k` takes its recipe out of the recipes. */
  lemma RemoveOne(b: seq<Scored>, k: nat)
    requires k < |b|
    ensures multiset(b[..k] + b[k + 1..]) == multiset(b) - multiset{b[k]}
    ensures multiset(RecipesOf(b)) == multiset(RecipesOf(b[..k] + b[k + 1..])) + multiset{b[k].recipe}
  {
    var x := b[k];
    var front, back := b[..k], b[k + 1..];
    assert b[..k + 1] == front + [x];
    assert b == b[..k + 1] + back;
    assert multiset(b) == multiset(front) + multiset{x} + multiset(back);
    var rf, rb := RecipesOf(front), RecipesOf(back);
    RecipesOfAppend(front + [x], back);
    RecipesOfAppend(front, [x]);
    assert RecipesOf([x]) == [x.recipe];
    assert RecipesOf(b) == rf + [x.recipe] + rb;
    RecipesOfAppend(front, back);
    assert RecipesOf(front + back) == rf + rb;
    assert multiset(RecipesOf(b)) == multiset(rf) + multiset{x.recipe} + multiset(rb);
  }

  /** The recipes in ranked order. */
  function Rank(p: Prefs, xs: seq<Recipe>, shuffles: seq<seq<nat>>): (r: seq<Recipe>)
    ensures |r| == |xs| && multiset(r) == multiset(xs)
    ensures forall i, j :: 0 <= i < j < |r| ==> Score(p, r[i]) >= Score(p, r[j])
  {
    var ranked := RankScored(p, xs, shuffles);
    var r := RecipesOf(ranked);
    RecipesOfPermutation(ranked, ScoreAll(p, xs));
    assert RecipesOf(ScoreAll(p, xs)) == xs;
    forall i, j | 0 <= i < j < |r|
      ensures Score(p, r[i]) >= Score(p, r[j])
    {
      NonIncreasingPairwise(ranked, i, j);
    }
    r
  }

  /** The draws decide nothing but the order among equal scores: two
      rankings of the same recipes have the same score at every position. */
  lemma RankScoresIndependentOfDraws(p: Prefs, xs: seq<Recipe>, a: seq<seq<nat>>, b: seq<seq<nat>>)
    ensures forall k :: 0 <= k < |xs| ==> RankScored(p, xs, a)[k].score == RankScored(p, xs, b)[k].score
  {
  }

  /** The first ranked recipe scores at least as much as any input recipe. */
  lemma RankFirstIsBest(p: Prefs, xs: seq<Recipe>, shuffles: seq<seq<nat>>, x: Recipe)
    requires x in xs
    ensures |Rank(p, xs, shuffles)| > 0
    ensures Score(p, Rank(p, xs, shuffles)[0]) >= Score(p, x)
  {
    var r := Rank(p, xs, shuffles);
    assert x in multiset(r);
    var k :| 0 <= k < |r| && r[k] == x;
    if k > 0 {
      assert Score(p, r[0]) >= Score(p, r[k]);
    }
  }

  /** A favourite recipe is ranked before every recipe that is neither a
      favourite nor of a favourite cuisine, whatever the draws. */
  lemma FavoriteRanksBeforePlain(p: Prefs, xs: seq<Recipe>, shuffles: seq<seq<nat>>, i: nat, j: nat)
    requires i < |xs| && j < |xs|
    requires var r := Rank(p, xs, shuffles);
             FavoriteRecipe(p, r[i]) && !FavoriteRecipe(p, r[j]) && !FavoriteCuisine(p, r[j])
    ensures i < j
  {
    var r := Rank(p, xs, shuffles);
    ScoreRange(p, r[i]);
    ScoreRange(p, r[j]);
  }
}
