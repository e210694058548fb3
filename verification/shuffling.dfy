/** Python's `random.shuffle` and `random.sample` with the random numbers made
    explicit. Each entry of `coins` stands for one `randbelow(n)` draw and is
    reduced modulo `n`; a missing entry counts as 0. Which draws the generator
    produces is left open, so every statement here holds for all of them. */
module Shuffling {

  /** The draw `randbelow(n)` reads from the stream. */
  function Draw(coins: seq<nat>, n: nat): (j: nat)
    requires n > 0
    ensures j < n
  {
    if |coins| == 0 then 0 else coins[0] % n
  }

  function Swap<T>(xs: seq<T>, i: nat, j: nat): (ys: seq<T>)
    requires i < |xs| && j < |xs|
    ensures |ys| == |xs|
    ensures ys[i] == xs[j] && ys[j] == xs[i]
    ensures forall k :: 0 <= k < |xs| && k != i && k != j ==> ys[k] == xs[k]
  {
    xs[i := xs[j]][j := xs[i]]
  }

  /** A swap rearranges the list. */
  lemma SwapPermutes<T>(xs: seq<T>, i: nat, j: nat)
    requires i < |xs| && j < |xs|
    ensures multiset(Swap(xs, i, j)) == multiset(xs)
  {
  }

  /** `random.shuffle`: for i from the last position down to 1, swap position
      i with a position j <= i drawn uniformly; position i is then final. */
  function Shuffle<T>(xs: seq<T>, coins: seq<nat>): (ys: seq<T>)
    decreases |xs|
  {
    if |xs| <= 1 then xs
    else
      var i := |xs| - 1;
      var swapped := Swap(xs, i, Draw(coins, i + 1));
      Shuffle(swapped[..i], if |coins| == 0 then [] else coins[1..]) + [swapped[i]]
  }

  /** A shuffle is a permutation, whatever the draws. */
  lemma {:induction false} ShufflePermutes<T>(xs: seq<T>, coins: seq<nat>)
    ensures |Shuffle(xs, coins)| == |xs|
    ensures multiset(Shuffle(xs, coins)) == multiset(xs)
    decreases |xs|
  {
    if |xs| > 1 {
      var i := |xs| - 1;
      var swapped := Swap(xs, i, Draw(coins, i + 1));
      var tail := if |coins| == 0 then [] else coins[1..];
      ShufflePermutes(swapped[..i], tail);
      SwapPermutes(xs, i, Draw(coins, i + 1));
      assert Shuffle(xs, coins) == Shuffle(swapped[..i], tail) + [swapped[i]];
      LastSplit(swapped);
    }
  }

  /** With draws that always pick the current last position, every swap is
      a no-op and the shuffle leaves the list as it was. */
  lemma {:induction false} ShuffleIdentityDraws<T>(xs: seq<T>, coins: seq<nat>)
    requires |coins| + 1 >= |xs|
    requires forall k :: 0 <= k < |coins| ==> coins[k] == |xs| - 1 - k
    ensures Shuffle(xs, coins) == xs
    decreases |xs|
  {
    if |xs| > 1 {
      var i := |xs| - 1;
      assert coins[0] == i;
      SmallMod(i, i + 1);
      assert Draw(coins, i + 1) == i;
      var swapped := Swap(xs, i, i);
      assert swapped == xs;
      var rest := coins[1..];
      assert forall k :: 0 <= k < |rest| ==> rest[k] == coins[k + 1];
      ShuffleIdentityDraws(xs[..i], rest);
      assert Shuffle(xs, coins) == Shuffle(xs[..i], rest) + [xs[i]];
      assert xs[..i] + [xs[i]] == xs;
    }
  }

  /** One draw of the sample: the drawn element and a sub-multiset of the
      remaining pool make a sub-multiset of the pool. */
  lemma SampleStep<T>(pool: seq<T>, j: nat, sub: seq<T>)
    requires j < |pool|
    requires multiset(sub) <= multiset(pool[j := pool[|pool| - 1]][..|pool| - 1])
    ensures multiset([pool[j]] + sub) <= multiset(pool)
  {
    var last := |pool| - 1;
    var rest := pool[j := pool[last]][..last];
    var sw := Swap(pool, j, last);
    SwapPermutes(pool, j, last);
    assert forall i :: 0 <= i < last ==> sw[..last][i] == rest[i];
    assert sw[..last] == rest;
    LastSplit(sw);
    assert multiset(pool) == multiset(rest) + multiset{pool[j]};
    assert multiset([pool[j]] + sub) == multiset(sub) + multiset{pool[j]};
    SubPlusOne(multiset(sub), multiset(rest), pool[j]);
  }

  lemma SubPlusOne<T>(a: multiset<T>, b: multiset<T>, x: T)
    requires a <= b
    ensures a + multiset{x} <= b + multiset{x}
  {
  }

  /** A non-empty list is its front and its last element. */
  lemma LastSplit<T>(s: seq<T>)
    requires |s| > 0
    ensures multiset(s) == multiset(s[..|s| - 1]) + multiset{s[|s| - 1]}
  {
    assert s == s[..|s| - 1] + [s[|s| - 1]];
  }

  lemma SmallMod(a: nat, n: nat)
    requires a < n
    ensures a % n == a
  {
  }

  /** `random.sample(xs, k)` by the pool method: draw a position of the pool,
      take its element, move the pool's last element into the hole and drop
      the last slot. (For large populations Python selects positions with a
      set instead; that yields the same kind of result: k elements taken
      from k distinct positions.) */
  function Sample<T>(pool: seq<T>, k: nat, coins: seq<nat>): (r: seq<T>)
    requires k <= |pool|
    decreases k
  {
    if k == 0 then []
    else
      var last := |pool| - 1;
      var j := Draw(coins, |pool|);
      [pool[j]] + Sample(pool[j := pool[last]][..last], k - 1, if |coins| == 0 then [] else coins[1..])
  }

  /** The first element of a sample is the drawn one; the rest is a sample
      of the population with the drawn slot filled from the last. */
  lemma SampleFirst<T>(pool: seq<T>, k: nat, coins: seq<nat>)
    requires 0 < k <= |pool|
    ensures var j := Draw(coins, |pool|);
            Sample(pool, k, coins)
            == [pool[j]] + Sample(pool[j := pool[|pool| - 1]][..|pool| - 1], k - 1, if |coins| == 0 then [] else coins[1..])
  {
  }

  /** Drawing one element keeps a sample within the population, given that
      the rest of the sample is within what is left. */
  lemma SampleDrawStep<T>(pool: seq<T>, k: nat, coins: seq<nat>)
    requires 0 < k <= |pool|
    requires var j := Draw(coins, |pool|);
             multiset(Sample(pool[j := pool[|pool| - 1]][..|pool| - 1], k - 1, if |coins| == 0 then [] else coins[1..]))
             <= multiset(pool[j := pool[|pool| - 1]][..|pool| - 1])
    ensures multiset(Sample(pool, k, coins)) <= multiset(pool)
  {
    var j := Draw(coins, |pool|);
    var sub := Sample(pool[j := pool[|pool| - 1]][..|pool| - 1], k - 1, if |coins| == 0 then [] else coins[1..]);
    SampleFirst(pool, k, coins);
    SampleStep(pool, j, sub);
  }

  /** A sample has the requested size. */
  lemma {:induction false} SampleLength<T>(pool: seq<T>, k: nat, coins: seq<nat>)
    requires k <= |pool|
    ensures |Sample(pool, k, coins)| == k
    decreases k
  {
    if k > 0 {
      var j := Draw(coins, |pool|);
      SampleLength(pool[j := pool[|pool| - 1]][..|pool| - 1], k - 1, if |coins| == 0 then [] else coins[1..]);
      SampleFirst(pool, k, coins);
    }
  }

  /** A sample has the requested size and takes each element at most as often
      as the population holds it. */
  lemma {:induction false} SampleIsSubMultiset<T>(pool: seq<T>, k: nat, coins: seq<nat>)
    requires k <= |pool|
    ensures |Sample(pool, k, coins)| == k
    ensures multiset(Sample(pool, k, coins)) <= multiset(pool)
    decreases k
  {
    if k > 0 {
      var j := Draw(coins, |pool|);
      var rest := pool[j := pool[|pool| - 1]][..|pool| - 1];
      var later := if |coins| == 0 then [] else coins[1..];
      SampleIsSubMultiset(rest, k - 1, later);
      SampleDrawStep(pool, k, coins);
    }
    SampleLength(pool, k, coins);
  }
}
