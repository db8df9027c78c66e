/** What each tie-break metric promises about its score. */
module MetricLemmas {
  import opened Wrappers
  import opened Text
  import opened ItemGraph
  import opened Metrics

  // ---------------------------------------------------------------------------
  // Sum of squared loop sizes

  lemma {:induction false} SizeSquaresBounds(cycles: seq<Cycle>)
    ensures |Flatten(cycles)| <= SizeSquares(cycles) <= |Flatten(cycles)| * |Flatten(cycles)|
  {
    if |cycles| > 0 {
      var p := cycles[..|cycles| - 1];
      var c := cycles[|cycles| - 1];
      SizeSquaresBounds(p);
      SquareStep(|Flatten(p)|, |c|, SizeSquares(p));
    }
  }

  /** Adding a loop of size `s` to loops of total size `t` whose score `a`
      lies between `t` and `t * t` keeps the score within the new bounds. */
  lemma SquareStep(t: nat, s: nat, a: int)
    requires t <= a <= t * t
    ensures t + s <= a + s * s <= (t + s) * (t + s)
  {
    assert s <= s * s by {
      if s > 0 {
        assert s * s == s * (s - 1) + s;
      }
    }
    assert (t + s) * (t + s) == t * t + 2 * (t * s) + s * s;
    assert t * s >= 0;
  }

  /** The default metric lies between the number of trades and its square; a
      lower score means the trades are spread over more, smaller loops. */
  lemma SumSquaresBounds(cycles: seq<Cycle>)
    ensures 0 <= |Flatten(cycles)| <= Score(SumSquares, cycles)
    ensures Score(SumSquares, cycles) <= |Flatten(cycles)| * |Flatten(cycles)|
  {
    SizeSquaresBounds(cycles);
  }

  lemma {:induction false} SizeSquaresRemove(cycles: seq<Cycle>, j: nat)
    requires j < |cycles|
    ensures SizeSquares(cycles) == SizeSquares(cycles[..j] + cycles[j + 1..]) + |cycles[j]| * |cycles[j]|
  {
    var n := |cycles|;
    var p := cycles[..n - 1];
    if j == n - 1 {
      assert cycles[..j] + cycles[j + 1..] == p;
    } else {
      SizeSquaresRemove(p, j);
      var rest := p[..j] + p[j + 1..];
      assert cycles[..j] + cycles[j + 1..] == rest + [cycles[n - 1]];
      assert (rest + [cycles[n - 1]])[..|rest|] == rest;
    }
  }

  /** The default metric does not depend on the order of the loops. */
  lemma {:induction false} SumSquaresPermutation(a: seq<Cycle>, b: seq<Cycle>)
    requires multiset(a) == multiset(b)
    ensures Score(SumSquares, a) == Score(SumSquares, b)
    decreases |a|
  {
    if |a| == 0 {
      assert |b| == |multiset(b)| == 0;
    } else {
      var n := |a|;
      var x := a[n - 1];
      assert a == a[..n - 1] + [x];
      assert x in multiset(b);
      var j :| 0 <= j < |b| && b[j] == x;
      var b' := b[..j] + b[j + 1..];
      assert b == b[..j] + [b[j]] + b[j + 1..];
      assert multiset(b) == multiset(b[..j]) + multiset{x} + multiset(b[j + 1..]);
      assert multiset(b') == multiset(b[..j]) + multiset(b[j + 1..]);
      assert multiset(a) == multiset(a[..n - 1]) + multiset{x};
      assert multiset(a[..n - 1]) == multiset(a) - multiset{x};
      assert multiset(b') == multiset(b) - multiset{x};
      SumSquaresPermutation(a[..n - 1], b');
      SizeSquaresRemove(b, j);
    }
  }

  // ---------------------------------------------------------------------------
  // Users trading

  lemma {:induction false} UserSetSize(vs: seq<Vertex>)
    ensures |UserSet(vs)| == |DistinctUsers(vs)|
  {
    if |vs| > 0 {
      var p := vs[..|vs| - 1];
      var v := vs[|vs| - 1];
      assert vs == p + [v];
      UserSetSize(p);
      UserSetSnoc(p, v);
      DistinctUsersSnoc(p, v);
      if v.user in UserSet(p) {
        assert UserSet(vs) == UserSet(p);
      } else {
        assert DistinctUsers(vs) == DistinctUsers(p) + [v.user];
        assert |UserSet(vs)| == |UserSet(p)| + 1;
      }
    }
  }

  /** The users-trading metric is minus the number of distinct user values
      among the trading vertices (the missing user counting as one value): it
      lies between minus the number of trades and zero, and is zero exactly when
      nothing trades. */
  lemma UsersTradingBounds(cycles: seq<Cycle>)
    ensures Score(UsersTrading, cycles) == -|DistinctUsers(Flatten(cycles))|
    ensures -|Flatten(cycles)| <= Score(UsersTrading, cycles) <= 0
    ensures Score(UsersTrading, cycles) == 0 <==> |Flatten(cycles)| == 0
  {
    var vs := Flatten(cycles);
    UserSetSize(vs);
    if |vs| > 0 {
      assert vs[0].user in UserSet(vs);
    }
  }

  // ---------------------------------------------------------------------------
  // Favoured user

  lemma {:induction false} CountUpperBounds(vs: seq<Vertex>, key: string)
    ensures CountUpper(vs, key) <= |vs|
    ensures CountUpper(vs, key) == 0 <==> forall i :: 0 <= i < |vs| ==> !UpperUserIs(vs[i], key)
  {
    if |vs| > 0 {
      var p := vs[..|vs| - 1];
      CountUpperBounds(p, key);
      assert forall i :: 0 <= i < |p| ==> vs[i] == p[i];
    }
  }

  /** The favoured-user metric is minus the number of trading vertices whose
      upper-cased user is `(user)`, and zero when there is none. */
  lemma FavorUserBounds(user: string, cycles: seq<Cycle>)
    requires UsersKnown(cycles)
    ensures -|Flatten(cycles)| <= Score(FavorUser(user), cycles) <= 0
    ensures Score(FavorUser(user), cycles) == 0 <==>
      forall i :: 0 <= i < |Flatten(cycles)| ==> !UpperUserIs(Flatten(cycles)[i], FavoredKey(user))
  {
    CountUpperBounds(Flatten(cycles), FavoredKey(user));
  }

  /** Users are compared after upper-casing, so a favoured name holding a
      lower-case letter never matches and the metric is always zero. */
  lemma FavorUserLowerCaseNeverMatches(user: string, cycles: seq<Cycle>)
    requires UsersKnown(cycles)
    requires exists k :: 0 <= k < |user| && 'a' <= user[k] <= 'z'
    ensures Score(FavorUser(user), cycles) == 0
  {
    var vs := Flatten(cycles);
    var key := FavoredKey(user);
    var k :| 0 <= k < |user| && 'a' <= user[k] <= 'z';
    assert key[k + 1] == user[k];
    assert forall i :: 0 <= i < |vs| ==> !UpperUserIs(vs[i], key);
    CountUpperBounds(vs, key);
  }

  // ---------------------------------------------------------------------------
  // Users sum of squares

  predicate NoDuplicates<T(==)>(s: seq<T>) {
    forall i, j :: 0 <= i < j < |s| ==> s[i] != s[j]
  }

  lemma {:induction false} CountUserPositive(vs: seq<Vertex>, u: Option<string>)
    ensures CountUser(vs, u) <= |vs|
    ensures CountUser(vs, u) > 0 <==> u in UserSet(vs)
  {
    if |vs| > 0 {
      var p := vs[..|vs| - 1];
      var v := vs[|vs| - 1];
      assert vs == p + [v];
      CountUserPositive(p, u);
      UserSetSnoc(p, v);
    }
  }

  lemma {:induction false} SumCountsSnoc(keys: seq<Option<string>>, vs: seq<Vertex>, v: Vertex)
    requires NoDuplicates(keys)
    ensures SumCounts(keys, vs + [v]) == SumCounts(keys, vs) + (if v.user in keys then 1 else 0)
  {
    if |keys| > 0 {
      var p := keys[..|keys| - 1];
      var k := keys[|keys| - 1];
      assert keys == p + [k];
      SumCountsSnoc(p, vs, v);
      CountUserSnoc(vs, v, k);
    }
  }

  lemma {:induction false} SquaredCountsSnoc(keys: seq<Option<string>>, vs: seq<Vertex>, v: Vertex)
    requires NoDuplicates(keys)
    ensures SquaredCounts(keys, vs + [v]) ==
      SquaredCounts(keys, vs) + (if v.user in keys then 2 * CountUser(vs, v.user) + 1 else 0)
  {
    if |keys| > 0 {
      var p := keys[..|keys| - 1];
      var k := keys[|keys| - 1];
      assert keys == p + [k];
      SquaredCountsSnoc(p, vs, v);
      CountUserSnoc(vs, v, k);
      var c := CountUser(vs, k);
      assert (c + 1) * (c + 1) == c * c + 2 * c + 1;
    }
  }

  /** The per-user counts of the users-sum-of-squares metric add up to the
      number of trades. */
  lemma {:induction false} CountsSumToTrades(vs: seq<Vertex>)
    ensures SumCounts(DistinctUsers(vs), vs) == |vs|
  {
    if |vs| > 0 {
      var p := vs[..|vs| - 1];
      var v := vs[|vs| - 1];
      assert vs == p + [v];
      var d := DistinctUsers(p);
      CountsSumToTrades(p);
      DistinctUsersSnoc(p, v);
      SumCountsSnoc(d, p, v);
      if v.user !in d {
        assert (d + [v.user])[..|d|] == d;
        CountUserSnoc(p, v, v.user);
        CountUserPositive(p, v.user);
      }
    }
  }

  /** Number of pairs (x, y) with x from `a`, y from `b` and the same user. */
  function SameUserPairs(a: seq<Vertex>, b: seq<Vertex>): nat
  {
    if |a| == 0 then 0
    else SameUserPairs(a[..|a| - 1], b) + CountUser(b, a[|a| - 1].user)
  }

  lemma {:induction false} SameUserPairsSnoc(a: seq<Vertex>, b: seq<Vertex>, v: Vertex)
    ensures SameUserPairs(a, b + [v]) == SameUserPairs(a, b) + CountUser(a, v.user)
  {
    if |a| > 0 {
      var p := a[..|a| - 1];
      SameUserPairsSnoc(p, b, v);
      CountUserSnoc(b, v, a[|a| - 1].user);
    }
  }

  lemma {:induction false} SameUserPairsBounds(a: seq<Vertex>, b: seq<Vertex>)
    requires forall x :: x in a ==> x in b
    ensures |a| <= SameUserPairs(a, b) <= |a| * |b|
  {
    if |a| > 0 {
      var p := a[..|a| - 1];
      var x := a[|a| - 1];
      assert forall y :: y in p ==> y in a;
      SameUserPairsBounds(p, b);
      assert x.user in UserSet(b);
      CountUserPositive(b, x.user);
      MulStep(|p|, |b|);
    }
  }

  lemma MulStep(n: nat, m: nat)
    ensures (n + 1) * m == n * m + m
  {
  }

  lemma {:induction false} SquaredCountsArePairs(vs: seq<Vertex>)
    ensures SquaredCounts(DistinctUsers(vs), vs) == SameUserPairs(vs, vs)
  {
    if |vs| > 0 {
      var p := vs[..|vs| - 1];
      var v := vs[|vs| - 1];
      assert vs == p + [v];
      SquaredCountsArePairs(p);
      PairsSnoc(p, v);
      SquaredCountsSnocUser(p, v);
    }
  }

  /** One more vertex adds the pairs it forms with the earlier vertices of its
      user, both ways, and the pair with itself. */
  lemma PairsSnoc(p: seq<Vertex>, v: Vertex)
    ensures SameUserPairs(p + [v], p + [v]) == SameUserPairs(p, p) + 2 * CountUser(p, v.user) + 1
  {
    var vs := p + [v];
    assert vs[..|vs| - 1] == p;
    SameUserPairsSnoc(p, p, v);
    CountUserSnoc(p, v, v.user);
  }

  /** The squared counts grow by the same amount. */
  lemma SquaredCountsSnocUser(p: seq<Vertex>, v: Vertex)
    ensures SquaredCounts(DistinctUsers(p + [v]), p + [v]) == SquaredCounts(DistinctUsers(p), p) + 2 * CountUser(p, v.user) + 1
  {
    var d := DistinctUsers(p);
    var vs := p + [v];
    DistinctUsersSnoc(p, v);
    SquaredCountsSnoc(d, p, v);
    if v.user !in d {
      CountUserPositive(p, v.user);
      assert CountUser(p, v.user) == 0;
      CountUserSnoc(p, v, v.user);
      var d' := d + [v.user];
      assert DistinctUsers(vs) == d';
      assert d'[..|d|] == d && d'[|d|] == v.user;
      var c := CountUser(vs, v.user);
      assert c == 1 && c * c == 1;
      assert SquaredCounts(d', vs) == SquaredCounts(d, vs) + c * c;
      assert SquaredCounts(d, vs) == SquaredCounts(d, p);
      assert SquaredCounts(DistinctUsers(vs), vs) == SquaredCounts(d, p) + 1;
    } else {
      assert DistinctUsers(vs) == d;
      assert SquaredCounts(d, vs) == SquaredCounts(d, p) + 2 * CountUser(p, v.user) + 1;
    }
  }

  /** The users-sum-of-squares metric counts the ordered pairs of trading
      vertices that share a user; its per-user counts add up to the number of
      trades, and it lies between that number and its square. */
  lemma UsersSumOfSquaresMeaning(cycles: seq<Cycle>)
    ensures Score(UsersSumOfSquares, cycles) == SameUserPairs(Flatten(cycles), Flatten(cycles))
    ensures SumCounts(DistinctUsers(Flatten(cycles)), Flatten(cycles)) == |Flatten(cycles)|
    ensures |Flatten(cycles)| <= Score(UsersSumOfSquares, cycles) <= |Flatten(cycles)| * |Flatten(cycles)|
  {
    var vs := Flatten(cycles);
    SquaredCountsArePairs(vs);
    CountsSumToTrades(vs);
    SameUserPairsBounds(vs, vs);
  }
}
