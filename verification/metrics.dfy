/** The tie-break metrics of the multi-start search.

    Each metric scores a list of trade loops; a lower score is better. The
    four strategies of the program form one closed datatype scored
    by `Score`; the `Calculate*` methods follow the program's loops and are
    proved to compute `Score`. */
module Metrics {
  import opened Wrappers
  import opened Text
  import opened ItemGraph

  datatype Metric =
    | SumSquares                 // sum over loops of size * size (the default)
    | UsersTrading               // minus the number of distinct users trading
    | FavorUser(user: string)    // minus the number of trades of one user
    | UsersSumOfSquares          // sum over users of (trades of that user)^2

  /** The key the favoured-user metric looks up: the user name in parentheses,
      the form the `(user)` token of a want list has. */
  function FavoredKey(user: string): string {
    "(" + user + ")"
  }

  /** Every vertex of every loop, loop by loop. */
  function Flatten(cycles: seq<Cycle>): (vs: seq<Vertex>)
  {
    if |cycles| == 0 then []
    else Flatten(cycles[..|cycles| - 1]) + cycles[|cycles| - 1]
  }

  /** Sum over the loops of the square of the loop's size. */
  function SizeSquares(cycles: seq<Cycle>): int
  {
    if |cycles| == 0 then 0
    else
      var c := cycles[|cycles| - 1];
      SizeSquares(cycles[..|cycles| - 1]) + |c| * |c|
  }

  /** The distinct users of the vertices (`None` is one of them if it occurs). */
  function UserSet(vs: seq<Vertex>): set<Option<string>> {
    set v | v in vs :: v.user
  }

  /** How many of the vertices belong to user `u`. */
  function CountUser(vs: seq<Vertex>, u: Option<string>): nat
  {
    if |vs| == 0 then 0
    else CountUser(vs[..|vs| - 1], u) + (if vs[|vs| - 1].user == u then 1 else 0)
  }

  /** The distinct users of the vertices in order of first appearance: the
      key set of the program's per-user count map. */
  function DistinctUsers(vs: seq<Vertex>): (us: seq<Option<string>>)
    ensures forall i, j :: 0 <= i < j < |us| ==> us[i] != us[j]
    ensures forall u :: u in us <==> u in UserSet(vs)
    ensures |us| <= |vs|
  {
    if |vs| == 0 then []
    else
      var prefix := vs[..|vs| - 1];
      var v := vs[|vs| - 1];
      assert vs == prefix + [v];
      assert UserSet(vs) == UserSet(prefix) + {v.user};
      var us := DistinctUsers(prefix);
      if v.user in us then us else us + [v.user]
  }

  /** Sum over the keys of the squared number of vertices of that user. */
  function SquaredCounts(keys: seq<Option<string>>, vs: seq<Vertex>): nat
  {
    if |keys| == 0 then 0
    else
      var c := CountUser(vs, keys[|keys| - 1]);
      SquaredCounts(keys[..|keys| - 1], vs) + c * c
  }

  /** Sum over the keys of the number of vertices of that user. */
  function SumCounts(keys: seq<Option<string>>, vs: seq<Vertex>): nat
  {
    if |keys| == 0 then 0
    else SumCounts(keys[..|keys| - 1], vs) + CountUser(vs, keys[|keys| - 1])
  }

  /** Whether a vertex's upper-cased user is `key`. */
  predicate UpperUserIs(v: Vertex, key: string) {
    v.user.Some? && Upper(v.user.value) == key
  }

  /** How many of the vertices have upper-cased user `key`. */
  function CountUpper(vs: seq<Vertex>, key: string): nat
  {
    if |vs| == 0 then 0
    else CountUpper(vs[..|vs| - 1], key) + (if UpperUserIs(vs[|vs| - 1], key) then 1 else 0)
  }

  /** Every vertex of every loop has a user. */
  predicate UsersKnown(cycles: seq<Cycle>) {
    forall i, j :: 0 <= i < |cycles| && 0 <= j < |cycles[i]| ==> cycles[i][j].user.Some?
  }

  /** What a metric needs of its input: the favoured-user metric upper-cases
      every user and so needs them all to be present. */
  predicate Scorable(m: Metric, cycles: seq<Cycle>) {
    m.FavorUser? ==> UsersKnown(cycles)
  }

  /** The score of a list of trade loops under a metric; lower is better. */
  function Score(m: Metric, cycles: seq<Cycle>): int
    requires Scorable(m, cycles)
  {
    match m
    case SumSquares => SizeSquares(cycles)
    case UsersTrading => -|UserSet(Flatten(cycles))|
    case FavorUser(user) => -(CountUpper(Flatten(cycles), FavoredKey(user)) as int)
    case UsersSumOfSquares =>
      var vs := Flatten(cycles);
      SquaredCounts(DistinctUsers(vs), vs)
  }

  // ---------------------------------------------------------------------------
  // Unfolding facts for the prefix-recursive definitions

  lemma FlattenStep(cycles: seq<Cycle>, i: nat)
    requires i < |cycles|
    ensures Flatten(cycles[..i + 1]) == Flatten(cycles[..i]) + cycles[i]
  {
    assert cycles[..i + 1][..i] == cycles[..i];
  }

  lemma FlattenAll(cycles: seq<Cycle>)
    ensures Flatten(cycles[..|cycles|]) == Flatten(cycles)
  {
    assert cycles[..|cycles|] == cycles;
  }

  lemma SnocSlice<T>(seen: seq<T>, c: seq<T>, j: nat)
    requires j < |c|
    ensures seen + c[..j + 1] == (seen + c[..j]) + [c[j]]
  {
    assert c[..j + 1] == c[..j] + [c[j]];
  }

  lemma CountUserSnoc(vs: seq<Vertex>, v: Vertex, u: Option<string>)
    ensures CountUser(vs + [v], u) == CountUser(vs, u) + (if v.user == u then 1 else 0)
  {
    assert (vs + [v])[..|vs|] == vs;
  }

  lemma CountUpperSnoc(vs: seq<Vertex>, v: Vertex, key: string)
    ensures CountUpper(vs + [v], key) == CountUpper(vs, key) + (if UpperUserIs(v, key) then 1 else 0)
  {
    assert (vs + [v])[..|vs|] == vs;
  }

  lemma UserSetSnoc(vs: seq<Vertex>, v: Vertex)
    ensures UserSet(vs + [v]) == UserSet(vs) + {v.user}
  {
  }

  lemma DistinctUsersSnoc(vs: seq<Vertex>, v: Vertex)
    ensures DistinctUsers(vs + [v]) ==
      if v.user in DistinctUsers(vs) then DistinctUsers(vs) else DistinctUsers(vs) + [v.user]
  {
    assert (vs + [v])[..|vs|] == vs;
  }

  /** The per-user count map of the users-sum-of-squares metric after it has
      seen the vertices `seen`, with `keys` its keys in insertion order. */
  ghost predicate Tallied(seen: seq<Vertex>, users: map<Option<string>, nat>, keys: seq<Option<string>>) {
    && keys == DistinctUsers(seen)
    && (forall u :: u in users <==> u in keys)
    && (forall u :: u in users ==> users[u] == CountUser(seen, u))
  }

  lemma TallyStep(seen: seq<Vertex>, v: Vertex, users: map<Option<string>, nat>, keys: seq<Option<string>>)
    requires Tallied(seen, users, keys)
    ensures Tallied(seen + [v],
                    users[v.user := 1 + (if v.user in users then users[v.user] else 0)],
                    if v.user in users then keys else keys + [v.user])
  {
    DistinctUsersSnoc(seen, v);
    var users' := users[v.user := 1 + (if v.user in users then users[v.user] else 0)];
    var keys' := if v.user in users then keys else keys + [v.user];
    assert keys' == DistinctUsers(seen + [v]);
    forall u | u in users'
      ensures users'[u] == CountUser(seen + [v], u)
    {
      CountUserSnoc(seen, v, u);
      if u == v.user && v.user !in users {
        assert u !in UserSet(seen);
        CountUserAbsent(seen, u);
      }
    }
  }

  lemma {:induction false} CountUserAbsent(vs: seq<Vertex>, u: Option<string>)
    requires u !in UserSet(vs)
    ensures CountUser(vs, u) == 0
  {
    if |vs| > 0 {
      assert vs == vs[..|vs| - 1] + [vs[|vs| - 1]];
      UserSetSnoc(vs[..|vs| - 1], vs[|vs| - 1]);
      CountUserAbsent(vs[..|vs| - 1], u);
    }
  }

  // ---------------------------------------------------------------------------
  // The program's calculate methods

  /** `MetricSumSquares.calculate`. */
  method CalculateSumSquares(cycles: seq<Cycle>) returns (r: int)
    ensures r == Score(SumSquares, cycles)
  {
    r := 0;
    var i := 0;
    while i < |cycles|
      invariant 0 <= i <= |cycles|
      invariant r == SizeSquares(cycles[..i])
    {
      assert cycles[..i + 1][..i] == cycles[..i];
      r := r + |cycles[i]| * |cycles[i]|;
      i := i + 1;
    }
    assert cycles[..i] == cycles;
  }

  /** `MetricUsersTrading.calculate`: collect the users in a set. */
  method CalculateUsersTrading(cycles: seq<Cycle>) returns (r: int)
    ensures r == Score(UsersTrading, cycles)
  {
    var users: set<Option<string>> := {};
    var i := 0;
    while i < |cycles|
      invariant 0 <= i <= |cycles|
      invariant users == UserSet(Flatten(cycles[..i]))
    {
      var cycle := cycles[i];
      var j := 0;
      while j < |cycle|
        invariant 0 <= j <= |cycle|
        invariant users == UserSet(Flatten(cycles[..i]) + cycle[..j])
      {
        UserSetSnoc(Flatten(cycles[..i]) + cycle[..j], cycle[j]);
        SnocSlice(Flatten(cycles[..i]), cycle, j);
        users := users + {cycle[j].user};
        j := j + 1;
      }
      assert cycle[..j] == cycle;
      FlattenStep(cycles, i);
      i := i + 1;
    }
    FlattenAll(cycles);
    r := -|users|;
  }

  /** A count map read the way the program reads it: a missing key is zero. */
  function CountOf(users: map<string, nat>, k: string): nat {
    if k in users then users[k] else 0
  }

  /** `MetricFavorUser.calculate`: count the trades per upper-cased user in a
      map and look up the favoured key, reading a missing key as zero. */
  method CalculateFavorUser(user: string, cycles: seq<Cycle>) returns (r: int)
    requires UsersKnown(cycles)
    ensures r == Score(FavorUser(user), cycles)
  {
    var users: map<string, nat> := map[];
    var i := 0;
    while i < |cycles|
      invariant 0 <= i <= |cycles|
      invariant forall k :: CountUpper(Flatten(cycles[..i]), k) == CountOf(users, k)
    {
      users := CountUpperCycle(Flatten(cycles[..i]), cycles[i], users);
      FlattenStep(cycles, i);
      i := i + 1;
    }
    FlattenAll(cycles);
    var key := FavoredKey(user);
    var count := CountOf(users, key);
    r := -(count as int);
  }

  /** The inner loop of `MetricFavorUser.calculate`: one more loop's vertices,
      counted by upper-cased user. */
  method CountUpperCycle(ghost seen: seq<Vertex>, cycle: Cycle, users0: map<string, nat>) returns (users: map<string, nat>)
    requires forall j :: 0 <= j < |cycle| ==> cycle[j].user.Some?
    requires forall k :: CountUpper(seen, k) == CountOf(users0, k)
    ensures forall k :: CountUpper(seen + cycle, k) == CountOf(users, k)
  {
    users := users0;
    var j := 0;
    assert seen + cycle[..0] == seen;
    while j < |cycle|
      invariant 0 <= j <= |cycle|
      invariant forall k :: CountUpper(seen + cycle[..j], k) == CountOf(users, k)
    {
      var u := Upper(cycle[j].user.value);
      CountUpperAt(seen, cycle, j);
      var users' := users[u := 1 + CountOf(users, u)];
      assert forall k :: CountOf(users', k) == CountOf(users, k) + (if k == u then 1 else 0);
      users := users';
      j := j + 1;
    }
    assert cycle[..j] == cycle;
  }

  lemma CountUpperAt(seen: seq<Vertex>, cycle: Cycle, j: nat)
    requires j < |cycle| && cycle[j].user.Some?
    ensures forall k ::
              CountUpper(seen + cycle[..j + 1], k)
              == CountUpper(seen + cycle[..j], k) + (if k == Upper(cycle[j].user.value) then 1 else 0)
  {
    SnocSlice(seen, cycle, j);
    forall k
      ensures CountUpper(seen + cycle[..j + 1], k)
        == CountUpper(seen + cycle[..j], k) + (if k == Upper(cycle[j].user.value) then 1 else 0)
    {
      CountUpperSnoc(seen + cycle[..j], cycle[j], k);
    }
  }

  /** The counting loop of `MetricUsersSumOfSquares.calculate`: trades per
      user, in a map. The program's hash map iterates its values in an
      unspecified order; `keys` records the order the keys were inserted in. */
  method CountPerUser(cycles: seq<Cycle>) returns (users: map<Option<string>, nat>, keys: seq<Option<string>>)
    ensures Tallied(Flatten(cycles), users, keys)
  {
    users := map[];
    keys := [];
    var i := 0;
    while i < |cycles|
      invariant 0 <= i <= |cycles|
      invariant Tallied(Flatten(cycles[..i]), users, keys)
    {
      users, keys := CountCycle(Flatten(cycles[..i]), cycles[i], users, keys);
      FlattenStep(cycles, i);
      i := i + 1;
    }
    FlattenAll(cycles);
  }

  /** The inner loop of the counting: one more loop's vertices. */
  method CountCycle(ghost seen: seq<Vertex>, cycle: Cycle, users0: map<Option<string>, nat>, keys0: seq<Option<string>>)
    returns (users: map<Option<string>, nat>, keys: seq<Option<string>>)
    requires Tallied(seen, users0, keys0)
    ensures Tallied(seen + cycle, users, keys)
  {
    users, keys := users0, keys0;
    var j := 0;
    assert seen + cycle[..0] == seen;
    while j < |cycle|
      invariant 0 <= j <= |cycle|
      invariant Tallied(seen + cycle[..j], users, keys)
    {
      users, keys := TallyOne(seen, cycle, j, users, keys);
      j := j + 1;
    }
    assert cycle[..j] == cycle;
  }

  /** Counting the vertex at position `j` of a cycle: its user's count goes up
      by one, and a user seen for the first time is appended to the keys. */
  method TallyOne(ghost seen: seq<Vertex>, cycle: Cycle, j: nat, users0: map<Option<string>, nat>, keys0: seq<Option<string>>)
    returns (users: map<Option<string>, nat>, keys: seq<Option<string>>)
    requires j < |cycle|
    requires Tallied(seen + cycle[..j], users0, keys0)
    ensures Tallied(seen + cycle[..j + 1], users, keys)
  {
    var v := cycle[j];
    var c: int := if v.user in users0 then users0[v.user] else 0;
    keys := if v.user in users0 then keys0 else keys0 + [v.user];
    users := users0[v.user := c + 1];
    TallyStep(seen + cycle[..j], v, users0, keys0);
    SnocSlice(seen, cycle, j);
  }

  lemma SquaredCountsStep(keys: seq<Option<string>>, vs: seq<Vertex>, t: nat, c: int)
    requires t < |keys| && c == CountUser(vs, keys[t])
    ensures SquaredCounts(keys[..t + 1], vs) == SquaredCounts(keys[..t], vs) + c * c
  {
    assert keys[..t + 1][..t] == keys[..t];
  }

  /** `MetricUsersSumOfSquares.calculate`: sum the squared per-user counts. */
  method CalculateUsersSumOfSquares(cycles: seq<Cycle>) returns (r: int)
    ensures r == Score(UsersSumOfSquares, cycles)
  {
    var users, keys := CountPerUser(cycles);
    ghost var vs := Flatten(cycles);
    assert forall u :: u in keys ==> u in users && users[u] == CountUser(vs, u);
    var sum: int := 0;
    var t := 0;
    while t < |keys|
      invariant 0 <= t <= |keys|
      invariant sum == SquaredCounts(keys[..t], vs)
    {
      assert keys[t] in keys;
      var c: int := users[keys[t]];
      SquaredCountsStep(keys, vs, t, c);
      sum := sum + c * c;
      t := t + 1;
    }
    assert keys[..t] == keys;
    assert keys == DistinctUsers(vs);
    r := sum;
  }

  /** `Metrics.calculate`, dispatched on the metric in use. */
  method Calculate(m: Metric, cycles: seq<Cycle>) returns (r: int)
    requires Scorable(m, cycles)
    ensures r == Score(m, cycles)
  {
    match m
    case SumSquares => r := CalculateSumSquares(cycles);
    case UsersTrading => r := CalculateUsersTrading(cycles);
    case FavorUser(user) => r := CalculateFavorUser(user, cycles);
    case UsersSumOfSquares => r := CalculateUsersSumOfSquares(cycles);
  }
}
