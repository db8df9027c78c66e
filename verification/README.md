# TradeMaximizer core in Dafny

TradeMaximizer takes the want lists of a math trade and finds trade loops. Each
list says "I give this item and would accept any of these items in return." The
program keeps the minimum-cost set of loops. It may compute that set several
times with shuffled tie-breaking and keep the solution that scores best under a
secondary *metric*.

This project models three parts of that program:

- **The graph builder** (`buildGraph`, `deleteFirst`). It turns the tokenised
  want lists into items and priced edges, and reports every malformed entry.
  - The first pass makes one vertex per accepted list. It handles `(user)`
    tokens, dummy items `%name`, official names and duplicate lists.
  - The second pass walks each list's wants with a running rank. `;` groups
    advance the rank by the big step, and an `name=n` explicit priority sets
    it to `n`. Each accepted want gets an edge priced by the priority scheme:
    none, linear, triangle, square, scaled or explicit.
  - Under the scaled scheme each list's costs are rescaled to
    `1 + (cost - 1) * 2520 / n`.
  - Unknown items are tallied and reported once each.
- **The four metrics** (`calculate`).
  - Sum of squared loop sizes.
  - Minus the number of distinct users trading.
  - Minus the number of trades by one favoured user.
  - Sum over users of the square of each user's trade count.
- **The best-of-N loop of `run`.** The first solution is the initial best.
  Each further solution replaces it only when its metric is strictly lower.
  The best matching is saved on every replacement and restored at the end.

## Files

- `wrappers.dfy` (`Wrappers`): `Option`.
- `text.dfy` (`Text`): the string operations the code relies on:
  - upper-casing;
  - `#` to space;
  - `indexOf`;
  - digit strings and their value.
- `item_graph.dfy` (`ItemGraph`): items (vertices), trade loops (cycles) and
  the graph as a name-to-vertex map plus, for each receiving item, a map from
  sending item to cost.
- `metrics.dfy` (`Metrics`):
  - a reference definition `Score` of each metric;
  - the imperative `Calculate*` methods, which follow the Java loops and are
    proved equal to `Score`.
- `metric_lemmas.dfy` (`MetricLemmas`): what each score means, with its bounds.
- `builder.dfy` (`Builder`): `buildGraph`, modelled as two folds over the
  lists (`CreateVertices`, `CreateEdges`), plus `deleteFirst`.
- `builder_lemmas.dfy` (`BuilderLemmas`):
  - the rules for one want;
  - the invariants of the walk over a list;
  - the soundness of the finished graph.
- `optimizer.dfy` (`Optimizer`): the best-of-N loop.

## Modelling decisions

- **User values.** An item's user is an `Option<string>`. An item without a
  user has `None`, which the users-trading and users-sum-of-squares metrics
  count as one more distinct user value, as Java's `HashSet`/`HashMap` do with
  `null`.
- **Favoured user.** This metric upper-cases every user, and Java throws on an
  item without a user. `Metrics.CalculateFavorUser` therefore requires every
  user to be present.
- **Dummy items.** A dummy item declared without a user, or when dummies are
  not allowed, only produces an error. The list is still kept under the
  dummy's unqualified name and becomes a dummy vertex
  (`TradeMaximizer.java:686-708`).
- **Explicit priorities.** An accepted `name=n` sets the running rank to `n`
  before the wanted name is looked up. The rank stays at `n` even when the
  want is then refused, and the following wants continue from it.
- **Configuration values.** The option reader reports a malformed `SMALL-STEP`,
  `BIG-STEP` or `NONTRADE-COST` but still stores the number it parses, which
  may be negative (`TradeMaximizer.java:323-339`). So the steps and the
  no-trade cost are arbitrary integers here.
  - Positivity of costs is proved only under `StepsNonNegative`: non-negative
    steps and a positive no-trade cost.
  - With a negative step the code can produce a rank, and so a cost, below
    1; the model promises nothing about the sign of costs in that case.
- **Edge storage.** The graph class is not part of this model. `addEdge` is
  taken to append one edge to the receiving item's list. Edges are kept as a
  map from sender to cost, because a repeated want never reaches `addEdge`.
  The self edge is the entry keyed by the item's own name.
  - With that reading, the scaled scheme's `n = edges.size() - 1` is the
    number of non-self edges.
- **Java division.** The scaled rescale uses Java's division, which rounds
  toward zero (`Builder.JavaDiv`). The triangle formula's product is never
  negative, so Dafny's division agrees with Java's there.
- **Unknown-item reports.** These come from a `HashMap` in unspecified order,
  so they are modelled as a set.
- **Per-user counts.** The users-sum-of-squares metric sums over a `HashMap`'s
  values in unspecified order. The model keeps the users in first-seen order,
  and the sum does not depend on the order.
- **Solutions in `run`.** The solver and the shuffle are outside this model.
  The solutions they produce come into `Optimizer.SelectBest` as a parameter
  `trials`, with one entry for the first run and one per further iteration.

## Model

| member | source | states |
|---|---|---|
| Metrics.CalculateSumSquares | src/main/java/io/github/ragan/trademaximizer/TradeMaximizer.java:26-31 | the loop's sum of squared loop sizes equals the reference score `SizeSquares` |
| Metrics.CalculateUsersTrading | src/main/java/io/github/ragan/trademaximizer/TradeMaximizer.java:54-64 | the loop that adds every trading vertex's user to a set returns minus the size of the set of user values in the loops |
| Metrics.CalculateFavorUser | src/main/java/io/github/ragan/trademaximizer/TradeMaximizer.java:75-95 | with every user present, the per-user tally looked up at `"(" + user + ")"` gives minus the number of trading vertices whose upper-cased user is that key, and 0 when there is none |
| Metrics.CountPerUser | src/main/java/io/github/ragan/trademaximizer/TradeMaximizer.java:110-114 | the per-user tally holds, for each distinct user value of the trading vertices (each once), the number of vertices with that user |
| Metrics.CalculateUsersSumOfSquares | src/main/java/io/github/ragan/trademaximizer/TradeMaximizer.java:106-126 | the sum of squared per-user counts equals the reference score |
| Metrics.Calculate | src/main/java/io/github/ragan/trademaximizer/TradeMaximizer.java:18-20 | the metric interface's `calculate` returns the reference score of the selected metric |
| Metrics.DistinctUsers | src/main/java/io/github/ragan/trademaximizer/TradeMaximizer.java:55-60 | the users collected from the vertices are without repetition, are exactly the user values present, and are no more than the vertices |
| MetricLemmas.SumSquaresBounds | src/main/java/io/github/ragan/trademaximizer/TradeMaximizer.java:26-31 | the sum of squared loop sizes lies between the number of trades and its square |
| MetricLemmas.SumSquaresPermutation | src/main/java/io/github/ragan/trademaximizer/TradeMaximizer.java:26-31 | the sum of squared loop sizes does not depend on the order of the loops |
| MetricLemmas.UsersTradingBounds | src/main/java/io/github/ragan/trademaximizer/TradeMaximizer.java:54-64 | the users-trading score is minus the number of distinct users, lies between minus the number of trades and 0, and is 0 exactly when nothing trades |
| MetricLemmas.FavorUserBounds | src/main/java/io/github/ragan/trademaximizer/TradeMaximizer.java:75-95 | the favoured-user score lies between minus the number of trades and 0, and is 0 exactly when no trading vertex's upper-cased user is the key |
| MetricLemmas.FavorUserLowerCaseNeverMatches | src/main/java/io/github/ragan/trademaximizer/TradeMaximizer.java:75-94 | because only the vertices' users are upper-cased, a favoured name with a lower-case letter never matches and the score is always 0; both places that build this metric upper-case the name first (lines 286 and 366, 600 and 607), so this case arises only for a metric built some other way |
| MetricLemmas.CountsSumToTrades | src/main/java/io/github/ragan/trademaximizer/TradeMaximizer.java:110-114 | the per-user counts add up to the number of trading vertices |
| MetricLemmas.UsersSumOfSquaresMeaning | src/main/java/io/github/ragan/trademaximizer/TradeMaximizer.java:106-126 | the users-sum-of-squares score is the number of ordered pairs of trading vertices with the same user, its counts add up to the number of trades, and it lies between that number and its square |
| Text.Upper | src/main/java/io/github/ragan/trademaximizer/TradeMaximizer.java:84 | upper-casing keeps the length, maps each character by itself and leaves no ASCII lower-case letter |
| Builder.DeleteFirst | src/main/java/io/github/ragan/trademaximizer/TradeMaximizer.java:659-664 | the copy is one shorter and holds the input's tokens from the second on, in order |
| Builder.ReadHead | src/main/java/io/github/ragan/trademaximizer/TradeMaximizer.java:672-696 | a leading `(user)` token becomes the user, with `#` turned back into spaces, and the tokens after the item are the wants; the item is the first token, or the second after `(user)`; a `%` item is a dummy, renamed `<item> for user <user>` when it has a user and dummies are allowed, and otherwise keeps its name with the error "declared without a username" (no user) or "dummy items not allowed" |
| BuilderLemmas.DummyNamesDistinct | src/main/java/io/github/ragan/trademaximizer/TradeMaximizer.java:693 | two users' dummies with the same name get different item names once renamed |
| Builder.AddVertex | src/main/java/io/github/ragan/trademaximizer/TradeMaximizer.java:671-714 | a list is kept, with a new vertex for its item, exactly when the item may be defined (there is no list of official names, or the item is official, or it is a dummy) and has no vertex yet; the used official names grow by exactly a kept official item; the errors are the old ones, the head's, then "not an official name" or "multiple want lists" for a dropped list; the first-pass invariant is kept |
| Builder.CreateVertices | src/main/java/io/github/ragan/trademaximizer/TradeMaximizer.java:670-714 | after the first loop the vertices are exactly the kept lists' items, all distinct; ITEMS counts them; DUMMY_ITEMS counts the dummy vertices; the used names are exactly the official vertices |
| BuilderLemmas.CreateVerticesFromLists | src/main/java/io/github/ragan/trademaximizer/TradeMaximizer.java:670-714 | the vertices after the first loop are exactly the items some input list may define (official, or a dummy, or any name without an official list), each built from the first list naming it |
| Builder.Tally | src/main/java/io/github/ragan/trademaximizer/TradeMaximizer.java:766-767 | recording an unknown item adds one to its count and leaves every other count alone |
| Builder.WantItem | src/main/java/io/github/ragan/trademaximizer/TradeMaximizer.java:751-801 | the want adds an edge to the item its name resolves to (a dummy name qualified by the list's user) exactly when that item is a vertex, is not the list's own and is not a non-dummy item of the same user; no other edge appears |
| Builder.WantStep | src/main/java/io/github/ragan/trademaximizer/TradeMaximizer.java:727-801 | one token adds an edge exactly to the item it asks for: `;` and a refused `=` annotation ask for none; errors are only appended |
| BuilderLemmas.WalkWantsKeys | src/main/java/io/github/ragan/trademaximizer/TradeMaximizer.java:725-802 | after the walk over a list the edges are exactly those before plus one per known, other, not-same-user item that some token of the list asks for |
| BuilderLemmas.WalkListRanks | src/main/java/io/github/ragan/trademaximizer/TradeMaximizer.java:725-800 | the walk of a kept list starts at rank 1: when no token is `;`, carries `=` or names an official item without a list, the k-th distinct item the list asks for (counting from 0) costs the scheme's cost at rank 1 + k * small step, the edges are exactly those items, and the rank ends one small step past the last |
| BuilderLemmas.WalkListFirstChoice | src/main/java/io/github/ragan/trademaximizer/TradeMaximizer.java:725-800 | whatever follows, a kept list's first want, when it has no `=` and is accepted, is costed at rank 1 in the list's edges |
| BuilderLemmas.WalkWantsKeepsEdges | src/main/java/io/github/ragan/trademaximizer/TradeMaximizer.java:772-800 | a walk never changes or drops an edge it already holds: a later want for an item already wanted adds nothing |
| BuilderLemmas.EdgeStepKeys | src/main/java/io/github/ragan/trademaximizer/TradeMaximizer.java:720-816 | one kept list of the second loop stores for its item exactly its self edge plus the items its wants ask for, and leaves every other item's stored edges unchanged |
| Builder.Rescale | src/main/java/io/github/ragan/trademaximizer/TradeMaximizer.java:806-815 | the rescale keeps exactly the edges it is given; its effect on costs is stated by `BuilderLemmas.RescaleProperties` |
| Builder.OutEdges | src/main/java/io/github/ragan/trademaximizer/TradeMaximizer.java:806-816 | a list's final edges are its non-self edges plus the self edge at the no-trade cost (added at line 723); costs are unchanged unless the scheme is scaled and the item is not a dummy, and then every non-self edge costs exactly what `Builder.Rescale` gives it, so `BuilderLemmas.RescaleProperties` applies to the finished graph |
| Builder.SchemeCost | src/main/java/io/github/ragan/trademaximizer/TradeMaximizer.java:786-793 | at a positive rank every scheme costs at least 1, and every scheme but "no priorities" costs at least the rank |
| Builder.EdgeCost | src/main/java/io/github/ragan/trademaximizer/TradeMaximizer.java:786-796 | an edge out of a dummy costs the no-trade cost; any other edge at a positive rank costs at least 1 |
| Builder.CreateEdges | src/main/java/io/github/ragan/trademaximizer/TradeMaximizer.java:717-817 | after the second loop exactly the kept lists' items have stored edges |
| Builder.BuildGraph | src/main/java/io/github/ragan/trademaximizer/TradeMaximizer.java:666-828 | the graph's vertices are exactly the kept lists' items, each built from its list, and every kept list's item is a vertex |
| BuilderLemmas.SchemeCostMonotone | src/main/java/io/github/ragan/trademaximizer/TradeMaximizer.java:786-793 | every priority scheme keeps the order of preference: a worse rank never costs less |
| BuilderLemmas.TriangleIsSum | src/main/java/io/github/ragan/trademaximizer/TradeMaximizer.java:789 | the triangle scheme's cost at rank r is 1 + 2 + ... + r |
| BuilderLemmas.JavaDivMonotone | src/main/java/io/github/ragan/trademaximizer/TradeMaximizer.java:812 | Java's truncating division by a positive number keeps the order of its dividends, negative ones included |
| BuilderLemmas.RescaleProperties | src/main/java/io/github/ragan/trademaximizer/TradeMaximizer.java:806-815 | the scaled rescale keeps the set of edges and the order of their costs, keeps 1 at 1 and positive costs positive, and maps costs of at most the number of non-self edges into 1..2520 |
| BuilderLemmas.WantStepAccepted | src/main/java/io/github/ragan/trademaximizer/TradeMaximizer.java:726-801 | an accepted want adds exactly one edge, to the item it names, priced by the scheme at the rank in force (or at the no-trade cost out of a dummy); it moves the rank one small step past that rank and reports nothing |
| BuilderLemmas.WantStepRefused | src/main/java/io/github/ragan/trademaximizer/TradeMaximizer.java:726-784 | a refused want adds no edge; the rank moves by the big step at `;`, by the small step past the rank in force for an official item without a list, and otherwise stays at the rank in force; it appends exactly the error `Builder.Refusal` gives for its reason: `=` without explicit priorities (734), a malformed annotation (738), a priority below 1 (745), a dummy in a list without a user (753), the list's own item (774), a repeat only when repeats are shown (778), an item of the same user (783), and nothing for `;`, an official item without a list or an unknown item |
| BuilderLemmas.WantStepUnknowns | src/main/java/io/github/ragan/trademaximizer/TradeMaximizer.java:759-769 | a want naming an item that is neither a vertex nor official adds one occurrence of that item, and any other want leaves the counts unchanged |
| BuilderLemmas.WantStepOk | src/main/java/io/github/ragan/trademaximizer/TradeMaximizer.java:726-801 | one want keeps the walk invariant: no edge to the list's own item, to an unknown item or to a same-user non-dummy item; dummy edges at the no-trade cost; positive ranks and costs under non-negative steps |
| BuilderLemmas.WalkWantsOk | src/main/java/io/github/ragan/trademaximizer/TradeMaximizer.java:725-802 | the walk over a whole list keeps that invariant |
| BuilderLemmas.WalkWantsCounts | src/main/java/io/github/ragan/trademaximizer/TradeMaximizer.java:725-802 | the walk over a whole list counts each unknown item once per occurrence in the list and only appends errors |
| BuilderLemmas.OutEdgesOk | src/main/java/io/github/ragan/trademaximizer/TradeMaximizer.java:806-816 | a list's final edges hold the self edge at the no-trade cost, and the rescale keeps the walk invariant |
| BuilderLemmas.CreateEdgesOk | src/main/java/io/github/ragan/trademaximizer/TradeMaximizer.java:717-817 | after the second loop every stored edge set satisfies the edge invariant |
| BuilderLemmas.CreateEdgesCounts | src/main/java/io/github/ragan/trademaximizer/TradeMaximizer.java:717-817 | after the second loop the unknown counts are the totals over all kept lists, and errors are only appended |
| BuilderLemmas.CreateEdgesComplete | src/main/java/io/github/ragan/trademaximizer/TradeMaximizer.java:717-817 | after the second loop every kept list's edges are its self edge plus exactly one edge per known item one of its wants asks for: none is missing and none is extra |
| BuilderLemmas.UnknownReportsExact | src/main/java/io/github/ragan/trademaximizer/TradeMaximizer.java:821-826 | each unknown item is reported exactly once, with its occurrence count, which is at least 1 |
| BuilderLemmas.BuildGraphSound | src/main/java/io/github/ragan/trademaximizer/TradeMaximizer.java:666-828 | the finished graph: one vertex per item some list may define, from the first such list; vertices match the kept lists; ITEMS and DUMMY_ITEMS count the vertices and dummy vertices; used names are the official vertices; every vertex has its self edge plus exactly one edge per known item its wants ask for; the edge invariant holds; the unknown-item reports are exact |
| Optimizer.SelectBest | src/main/java/io/github/ragan/trademaximizer/TradeMaximizer.java:199-223 | one solution is computed first and one more per loop pass, as many as the iterations (at least one); the kept solution is the first with the lowest metric; the graph ends up holding it; with more than one iteration it is saved once plus once per new best and restored once; the log names the first solution, every solution beating all before it and, in verbose mode, every other one, in order |

## Left out

- The `Graph` class is not part of this model, and neither is what `run` does
  with the graph before and after the loop: `removeImpossibleEdges`,
  `findCycles`, `shuffle`, `saveMatches` and `restoreMatches`. The solutions
  `findCycles` would return come in as a parameter. Save and restore are
  modelled as counters and as the index of the solution they hold.
- The option and want-list readers (`parseArgs`, `readWantLists`) are not
  modelled. They appear only as their outputs: the `Config` value and
  well-formed token lists.
- The following are not modelled: output, timing, the MD5 and seed handling,
  `displayMatches` and the report of missing official names.
- The web handler and entry points are not modelled. The handler
  (TradeMaximizerHandler.java, which is not part of this model) reuses one
  instance for every request, so its graph, errors, ITEMS, DUMMY_ITEMS and
  used names carry over into the next `buildGraph`.
- Builder.BuildGraph: models `buildGraph` on a fresh instance only. It always
  starts from no vertices, no errors, no used names and zero counters.
- The text of the messages and each metric's `toString` are not modelled.
  Each message is a constructor of `Builder.Diagnostic`, and each log line
  is an `Optimizer.Note` naming its solution.
- The `width` bookkeeping for display is not modelled.
- Integers are unbounded. Java `int`/`long` overflow is not modelled. That
  covers:
  - ITEMS and DUMMY_ITEMS;
  - the metrics' `int` sums and products (lines 28 and 117);
  - the rank and cost arithmetic;
  - `(cost - 1) * 2520`;
  - `Long.parseLong` on an over-long explicit priority.
- Text.Upper: upper-cases ASCII letters only. Java's `toUpperCase` also
  changes non-ASCII letters by locale.
- Builder.BuildGraph: requires well-formed token lists. The reader reports,
  but still passes on, two lists the builder then crashes on: a line holding
  only `(user)` gives `["(USER)"]`, and reading the item after the deleted
  first token throws `ArrayIndexOutOfBoundsException` (lines 433-434, 478,
  684); a line `:` gives `[""]`, and `charAt(0)` throws
  `StringIndexOutOfBoundsException` (lines 469-471, 478, 677). Those crashes
  are not modelled.
- Builder.BuildGraph: the unknown-item reports are a set. The program appends
  them to the error list in hash-map order, which is unspecified.
- BuilderLemmas.RescaleProperties: bounds the rescaled cost by 2520 only for
  costs up to the number of non-self edges. Ranks exceed that number, and the
  code's rescaled costs exceed 2520 too, in three ways: a big step, a small
  step above 1, and a want for an official item without a list (line 763),
  which moves the rank by the small step and adds no edge. The last needs
  neither `;` nor non-default steps: wants `M A` with `M` official and
  unlisted give `A` rank 2 with one edge, so its cost becomes 2521. So
  rescaled costs are not confined to 1..2520.
- Metrics.CalculateFavorUser: requires every trading vertex to have a user;
  the program throws a `NullPointerException` otherwise.
