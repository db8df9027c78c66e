/** Construction of the item graph from tokenised want lists (`buildGraph`).

    A want list arrives as the whitespace-separated tokens of one line: an
    optional `(user)` token, the item the list is for, then the wanted items,
    with `;` tokens separating priority groups and, under explicit priorities,
    `name=n` tokens giving a rank. The builder runs in two passes: the first
    makes one vertex per accepted list, the second walks every accepted list's
    wants, keeping a running rank, and adds the edges. */
module Builder {
  import opened Wrappers
  import opened Text
  import opened ItemGraph

  datatype Priority =
    | NoPriorities
    | LinearPriorities
    | TrianglePriorities
    | SquarePriorities
    | ScaledPriorities
    | ExplicitPriorities

  /** The options the builder reads. The reader reports malformed numeric
      options but still stores the value it parsed, so steps and costs are
      arbitrary integers here. */
  datatype Config = Config(
    priorityScheme: Priority,
    smallStep: int,
    bigStep: int,
    nonTradeCost: int,
    allowDummies: bool,
    showRepeats: bool,
    officialNames: Option<set<string>>)

  /** The builder's error messages, one constructor per message. */
  datatype Diagnostic =
    | DummyWithoutUser(item: string)
    | DummiesNotAllowed(item: string)
    | NotOfficial(item: string)
    | MultipleWantLists(item: string)
    | ExplicitNotEnabled(token: string, list: string)
    | ExplicitMalformed(token: string, list: string)
    | ExplicitNotPositive(token: string, list: string)
    | DummyWantWithoutUser(token: string, list: string)
    | OwnWantList(item: string)
    | Repeated(item: string, list: string)
    | SameUser(list: string, item: string, user: string)
    | UnknownItem(item: string, occurrences: nat)

  /** The range the scaled scheme stretches each list's ranks over. */
  const ScaleRange: int := 2520

  // ---------------------------------------------------------------------------
  // Tokens

  /** What the reader guarantees of a tokenised list: it is not empty, no token
      is empty, and a `(user)` token is followed by at least the item's name. */
  predicate WellFormedList(list: seq<string>) {
    && |list| > 0
    && (forall i :: 0 <= i < |list| ==> |list[i]| > 0)
    && (list[0][0] == '(' ==> |list| >= 2)
  }

  /** `deleteFirst`: copy all but the first token into a new array. */
  method DeleteFirst(a: seq<string>) returns (b: seq<string>)
    requires |a| > 0
    ensures |b| == |a| - 1
    ensures forall i :: 0 <= i < |b| ==> b[i] == a[i + 1]
  {
    var arr := new string[|a| - 1];
    var i := 0;
    while i < arr.Length
      invariant 0 <= i <= arr.Length
      invariant forall k :: 0 <= k < i ==> arr[k] == a[k + 1]
    {
      arr[i] := a[i + 1];
      i := i + 1;
    }
    b := arr[..];
  }

  /** The name a dummy item gets once its owner is known. */
  function DummyName(name: string, user: string): (r: string)
    ensures |r| > |name| && r[..|name|] == name
  {
    name + " for user " + user
  }

  // ---------------------------------------------------------------------------
  // First pass: vertices

  /** The head of a want list: the item it is for, with its user and dummy flag,
      the remaining tokens, and the errors reading it raised. */
  datatype Head = Head(name: string, user: Option<string>, isDummy: bool, wants: seq<string>, diagnostics: seq<Diagnostic>)

  function VertexOf(h: Head): Vertex {
    Vertex(h.name, h.user, h.isDummy)
  }

  /** The token naming the item a list is for: the first one, or the second
      after a `(user)` token. */
  function ItemToken(list: seq<string>): (item: string)
    requires WellFormedList(list)
    ensures |item| > 0
  {
    if list[0][0] == '(' then list[1] else list[0]
  }

  /** Strip a leading `(user)` token (restoring the spaces of the user name)
      and rename a dummy item after its user when dummies are allowed. A dummy
      without a user, or one that is not allowed, keeps its name and stays a
      dummy; only an error is recorded. */
  function ReadHead(cfg: Config, list: seq<string>): (h: Head)
    requires WellFormedList(list)
    ensures |h.name| > 0 && (h.isDummy <==> h.name[0] == '%')
    ensures list[0][0] == '(' ==> h.user == Some(RestoreSpaces(list[0])) && h.wants == list[2..]
    ensures list[0][0] != '(' ==> h.user == None && h.wants == list[1..]
    ensures forall i :: 0 <= i < |h.wants| ==> |h.wants[i]| > 0
    ensures var item := ItemToken(list);
      && (h.isDummy <==> item[0] == '%')
      && h.name == (if h.isDummy && h.user.Some? && cfg.allowDummies then DummyName(item, h.user.value) else item)
      && h.diagnostics == (if !h.isDummy then []
                           else if h.user.None? then [DummyWithoutUser(item)]
                           else if !cfg.allowDummies then [DummiesNotAllowed(item)]
                           else [])
  {
    var user := if list[0][0] == '(' then Some(RestoreSpaces(list[0])) else None;
    var rest := if list[0][0] == '(' then list[1..] else list;
    var name := rest[0];
    assert forall i :: 0 <= i < |rest[1..]| ==> rest[1..][i] == rest[i + 1];
    if name[0] == '%' then
      if user.None? then Head(name, user, true, rest[1..], [DummyWithoutUser(name)])
      else if !cfg.allowDummies then Head(name, user, true, rest[1..], [DummiesNotAllowed(name)])
      else Head(DummyName(name, user.value), user, true, rest[1..], [])
    else Head(name, user, false, rest[1..], [])
  }

  /** A list may define an item only if the item is official (when there is a
      list of official names); dummies are exempt. */
  predicate OfficialOk(cfg: Config, name: string)
    requires |name| > 0
  {
    cfg.officialNames.None? || name in cfg.officialNames.value || name[0] == '%'
  }

  predicate IsOfficial(cfg: Config, name: string) {
    cfg.officialNames.Some? && name in cfg.officialNames.value
  }

  /** State of the first pass: the vertices so far, the heads of the lists that
      were kept (in input order), the errors, the official names that got a
      list, and the ITEMS / DUMMY_ITEMS counters. */
  datatype Nodes = Nodes(
    vertices: map<string, Vertex>,
    kept: seq<Head>,
    diagnostics: seq<Diagnostic>,
    usedNames: seq<string>,
    items: nat,
    dummyItems: nat)

  /** What the first pass keeps true: every kept list has its own vertex, there
      is no other vertex, names are distinct and the counters count. */
  ghost predicate NodesOk(cfg: Config, n: Nodes) {
    && VerticesMatch(n.vertices, n.kept)
    && (forall i :: 0 <= i < |n.kept| ==> forall k :: 0 <= k < |n.kept[i].wants| ==> |n.kept[i].wants[k]| > 0)
    && n.items == |n.kept| == |n.vertices|
    && n.dummyItems == |DummyNames(n.vertices)| && n.dummyItems <= n.items
    && (forall u :: u in n.usedNames <==> u in n.vertices && IsOfficial(cfg, u))
  }

  /** The dummy items among the vertices. */
  function DummyNames(vertices: map<string, Vertex>): set<string> {
    set k | k in vertices && vertices[k].isDummy
  }

  /** The vertices are exactly those of the kept lists, whose items are distinct. */
  ghost predicate VerticesMatch(vertices: map<string, Vertex>, kept: seq<Head>) {
    && NamesAgree(vertices)
    && (forall k :: k in vertices <==> k in Names(kept))
    && (forall i :: 0 <= i < |kept| ==> vertices[kept[i].name] == VertexOf(kept[i]))
    && (forall i, j :: 0 <= i < j < |kept| ==> kept[i].name != kept[j].name)
  }

  /** The items of the kept lists, in order. */
  function Names(kept: seq<Head>): (names: seq<string>)
    ensures |names| == |kept|
    ensures forall i :: 0 <= i < |kept| ==> names[i] == kept[i].name
  {
    seq(|kept|, i requires 0 <= i < |kept| => kept[i].name)
  }

  /** One iteration of the first loop of `buildGraph`. */
  function AddVertex(cfg: Config, n: Nodes, list: seq<string>): (r: Nodes)
    requires WellFormedList(list)
    requires NodesOk(cfg, n)
    ensures NodesOk(cfg, r)
    ensures var h := ReadHead(cfg, list);
      if OfficialOk(cfg, h.name) && h.name !in n.vertices then
        r.kept == n.kept + [h] && r.vertices == n.vertices[h.name := VertexOf(h)]
      else
        r.kept == n.kept && r.vertices == n.vertices
    ensures var h := ReadHead(cfg, list);
      r.usedNames == n.usedNames + (if OfficialOk(cfg, h.name) && h.name !in n.vertices && IsOfficial(cfg, h.name) then [h.name] else [])
    ensures var h := ReadHead(cfg, list);
      r.diagnostics == n.diagnostics + h.diagnostics +
        (if !OfficialOk(cfg, h.name) then [NotOfficial(h.name)]
         else if h.name in n.vertices then [MultipleWantLists(h.name)]
         else [])
  {
    var h := ReadHead(cfg, list);
    var d := n.diagnostics + h.diagnostics;
    if !OfficialOk(cfg, h.name) then
      n.(diagnostics := d + [NotOfficial(h.name)])
    else if h.name in n.vertices then
      n.(diagnostics := d + [MultipleWantLists(h.name)])
    else
      KeepPreservesNodesOk(cfg, n, h, d);
      Keep(cfg, n, h, d)
  }

  /** The first pass keeping a list: a new vertex, and the counters move. */
  function Keep(cfg: Config, n: Nodes, h: Head, d: seq<Diagnostic>): Nodes {
    Nodes(
      n.vertices[h.name := VertexOf(h)],
      n.kept + [h],
      d,
      n.usedNames + (if IsOfficial(cfg, h.name) then [h.name] else []),
      n.items + 1,
      n.dummyItems + (if h.isDummy then 1 else 0))
  }

  lemma KeepPreservesNodesOk(cfg: Config, n: Nodes, h: Head, d: seq<Diagnostic>)
    requires NodesOk(cfg, n)
    requires h.name !in n.vertices
    requires forall k :: 0 <= k < |h.wants| ==> |h.wants[k]| > 0
    ensures NodesOk(cfg, Keep(cfg, n, h, d))
  {
    var r := Keep(cfg, n, h, d);
    KeepMatches(n.vertices, n.kept, h);
    KeepSize(n.vertices, h.name, VertexOf(h));
    KeepWants(n.kept, h);
    KeepDummies(n.vertices, h);
  }

  lemma KeepDummies(vertices: map<string, Vertex>, h: Head)
    requires h.name !in vertices
    ensures |DummyNames(vertices[h.name := VertexOf(h)])| == |DummyNames(vertices)| + (if h.isDummy then 1 else 0)
  {
    var d := DummyNames(vertices[h.name := VertexOf(h)]);
    if h.isDummy {
      assert d == DummyNames(vertices) + {h.name};
    } else {
      assert d == DummyNames(vertices);
    }
  }

  lemma KeepSize<V>(m: map<string, V>, k: string, v: V)
    requires k !in m
    ensures |m[k := v]| == |m| + 1
  {
    assert m[k := v].Keys == m.Keys + {k};
  }

  lemma KeepWants(kept: seq<Head>, h: Head)
    requires forall i :: 0 <= i < |kept| ==> forall k :: 0 <= k < |kept[i].wants| ==> |kept[i].wants[k]| > 0
    requires forall k :: 0 <= k < |h.wants| ==> |h.wants[k]| > 0
    ensures var ks := kept + [h];
      forall i :: 0 <= i < |ks| ==> forall k :: 0 <= k < |ks[i].wants| ==> |ks[i].wants[k]| > 0
  {
  }

  lemma KeepMatches(vertices: map<string, Vertex>, kept: seq<Head>, h: Head)
    requires VerticesMatch(vertices, kept)
    requires h.name !in vertices
    ensures VerticesMatch(vertices[h.name := VertexOf(h)], kept + [h])
  {
    var vs := vertices[h.name := VertexOf(h)];
    var ks := kept + [h];
    assert Names(ks) == Names(kept) + [h.name];
    forall i | 0 <= i < |kept|
      ensures kept[i].name != h.name
    {
      assert Names(kept)[i] == kept[i].name;
    }
    forall i | 0 <= i < |ks|
      ensures vs[ks[i].name] == VertexOf(ks[i])
    {
      if i < |kept| {
        assert ks[i] == kept[i];
      }
    }
  }

  /** The first loop of `buildGraph` over all lists. */
  function CreateVertices(cfg: Config, lists: seq<seq<string>>): (n: Nodes)
    requires forall i :: 0 <= i < |lists| ==> WellFormedList(lists[i])
    ensures NodesOk(cfg, n)
  {
    if |lists| == 0 then Nodes(map[], [], [], [], 0, 0)
    else AddVertex(cfg, CreateVertices(cfg, lists[..|lists| - 1]), lists[|lists| - 1])
  }

  // ---------------------------------------------------------------------------
  // Second pass: edges

  /** Cost of a want at a given rank under each priority scheme. The scaled
      scheme uses the rank here and rescales once the list is done. The
      triangle product is never negative, so Dafny's division agrees with
      Java's here. */
  function SchemeCost(p: Priority, rank: int): (c: int)
    ensures rank >= 1 ==> c >= 1
    ensures rank >= 1 && p != NoPriorities ==> c >= rank
  {
    RankProducts(rank);
    match p
    case NoPriorities => 1
    case LinearPriorities => rank
    case TrianglePriorities => rank * (rank + 1) / 2
    case SquarePriorities => rank * rank
    case ScaledPriorities => rank
    case ExplicitPriorities => rank
  }

  lemma RankProducts(rank: int)
    ensures rank >= 1 ==> rank * rank >= rank && rank * (rank + 1) / 2 >= rank
  {
    assert rank * (rank + 1) == rank * rank + rank;
  }

  /** Edges out of a dummy all cost the no-trade cost. */
  function EdgeCost(cfg: Config, from: Vertex, rank: int): (c: int)
    ensures from.isDummy ==> c == cfg.nonTradeCost
    ensures !from.isDummy && rank >= 1 ==> c >= 1
  {
    if from.isDummy then cfg.nonTradeCost else SchemeCost(cfg.priorityScheme, rank)
  }

  /** The syntax `name=digits` (with at least one character on each side) that
      an explicit priority must have. */
  predicate WellFormedExplicit(token: string) {
    var k := IndexOf(token, '=');
    1 <= k < |token| - 1 && AllDigits(token[k + 1..])
  }

  function ExplicitPriority(token: string): nat
    requires WellFormedExplicit(token)
  {
    DigitsValue(token[IndexOf(token, '=') + 1..])
  }

  function ExplicitItem(token: string): (name: string)
    requires WellFormedExplicit(token)
    ensures |name| > 0 && '=' !in name
  {
    token[..IndexOf(token, '=')]
  }

  /** A token's `=` annotation, if it has one, passes every check: explicit
      priorities are on, the syntax is right and the number is positive. */
  predicate AnnotationAccepted(cfg: Config, token: string) {
    '=' in token ==>
      cfg.priorityScheme == ExplicitPriorities && WellFormedExplicit(token) && ExplicitPriority(token) >= 1
  }

  /** The rank a want is costed at: its explicit priority if it has an accepted
      one, the running rank otherwise. */
  function RankFor(cfg: Config, rank: int, token: string): int {
    if '=' in token && AnnotationAccepted(cfg, token) then ExplicitPriority(token) else rank
  }

  /** The item a wanted name stands for: a dummy name is qualified by the user
      of the list it appears in, and is refused (`None`) when that list has no
      user. */
  function ResolveName(from: Vertex, name: string): Option<string>
    requires |name| > 0
  {
    if name[0] != '%' then Some(name)
    else if from.user.None? then None
    else Some(DummyName(name, from.user.value))
  }

  /** The item a token names once any annotation is accepted; `None` for a
      `;`, a refused annotation, or a refused dummy name. */
  function Target(from: Vertex, cfg: Config, token: string): (t: Option<string>)
    requires |token| > 0
  {
    if token == ";" || !AnnotationAccepted(cfg, token) then None
    else ResolveName(from, if '=' in token then ExplicitItem(token) else token)
  }

  /** A want that becomes an edge: it names a known item that is not the list's
      own, not already wanted, and not a non-dummy item of the same user. */
  predicate WantAccepted(cfg: Config, vs: map<string, Vertex>, from: Vertex, out: map<string, int>, token: string)
    requires |token| > 0
  {
    var t := Target(from, cfg, token);
    t.Some? && t.value in vs && t.value != from.name && t.value !in out && !SameOwner(from, vs[t.value])
  }

  /** A want naming an official item whose owner sent no list. */
  predicate MissingOfficial(cfg: Config, vs: map<string, Vertex>, from: Vertex, token: string)
    requires |token| > 0
  {
    var t := Target(from, cfg, token);
    t.Some? && t.value !in vs && IsOfficial(cfg, t.value)
  }

  /** The unknown item a want names, if it names one. */
  function UnknownTarget(cfg: Config, vs: map<string, Vertex>, from: Vertex, token: string): Option<string>
    requires |token| > 0
  {
    var t := Target(from, cfg, token);
    if t.Some? && t.value !in vs && !IsOfficial(cfg, t.value) then t else None
  }

  /** The error a want records, by the reason it is refused: a `=` annotation
      while explicit priorities are off, a malformed one, a priority below 1,
      a dummy in a list without a user, the list's own item, a repeat (only
      when repeats are shown), or a non-dummy item of the list's own user.
      A `;`, an official item without a list, an unknown item and an accepted
      want record nothing. */
  function Refusal(cfg: Config, vs: map<string, Vertex>, from: Vertex, out: map<string, int>, token: string): seq<Diagnostic>
    requires |token| > 0
  {
    if token == ";" then []
    else if '=' in token && cfg.priorityScheme != ExplicitPriorities then [ExplicitNotEnabled(token, from.name)]
    else if '=' in token && !WellFormedExplicit(token) then [ExplicitMalformed(token, from.name)]
    else if !AnnotationAccepted(cfg, token) then [ExplicitNotPositive(token, from.name)]
    else match Target(from, cfg, token)
      case None => [DummyWantWithoutUser(if '=' in token then ExplicitItem(token) else token, from.name)]
      case Some(s) =>
        if s !in vs then []
        else if s == from.name then [OwnWantList(s)]
        else if s in out then (if cfg.showRepeats then [Repeated(s, from.name)] else [])
        else if SameOwner(from, vs[s]) then [SameUser(from.name, vs[s].name, from.user.value)]
        else []
  }

  /** Occurrence counts of unknown items. */
  function Occurrences(m: map<string, nat>, name: string): nat {
    if name in m then m[name] else 0
  }

  function Tally(m: map<string, nat>, name: string): (r: map<string, nat>)
    ensures r.Keys == m.Keys + {name}
    ensures Occurrences(r, name) == Occurrences(m, name) + 1
    ensures forall k :: k != name ==> Occurrences(r, k) == Occurrences(m, k)
  {
    m[name := Occurrences(m, name) + 1]
  }

  /** State of the walk over one want list: the running rank, the non-self
      edges out of the list's item (keyed by the wanted item), and the errors
      and unknown-item counts accumulated over all lists so far. */
  datatype Walk = Walk(rank: int, out: map<string, int>, diagnostics: seq<Diagnostic>, unknowns: map<string, nat>)

  /** A token that asks for an edge to `s`: it names `s`, a known item other
      than the list's own and not a non-dummy item of the list's user. */
  predicate Asks(cfg: Config, vs: map<string, Vertex>, from: Vertex, token: string, s: string)
    requires |token| > 0
  {
    Target(from, cfg, token) == Some(s) && s in vs && s != from.name && !SameOwner(from, vs[s])
  }

  /** Some token of the list asks for an edge to `s`. */
  ghost predicate Wanted(cfg: Config, vs: map<string, Vertex>, from: Vertex, tokens: seq<string>, s: string)
    requires forall i :: 0 <= i < |tokens| ==> |tokens[i]| > 0
  {
    exists k :: 0 <= k < |tokens| && Asks(cfg, vs, from, tokens[k], s)
  }

  lemma WantedSnoc(cfg: Config, vs: map<string, Vertex>, from: Vertex, tokens: seq<string>, s: string)
    requires |tokens| > 0 && forall i :: 0 <= i < |tokens| ==> |tokens[i]| > 0
    ensures Wanted(cfg, vs, from, tokens, s) <==>
      Wanted(cfg, vs, from, tokens[..|tokens| - 1], s) || Asks(cfg, vs, from, tokens[|tokens| - 1], s)
  {
    var p := tokens[..|tokens| - 1];
    if Wanted(cfg, vs, from, tokens, s) {
      var k :| 0 <= k < |tokens| && Asks(cfg, vs, from, tokens[k], s);
      if k < |p| {
        assert p[k] == tokens[k];
      }
    }
    if Wanted(cfg, vs, from, p, s) {
      var k :| 0 <= k < |p| && Asks(cfg, vs, from, p[k], s);
      assert tokens[k] == p[k];
    }
  }

  /** A want that resolved to a name: look it up and add the edge or report
      why not. */
  function WantItem(cfg: Config, vs: map<string, Vertex>, from: Vertex, w: Walk, toName: string): (r: Walk)
    requires |toName| > 0
    ensures forall s :: s in r.out <==>
      s in w.out || (ResolveName(from, toName) == Some(s) && s in vs && s != from.name && !SameOwner(from, vs[s]))
  {
    if toName[0] == '%' && from.user.None? then
      w.(diagnostics := w.diagnostics + [DummyWantWithoutUser(toName, from.name)])
    else
      var name := if toName[0] == '%' then DummyName(toName, from.user.value) else toName;
      if name !in vs then
        if IsOfficial(cfg, name) then w.(rank := w.rank + cfg.smallStep)
        else w.(unknowns := Tally(w.unknowns, name))
      else if name == from.name then
        w.(diagnostics := w.diagnostics + [OwnWantList(name)])
      else if name in w.out then
        if cfg.showRepeats then w.(diagnostics := w.diagnostics + [Repeated(name, from.name)]) else w
      else if SameOwner(from, vs[name]) then
        w.(diagnostics := w.diagnostics + [SameUser(from.name, vs[name].name, from.user.value)])
      else
        w.(out := w.out[name := EdgeCost(cfg, from, w.rank)], rank := w.rank + cfg.smallStep)
  }

  /** One iteration of the want loop of `buildGraph`. */
  function WantStep(cfg: Config, vs: map<string, Vertex>, from: Vertex, w: Walk, token: string): (r: Walk)
    requires |token| > 0
    ensures |r.diagnostics| >= |w.diagnostics| && r.diagnostics[..|w.diagnostics|] == w.diagnostics
    ensures forall s :: s in r.out <==> s in w.out || Asks(cfg, vs, from, token, s)
  {
    if token == ";" then
      w.(rank := w.rank + cfg.bigStep)
    else if '=' in token then
      if cfg.priorityScheme != ExplicitPriorities then
        w.(diagnostics := w.diagnostics + [ExplicitNotEnabled(token, from.name)])
      else if !WellFormedExplicit(token) then
        w.(diagnostics := w.diagnostics + [ExplicitMalformed(token, from.name)])
      else if ExplicitPriority(token) < 1 then
        w.(diagnostics := w.diagnostics + [ExplicitNotPositive(token, from.name)])
      else
        WantItem(cfg, vs, from, w.(rank := ExplicitPriority(token)), ExplicitItem(token))
    else
      WantItem(cfg, vs, from, w, token)
  }

  /** The want loop over a whole list. */
  function WalkWants(cfg: Config, vs: map<string, Vertex>, from: Vertex, w: Walk, tokens: seq<string>): Walk
    requires forall i :: 0 <= i < |tokens| ==> |tokens[i]| > 0
  {
    if |tokens| == 0 then w
    else WantStep(cfg, vs, from, WalkWants(cfg, vs, from, w, tokens[..|tokens| - 1]), tokens[|tokens| - 1])
  }

  /** Java's `/` on `long`: the quotient rounded toward zero. */
  function JavaDiv(a: int, n: int): (q: int)
    requires n > 0
    ensures a >= 0 ==> q == a / n
  {
    if a >= 0 then a / n else -((-a) / n)
  }

  /** The scaled scheme's rescaling of the non-self edges of one list:
      `1 + (cost - 1) * 2520 / n` with `n` the number of those edges. With no
      such edge there is nothing to divide. */
  function Rescale(out: map<string, int>): (r: map<string, int>)
    ensures r.Keys == out.Keys
  {
    if |out| == 0 then out
    else map s | s in out :: 1 + JavaDiv((out[s] - 1) * ScaleRange, |out|)
  }

  /** All edges out of one list's item: the rescaled (when the scheme asks for
      it and the item is not a dummy) non-self edges, plus the self edge. */
  function OutEdges(cfg: Config, from: Vertex, walked: Walk): (r: map<string, int>)
    ensures r.Keys == walked.out.Keys + {from.name}
    ensures r[from.name] == cfg.nonTradeCost
    ensures from.isDummy || cfg.priorityScheme != ScaledPriorities ==>
      forall s :: s in walked.out && s != from.name ==> r[s] == walked.out[s]
    ensures !from.isDummy && cfg.priorityScheme == ScaledPriorities ==>
      forall s :: s in walked.out && s != from.name ==> r[s] == Rescale(walked.out)[s]
  {
    var out := if !from.isDummy && cfg.priorityScheme == ScaledPriorities then Rescale(walked.out) else walked.out;
    out[from.name := cfg.nonTradeCost]
  }

  /** Every kept list's item is a vertex and its tokens are not empty. */
  predicate HeadsResolve(vs: map<string, Vertex>, kept: seq<Head>) {
    forall i :: 0 <= i < |kept| ==>
      && kept[i].name in vs
      && forall k :: 0 <= k < |kept[i].wants| ==> |kept[i].wants[k]| > 0
  }

  /** State of the second pass. */
  datatype EdgeState = EdgeState(edges: map<string, map<string, int>>, diagnostics: seq<Diagnostic>, unknowns: map<string, nat>)

  /** The walk over one kept list, starting at rank 1 with no edges. */
  function WalkList(cfg: Config, vs: map<string, Vertex>, h: Head, s: EdgeState): Walk
    requires h.name in vs
    requires forall k :: 0 <= k < |h.wants| ==> |h.wants[k]| > 0
  {
    WalkWants(cfg, vs, vs[h.name], Walk(1, map[], s.diagnostics, s.unknowns), h.wants)
  }

  /** One kept list of the second loop: walk its wants and store its edges. */
  function EdgeStep(cfg: Config, vs: map<string, Vertex>, h: Head, s: EdgeState): EdgeState
    requires h.name in vs
    requires forall k :: 0 <= k < |h.wants| ==> |h.wants[k]| > 0
  {
    var w := WalkList(cfg, vs, h, s);
    EdgeState(s.edges[h.name := OutEdges(cfg, vs[h.name], w)], w.diagnostics, w.unknowns)
  }

  /** The second loop of `buildGraph` over the kept lists. */
  function CreateEdges(cfg: Config, vs: map<string, Vertex>, kept: seq<Head>, diagnostics: seq<Diagnostic>): (e: EdgeState)
    requires HeadsResolve(vs, kept)
    ensures forall r :: r in e.edges <==> r in Names(kept)
  {
    if |kept| == 0 then EdgeState(map[], diagnostics, map[])
    else
      var p := kept[..|kept| - 1];
      var h := kept[|kept| - 1];
      assert kept == p + [h];
      NamesSnoc(p, h);
      EdgeStep(cfg, vs, h, CreateEdges(cfg, vs, p, diagnostics))
  }

  lemma NamesSnoc(p: seq<Head>, h: Head)
    ensures forall r :: r in Names(p + [h]) <==> r in Names(p) || r == h.name
  {
    assert Names(p + [h]) == Names(p) + [h.name];
  }

  /** One report per unknown item, with its number of occurrences. */
  function UnknownReports(unknowns: map<string, nat>): set<Diagnostic> {
    set name | name in unknowns :: UnknownItem(name, unknowns[name])
  }

  /** What `buildGraph` leaves behind. The unknown-item reports come from a
      hash map in the program, in no particular order, so they are a set. */
  datatype Built = Built(
    graph: Graph,
    diagnostics: seq<Diagnostic>,
    unknownReports: set<Diagnostic>,
    unknowns: map<string, nat>,
    kept: seq<Head>,
    usedNames: seq<string>,
    items: nat,
    dummyItems: nat)

  /** `buildGraph`. */
  function BuildGraph(cfg: Config, lists: seq<seq<string>>): (b: Built)
    requires forall i :: 0 <= i < |lists| ==> WellFormedList(lists[i])
    ensures HeadsResolve(b.graph.vertices, b.kept)
    ensures VerticesMatch(b.graph.vertices, b.kept)
  {
    var n := CreateVertices(cfg, lists);
    var e := CreateEdges(cfg, n.vertices, n.kept, n.diagnostics);
    Built(Graph(n.vertices, e.edges), e.diagnostics, UnknownReports(e.unknowns), e.unknowns,
          n.kept, n.usedNames, n.items, n.dummyItems)
  }
}
