/** The rules the graph builder follows, and what the finished graph satisfies. */
module BuilderLemmas {
  import opened Wrappers
  import opened Text
  import opened ItemGraph
  import opened Builder

  // ---------------------------------------------------------------------------
  // First pass

  /** The heads of all input lists, in input order. */
  function Heads(cfg: Config, lists: seq<seq<string>>): (hs: seq<Head>)
    requires forall i :: 0 <= i < |lists| ==> WellFormedList(lists[i])
    ensures |hs| == |lists|
    ensures forall i :: 0 <= i < |lists| ==> hs[i] == ReadHead(cfg, lists[i])
  {
    seq(|lists|, i requires 0 <= i < |lists| => ReadHead(cfg, lists[i]))
  }

  /** An item a list may be kept for. */
  predicate Definable(cfg: Config, name: string) {
    |name| > 0 && OfficialOk(cfg, name)
  }

  /** The vertices are exactly the items some list is allowed to define, each
      built from the first list that defines it. */
  ghost predicate FromLists(cfg: Config, vertices: map<string, Vertex>, hs: seq<Head>) {
    && (forall k :: k in vertices <==> exists i :: 0 <= i < |hs| && hs[i].name == k && Definable(cfg, k))
    && (forall i :: 0 <= i < |hs| && Definable(cfg, hs[i].name) && (forall j :: 0 <= j < i ==> hs[j].name != hs[i].name) ==>
          hs[i].name in vertices && vertices[hs[i].name] == VertexOf(hs[i]))
  }

  lemma FromListsStep(cfg: Config, vertices: map<string, Vertex>, hp: seq<Head>, h: Head, vertices': map<string, Vertex>)
    requires FromLists(cfg, vertices, hp)
    requires vertices' == if Definable(cfg, h.name) && h.name !in vertices then vertices[h.name := VertexOf(h)] else vertices
    ensures FromLists(cfg, vertices', hp + [h])
  {
    var hs := hp + [h];
    forall k
      ensures k in vertices' <==> exists i :: 0 <= i < |hs| && hs[i].name == k && Definable(cfg, k)
    {
      if k in vertices {
        var i :| 0 <= i < |hp| && hp[i].name == k && Definable(cfg, k);
        assert hs[i] == hp[i];
      } else if k in vertices' {
        assert hs[|hp|].name == k;
      }
      if exists i :: 0 <= i < |hs| && hs[i].name == k && Definable(cfg, k) {
        var i :| 0 <= i < |hs| && hs[i].name == k && Definable(cfg, k);
        if i < |hp| {
          assert hp[i] == hs[i];
        }
      }
    }
    forall i | 0 <= i < |hs| && Definable(cfg, hs[i].name) && (forall j :: 0 <= j < i ==> hs[j].name != hs[i].name)
      ensures hs[i].name in vertices' && vertices'[hs[i].name] == VertexOf(hs[i])
    {
      if i < |hp| {
        assert hs[i] == hp[i];
        assert forall j :: 0 <= j < i ==> hp[j] == hs[j];
      } else {
        assert forall j :: 0 <= j < |hp| ==> hp[j] == hs[j];
        assert h.name !in vertices;
      }
    }
  }

  /** The first pass keeps, for every item some list may define, the first
      such list, and nothing else. */
  lemma {:induction false} CreateVerticesFromLists(cfg: Config, lists: seq<seq<string>>)
    requires forall i :: 0 <= i < |lists| ==> WellFormedList(lists[i])
    ensures FromLists(cfg, CreateVertices(cfg, lists).vertices, Heads(cfg, lists))
  {
    if |lists| > 0 {
      var p := lists[..|lists| - 1];
      var l := lists[|lists| - 1];
      CreateVerticesFromLists(cfg, p);
      HeadsSnoc(cfg, lists);
      AddVertexVertices(cfg, CreateVertices(cfg, p), l);
      FromListsStep(cfg, CreateVertices(cfg, p).vertices, Heads(cfg, p), ReadHead(cfg, l), CreateVertices(cfg, lists).vertices);
    }
  }

  lemma HeadsSnoc(cfg: Config, lists: seq<seq<string>>)
    requires |lists| > 0 && forall i :: 0 <= i < |lists| ==> WellFormedList(lists[i])
    ensures Heads(cfg, lists) == Heads(cfg, lists[..|lists| - 1]) + [ReadHead(cfg, lists[|lists| - 1])]
  {
  }

  lemma AddVertexVertices(cfg: Config, n: Nodes, l: seq<string>)
    requires WellFormedList(l) && NodesOk(cfg, n)
    ensures var h := ReadHead(cfg, l);
      AddVertex(cfg, n, l).vertices == if Definable(cfg, h.name) && h.name !in n.vertices then n.vertices[h.name := VertexOf(h)] else n.vertices
  {
  }

  /** Renaming a dummy after its user keeps the dummies of different users
      apart. */
  lemma DummyNamesDistinct(name: string, u1: string, u2: string)
    requires u1 != u2
    ensures DummyName(name, u1) != DummyName(name, u2)
  {
    var pre := name + " for user ";
    assert DummyName(name, u1) == pre + u1 && DummyName(name, u2) == pre + u2;
    assert (pre + u1)[|pre|..] == u1 && (pre + u2)[|pre|..] == u2;
  }

  // ---------------------------------------------------------------------------
  // Costs

  /** A worse (larger) rank never costs less: the schemes keep the order of
      preference. */
  lemma SchemeCostMonotone(p: Priority, r1: int, r2: int)
    requires 1 <= r1 <= r2
    ensures SchemeCost(p, r1) <= SchemeCost(p, r2)
  {
    if p == TrianglePriorities {
      assert r1 * (r1 + 1) <= r2 * (r2 + 1) by {
        assert r1 * r1 <= r1 * r2 <= r2 * r2;
      }
      DivMonotone(r1 * (r1 + 1), r2 * (r2 + 1), 2);
    } else if p == SquarePriorities {
      assert r1 * r1 <= r1 * r2 <= r2 * r2;
    }
  }

  function SumTo(n: nat): nat {
    if n == 0 then 0 else SumTo(n - 1) + n
  }

  /** The triangle scheme charges 1 + 2 + ... + rank. */
  lemma {:induction false} TriangleIsSum(rank: nat)
    ensures SchemeCost(TrianglePriorities, rank) == SumTo(rank)
  {
    if rank > 0 {
      TriangleIsSum(rank - 1);
      assert rank * (rank + 1) == (rank - 1) * rank + 2 * rank;
    }
  }

  lemma MulMonotone(n: int, x: int, y: int)
    requires n >= 0 && x <= y
    ensures n * x <= n * y
  {
    assert n * y - n * x == n * (y - x);
  }

  lemma DivMonotone(a: int, b: int, n: int)
    requires 0 <= a <= b && n > 0
    ensures a / n <= b / n
  {
    var qa, ra := a / n, a % n;
    var qb, rb := b / n, b % n;
    assert a == n * qa + ra && 0 <= ra < n;
    assert b == n * qb + rb && 0 <= rb < n;
    if qa > qb {
      MulMonotone(n, qb + 1, qa);
      assert false;
    }
  }

  lemma DivNonNegative(a: int, n: int)
    requires a >= 0 && n > 0
    ensures a / n >= 0
  {
  }

  lemma JavaDivMonotone(a: int, b: int, n: int)
    requires a <= b && n > 0
    ensures JavaDiv(a, n) <= JavaDiv(b, n)
  {
    if a >= 0 {
      DivMonotone(a, b, n);
    } else if b < 0 {
      DivMonotone(-b, -a, n);
      assert JavaDiv(a, n) == -((-a) / n);
      assert JavaDiv(b, n) == -((-b) / n);
    } else {
      DivNonNegative(-a, n);
      DivNonNegative(b, n);
      assert JavaDiv(a, n) == -((-a) / n);
      assert JavaDiv(b, n) == b / n;
    }
  }

  lemma RescaleAt(out: map<string, int>, s: string)
    requires s in out
    ensures Rescale(out)[s] == 1 + JavaDiv((out[s] - 1) * ScaleRange, |out|)
  {
  }

  lemma RescaleKeepsOrder(out: map<string, int>, s: string, t: string)
    requires s in out && t in out && out[s] <= out[t]
    ensures Rescale(out)[s] <= Rescale(out)[t]
  {
    RescaleAt(out, s);
    RescaleAt(out, t);
    var a := (out[s] - 1) * ScaleRange;
    var b := (out[t] - 1) * ScaleRange;
    MulMonotone(ScaleRange, out[s] - 1, out[t] - 1);
    JavaDivMonotone(a, b, |out|);
  }

  lemma RescaleInRange(out: map<string, int>, s: string)
    requires s in out && 1 <= out[s]
    ensures 1 <= Rescale(out)[s]
    ensures out[s] == 1 ==> Rescale(out)[s] == 1
    ensures out[s] <= |out| ==> Rescale(out)[s] <= ScaleRange
  {
    RescaleAt(out, s);
    var n := |out|;
    var a := (out[s] - 1) * ScaleRange;
    assert a >= 0;
    DivNonNegative(a, n);
    if out[s] <= n {
      MulMonotone(ScaleRange, out[s] - 1, n - 1);
      DivMonotone(a, (n - 1) * ScaleRange, n);
      DivBelow((n - 1) * ScaleRange, n, ScaleRange);
    }
  }

  lemma DivBelow(a: int, n: int, k: int)
    requires 0 <= a < n * k && n > 0
    ensures a / n < k
  {
    var q, r := a / n, a % n;
    assert a == n * q + r && 0 <= r < n;
    if q >= k {
      MulMonotone(n, k, q);
      assert false;
    }
  }

  /** Rescaling under the scaled scheme keeps the order of the costs, leaves a
      cost of 1 at 1, keeps positive costs positive, and brings a cost of at
      most the number of wants into 1..2520. */
  lemma RescaleProperties(out: map<string, int>)
    ensures Rescale(out).Keys == out.Keys
    ensures forall s, t :: s in out && t in out && out[s] <= out[t] ==> Rescale(out)[s] <= Rescale(out)[t]
    ensures forall s :: s in out && out[s] == 1 ==> Rescale(out)[s] == 1
    ensures forall s :: s in out && out[s] >= 1 ==> Rescale(out)[s] >= 1
    ensures forall s :: s in out && 1 <= out[s] <= |out| ==> Rescale(out)[s] <= ScaleRange
  {
    forall s, t | s in out && t in out && out[s] <= out[t]
      ensures Rescale(out)[s] <= Rescale(out)[t]
    {
      RescaleKeepsOrder(out, s, t);
    }
    forall s | s in out && out[s] >= 1
      ensures 1 <= Rescale(out)[s]
      ensures out[s] == 1 ==> Rescale(out)[s] == 1
      ensures out[s] <= |out| ==> Rescale(out)[s] <= ScaleRange
    {
      RescaleInRange(out, s);
    }
  }

  // ---------------------------------------------------------------------------
  // One want

  /** The rules for a wanted name once any annotation is dealt with. */
  lemma WantItemRules(cfg: Config, vs: map<string, Vertex>, from: Vertex, w: Walk, toName: string)
    requires |toName| > 0
    ensures var r := WantItem(cfg, vs, from, w, toName);
      var t := ResolveName(from, toName);
      && (t.Some? && t.value in vs && t.value != from.name && t.value !in w.out && !SameOwner(from, vs[t.value]) ==>
            r == w.(out := w.out[t.value := EdgeCost(cfg, from, w.rank)], rank := w.rank + cfg.smallStep))
      && (!(t.Some? && t.value in vs && t.value != from.name && t.value !in w.out && !SameOwner(from, vs[t.value])) ==>
            && r.out == w.out
            && r.rank == (if t.Some? && t.value !in vs && IsOfficial(cfg, t.value) then w.rank + cfg.smallStep else w.rank))
      && r.unknowns == (if t.Some? && t.value !in vs && !IsOfficial(cfg, t.value) then Tally(w.unknowns, t.value) else w.unknowns)
      && |r.diagnostics| >= |w.diagnostics| && r.diagnostics[..|w.diagnostics|] == w.diagnostics
  {
  }

  /** An accepted want adds exactly one edge, to the item it names, costed by
      the scheme at the rank in force (or at the no-trade cost out of a
      dummy), and moves the rank one small step past that rank. */
  lemma WantStepAccepted(cfg: Config, vs: map<string, Vertex>, from: Vertex, w: Walk, token: string)
    requires |token| > 0
    requires WantAccepted(cfg, vs, from, w.out, token)
    ensures var r := WantStep(cfg, vs, from, w, token);
      && r.out == w.out[Target(from, cfg, token).value := EdgeCost(cfg, from, RankFor(cfg, w.rank, token))]
      && r.rank == RankFor(cfg, w.rank, token) + cfg.smallStep
      && r.diagnostics == w.diagnostics
      && r.unknowns == w.unknowns
  {
    if '=' in token {
      WantItemRules(cfg, vs, from, w.(rank := ExplicitPriority(token)), ExplicitItem(token));
    } else {
      WantItemRules(cfg, vs, from, w, token);
    }
  }

  /** A want that is refused, for whatever reason, adds no edge. It leaves the
      rank where the `;` or the explicit priority put it, adding the small step
      only for an official item whose owner sent no list. */
  lemma WantStepRefused(cfg: Config, vs: map<string, Vertex>, from: Vertex, w: Walk, token: string)
    requires |token| > 0
    requires !WantAccepted(cfg, vs, from, w.out, token)
    ensures var r := WantStep(cfg, vs, from, w, token);
      && r.out == w.out
      && r.rank == (if token == ";" then w.rank + cfg.bigStep
                    else if MissingOfficial(cfg, vs, from, token) then RankFor(cfg, w.rank, token) + cfg.smallStep
                    else RankFor(cfg, w.rank, token))
      && r.diagnostics == w.diagnostics + Refusal(cfg, vs, from, w.out, token)
  {
    if token != ";" && '=' in token && AnnotationAccepted(cfg, token) {
      WantItemRules(cfg, vs, from, w.(rank := ExplicitPriority(token)), ExplicitItem(token));
    } else if token != ";" && '=' !in token {
      WantItemRules(cfg, vs, from, w, token);
    }
  }

  /** A want naming an unknown item counts one more occurrence of that item;
      every other want leaves the counts alone. */
  lemma WantStepUnknowns(cfg: Config, vs: map<string, Vertex>, from: Vertex, w: Walk, token: string)
    requires |token| > 0
    ensures var r := WantStep(cfg, vs, from, w, token);
      && r.unknowns == (match UnknownTarget(cfg, vs, from, token)
                        case Some(name) => Tally(w.unknowns, name)
                        case None => w.unknowns)
      && |r.diagnostics| >= |w.diagnostics| && r.diagnostics[..|w.diagnostics|] == w.diagnostics
  {
    if token != ";" && '=' in token && AnnotationAccepted(cfg, token) {
      WantItemRules(cfg, vs, from, w.(rank := ExplicitPriority(token)), ExplicitItem(token));
    } else if token != ";" && '=' !in token {
      WantItemRules(cfg, vs, from, w, token);
    }
  }

  // ---------------------------------------------------------------------------
  // One list

  /** The configuration under which every rank stays positive. */
  predicate StepsNonNegative(cfg: Config) {
    cfg.smallStep >= 0 && cfg.bigStep >= 0 && cfg.nonTradeCost >= 1
  }

  /** What the walk over a list keeps true of its non-self edges. */
  ghost predicate WalkOk(cfg: Config, vs: map<string, Vertex>, from: Vertex, w: Walk) {
    && (forall s :: s in w.out ==>
          && s in vs && s != from.name && !SameOwner(from, vs[s])
          && (from.isDummy ==> w.out[s] == cfg.nonTradeCost))
    && (StepsNonNegative(cfg) ==> w.rank >= 1 && forall s :: s in w.out ==> w.out[s] >= 1)
  }

  ghost predicate AllPositive(m: map<string, nat>) {
    forall k :: k in m ==> m[k] >= 1
  }

  /** Number of wants in `tokens` that name the unknown item `name`. */
  function UnknownCount(cfg: Config, vs: map<string, Vertex>, from: Vertex, tokens: seq<string>, name: string): nat
    requires forall i :: 0 <= i < |tokens| ==> |tokens[i]| > 0
  {
    if |tokens| == 0 then 0
    else
      UnknownCount(cfg, vs, from, tokens[..|tokens| - 1], name)
      + (if UnknownTarget(cfg, vs, from, tokens[|tokens| - 1]) == Some(name) then 1 else 0)
  }

  lemma WantStepOk(cfg: Config, vs: map<string, Vertex>, from: Vertex, w: Walk, token: string)
    requires |token| > 0
    requires WalkOk(cfg, vs, from, w)
    ensures WalkOk(cfg, vs, from, WantStep(cfg, vs, from, w, token))
  {
    var r := WantStep(cfg, vs, from, w, token);
    if StepsNonNegative(cfg) {
      assert RankFor(cfg, w.rank, token) >= 1;
    }
    if WantAccepted(cfg, vs, from, w.out, token) {
      WantStepAccepted(cfg, vs, from, w, token);
    } else {
      WantStepRefused(cfg, vs, from, w, token);
    }
  }

  /** The walk over a list keeps its edge invariant. */
  lemma {:induction false} WalkWantsOk(cfg: Config, vs: map<string, Vertex>, from: Vertex, w: Walk, tokens: seq<string>)
    requires forall i :: 0 <= i < |tokens| ==> |tokens[i]| > 0
    requires WalkOk(cfg, vs, from, w)
    ensures WalkOk(cfg, vs, from, WalkWants(cfg, vs, from, w, tokens))
  {
    if |tokens| > 0 {
      var p := tokens[..|tokens| - 1];
      WalkWantsOk(cfg, vs, from, w, p);
      WantStepOk(cfg, vs, from, WalkWants(cfg, vs, from, w, p), tokens[|tokens| - 1]);
    }
  }

  /** After the walk over a list its edges are exactly those before plus one
      per item some token of the list asks for. */
  lemma {:induction false} WalkWantsKeys(cfg: Config, vs: map<string, Vertex>, from: Vertex, w: Walk, tokens: seq<string>)
    requires forall i :: 0 <= i < |tokens| ==> |tokens[i]| > 0
    ensures forall s :: s in WalkWants(cfg, vs, from, w, tokens).out <==> s in w.out || Wanted(cfg, vs, from, tokens, s)
  {
    if |tokens| > 0 {
      var p := tokens[..|tokens| - 1];
      WalkWantsKeys(cfg, vs, from, w, p);
      forall s
        ensures Wanted(cfg, vs, from, tokens, s) <==> Wanted(cfg, vs, from, p, s) || Asks(cfg, vs, from, tokens[|tokens| - 1], s)
      {
        WantedSnoc(cfg, vs, from, tokens, s);
      }
    }
  }

  /** The walk over a list counts every unknown item once per occurrence and
      only ever appends errors. */
  lemma {:induction false} WalkWantsCounts(cfg: Config, vs: map<string, Vertex>, from: Vertex, w: Walk, tokens: seq<string>)
    requires forall i :: 0 <= i < |tokens| ==> |tokens[i]| > 0
    requires AllPositive(w.unknowns)
    ensures var r := WalkWants(cfg, vs, from, w, tokens);
      && AllPositive(r.unknowns)
      && (forall name :: Occurrences(r.unknowns, name) == Occurrences(w.unknowns, name) + UnknownCount(cfg, vs, from, tokens, name))
      && IsPrefix(w.diagnostics, r.diagnostics)
  {
    if |tokens| > 0 {
      var p := tokens[..|tokens| - 1];
      WalkWantsCounts(cfg, vs, from, w, p);
      var mid := WalkWants(cfg, vs, from, w, p);
      WantStepUnknowns(cfg, vs, from, mid, tokens[|tokens| - 1]);
      PrefixTransitive(w.diagnostics, mid.diagnostics, WalkWants(cfg, vs, from, w, tokens).diagnostics);
    }
  }

  /** `a` is an initial part of `b`: errors are only ever appended. */
  predicate IsPrefix<T(==)>(a: seq<T>, b: seq<T>) {
    |a| <= |b| && b[..|a|] == a
  }

  lemma PrefixTransitive<T>(a: seq<T>, b: seq<T>, c: seq<T>)
    requires IsPrefix(a, b) && IsPrefix(b, c)
    ensures IsPrefix(a, c)
  {
    assert c[..|a|] == c[..|b|][..|a|];
  }

  // ---------------------------------------------------------------------------
  // Ranks along a list

  /** The distinct items a list asks for, in the order they are first asked
      for. */
  function Choices(cfg: Config, vs: map<string, Vertex>, from: Vertex, tokens: seq<string>): seq<string>
    requires forall i :: 0 <= i < |tokens| ==> |tokens[i]| > 0
  {
    if |tokens| == 0 then []
    else
      var p := Choices(cfg, vs, from, tokens[..|tokens| - 1]);
      var last := tokens[|tokens| - 1];
      var t := Target(from, cfg, last);
      if t.Some? && Asks(cfg, vs, from, last, t.value) && t.value !in p then p + [t.value] else p
  }

  /** A token that moves the rank only when it adds an edge: not a `;`, no
      explicit priority, and not an official item without a list. */
  predicate Plain(cfg: Config, vs: map<string, Vertex>, from: Vertex, token: string)
    requires |token| > 0
  {
    token != ";" && '=' !in token && !MissingOfficial(cfg, vs, from, token)
  }

  /** The walk of a list started at rank 1 with no edges, over plain tokens:
      the k-th distinct item asked for (counting from 0) is costed at rank
      `ChoiceRank(cfg, k)` = 1 + k * small step, and the rank stands one small
      step past the last. */
  ghost predicate RanksFromOne(cfg: Config, vs: map<string, Vertex>, from: Vertex, tokens: seq<string>, w: Walk)
    requires forall i :: 0 <= i < |tokens| ==> |tokens[i]| > 0
  {
    RankedBy(cfg, from, Choices(cfg, vs, from, tokens), w)
  }

  lemma ChoicesSnoc(cfg: Config, vs: map<string, Vertex>, from: Vertex, p: seq<string>, t: string)
    requires forall i :: 0 <= i < |p| ==> |p[i]| > 0
    requires |t| > 0
    ensures forall i :: 0 <= i < |p + [t]| ==> |(p + [t])[i]| > 0
    ensures var c := Choices(cfg, vs, from, p);
      var tt := Target(from, cfg, t);
      Choices(cfg, vs, from, p + [t]) == if tt.Some? && Asks(cfg, vs, from, t, tt.value) && tt.value !in c then c + [tt.value] else c
  {
    assert (p + [t])[..|p|] == p;
  }

  lemma PlainStep(cfg: Config, vs: map<string, Vertex>, from: Vertex, p: seq<string>, t: string, w: Walk)
    requires forall i :: 0 <= i < |p| ==> |p[i]| > 0
    requires |t| > 0 && Plain(cfg, vs, from, t)
    requires RanksFromOne(cfg, vs, from, p, w)
    ensures RanksFromOne(cfg, vs, from, p + [t], WantStep(cfg, vs, from, w, t))
  {
    ChoicesSnoc(cfg, vs, from, p, t);
    if WantAccepted(cfg, vs, from, w.out, t) {
      PlainAccepted(cfg, vs, from, Choices(cfg, vs, from, p), t, w);
    } else {
      PlainRefused(cfg, vs, from, Choices(cfg, vs, from, p), t, w);
    }
  }

  /** The rank of the k-th choice (counting from 0) of a list that starts at
      rank 1 and moves one small step per edge. */
  function ChoiceRank(cfg: Config, k: nat): int {
    1 + k * cfg.smallStep
  }

  lemma ChoiceRankNext(cfg: Config, k: nat)
    ensures ChoiceRank(cfg, k + 1) == ChoiceRank(cfg, k) + cfg.smallStep
  {
    assert (k + 1) * cfg.smallStep == k * cfg.smallStep + cfg.smallStep;
  }

  /** The walk's state in terms of the choices `c` so far. */
  ghost predicate RankedBy(cfg: Config, from: Vertex, c: seq<string>, w: Walk) {
    && w.rank == ChoiceRank(cfg, |c|)
    && (forall s :: s in w.out <==> s in c)
    && (forall k :: 0 <= k < |c| ==> c[k] in w.out && w.out[c[k]] == EdgeCost(cfg, from, ChoiceRank(cfg, k)))
  }

  lemma PlainAccepted(cfg: Config, vs: map<string, Vertex>, from: Vertex, c: seq<string>, t: string, w: Walk)
    requires |t| > 0 && Plain(cfg, vs, from, t)
    requires RankedBy(cfg, from, c, w)
    requires WantAccepted(cfg, vs, from, w.out, t)
    ensures var tt := Target(from, cfg, t);
      && tt.Some? && Asks(cfg, vs, from, t, tt.value) && tt.value !in c
      && RankedBy(cfg, from, c + [tt.value], WantStep(cfg, vs, from, w, t))
  {
    WantStepAccepted(cfg, vs, from, w, t);
    var r := WantStep(cfg, vs, from, w, t);
    RankedByAdd(cfg, from, c, Target(from, cfg, t).value, w, r);
  }

  /** One more edge, at the current rank, after the choices `c`. */
  lemma RankedByAdd(cfg: Config, from: Vertex, c: seq<string>, name: string, w: Walk, r: Walk)
    requires RankedBy(cfg, from, c, w) && name !in w.out
    requires r.out == w.out[name := EdgeCost(cfg, from, w.rank)] && r.rank == w.rank + cfg.smallStep
    ensures RankedBy(cfg, from, c + [name], r)
  {
    var c' := c + [name];
    ChoiceRankNext(cfg, |c|);
    forall k | 0 <= k < |c'|
      ensures c'[k] in r.out && r.out[c'[k]] == EdgeCost(cfg, from, ChoiceRank(cfg, k))
    {
      if k < |c| {
        assert c'[k] == c[k] && c[k] in w.out && c[k] != name;
      } else {
        assert c'[k] == name && k == |c|;
      }
    }
    forall s
      ensures s in r.out <==> s in c'
    {
      assert s in c' <==> s in c || s == name;
    }
  }

  lemma PlainRefused(cfg: Config, vs: map<string, Vertex>, from: Vertex, c: seq<string>, t: string, w: Walk)
    requires |t| > 0 && Plain(cfg, vs, from, t)
    requires RankedBy(cfg, from, c, w)
    requires !WantAccepted(cfg, vs, from, w.out, t)
    ensures var tt := Target(from, cfg, t);
      && !(tt.Some? && Asks(cfg, vs, from, t, tt.value) && tt.value !in c)
      && RankedBy(cfg, from, c, WantStep(cfg, vs, from, w, t))
  {
    WantStepRefused(cfg, vs, from, w, t);
  }

  /** Over plain tokens, the walk of a list from rank 1 costs its k-th distinct
      item at rank 1 + k * small step. */
  lemma {:induction false} WalkPlainRanks(cfg: Config, vs: map<string, Vertex>, from: Vertex, w: Walk, tokens: seq<string>)
    requires forall i :: 0 <= i < |tokens| ==> |tokens[i]| > 0 && Plain(cfg, vs, from, tokens[i])
    requires w.rank == 1 && w.out == map[]
    ensures RanksFromOne(cfg, vs, from, tokens, WalkWants(cfg, vs, from, w, tokens))
  {
    if |tokens| > 0 {
      var p := tokens[..|tokens| - 1];
      WalkPlainRanks(cfg, vs, from, w, p);
      assert tokens == p + [tokens[|tokens| - 1]];
      PlainStep(cfg, vs, from, p, tokens[|tokens| - 1], WalkWants(cfg, vs, from, w, p));
    }
  }

  /** The walk of a kept list starts at rank 1: over plain tokens its k-th
      distinct item costs the scheme's cost at rank 1 + k * small step. */
  lemma WalkListRanks(cfg: Config, vs: map<string, Vertex>, h: Head, s: EdgeState)
    requires h.name in vs
    requires forall k :: 0 <= k < |h.wants| ==> |h.wants[k]| > 0 && Plain(cfg, vs, vs[h.name], h.wants[k])
    ensures RanksFromOne(cfg, vs, vs[h.name], h.wants, WalkList(cfg, vs, h, s))
  {
    WalkPlainRanks(cfg, vs, vs[h.name], Walk(1, map[], s.diagnostics, s.unknowns), h.wants);
  }

  /** A walk never changes or drops an edge it already holds. */
  lemma {:induction false} WalkWantsKeepsEdges(cfg: Config, vs: map<string, Vertex>, from: Vertex, w: Walk, tokens: seq<string>)
    requires forall i :: 0 <= i < |tokens| ==> |tokens[i]| > 0
    ensures var r := WalkWants(cfg, vs, from, w, tokens);
      forall s :: s in w.out ==> s in r.out && r.out[s] == w.out[s]
  {
    if |tokens| > 0 {
      var p := tokens[..|tokens| - 1];
      var mid := WalkWants(cfg, vs, from, w, p);
      WalkWantsKeepsEdges(cfg, vs, from, w, p);
      if WantAccepted(cfg, vs, from, mid.out, tokens[|tokens| - 1]) {
        WantStepAccepted(cfg, vs, from, mid, tokens[|tokens| - 1]);
      } else {
        WantStepRefused(cfg, vs, from, mid, tokens[|tokens| - 1]);
      }
    }
  }

  /** Walking `a + b` is walking `a`, then `b`. */
  lemma {:induction false} WalkWantsAppend(cfg: Config, vs: map<string, Vertex>, from: Vertex, w: Walk, a: seq<string>, b: seq<string>)
    requires forall i :: 0 <= i < |a| ==> |a[i]| > 0
    requires forall i :: 0 <= i < |b| ==> |b[i]| > 0
    ensures forall i :: 0 <= i < |a + b| ==> |(a + b)[i]| > 0
    ensures WalkWants(cfg, vs, from, w, a + b) == WalkWants(cfg, vs, from, WalkWants(cfg, vs, from, w, a), b)
  {
    if |b| > 0 {
      var b' := b[..|b| - 1];
      WalkWantsAppend(cfg, vs, from, w, a, b');
      assert (a + b)[..|a + b| - 1] == a + b';
    } else {
      assert a + b == a;
    }
  }

  /** Whatever follows, a kept list's first want, when it has no explicit
      priority and is accepted, is costed at rank 1. */
  lemma WalkListFirstChoice(cfg: Config, vs: map<string, Vertex>, h: Head, s: EdgeState)
    requires h.name in vs
    requires forall k :: 0 <= k < |h.wants| ==> |h.wants[k]| > 0
    requires |h.wants| > 0 && '=' !in h.wants[0] && WantAccepted(cfg, vs, vs[h.name], map[], h.wants[0])
    ensures var t := Target(vs[h.name], cfg, h.wants[0]).value;
      t in WalkList(cfg, vs, h, s).out && WalkList(cfg, vs, h, s).out[t] == EdgeCost(cfg, vs[h.name], 1)
  {
    var from := vs[h.name];
    var w := Walk(1, map[], s.diagnostics, s.unknowns);
    var first := h.wants[..1];
    var rest := h.wants[1..];
    assert h.wants == first + rest;
    WalkWantsAppend(cfg, vs, from, w, first, rest);
    assert first[..0] == [];
    WantStepAccepted(cfg, vs, from, w, h.wants[0]);
    WalkWantsKeepsEdges(cfg, vs, from, WalkWants(cfg, vs, from, w, first), rest);
  }

  // ---------------------------------------------------------------------------
  // The whole graph

  /** The finished edge sets: every receiver has its self edge at the no-trade
      cost; every other edge goes to another known item not owned by the same
      user (dummies excepted); edges out of a dummy cost the no-trade cost; and
      with non-negative steps and a positive no-trade cost every cost is
      positive. */
  ghost predicate EdgesOk(cfg: Config, vs: map<string, Vertex>, edges: map<string, map<string, int>>) {
    forall r :: r in edges ==> r in vs && OutOk(cfg, vs, vs[r], edges[r])
  }

  /** The edge invariant for the edges `out` of one receiving item. */
  ghost predicate OutOk(cfg: Config, vs: map<string, Vertex>, from: Vertex, out: map<string, int>) {
    && from.name in out && out[from.name] == cfg.nonTradeCost
    && forall s :: s in out ==>
         && s in vs
         && (s != from.name ==> !SameOwner(from, vs[s]))
         && (from.isDummy ==> out[s] == cfg.nonTradeCost)
         && (StepsNonNegative(cfg) ==> out[s] >= 1)
  }

  /** Unknown-item occurrences over all kept lists. */
  function UnknownTotal(cfg: Config, vs: map<string, Vertex>, kept: seq<Head>, name: string): nat
    requires HeadsResolve(vs, kept)
  {
    if |kept| == 0 then 0
    else
      var h := kept[|kept| - 1];
      UnknownTotal(cfg, vs, kept[..|kept| - 1], name) + UnknownCount(cfg, vs, vs[h.name], h.wants, name)
  }

  lemma OutEdgesOk(cfg: Config, vs: map<string, Vertex>, from: Vertex, w: Walk)
    requires from.name in vs && vs[from.name] == from
    requires WalkOk(cfg, vs, from, w)
    ensures OutOk(cfg, vs, from, OutEdges(cfg, from, w))
  {
    RescaleProperties(w.out);
  }

  /** After the second pass over `kept`, every stored edge set satisfies the
      edge invariant (which items have one is `CreateEdges`' own contract). */
  lemma {:induction false} CreateEdgesOk(cfg: Config, vs: map<string, Vertex>, kept: seq<Head>, diagnostics: seq<Diagnostic>)
    requires HeadsResolve(vs, kept)
    requires NamesAgree(vs)
    ensures EdgesOk(cfg, vs, CreateEdges(cfg, vs, kept, diagnostics).edges)
  {
    if |kept| > 0 {
      var p := kept[..|kept| - 1];
      assert HeadsResolve(vs, p);
      CreateEdgesOk(cfg, vs, p, diagnostics);
      StepEdges(cfg, vs, kept[|kept| - 1], CreateEdges(cfg, vs, p, diagnostics));
    }
  }

  /** The edges stored for one list are its self edge plus exactly one edge
      per item its wants ask for; every other list's edges are untouched. */
  lemma EdgeStepKeys(cfg: Config, vs: map<string, Vertex>, h: Head, prev: EdgeState)
    requires h.name in vs && forall k :: 0 <= k < |h.wants| ==> |h.wants[k]| > 0
    requires NamesAgree(vs)
    ensures var e := EdgeStep(cfg, vs, h, prev);
      && (forall s :: s in e.edges[h.name] <==> s == h.name || Wanted(cfg, vs, vs[h.name], h.wants, s))
      && (forall r :: r != h.name && r in prev.edges ==> e.edges[r] == prev.edges[r])
  {
    var from := vs[h.name];
    var w := WalkList(cfg, vs, h, prev);
    WalkWantsKeys(cfg, vs, from, Walk(1, map[], prev.diagnostics, prev.unknowns), h.wants);
    assert OutEdges(cfg, from, w).Keys == w.out.Keys + {h.name};
  }

  /** The edges of every kept list are its self edge plus one edge per known
      item that one of its wants asks for. */
  ghost predicate EdgesComplete(cfg: Config, vs: map<string, Vertex>, kept: seq<Head>, edges: map<string, map<string, int>>)
    requires HeadsResolve(vs, kept)
  {
    forall i :: 0 <= i < |kept| ==>
      && kept[i].name in edges
      && forall s :: s in edges[kept[i].name] <==> s == kept[i].name || Wanted(cfg, vs, vs[kept[i].name], kept[i].wants, s)
  }

  /** After the second pass nothing that a want asks for is missing, and no
      edge is there that no want asks for. */
  lemma {:induction false} CreateEdgesComplete(cfg: Config, vs: map<string, Vertex>, kept: seq<Head>, diagnostics: seq<Diagnostic>)
    requires HeadsResolve(vs, kept)
    requires forall i, j :: 0 <= i < j < |kept| ==> kept[i].name != kept[j].name
    requires NamesAgree(vs)
    ensures EdgesComplete(cfg, vs, kept, CreateEdges(cfg, vs, kept, diagnostics).edges)
  {
    if |kept| > 0 {
      var p := kept[..|kept| - 1];
      PrefixResolves(vs, kept);
      CreateEdgesComplete(cfg, vs, p, diagnostics);
      CompleteStep(cfg, vs, kept, CreateEdges(cfg, vs, p, diagnostics));
    }
  }

  lemma PrefixResolves(vs: map<string, Vertex>, kept: seq<Head>)
    requires |kept| > 0 && HeadsResolve(vs, kept)
    requires forall i, j :: 0 <= i < j < |kept| ==> kept[i].name != kept[j].name
    ensures var p := kept[..|kept| - 1];
      && HeadsResolve(vs, p)
      && (forall i, j :: 0 <= i < j < |p| ==> p[i].name != p[j].name)
      && (forall i :: 0 <= i < |p| ==> p[i].name != kept[|kept| - 1].name)
  {
  }

  lemma CompleteStep(cfg: Config, vs: map<string, Vertex>, kept: seq<Head>, prev: EdgeState)
    requires |kept| > 0 && HeadsResolve(vs, kept)
    requires forall i :: 0 <= i < |kept| - 1 ==> kept[i].name != kept[|kept| - 1].name
    requires NamesAgree(vs)
    requires HeadsResolve(vs, kept[..|kept| - 1]) && EdgesComplete(cfg, vs, kept[..|kept| - 1], prev.edges)
    ensures EdgesComplete(cfg, vs, kept, EdgeStep(cfg, vs, kept[|kept| - 1], prev).edges)
  {
    var p := kept[..|kept| - 1];
    var h := kept[|kept| - 1];
    EdgeStepKeys(cfg, vs, h, prev);
    forall i | 0 <= i < |p|
      ensures kept[i] == p[i]
    {
    }
  }

  /** The unknown-item counts are the totals over the kept lists, and errors
      were only appended to `diagnostics`. */
  ghost predicate CountsOk(cfg: Config, vs: map<string, Vertex>, kept: seq<Head>, diagnostics: seq<Diagnostic>, e: EdgeState)
    requires HeadsResolve(vs, kept)
  {
    && AllPositive(e.unknowns)
    && (forall name :: Occurrences(e.unknowns, name) == UnknownTotal(cfg, vs, kept, name))
    && IsPrefix(diagnostics, e.diagnostics)
  }

  /** After the second pass over `kept`: the unknown-item counts are the totals
      over the kept lists, and errors were only appended. */
  lemma {:induction false} CreateEdgesCounts(cfg: Config, vs: map<string, Vertex>, kept: seq<Head>, diagnostics: seq<Diagnostic>)
    requires HeadsResolve(vs, kept)
    ensures var e := CreateEdges(cfg, vs, kept, diagnostics);
      && AllPositive(e.unknowns)
      && (forall name :: Occurrences(e.unknowns, name) == UnknownTotal(cfg, vs, kept, name))
      && IsPrefix(diagnostics, e.diagnostics)
  {
    if |kept| > 0 {
      var p := kept[..|kept| - 1];
      var h := kept[|kept| - 1];
      assert HeadsResolve(vs, p);
      CreateEdgesCounts(cfg, vs, p, diagnostics);
      assert kept == p + [h];
      CountsStep(cfg, vs, p, h, diagnostics, CreateEdges(cfg, vs, p, diagnostics));
    }
  }

  lemma CountsStep(cfg: Config, vs: map<string, Vertex>, p: seq<Head>, h: Head, diagnostics: seq<Diagnostic>, prev: EdgeState)
    requires h.name in vs && forall k :: 0 <= k < |h.wants| ==> |h.wants[k]| > 0
    requires HeadsResolve(vs, p + [h]) && HeadsResolve(vs, p)
    requires CountsOk(cfg, vs, p, diagnostics, prev)
    ensures CountsOk(cfg, vs, p + [h], diagnostics, EdgeStep(cfg, vs, h, prev))
  {
    StepUnknowns(cfg, vs, h, prev);
    PrefixTransitive(diagnostics, prev.diagnostics, EdgeStep(cfg, vs, h, prev).diagnostics);
    forall name
      ensures UnknownTotal(cfg, vs, p + [h], name) == UnknownTotal(cfg, vs, p, name) + UnknownCount(cfg, vs, vs[h.name], h.wants, name)
    {
      UnknownTotalSnoc(cfg, vs, p, h, name);
    }
  }

  lemma UnknownTotalSnoc(cfg: Config, vs: map<string, Vertex>, p: seq<Head>, h: Head, name: string)
    requires h.name in vs && forall k :: 0 <= k < |h.wants| ==> |h.wants[k]| > 0
    requires HeadsResolve(vs, p + [h])
    requires HeadsResolve(vs, p)
    ensures UnknownTotal(cfg, vs, p + [h], name) == UnknownTotal(cfg, vs, p, name) + UnknownCount(cfg, vs, vs[h.name], h.wants, name)
  {
    var kept := p + [h];
    assert kept[..|kept| - 1] == p;
  }

  lemma StepEdges(cfg: Config, vs: map<string, Vertex>, h: Head, prev: EdgeState)
    requires h.name in vs && forall k :: 0 <= k < |h.wants| ==> |h.wants[k]| > 0
    requires NamesAgree(vs)
    requires EdgesOk(cfg, vs, prev.edges)
    ensures EdgesOk(cfg, vs, EdgeStep(cfg, vs, h, prev).edges)
  {
    var from := vs[h.name];
    var w0 := Walk(1, map[], prev.diagnostics, prev.unknowns);
    WalkWantsOk(cfg, vs, from, w0, h.wants);
    AddOutEdgesOk(cfg, vs, prev.edges, from, WalkList(cfg, vs, h, prev));
  }

  lemma StepUnknowns(cfg: Config, vs: map<string, Vertex>, h: Head, prev: EdgeState)
    requires h.name in vs && forall k :: 0 <= k < |h.wants| ==> |h.wants[k]| > 0
    requires AllPositive(prev.unknowns)
    ensures var e := EdgeStep(cfg, vs, h, prev);
      && AllPositive(e.unknowns)
      && (forall name :: Occurrences(e.unknowns, name) == Occurrences(prev.unknowns, name) + UnknownCount(cfg, vs, vs[h.name], h.wants, name))
      && IsPrefix(prev.diagnostics, e.diagnostics)
  {
    var w0 := Walk(1, map[], prev.diagnostics, prev.unknowns);
    WalkWantsCounts(cfg, vs, vs[h.name], w0, h.wants);
  }

  lemma AddOutEdgesOk(cfg: Config, vs: map<string, Vertex>, edges: map<string, map<string, int>>, from: Vertex, w: Walk)
    requires EdgesOk(cfg, vs, edges)
    requires from.name in vs && vs[from.name] == from
    requires WalkOk(cfg, vs, from, w)
    ensures EdgesOk(cfg, vs, edges[from.name := OutEdges(cfg, from, w)])
  {
    OutEdgesOk(cfg, vs, from, w);
  }

  /** What `buildGraph` produces.
      - Vertices: there is one vertex per item that some list may define,
        built from the first list defining it; the vertices match the kept
        lists; ITEMS counts the vertices and DUMMY_ITEMS the dummy vertices;
        the used official names are exactly the official vertices.
      - Edges: every vertex has its self edge at the no-trade cost plus one
        edge per known item its wants ask for, and no other edge; no edge
        joins an item to a non-dummy item of the same user; edges out of
        dummies cost the no-trade cost; and every cost is positive when the
        steps are not negative and the no-trade cost is positive.
      - Unknown items: each is reported once, with the number of wants
        naming it. */
  lemma BuildGraphSound(cfg: Config, lists: seq<seq<string>>)
    requires forall i :: 0 <= i < |lists| ==> WellFormedList(lists[i])
    ensures var b := BuildGraph(cfg, lists);
      && FromLists(cfg, b.graph.vertices, Heads(cfg, lists))
      && VerticesMatch(b.graph.vertices, b.kept)
      && b.items == |b.graph.vertices| && b.dummyItems == |DummyNames(b.graph.vertices)|
      && (forall u :: u in b.usedNames <==> u in b.graph.vertices && IsOfficial(cfg, u))
      && b.graph.edges.Keys == b.graph.vertices.Keys
      && EdgesComplete(cfg, b.graph.vertices, b.kept, b.graph.edges)
      && EdgesOk(cfg, b.graph.vertices, b.graph.edges)
      && (forall name :: Occurrences(b.unknowns, name) == UnknownTotal(cfg, b.graph.vertices, b.kept, name))
      && (forall d :: d in b.unknownReports <==> d.UnknownItem? && d.item in b.unknowns && d.occurrences == b.unknowns[d.item])
      && (forall d :: d in b.unknownReports ==> d.occurrences >= 1)
  {
    BuildGraphVertices(cfg, lists);
    BuildGraphShape(cfg, lists);
    BuildGraphUnknowns(cfg, lists);
  }

  lemma BuildGraphVertices(cfg: Config, lists: seq<seq<string>>)
    requires forall i :: 0 <= i < |lists| ==> WellFormedList(lists[i])
    ensures var b := BuildGraph(cfg, lists);
      && FromLists(cfg, b.graph.vertices, Heads(cfg, lists))
      && b.dummyItems == |DummyNames(b.graph.vertices)|
      && (forall u :: u in b.usedNames <==> u in b.graph.vertices && IsOfficial(cfg, u))
  {
    CreateVerticesFromLists(cfg, lists);
  }

  lemma BuildGraphShape(cfg: Config, lists: seq<seq<string>>)
    requires forall i :: 0 <= i < |lists| ==> WellFormedList(lists[i])
    ensures var b := BuildGraph(cfg, lists);
      && VerticesMatch(b.graph.vertices, b.kept)
      && b.graph.edges.Keys == b.graph.vertices.Keys
      && EdgesOk(cfg, b.graph.vertices, b.graph.edges)
      && EdgesComplete(cfg, b.graph.vertices, b.kept, b.graph.edges)
      && b.items == |b.graph.vertices|
  {
    var n := CreateVertices(cfg, lists);
    CreateEdgesOk(cfg, n.vertices, n.kept, n.diagnostics);
    CreateEdgesComplete(cfg, n.vertices, n.kept, n.diagnostics);
    var e := CreateEdges(cfg, n.vertices, n.kept, n.diagnostics);
    assert e.edges.Keys == n.vertices.Keys;
  }

  lemma BuildGraphUnknowns(cfg: Config, lists: seq<seq<string>>)
    requires forall i :: 0 <= i < |lists| ==> WellFormedList(lists[i])
    ensures var b := BuildGraph(cfg, lists);
      && (forall name :: Occurrences(b.unknowns, name) == UnknownTotal(cfg, b.graph.vertices, b.kept, name))
      && (forall d :: d in b.unknownReports <==> d.UnknownItem? && d.item in b.unknowns && d.occurrences == b.unknowns[d.item])
      && (forall d :: d in b.unknownReports ==> d.occurrences >= 1)
  {
    var n := CreateVertices(cfg, lists);
    CreateEdgesCounts(cfg, n.vertices, n.kept, n.diagnostics);
    var e := CreateEdges(cfg, n.vertices, n.kept, n.diagnostics);
    UnknownReportsExact(e.unknowns);
  }

  /** Each unknown item is reported exactly once, with its count. */
  lemma UnknownReportsExact(unknowns: map<string, nat>)
    requires AllPositive(unknowns)
    ensures forall d :: d in UnknownReports(unknowns) <==> d.UnknownItem? && d.item in unknowns && d.occurrences == unknowns[d.item]
    ensures forall d :: d in UnknownReports(unknowns) ==> d.occurrences >= 1
  {
  }
}
