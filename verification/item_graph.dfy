/** The item graph that the want lists are turned into.

    Every item is one vertex record; its receiving role and its sending role
    (the "twin" of the program) are not separate objects but the two
    ends of an edge: an edge keyed `(r, s)` runs from the receiving vertex of
    item `r` to the sending vertex of item `s`, and `(r, r)` is the self
    ("no-trade") edge of `r`. */
module ItemGraph {
  import opened Wrappers

  /** One item: its name, the `(user)` token of its want list if there was one,
      and whether it is a dummy (a name starting with '%'). */
  datatype Vertex = Vertex(name: string, user: Option<string>, isDummy: bool)

  /** A trade loop: the receiving vertices of the items in the loop, in order. */
  type Cycle = seq<Vertex>

  /** `edges[r][s]` is the cost of the edge from the receiving vertex of `r` to
      the sending vertex of `s`. */
  datatype Graph = Graph(vertices: map<string, Vertex>, edges: map<string, map<string, int>>)

  /** Vertices are filed under their own names. */
  ghost predicate NamesAgree(vertices: map<string, Vertex>) {
    forall k :: k in vertices ==> vertices[k].name == k
  }

  /** The owner test of the edge builder: a want for a non-dummy item of the
      receiving item's own (known) user is refused. */
  predicate SameOwner(from: Vertex, to: Vertex) {
    !to.isDummy && from.user.Some? && from.user == to.user
  }
}
