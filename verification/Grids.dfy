/** Square matrices of numbers as values, and one push along an edge. */
module Grids {
  import opened Flow

  /** `usize::MAX`, the mark of an undiscovered node. */
  const UNSET: nat := 0xFFFF_FFFF_FFFF_FFFF

  type Grid = seq<seq<int>>

  ghost predicate Square(n: nat, g: Grid) {
    |g| == n && forall u :: 0 <= u < n ==> |g[u]| == n
  }

  ghost function Entries(g: Grid): Matrix {
    (u, v) => if 0 <= u < |g| && 0 <= v < |g[u]| then g[u][v] else 0
  }

  /** `b` moves from the capacity of one direction to that of the other. */
  ghost function Push(g: Grid, u: int, v: int, b: int): Grid
    requires 0 <= u < |g| && 0 <= v < |g| && Square(|g|, g)
  {
    var h := g[u := g[u][v := g[u][v] - b]];
    h[v := h[v][u := h[v][u] + b]]
  }

  /** A push changes two entries. */
  lemma PushEntries(n: nat, g: Grid, u: int, v: int, b: int)
    requires Square(n, g) && 0 <= u < n && 0 <= v < n && u != v
    ensures var h := Push(g, u, v, b);
            && Square(n, h) && h[u][v] == g[u][v] - b && h[v][u] == g[v][u] + b
            && forall x, y :: 0 <= x < n && 0 <= y < n && !(x == u && y == v) && !(x == v && y == u) ==>
                 h[x][y] == g[x][y]
  {
    var h := Push(g, u, v, b);
    assert h[u] == g[u][v := g[u][v] - b] && h[v] == g[v][u := g[v][u] + b];
    assert forall w :: 0 <= w < n && w != u && w != v ==> h[w] == g[w];
  }
}
