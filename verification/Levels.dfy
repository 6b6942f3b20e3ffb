/** Breadth-first levels never fall and each augmentation empties an edge, so few augmentations suffice. */
module Levels {
  import opened Sums
  import opened Grids

  /**
   `level` bounds distances from the source: no edge with capacity left skips a level. A node at
   level `n` is unreachable.
   */
  ghost predicate Labels(n: nat, g: Grid, source: nat, level: seq<nat>) {
    && Square(n, g) && |level| == n && source < n && level[source] == 0
    && (forall v :: 0 <= v < n ==> level[v] <= n)
    && (forall u, v :: 0 <= u < n && 0 <= v < n && g[u][v] > 0 && level[u] < n ==> level[v] <= level[u] + 1)
  }

  /** The levels of a search tree: exact distances along it, and `n` for what it does not reach. */
  ghost predicate TreeLevels(n: nat, g: Grid, parent: seq<nat>, rank: seq<nat>, source: nat, level: seq<nat>) {
    && Square(n, g) && |parent| == n && |rank| == n && |level| == n && source < n && level[source] == 0
    && (forall v :: 0 <= v < n && parent[v] == UNSET ==> level[v] == n)
    && (forall v :: 0 <= v < n && v != source && parent[v] != UNSET ==>
                      && parent[v] < n && parent[parent[v]] != UNSET && rank[parent[v]] < rank[v]
                      && g[parent[v]][v] > 0 && level[v] == level[parent[v]] + 1)
    && (forall v :: 0 <= v < n && parent[v] != UNSET ==> level[v] < n)
  }

  /** Labels that are still valid are below the levels of the next search. */
  lemma {:induction false} LevelGrows(n: nat, g: Grid, parent: seq<nat>, rank: seq<nat>, source: nat,
                                      before: seq<nat>, level: seq<nat>, v: nat)
    requires Labels(n, g, source, before) && TreeLevels(n, g, parent, rank, source, level) && v < n
    ensures before[v] <= level[v]
    decreases rank[v]
  {
    if v != source && parent[v] != UNSET {
      LevelGrows(n, g, parent, rank, source, before, level, parent[v]);
    }
  }

  // ---- how often each edge has been emptied

  /**
   An edge with capacity was emptied at most half its tail's level times; an empty one, half its
   head's level and once.
   */
  ghost predicate Counted(n: nat, g: Grid, level: seq<nat>, times: Grid) {
    && Square(n, g) && Square(n, times) && |level| == n
    && forall u, v :: 0 <= u < n && 0 <= v < n ==> CountedAt(g, level, times, u, v)
  }

  ghost predicate CountedAt(g: Grid, level: seq<nat>, times: Grid, u: int, v: int)
    requires 0 <= u < |g| == |times| == |level| && 0 <= v < |level| && v < |g[u]| && v < |times[u]|
  {
    0 <= times[u][v] && 2 * times[u][v] <= (if g[u][v] > 0 then level[u] else level[v] + 1)
  }

  ghost function Again(times: Grid, u: int, v: int): Grid
    requires 0 <= u < |times| && 0 <= v < |times[u]|
  {
    times[u := times[u][v := times[u][v] + 1]]
  }

  /** One more emptying of `(u, v)` if the push takes all it had. */
  ghost function Tally(g: Grid, times: Grid, u: int, v: int, b: int): Grid
    requires 0 <= u < |g| && 0 <= v < |g[u]| && 0 <= u < |times| && 0 <= v < |times[u]|
  {
    if g[u][v] == b then Again(times, u, v) else times
  }

  lemma AgainEntries(n: nat, times: Grid, u: int, v: int)
    requires Square(n, times) && 0 <= u < n && 0 <= v < n
    ensures var a := Again(times, u, v);
            && Square(n, a) && a[u][v] == times[u][v] + 1
            && forall x, y :: 0 <= x < n && 0 <= y < n && !(x == u && y == v) ==> a[x][y] == times[x][y]
  {
    var a := Again(times, u, v);
    assert a[u] == times[u][v := times[u][v] + 1];
    assert forall w :: 0 <= w < n && w != u ==> a[w] == times[w];
  }

  /** A push from one level to the next keeps the labels: the edge it opens leads one level back. */
  lemma PushLabels(n: nat, g: Grid, source: nat, level: seq<nat>, u: int, v: int, b: int)
    requires Labels(n, g, source, level) && 0 <= u < n && 0 <= v < n && u != v && b > 0
    requires level[u] < n && level[v] == level[u] + 1
    ensures Labels(n, Push(g, u, v, b), source, level)
  {
    PushEntries(n, g, u, v, b);
  }

  /** And it keeps the count: an edge that is emptied was due, one that is opened stays below its new bound. */
  lemma PushCounted(n: nat, g: Grid, level: seq<nat>, times: Grid, u: int, v: int, b: int)
    requires Counted(n, g, level, times) && 0 <= u < n && 0 <= v < n && u != v && 0 < b <= g[u][v] && 0 <= g[v][u]
    requires level[v] == level[u] + 1
    ensures Counted(n, Push(g, u, v, b), level, Tally(g, times, u, v, b))
  {
    PushEntries(n, g, u, v, b);
    AgainEntries(n, times, u, v);
    var h, t := Push(g, u, v, b), Tally(g, times, u, v, b);
    forall x, y | 0 <= x < n && 0 <= y < n ensures CountedAt(h, level, t, x, y) {
      assert CountedAt(g, level, times, x, y);
    }
  }

  lemma CountedLater(n: nat, g: Grid, level: seq<nat>, later: seq<nat>, times: Grid)
    requires Counted(n, g, level, times) && |later| == n && forall v :: 0 <= v < n ==> level[v] <= later[v]
    ensures Counted(n, g, later, times)
  {
    forall u, v | 0 <= u < n && 0 <= v < n ensures CountedAt(g, later, times, u, v) {
      assert CountedAt(g, level, times, u, v);
    }
  }

  // ---- all emptyings together

  ghost function Emptyings(n: nat, times: Grid): int {
    Sum(n, Rows(n, Entries(times)))
  }

  lemma AgainTotal(n: nat, times: Grid, u: int, v: int)
    requires Square(n, times) && 0 <= u < n && 0 <= v < n
    ensures Emptyings(n, Again(times, u, v)) == Emptyings(n, times) + 1
  {
    var a := Again(times, u, v);
    AgainEntries(n, times, u, v);
    forall x, y | 0 <= x < n && 0 <= y < n
      ensures Entries(a)(x, y) == Entries(times)(x, y) + if x == u && y == v then 1 else 0
    {
      assert Entries(a)(x, y) == a[x][y] && Entries(times)(x, y) == times[x][y];
    }
    forall x | 0 <= x < n ensures Rows(n, Entries(a))(x) == Rows(n, Entries(times))(x) + if x == u then 1 else 0 {
      var before, after := (y: int) => Entries(times)(x, y), (y: int) => Entries(a)(x, y);
      RowIs(n, Entries(times), x, before);
      RowIs(n, Entries(a), x, after);
      if x == u { SumChange(n, before, after, v); } else { SumSame(n, before, after); }
    }
    SumChange(n, Rows(n, Entries(times)), Rows(n, Entries(a)), u);
  }

  lemma {:induction false} SumAtMost(n: nat, f: int -> int, k: int)
    requires forall i :: 0 <= i < n ==> f(i) <= k
    ensures Sum(n, f) <= n * k
  {
    if n > 0 { SumAtMost(n - 1, f, k); }
  }

  /** At most of the order of the cube of the number of nodes, whatever the capacities. */
  lemma TotalAtMost(n: nat, g: Grid, level: seq<nat>, times: Grid)
    requires Counted(n, g, level, times) && forall v :: 0 <= v < n ==> level[v] <= n
    ensures Emptyings(n, times) <= n * (n * ((n + 1) / 2))
  {
    forall u | 0 <= u < n ensures Rows(n, Entries(times))(u) <= n * ((n + 1) / 2) {
      forall v | 0 <= v < n ensures Entries(times)(u, v) <= (n + 1) / 2 {
        assert Entries(times)(u, v) == times[u][v] && CountedAt(g, level, times, u, v);
      }
      var row := (v: int) => Entries(times)(u, v);
      RowIs(n, Entries(times), u, row);
      SumAtMost(n, row, (n + 1) / 2);
    }
    SumAtMost(n, Rows(n, Entries(times)), n * ((n + 1) / 2));
  }
}
