/** Edmonds-Karp on a dense residual matrix (crates/authority/src/constraint/ap2.rs, `max_flow`). */
module EdmondsKarp {
  import opened Sums
  import opened Flow
  import opened Grids
  import opened Levels

  const U128_MAX: int := 0xFFFF_FFFF_FFFF_FFFF_FFFF_FFFF_FFFF_FFFF

  /** Overflow of this type is a proof obligation at every operation. */
  newtype u128 = x: int | 0 <= x <= 0xFFFF_FFFF_FFFF_FFFF_FFFF_FFFF_FFFF_FFFF

  ghost function RowOf(cap: array2<u128>, u: nat, m: nat): (row: seq<int>)
    reads cap
    requires u < cap.Length0 && m <= cap.Length1
    ensures |row| == m && forall v :: 0 <= v < m ==> row[v] == cap[u, v] as int
  {
    if m == 0 then [] else RowOf(cap, u, m - 1) + [cap[u, m - 1] as int]
  }

  ghost function GridOf(cap: array2<u128>, m: nat): (g: Grid)
    reads cap
    requires m <= cap.Length0
    ensures |g| == m && forall u :: 0 <= u < m ==> g[u] == RowOf(cap, u, cap.Length1)
  {
    if m == 0 then [] else GridOf(cap, m - 1) + [RowOf(cap, m - 1, cap.Length1)]
  }

  /** The matrix as a value. */
  ghost function Snapshot(cap: array2<u128>): (g: Grid)
    reads cap
    ensures |g| == cap.Length0 && forall u :: 0 <= u < |g| ==> |g[u]| == cap.Length1
    ensures forall u, v :: 0 <= u < cap.Length0 && 0 <= v < cap.Length1 ==> g[u][v] == cap[u, v] as int
  {
    GridOf(cap, cap.Length0)
  }

  /** What has been sent so far: capacity minus residual. */
  ghost function Sent(c: Grid, g: Grid): Matrix {
    (u, v) => Entries(c)(u, v) - Entries(g)(u, v)
  }

  lemma SentAt(n: nat, c: Grid, g: Grid, u: int, v: int)
    requires Square(n, c) && Square(n, g) && 0 <= u < n && 0 <= v < n
    ensures Sent(c, g)(u, v) == c[u][v] - g[u][v]
  {
    assert Entries(c)(u, v) == c[u][v] && Entries(g)(u, v) == g[u][v];
  }

  /** Opposite residual capacities only trade with each other. */
  ghost predicate Residual(n: nat, c: Grid, g: Grid) {
    && Square(n, c) && Square(n, g)
    && (forall u, v :: 0 <= u < n && 0 <= v < n ==> 0 <= g[u][v])
    && (forall u, v :: 0 <= u < n && 0 <= v < n ==> g[u][v] + g[v][u] == c[u][v] + c[v][u])
  }

  /** One edge of an augmentation moves `b` from `v`'s balance to `u`'s. */
  lemma PushBalance(n: nat, c: Grid, g: Grid, u: int, v: int, b: int, w: int)
    requires Residual(n, c, g) && 0 <= u < n && 0 <= v < n && u != v && 0 <= w < n
    ensures Square(n, Push(g, u, v, b))
    ensures Rows(n, Sent(c, Push(g, u, v, b)))(w) ==
            Rows(n, Sent(c, g))(w) + (if w == u then b else 0) - (if w == v then b else 0)
  {
    var h := Push(g, u, v, b);
    var before, after := (x: int) => Sent(c, g)(w, x), (x: int) => Sent(c, h)(w, x);
    assert h[u] == g[u][v := g[u][v] - b] && h[v] == g[v][u := g[v][u] + b];
    assert w != u && w != v ==> h[w] == g[w];
    forall x | 0 <= x < n ensures before(x) == c[w][x] - g[w][x] && after(x) == c[w][x] - h[w][x] {
      SentAt(n, c, g, w, x);
      SentAt(n, c, h, w, x);
    }
    if w == u {
      SumChange(n, before, after, v);
    } else if w == v {
      SumChange(n, before, after, u);
    } else {
      SumSame(n, before, after);
    }
  }

  /** A breadth-first search tree in the residual graph. */
  ghost predicate Tree(cap: array2<u128>, parent: seq<nat>, rank: seq<nat>, source: nat)
    reads cap
  {
    var n := cap.Length0;
    && cap.Length1 == n && |parent| == n && |rank| == n && source < n <= UNSET
    && parent[source] == source
    && (forall v :: 0 <= v < n && v != source && parent[v] != UNSET ==>
                      && parent[v] < n && parent[parent[v]] != UNSET && rank[parent[v]] < rank[v]
                      && cap[parent[v], v] > 0)
  }

  /** Nothing leads from a discovered node in `done` to an undiscovered one. */
  ghost predicate Exhausted(cap: array2<u128>, parent: seq<nat>, done: set<nat>)
    reads cap
    requires cap.Length0 == cap.Length1 == |parent|
  {
    forall u, v :: 0 <= u < |parent| && 0 <= v < |parent| && u in done && parent[v] == UNSET ==> cap[u, v] == 0
  }

  /** The search in progress: discovered nodes are finished (`done`) or wait in `open`; `unset` are the others. */
  ghost predicate Searching(cap: array2<u128>, source: nat, parent: seq<nat>, rank: seq<nat>, clock: nat,
                            done: set<nat>, open: set<nat>, unset: set<int>)
    reads cap
  {
    && Tree(cap, parent, rank, source)
    && (forall v :: 0 <= v < |parent| ==> (parent[v] == UNSET <==> v in unset))
    && (forall v :: 0 <= v < |parent| && parent[v] != UNSET ==> rank[v] < clock && (v in done || v in open))
    && (forall v :: v in open ==> v < |parent| && parent[v] != UNSET)
    && Exhausted(cap, parent, done)
  }

  ghost function Elems(q: seq<nat>): set<nat> {
    set x | x in q
  }

  lemma Discovered(cap: array2<u128>, source: nat, parent: seq<nat>, rank: seq<nat>, clock: nat, done: set<nat>,
                   open: set<nat>, unset: set<int>, u: nat, v: nat)
    requires Searching(cap, source, parent, rank, clock, done, open, unset)
    requires u < |parent| && v < |parent| && parent[u] != UNSET && parent[v] == UNSET && cap[u, v] > 0
    ensures Searching(cap, source, parent[v := u], rank[v := clock], clock + 1, done, open + {v}, unset - {v})
  {
  }

  lemma Finished(cap: array2<u128>, source: nat, parent: seq<nat>, rank: seq<nat>, clock: nat, done: set<nat>,
                 open: set<nat>, unset: set<int>, u: nat)
    requires Searching(cap, source, parent, rank, clock, done, open + {u}, unset) && u < |parent|
    requires forall w :: 0 <= w < |parent| && parent[w] == UNSET ==> cap[u, w] == 0
    ensures Searching(cap, source, parent, rank, clock, done + {u}, open, unset)
  {
  }

  /**
   Levels of the nodes found so far: one more than the parent's, at most the order of discovery;
   `n` for the others.
   */
  ghost predicate Leveled(cap: array2<u128>, source: nat, parent: seq<nat>, rank: seq<nat>, level: seq<nat>,
                          clock: nat) {
    var n := cap.Length0;
    && |parent| == n && |rank| == n && |level| == n && source < n && level[source] == 0 && clock <= n
    && (forall v :: 0 <= v < n && parent[v] == UNSET ==> level[v] == n)
    && (forall v :: 0 <= v < n && parent[v] != UNSET ==> level[v] <= rank[v] < clock)
    && (forall v :: 0 <= v < n && v != source && parent[v] != UNSET ==>
         parent[v] < n && level[v] == level[parent[v]] + 1)
  }

  /** The queue holds found nodes of at most two neighbouring levels, in order. */
  ghost predicate InLine(parent: seq<nat>, level: seq<nat>, queue: seq<nat>, low: nat)
    requires |parent| == |level|
  {
    && (forall i :: 0 <= i < |queue| ==>
         queue[i] < |level| && parent[queue[i]] != UNSET && low <= level[queue[i]] <= low + 1)
    && (forall i, j :: 0 <= i < j < |queue| ==> level[queue[i]] <= level[queue[j]])
  }

  /** Finished nodes are no further than `low`, and lead at most one level on. */
  ghost predicate Settled(cap: array2<u128>, parent: seq<nat>, level: seq<nat>, done: set<nat>, low: nat)
    reads cap
    requires cap.Length0 == cap.Length1 == |parent| == |level|
  {
    && (forall u :: u in done ==> u < |level| && parent[u] != UNSET && level[u] <= low)
    && (forall u, v :: u in done && 0 <= v < |level| && cap[u, v] > 0 ==>
         parent[v] != UNSET && level[v] <= level[u] + 1)
  }

  lemma DiscoveredLevel(cap: array2<u128>, source: nat, parent: seq<nat>, rank: seq<nat>, level: seq<nat>, clock: nat,
                        done: set<nat>, queue: seq<nat>, u: nat, v: nat)
    requires cap.Length0 == cap.Length1 && Leveled(cap, source, parent, rank, level, clock) && u < |parent|
               && v < |parent|
    requires parent[u] != UNSET && parent[v] == UNSET && parent[source] != UNSET && clock < cap.Length0 <= UNSET
    requires InLine(parent, level, queue, level[u]) && Settled(cap, parent, level, done, level[u])
    requires forall x :: 0 <= x < |parent| && x != source && parent[x] != UNSET ==>
               parent[x] < |parent| && parent[parent[x]] != UNSET
    ensures var p, l := parent[v := u], level[v := level[u] + 1];
            && Leveled(cap, source, p, rank[v := clock], l, clock + 1)
            && InLine(p, l, queue + [v], l[u]) && Settled(cap, p, l, done, l[u])
  {
  }

  /** The search while `u` is visited: what is found, what is finished and what waits. */
  ghost predicate Visiting(cap: array2<u128>, source: nat, parent: seq<nat>, rank: seq<nat>, level: seq<nat>,
                           clock: nat, done: set<nat>, queue: seq<nat>, u: nat, unset: set<int>)
    reads cap
  {
    && Searching(cap, source, parent, rank, clock, done, Elems(queue) + {u}, unset)
    && Leveled(cap, source, parent, rank, level, clock) && clock + |unset| == cap.Length0
    && u < |level| && InLine(parent, level, queue, level[u]) && Settled(cap, parent, level, done, level[u])
  }

  /** `u` leads to no undiscovered node below `n`. */
  ghost predicate NoneLeft(cap: array2<u128>, parent: seq<nat>, u: nat, n: nat)
    reads cap
    requires n <= |parent| == cap.Length1 && u < cap.Length0
  {
    forall w :: 0 <= w < n && parent[w] == UNSET ==> cap[u, w] == 0
  }

  lemma NoneLeftStep(cap: array2<u128>, parent: seq<nat>, u: nat, v: nat)
    requires v < |parent| == cap.Length1 && u < cap.Length0 <= UNSET && NoneLeft(cap, parent, u, v)
    ensures NoneLeft(cap, parent[v := u], u, v + 1)
    ensures !(parent[v] == UNSET && cap[u, v] > 0) ==> NoneLeft(cap, parent, u, v + 1)
  {
  }

  /** Between visits. */
  ghost predicate Waiting(cap: array2<u128>, source: nat, parent: seq<nat>, rank: seq<nat>, level: seq<nat>,
                          clock: nat, done: set<nat>, queue: seq<nat>, low: nat, unset: set<int>)
    reads cap
  {
    && Searching(cap, source, parent, rank, clock, done, Elems(queue), unset)
    && Leveled(cap, source, parent, rank, level, clock) && clock + |unset| == cap.Length0
    && InLine(parent, level, queue, low) && Settled(cap, parent, level, done, low)
  }

  /** A new neighbour of `u` takes the next rank and the next level, and waits. */
  lemma VisitStep(cap: array2<u128>, source: nat, parent: seq<nat>, rank: seq<nat>, level: seq<nat>, clock: nat,
                  done: set<nat>, queue: seq<nat>, u: nat, unset: set<int>, v: nat)
    returns (rank1: seq<nat>, level1: seq<nat>)
    requires Visiting(cap, source, parent, rank, level, clock, done, queue, u, unset)
    requires v < |parent| && parent[v] == UNSET && cap[u, v] > 0
    ensures |unset - {v}| == |unset| - 1
    ensures Visiting(cap, source, parent[v := u], rank1, level1, clock + 1, done, queue + [v], u, unset - {v})
  {
    rank1, level1 := rank[v := clock], level[v := level[u] + 1];
    assert u in Elems(queue) + {u};
    Discovered(cap, source, parent, rank, clock, done, Elems(queue) + {u}, unset, u, v);
    ElemsSnoc(queue, v, u);
    assert v in unset && |unset - {v}| == |unset| - 1;
    DiscoveredLevel(cap, source, parent, rank, level, clock, done, queue, u, v);
  }

  /** Once `u` leads to nothing new it is finished. */
  lemma VisitEnd(cap: array2<u128>, source: nat, parent: seq<nat>, rank: seq<nat>, level: seq<nat>, clock: nat,
                 done: set<nat>, queue: seq<nat>, u: nat, unset: set<int>)
    requires Visiting(cap, source, parent, rank, level, clock, done, queue, u, unset)
    requires |parent| == cap.Length1 && u < cap.Length0 && NoneLeft(cap, parent, u, |parent|)
    ensures Waiting(cap, source, parent, rank, level, clock, done + {u}, queue, level[u], unset)
  {
    assert u in Elems(queue) + {u};
    Finished(cap, source, parent, rank, clock, done, Elems(queue), unset, u);
    FinishedLevel(cap, parent, level, done, queue, u);
  }

  /** Once `u` is finished, everything it leads to is at most one level on. */
  lemma FinishedLevel(cap: array2<u128>, parent: seq<nat>, level: seq<nat>, done: set<nat>, queue: seq<nat>, u: nat)
    requires cap.Length0 == cap.Length1 == |parent| == |level| && u < |parent| && parent[u] != UNSET
    requires InLine(parent, level, queue, level[u]) && Settled(cap, parent, level, done, level[u])
    requires forall v :: 0 <= v < |parent| && cap[u, v] > 0 ==> parent[v] != UNSET
    requires forall v :: 0 <= v < |parent| && parent[v] != UNSET ==> v in done || v in queue || v == u
    ensures Settled(cap, parent, level, done + {u}, level[u])
  {
    forall v | 0 <= v < |level| && cap[u, v] > 0 ensures parent[v] != UNSET && level[v] <= level[u] + 1 {
      assert parent[v] != UNSET;
      if v in queue { var i :| 0 <= i < |queue| && queue[i] == v; }
    }
  }

  lemma ElemsSnoc(q: seq<nat>, v: nat, u: nat)
    ensures Elems(q + [v]) + {u} == Elems(q) + {u} + {v}
  {
  }

  /** Discovers the unset neighbours of `u`, the head of the queue. */
  method Visit(cap: array2<u128>, ghost source: nat, u: nat, parent0: seq<nat>, queue0: seq<nat>,
               ghost rank0: seq<nat>, ghost level0: seq<nat>, ghost clock0: nat, ghost done: set<nat>,
               ghost unset0: set<int>)
    returns (parent: seq<nat>, queue: seq<nat>, ghost rank: seq<nat>, ghost level: seq<nat>, ghost clock: nat,
             ghost unset: set<int>)
    requires u < cap.Length0 == cap.Length1 == |parent0| <= UNSET
    requires Visiting(cap, source, parent0, rank0, level0, clock0, done, queue0, u, unset0)
    ensures |parent| == |level| == cap.Length0
    ensures Waiting(cap, source, parent, rank, level, clock, done + {u}, queue, level[u], unset)
    ensures |unset| + |queue| == |unset0| + |queue0|
  {
    parent, queue, rank, level, clock, unset := parent0, queue0, rank0, level0, clock0, unset0;
    var n := cap.Length0;
    for v := 0 to n
      invariant |parent| == n
      invariant Visiting(cap, source, parent, rank, level, clock, done, queue, u, unset)
      invariant NoneLeft(cap, parent, u, v)
      invariant |unset| + |queue| == |unset0| + |queue0|
    {
      NoneLeftStep(cap, parent, u, v);
      if parent[v] == UNSET && cap[u, v] > 0 {
        rank, level := VisitStep(cap, source, parent, rank, level, clock, done, queue, u, unset, v);
        parent, clock, unset, queue := parent[v := u], clock + 1, unset - {v}, queue + [v];
      }
    }
    VisitEnd(cap, source, parent, rank, level, clock, done, queue, u, unset);
  }

  ghost function Below(n: nat): (s: set<int>)
    ensures |s| == n && forall v :: v in s <==> 0 <= v < n
  {
    if n == 0 then {} else Below(n - 1) + {n - 1}
  }

  lemma UnsetCount(n: nat, source: nat, unset: set<int>)
    requires source < n && forall v :: v in unset <==> 0 <= v < n && v != source
    ensures |unset| == n - 1
  {
    assert unset == Below(n) - {source as int};
  }

  /** What the finished search knows of levels. */
  lemma SearchLevels(cap: array2<u128>, source: nat, parent: seq<nat>, rank: seq<nat>, level: seq<nat>, clock: nat,
                     done: set<nat>, low: nat, unset: set<int>)
    requires Waiting(cap, source, parent, rank, level, clock, done, [], low, unset)
    ensures Tree(cap, parent, rank, source)
              && Exhausted(cap, parent, set v | 0 <= v < cap.Length0 && parent[v] != UNSET)
    ensures TreeLevels(cap.Length0, Snapshot(cap), parent, rank, source, level)
    ensures Labels(cap.Length0, Snapshot(cap), source, level)
  {
    forall v | 0 <= v < |parent| && parent[v] != UNSET ensures v in done { assert v !in Elems([]); }
  }

  /** The shortest-path tree of the residual graph, and the distances from the source. */
  method Bfs(cap: array2<u128>, source: nat) returns (parent: seq<nat>, ghost rank: seq<nat>, ghost level: seq<nat>)
    requires cap.Length0 == cap.Length1 && source < cap.Length0 <= UNSET
    ensures Tree(cap, parent, rank, source)
    ensures Exhausted(cap, parent, set v | 0 <= v < cap.Length0 && parent[v] != UNSET)
    ensures TreeLevels(cap.Length0, Snapshot(cap), parent, rank, source, level)
    ensures Labels(cap.Length0, Snapshot(cap), source, level)
  {
    var n := cap.Length0;
    parent := seq(n, _ => UNSET)[source := source];
    rank := seq(n, _ => 0);
    level := seq(n, _ => n)[source := 0];
    var queue: seq<nat> := [source];
    ghost var clock: nat, low: nat, done: set<nat> := 1, 0, {};
    ghost var unset := set v | 0 <= v < n && parent[v] == UNSET;
    UnsetCount(n, source, unset);
    while queue != []
      invariant Waiting(cap, source, parent, rank, level, clock, done, queue, low, unset)
      decreases |unset| + |queue|
    {
      var u := queue[0];
      NextInLine(cap, source, parent, rank, level, clock, done, queue, low, unset);
      parent, queue, rank, level, clock, unset :=
        Visit(cap, source, u, parent, queue[1..], rank, level, clock, done, unset);
      done, low := done + {u}, level[u];
    }
    SearchLevels(cap, source, parent, rank, level, clock, done, low, unset);
  }

  /** The head of the queue is next to be visited. */
  lemma NextInLine(cap: array2<u128>, source: nat, parent: seq<nat>, rank: seq<nat>, level: seq<nat>, clock: nat,
                   done: set<nat>, queue: seq<nat>, low: nat, unset: set<int>)
    requires queue != [] && Waiting(cap, source, parent, rank, level, clock, done, queue, low, unset)
    ensures queue[0] < cap.Length0 == cap.Length1 == |parent| <= UNSET
    ensures Visiting(cap, source, parent, rank, level, clock, done, queue[1..], queue[0], unset)
  {
    assert Elems(queue) == Elems(queue[1..]) + {queue[0]};
    forall i | 0 <= i < |queue[1..]|
      ensures var q := queue[1..][i];
              q < |level| && parent[q] != UNSET && level[queue[0]] <= level[q] <= level[queue[0]] + 1
    {
      assert queue[1..][i] == queue[i + 1];
    }
  }

  /** The search tree as values, so that it outlives changes to the matrix. */
  ghost predicate Climbs(n: nat, parent: seq<nat>, rank: seq<nat>, source: nat) {
    && |parent| == n && |rank| == n && source < n <= UNSET
    && forall v :: 0 <= v < n && v != source && parent[v] != UNSET ==>
                     parent[v] < n && parent[parent[v]] != UNSET && rank[parent[v]] < rank[v]
  }

  /** Following parents from `v` always reaches the source, over edges with room for `b`. */
  ghost predicate Room(n: nat, g: Grid, parent: seq<nat>, rank: seq<nat>, source: nat, v: nat, b: int)
    requires Square(n, g) && Climbs(n, parent, rank, source) && v < n && (v != source ==> parent[v] != UNSET)
    decreases rank[v]
  {
    v == source || (b <= g[parent[v]][v] && Room(n, g, parent, rank, source, parent[v], b))
  }

  /** Some edge between the source and `v` has exactly `b`. */
  ghost predicate Tight(n: nat, g: Grid, parent: seq<nat>, rank: seq<nat>, source: nat, v: nat, b: int)
    requires Square(n, g) && Climbs(n, parent, rank, source) && v < n && (v != source ==> parent[v] != UNSET)
    decreases rank[v]
  {
    v != source && (b == g[parent[v]][v] || Tight(n, g, parent, rank, source, parent[v], b))
  }

  /** The smallest residual capacity on the path: every edge has room for it, and one has no more. */
  method Bottleneck(cap: array2<u128>, parent: seq<nat>, source: nat, sink: nat, ghost rank: seq<nat>)
    returns (b: u128)
    requires Tree(cap, parent, rank, source) && sink < cap.Length0 && parent[sink] != UNSET && sink != source
    ensures b > 0 && Room(cap.Length0, Snapshot(cap), parent, rank, source, sink, b as int)
    ensures Tight(cap.Length0, Snapshot(cap), parent, rank, source, sink, b as int)
  {
    ghost var n, g := cap.Length0, Snapshot(cap);
    b := 0xFFFF_FFFF_FFFF_FFFF_FFFF_FFFF_FFFF_FFFF;
    var v: nat := sink;
    while v != source
      invariant v < n && parent[v] != UNSET && b > 0
      invariant forall x: int :: x <= b as int && Room(n, g, parent, rank, source, v, x)
                                 ==> Room(n, g, parent, rank, source, sink, x)
      invariant forall x: int :: Tight(n, g, parent, rank, source, v, x) ==>
                  Tight(n, g, parent, rank, source, sink, x)
      invariant (v == sink && b as int == U128_MAX) || Tight(n, g, parent, rank, source, sink, b as int)
      decreases rank[v]
    {
      var u := parent[v];
      assert Tight(n, g, parent, rank, source, v, cap[u, v] as int);
      b := if b <= cap[u, v] then b else cap[u, v];
      v := u;
    }
  }

  lemma PushResidual(n: nat, c: Grid, g: Grid, u: int, v: int, b: int)
    requires Residual(n, c, g) && 0 <= u < n && 0 <= v < n && u != v && 0 <= b <= g[u][v]
    ensures Residual(n, c, Push(g, u, v, b))
  {
    PushEntries(n, g, u, v, b);
  }

  /** Entries between nodes no further than `v` from the source are as they were. */
  ghost predicate Ahead(n: nat, g: Grid, h: Grid, rank: seq<nat>, v: nat)
    requires Square(n, g) && Square(n, h) && |rank| == n && v < n
  {
    forall x, y :: 0 <= x < n && 0 <= y < n && rank[x] <= rank[v] && rank[y] <= rank[v] ==> h[x][y] == g[x][y]
  }

  lemma PushAhead(n: nat, g: Grid, h: Grid, rank: seq<nat>, u: nat, v: nat, b: int)
    requires Square(n, g) && Square(n, h) && |rank| == n && u < n && v < n && rank[u] < rank[v]
               && Ahead(n, g, h, rank, v)
    ensures Square(n, Push(h, u, v, b)) && Ahead(n, g, Push(h, u, v, b), rank, u)
  {
    var p := Push(h, u, v, b);
    assert p[u] == h[u][v := h[u][v] - b];
    assert forall w :: 0 <= w < n && w != u && w != v ==> p[w] == h[w];
  }

  /** Net outflow of `w`. */
  ghost function Net(n: nat, c: Grid, g: Grid, w: int): int {
    Rows(n, Sent(c, g))(w)
  }

  /** Half an augmentation done: `b` has left the sink's side and rests at `v`. */
  ghost predicate Shifted(n: nat, c: Grid, g: Grid, h: Grid, v: int, sink: int, b: int) {
    forall w :: 0 <= w < n ==>
                  Net(n, c, h, w) == Net(n, c, g, w) + (if w == v then b else 0) - (if w == sink then b else 0)
  }

  lemma PushShifted(n: nat, c: Grid, g: Grid, h: Grid, u: int, v: int, sink: int, b: int)
    requires Residual(n, c, h) && 0 <= u < n && 0 <= v < n && u != v && Shifted(n, c, g, h, v, sink, b)
    ensures Shifted(n, c, g, Push(h, u, v, b), u, sink, b)
  {
    forall w | 0 <= w < n
      ensures Net(n, c, Push(h, u, v, b), w) ==
                Net(n, c, g, w) + (if w == u then b else 0) - (if w == sink then b else 0)
    {
      PushBalance(n, c, h, u, v, b, w);
    }
  }

  method Edge(cap: array2<u128>, u: nat, v: nat, b: u128)
    requires cap.Length0 == cap.Length1 && u < cap.Length0 && v < cap.Length0 && u != v
    requires b <= cap[u, v] && cap[v, u] as int + b as int <= U128_MAX
    modifies cap
    ensures Snapshot(cap) == Push(old(Snapshot(cap)), u, v, b as int)
  {
    ghost var g := Snapshot(cap);
    cap[u, v] := cap[u, v] - b;
    cap[v, u] := cap[v, u] + b;
    ghost var h := Push(g, u, v, b as int);
    PushEntries(cap.Length0, g, u, v, b as int);
    forall w | 0 <= w < |g| ensures Snapshot(cap)[w] == h[w] {
    }
  }

  ghost predicate Bounded(n: nat, c: Grid) {
    Square(n, c) && forall u, v :: 0 <= u < n && 0 <= v < n ==> c[u][v] + c[v][u] <= U128_MAX
  }

  /** Every edge of the path leads one level on, and was in the tree before the augmentation. */
  ghost predicate Steps(n: nat, parent: seq<nat>, source: nat, level: seq<nat>) {
    && |parent| == n && |level| == n
    && forall v :: 0 <= v < n && v != source && parent[v] != UNSET ==>
                     parent[v] < n && level[v] == level[parent[v]] + 1 && level[v] < n
  }

  /**
   Half an augmentation done, seen from `v`: the way ahead is as it was in `g`, and what is behind
   is in balance and counted.
   */
  ghost predicate Underway(n: nat, c: Grid, g: Grid, h: Grid, parent: seq<nat>, rank: seq<nat>, source: nat,
                           sink: nat, v: nat, b: int, level: seq<nat>, times0: Grid, times: Grid)
  {
    && Square(n, g) && Residual(n, c, h) && Climbs(n, parent, rank, source) && v < n && parent[v] != UNSET
    && Ahead(n, g, h, rank, v) && Room(n, g, parent, rank, source, v, b) && Shifted(n, c, g, h, v, sink, b)
    && Steps(n, parent, source, level) && Labels(n, h, source, level) && Counted(n, h, level, times)
    && Emptyings(n, times) >= Emptyings(n, times0) + if Tight(n, g, parent, rank, source, v, b) then 0 else 1
  }

  /** The next edge towards the source has room, and the push along it keeps everything in step. */
  lemma UnderwayStep(n: nat, c: Grid, g: Grid, h: Grid, parent: seq<nat>, rank: seq<nat>, source: nat, sink: nat,
                     v: nat, b: int, level: seq<nat>, times0: Grid, times: Grid)
    requires Underway(n, c, g, h, parent, rank, source, sink, v, b, level, times0, times) && v != source && b > 0
    ensures var u := parent[v];
            && u < n && u != v && rank[u] < rank[v] && b <= h[u][v] && h[u][v] + h[v][u] == c[u][v] + c[v][u]
            && Underway(n, c, g, Push(h, u, v, b), parent, rank, source, sink, u, b, level, times0,
                 Tally(h, times, u, v, b))
  {
    var u := parent[v];
    assert h[u][v] == g[u][v];
    PushResidual(n, c, h, u, v, b);
    PushAhead(n, g, h, rank, u, v, b);
    PushShifted(n, c, g, h, u, v, sink, b);
    PushLabels(n, h, source, level, u, v, b);
    PushCounted(n, h, level, times, u, v, b);
    AgainTotal(n, times, u, v);
  }

  /** Sends `b` along the path; at least one more edge has been emptied, and levels and counts stay in step. */
  method Augment(cap: array2<u128>, parent: seq<nat>, source: nat, sink: nat, b: u128, ghost rank: seq<nat>,
                 ghost c: Grid, ghost level: seq<nat>, ghost times0: Grid)
    returns (ghost times: Grid)
    requires var n := cap.Length0; cap.Length1 == n && Residual(n, c, Snapshot(cap)) && Bounded(n, c)
    requires Climbs(cap.Length0, parent, rank, source) && sink < cap.Length0 && parent[sink] != UNSET && b > 0
    requires Room(cap.Length0, Snapshot(cap), parent, rank, source, sink, b as int)
    requires Tight(cap.Length0, Snapshot(cap), parent, rank, source, sink, b as int)
    requires Steps(cap.Length0, parent, source, level) && Labels(cap.Length0, Snapshot(cap), source, level)
    requires Counted(cap.Length0, Snapshot(cap), level, times0)
    modifies cap
    ensures Residual(cap.Length0, c, Snapshot(cap))
    ensures Shifted(cap.Length0, c, old(Snapshot(cap)), Snapshot(cap), source, sink, b as int)
    ensures Labels(cap.Length0, Snapshot(cap), source, level) && Counted(cap.Length0, Snapshot(cap), level, times)
    ensures Emptyings(cap.Length0, times) >= Emptyings(cap.Length0, times0) + 1
  {
    ghost var n, g := cap.Length0, Snapshot(cap);
    var v: nat := sink;
    times := times0;
    while v != source
      invariant Underway(n, c, g, Snapshot(cap), parent, rank, source, sink, v, b as int, level, times0, times)
      decreases rank[v]
    {
      var u := parent[v];
      ghost var h := Snapshot(cap);
      UnderwayStep(n, c, g, h, parent, rank, source, sink, v, b as int, level, times0, times);
      times := Tally(h, times, u, v, b as int);
      Edge(cap, u, v, b);
      v := u;
    }
  }

  /** The residual matrix so far describes a flow of this value. */
  ghost predicate Carrying(n: nat, c: Grid, g: Grid, source: int, sink: int, total: int) {
    && Residual(n, c, g)
    && (forall u :: 0 <= u < n && u != source && u != sink ==> Net(n, c, g, u) == 0)
    && Net(n, c, g, source) == total
  }

  lemma CarryingIsFlow(n: nat, c: Grid, g: Grid, source: int, sink: int, total: int)
    requires Carrying(n, c, g, source, sink, total) && 0 <= source < n
    ensures IsFlow(n, Entries(c), Sent(c, g), source, sink)
    ensures total <= Rows(n, Entries(c))(source)
  {
    forall u, v | 0 <= u < n && 0 <= v < n
      ensures Sent(c, g)(u, v) <= Entries(c)(u, v) && Sent(c, g)(u, v) == -Sent(c, g)(v, u)
    {
      SentAt(n, c, g, u, v);
      SentAt(n, c, g, v, u);
    }
    forall u | 0 <= u < n && u != source && u != sink ensures Rows(n, Sent(c, g))(u) == 0 {
      assert Net(n, c, g, u) == 0;
    }
    RowBound(n, Sent(c, g), Entries(c), source);
  }

  /** A path's worth of flow more, still within what the source can send. */
  lemma AugmentCarries(n: nat, c: Grid, g: Grid, h: Grid, source: int, sink: int, total: int, b: int, more: int)
    requires Carrying(n, c, g, source, sink, total) && 0 <= source < n && 0 <= sink < n && source != sink
    requires Residual(n, c, h) && Shifted(n, c, g, h, source, sink, b) && more == total + b
    ensures Carrying(n, c, h, source, sink, more) && more <= Rows(n, Entries(c))(source)
  {
    assert Carrying(n, c, h, source, sink, more);
    CarryingIsFlow(n, c, h, source, sink, more);
  }

  lemma StartsEmpty(n: nat, c: Grid, u: int)
    requires Square(n, c) && 0 <= u < n
    ensures Net(n, c, c, u) == 0
  {
    forall v | 0 <= v < n ensures Sent(c, c)(u, v) == 0 { SentAt(n, c, c, u, v); }
    RowZero(n, Sent(c, c), u);
  }

  /** No path is left: the discovered nodes are a cut that the flow saturates. */
  lemma SaturatedCut(n: nat, c: Grid, g: Grid, source: int, sink: int, total: int, cut: set<int>)
    requires Carrying(n, c, g, source, sink, total) && 0 <= source < n && source in cut && sink !in cut
    requires forall u, v :: 0 <= u < n && 0 <= v < n && u in cut && v !in cut ==> g[u][v] == 0
    ensures IsMaxFlow(n, Entries(c), source, sink, total)
  {
    CarryingIsFlow(n, c, g, source, sink, total);
    forall u, v | 0 <= u < n && 0 <= v < n && u in cut && v !in cut ensures Sent(c, g)(u, v) == Entries(c)(u, v) {
      SentAt(n, c, g, u, v);
    }
    FlowCut(n, Entries(c), Sent(c, g), source, sink, cut);
  }

  /** No edge counted yet, on any labels. */
  ghost function Zeros(n: nat): Grid {
    seq(n, _ => seq(n, _ => 0))
  }

  lemma ZerosCounted(n: nat, g: Grid, source: nat)
    requires Square(n, g) && source < n
    ensures Labels(n, g, source, seq(n, _ => 0)) && Counted(n, g, seq(n, _ => 0), Zeros(n))
              && Emptyings(n, Zeros(n)) == 0
  {
    forall u | 0 <= u < n ensures Rows(n, Entries(Zeros(n)))(u) == 0 { RowZero(n, Entries(Zeros(n)), u); }
    SumZero(n, Rows(n, Entries(Zeros(n))));
  }

  /** After the next search the counts are still in step, with levels that have not fallen. */
  lemma SearchKeepsCount(n: nat, g: Grid, parent: seq<nat>, rank: seq<nat>, source: nat, level: seq<nat>,
                         next: seq<nat>, times: Grid)
    requires Labels(n, g, source, level) && Counted(n, g, level, times)
               && TreeLevels(n, g, parent, rank, source, next)
    ensures Counted(n, g, next, times) && Steps(n, parent, source, next)
  {
    forall v | 0 <= v < n ensures level[v] <= next[v] { LevelGrows(n, g, parent, rank, source, level, next, v); }
    CountedLater(n, g, level, next, times);
  }

  /** So few augmentations suffice, whatever the capacities. */
  function MaxRounds(n: nat): nat {
    n * (n * ((n + 1) / 2))
  }

  /** Between augmentations: a flow of `total`, and no more rounds than edges were emptied. */
  ghost predicate Progress(n: nat, c: Grid, g: Grid, source: nat, sink: nat, total: int, level: seq<nat>, times: Grid,
                           rounds: nat) {
    && Carrying(n, c, g, source, sink, total) && Labels(n, g, source, level) && Counted(n, g, level, times)
    && rounds <= Emptyings(n, times)
  }

  lemma ProgressStarts(n: nat, c: Grid, source: nat, sink: nat)
    requires Square(n, c) && source < n && sink < n && (forall u, v :: 0 <= u < n && 0 <= v < n ==> 0 <= c[u][v])
    ensures Progress(n, c, c, source, sink, 0, seq(n, _ => 0), Zeros(n), 0)
  {
    forall u | 0 <= u < n ensures Net(n, c, c, u) == 0 { StartsEmpty(n, c, u); }
    ZerosCounted(n, c, source);
  }

  lemma ProgressBounds(n: nat, c: Grid, g: Grid, source: nat, sink: nat, total: int, level: seq<nat>, times: Grid,
                       rounds: nat)
    requires Progress(n, c, g, source, sink, total, level, times, rounds)
    ensures rounds <= MaxRounds(n)
  {
    TotalAtMost(n, g, level, times);
  }

  /** A search that does not reach the sink leaves a saturated cut behind. */
  lemma SearchFails(cap: array2<u128>, c: Grid, source: nat, sink: nat, parent: seq<nat>, rank: seq<nat>, total: int,
                    level: seq<nat>, times: Grid, rounds: nat)
    requires cap.Length0 == cap.Length1 && sink < cap.Length0
    requires Progress(cap.Length0, c, Snapshot(cap), source, sink, total, level, times, rounds)
    requires Tree(cap, parent, rank, source) && parent[sink] == UNSET
    requires Exhausted(cap, parent, set v | 0 <= v < cap.Length0 && parent[v] != UNSET)
    ensures IsMaxFlow(cap.Length0, Entries(c), source, sink, total) && rounds <= MaxRounds(cap.Length0)
    ensures Carrying(cap.Length0, c, Snapshot(cap), source, sink, total)
  {
    var n, g := cap.Length0, Snapshot(cap);
    var cut := set v | 0 <= v < n && parent[v] != UNSET;
    SaturatedCut(n, c, g, source, sink, total, cut);
    ProgressBounds(n, c, g, source, sink, total, level, times, rounds);
  }

  /** One search and one augmentation along the path it found. */
  method Round(cap: array2<u128>, source: nat, sink: nat, parent: seq<nat>, ghost rank: seq<nat>,
               ghost next: seq<nat>, ghost c: Grid, ghost total: int, ghost level: seq<nat>, ghost times0: Grid,
               ghost rounds: nat)
    returns (b: u128, ghost times: Grid)
    requires cap.Length0 == cap.Length1 && sink < cap.Length0 && source != sink && Bounded(cap.Length0, c)
    requires Progress(cap.Length0, c, Snapshot(cap), source, sink, total, level, times0, rounds)
    requires Tree(cap, parent, rank, source) && TreeLevels(cap.Length0, Snapshot(cap), parent, rank, source, next)
    requires Labels(cap.Length0, Snapshot(cap), source, next) && parent[sink] != UNSET
    modifies cap
    ensures b > 0 && total + b as int <= Rows(cap.Length0, Entries(c))(source)
    ensures Progress(cap.Length0, c, Snapshot(cap), source, sink, total + b as int, next, times, rounds + 1)
  {
    ghost var n, g := cap.Length0, Snapshot(cap);
    SearchKeepsCount(n, g, parent, rank, source, level, next, times0);
    b := Bottleneck(cap, parent, source, sink, rank);
    times := Augment(cap, parent, source, sink, b, rank, c, next, times0);
    AugmentCarries(n, c, g, Snapshot(cap), source, sink, total, b as int, total + b as int);
  }

  /**
   Terminates with a flow equal to a minimum cut, conserves `cap[u][v] + cap[v][u]`
   for every pair, never leaves the range of u128, and augments a number of times that
   the size of the matrix bounds.
   */
  method MaxFlow(cap: array2<u128>, source: nat, sink: nat) returns (total: u128, ghost rounds: nat)
    requires cap.Length0 == cap.Length1 <= UNSET && source < cap.Length0 && sink < cap.Length0 && source != sink
    requires Bounded(cap.Length0, Snapshot(cap))
    requires Rows(cap.Length0, Entries(Snapshot(cap)))(source) <= U128_MAX
    modifies cap
    ensures Carrying(cap.Length0, old(Snapshot(cap)), Snapshot(cap), source, sink, total as int)
    ensures IsMaxFlow(cap.Length0, Entries(old(Snapshot(cap))), source, sink, total as int)
    ensures rounds <= MaxRounds(cap.Length0)
  {
    ghost var n, c := cap.Length0, Snapshot(cap);
    total, rounds := 0, 0;
    ghost var level: seq<nat>, times := seq(n, _ => 0), Zeros(n);
    ProgressStarts(n, c, source, sink);
    while true
      invariant Progress(n, c, Snapshot(cap), source, sink, total as int, level, times, rounds)
      decreases Rows(n, Entries(c))(source) - total as int
    {
      var parent;
      ghost var rank, next;
      parent, rank, next := Bfs(cap, source);
      if parent[sink] == UNSET {
        SearchFails(cap, c, source, sink, parent, rank, total as int, level, times, rounds);
        return;
      }
      var b;
      b, times := Round(cap, source, sink, parent, rank, next, c, total as int, level, times, rounds);
      level := next;
      total, rounds := total + b, rounds + 1;
    }
  }
}
