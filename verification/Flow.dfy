/** Flows in a capacity matrix and the cuts that bound them. */
module Flow {
  import opened Sums

  type Matrix = (int, int) -> int

  /** Within capacity, skew-symmetric, and conserved at every node but the two ends. */
  ghost predicate IsFlow(n: nat, c: Matrix, f: Matrix, s: int, t: int) {
    && (forall u, v :: 0 <= u < n && 0 <= v < n ==> f(u, v) <= c(u, v))
    && (forall u, v :: 0 <= u < n && 0 <= v < n ==> f(u, v) == -f(v, u))
    && (forall u :: 0 <= u < n && u != s && u != t ==> Rows(n, f)(u) == 0)
  }

  /** Keeps the entries from inside `cut` to outside. */
  ghost function Crossing(f: Matrix, cut: set<int>): Matrix {
    (u, v) => if u in cut && v !in cut then f(u, v) else 0
  }

  ghost function Inside(f: Matrix, cut: set<int>): Matrix {
    (u, v) => if u in cut && v in cut then f(u, v) else 0
  }

  ghost function From(f: Matrix, cut: set<int>): Matrix {
    (u, v) => if u in cut then f(u, v) else 0
  }

  ghost function Total(n: nat, f: Matrix): int {
    Sum(n, Rows(n, f))
  }

  ghost function CutCapacity(n: nat, c: Matrix, cut: set<int>): int {
    Total(n, Crossing(c, cut))
  }

  lemma TotalAdd(n: nat, f: Matrix, g: Matrix, h: Matrix)
    requires forall u, v :: 0 <= u < n && 0 <= v < n ==> h(u, v) == f(u, v) + g(u, v)
    ensures Total(n, h) == Total(n, f) + Total(n, g)
  {
    forall u | 0 <= u < n ensures Rows(n, h)(u) == Rows(n, f)(u) + Rows(n, g)(u) {
      SumAdd(n, v => f(u, v), v => g(u, v), v => h(u, v));
    }
    SumAdd(n, Rows(n, f), Rows(n, g), Rows(n, h));
  }

  lemma TotalBound(n: nat, f: Matrix, g: Matrix)
    requires forall u, v :: 0 <= u < n && 0 <= v < n ==> f(u, v) <= g(u, v)
    ensures Total(n, f) <= Total(n, g)
  {
    forall u | 0 <= u < n ensures Rows(n, f)(u) <= Rows(n, g)(u) {
      SumBound(n, v => f(u, v), v => g(u, v));
    }
    SumBound(n, Rows(n, f), Rows(n, g));
  }

  /** What flows inside a set of nodes cancels out. */
  lemma InsideCancels(n: nat, f: Matrix, cut: set<int>)
    requires forall u, v :: 0 <= u < n && 0 <= v < n ==> f(u, v) == -f(v, u)
    ensures Total(n, Inside(f, cut)) == 0
  {
    var a := Inside(f, cut);
    var b := (u: int, v: int) => -a(u, v);
    SumTranspose(n, a, b);
    forall u | 0 <= u < n ensures Rows(n, b)(u) == -Rows(n, a)(u) {
      SumNegate(n, v => a(u, v), v => b(u, v));
    }
    SumNegate(n, Rows(n, a), Rows(n, b));
  }

  /** The value of a flow is what crosses any cut between its ends. */
  lemma FlowAcross(n: nat, c: Matrix, f: Matrix, s: int, t: int, cut: set<int>)
    requires IsFlow(n, c, f, s, t) && 0 <= s < n && s in cut && t !in cut
    ensures Rows(n, f)(s) == Total(n, Crossing(f, cut))
  {
    var a := From(f, cut);
    forall u | 0 <= u < n ensures Rows(n, a)(u) == if u in cut then Rows(n, f)(u) else 0 {
      if u in cut { SumSame(n, v => a(u, v), v => f(u, v)); } else { SumZero(n, v => a(u, v)); }
    }
    SumOne(n, Rows(n, a), s);
    TotalAdd(n, Inside(f, cut), Crossing(f, cut), a);
    InsideCancels(n, f, cut);
  }

  /** Weak duality: no flow exceeds a cut; a saturated cut is met exactly. */
  lemma FlowCut(n: nat, c: Matrix, f: Matrix, s: int, t: int, cut: set<int>)
    requires IsFlow(n, c, f, s, t) && 0 <= s < n && s in cut && t !in cut
    ensures Rows(n, f)(s) <= CutCapacity(n, c, cut)
    ensures (forall u, v :: 0 <= u < n && 0 <= v < n && u in cut && v !in cut ==> f(u, v) == c(u, v))
            ==> Rows(n, f)(s) == CutCapacity(n, c, cut)
  {
    FlowAcross(n, c, f, s, t, cut);
    TotalBound(n, Crossing(f, cut), Crossing(c, cut));
    if forall u, v :: 0 <= u < n && 0 <= v < n && u in cut && v !in cut ==> f(u, v) == c(u, v) {
      TotalBound(n, Crossing(c, cut), Crossing(f, cut));
    }
  }

  /** `value` is both the value of a flow and the capacity of a cut, hence the greatest flow and the least cut. */
  ghost predicate IsMaxFlow(n: nat, c: Matrix, s: int, t: int, value: int) {
    && (exists f :: IsFlow(n, c, f, s, t) && Rows(n, f)(s) == value)
    && (exists cut: set<int> :: s in cut && t !in cut && CutCapacity(n, c, cut) == value)
  }

  lemma MaxFlowBounds(n: nat, c: Matrix, s: int, t: int, value: int, f: Matrix, cut: set<int>)
    requires IsMaxFlow(n, c, s, t, value) && 0 <= s < n
    ensures IsFlow(n, c, f, s, t) ==> Rows(n, f)(s) <= value
    ensures s in cut && t !in cut ==> value <= CutCapacity(n, c, cut)
  {
    var least :| s in least && t !in least && CutCapacity(n, c, least) == value;
    if IsFlow(n, c, f, s, t) { FlowCut(n, c, f, s, t, least); }
    var most :| IsFlow(n, c, most, s, t) && Rows(n, most)(s) == value;
    if s in cut && t !in cut { FlowCut(n, c, most, s, t, cut); }
  }
}
