/**
 The line-item rule of an open checkout mandate
 (crates/authority/src/constraint/ap2.rs, `line_items`).
 */
module CartMatching {
  import opened Prelude
  import opened Sums
  import opened Flow
  import opened Grids
  import opened EdmondsKarp

  const U64_MAX: nat := 0xFFFF_FFFF_FFFF_FFFF
  const MAX_LINE_ITEM_NODES: nat := 512

  /** Parsing rejects a quantity of zero. */
  type Quantity = q: nat | 1 <= q <= 0xFFFF_FFFF_FFFF_FFFF witness 1

  datatype Requirement = Requirement(id: string, acceptable: seq<string>, quantity: Quantity)

  datatype Item = Item(sku: string, quantity: Quantity)

  datatype Failure = Violated | Unresolved

  /** Whether requirement `i` takes item `j`. */
  predicate Takes(reqs: seq<Requirement>, cart: seq<Item>, i: int, j: int) {
    0 <= i < |reqs| && 0 <= j < |cart| && cart[j].sku in reqs[i].acceptable
  }

  ghost function Want(reqs: seq<Requirement>): int -> int {
    i => if 0 <= i < |reqs| then reqs[i].quantity else 0
  }

  ghost function Have(cart: seq<Item>): int -> int {
    j => if 0 <= j < |cart| then cart[j].quantity else 0
  }

  /** `x(i, j)` units of item `j` go to requirement `i`: all requirements and all items are used up exactly. */
  ghost predicate Assignment(reqs: seq<Requirement>, cart: seq<Item>, x: Matrix) {
    && (forall i, j :: 0 <= i < |reqs| && 0 <= j < |cart| ==>
         0 <= x(i, j) && (x(i, j) > 0 ==> Takes(reqs, cart, i, j)))
    && (forall i :: 0 <= i < |reqs| ==> Rows(|cart|, x)(i) == reqs[i].quantity)
    && (forall j :: 0 <= j < |cart| ==> Cols(|reqs|, x)(j) == cart[j].quantity)
  }

  ghost predicate Assignable(reqs: seq<Requirement>, cart: seq<Item>) {
    exists x :: Assignment(reqs, cart, x)
  }

  // ---- the graph: source, requirements, items, sink

  ghost function CapAt(reqs: seq<Requirement>, cart: seq<Item>, present: int, u: int, v: int): int {
    var r, s := |reqs|, |cart|;
    if u == 0 && 1 <= v <= r then reqs[v - 1].quantity
    else if 1 <= u <= r && r < v <= r + s && Takes(reqs, cart, u - 1, v - 1 - r) then present
    else if r < u <= r + s && v == r + s + 1 then cart[u - 1 - r].quantity
    else 0
  }

  ghost predicate IsGraph(reqs: seq<Requirement>, cart: seq<Item>, c: Grid) {
    var n := |reqs| + |cart| + 2;
    && Square(n, c)
    && forall u, v :: 0 <= u < n && 0 <= v < n ==> c[u][v] == CapAt(reqs, cart, Sum(|cart|, Have(cart)), u, v)
  }

  // ---- rows by kind of neighbour

  ghost function ToReqs(f: Matrix, u: int): int -> int {
    i => f(u, 1 + i)
  }

  ghost function ToItems(r: nat, f: Matrix, u: int): int -> int {
    j => f(u, 1 + r + j)
  }

  /** A row of the matrix as a function of its own. */
  ghost function RowFn(f: Matrix, u: int): int -> int {
    v => f(u, v)
  }

  lemma SumParts(r: nat, s: nat, row: int -> int, reqs: int -> int, items: int -> int)
    requires forall i :: 0 <= i < r ==> reqs(i) == row(1 + i)
    requires forall j :: 0 <= j < s ==> items(j) == row(1 + r + j)
    ensures Sum(1 + r + s, row) == row(0) + Sum(r, reqs) + Sum(s, items)
  {
    SumSplit(1 + r, s, row, items);
    SumSplit(1, r, row, reqs);
    assert Sum(1, row) == Sum(0, row) + row(0);
  }

  lemma RowSplit(r: nat, s: nat, f: Matrix, u: int)
    ensures Rows(r + s + 2, f)(u) == f(u, 0) + Sum(r, ToReqs(f, u)) + Sum(s, ToItems(r, f, u)) + f(u, r + s + 1)
  {
    SumParts(r, s, RowFn(f, u), ToReqs(f, u), ToItems(r, f, u));
    RowIs(r + s + 2, f, u, RowFn(f, u));
  }

  /** What passes from requirement `i` to item `j`. */
  ghost function Between(r: nat, f: Matrix): Matrix {
    (i, j) => f(1 + i, 1 + r + j)
  }

  lemma SourceBalance(r: nat, s: nat, f: Matrix)
    requires f(0, 0) == 0 && f(0, r + s + 1) == 0 && forall j :: 0 <= j < s ==> ToItems(r, f, 0)(j) == 0
    ensures Rows(r + s + 2, f)(0) == Sum(r, ToReqs(f, 0))
  {
    RowSplit(r, s, f, 0);
    SumZero(s, ToItems(r, f, 0));
  }

  lemma RequirementBalance(r: nat, s: nat, f: Matrix, i: int, u: int)
    requires u == 1 + i && f(u, r + s + 1) == 0 && forall k :: 0 <= k < r ==> ToReqs(f, u)(k) == 0
    ensures Rows(r + s + 2, f)(u) == f(u, 0) + Rows(s, Between(r, f))(i)
  {
    RowSplit(r, s, f, u);
    SumZero(r, ToReqs(f, u));
    RowIs(s, Between(r, f), i, ToItems(r, f, u));
  }

  ghost function ColFn(f: Matrix, j: int): int -> int {
    i => f(i, j)
  }

  lemma ItemBalance(r: nat, s: nat, f: Matrix, j: int, u: int)
    requires u == 1 + r + j && f(u, 0) == 0 && forall k :: 0 <= k < s ==> ToItems(r, f, u)(k) == 0
    requires forall i :: 0 <= i < r ==> ToReqs(f, u)(i) == -ColFn(Between(r, f), j)(i)
    ensures Rows(r + s + 2, f)(u) == f(u, r + s + 1) - Cols(r, Between(r, f))(j)
  {
    RowSplit(r, s, f, u);
    SumZero(s, ToItems(r, f, u));
    ColIs(r, Between(r, f), j, ColFn(Between(r, f), j));
    SumNegate(r, ColFn(Between(r, f), j), ToReqs(f, u));
  }

  // ---- a flow of the full value is an assignment

  /** A flow of the graph. */
  ghost predicate Flows(reqs: seq<Requirement>, cart: seq<Item>, c: Grid, f: Matrix) {
    IsGraph(reqs, cart, c) && IsFlow(|reqs| + |cart| + 2, Entries(c), f, 0, |reqs| + |cart| + 1)
  }

  lemma EdgeBounds(reqs: seq<Requirement>, cart: seq<Item>, c: Grid, f: Matrix, u: int, v: int)
    requires Flows(reqs, cart, c, f)
    requires 0 <= u < |reqs| + |cart| + 2 && 0 <= v < |reqs| + |cart| + 2
    ensures var p := Sum(|cart|, Have(cart));
            -CapAt(reqs, cart, p, v, u) <= f(u, v) <= CapAt(reqs, cart, p, u, v) && f(u, v) == -f(v, u)
  {
    assert Entries(c)(u, v) == c[u][v] && Entries(c)(v, u) == c[v][u];
    assert f(u, v) <= Entries(c)(u, v) && f(v, u) <= Entries(c)(v, u);
    assert f(u, v) == -f(v, u);
  }

  /** Edges out of the source carry nothing to items, and at most the wanted quantity to requirements. */
  lemma SourceEdges(reqs: seq<Requirement>, cart: seq<Item>, c: Grid, f: Matrix)
    requires Flows(reqs, cart, c, f)
    ensures f(0, 0) == 0 && f(0, |reqs| + |cart| + 1) == 0
    ensures forall j :: 0 <= j < |cart| ==> ToItems(|reqs|, f, 0)(j) == 0
    ensures forall i :: 0 <= i < |reqs| ==> ToReqs(f, 0)(i) <= Want(reqs)(i)
  {
    var r, s := |reqs|, |cart|;
    EdgeBounds(reqs, cart, c, f, 0, 0);
    EdgeBounds(reqs, cart, c, f, 0, r + s + 1);
    forall j | 0 <= j < s ensures ToItems(r, f, 0)(j) == 0 { EdgeBounds(reqs, cart, c, f, 0, 1 + r + j); }
    forall i | 0 <= i < r ensures ToReqs(f, 0)(i) <= Want(reqs)(i) { EdgeBounds(reqs, cart, c, f, 0, 1 + i); }
  }

  lemma SourceRow(reqs: seq<Requirement>, cart: seq<Item>, c: Grid, f: Matrix)
    requires Flows(reqs, cart, c, f)
    ensures Rows(|reqs| + |cart| + 2, f)(0) == Sum(|reqs|, ToReqs(f, 0))
    ensures forall i :: 0 <= i < |reqs| ==> ToReqs(f, 0)(i) <= Want(reqs)(i)
  {
    SourceEdges(reqs, cart, c, f);
    SourceBalance(|reqs|, |cart|, f);
  }

  lemma RequirementRow(reqs: seq<Requirement>, cart: seq<Item>, c: Grid, f: Matrix, i: int)
    requires Flows(reqs, cart, c, f) && 0 <= i < |reqs|
    ensures Rows(|cart|, Between(|reqs|, f))(i) == ToReqs(f, 0)(i)
  {
    var r, s, u := |reqs|, |cart|, 1 + i;
    EdgeBounds(reqs, cart, c, f, u, r + s + 1);
    EdgeBounds(reqs, cart, c, f, u, 0);
    forall k | 0 <= k < r ensures ToReqs(f, u)(k) == 0 { EdgeBounds(reqs, cart, c, f, u, 1 + k); }
    RequirementBalance(r, s, f, i, u);
    assert Rows(r + s + 2, f)(u) == 0;
  }

  lemma PairBounds(reqs: seq<Requirement>, cart: seq<Item>, c: Grid, f: Matrix, i: int, j: int)
    requires Flows(reqs, cart, c, f) && 0 <= i < |reqs| && 0 <= j < |cart|
    ensures Between(|reqs|, f)(i, j) >= 0 && (Between(|reqs|, f)(i, j) > 0 ==> Takes(reqs, cart, i, j))
    ensures ToReqs(f, 1 + |reqs| + j)(i) == -Between(|reqs|, f)(i, j)
  {
    EdgeBounds(reqs, cart, c, f, 1 + i, 1 + |reqs| + j);
  }

  lemma ItemRow(reqs: seq<Requirement>, cart: seq<Item>, c: Grid, f: Matrix, j: int)
    requires Flows(reqs, cart, c, f) && 0 <= j < |cart|
    ensures Cols(|reqs|, Between(|reqs|, f))(j) <= Have(cart)(j)
  {
    var r, s, u := |reqs|, |cart|, 1 + |reqs| + j;
    EdgeBounds(reqs, cart, c, f, u, 0);
    EdgeBounds(reqs, cart, c, f, u, r + s + 1);
    forall k | 0 <= k < s ensures ToItems(r, f, u)(k) == 0 { EdgeBounds(reqs, cart, c, f, u, 1 + r + k); }
    forall i | 0 <= i < r
      ensures ToReqs(f, u)(i) == -ColFn(Between(r, f), j)(i)
    {
      PairBounds(reqs, cart, c, f, i, j);
    }
    ItemBalance(r, s, f, j, u);
    assert Rows(r + s + 2, f)(u) == 0;
  }

  lemma {:induction false} RowsMatch(reqs: seq<Requirement>, cart: seq<Item>, c: Grid, f: Matrix)
    requires Flows(reqs, cart, c, f) && Rows(|reqs| + |cart| + 2, f)(0) == Sum(|reqs|, Want(reqs))
    ensures forall i :: 0 <= i < |reqs| ==> Rows(|cart|, Between(|reqs|, f))(i) == Want(reqs)(i)
  {
    SourceRow(reqs, cart, c, f);
    forall i | 0 <= i < |reqs| ensures Rows(|cart|, Between(|reqs|, f))(i) == Want(reqs)(i) {
      SumTight(|reqs|, ToReqs(f, 0), Want(reqs), i);
      RequirementRow(reqs, cart, c, f, i);
    }
  }

  lemma ColumnsMatch(reqs: seq<Requirement>, cart: seq<Item>, x: Matrix)
    requires forall i :: 0 <= i < |reqs| ==> Rows(|cart|, x)(i) == Want(reqs)(i)
    requires forall j :: 0 <= j < |cart| ==> Cols(|reqs|, x)(j) <= Have(cart)(j)
    requires Sum(|reqs|, Want(reqs)) == Sum(|cart|, Have(cart))
    ensures forall j :: 0 <= j < |cart| ==> Cols(|reqs|, x)(j) == Have(cart)(j)
  {
    SumSame(|reqs|, Rows(|cart|, x), Want(reqs));
    SumSwap(|reqs|, |cart|, x);
    forall j | 0 <= j < |cart| ensures Cols(|reqs|, x)(j) == Have(cart)(j) {
      SumTight(|cart|, Cols(|reqs|, x), Have(cart), j);
    }
  }

  lemma ColumnsBounded(reqs: seq<Requirement>, cart: seq<Item>, c: Grid, f: Matrix)
    requires Flows(reqs, cart, c, f)
    ensures forall j :: 0 <= j < |cart| ==> Cols(|reqs|, Between(|reqs|, f))(j) <= Have(cart)(j)
  {
    forall j | 0 <= j < |cart| ensures Cols(|reqs|, Between(|reqs|, f))(j) <= Have(cart)(j) {
      ItemRow(reqs, cart, c, f, j);
    }
  }

  lemma PairsAcceptable(reqs: seq<Requirement>, cart: seq<Item>, c: Grid, f: Matrix)
    requires Flows(reqs, cart, c, f)
    ensures var x := Between(|reqs|, f);
            forall i, j :: 0 <= i < |reqs| && 0 <= j < |cart| ==>
                  0 <= x(i, j) && (x(i, j) > 0 ==> Takes(reqs, cart, i, j))
  {
    var x := Between(|reqs|, f);
    forall i, j | 0 <= i < |reqs| && 0 <= j < |cart|
      ensures 0 <= x(i, j) && (x(i, j) > 0 ==> Takes(reqs, cart, i, j))
    {
      PairBounds(reqs, cart, c, f, i, j);
    }
  }

  lemma FlowAssigns(reqs: seq<Requirement>, cart: seq<Item>, c: Grid, f: Matrix)
    requires Flows(reqs, cart, c, f)
    requires Rows(|reqs| + |cart| + 2, f)(0) == Sum(|reqs|, Want(reqs)) == Sum(|cart|, Have(cart))
    ensures Assignment(reqs, cart, Between(|reqs|, f))
  {
    RowsMatch(reqs, cart, c, f);
    ColumnsBounded(reqs, cart, c, f);
    ColumnsMatch(reqs, cart, Between(|reqs|, f));
    PairsAcceptable(reqs, cart, c, f);
  }

  // ---- an assignment is a flow of the full value

  ghost function Spread(reqs: seq<Requirement>, cart: seq<Item>, x: Matrix): Matrix {
    (u, v) => SpreadAt(reqs, cart, x, u, v)
  }

  ghost function SpreadAt(reqs: seq<Requirement>, cart: seq<Item>, x: Matrix, u: int, v: int): int {
    HalfSpread(reqs, cart, x, u, v) - HalfSpread(reqs, cart, x, v, u)
  }

  ghost function HalfSpread(reqs: seq<Requirement>, cart: seq<Item>, x: Matrix, u: int, v: int): int {
    var r, s := |reqs|, |cart|;
    if u == 0 && 1 <= v <= r then reqs[v - 1].quantity
    else if 1 <= u <= r && r < v <= r + s then x(u - 1, v - 1 - r)
    else if r < u <= r + s && v == r + s + 1 then cart[u - 1 - r].quantity
    else 0
  }

  lemma {:induction false} SumTerm(n: nat, f: int -> int, k: int)
    requires 0 <= k < n && forall i :: 0 <= i < n ==> f(i) >= 0
    ensures f(k) <= Sum(n, f)
  {
    SumBound(n, (i: int) => if i == k then f(k) else 0, f);
    SumOne(n, (i: int) => if i == k then f(k) else 0, k);
  }

  /** No single pair carries more than the whole cart. */
  lemma AssignmentBound(reqs: seq<Requirement>, cart: seq<Item>, x: Matrix, i: int, j: int)
    requires Assignment(reqs, cart, x) && 0 <= i < |reqs| && 0 <= j < |cart|
    ensures 0 <= x(i, j) <= Sum(|cart|, Have(cart)) && (!Takes(reqs, cart, i, j) ==> x(i, j) == 0)
  {
    var col := ColFn(x, j);
    ColIs(|reqs|, x, j, col);
    SumTerm(|reqs|, col, i);
    SumTerm(|cart|, Have(cart), j);
  }

  lemma SpreadFits(reqs: seq<Requirement>, cart: seq<Item>, c: Grid, x: Matrix, u: int, v: int)
    requires IsGraph(reqs, cart, c) && Assignment(reqs, cart, x)
    requires 0 <= u < |reqs| + |cart| + 2 && 0 <= v < |reqs| + |cart| + 2
    ensures Spread(reqs, cart, x)(u, v) <= Entries(c)(u, v)
  {
    var r := |reqs|;
    assert Entries(c)(u, v) == c[u][v];
    if 1 <= u <= r < v <= r + |cart| { AssignmentBound(reqs, cart, x, u - 1, v - 1 - r); }
    if 1 <= v <= r < u <= r + |cart| { AssignmentBound(reqs, cart, x, v - 1, u - 1 - r); }
  }

  lemma SpreadRequirement(reqs: seq<Requirement>, cart: seq<Item>, x: Matrix, i: int, u: int)
    requires 0 <= i < |reqs| && u == 1 + i && Rows(|cart|, x)(i) == reqs[i].quantity
    ensures Rows(|reqs| + |cart| + 2, Spread(reqs, cart, x))(u) == 0
  {
    var r, s, f := |reqs|, |cart|, Spread(reqs, cart, x);
    forall k | 0 <= k < r ensures ToReqs(f, u)(k) == 0 { }
    RequirementBalance(r, s, f, i, u);
    SpreadRows(reqs, cart, x, i);
  }

  lemma SpreadRows(reqs: seq<Requirement>, cart: seq<Item>, x: Matrix, i: int)
    requires 0 <= i < |reqs|
    ensures Rows(|cart|, Between(|reqs|, Spread(reqs, cart, x)))(i) == Rows(|cart|, x)(i)
  {
    SpreadBetween(reqs, cart, x);
    RowIs(|cart|, x, i, RowFn(x, i));
    RowIs(|cart|, Between(|reqs|, Spread(reqs, cart, x)), i, RowFn(x, i));
  }

  lemma SpreadBetween(reqs: seq<Requirement>, cart: seq<Item>, x: Matrix)
    ensures forall i, j :: 0 <= i < |reqs| && 0 <= j < |cart| ==>
              Between(|reqs|, Spread(reqs, cart, x))(i, j) == x(i, j)
  {
  }

  lemma SpreadItem(reqs: seq<Requirement>, cart: seq<Item>, x: Matrix, u: int)
    requires |reqs| < u <= |reqs| + |cart| && Cols(|reqs|, x)(u - 1 - |reqs|) == cart[u - 1 - |reqs|].quantity
    ensures Rows(|reqs| + |cart| + 2, Spread(reqs, cart, x))(u) == 0
  {
    var r, s, f, j := |reqs|, |cart|, Spread(reqs, cart, x), u - 1 - |reqs|;
    forall k | 0 <= k < s ensures ToItems(r, f, u)(k) == 0 { }
    SpreadBetween(reqs, cart, x);
    forall i | 0 <= i < r ensures ToReqs(f, u)(i) == -ColFn(Between(r, f), j)(i) { }
    ItemBalance(r, s, f, j, u);
    ColIs(r, x, j, ColFn(x, j));
    ColIs(r, Between(r, f), j, ColFn(x, j));
  }

  lemma SpreadSource(reqs: seq<Requirement>, cart: seq<Item>, x: Matrix)
    ensures Rows(|reqs| + |cart| + 2, Spread(reqs, cart, x))(0) == Sum(|reqs|, Want(reqs))
  {
    var r, s, f := |reqs|, |cart|, Spread(reqs, cart, x);
    forall j | 0 <= j < s ensures ToItems(r, f, 0)(j) == 0 { }
    SourceBalance(r, s, f);
    forall i | 0 <= i < r ensures ToReqs(f, 0)(i) == Want(reqs)(i) { }
    SumSame(r, ToReqs(f, 0), Want(reqs));
  }

  lemma SpreadConserves(reqs: seq<Requirement>, cart: seq<Item>, x: Matrix, n: nat)
    requires Assignment(reqs, cart, x) && n == |reqs| + |cart| + 2
    ensures forall u :: 0 < u < n - 1 ==> Rows(n, Spread(reqs, cart, x))(u) == 0
  {
    forall u | 0 < u < n - 1 ensures Rows(n, Spread(reqs, cart, x))(u) == 0 {
      if u <= |reqs| { SpreadRequirement(reqs, cart, x, u - 1, u); } else { SpreadItem(reqs, cart, x, u); }
    }
  }

  lemma SpreadWithin(reqs: seq<Requirement>, cart: seq<Item>, c: Grid, x: Matrix)
    requires IsGraph(reqs, cart, c) && Assignment(reqs, cart, x)
    ensures var n, f := |reqs| + |cart| + 2, Spread(reqs, cart, x);
            forall u, v :: 0 <= u < n && 0 <= v < n ==> f(u, v) <= Entries(c)(u, v)
  {
    var n, f := |reqs| + |cart| + 2, Spread(reqs, cart, x);
    forall u, v | 0 <= u < n && 0 <= v < n ensures f(u, v) <= Entries(c)(u, v) {
      SpreadFits(reqs, cart, c, x, u, v);
    }
  }

  lemma SpreadSkew(reqs: seq<Requirement>, cart: seq<Item>, x: Matrix)
    ensures forall u, v :: Spread(reqs, cart, x)(u, v) == -Spread(reqs, cart, x)(v, u)
  {
  }

  lemma AssignmentFlows(reqs: seq<Requirement>, cart: seq<Item>, c: Grid, x: Matrix)
    requires IsGraph(reqs, cart, c) && Assignment(reqs, cart, x)
    ensures IsFlow(|reqs| + |cart| + 2, Entries(c), Spread(reqs, cart, x), 0, |reqs| + |cart| + 1)
  {
    SpreadWithin(reqs, cart, c, x);
    SpreadSkew(reqs, cart, x);
    SpreadConserves(reqs, cart, x, |reqs| + |cart| + 2);
  }

  /** Both totals of an assignment are the same number of units. */
  lemma AssignmentTotals(reqs: seq<Requirement>, cart: seq<Item>, x: Matrix)
    requires Assignment(reqs, cart, x)
    ensures Sum(|reqs|, Want(reqs)) == Sum(|cart|, Have(cart))
  {
    SumSame(|reqs|, Rows(|cart|, x), Want(reqs));
    SumSwap(|reqs|, |cart|, x);
    SumSame(|cart|, Cols(|reqs|, x), Have(cart));
  }

  // ---- the check itself

  function WantedUnits(reqs: seq<Requirement>): nat {
    if reqs == [] then 0 else WantedUnits(reqs[..|reqs| - 1]) + reqs[|reqs| - 1].quantity
  }

  function PresentUnits(cart: seq<Item>): nat {
    if cart == [] then 0 else PresentUnits(cart[..|cart| - 1]) + cart[|cart| - 1].quantity
  }

  lemma {:induction false} WantedIsSum(reqs: seq<Requirement>)
    ensures WantedUnits(reqs) == Sum(|reqs|, Want(reqs)) <= |reqs| * U64_MAX
  {
    if reqs != [] {
      var init := reqs[..|reqs| - 1];
      WantedIsSum(init);
      SumSame(|init|, Want(init), Want(reqs));
    }
  }

  lemma {:induction false} PresentIsSum(cart: seq<Item>)
    ensures PresentUnits(cart) == Sum(|cart|, Have(cart)) <= |cart| * U64_MAX
  {
    if cart != [] {
      var init := cart[..|cart| - 1];
      PresentIsSum(init);
      SumSame(|init|, Have(init), Have(cart));
    }
  }

  predicate Acceptable(reqs: seq<Requirement>, sku: string) {
    exists i :: 0 <= i < |reqs| && sku in reqs[i].acceptable
  }

  /** What the mandate decides about a checkout, stated without any flow. */
  ghost function Verdict(reqs: seq<Requirement>, checkout: Option<seq<Item>>): Result<(), Failure> {
    match checkout
    case None => Err(Unresolved)
    case Some(cart) =>
      if cart == [] || exists j :: 0 <= j < |cart| && !Acceptable(reqs, cart[j].sku) then Err(Violated)
      else if |reqs| + |cart| > MAX_LINE_ITEM_NODES then Err(Unresolved)
      else if Assignable(reqs, cart) then Ok(())
      else Err(Violated)
  }

  lemma AssignableAccepts(reqs: seq<Requirement>, cart: seq<Item>, x: Matrix, j: int)
    requires Assignment(reqs, cart, x) && 0 <= j < |cart|
    ensures Acceptable(reqs, cart[j].sku)
  {
    if !Acceptable(reqs, cart[j].sku) {
      forall i | 0 <= i < |reqs| ensures ColFn(x, j)(i) == 0 {
        assert x(i, j) > 0 ==> Takes(reqs, cart, i, j);
      }
      SumZero(|reqs|, ColFn(x, j));
      ColIs(|reqs|, x, j, ColFn(x, j));
      assert false;
    }
  }

  predicate TakenBySome(reqs: seq<Requirement>, item: Item) {
    exists r :: r in reqs && item.sku in r.acceptable
  }

  /** Some requirement takes each item of the cart. */
  predicate EveryItemTaken(reqs: seq<Requirement>, cart: seq<Item>) {
    forall j :: 0 <= j < |cart| ==> TakenBySome(reqs, cart[j])
  }

  /** A checkout that is there, not empty and small enough to decide, whose units can be assigned. */
  ghost predicate Fulfilled(reqs: seq<Requirement>, checkout: Option<seq<Item>>) {
    checkout.Some? && checkout.value != [] && |reqs| + |checkout.value| <= 512 && Assignable(reqs, checkout.value)
  }

  /** What cannot be decided: no checkout to trust, or one that is too large. */
  predicate Undecidable(reqs: seq<Requirement>, checkout: Option<seq<Item>>) {
    checkout.None?
    || (checkout.value != [] && EveryItemTaken(reqs, checkout.value) && |reqs| + |checkout.value| > 512)
  }

  lemma AssignableTaken(reqs: seq<Requirement>, cart: seq<Item>)
    requires Assignable(reqs, cart)
    ensures EveryItemTaken(reqs, cart)
  {
    var x :| Assignment(reqs, cart, x);
    forall j | 0 <= j < |cart| ensures Acceptable(reqs, cart[j].sku) { AssignableAccepts(reqs, cart, x, j); }
    TakenExact(reqs, cart);
  }

  lemma TakenExact(reqs: seq<Requirement>, cart: seq<Item>)
    ensures EveryItemTaken(reqs, cart) <==> forall j :: 0 <= j < |cart| ==> Acceptable(reqs, cart[j].sku)
  {
    forall j | 0 <= j < |cart| ensures Acceptable(reqs, cart[j].sku) <==> TakenBySome(reqs, cart[j]) { }
  }

  /**
   The verdict without its order of tests: accepted exactly when there is a checkout whose units can be
   assigned, undecided exactly when there is none to trust or it is too large, and violated otherwise.
   */
  lemma VerdictMeaning(reqs: seq<Requirement>, checkout: Option<seq<Item>>)
    ensures Verdict(reqs, checkout).Ok? <==> Fulfilled(reqs, checkout)
    ensures Verdict(reqs, checkout) == Err(Unresolved) <==> Undecidable(reqs, checkout)
  {
    if checkout.Some? {
      var cart := checkout.value;
      if Assignable(reqs, cart) { AssignableTaken(reqs, cart); }
      TakenExact(reqs, cart);
    }
  }

  method BuildGraph(reqs: seq<Requirement>, cart: seq<Item>, present: u128) returns (cap: array2<u128>)
    requires present as int == Sum(|cart|, Have(cart))
    ensures fresh(cap) && cap.Length0 == cap.Length1 == |reqs| + |cart| + 2 && IsGraph(reqs, cart, Snapshot(cap))
  {
    var r, s := |reqs|, |cart|;
    var n := r + s + 2;
    cap := new u128[n, n]((_, _) => 0);
    for i := 0 to r
      invariant forall u, v :: 0 <= u < n && 0 <= v < n ==>
                  cap[u, v] as int == if (u == 0 && v <= i) || 1 <= u <= i
                        then CapAt(reqs, cart, present as int, u, v) else 0
    {
      var node := 1 + i;
      cap[0, node] := reqs[i].quantity as u128;
      for j := 0 to s
        invariant forall u, v :: 0 <= u < n && 0 <= v < n && u != node ==>
                    cap[u, v] as int == if (u == 0 && v <= node) || 1 <= u <= i
                          then CapAt(reqs, cart, present as int, u, v) else 0
        invariant forall v :: 0 <= v < n ==>
                    cap[node, v] as int == if v <= r + j then CapAt(reqs, cart, present as int, node, v) else 0
      {
        if cart[j].sku in reqs[i].acceptable {
          cap[node, 1 + r + j] := present;
        }
      }
    }
    for j := 0 to s
      invariant forall u, v :: 0 <= u < n && 0 <= v < n ==>
                  cap[u, v] as int == if u <= r + j then CapAt(reqs, cart, present as int, u, v) else 0
    {
      cap[1 + r + j, n - 1] := cart[j].quantity as u128;
    }
  }

  /** The edges out of the source: the wanted quantities, and nothing else. */
  lemma GraphFromSource(reqs: seq<Requirement>, cart: seq<Item>, c: Grid)
    requires IsGraph(reqs, cart, c)
    ensures Entries(c)(0, 0) == 0 && Entries(c)(0, |reqs| + |cart| + 1) == 0
    ensures forall j :: 0 <= j < |cart| ==> ToItems(|reqs|, Entries(c), 0)(j) == 0
    ensures forall i :: 0 <= i < |reqs| ==> ToReqs(Entries(c), 0)(i) == Want(reqs)(i)
  {
    var r, s := |reqs|, |cart|;
    assert Entries(c)(0, 0) == c[0][0] && Entries(c)(0, r + s + 1) == c[0][r + s + 1];
    forall j | 0 <= j < s ensures ToItems(r, Entries(c), 0)(j) == 0 { assert c[0][1 + r + j] == 0; }
    forall i | 0 <= i < r
      ensures ToReqs(Entries(c), 0)(i) == Want(reqs)(i)
    {
      assert c[0][1 + i] == reqs[i].quantity;
    }
  }

  lemma GraphSource(reqs: seq<Requirement>, cart: seq<Item>, c: Grid)
    requires IsGraph(reqs, cart, c)
    ensures Rows(|reqs| + |cart| + 2, Entries(c))(0) == Sum(|reqs|, Want(reqs))
  {
    GraphFromSource(reqs, cart, c);
    SourceBalance(|reqs|, |cart|, Entries(c));
    SumSame(|reqs|, ToReqs(Entries(c), 0), Want(reqs));
  }

  lemma GraphBounded(reqs: seq<Requirement>, cart: seq<Item>, c: Grid)
    requires IsGraph(reqs, cart, c) && Sum(|cart|, Have(cart)) + U64_MAX <= U128_MAX
    ensures Bounded(|reqs| + |cart| + 2, c)
  {
  }

  lemma FullFlowAssigns(reqs: seq<Requirement>, cart: seq<Item>, c: Grid, n: nat, total: int)
    requires IsGraph(reqs, cart, c) && Sum(|reqs|, Want(reqs)) == Sum(|cart|, Have(cart)) == total
    requires n == |reqs| + |cart| + 2 && IsMaxFlow(n, Entries(c), 0, n - 1, total)
    ensures Assignable(reqs, cart)
  {
    var f :| IsFlow(n, Entries(c), f, 0, n - 1) && Rows(n, f)(0) == total;
    FlowAssigns(reqs, cart, c, f);
  }

  lemma AssignmentFills(reqs: seq<Requirement>, cart: seq<Item>, c: Grid, n: nat, total: int, x: Matrix)
    requires IsGraph(reqs, cart, c) && Assignment(reqs, cart, x)
    requires n == |reqs| + |cart| + 2 && IsMaxFlow(n, Entries(c), 0, n - 1, total)
    ensures Sum(|reqs|, Want(reqs)) <= total
  {
    AssignmentFlows(reqs, cart, c, x);
    SpreadSource(reqs, cart, x);
    MaxFlowBounds(n, Entries(c), 0, n - 1, total, Spread(reqs, cart, x), {});
  }

  /** The greatest flow has the wanted value exactly when the units can be assigned. */
  lemma MaxFlowDecides(reqs: seq<Requirement>, cart: seq<Item>, c: Grid, n: nat, sink: int, total: int)
    requires IsGraph(reqs, cart, c) && Sum(|reqs|, Want(reqs)) == Sum(|cart|, Have(cart))
    requires n == |reqs| + |cart| + 2 && sink == n - 1 && IsMaxFlow(n, Entries(c), 0, sink, total)
    requires total <= Sum(|reqs|, Want(reqs))
    ensures total == Sum(|reqs|, Want(reqs)) <==> Assignable(reqs, cart)
  {
    if total == Sum(|reqs|, Want(reqs)) { FullFlowAssigns(reqs, cart, c, n, total); }
    if Assignable(reqs, cart) {
      var x :| Assignment(reqs, cart, x);
      AssignmentFills(reqs, cart, c, n, total, x);
    }
  }

  /** The greatest flow on the graph of `reqs` and `cart`. */
  method GraphFlow(reqs: seq<Requirement>, cart: seq<Item>, present: u128) returns (total: u128)
    requires |reqs| + |cart| <= MAX_LINE_ITEM_NODES
    requires present as int == Sum(|reqs|, Want(reqs)) == Sum(|cart|, Have(cart))
               && present as int + U64_MAX <= U128_MAX
    ensures total == present <==> Assignable(reqs, cart)
  {
    var cap := BuildGraph(reqs, cart, present);
    ghost var c, n := Snapshot(cap), cap.Length0;
    assert Bounded(n, c) && Rows(n, Entries(c))(0) == present as int by {
      GraphBounded(reqs, cart, c);
      GraphSource(reqs, cart, c);
    }
    var sink := |reqs| + |cart| + 1;
    ghost var rounds;
    total, rounds := MaxFlow(cap, 0, sink);
    assert total == present <==> Assignable(reqs, cart) by {
      CarryingIsFlow(n, c, Snapshot(cap), 0, sink, total as int);
      MaxFlowDecides(reqs, cart, c, n, sink, total as int);
    }
  }

  method Matches(reqs: seq<Requirement>, cart: seq<Item>) returns (ok: bool)
    requires |reqs| + |cart| <= MAX_LINE_ITEM_NODES && WantedUnits(reqs) == PresentUnits(cart)
    ensures ok <==> Assignable(reqs, cart)
  {
    WantedIsSum(reqs);
    PresentIsSum(cart);
    var wanted := WantedUnits(reqs) as u128;
    var total := GraphFlow(reqs, cart, PresentUnits(cart) as u128);
    ok := total == wanted;
  }

  method LineItems(reqs: seq<Requirement>, checkout: Option<seq<Item>>) returns (r: Result<(), Failure>)
    ensures r == Verdict(reqs, checkout)
    ensures r.Ok? <==> Fulfilled(reqs, checkout)
    ensures r == Err(Unresolved) <==> Undecidable(reqs, checkout)
  {
    VerdictMeaning(reqs, checkout);
    if checkout.None? {
      return Err(Unresolved);
    }
    var cart := checkout.value;
    if cart == [] {
      return Err(Violated);
    }
    if exists j :: 0 <= j < |cart| && !Acceptable(reqs, cart[j].sku) {
      return Err(Violated);
    }
    if |reqs| + |cart| > MAX_LINE_ITEM_NODES {
      return Err(Unresolved);
    }
    if WantedUnits(reqs) != PresentUnits(cart) {
      WantedIsSum(reqs);
      PresentIsSum(cart);
      forall x | Assignment(reqs, cart, x) ensures false { AssignmentTotals(reqs, cart, x); }
      return Err(Violated);
    }
    var ok := Matches(reqs, cart);
    r := if ok then Ok(()) else Err(Violated);
  }
}
