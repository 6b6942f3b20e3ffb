/** Line items merged by id (crates/authority/src/mandate.rs). */
module Checkout {
  import opened Prelude
  import opened CartMatching

  /** One line as written: the quantity is any u64. */
  datatype Line = Line(id: string, quantity: nat)

  datatype LineError = ZeroQuantity | QuantityOverflow

  /** All units of `id`. */
  function Units(lines: seq<Line>, id: string): nat {
    if lines == [] then 0
    else
      var last := lines[|lines| - 1];
      Units(lines[..|lines| - 1], id) + if last.id == id then last.quantity else 0
  }

  predicate Wellformed(lines: seq<Line>) {
    && (forall i :: 0 <= i < |lines| ==> lines[i].quantity >= 1)
    && (forall i :: 0 <= i < |lines| ==> Units(lines, lines[i].id) <= U64_MAX)
  }

  /** The distinct ids, in order of first appearance. */
  function Ids(lines: seq<Line>): seq<string> {
    if lines == [] then []
    else
      var before, id := Ids(lines[..|lines| - 1]), lines[|lines| - 1].id;
      if id in before then before else before + [id]
  }

  function Skus(items: seq<Item>): seq<string> {
    seq(|items|, i requires 0 <= i < |items| => items[i].sku)
  }

  /** One entry per distinct id, in order of first appearance, carrying exactly the units written for it. */
  ghost predicate Merged(lines: seq<Line>, items: seq<Item>) {
    Skus(items) == Ids(lines) && forall i :: 0 <= i < |items| ==> items[i].quantity == Units(lines, items[i].sku)
  }

  /** The ids are distinct and are those of the lines. */
  lemma {:induction false} IdsHold(lines: seq<Line>)
    ensures forall i, j :: 0 <= i < j < |Ids(lines)| ==> Ids(lines)[i] != Ids(lines)[j]
    ensures forall id :: id in Ids(lines) <==> exists k :: 0 <= k < |lines| && lines[k].id == id
  {
    if lines != [] {
      var n := |lines| - 1;
      IdsHold(lines[..n]);
      assert forall k :: 0 <= k < n ==> lines[..n][k] == lines[k];
      assert lines[n].id in Ids(lines);
      forall id | id in Ids(lines) ensures exists k :: 0 <= k < |lines| && lines[k].id == id {
        if id != lines[n].id {
          var k :| 0 <= k < n && lines[..n][k].id == id;
          assert lines[k].id == id;
        }
      }
    }
  }

  lemma {:induction false} UnitsGrow(lines: seq<Line>, n: nat, id: string)
    requires n <= |lines|
    ensures Units(lines[..n], id) <= Units(lines, id)
    decreases |lines| - n
  {
    if n == |lines| {
      assert lines[..n] == lines;
    } else {
      assert lines[..n + 1][..n] == lines[..n];
      UnitsGrow(lines, n + 1, id);
    }
  }

  lemma {:induction false} UnitsAbsent(lines: seq<Line>, id: string)
    requires forall k :: 0 <= k < |lines| ==> lines[k].id != id
    ensures Units(lines, id) == 0
  {
    if lines != [] { UnitsAbsent(lines[..|lines| - 1], id); }
  }

  method Find(items: seq<Item>, id: string) returns (found: Option<nat>)
    ensures found.Some? ==> found.value < |items| && items[found.value].sku == id
    ensures found.None? ==> forall i :: 0 <= i < |items| ==> items[i].sku != id
  {
    for i := 0 to |items|
      invariant forall j :: 0 <= j < i ==> items[j].sku != id
    {
      if items[i].sku == id {
        return Some(i);
      }
    }
    return None;
  }

  lemma IdsSnoc(lines: seq<Line>, line: Line)
    ensures Ids(lines + [line]) == if line.id in Ids(lines) then Ids(lines) else Ids(lines) + [line.id]
    ensures forall id :: Units(lines + [line], id) == Units(lines, id) + if line.id == id then line.quantity else 0
  {
    assert (lines + [line])[..|lines|] == lines;
  }

  lemma AddedTo(lines: seq<Line>, line: Line, items: seq<Item>, i: nat, q: Quantity)
    requires Merged(lines, items) && i < |items| && items[i].sku == line.id && q == items[i].quantity + line.quantity
    ensures Merged(lines + [line], items[i := Item(line.id, q)])
  {
    var after := items[i := Item(line.id, q)];
    IdsSnoc(lines, line);
    IdsHold(lines);
    assert Skus(items)[i] == line.id && Skus(after) == Skus(items);
    forall j | 0 <= j < |after| ensures after[j].quantity == Units(lines + [line], after[j].sku) {
      if j != i { assert Skus(items)[j] != Skus(items)[i]; }
    }
  }

  lemma AddedNew(lines: seq<Line>, line: Line, items: seq<Item>)
    requires Merged(lines, items) && 1 <= line.quantity <= U64_MAX
    requires forall i :: 0 <= i < |items| ==> items[i].sku != line.id
    ensures Merged(lines + [line], items + [Item(line.id, line.quantity)])
  {
    IdsSnoc(lines, line);
    IdsHold(lines);
    assert line.id !in Skus(items);
    UnitsAbsent(lines, line.id);
    assert Skus(items + [Item(line.id, line.quantity)]) == Skus(items) + [line.id];
  }

  lemma MergedFits(lines: seq<Line>, items: seq<Item>)
    requires Merged(lines, items)
    ensures forall k :: 0 <= k < |lines| ==> Units(lines, lines[k].id) <= U64_MAX
  {
    IdsHold(lines);
    forall k | 0 <= k < |lines| ensures Units(lines, lines[k].id) <= U64_MAX {
      assert lines[k].id in Skus(items);
      var i :| 0 <= i < |items| && items[i].sku == lines[k].id;
    }
  }

  lemma Overflows(lines: seq<Line>, k: nat, items: seq<Item>, i: nat)
    requires k < |lines| && Merged(lines[..k], items) && i < |items| && items[i].sku == lines[k].id
    requires items[i].quantity + lines[k].quantity > U64_MAX
    ensures !Wellformed(lines)
  {
    assert lines[..k + 1][..k] == lines[..k];
    UnitsGrow(lines, k + 1, lines[k].id);
  }

  /** One line merged into the items of the lines before it; absent when a total leaves 64 bits. */
  method AddLine(lines: seq<Line>, k: nat, items: seq<Item>) returns (r: Option<seq<Item>>)
    requires k < |lines| && Merged(lines[..k], items) && 1 <= lines[k].quantity <= U64_MAX
    ensures r.Some? ==> Merged(lines[..k + 1], r.value) && r.value != []
    ensures r.None? ==> !Wellformed(lines)
  {
    var line := lines[k];
    var found := Find(items, line.id);
    assert lines[..k + 1] == lines[..k] + [line];
    if found.Some? {
      var i := found.value;
      if items[i].quantity + line.quantity > U64_MAX {
        Overflows(lines, k, items, i);
        return None;
      }
      AddedTo(lines[..k], line, items, i, items[i].quantity + line.quantity);
      r := Some(items[i := Item(line.id, items[i].quantity + line.quantity)]);
    } else {
      AddedNew(lines[..k], line, items);
      r := Some(items + [Item(line.id, line.quantity)]);
    }
  }

  method Parse(lines: seq<Line>) returns (r: Result<seq<Item>, LineError>)
    requires forall i :: 0 <= i < |lines| ==> lines[i].quantity <= U64_MAX
    ensures r.Ok? <==> Wellformed(lines)
    ensures r.Ok? ==> Merged(lines, r.value) && (r.value == [] <==> lines == [])
  {
    var items: seq<Item> := [];
    for k := 0 to |lines|
      invariant Merged(lines[..k], items) && (items == [] <==> k == 0)
      invariant forall i :: 0 <= i < k ==> lines[i].quantity >= 1
    {
      var line := lines[k];
      if line.quantity == 0 {
        return Err(ZeroQuantity);
      }
      var next := AddLine(lines, k, items);
      if next.None? { return Err(QuantityOverflow); }
      items := next.value;
    }
    assert lines[..|lines|] == lines;
    MergedFits(lines, items);
    r := Ok(items);
  }

  /** From raw lines to the decision: accepted exactly when the lines merge and the merged units can be assigned. */
  method CheckCart(reqs: seq<Requirement>, lines: seq<Line>) returns (ok: bool, items: seq<Item>)
    requires forall i :: 0 <= i < |lines| ==> lines[i].quantity <= U64_MAX
    ensures Wellformed(lines) ==> Merged(lines, items)
    ensures ok <==> Wellformed(lines) && lines != [] && |reqs| + |items| <= 512 && Assignable(reqs, items)
  {
    items := [];
    var parsed := Parse(lines);
    if parsed.Err? {
      return false, [];
    }
    items := parsed.value;
    var r := LineItems(reqs, Some(items));
    ok := r.Ok?;
  }
}
