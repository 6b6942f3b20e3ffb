/**
 Replacing one subtree that is carried in the clear, and what this preserves.
 A step of issuance changes one container somewhere in the document; grafting lifts
 what is known of that container to the whole tree: its wire form, its reading,
 its digests and its fitness.
 */
module Grafting {
  import opened Prelude
  import opened Json
  import opened Processing
  import opened SdTree
  import opened Walk
  import opened Landing
  import opened Selection

  function SetMember(ms: Members, name: string, t: Tree): Members {
    match ms
    case NoMembers => NoMembers
    case Members(n, was, rest) =>
      if n == name then Members(n, t, rest) else Members(n, was, SetMember(rest, name, t))
  }

  /** The cell at position `i` of the wire array. */
  function CellAt(cells: Cells, i: nat): Option<Cell> {
    match cells
    case NoCells => None
    case Cells(head, tail) => if i == 0 then Some(head) else CellAt(tail, i - 1)
  }

  function SetCell(cells: Cells, i: nat, c: Cell): Cells {
    match cells
    case NoCells => NoCells
    case Cells(head, tail) => if i == 0 then Cells(c, tail) else Cells(head, SetCell(tail, i - 1, c))
  }

  /** The child in the clear at a wire position. */
  function ClearChild(t: Tree, s: Segment): Option<Tree> {
    match (t, s)
    case (ArrT(cells), Index(i)) =>
      (match CellAt(cells, i) case Some(Shown(sub)) => Some(sub) case _ => None)
    case (ObjT(ms, _, _), Key(name)) => MemberNamed(ms, name)
    case _ => None
  }

  function SetClearChild(t: Tree, s: Segment, sub: Tree): Tree {
    match (t, s)
    case (ArrT(cells), Index(i)) => ArrT(SetCell(cells, i, Shown(sub)))
    case (ObjT(ms, hasSd, slots), Key(name)) => ObjT(SetMember(ms, name, sub), hasSd, slots)
    case _ => t
  }

  /** The subtree reached without crossing a digest. */
  function ClearAt(t: Tree, path: Path): Option<Tree>
    decreases |path|
  {
    if path == [] then Some(t)
    else match ClearChild(t, path[0]) case None => None case Some(sub) => ClearAt(sub, path[1..])
  }

  function Graft(t: Tree, path: Path, sub: Tree): Tree
    requires ClearAt(t, path).Some?
    decreases |path|
  {
    if path == [] then sub
    else SetClearChild(t, path[0], Graft(ClearChild(t, path[0]).value, path[1..], sub))
  }

  /** The same replacement on the wire document. */
  function Put(doc: Json, path: Path, v: Json): Json
    decreases |path|
  {
    if path == [] then v
    else match (doc, path[0])
      case (Obj(fields), Key(name)) =>
        if name in fields then Obj(fields[name := Put(fields[name], path[1..], v)]) else doc
      case (Arr(items), Index(i)) =>
        if i < |items| then Arr(items[i := Put(items[i], path[1..], v)]) else doc
      case _ => doc
  }

  // ---- the wire document follows the tree

  lemma {:induction false} MemberEncoded(ms: Members, name: string)
    requires Unique(ms)
    ensures MemberNamed(ms, name).Some? <==> name in EncodeMembers(ms)
    ensures MemberNamed(ms, name).Some? ==> EncodeMembers(ms)[name] == Encode(MemberNamed(ms, name).value)
  {
    match ms
    case NoMembers =>
    case Members(n, _, rest) => MemberEncoded(rest, name);
  }

  lemma {:induction false} SetMemberEncoded(ms: Members, name: string, t: Tree)
    requires Unique(ms) && MemberNamed(ms, name).Some?
    ensures EncodeMembers(SetMember(ms, name, t)) == EncodeMembers(ms)[name := Encode(t)]
  {
    match ms
    case Members(n, was, rest) =>
      if n != name { SetMemberEncoded(rest, name, t); }
  }

  lemma {:induction false} CellEncoded(cells: Cells, i: nat)
    ensures CellAt(cells, i).Some? <==> i < |EncodeCells(cells)|
    ensures CellAt(cells, i).Some? ==> EncodeCells(cells)[i] == EncodeCell(CellAt(cells, i).value)
    decreases cells
  {
    match cells
    case NoCells =>
    case Cells(head, tail) => if i > 0 { CellEncoded(tail, i - 1); }
  }

  lemma {:induction false} SetCellEncoded(cells: Cells, i: nat, c: Cell)
    requires CellAt(cells, i).Some?
    ensures i < |EncodeCells(cells)|
    ensures EncodeCells(SetCell(cells, i, c)) == EncodeCells(cells)[i := EncodeCell(c)]
    decreases cells
  {
    match cells
    case Cells(head, tail) => if i > 0 { SetCellEncoded(tail, i - 1, c); }
  }

  lemma MapPutSwap<K, V>(m: map<K, V>, j: K, v: V, k: K, w: V)
    requires j != k
    ensures m[j := v][k := w] == m[k := w][j := v]
  {
  }

  lemma MemberOnWire(tab: Table, t: Tree, name: string, sub: Tree)
    requires t.ObjT? && Fits(tab, t) && MemberNamed(t.members, name).Some?
    ensures var fields := Encode(t).fields;
            && name in fields
            && fields[name] == Encode(MemberNamed(t.members, name).value)
            && Encode(SetClearChild(t, Key(name), sub)) == Obj(fields[name := Encode(sub)])
  {
    NamesUnique(t.members);
    MemberEncoded(t.members, name);
    MembersNotReserved(tab, t.members);
    SetMemberEncoded(t.members, name, sub);
    MapPutSwap(EncodeMembers(t.members), "_sd", Arr(DigestList(t.slots)), name, Encode(sub));
  }

  lemma ElementOnWire(t: Tree, i: nat, sub: Tree)
    requires t.ArrT? && CellAt(t.cells, i).Some? && CellAt(t.cells, i).value.Shown?
    ensures var items := Encode(t).items;
            && i < |items|
            && items[i] == Encode(CellAt(t.cells, i).value.t)
            && Encode(SetClearChild(t, Index(i), sub)) == Arr(items[i := Encode(sub)])
  {
    CellEncoded(t.cells, i);
    SetCellEncoded(t.cells, i, Shown(sub));
  }

  lemma ClearChildEncoded(tab: Table, t: Tree, s: Segment, sub: Tree, rel: Path, v: Json)
    requires Fits(tab, t) && ClearChild(t, s).Some?
    ensures Lookup(Encode(t), [s] + rel) == Lookup(Encode(ClearChild(t, s).value), rel)
    ensures Put(Encode(ClearChild(t, s).value), rel, v) == Encode(sub) ==>
              Put(Encode(t), [s] + rel, v) == Encode(SetClearChild(t, s, sub))
  {
    assert ([s] + rel)[1..] == rel;
    if s.Key? { MemberOnWire(tab, t, s.name, sub); } else { ElementOnWire(t, s.i, sub); }
  }

  lemma {:induction false} ClearFits(tab: Table, t: Tree, s: Segment)
    requires Fits(tab, t) && ClearChild(t, s).Some?
    ensures Fits(tab, ClearChild(t, s).value)
  {
    match (t, s)
    case (ArrT(cells), Index(i)) => CellAtFits(tab, cells, i);
    case (ObjT(ms, _, _), Key(name)) => MemberFits(tab, ms, name);
  }

  lemma {:induction false} CellAtFits(tab: Table, cells: Cells, i: nat)
    requires FitsCells(tab, cells) && CellAt(cells, i).Some?
    ensures FitsCell(tab, CellAt(cells, i).value)
    decreases cells
  {
    match cells
    case Cells(head, tail) => if i > 0 { CellAtFits(tab, tail, i - 1); }
  }

  lemma {:induction false} GraftEncoded(tab: Table, t: Tree, path: Path, sub: Tree)
    requires Fits(tab, t) && ClearAt(t, path).Some?
    ensures Lookup(Encode(t), path) == Some(Encode(ClearAt(t, path).value))
    ensures Encode(Graft(t, path, sub)) == Put(Encode(t), path, Encode(sub))
    decreases |path|
  {
    if path != [] {
      var child := ClearChild(t, path[0]).value;
      ClearFits(tab, t, path[0]);
      GraftEncoded(tab, child, path[1..], sub);
      assert path == [path[0]] + path[1..];
      ClearChildEncoded(tab, t, path[0], Graft(child, path[1..], sub), path[1..], Encode(sub));
    }
  }

  // ---- growth by one digest that leaves the claims alone

  /** `after` reads like `before`, and carries exactly the one more digest `g`. */
  predicate Grows(tab: Table, before: Tree, after: Tree, g: string) {
    && Fits(tab, after) && Distinct(after)
    && Plain(after) == Plain(before)
    && Digests(after) == Digests(before) + {g}
  }

  lemma {:induction false} SetMemberGrows(tab: Table, ms: Members, name: string, sub: Tree, g: string)
    requires FitsMembers(tab, ms) && DistinctMembers(ms) && g !in MembersDigests(ms)
    requires MemberNamed(ms, name).Some? && Grows(tab, MemberNamed(ms, name).value, sub, g)
    ensures var after := SetMember(ms, name, sub);
            && FitsMembers(tab, after) && DistinctMembers(after)
            && PlainMembers(after) == PlainMembers(ms)
            && MembersDigests(after) == MembersDigests(ms) + {g}
            && Names(after) == Names(ms)
  {
    match ms
    case Members(n, t, rest) =>
      if n != name { SetMemberGrows(tab, rest, name, sub, g); }
  }

  lemma {:induction false} SetCellGrows(tab: Table, cells: Cells, i: nat, sub: Tree, g: string)
    requires FitsCells(tab, cells) && DistinctCells(cells) && g !in CellsDigests(cells)
    requires CellAt(cells, i).Some? && CellAt(cells, i).value.Shown? && Grows(tab, CellAt(cells, i).value.t, sub, g)
    ensures var after := SetCell(cells, i, Shown(sub));
            && FitsCells(tab, after) && DistinctCells(after)
            && PlainCells(after) == PlainCells(cells)
            && CellsDigests(after) == CellsDigests(cells) + {g}
    decreases cells
  {
    match cells
    case Cells(head, tail) => if i > 0 { SetCellGrows(tab, tail, i - 1, sub, g); }
  }

  lemma ClearChildGrows(tab: Table, t: Tree, s: Segment, sub: Tree, g: string)
    requires Fits(tab, t) && Distinct(t) && g !in Digests(t)
    requires ClearChild(t, s).Some? && Grows(tab, ClearChild(t, s).value, sub, g)
    ensures Grows(tab, t, SetClearChild(t, s, sub), g)
  {
    match (t, s)
    case (ArrT(cells), Index(i)) => SetCellGrows(tab, cells, i, sub, g);
    case (ObjT(ms, hasSd, slots), Key(name)) => SetMemberGrows(tab, ms, name, sub, g);
    case _ =>
  }

  lemma {:induction false} ClearDistinct(t: Tree, s: Segment)
    requires Distinct(t) && ClearChild(t, s).Some?
    ensures Distinct(ClearChild(t, s).value) && Digests(ClearChild(t, s).value) <= Digests(t)
  {
    match (t, s)
    case (ArrT(cells), Index(i)) => CellAtDistinct(cells, i);
    case (ObjT(ms, _, _), Key(name)) => MemberDistinct(ms, name);
  }

  lemma {:induction false} CellAtDistinct(cells: Cells, i: nat)
    requires DistinctCells(cells) && CellAt(cells, i).Some?
    ensures DistinctCell(CellAt(cells, i).value) && CellDigests(CellAt(cells, i).value) <= CellsDigests(cells)
    decreases cells
  {
    match cells
    case Cells(head, tail) => if i > 0 { CellAtDistinct(tail, i - 1); }
  }

  lemma {:induction false} MemberDistinct(ms: Members, name: string)
    requires DistinctMembers(ms) && MemberNamed(ms, name).Some?
    ensures Distinct(MemberNamed(ms, name).value) && Digests(MemberNamed(ms, name).value) <= MembersDigests(ms)
  {
    match ms
    case Members(n, _, rest) => if n != name { MemberDistinct(rest, name); }
  }

  lemma {:induction false} GraftGrows(tab: Table, t: Tree, path: Path, sub: Tree, g: string)
    requires Fits(tab, t) && Distinct(t) && g !in Digests(t)
    requires ClearAt(t, path).Some?
    requires Fits(tab, ClearAt(t, path).value) && Distinct(ClearAt(t, path).value)
               && g !in Digests(ClearAt(t, path).value)
             ==> Grows(tab, ClearAt(t, path).value, sub, g)
    ensures Grows(tab, t, Graft(t, path, sub), g)
    decreases |path|
  {
    if path != [] {
      ClearFits(tab, t, path[0]);
      ClearDistinct(t, path[0]);
      GraftGrows(tab, ClearChild(t, path[0]).value, path[1..], sub, g);
      ClearChildGrows(tab, t, path[0], Graft(ClearChild(t, path[0]).value, path[1..], sub), g);
    }
  }

  // ---- other places stay reachable

  /** `q` leads, in the clear, to a node of the kind an operation needs. */
  predicate Stands(t: Tree, q: Path, container: bool) {
    ClearAt(t, q).Some? && (container ==> !ClearAt(t, q).value.Leaf?)
  }

  lemma {:induction false} MemberKept(ms: Members, name: string, sub: Tree, other: string)
    ensures MemberNamed(ms, name).Some? ==>
              MemberNamed(SetMember(ms, name, sub), other) ==
              if other == name then Some(sub) else MemberNamed(ms, other)
  {
    match ms
    case NoMembers =>
    case Members(_, _, rest) => MemberKept(rest, name, sub, other);
  }

  lemma {:induction false} CellKept(cells: Cells, i: nat, c: Cell, j: nat)
    ensures CellAt(cells, i).Some? ==> CellAt(SetCell(cells, i, c), j) == if i == j then Some(c) else CellAt(cells, j)
    decreases cells
  {
    match cells
    case NoCells =>
    case Cells(_, tail) => if i > 0 && j > 0 { CellKept(tail, i - 1, c, j - 1); }
  }

  lemma ClearChildKept(t: Tree, s: Segment, sub: Tree, other: Segment)
    requires ClearChild(t, s).Some?
    ensures ClearChild(SetClearChild(t, s, sub), other) == if other == s then Some(sub) else ClearChild(t, other)
  {
    match (t, s)
    case (ArrT(cells), Index(i)) => if other.Index? { CellKept(cells, i, Shown(sub), other.i); }
    case (ObjT(ms, _, _), Key(name)) => if other.Key? { MemberKept(ms, name, sub, other.name); }
    case _ =>
  }

  lemma {:induction false} GraftStands(t: Tree, path: Path, sub: Tree, q: Path, container: bool)
    requires ClearAt(t, path).Some? && Stands(t, q, container)
    requires path <= q ==> Stands(sub, q[|path|..], container)
    requires !sub.Leaf?
    ensures Stands(Graft(t, path, sub), q, container)
    decreases |path|
  {
    if path == [] {
      assert q[0..] == q;
    } else if q != [] {
      var child := ClearChild(t, path[0]).value;
      var grown := Graft(child, path[1..], sub);
      ClearChildKept(t, path[0], grown, q[0]);
      if q[0] == path[0] {
        if path[1..] <= q[1..] {
          assert path <= q;
          assert q[1..][|path[1..]|..] == q[|path|..];
        }
        GraftStands(child, path[1..], sub, q[1..], container);
      }
    }
  }
}
