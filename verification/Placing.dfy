/**
 The places of a tree's disclosures as a set, and how a graft changes it. Issuance names
 places by their position in the claims; the wire document has the same positions as long
 as no decoy has been put into an array on the way.
 */
module Placing {
  import opened Prelude
  import opened Json
  import opened Processing
  import opened SdTree
  import opened Walk
  import opened Landing
  import opened Restriction
  import opened Selection
  import opened Grafting

  function PlaceSet(t: Tree, path: Path): set<Path>
    decreases t
  {
    match t
    case Leaf(_) => {}
    case ArrT(cells) => CellSets(cells, 0, path)
    case ObjT(ms, _, slots) => MemberSets(ms, path) + SlotSets(slots, path)
  }

  function MemberSets(ms: Members, path: Path): set<Path>
    decreases ms
  {
    match ms
    case NoMembers => {}
    case Members(name, t, rest) => PlaceSet(t, path + [Key(name)]) + MemberSets(rest, path)
  }

  function CellSets(cells: Cells, base: nat, path: Path): set<Path>
    decreases cells
  {
    match cells
    case NoCells => {}
    case Cells(head, tail) =>
      CellSet(head, path + [Index(base)]) + CellSets(tail, if head.Gap? then base else base + 1, path)
  }

  function CellSet(c: Cell, at: Path): set<Path>
    decreases c, 0
  {
    match c
    case Shown(t) => PlaceSet(t, at)
    case Hidden(_, _, t) => {at} + PlaceSet(t, at)
    case Gap(_) => {}
  }

  function SlotSets(slots: Cells, path: Path): set<Path>
    decreases slots
  {
    match slots
    case NoCells => {}
    case Cells(head, tail) => SlotSet(head, path) + SlotSets(tail, path)
  }

  function SlotSet(c: Cell, path: Path): set<Path>
    decreases c, 1
  {
    match c
    case Hidden(_, d, _) => if d.name.Some? then CellSet(c, path + [Key(d.name.value)]) else {}
    case _ => {}
  }

  // ---- the same places as the map has

  lemma ValuesJoin<K, V>(a: map<K, V>, b: map<K, V>)
    requires a.Keys !! b.Keys
    ensures (a + b).Values == a.Values + b.Values
  {
    forall v | v in a.Values ensures v in (a + b).Values { var k :| k in a && a[k] == v; assert (a + b)[k] == v; }
    forall v | v in b.Values ensures v in (a + b).Values { var k :| k in b && b[k] == v; assert (a + b)[k] == v; }
  }

  lemma {:induction false} PlacesAreSet(tab: Table, t: Tree, path: Path)
    requires Fits(tab, t) && Distinct(t)
    ensures Places(t, path).Values == PlaceSet(t, path)
    decreases t
  {
    match t
    case Leaf(_) =>
    case ArrT(cells) => CellPlacesAreSet(tab, cells, 0, path);
    case ObjT(ms, _, slots) =>
      var taken := PlainMembers(ms).Keys;
      ObjectPlacesDisjoint(tab, ms, slots, taken, path);
      ValuesJoin(MemberPlaces(ms, path), SlotPlaces(slots, path));
      MemberPlacesAreSet(tab, ms, path);
      SlotPlacesAreSet(tab, slots, taken, path);
  }

  lemma {:induction false} MemberPlacesAreSet(tab: Table, ms: Members, path: Path)
    requires FitsMembers(tab, ms) && DistinctMembers(ms)
    ensures MemberPlaces(ms, path).Values == MemberSets(ms, path)
    decreases ms
  {
    match ms
    case NoMembers =>
    case Members(name, t, rest) =>
      PlacesRevealed(tab, t, path + [Key(name)]);
      PlacesRevealedMembers(tab, rest, path);
      RevealedAreDigests(t);
      RevealedMembersAreDigests(rest);
      ValuesJoin(Places(t, path + [Key(name)]), MemberPlaces(rest, path));
      PlacesAreSet(tab, t, path + [Key(name)]);
      MemberPlacesAreSet(tab, rest, path);
  }

  lemma {:induction false} CellPlacesAreSet(tab: Table, cells: Cells, base: nat, path: Path)
    requires FitsCells(tab, cells) && DistinctCells(cells)
    ensures CellPlaces(cells, base, path).Values == CellSets(cells, base, path)
    decreases cells
  {
    match cells
    case NoCells =>
    case Cells(head, tail) =>
      var at, next := path + [Index(base)], if head.Gap? then base else base + 1;
      PlacesRevealedCell(tab, head, at);
      PlacesRevealedCells(tab, tail, next, path);
      RevealedCellIsDigests(head);
      RevealedCellsAreDigests(tail);
      ValuesJoin(CellPlace(head, at), CellPlaces(tail, next, path));
      CellPlaceIsSet(tab, head, at);
      CellPlacesAreSet(tab, tail, next, path);
  }

  lemma {:induction false} CellPlaceIsSet(tab: Table, c: Cell, at: Path)
    requires FitsCell(tab, c) && DistinctCell(c)
    ensures CellPlace(c, at).Values == CellSet(c, at)
    decreases c
  {
    match c
    case Shown(t) => PlacesAreSet(tab, t, at);
    case Hidden(digest, _, t) =>
      PlacesRevealed(tab, t, at);
      RevealedAreDigests(t);
      PlacesAreSet(tab, t, at);
      ValuesJoin(map[digest := at], Places(t, at));
    case Gap(_) =>
  }

  lemma {:induction false} SlotPlacesAreSet(tab: Table, slots: Cells, taken: set<string>, path: Path)
    requires FitsSlots(tab, slots, taken) && DistinctCells(slots)
    ensures SlotPlaces(slots, path).Values == SlotSets(slots, path)
    decreases slots
  {
    match slots
    case NoCells =>
    case Cells(head, tail) =>
      var more := if head.Hidden? then taken + {head.d.name.value} else taken;
      PlacesRevealedSlots(tab, tail, more, path);
      RevealedCellIsDigests(head);
      RevealedCellsAreDigests(tail);
      if head.Hidden? {
        PlacesRevealedCell(tab, head, path + [Key(head.d.name.value)]);
        CellPlaceIsSet(tab, head, path + [Key(head.d.name.value)]);
      }
      ValuesJoin(SlotPlace(head, path), SlotPlaces(tail, path));
      SlotPlacesAreSet(tab, tail, more, path);
  }

  // ---- grafting

  predicate NoGaps(cells: Cells) {
    match cells
    case NoCells => true
    case Cells(head, tail) => !head.Gap? && NoGaps(tail)
  }

  /** No decoy in any array on the way to `q`: positions on the wire are positions in the claims. */
  predicate Aligned(t: Tree, q: Path)
    decreases |q|
  {
    q != [] ==>
      && (t.ArrT? ==> NoGaps(t.cells))
      && (ClearChild(t, q[0]).Some? ==> Aligned(ClearChild(t, q[0]).value, q[1..]))
  }

  lemma {:induction false} SetMemberSets(ms: Members, name: string, sub: Tree, path: Path, more: set<Path>)
    requires MemberNamed(ms, name).Some?
    requires PlaceSet(sub, path + [Key(name)]) == PlaceSet(MemberNamed(ms, name).value, path + [Key(name)]) + more
    ensures MemberSets(SetMember(ms, name, sub), path) == MemberSets(ms, path) + more
  {
    match ms
    case Members(n, _, rest) => if n != name { SetMemberSets(rest, name, sub, path, more); }
  }

  lemma {:induction false} SetCellSets(cells: Cells, i: nat, c: Cell, base: nat, path: Path, more: set<Path>)
    requires NoGaps(cells) && CellAt(cells, i).Some? && !c.Gap?
    requires CellSet(c, path + [Index(base + i)]) == CellSet(CellAt(cells, i).value, path + [Index(base + i)]) + more
    ensures CellSets(SetCell(cells, i, c), base, path) == CellSets(cells, base, path) + more
    ensures NoGaps(SetCell(cells, i, c))
    decreases cells
  {
    match cells
    case Cells(head, tail) => if i > 0 { SetCellSets(tail, i - 1, c, base + 1, path, more); }
  }

  /** A graft adds to the places what the grafted part adds. */
  lemma {:induction false} GraftSets(t: Tree, up: Path, sub: Tree, path: Path, more: set<Path>)
    requires ClearAt(t, up).Some? && Aligned(t, up)
    requires PlaceSet(sub, path + up) == PlaceSet(ClearAt(t, up).value, path + up) + more
    ensures PlaceSet(Graft(t, up, sub), path) == PlaceSet(t, path) + more
    decreases |up|
  {
    if up == [] {
      assert path + up == path;
    } else {
      var child := ClearChild(t, up[0]).value;
      assert path + [up[0]] + up[1..] == path + up;
      GraftSets(child, up[1..], sub, path + [up[0]], more);
      var grown := Graft(child, up[1..], sub);
      match t
      case ArrT(cells) => SetCellSets(cells, up[0].i, Shown(grown), 0, path, more);
      case ObjT(ms, _, _) => SetMemberSets(ms, up[0].name, grown, path, more);
    }
  }

  lemma {:induction false} GraftAligned(t: Tree, up: Path, sub: Tree, q: Path)
    requires ClearAt(t, up).Some? && Aligned(t, q)
    requires up <= q ==> Aligned(sub, q[|up|..])
    ensures Aligned(Graft(t, up, sub), q)
    decreases |up|
  {
    if up == [] {
      assert q[0..] == q;
    } else if q != [] {
      var child := ClearChild(t, up[0]).value;
      var grown := Graft(child, up[1..], sub);
      ClearChildKept(t, up[0], grown, q[0]);
      if t.ArrT? { SetKeepsGapless(t.cells, up[0].i, Shown(grown)); }
      if q[0] == up[0] {
        if up[1..] <= q[1..] {
          assert up <= q;
          assert q[1..][|up[1..]|..] == q[|up|..];
        }
        GraftAligned(child, up[1..], sub, q[1..]);
      }
    }
  }

  lemma {:induction false} SetKeepsGapless(cells: Cells, i: nat, c: Cell)
    requires NoGaps(cells) && !c.Gap?
    ensures NoGaps(SetCell(cells, i, c))
    decreases cells
  {
    match cells
    case NoCells =>
    case Cells(_, tail) => if i > 0 { SetKeepsGapless(tail, i - 1, c); }
  }

  // ---- digests without a disclosure, container by container

  /** How many gaps the container at the place `q` has, in what `t` puts at `path`. */
  function GapsAt(t: Tree, path: Path, q: Path): nat
    decreases t
  {
    match t
    case Leaf(_) => 0
    case ArrT(cells) => CellGaps(cells, 0, path, q)
    case ObjT(ms, _, slots) => MemberGaps(ms, path, q) + SlotGaps(slots, path, q)
  }

  function MemberGaps(ms: Members, path: Path, q: Path): nat
    decreases ms
  {
    match ms
    case NoMembers => 0
    case Members(name, t, rest) => GapsAt(t, path + [Key(name)], q) + MemberGaps(rest, path, q)
  }

  /** `c` lies in the container at `path`, and what it shows, if anything, at `at`. */
  function CellGap(c: Cell, path: Path, at: Path, q: Path): nat
    decreases c, 0
  {
    if c.Gap? then if path == q then 1 else 0 else GapsAt(c.t, at, q)
  }

  function CellGaps(cells: Cells, base: nat, path: Path, q: Path): nat
    decreases cells
  {
    match cells
    case NoCells => 0
    case Cells(head, tail) =>
      CellGap(head, path, path + [Index(base)], q) + CellGaps(tail, if head.Gap? then base else base + 1, path, q)
  }

  function SlotGaps(slots: Cells, path: Path, q: Path): nat
    decreases slots
  {
    match slots
    case NoCells => 0
    case Cells(head, tail) => SlotGap(head, path, q) + SlotGaps(tail, path, q)
  }

  function SlotGap(c: Cell, path: Path, q: Path): nat
    decreases c, 1
  {
    if c.Hidden? && c.d.name.Some? then CellGap(c, path, path + [Key(c.d.name.value)], q)
    else if c.Gap? then CellGap(c, path, path, q)
    else 0
  }

  lemma {:induction false} SetMemberGaps(ms: Members, name: string, sub: Tree, path: Path, q: Path, more: nat)
    requires MemberNamed(ms, name).Some?
    requires var at := path + [Key(name)]; GapsAt(sub, at, q) == GapsAt(MemberNamed(ms, name).value, at, q) + more
    ensures MemberGaps(SetMember(ms, name, sub), path, q) == MemberGaps(ms, path, q) + more
  {
    match ms
    case Members(n, _, rest) => if n != name { SetMemberGaps(rest, name, sub, path, q, more); }
  }

  lemma {:induction false} SetCellGaps(cells: Cells, i: nat, c: Cell, base: nat, path: Path, q: Path, more: nat)
    requires NoGaps(cells) && CellAt(cells, i).Some? && !c.Gap?
    requires var at := path + [Index(base + i)];
             CellGap(c, path, at, q) == CellGap(CellAt(cells, i).value, path, at, q) + more
    ensures CellGaps(SetCell(cells, i, c), base, path, q) == CellGaps(cells, base, path, q) + more
    decreases cells
  {
    match cells
    case Cells(head, tail) => if i > 0 { SetCellGaps(tail, i - 1, c, base + 1, path, q, more); }
  }

  /** A graft adds to the gaps what the grafted part adds. */
  lemma {:induction false} GraftGaps(t: Tree, up: Path, sub: Tree, path: Path, q: Path, more: nat)
    requires ClearAt(t, up).Some? && Aligned(t, up)
    requires GapsAt(sub, path + up, q) == GapsAt(ClearAt(t, up).value, path + up, q) + more
    ensures GapsAt(Graft(t, up, sub), path, q) == GapsAt(t, path, q) + more
    decreases |up|
  {
    if up == [] {
      assert path + up == path;
    } else {
      var child := ClearChild(t, up[0]).value;
      assert path + [up[0]] + up[1..] == path + up;
      GraftGaps(child, up[1..], sub, path + [up[0]], q, more);
      var grown := Graft(child, up[1..], sub);
      match t
      case ArrT(cells) => SetCellGaps(cells, up[0].i, Shown(grown), 0, path, q, more);
      case ObjT(ms, _, _) => SetMemberGaps(ms, up[0].name, grown, path, q, more);
    }
  }
}
