/** Holder-side selection (crates/sdjwt/src/sdjwt.rs `SdJwt::select`). */
module Selection {
  // Kept are the disclosures on the way to, or inside, the wanted claims. The result is
  // again a token that processes, and every wanted value survives unchanged.

  import opened Prelude
  import opened Json
  import opened Processing
  import opened SdTree
  import opened Landing
  import opened Restriction
  import opened Pointer

  /** `at` starts with a wanted path or the other way round. */
  predicate Near(at: Path, wanted: seq<Path>) {
    exists i :: 0 <= i < |wanted| && (wanted[i] <= at || at <= wanted[i])
  }

  function Filter(ds: seq<Disclosure>, paths: seq<Path>, wanted: seq<Path>): seq<Disclosure>
    requires |ds| == |paths|
  {
    if ds == [] then []
    else
      var n := |ds| - 1;
      Filter(ds[..n], paths[..n], wanted) + if Near(paths[n], wanted) then [ds[n]] else []
  }

  /** The disclosures kept for the claims at `pointers`, resolved against the fully disclosed claims. */
  function Select(payload: map<string, Json>, ds: seq<Disclosure>, hash: string -> string, pointers: seq<string>)
    : Result<seq<Disclosure>, ErrorKind>
  {
    var p :- Process(payload, ds, hash);
    var wanted :- ResolveAll(Obj(p.claims), pointers);
    Ok(Filter(ds, p.paths, wanted))
  }

  /** The places the holder asked for. */
  function Wanted(payload: map<string, Json>, ds: seq<Disclosure>, hash: string -> string,
                  pointers: seq<string>): seq<Path>
    requires Select(payload, ds, hash, pointers).Ok?
  {
    ResolveAll(Obj(Process(payload, ds, hash).value.claims), pointers).value
  }

  // ---- the selection is closed

  lemma {:induction false} PlacesBelow(t: Tree, path: Path, d: string)
    requires d in Places(t, path)
    ensures path <= Places(t, path)[d]
    decreases t
  {
    match t
    case ArrT(cells) => CellPlacesBelow(cells, 0, path, d);
    case ObjT(ms, _, slots) =>
      if d in SlotPlaces(slots, path) { SlotPlacesBelow(slots, path, d); } else { MemberPlacesBelow(ms, path, d); }
  }

  lemma {:induction false} MemberPlacesBelow(ms: Members, path: Path, d: string)
    requires d in MemberPlaces(ms, path)
    ensures path <= MemberPlaces(ms, path)[d]
    decreases ms
  {
    match ms
    case Members(name, t, rest) =>
      if d in MemberPlaces(rest, path) {
        MemberPlacesBelow(rest, path, d);
      } else {
        PlacesBelow(t, path + [Key(name)], d);
      }
  }

  lemma {:induction false} CellPlacesBelow(cells: Cells, base: nat, path: Path, d: string)
    requires d in CellPlaces(cells, base, path)
    ensures path <= CellPlaces(cells, base, path)[d]
    decreases cells
  {
    match cells
    case Cells(head, tail) =>
      var next := if head.Gap? then base else base + 1;
      if d in CellPlaces(tail, next, path) { CellPlacesBelow(tail, next, path, d); }
      else { CellPlaceBelow(head, path + [Index(base)], d); }
  }

  lemma {:induction false} SlotPlacesBelow(slots: Cells, path: Path, d: string)
    requires d in SlotPlaces(slots, path)
    ensures path <= SlotPlaces(slots, path)[d]
    decreases slots
  {
    match slots
    case Cells(head, tail) =>
      if d in SlotPlaces(tail, path) { SlotPlacesBelow(tail, path, d); }
      else { CellPlaceBelow(head, path + [Key(head.d.name.value)], d); }
  }

  lemma {:induction false} CellPlaceBelow(c: Cell, at: Path, d: string)
    requires d in CellPlace(c, at)
    ensures at <= CellPlace(c, at)[d]
    decreases c
  {
    match c
    case Shown(t) => PlacesBelow(t, at, d);
    case Hidden(g, _, t) => if d in Places(t, at) { PlacesBelow(t, at, d); }
  }

  /** An ancestor of a kept place is kept. */
  lemma NearUpwards(up: Path, at: Path, wanted: seq<Path>)
    requires up <= at && Near(at, wanted)
    ensures Near(up, wanted)
  {
    var i :| 0 <= i < |wanted| && (wanted[i] <= at || at <= wanted[i]);
    if wanted[i] <= at {
      if |wanted[i]| <= |up| { assert wanted[i] == up[..|wanted[i]|]; } else { assert up == wanted[i][..|up|]; }
    }
    assert wanted[i] <= up || up <= wanted[i];
  }

  /** `keep` are the digests of `all` recorded near a wanted path. */
  predicate KeepsNear(all: map<string, Path>, keep: set<string>, wanted: seq<Path>) {
    forall d :: d in all ==> (d in keep <==> Near(all[d], wanted))
  }

  predicate Agrees(places: map<string, Path>, all: map<string, Path>) {
    forall d :: d in places ==> d in all && places[d] == all[d]
  }

  lemma {:induction false} NearCloses(tab: Table, t: Tree, path: Path, all: map<string, Path>, keep: set<string>,
                                      wanted: seq<Path>)
    requires Fits(tab, t) && Distinct(t) && Agrees(Places(t, path), all) && KeepsNear(all, keep, wanted)
    ensures Closed(t, keep)
    decreases t
  {
    match t
    case Leaf(_) =>
    case ArrT(cells) => NearClosesCells(tab, cells, 0, path, all, keep, wanted);
    case ObjT(ms, _, slots) =>
      var taken := PlainMembers(ms).Keys;
      ObjectPlacesDisjoint(tab, ms, slots, taken, path);
      NearClosesMembers(tab, ms, path, all, keep, wanted);
      NearClosesSlots(tab, slots, taken, path, all, keep, wanted);
  }

  lemma {:induction false} RevealedAreDigests(t: Tree)
    ensures Revealed(t) <= Digests(t)
  {
    match t
    case Leaf(_) =>
    case ArrT(cells) => RevealedCellsAreDigests(cells);
    case ObjT(ms, _, slots) => RevealedMembersAreDigests(ms); RevealedCellsAreDigests(slots);
  }

  lemma {:induction false} RevealedMembersAreDigests(ms: Members)
    ensures RevealedMembers(ms) <= MembersDigests(ms)
  {
    match ms
    case NoMembers =>
    case Members(_, t, rest) => RevealedAreDigests(t); RevealedMembersAreDigests(rest);
  }

  lemma {:induction false} RevealedCellsAreDigests(cells: Cells)
    ensures RevealedCells(cells) <= CellsDigests(cells)
  {
    match cells
    case NoCells =>
    case Cells(head, tail) => RevealedCellIsDigests(head); RevealedCellsAreDigests(tail);
  }

  lemma {:induction false} RevealedCellIsDigests(c: Cell)
    ensures RevealedCell(c) <= CellDigests(c)
  {
    match c
    case Shown(t) => RevealedAreDigests(t);
    case Hidden(_, _, t) => RevealedAreDigests(t);
    case Gap(_) =>
  }

  lemma ObjectPlacesDisjoint(tab: Table, ms: Members, slots: Cells, taken: set<string>, path: Path)
    requires FitsMembers(tab, ms) && FitsSlots(tab, slots, taken) && MembersDigests(ms) !! CellsDigests(slots)
    ensures MemberPlaces(ms, path).Keys !! SlotPlaces(slots, path).Keys
  {
    PlacesRevealedMembers(tab, ms, path);
    PlacesRevealedSlots(tab, slots, taken, path);
    RevealedMembersAreDigests(ms);
    RevealedCellsAreDigests(slots);
  }

  lemma {:induction false} NearClosesMembers(tab: Table, ms: Members, path: Path, all: map<string, Path>,
                                             keep: set<string>, wanted: seq<Path>)
    requires FitsMembers(tab, ms) && DistinctMembers(ms) && Agrees(MemberPlaces(ms, path), all)
               && KeepsNear(all, keep, wanted)
    ensures ClosedMembers(ms, keep)
    decreases ms
  {
    match ms
    case NoMembers =>
    case Members(name, t, rest) =>
      PlacesRevealed(tab, t, path + [Key(name)]);
      PlacesRevealedMembers(tab, rest, path);
      RevealedAreDigests(t);
      RevealedMembersAreDigests(rest);
      NearCloses(tab, t, path + [Key(name)], all, keep, wanted);
      NearClosesMembers(tab, rest, path, all, keep, wanted);
  }

  lemma {:induction false} NearClosesCells(tab: Table, cells: Cells, base: nat, path: Path, all: map<string, Path>,
                                           keep: set<string>, wanted: seq<Path>)
    requires FitsCells(tab, cells) && DistinctCells(cells) && Agrees(CellPlaces(cells, base, path), all)
               && KeepsNear(all, keep, wanted)
    ensures ClosedCells(cells, keep)
    decreases cells
  {
    match cells
    case NoCells =>
    case Cells(head, tail) =>
      var next := if head.Gap? then base else base + 1;
      PlacesRevealedCell(tab, head, path + [Index(base)]);
      PlacesRevealedCells(tab, tail, next, path);
      RevealedCellIsDigests(head);
      RevealedCellsAreDigests(tail);
      NearClosesCell(tab, head, path + [Index(base)], all, keep, wanted);
      NearClosesCells(tab, tail, next, path, all, keep, wanted);
  }

  lemma {:induction false} NearClosesSlots(tab: Table, slots: Cells, taken: set<string>, path: Path,
                                           all: map<string, Path>, keep: set<string>, wanted: seq<Path>)
    requires FitsSlots(tab, slots, taken) && DistinctCells(slots) && Agrees(SlotPlaces(slots, path), all)
               && KeepsNear(all, keep, wanted)
    ensures ClosedCells(slots, keep)
    decreases slots
  {
    match slots
    case NoCells =>
    case Cells(head, tail) =>
      var more := if head.Hidden? then taken + {head.d.name.value} else taken;
      PlacesRevealedSlots(tab, tail, more, path);
      RevealedCellIsDigests(head);
      RevealedCellsAreDigests(tail);
      if head.Hidden? {
        PlacesRevealedCell(tab, head, path + [Key(head.d.name.value)]);
        assert SlotPlace(head, path) == CellPlace(head, path + [Key(head.d.name.value)]);
        NearClosesCell(tab, head, path + [Key(head.d.name.value)], all, keep, wanted);
      }
      NearClosesSlots(tab, tail, more, path, all, keep, wanted);
  }

  lemma {:induction false} NearClosesCell(tab: Table, c: Cell, at: Path, all: map<string, Path>, keep: set<string>,
                                          wanted: seq<Path>)
    requires FitsCell(tab, c) && DistinctCell(c) && Agrees(CellPlace(c, at), all) && KeepsNear(all, keep, wanted)
    ensures ClosedCell(c, keep)
    decreases c
  {
    match c
    case Shown(t) => NearCloses(tab, t, at, all, keep, wanted);
    case Hidden(g, _, t) =>
      PlacesRevealed(tab, t, at);
      RevealedAreDigests(t);
      NearCloses(tab, t, at, all, keep, wanted);
      assert CellPlace(c, at)[g] == at;
      forall d | d in Revealed(t) && d in keep ensures g in keep {
        PlacesBelow(t, at, d);
        assert CellPlace(c, at)[d] == Places(t, at)[d];
        NearUpwards(at, all[d], wanted);
      }
    case Gap(_) =>
  }

  // ---- finding a claim in the tree

  function MemberNamed(ms: Members, name: string): Option<Tree> {
    match ms
    case NoMembers => None
    case Members(n, t, rest) => if n == name then Some(t) else MemberNamed(rest, name)
  }

  function SlotNamed(slots: Cells, name: string): Option<Cell> {
    match slots
    case NoCells => None
    case Cells(head, tail) =>
      if head.Hidden? && head.d.name == Some(name) then Some(head) else SlotNamed(tail, name)
  }

  /** The element at index `k` of the disclosed array. */
  function VisibleAt(cells: Cells, k: nat): Option<Cell> {
    match cells
    case NoCells => None
    case Cells(head, tail) =>
      if head.Gap? then VisibleAt(tail, k) else if k == 0 then Some(head) else VisibleAt(tail, k - 1)
  }

  predicate Kept(c: Cell, keep: set<string>) {
    c.Shown? || (c.Hidden? && c.digest in keep)
  }

  /** How many of the first `k` disclosed elements stay. */
  function KeptBefore(cells: Cells, keep: set<string>, k: nat): nat
    decreases cells
  {
    match cells
    case NoCells => 0
    case Cells(head, tail) =>
      if head.Gap? then KeptBefore(tail, keep, k)
      else if k == 0 then 0
      else (if Kept(head, keep) then 1 else 0) + KeptBefore(tail, keep, k - 1)
  }

  function Child(t: Tree, s: Segment): Option<Cell> {
    match (t, s)
    case (ArrT(cells), Index(i)) => VisibleAt(cells, i)
    case (ObjT(ms, _, slots), Key(name)) =>
      if MemberNamed(ms, name).Some? then Some(Shown(MemberNamed(ms, name).value)) else SlotNamed(slots, name)
    case _ => None
  }

  /** Where the claim at `w` sits once the disclosures outside `keep` are withheld: array indices close up. */
  function Shifted(t: Tree, keep: set<string>, w: Path): Path
    decreases |w|
  {
    if w == [] || Child(t, w[0]).None? || Child(t, w[0]).value.Gap? then w
    else
      var s := if t.ArrT? then Index(KeptBefore(t.cells, keep, w[0].i)) else w[0];
      [s] + Shifted(Child(t, w[0]).value.t, keep, w[1..])
  }

  /** Every disclosure on the way to `w`, and inside the value there, is in `keep`. */
  predicate OnWay(t: Tree, keep: set<string>, w: Path)
    decreases |w|
  {
    if w == [] then Revealed(t) <= keep
    else
      var c := Child(t, w[0]);
      c.Some? && Kept(c.value, keep) && OnWay(c.value.t, keep, w[1..])
  }

  lemma {:induction false} VisibleFound(cells: Cells, k: nat)
    ensures VisibleAt(cells, k).Some? <==> k < |PlainCells(cells)|
    ensures VisibleAt(cells, k).Some? ==>
              && !VisibleAt(cells, k).value.Gap?
              && PlainCells(cells)[k] == Plain(VisibleAt(cells, k).value.t)
    decreases cells
  {
    match cells
    case NoCells =>
    case Cells(head, tail) =>
      if head.Gap? { VisibleFound(tail, k); } else if k > 0 { VisibleFound(tail, k - 1); }
  }

  lemma {:induction false} VisibleRestricted(cells: Cells, keep: set<string>, k: nat)
    requires VisibleAt(cells, k).Some? && Kept(VisibleAt(cells, k).value, keep)
    ensures VisibleAt(RestrictCells(cells, keep), KeptBefore(cells, keep, k)) ==
            Some(RestrictCell(VisibleAt(cells, k).value, keep))
    decreases cells
  {
    match cells
    case Cells(head, tail) =>
      if head.Gap? { VisibleRestricted(tail, keep, k); } else if k > 0 { VisibleRestricted(tail, keep, k - 1); }
  }

  /** The index shift keeps the order of the elements that stay. */
  lemma {:induction false} ShiftKeepsOrder(cells: Cells, keep: set<string>, j: nat, k: nat)
    requires j < k && VisibleAt(cells, j).Some? && Kept(VisibleAt(cells, j).value, keep)
    ensures KeptBefore(cells, keep, j) < KeptBefore(cells, keep, k)
    decreases cells
  {
    match cells
    case Cells(head, tail) =>
      if head.Gap? { ShiftKeepsOrder(tail, keep, j, k); } else if j > 0 { ShiftKeepsOrder(tail, keep, j - 1, k - 1); }
  }

  lemma {:induction false} MemberFound(ms: Members, name: string)
    requires Unique(ms)
    ensures MemberNamed(ms, name).Some? <==> name in PlainMembers(ms)
    ensures MemberNamed(ms, name).Some? ==> PlainMembers(ms)[name] == Plain(MemberNamed(ms, name).value)
  {
    match ms
    case NoMembers =>
    case Members(n, _, rest) => MemberFound(rest, name);
  }

  lemma {:induction false} MemberRestricted(ms: Members, keep: set<string>, name: string)
    ensures MemberNamed(RestrictMembers(ms, keep), name) ==
            match MemberNamed(ms, name) case None => None case Some(t) => Some(Restrict(t, keep))
  {
    match ms
    case NoMembers =>
    case Members(n, _, rest) => MemberRestricted(rest, keep, name);
  }

  lemma {:induction false} SlotFound(tab: Table, slots: Cells, taken: set<string>, name: string)
    requires FitsSlots(tab, slots, taken)
    ensures SlotNamed(slots, name).Some? <==> name in PlainSlots(slots)
    ensures SlotNamed(slots, name).Some? ==>
              && SlotNamed(slots, name).value.Hidden?
              && PlainSlots(slots)[name] == Plain(SlotNamed(slots, name).value.t)
    decreases slots
  {
    match slots
    case NoCells =>
    case Cells(head, tail) =>
      var more := if head.Hidden? then taken + {head.d.name.value} else taken;
      SlotFound(tab, tail, more, name);
      SlotNamesFresh(tab, tail, more);
  }

  lemma {:induction false} SlotRestricted(slots: Cells, keep: set<string>, name: string)
    requires SlotNamed(slots, name).Some? && Kept(SlotNamed(slots, name).value, keep)
    ensures SlotNamed(RestrictCells(slots, keep), name) == Some(RestrictCell(SlotNamed(slots, name).value, keep))
  {
    match slots
    case Cells(head, tail) =>
      if !(head.Hidden? && head.d.name == Some(name)) { SlotRestricted(tail, keep, name); }
  }

  lemma ChildFound(tab: Table, t: Tree, s: Segment, rel: Path)
    requires Fits(tab, t)
    ensures Lookup(Plain(t), [s] + rel) ==
            match Child(t, s) case None => None case Some(c) => if c.Gap? then None else Lookup(Plain(c.t), rel)
  {
    LookupStep(Plain(t), s, rel);
    match (t, s)
    case (ArrT(cells), Index(i)) => VisibleFound(cells, i);
    case (ObjT(ms, _, slots), Key(name)) =>
      NamesUnique(ms);
      MemberFound(ms, name);
      SlotFound(tab, slots, PlainMembers(ms).Keys, name);
      SlotNamesFresh(tab, slots, PlainMembers(ms).Keys);
    case _ =>
  }

  lemma ChildRestricted(t: Tree, keep: set<string>, s: Segment)
    requires Child(t, s).Some? && Kept(Child(t, s).value, keep)
    ensures var s2 := if t.ArrT? then Index(KeptBefore(t.cells, keep, s.i)) else s;
            Child(Restrict(t, keep), s2) == Some(RestrictCell(Child(t, s).value, keep))
  {
    match (t, s)
    case (ArrT(cells), Index(i)) => VisibleRestricted(cells, keep, i);
    case (ObjT(ms, _, slots), Key(name)) =>
      MemberRestricted(ms, keep, name);
      if MemberNamed(ms, name).None? { SlotRestricted(slots, keep, name); }
  }

  lemma {:induction false} ChildFits(tab: Table, t: Tree, s: Segment)
    requires Fits(tab, t) && Child(t, s).Some?
    ensures FitsCell(tab, Child(t, s).value)
  {
    match (t, s)
    case (ArrT(cells), Index(i)) => VisibleFits(tab, cells, i);
    case (ObjT(ms, _, slots), Key(name)) =>
      if MemberNamed(ms, name).Some? { MemberFits(tab, ms, name); }
      else { SlotFits(tab, slots, PlainMembers(ms).Keys, name); }
  }

  lemma {:induction false} VisibleFits(tab: Table, cells: Cells, k: nat)
    requires FitsCells(tab, cells) && VisibleAt(cells, k).Some?
    ensures FitsCell(tab, VisibleAt(cells, k).value)
    decreases cells
  {
    match cells
    case Cells(head, tail) =>
      if head.Gap? { VisibleFits(tab, tail, k); } else if k > 0 { VisibleFits(tab, tail, k - 1); }
  }

  lemma {:induction false} MemberFits(tab: Table, ms: Members, name: string)
    requires FitsMembers(tab, ms) && MemberNamed(ms, name).Some?
    ensures Fits(tab, MemberNamed(ms, name).value)
  {
    match ms
    case Members(n, _, rest) => if n != name { MemberFits(tab, rest, name); }
  }

  lemma {:induction false} SlotFits(tab: Table, slots: Cells, taken: set<string>, name: string)
    requires FitsSlots(tab, slots, taken) && SlotNamed(slots, name).Some?
    ensures FitsCell(tab, SlotNamed(slots, name).value)
    decreases slots
  {
    match slots
    case Cells(head, tail) =>
      if !(head.Hidden? && head.d.name == Some(name)) {
        SlotFits(tab, tail, if head.Hidden? then taken + {head.d.name.value} else taken, name);
      }
  }

  /** What is on the way to `w` decides the value found there. */
  lemma {:induction false} ShiftedLookup(tab: Table, small: Table, t: Tree, keep: set<string>, w: Path)
    requires Fits(tab, t) && SubTable(small, tab, keep) && OnWay(t, keep, w)
    ensures Lookup(Plain(Restrict(t, keep)), Shifted(t, keep, w)) == Lookup(Plain(t), w)
    decreases |w|
  {
    if w == [] {
      RestrictNothing(t, keep);
    } else {
      var c := Child(t, w[0]).value;
      var s2 := if t.ArrT? then Index(KeptBefore(t.cells, keep, w[0].i)) else w[0];
      assert w == [w[0]] + w[1..];
      ChildFound(tab, t, w[0], w[1..]);
      ChildFits(tab, t, w[0]);
      ShiftedLookup(tab, small, c.t, keep, w[1..]);
      RestrictFits(tab, small, t, keep);
      ChildRestricted(t, keep, w[0]);
      ChildFound(small, Restrict(t, keep), s2, Shifted(c.t, keep, w[1..]));
    }
  }

  // ---- wanted claims have everything on the way kept

  /** The child at a segment: its digests are distinct and its places are those of the whole. */
  predicate Inherits(c: Cell, at: Path, all: map<string, Path>) {
    DistinctCell(c) && Agrees(CellPlace(c, at), all)
  }

  lemma {:induction false} VisibleInherits(tab: Table, cells: Cells, base: nat, k: nat, path: Path,
                                           all: map<string, Path>)
    requires FitsCells(tab, cells) && DistinctCells(cells) && Agrees(CellPlaces(cells, base, path), all)
    requires VisibleAt(cells, k).Some?
    ensures Inherits(VisibleAt(cells, k).value, path + [Index(base + k)], all)
    decreases cells
  {
    match cells
    case Cells(head, tail) =>
      var next := if head.Gap? then base else base + 1;
      PlacesRevealedCell(tab, head, path + [Index(base)]);
      PlacesRevealedCells(tab, tail, next, path);
      RevealedCellIsDigests(head);
      RevealedCellsAreDigests(tail);
      if head.Gap? { VisibleInherits(tab, tail, next, k, path, all); }
      else if k > 0 { VisibleInherits(tab, tail, next, k - 1, path, all); }
  }

  lemma {:induction false} MemberInherits(tab: Table, ms: Members, name: string, path: Path, all: map<string, Path>)
    requires FitsMembers(tab, ms) && DistinctMembers(ms) && Agrees(MemberPlaces(ms, path), all)
    requires MemberNamed(ms, name).Some?
    ensures Inherits(Shown(MemberNamed(ms, name).value), path + [Key(name)], all)
    decreases ms
  {
    match ms
    case Members(n, t, rest) =>
      PlacesRevealed(tab, t, path + [Key(n)]);
      PlacesRevealedMembers(tab, rest, path);
      RevealedAreDigests(t);
      RevealedMembersAreDigests(rest);
      if n != name { MemberInherits(tab, rest, name, path, all); }
  }

  lemma {:induction false} SlotInherits(tab: Table, slots: Cells, taken: set<string>, name: string, path: Path,
                                        all: map<string, Path>)
    requires FitsSlots(tab, slots, taken) && DistinctCells(slots) && Agrees(SlotPlaces(slots, path), all)
    requires SlotNamed(slots, name).Some?
    ensures Inherits(SlotNamed(slots, name).value, path + [Key(name)], all)
    decreases slots
  {
    match slots
    case Cells(head, tail) =>
      var more := if head.Hidden? then taken + {head.d.name.value} else taken;
      PlacesRevealedSlots(tab, tail, more, path);
      RevealedCellIsDigests(head);
      RevealedCellsAreDigests(tail);
      if head.Hidden? && head.d.name == Some(name) {
        PlacesRevealedCell(tab, head, path + [Key(name)]);
        assert SlotPlace(head, path) == CellPlace(head, path + [Key(name)]);
      } else {
        SlotInherits(tab, tail, more, name, path, all);
      }
  }

  lemma ChildInherits(tab: Table, t: Tree, s: Segment, path: Path, all: map<string, Path>)
    requires Fits(tab, t) && Distinct(t) && Agrees(Places(t, path), all) && Child(t, s).Some?
    ensures Inherits(Child(t, s).value, path + [s], all)
  {
    match (t, s)
    case (ArrT(cells), Index(i)) => VisibleInherits(tab, cells, 0, i, path, all);
    case (ObjT(ms, _, slots), Key(name)) =>
      ObjectPlacesDisjoint(tab, ms, slots, PlainMembers(ms).Keys, path);
      if MemberNamed(ms, name).Some? { MemberInherits(tab, ms, name, path, all); }
      else { SlotInherits(tab, slots, PlainMembers(ms).Keys, name, path, all); }
  }

  lemma {:induction false} NearOnWay(tab: Table, t: Tree, path: Path, all: map<string, Path>, keep: set<string>,
                                     wanted: seq<Path>, i: nat, w: Path)
    requires Fits(tab, t) && Distinct(t) && Agrees(Places(t, path), all) && KeepsNear(all, keep, wanted)
    requires i < |wanted| && wanted[i] == path + w && Lookup(Plain(t), w).Some?
    ensures OnWay(t, keep, w)
    decreases |w|, 0
  {
    if w == [] {
      PlacesRevealed(tab, t, path);
      forall d | d in Revealed(t) ensures d in keep {
        PlacesBelow(t, path, d);
        assert wanted[i] <= all[d];
      }
    } else {
      assert w == [w[0]] + w[1..];
      ChildFound(tab, t, w[0], w[1..]);
      ChildFits(tab, t, w[0]);
      ChildInherits(tab, t, w[0], path, all);
      PathJoin(path, w[0], w[1..]);
      CellOnWay(tab, Child(t, w[0]).value, path + [w[0]], all, keep, wanted, i, w[1..]);
    }
  }

  lemma {:induction false} CellOnWay(tab: Table, c: Cell, at: Path, all: map<string, Path>, keep: set<string>,
                                     wanted: seq<Path>, i: nat, w: Path)
    requires !c.Gap? && FitsCell(tab, c) && Inherits(c, at, all) && KeepsNear(all, keep, wanted)
    requires i < |wanted| && wanted[i] == at + w && Lookup(Plain(c.t), w).Some?
    ensures Kept(c, keep) && OnWay(c.t, keep, w)
    decreases |w|, 1
  {
    match c
    case Shown(t) => NearOnWay(tab, t, at, all, keep, wanted, i, w);
    case Hidden(g, _, t) =>
      PlacesRevealed(tab, t, at);
      RevealedAreDigests(t);
      assert CellPlace(c, at)[g] == at;
      assert all[g] <= wanted[i];
      assert Agrees(Places(t, at), all) by {
        assert forall d :: d in Places(t, at) ==> CellPlace(c, at)[d] == Places(t, at)[d];
      }
      NearOnWay(tab, t, at, all, keep, wanted, i, w);
  }

  // ---- the theorem

  lemma {:induction false} FilterTable(hash: string -> string, ds: seq<Disclosure>, paths: seq<Path>,
                                       wanted: seq<Path>, keep: set<string>)
    requires |ds| == |paths| && Tabulate(hash, ds).Ok?
    requires forall i :: 0 <= i < |ds| ==> (hash(ds[i].encoded) in keep <==> Near(paths[i], wanted))
    ensures Tabulate(hash, Filter(ds, paths, wanted)).Ok?
    ensures SubTable(Tabulate(hash, Filter(ds, paths, wanted)).value, Tabulate(hash, ds).value, keep)
  {
    if ds != [] {
      var n := |ds| - 1;
      assert forall i :: 0 <= i < n ==> ds[..n][i] == ds[i] && paths[..n][i] == paths[i];
      FilterTable(hash, ds[..n], paths[..n], wanted, keep);
      var f := Filter(ds[..n], paths[..n], wanted);
      if Near(paths[n], wanted) {
        assert (f + [ds[n]])[..|f|] == f;
      } else {
        assert Filter(ds, paths, wanted) == f;
      }
    }
  }

  /** The digests `Select` keeps. */
  function Kernel(t: Tree, wanted: seq<Path>): set<string> {
    set d | d in Places(t, []) && Near(Places(t, [])[d], wanted)
  }

  /** The selected token can be read: the same payload, with the other disclosures withheld. */
  lemma SelectionReads(payload: map<string, Json>, ds: seq<Disclosure>, hash: string -> string, pointers: seq<string>,
                       t: Tree)
    requires Select(payload, ds, hash, pointers).Ok? && Readable(hash, payload, ds, t)
    ensures var keep, kept := Kernel(t, Wanted(payload, ds, hash, pointers)),
              Select(payload, ds, hash, pointers).value;
            && Readable(hash, payload, kept, Restrict(t, keep))
            && SubTable(Tabulate(hash, kept).value, Tabulate(hash, ds).value, keep)
  {
    var p := Process(payload, ds, hash).value;
    var wanted := Wanted(payload, ds, hash, pointers);
    var tab, keep, all := Tabulate(hash, ds).value, Kernel(t, wanted), Places(t, []);
    ProcessReads(hash, payload, ds, t);
    FilterTable(hash, ds, p.paths, wanted, keep);
    var small := Tabulate(hash, Filter(ds, p.paths, wanted)).value;
    NearCloses(tab, t, [], all, keep, wanted);
    RestrictFits(tab, small, t, keep);
    RestrictEncode(t, keep);
    RestrictDistinct(t, keep);
    RestrictRevealed(t, keep);
    PlacesRevealed(tab, t, []);
    PlacesRevealed(small, Restrict(t, keep), []);
  }

  lemma LookupWithout(fields: map<string, Json>, name: string, w: Path)
    requires w != []
    ensures Lookup(Obj(fields - {name}), w) == if w[0] == Key(name) then None else Lookup(Obj(fields), w)
  {
  }

  lemma WantedSurvives(tab: Table, small: Table, t: Tree, wanted: seq<Path>, i: nat)
    requires t.ObjT? && Fits(tab, t) && Distinct(t) && SubTable(small, tab, Kernel(t, wanted))
    requires i < |wanted| && wanted[i] != [] && Lookup(Obj(Plain(t).fields - {"_sd_alg"}), wanted[i]).Some?
    ensures var keep := Kernel(t, wanted);
            Lookup(Obj(Plain(Restrict(t, keep)).fields - {"_sd_alg"}), Shifted(t, keep, wanted[i])) ==
            Lookup(Obj(Plain(t).fields - {"_sd_alg"}), wanted[i])
  {
    var keep, w := Kernel(t, wanted), wanted[i];
    LookupWithout(Plain(t).fields, "_sd_alg", w);
    assert [] + w == w;
    NearOnWay(tab, t, [], Places(t, []), keep, wanted, i, w);
    ShiftedLookup(tab, small, t, keep, w);
    LookupWithout(Plain(Restrict(t, keep)).fields, "_sd_alg", Shifted(t, keep, w));
  }

  /**
   Selection is closed and faithful: the kept disclosures process with the same
   payload, and each wanted claim has the value it had with everything
   disclosed, at its own path with array indices closed up.
   */
  lemma SelectFaithful(payload: map<string, Json>, ds: seq<Disclosure>, hash: string -> string, pointers: seq<string>,
                       t: Tree)
    requires Select(payload, ds, hash, pointers).Ok? && Readable(hash, payload, ds, t)
    ensures var full := Process(payload, ds, hash).value.claims;
            var sel := Process(payload, Select(payload, ds, hash, pointers).value, hash);
            var wanted := Wanted(payload, ds, hash, pointers);
            && sel.Ok?
            && forall i :: 0 <= i < |wanted| ==>
                             && Lookup(Obj(full), wanted[i]).Some?
                             && Lookup(Obj(sel.value.claims), Shifted(t, Kernel(t, wanted), wanted[i])) ==
                                Lookup(Obj(full), wanted[i])
  {
    var wanted := Wanted(payload, ds, hash, pointers);
    var kept := Select(payload, ds, hash, pointers).value;
    SelectionReads(payload, ds, hash, pointers, t);
    ProcessReads(hash, payload, ds, t);
    ProcessReads(hash, payload, kept, Restrict(t, Kernel(t, wanted)));
    forall i | 0 <= i < |wanted|
      ensures Lookup(Obj(Process(payload, ds, hash).value.claims), wanted[i]).Some?
      ensures Lookup(Obj(Process(payload, kept, hash).value.claims), Shifted(t, Kernel(t, wanted), wanted[i])) ==
              Lookup(Obj(Process(payload, ds, hash).value.claims), wanted[i])
    {
      assert Resolve(Obj(Process(payload, ds, hash).value.claims), pointers[i]) == Ok(wanted[i]);
      WantedSurvives(Tabulate(hash, ds).value, Tabulate(hash, kept).value, t, wanted, i);
    }
  }

  /** A token that processes still processes after any selection that names existing claims. */
  lemma SelectCloses(payload: map<string, Json>, ds: seq<Disclosure>, hash: string -> string, pointers: seq<string>)
    requires Process(payload, ds, hash).Ok?
    requires forall i :: 0 <= i < |pointers| ==>
               Resolve(Obj(Process(payload, ds, hash).value.claims), pointers[i]).Ok?
    ensures Select(payload, ds, hash, pointers).Ok?
    ensures Process(payload, Select(payload, ds, hash, pointers).value, hash).Ok?
  {
    var t := ReadingOf(hash, payload, ds);
    SelectFaithful(payload, ds, hash, pointers, t);
  }
}
