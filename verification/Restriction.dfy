/**
 Withholding disclosures: the tree a holder presents after dropping all but the
 digests in `keep`. Dropping a disclosure turns its cell into a gap, which leaves
 the wire form as it is and takes what lies beneath out of the reading. What is
 kept must be closed: whatever lies on the way to a kept digest is kept too.
 */
module Restriction {
  import opened Json
  import opened Processing
  import opened SdTree

  function Restrict(t: Tree, keep: set<string>): Tree
    decreases t
  {
    match t
    case Leaf(_) => t
    case ArrT(cells) => ArrT(RestrictCells(cells, keep))
    case ObjT(ms, hasSd, slots) => ObjT(RestrictMembers(ms, keep), hasSd, RestrictCells(slots, keep))
  }

  function RestrictMembers(ms: Members, keep: set<string>): Members
    decreases ms
  {
    match ms
    case NoMembers => NoMembers
    case Members(name, t, rest) => Members(name, Restrict(t, keep), RestrictMembers(rest, keep))
  }

  function RestrictCells(cells: Cells, keep: set<string>): Cells
    decreases cells
  {
    match cells
    case NoCells => NoCells
    case Cells(head, tail) => Cells(RestrictCell(head, keep), RestrictCells(tail, keep))
  }

  function RestrictCell(c: Cell, keep: set<string>): Cell
    decreases c
  {
    match c
    case Shown(t) => Shown(Restrict(t, keep))
    case Hidden(digest, d, t) => if digest in keep then Hidden(digest, d, Restrict(t, keep)) else Gap(digest)
    case Gap(_) => c
  }

  // ---- the wire form does not change, so the token's signature stays valid

  lemma {:induction false} RestrictEncode(t: Tree, keep: set<string>)
    ensures Encode(Restrict(t, keep)) == Encode(t)
    decreases t
  {
    match t
    case Leaf(_) =>
    case ArrT(cells) => RestrictEncodeCells(cells, keep);
    case ObjT(ms, _, slots) => RestrictEncodeMembers(ms, keep); RestrictDigestList(slots, keep);
  }

  lemma {:induction false} RestrictEncodeMembers(ms: Members, keep: set<string>)
    ensures EncodeMembers(RestrictMembers(ms, keep)) == EncodeMembers(ms)
    decreases ms
  {
    match ms
    case NoMembers =>
    case Members(_, t, rest) => RestrictEncode(t, keep); RestrictEncodeMembers(rest, keep);
  }

  lemma {:induction false} RestrictEncodeCells(cells: Cells, keep: set<string>)
    ensures EncodeCells(RestrictCells(cells, keep)) == EncodeCells(cells)
    decreases cells
  {
    match cells
    case NoCells =>
    case Cells(head, tail) => RestrictEncodeCell(head, keep); RestrictEncodeCells(tail, keep);
  }

  lemma {:induction false} RestrictEncodeCell(c: Cell, keep: set<string>)
    ensures EncodeCell(RestrictCell(c, keep)) == EncodeCell(c)
    decreases c
  {
    match c
    case Shown(t) => RestrictEncode(t, keep);
    case Hidden(_, _, t) => RestrictEncode(t, keep);
    case Gap(_) =>
  }

  lemma {:induction false} RestrictDigestList(slots: Cells, keep: set<string>)
    ensures DigestList(RestrictCells(slots, keep)) == DigestList(slots)
  {
    match slots
    case NoCells =>
    case Cells(_, tail) => RestrictDigestList(tail, keep);
  }

  // ---- no digest is added

  lemma {:induction false} RestrictDistinct(t: Tree, keep: set<string>)
    ensures Digests(Restrict(t, keep)) <= Digests(t)
    ensures Distinct(t) ==> Distinct(Restrict(t, keep))
    decreases t
  {
    match t
    case Leaf(_) =>
    case ArrT(cells) => RestrictDistinctCells(cells, keep);
    case ObjT(ms, _, slots) => RestrictDistinctMembers(ms, keep); RestrictDistinctCells(slots, keep);
  }

  lemma {:induction false} RestrictDistinctMembers(ms: Members, keep: set<string>)
    ensures MembersDigests(RestrictMembers(ms, keep)) <= MembersDigests(ms)
    ensures DistinctMembers(ms) ==> DistinctMembers(RestrictMembers(ms, keep))
    decreases ms
  {
    match ms
    case NoMembers =>
    case Members(_, t, rest) => RestrictDistinct(t, keep); RestrictDistinctMembers(rest, keep);
  }

  lemma {:induction false} RestrictDistinctCells(cells: Cells, keep: set<string>)
    ensures CellsDigests(RestrictCells(cells, keep)) <= CellsDigests(cells)
    ensures DistinctCells(cells) ==> DistinctCells(RestrictCells(cells, keep))
    decreases cells
  {
    match cells
    case NoCells =>
    case Cells(head, tail) => RestrictDistinctCell(head, keep); RestrictDistinctCells(tail, keep);
  }

  lemma {:induction false} RestrictDistinctCell(c: Cell, keep: set<string>)
    ensures CellDigests(RestrictCell(c, keep)) <= CellDigests(c)
    ensures DistinctCell(c) ==> DistinctCell(RestrictCell(c, keep))
    decreases c
  {
    match c
    case Shown(t) => RestrictDistinct(t, keep);
    case Hidden(_, _, t) => RestrictDistinct(t, keep);
    case Gap(_) =>
  }

  // ---- the restricted tree fits the restricted table

  predicate SubTable(small: Table, tab: Table, keep: set<string>) {
    small == map d | d in tab && d in keep :: tab[d]
  }

  lemma {:induction false} RestrictNames(ms: Members, keep: set<string>)
    ensures Names(RestrictMembers(ms, keep)) == Names(ms)
    ensures PlainMembers(RestrictMembers(ms, keep)).Keys == PlainMembers(ms).Keys
  {
    match ms
    case NoMembers =>
    case Members(_, _, rest) => RestrictNames(rest, keep);
  }

  lemma {:induction false} RestrictFits(tab: Table, small: Table, t: Tree, keep: set<string>)
    requires Fits(tab, t) && SubTable(small, tab, keep)
    ensures Fits(small, Restrict(t, keep))
    decreases t
  {
    match t
    case Leaf(_) =>
    case ArrT(cells) => RestrictFitsCells(tab, small, cells, keep);
    case ObjT(ms, _, slots) =>
      RestrictFitsMembers(tab, small, ms, keep);
      RestrictNames(ms, keep);
      RestrictFitsSlots(tab, small, slots, PlainMembers(ms).Keys, PlainMembers(ms).Keys, keep);
  }

  lemma {:induction false} RestrictFitsMembers(tab: Table, small: Table, ms: Members, keep: set<string>)
    requires FitsMembers(tab, ms) && SubTable(small, tab, keep)
    ensures FitsMembers(small, RestrictMembers(ms, keep))
    decreases ms
  {
    match ms
    case NoMembers =>
    case Members(_, t, rest) => RestrictFits(tab, small, t, keep); RestrictFitsMembers(tab, small, rest, keep);
  }

  lemma {:induction false} RestrictFitsCells(tab: Table, small: Table, cells: Cells, keep: set<string>)
    requires FitsCells(tab, cells) && SubTable(small, tab, keep)
    ensures FitsCells(small, RestrictCells(cells, keep))
    decreases cells
  {
    match cells
    case NoCells =>
    case Cells(head, tail) => RestrictFitsCell(tab, small, head, keep); RestrictFitsCells(tab, small, tail, keep);
  }

  lemma {:induction false} RestrictFitsCell(tab: Table, small: Table, c: Cell, keep: set<string>)
    requires FitsCell(tab, c) && SubTable(small, tab, keep)
    ensures FitsCell(small, RestrictCell(c, keep))
    decreases c
  {
    match c
    case Shown(t) => RestrictFits(tab, small, t, keep);
    case Hidden(_, _, t) => RestrictFits(tab, small, t, keep); RestrictEncode(t, keep);
    case Gap(_) =>
  }

  lemma {:induction false} RestrictFitsSlots(tab: Table, small: Table, slots: Cells, taken: set<string>,
                                             less: set<string>, keep: set<string>)
    requires FitsSlots(tab, slots, taken) && less <= taken && SubTable(small, tab, keep)
    ensures FitsSlots(small, RestrictCells(slots, keep), less)
    decreases slots
  {
    match slots
    case NoCells =>
    case Cells(head, tail) =>
      RestrictFitsCell(tab, small, head, keep);
      var more := if head.Hidden? then taken + {head.d.name.value} else taken;
      var some := if head.Hidden? && head.digest in keep then less + {head.d.name.value} else less;
      RestrictFitsSlots(tab, small, tail, more, some, keep);
  }

  // ---- which disclosures are still reached

  /** The digests whose disclosure is spliced in. */
  function Revealed(t: Tree): set<string> {
    match t
    case Leaf(_) => {}
    case ArrT(cells) => RevealedCells(cells)
    case ObjT(ms, _, slots) => RevealedMembers(ms) + RevealedCells(slots)
  }

  function RevealedMembers(ms: Members): set<string> {
    match ms
    case NoMembers => {}
    case Members(_, t, rest) => Revealed(t) + RevealedMembers(rest)
  }

  function RevealedCells(cells: Cells): set<string> {
    match cells
    case NoCells => {}
    case Cells(head, tail) => RevealedCell(head) + RevealedCells(tail)
  }

  function RevealedCell(c: Cell): set<string> {
    match c
    case Shown(t) => Revealed(t)
    case Hidden(digest, _, t) => {digest} + Revealed(t)
    case Gap(_) => {}
  }

  lemma {:induction false} PlacesRevealed(tab: Table, t: Tree, path: Path)
    requires Fits(tab, t)
    ensures Places(t, path).Keys == Revealed(t)
    decreases t
  {
    match t
    case Leaf(_) =>
    case ArrT(cells) => PlacesRevealedCells(tab, cells, 0, path);
    case ObjT(ms, _, slots) =>
      PlacesRevealedMembers(tab, ms, path);
      PlacesRevealedSlots(tab, slots, PlainMembers(ms).Keys, path);
  }

  lemma {:induction false} PlacesRevealedMembers(tab: Table, ms: Members, path: Path)
    requires FitsMembers(tab, ms)
    ensures MemberPlaces(ms, path).Keys == RevealedMembers(ms)
    decreases ms
  {
    match ms
    case NoMembers =>
    case Members(name, t, rest) => PlacesRevealed(tab, t, path + [Key(name)]); PlacesRevealedMembers(tab, rest, path);
  }

  lemma {:induction false} PlacesRevealedCells(tab: Table, cells: Cells, base: nat, path: Path)
    requires FitsCells(tab, cells)
    ensures CellPlaces(cells, base, path).Keys == RevealedCells(cells)
    decreases cells
  {
    match cells
    case NoCells =>
    case Cells(head, tail) =>
      PlacesRevealedCell(tab, head, path + [Index(base)]);
      PlacesRevealedCells(tab, tail, if head.Gap? then base else base + 1, path);
  }

  lemma {:induction false} PlacesRevealedCell(tab: Table, c: Cell, at: Path)
    requires FitsCell(tab, c)
    ensures CellPlace(c, at).Keys == RevealedCell(c)
    decreases c
  {
    match c
    case Shown(t) => PlacesRevealed(tab, t, at);
    case Hidden(_, _, t) => PlacesRevealed(tab, t, at);
    case Gap(_) =>
  }

  lemma {:induction false} PlacesRevealedSlots(tab: Table, slots: Cells, taken: set<string>, path: Path)
    requires FitsSlots(tab, slots, taken)
    ensures SlotPlaces(slots, path).Keys == RevealedCells(slots)
    decreases slots
  {
    match slots
    case NoCells =>
    case Cells(head, tail) =>
      if head.Hidden? { PlacesRevealedCell(tab, head, path + [Key(head.d.name.value)]); }
      PlacesRevealedSlots(tab, tail, if head.Hidden? then taken + {head.d.name.value} else taken, path);
  }

  /** Nothing is kept inside a disclosure that is itself dropped. */
  predicate Closed(t: Tree, keep: set<string>)
    decreases t
  {
    match t
    case Leaf(_) => true
    case ArrT(cells) => ClosedCells(cells, keep)
    case ObjT(ms, _, slots) => ClosedMembers(ms, keep) && ClosedCells(slots, keep)
  }

  predicate ClosedMembers(ms: Members, keep: set<string>)
    decreases ms
  {
    match ms
    case NoMembers => true
    case Members(_, t, rest) => Closed(t, keep) && ClosedMembers(rest, keep)
  }

  predicate ClosedCells(cells: Cells, keep: set<string>)
    decreases cells
  {
    match cells
    case NoCells => true
    case Cells(head, tail) => ClosedCell(head, keep) && ClosedCells(tail, keep)
  }

  predicate ClosedCell(c: Cell, keep: set<string>)
    decreases c
  {
    match c
    case Shown(t) => Closed(t, keep)
    case Hidden(digest, _, t) => Closed(t, keep) && (digest in keep || Revealed(t) !! keep)
    case Gap(_) => true
  }

  lemma {:induction false} RestrictRevealed(t: Tree, keep: set<string>)
    requires Closed(t, keep)
    ensures Revealed(Restrict(t, keep)) == Revealed(t) * keep
    decreases t
  {
    match t
    case Leaf(_) =>
    case ArrT(cells) => RestrictRevealedCells(cells, keep);
    case ObjT(ms, _, slots) => RestrictRevealedMembers(ms, keep); RestrictRevealedCells(slots, keep);
  }

  lemma {:induction false} RestrictRevealedMembers(ms: Members, keep: set<string>)
    requires ClosedMembers(ms, keep)
    ensures RevealedMembers(RestrictMembers(ms, keep)) == RevealedMembers(ms) * keep
    decreases ms
  {
    match ms
    case NoMembers =>
    case Members(_, t, rest) => RestrictRevealed(t, keep); RestrictRevealedMembers(rest, keep);
  }

  lemma {:induction false} RestrictRevealedCells(cells: Cells, keep: set<string>)
    requires ClosedCells(cells, keep)
    ensures RevealedCells(RestrictCells(cells, keep)) == RevealedCells(cells) * keep
    decreases cells
  {
    match cells
    case NoCells =>
    case Cells(head, tail) => RestrictRevealedCell(head, keep); RestrictRevealedCells(tail, keep);
  }

  lemma {:induction false} RestrictRevealedCell(c: Cell, keep: set<string>)
    requires ClosedCell(c, keep)
    ensures RevealedCell(RestrictCell(c, keep)) == RevealedCell(c) * keep
    decreases c
  {
    match c
    case Shown(t) => RestrictRevealed(t, keep);
    case Hidden(_, _, t) => RestrictRevealed(t, keep);
    case Gap(_) =>
  }

  // ---- nothing new becomes visible

  lemma {:induction false} FewerVisible(cells: Cells, keep: set<string>)
    ensures |PlainCells(RestrictCells(cells, keep))| <= |PlainCells(cells)|
    decreases cells
  {
    match cells
    case NoCells =>
    case Cells(_, tail) => FewerVisible(tail, keep);
  }

  lemma {:induction false} FewerSlots(slots: Cells, keep: set<string>)
    ensures PlainSlots(RestrictCells(slots, keep)).Keys <= PlainSlots(slots).Keys
    decreases slots
  {
    match slots
    case NoCells =>
    case Cells(_, tail) => FewerSlots(tail, keep);
  }

  // ---- keeping everything changes nothing

  lemma {:induction false} RestrictNothing(t: Tree, keep: set<string>)
    requires Revealed(t) <= keep
    ensures Restrict(t, keep) == t
    decreases t
  {
    match t
    case Leaf(_) =>
    case ArrT(cells) => RestrictNothingCells(cells, keep);
    case ObjT(ms, _, slots) => RestrictNothingMembers(ms, keep); RestrictNothingCells(slots, keep);
  }

  lemma {:induction false} RestrictNothingMembers(ms: Members, keep: set<string>)
    requires RevealedMembers(ms) <= keep
    ensures RestrictMembers(ms, keep) == ms
    decreases ms
  {
    match ms
    case NoMembers =>
    case Members(_, t, rest) => RestrictNothing(t, keep); RestrictNothingMembers(rest, keep);
  }

  lemma {:induction false} RestrictNothingCells(cells: Cells, keep: set<string>)
    requires RevealedCells(cells) <= keep
    ensures RestrictCells(cells, keep) == cells
    decreases cells
  {
    match cells
    case NoCells =>
    case Cells(head, tail) => RestrictNothingCell(head, keep); RestrictNothingCells(tail, keep);
  }

  lemma {:induction false} RestrictNothingCell(c: Cell, keep: set<string>)
    requires RevealedCell(c) <= keep
    ensures RestrictCell(c, keep) == c
    decreases c
  {
    match c
    case Shown(t) => RestrictNothing(t, keep);
    case Hidden(_, _, t) => RestrictNothing(t, keep);
    case Gap(_) =>
  }
}
