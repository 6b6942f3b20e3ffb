/**
 What an SD-JWT payload together with its disclosures means. A tree shows, at
 every position of the claim set, whether the claim is carried in the clear,
 disclosed through a digest, or withheld. It can be read in two directions:
 as the payload on the wire (`Encode`) and as the claims a verifier sees
 (`Plain`).
 */
module SdTree {
  import opened Prelude
  import opened Json
  import opened Strings
  import opened Processing

  datatype Tree =
    | Leaf(v: Json)
    | ArrT(cells: Cells)
    | ObjT(members: Members, hasSd: bool, slots: Cells)

  /** The members carried in the clear, in key order. */
  datatype Members = NoMembers | Members(name: string, t: Tree, rest: Members)

  /** The elements of an array, or the digests listed in `_sd` (where none is `Shown`). */
  datatype Cells = NoCells | Cells(head: Cell, tail: Cells)

  datatype Cell =
    | Shown(t: Tree)
    | Hidden(digest: string, d: Disclosure, t: Tree)
    | Gap(digest: string)

  predicate Scalar(v: Json) {
    !v.Arr? && !v.Obj?
  }

  function Names(ms: Members): seq<string> {
    match ms
    case NoMembers => []
    case Members(name, _, rest) => [name] + Names(rest)
  }

  // ---- the wire form

  function Encode(t: Tree): Json {
    match t
    case Leaf(v) => v
    case ArrT(cells) => Arr(EncodeCells(cells))
    case ObjT(ms, hasSd, slots) =>
      Obj(if hasSd then EncodeMembers(ms)["_sd" := Arr(DigestList(slots))] else EncodeMembers(ms))
  }

  function EncodeMembers(ms: Members): map<string, Json> {
    match ms
    case NoMembers => map[]
    case Members(name, t, rest) => EncodeMembers(rest)[name := Encode(t)]
  }

  function EncodeCells(cells: Cells): seq<Json> {
    match cells
    case NoCells => []
    case Cells(head, tail) => [EncodeCell(head)] + EncodeCells(tail)
  }

  function EncodeCell(c: Cell): Json {
    match c
    case Shown(t) => Encode(t)
    case Hidden(digest, _, _) => DigestObject(digest)
    case Gap(digest) => DigestObject(digest)
  }

  function DigestObject(digest: string): Json {
    Obj(map["..." := Str(digest)])
  }

  function DigestList(slots: Cells): seq<Json> {
    match slots
    case NoCells => []
    case Cells(head, tail) => [Str(if head.Shown? then "" else head.digest)] + DigestList(tail)
  }

  // ---- the verifier's view

  function Plain(t: Tree): Json {
    match t
    case Leaf(v) => v
    case ArrT(cells) => Arr(PlainCells(cells))
    case ObjT(ms, _, slots) => Obj(PlainMembers(ms) + PlainSlots(slots))
  }

  function PlainMembers(ms: Members): map<string, Json> {
    match ms
    case NoMembers => map[]
    case Members(name, t, rest) => map[name := Plain(t)] + PlainMembers(rest)
  }

  function PlainCells(cells: Cells): seq<Json> {
    match cells
    case NoCells => []
    case Cells(head, tail) => PlainCell(head) + PlainCells(tail)
  }

  function PlainCell(c: Cell): seq<Json> {
    match c
    case Shown(t) => [Plain(t)]
    case Hidden(_, _, t) => [Plain(t)]
    case Gap(_) => []
  }

  function PlainSlots(slots: Cells): map<string, Json> {
    match slots
    case NoCells => map[]
    case Cells(head, tail) => PlainSlot(head) + PlainSlots(tail)
  }

  function PlainSlot(c: Cell): map<string, Json> {
    match c
    case Hidden(_, d, t) => if d.name.Some? then map[d.name.value := Plain(t)] else map[]
    case _ => map[]
  }

  // ---- where the disclosed values land

  function Places(t: Tree, path: Path): map<string, Path>
    decreases t
  {
    match t
    case Leaf(_) => map[]
    case ArrT(cells) => CellPlaces(cells, 0, path)
    case ObjT(ms, _, slots) => MemberPlaces(ms, path) + SlotPlaces(slots, path)
  }

  function MemberPlaces(ms: Members, path: Path): map<string, Path>
    decreases ms
  {
    match ms
    case NoMembers => map[]
    case Members(name, t, rest) => Places(t, path + [Key(name)]) + MemberPlaces(rest, path)
  }

  /** `base` is the index at which the first of `cells` lands, if it is not a gap. */
  function CellPlaces(cells: Cells, base: nat, path: Path): map<string, Path>
    decreases cells
  {
    match cells
    case NoCells => map[]
    case Cells(head, tail) =>
      CellPlace(head, path + [Index(base)]) + CellPlaces(tail, if head.Gap? then base else base + 1, path)
  }

  function CellPlace(c: Cell, at: Path): map<string, Path>
    decreases c, 0
  {
    match c
    case Shown(t) => Places(t, at)
    case Hidden(digest, _, t) => map[digest := at] + Places(t, at)
    case Gap(_) => map[]
  }

  function SlotPlaces(slots: Cells, path: Path): map<string, Path>
    decreases slots
  {
    match slots
    case NoCells => map[]
    case Cells(head, tail) =>
      SlotPlace(head, path) + SlotPlaces(tail, path)
  }

  function SlotPlace(c: Cell, path: Path): map<string, Path>
    decreases c, 1
  {
    match c
    case Hidden(_, d, _) => if d.name.Some? then CellPlace(c, path + [Key(d.name.value)]) else map[]
    case _ => map[]
  }

  // ---- digests

  function Digests(t: Tree): set<string> {
    match t
    case Leaf(_) => {}
    case ArrT(cells) => CellsDigests(cells)
    case ObjT(ms, _, slots) => MembersDigests(ms) + CellsDigests(slots)
  }

  function MembersDigests(ms: Members): set<string> {
    match ms
    case NoMembers => {}
    case Members(_, t, rest) => Digests(t) + MembersDigests(rest)
  }

  function CellsDigests(cells: Cells): set<string> {
    match cells
    case NoCells => {}
    case Cells(head, tail) => CellDigests(head) + CellsDigests(tail)
  }

  function CellDigests(c: Cell): set<string> {
    match c
    case Shown(t) => Digests(t)
    case Hidden(digest, _, t) => {digest} + Digests(t)
    case Gap(digest) => {digest}
  }

  /** No digest occurs twice, in the payload or inside a disclosure. */
  predicate Distinct(t: Tree) {
    match t
    case Leaf(_) => true
    case ArrT(cells) => DistinctCells(cells)
    case ObjT(ms, _, slots) =>
      DistinctMembers(ms) && DistinctCells(slots) && MembersDigests(ms) !! CellsDigests(slots)
  }

  predicate DistinctMembers(ms: Members) {
    match ms
    case NoMembers => true
    case Members(_, t, rest) => Distinct(t) && DistinctMembers(rest) && Digests(t) !! MembersDigests(rest)
  }

  predicate DistinctCells(cells: Cells) {
    match cells
    case NoCells => true
    case Cells(head, tail) => DistinctCell(head) && DistinctCells(tail) && CellDigests(head) !! CellsDigests(tail)
  }

  predicate DistinctCell(c: Cell) {
    match c
    case Shown(t) => Distinct(t)
    case Hidden(digest, _, t) => digest !in Digests(t) && Distinct(t)
    case Gap(_) => true
  }

  // ---- agreement with a table of disclosures

  /**
   Exactly the disclosures of `tab` are spliced in: a digest is disclosed with
   the value that hangs below it, or has no disclosure. Disclosed names are not
   reserved and collide with nothing at their level.
   */
  predicate Fits(tab: Table, t: Tree) {
    match t
    case Leaf(v) => Scalar(v)
    case ArrT(cells) => FitsCells(tab, cells)
    case ObjT(ms, hasSd, slots) =>
      && FitsMembers(tab, ms)
      && Names(ms) == InOrder(PlainMembers(ms).Keys)
      && (hasSd || slots == NoCells)
      && FitsSlots(tab, slots, PlainMembers(ms).Keys)
  }

  predicate FitsMembers(tab: Table, ms: Members) {
    match ms
    case NoMembers => true
    case Members(name, t, rest) => name != "_sd" && name != "..." && Fits(tab, t) && FitsMembers(tab, rest)
  }

  predicate FitsCells(tab: Table, cells: Cells) {
    match cells
    case NoCells => true
    case Cells(head, tail) => FitsCell(tab, head) && (head.Hidden? ==> head.d.name.None?) && FitsCells(tab, tail)
  }

  predicate FitsCell(tab: Table, c: Cell) {
    match c
    case Shown(t) => Fits(tab, t)
    case Hidden(digest, d, t) => digest in tab && tab[digest] == d && d.value == Encode(t) && Fits(tab, t)
    case Gap(digest) => digest !in tab
  }

  predicate FitsSlots(tab: Table, slots: Cells, taken: set<string>) {
    match slots
    case NoCells => true
    case Cells(head, tail) =>
      && !head.Shown?
      && FitsCell(tab, head)
      && (head.Hidden? ==> GoodName(head.d.name, taken))
      && FitsSlots(tab, tail, if head.Hidden? then taken + {head.d.name.value} else taken)
  }

  predicate GoodName(name: Option<string>, taken: set<string>) {
    name.Some? && name.value != "_sd" && name.value != "..." && name.value !in taken
  }
}
