/**
 Why concealing claims loses nothing: through every operation of issuance there is
 a tree that reads as the claims and encodes as the document so far. No operation
 panics, and at the end the payload and its disclosures can be read.
 */
module RoundTrip {
  import opened Prelude
  import opened Json
  import opened Strings
  import opened Processing
  import opened Pointer
  import opened SdTree
  import opened Walk
  import opened Landing
  import opened Restriction
  import opened Selection
  import opened Grafting
  import opened Placing
  import opened Conceal

  // ---- the steps on the tree

  function RemoveMember(ms: Members, name: string): Members {
    match ms
    case NoMembers => NoMembers
    case Members(n, t, rest) => if n == name then rest else Members(n, t, RemoveMember(rest, name))
  }

  function InsertCell(cells: Cells, at: nat, c: Cell): Cells {
    match cells
    case NoCells => Cells(c, NoCells)
    case Cells(head, tail) => if at == 0 then Cells(c, cells) else Cells(head, InsertCell(tail, at - 1, c))
  }

  function PushSlot(t: Tree, c: Cell): Tree
    requires t.ObjT? && !c.Shown?
  {
    ObjT(t.members, true, InsertCell(t.slots, Position(DigestList(t.slots), c.digest), c))
  }

  function HideChild(t: Tree, s: Segment, d: Disclosure, g: string): Tree
    requires ClearChild(t, s).Some?
  {
    match s
    case Key(name) =>
      PushSlot(t.(members := RemoveMember(t.members, name)), Hidden(g, d, ClearChild(t, s).value))
    case Index(i) => ArrT(SetCell(t.cells, i, Hidden(g, d, ClearChild(t, s).value)))
  }

  function AddGap(t: Tree, g: string, at: nat): Tree
    requires !t.Leaf?
  {
    match t
    case ObjT(_, _, _) => PushSlot(t, Gap(g))
    case ArrT(cells) => ArrT(InsertCell(cells, at, Gap(g)))
  }

  // ---- inserting a cell

  lemma {:induction false} InsertCellDigests(cells: Cells, at: nat, c: Cell)
    ensures CellsDigests(InsertCell(cells, at, c)) == CellsDigests(cells) + CellDigests(c)
    ensures DistinctCells(cells) && DistinctCell(c) && CellDigests(c) !! CellsDigests(cells)
            ==> DistinctCells(InsertCell(cells, at, c))
    decreases cells
  {
    match cells
    case NoCells =>
    case Cells(head, tail) => if at > 0 { InsertCellDigests(tail, at - 1, c); }
  }

  lemma {:induction false} InsertGapFits(tab: Table, cells: Cells, at: nat, g: string)
    requires FitsCells(tab, cells) && g !in tab
    ensures FitsCells(tab, InsertCell(cells, at, Gap(g)))
              && PlainCells(InsertCell(cells, at, Gap(g))) == PlainCells(cells)
    decreases cells
  {
    match cells
    case NoCells =>
    case Cells(head, tail) => if at > 0 { InsertGapFits(tab, tail, at - 1, g); }
  }

  lemma {:induction false} InsertSlotFits(tab: Table, slots: Cells, taken: set<string>, at: nat, c: Cell)
    requires FitsSlots(tab, slots, taken) && !c.Shown? && FitsCell(tab, c)
    requires c.Hidden? ==> GoodName(c.d.name, taken) && c.d.name.value !in PlainSlots(slots)
    ensures FitsSlots(tab, InsertCell(slots, at, c), taken)
    decreases slots
  {
    match slots
    case NoCells =>
    case Cells(head, tail) =>
      if at == 0 {
        if c.Hidden? { FitsSlotsTaken(tab, slots, taken, c.d.name.value); }
      } else {
        InsertSlotFits(tab, tail, if head.Hidden? then taken + {head.d.name.value} else taken, at - 1, c);
      }
  }

  /** Another taken name does no harm if no slot has it. */
  lemma {:induction false} FitsSlotsTaken(tab: Table, slots: Cells, taken: set<string>, name: string)
    requires FitsSlots(tab, slots, taken) && name !in PlainSlots(slots)
    ensures FitsSlots(tab, slots, taken + {name})
    decreases slots
  {
    match slots
    case NoCells =>
    case Cells(head, tail) =>
      var more := if head.Hidden? then taken + {head.d.name.value} else taken;
      assert PlainSlots(tail).Keys <= PlainSlots(slots).Keys;
      FitsSlotsTaken(tab, tail, more, name);
      assert head.Hidden? ==> taken + {name} + {head.d.name.value} == more + {name};
  }

  lemma {:induction false} FitsSlotsFreed(tab: Table, slots: Cells, taken: set<string>, less: set<string>)
    requires FitsSlots(tab, slots, taken) && less <= taken
    ensures FitsSlots(tab, slots, less)
    decreases slots
  {
    match slots
    case NoCells =>
    case Cells(head, tail) =>
      if head.Hidden? { FitsSlotsFreed(tab, tail, taken + {head.d.name.value}, less + {head.d.name.value}); }
      else { FitsSlotsFreed(tab, tail, taken, less); }
  }

  lemma {:induction false} InsertSlotPlain(slots: Cells, at: nat, c: Cell)
    requires PlainSlot(c).Keys !! PlainSlots(slots).Keys
    ensures PlainSlots(InsertCell(slots, at, c)) == PlainSlots(slots) + PlainSlot(c)
    decreases slots
  {
    match slots
    case NoCells => MapEmpty(PlainSlot(c));
    case Cells(head, tail) =>
      if at == 0 {
        assert PlainSlot(c) + PlainSlots(slots) == PlainSlots(slots) + PlainSlot(c);
      } else {
        assert PlainSlots(tail).Keys <= PlainSlots(slots).Keys;
        InsertSlotPlain(tail, at - 1, c);
        MapJoin(PlainSlot(head), PlainSlots(tail), PlainSlot(c));
      }
  }

  lemma InsertTail<T>(l: seq<T>, at: nat, x: T)
    requires 0 < at <= |l|
    ensures Insert(l, at, x) == [l[0]] + Insert(l[1..], at - 1, x)
  {
    assert l[..at] == [l[0]] + l[1..][..at - 1] && l[at..] == l[1..][at - 1..];
  }

  lemma {:induction false} InsertSlotEncoded(slots: Cells, at: nat, c: Cell)
    requires !c.Shown? && at <= |DigestList(slots)|
    ensures DigestList(InsertCell(slots, at, c)) == Insert(DigestList(slots), at, Str(c.digest))
    decreases slots
  {
    match slots
    case NoCells =>
    case Cells(head, tail) =>
      if at > 0 {
        InsertSlotEncoded(tail, at - 1, c);
        assert DigestList(slots)[1..] == DigestList(tail);
        InsertTail(DigestList(slots), at, Str(c.digest));
      }
  }

  lemma {:induction false} InsertCellEncoded(cells: Cells, at: nat, g: string)
    requires at <= |EncodeCells(cells)|
    ensures EncodeCells(InsertCell(cells, at, Gap(g))) == Insert(EncodeCells(cells), at, DigestObject(g))
    decreases cells
  {
    match cells
    case NoCells =>
    case Cells(head, tail) =>
      if at > 0 {
        InsertCellEncoded(tail, at - 1, g);
        var l, r := EncodeCells(cells), EncodeCells(tail);
        assert l[..at] == [l[0]] + r[..at - 1] && l[at..] == r[at - 1..];
      }
  }

  // ---- removing a member

  lemma MapCut<K, V>(m: map<K, V>, n: K, v: V, k: K)
    requires n !in m
    ensures (map[n := v] + m) - {k} == if n == k then m else map[n := v] + (m - {k})
    ensures m[n := v] - {k} == if n == k then m else (m - {k})[n := v]
  {
  }

  lemma {:induction false} RemovePlain(ms: Members, name: string)
    requires Unique(ms)
    ensures PlainMembers(RemoveMember(ms, name)) == PlainMembers(ms) - {name}
  {
    match ms
    case NoMembers =>
    case Members(n, t, rest) =>
      RemovePlain(rest, name);
      MapCut(PlainMembers(rest), n, Plain(t), name);
  }

  lemma {:induction false} RemoveEncoded(ms: Members, name: string)
    requires Unique(ms)
    ensures EncodeMembers(RemoveMember(ms, name)) == EncodeMembers(ms) - {name}
  {
    match ms
    case NoMembers =>
    case Members(n, t, rest) =>
      RemoveEncoded(rest, name);
      MemberNames(rest);
      MapCut(EncodeMembers(rest), n, Encode(t), name);
  }

  lemma {:induction false} RemoveFits(tab: Table, ms: Members, name: string)
    requires FitsMembers(tab, ms) && DistinctMembers(ms)
    ensures FitsMembers(tab, RemoveMember(ms, name)) && DistinctMembers(RemoveMember(ms, name))
    ensures MembersDigests(RemoveMember(ms, name)) <= MembersDigests(ms)
    ensures MemberNamed(ms, name).Some? ==>
              && MembersDigests(ms) == MembersDigests(RemoveMember(ms, name)) + Digests(MemberNamed(ms, name).value)
              && MembersDigests(RemoveMember(ms, name)) !! Digests(MemberNamed(ms, name).value)
              && name != "_sd" && name != "..."
  {
    match ms
    case NoMembers =>
    case Members(n, _, rest) =>
      RemoveFits(tab, rest, name);
      if n != name && MemberNamed(rest, name).Some? { MemberDistinct(rest, name); }
  }

  lemma {:induction false} RemoveNames(ms: Members, name: string)
    requires Increasing(Names(ms))
    ensures Increasing(Names(RemoveMember(ms, name)))
    ensures forall k :: k in Names(RemoveMember(ms, name)) ==> k in Names(ms)
  {
    match ms
    case NoMembers =>
    case Members(n, _, rest) =>
      var ns := Names(ms);
      assert forall i :: 0 <= i < |Names(rest)| ==> Names(rest)[i] == ns[i + 1];
      RemoveNames(rest, name);
      var cut := Names(RemoveMember(rest, name));
      if n != name {
        assert Names(RemoveMember(ms, name)) == [n] + cut;
        forall j | 0 <= j < |cut| ensures Before(n, cut[j]) {
          assert cut[j] in Names(rest);
          var i :| 0 <= i < |Names(rest)| && Names(rest)[i] == cut[j];
          assert ns[0] == n && ns[i + 1] == cut[j];
        }
      }
  }

  lemma RemoveInOrder(ms: Members, name: string)
    requires Names(ms) == InOrder(PlainMembers(ms).Keys)
    ensures Names(RemoveMember(ms, name)) == InOrder(PlainMembers(RemoveMember(ms, name)).Keys)
  {
    RemoveNames(ms, name);
    MemberNames(RemoveMember(ms, name));
    InOrderUnique(Names(RemoveMember(ms, name)), PlainMembers(RemoveMember(ms, name)).Keys);
  }

  // ---- hiding a child, adding a decoy

  /** The disclosure made for the child at `s` of `t`. */
  predicate Discloses(t: Tree, s: Segment, d: Disclosure) {
    && ClearChild(t, s).Some?
    && d.value == Encode(ClearChild(t, s).value)
    && d.name == if s.Key? then Some(s.name) else None
  }

  lemma HideMemberGrows(tab: Table, t: Tree, name: string, d: Disclosure, g: string)
    requires t.ObjT? && Fits(tab, t) && Distinct(t) && g !in Digests(t)
    requires Discloses(t, Key(name), d) && g in tab && tab[g] == d
    ensures Grows(tab, t, HideChild(t, Key(name), d, g), g)
  {
    var ms, slots, sub := t.members, t.slots, ClearChild(t, Key(name)).value;
    var cut, c := RemoveMember(ms, name), Hidden(g, d, sub);
    var at := Position(DigestList(slots), g);
    NamesUnique(ms);
    MemberFound(ms, name);
    MemberFits(tab, ms, name);
    MemberDistinct(ms, name);
    RemovePlain(ms, name);
    RemoveFits(tab, ms, name);
    RemoveInOrder(ms, name);
    HideSlot(tab, ms, slots, name, at, c);
  }

  /** A member moved into a slot: the slots stay in order, and the members read back the same. */
  lemma HideSlot(tab: Table, ms: Members, slots: Cells, name: string, at: nat, c: Cell)
    requires c.Hidden? && FitsCell(tab, c) && DistinctCell(c) && c.d.name == Some(name) && name != "_sd"
               && name != "..."
    requires name in PlainMembers(ms) && Plain(c.t) == PlainMembers(ms)[name]
               && PlainMembers(RemoveMember(ms, name)) == PlainMembers(ms) - {name}
    requires FitsSlots(tab, slots, PlainMembers(ms).Keys) && DistinctCells(slots)
               && CellDigests(c) !! CellsDigests(slots)
    ensures var after := InsertCell(slots, at, c);
            && FitsSlots(tab, after, PlainMembers(RemoveMember(ms, name)).Keys) && DistinctCells(after)
            && CellsDigests(after) == CellsDigests(slots) + CellDigests(c)
            && PlainMembers(RemoveMember(ms, name)) + PlainSlots(after) == PlainMembers(ms) + PlainSlots(slots)
  {
    var cut := RemoveMember(ms, name);
    SlotNamesFresh(tab, slots, PlainMembers(ms).Keys);
    FitsSlotsFreed(tab, slots, PlainMembers(ms).Keys, PlainMembers(cut).Keys);
    InsertSlotFits(tab, slots, PlainMembers(cut).Keys, at, c);
    InsertCellDigests(slots, at, c);
    InsertSlotPlain(slots, at, c);
    MoveEntry(PlainMembers(ms), PlainSlots(slots), name);
  }

  lemma MoveEntry<K, V>(a: map<K, V>, b: map<K, V>, k: K)
    requires k in a && a.Keys !! b.Keys
    ensures (a - {k}) + (b + map[k := a[k]]) == a + b
  {
  }

  lemma {:induction false} HideCellGrows(tab: Table, cells: Cells, i: nat, d: Disclosure, g: string)
    requires FitsCells(tab, cells) && DistinctCells(cells) && g !in CellsDigests(cells)
    requires CellAt(cells, i).Some? && CellAt(cells, i).value.Shown?
    requires d.value == Encode(CellAt(cells, i).value.t) && d.name.None? && g in tab && tab[g] == d
    ensures var after := SetCell(cells, i, Hidden(g, d, CellAt(cells, i).value.t));
            && FitsCells(tab, after) && DistinctCells(after)
            && PlainCells(after) == PlainCells(cells)
            && CellsDigests(after) == CellsDigests(cells) + {g}
    decreases cells
  {
    match cells
    case Cells(head, tail) => if i > 0 { HideCellGrows(tab, tail, i - 1, d, g); }
  }

  lemma HideGrows(tab: Table, t: Tree, s: Segment, d: Disclosure, g: string)
    requires Fits(tab, t) && Distinct(t) && g !in Digests(t)
    requires Discloses(t, s, d) && g in tab && tab[g] == d
    ensures Grows(tab, t, HideChild(t, s, d, g), g)
  {
    if s.Key? { HideMemberGrows(tab, t, s.name, d, g); } else { HideCellGrows(tab, t.cells, s.i, d, g); }
  }

  lemma AddGapGrows(tab: Table, t: Tree, g: string, at: nat)
    requires !t.Leaf? && Fits(tab, t) && Distinct(t) && g !in Digests(t) && g !in tab
    ensures Grows(tab, t, AddGap(t, g, at), g)
  {
    match t
    case ObjT(ms, _, slots) =>
      var p := Position(DigestList(slots), g);
      InsertSlotFits(tab, slots, PlainMembers(ms).Keys, p, Gap(g));
      InsertCellDigests(slots, p, Gap(g));
      InsertSlotPlain(slots, p, Gap(g));
      MapEmpty(PlainSlots(slots));
    case ArrT(cells) =>
      InsertGapFits(tab, cells, at, g);
      InsertCellDigests(cells, at, Gap(g));
  }

  lemma PushSlotEncoded(tab: Table, t: Tree, c: Cell)
    requires t.ObjT? && FitsMembers(tab, t.members) && (t.hasSd || t.slots == NoCells) && !c.Shown?
    ensures PushSd(Encode(t).fields, c.digest) == Some(Encode(PushSlot(t, c)).fields)
  {
    MembersNotReserved(tab, t.members);
    var at := Position(DigestList(t.slots), c.digest);
    InsertSlotEncoded(t.slots, at, c);
    if t.hasSd {
      MapPutTwice(EncodeMembers(t.members), "_sd", Arr(DigestList(t.slots)),
                  Arr(Insert(DigestList(t.slots), at, Str(c.digest))));
    } else {
      assert Insert(DigestList(t.slots), at, Str(c.digest)) == [Str(c.digest)];
    }
  }

  lemma MapPutTwice<K, V>(m: map<K, V>, k: K, v: V, w: V)
    ensures m[k := v][k := w] == m[k := w]
  {
  }

  /** The document step is the wire form of the tree step. */
  lemma HideEncoded(tab: Table, src: Source, k: nat, t: Tree, s: Segment)
    requires Fits(tab, t) && Distinct(t) && ClearChild(t, s).Some?
    ensures var r := ConcealIn(src, k, Encode(t), s);
            && r.Some?
            && Discloses(t, s, r.value.1)
            && r.value.0 == Encode(HideChild(t, s, r.value.1, src.DigestOf(r.value.1)))
  {
    match s
    case Key(name) =>
      MemberOnWire(tab, t, name, t);
      NamesUnique(t.members);
      RemoveEncoded(t.members, name);
      RemoveFits(tab, t.members, name);
      var cut := t.(members := RemoveMember(t.members, name));
      var d := src.Mint(k, Some(name), Encode(t).fields[name]);
      WithoutMember(tab, t, name);
      PushSlotEncoded(tab, cut, Hidden(src.DigestOf(d), d, ClearChild(t, s).value));
    case Index(i) =>
      ElementOnWire(t, i, t);
      var d := src.Mint(k, None, Encode(t).items[i]);
      SetCellEncoded(t.cells, i, Hidden(src.DigestOf(d), d, ClearChild(t, s).value));
  }

  lemma WithoutMember(tab: Table, t: Tree, name: string)
    requires t.ObjT? && Fits(tab, t) && MemberNamed(t.members, name).Some? && Unique(t.members)
    ensures Encode(t).fields - {name} == Encode(t.(members := RemoveMember(t.members, name))).fields
  {
    RemoveEncoded(t.members, name);
    MembersNotReserved(tab, t.members);
    MemberEncoded(t.members, name);
    if t.hasSd { MapPutCut(EncodeMembers(t.members), "_sd", Arr(DigestList(t.slots)), name); }
  }

  lemma MapPutCut<K, V>(m: map<K, V>, n: K, v: V, k: K)
    requires n != k
    ensures m[n := v] - {k} == (m - {k})[n := v]
  {
  }

  lemma GapEncoded(tab: Table, src: Source, k: nat, t: Tree)
    requires Fits(tab, t) && !t.Leaf?
    ensures exists at :: AddDecoy(src, k, Encode(t)) == Some(Encode(AddGap(t, src.Decoy(k), at)))
  {
    var at := if t.ArrT? then src.pick(k) % (|EncodeCells(t.cells)| + 1) else 0;
    if t.ArrT? {
      InsertCellEncoded(t.cells, at, src.Decoy(k));
    } else {
      PushSlotEncoded(tab, t, Gap(src.Decoy(k)));
    }
    assert AddDecoy(src, k, Encode(t)) == Some(Encode(AddGap(t, src.Decoy(k), at)));
  }

  // ---- claims before anything is hidden

  function ClearTree(v: Json): Tree
    decreases v, 1, 0
  {
    match v
    case Obj(fields) => ObjT(ClearMembers(fields, InOrder(fields.Keys)), false, NoCells)
    case Arr(items) => ArrT(ClearCells(items))
    case _ => Leaf(v)
  }

  function ClearMembers(fields: map<string, Json>, keys: seq<string>): Members
    requires forall k :: k in keys ==> k in fields
    decreases Obj(fields), 0, |keys|
  {
    if keys == [] then NoMembers
    else Members(keys[0], ClearTree(fields[keys[0]]), ClearMembers(fields, keys[1..]))
  }

  function ClearCells(items: seq<Json>): Cells
    decreases items
  {
    if items == [] then NoCells else Cells(Shown(ClearTree(items[0])), ClearCells(items[1..]))
  }

  /** Nothing hidden: both readings are the claims themselves. */
  predicate IsClear(t: Tree, v: Json) {
    Fits(map[], t) && Encode(t) == v && Plain(t) == v && Digests(t) == {} && Distinct(t)
  }

  lemma {:induction false} ClearTreeReads(v: Json)
    requires Unreserved(v)
    ensures IsClear(ClearTree(v), v)
    decreases v, 1, 0
  {
    match v
    case Obj(fields) =>
      var keys := InOrder(fields.Keys);
      ClearMembersRead(fields, keys);
      var ms := ClearMembers(fields, keys);
      MemberNames(ms);
      ClearMembersAre(fields, ms);
      assert PlainMembers(ms) == fields && EncodeMembers(ms) == fields;
      MapEmpty(fields);
    case Arr(items) => ClearCellsRead(items);
    case _ =>
  }

  /** Every member of `ms` is a member of `fields`, with the same value in both readings. */
  predicate Mirrors(fields: map<string, Json>, ms: Members) {
    match ms
    case NoMembers => true
    case Members(name, t, rest) => name in fields && IsClear(t, fields[name]) && Mirrors(fields, rest)
  }

  lemma {:induction false} ClearMembersRead(fields: map<string, Json>, keys: seq<string>)
    requires Unreserved(Obj(fields)) && forall k :: k in keys ==> k in fields
    ensures var ms := ClearMembers(fields, keys);
            && Mirrors(fields, ms) && Names(ms) == keys
            && FitsMembers(map[], ms) && DistinctMembers(ms) && MembersDigests(ms) == {}
    decreases Obj(fields), 0, |keys|
  {
    if keys != [] {
      ClearTreeReads(fields[keys[0]]);
      ClearMembersRead(fields, keys[1..]);
    }
  }

  lemma {:induction false} ClearMembersAre(fields: map<string, Json>, ms: Members)
    requires Mirrors(fields, ms)
    ensures forall k :: k in PlainMembers(ms) ==> k in fields && PlainMembers(ms)[k] == fields[k]
    ensures forall k :: k in EncodeMembers(ms) ==> k in fields && EncodeMembers(ms)[k] == fields[k]
  {
    match ms
    case NoMembers =>
    case Members(_, _, rest) => ClearMembersAre(fields, rest);
  }

  lemma {:induction false} ClearCellsRead(items: seq<Json>)
    requires forall i :: 0 <= i < |items| ==> Unreserved(items[i])
    ensures var cells := ClearCells(items);
            && FitsCells(map[], cells) && EncodeCells(cells) == items && PlainCells(cells) == items
            && CellsDigests(cells) == {} && DistinctCells(cells)
    decreases items
  {
    if items != [] {
      var cells := ClearCells(items);
      ClearTreeReads(items[0]);
      assert forall i :: 0 <= i < |items[1..]| ==> items[1..][i] == items[i + 1];
      ClearCellsRead(items[1..]);
      assert EncodeCells(cells) == [items[0]] + items[1..] && PlainCells(cells) == [items[0]] + items[1..];
      assert items == [items[0]] + items[1..];
    }
  }

  lemma {:induction false} ClearCellAt(items: seq<Json>, i: nat)
    requires i < |items|
    ensures CellAt(ClearCells(items), i) == Some(Shown(ClearTree(items[i])))
  {
    if i > 0 { ClearCellAt(items[1..], i - 1); }
  }

  lemma {:induction false} ClearMemberNamed(fields: map<string, Json>, keys: seq<string>, name: string)
    requires name in keys && forall k :: k in keys ==> k in fields
    ensures MemberNamed(ClearMembers(fields, keys), name) == Some(ClearTree(fields[name]))
    decreases |keys|
  {
    if keys[0] != name { ClearMemberNamed(fields, keys[1..], name); }
  }

  /** Every place of the claims is reachable in the clear. */
  lemma {:induction false} ClearTreeAt(v: Json, path: Path)
    requires Lookup(v, path).Some?
    ensures ClearAt(ClearTree(v), path) == Some(ClearTree(Lookup(v, path).value))
    decreases |path|
  {
    if path != [] {
      match (v, path[0])
      case (Obj(fields), Key(name)) =>
        ClearMemberNamed(fields, InOrder(fields.Keys), name);
        ClearTreeAt(fields[name], path[1..]);
      case (Arr(items), Index(i)) =>
        ClearCellAt(items, i);
        ClearTreeAt(items[i], path[1..]);
    }
  }

  lemma {:induction false} ClearGapless(items: seq<Json>)
    ensures NoGaps(ClearCells(items))
  {
    if items != [] { ClearGapless(items[1..]); }
  }

  lemma {:induction false} ClearAligned(v: Json, path: Path)
    requires Lookup(v, path).Some?
    ensures Aligned(ClearTree(v), path)
    decreases |path|
  {
    if path != [] {
      match (v, path[0])
      case (Obj(fields), Key(name)) =>
        ClearMemberNamed(fields, InOrder(fields.Keys), name);
        ClearAligned(fields[name], path[1..]);
      case (Arr(items), Index(i)) =>
        ClearGapless(items);
        ClearCellAt(items, i);
        ClearAligned(items[i], path[1..]);
    }
  }

  lemma {:induction false} ClearHasNoGaps(v: Json, path: Path, q: Path)
    ensures GapsAt(ClearTree(v), path, q) == 0
    decreases v, 1, 0
  {
    match v
    case Obj(fields) => ClearMembersNoGaps(fields, InOrder(fields.Keys), path, q);
    case Arr(items) => ClearCellsNoGaps(items, 0, path, q);
    case _ =>
  }

  lemma {:induction false} ClearMembersNoGaps(fields: map<string, Json>, keys: seq<string>, path: Path, q: Path)
    requires forall k :: k in keys ==> k in fields
    ensures MemberGaps(ClearMembers(fields, keys), path, q) == 0
    decreases Obj(fields), 0, |keys|
  {
    if keys != [] {
      ClearHasNoGaps(fields[keys[0]], path + [Key(keys[0])], q);
      ClearMembersNoGaps(fields, keys[1..], path, q);
    }
  }

  lemma {:induction false} ClearCellsNoGaps(items: seq<Json>, base: nat, path: Path, q: Path)
    ensures CellGaps(ClearCells(items), base, path, q) == 0
    decreases items
  {
    if items != [] {
      ClearHasNoGaps(items[0], path + [Index(base)], q);
      ClearCellsNoGaps(items[1..], base + 1, path, q);
    }
  }

  /** Before anything is hidden there are no disclosures. */
  lemma ClearHasNoPlaces(v: Json)
    requires Unreserved(v)
    ensures PlaceSet(ClearTree(v), []) == {}
  {
    ClearTreeReads(v);
    PlacesAreSet(map[], ClearTree(v), []);
    PlacesAreDisclosed(map[], ClearTree(v), []);
  }

  // ---- other operations stay possible

  lemma {:induction false} MemberRemoved(ms: Members, name: string, other: string)
    requires other != name
    ensures MemberNamed(RemoveMember(ms, name), other) == MemberNamed(ms, other)
  {
    match ms
    case NoMembers =>
    case Members(_, _, rest) => MemberRemoved(rest, name, other);
  }

  lemma HideStands(t: Tree, s: Segment, d: Disclosure, g: string, rel: Path, container: bool)
    requires ClearChild(t, s).Some? && Stands(t, rel, container) && (rel != [] ==> rel[0] != s)
    ensures Stands(HideChild(t, s, d, g), rel, container)
  {
    if rel != [] {
      match s
      case Key(name) => if rel[0].Key? { MemberRemoved(t.members, name, rel[0].name); }
      case Index(i) => if rel[0].Index? { CellKept(t.cells, i, Hidden(g, d, ClearChild(t, s).value), rel[0].i); }
      assert ClearChild(HideChild(t, s, d, g), rel[0]) == ClearChild(t, rel[0]);
    }
  }

  lemma {:induction false} ClearAtUp(t: Tree, path: Path)
    requires path != [] && ClearAt(t, path).Some?
    ensures var up := ClearAt(t, path[..|path| - 1]);
            up.Some? && ClearChild(up.value, path[|path| - 1]).Some?
    decreases |path|
  {
    if |path| > 1 {
      ClearAtUp(ClearChild(t, path[0]).value, path[1..]);
      assert path[..|path| - 1][1..] == path[1..][..|path[1..]| - 1];
    }
  }

  predicate OpReady(t: Tree, op: Op) {
    match op
    case Hide(path) => path != [] && Stands(t, path, false) && Aligned(t, path)
    case Decoys(path, _) => Stands(t, path, true) && Aligned(t, path)
  }

  predicate Ready(t: Tree, ops: seq<Op>) {
    forall i :: 0 <= i < |ops| ==> OpReady(t, ops[i])
  }

  predicate Sorted(ops: seq<Op>) {
    forall i, j :: 0 <= i < j < |ops| ==> Earlier(ops[i], ops[j])
  }

  predicate DistinctHides(ops: seq<Op>) {
    forall i, j :: 0 <= i < j < |ops| && ops[i].Hide? ==> ops[i] != ops[j]
  }

  /** Hiding `path` does not get in the way of an operation that may come after it. */
  lemma HideLeaves(t: Tree, path: Path, d: Disclosure, g: string, op: Op)
    requires path != [] && ClearAt(t, path).Some? && OpReady(t, op)
    requires Earlier(Hide(path), op) && op != Hide(path)
    ensures ClearAt(t, path[..|path| - 1]).Some?
              && ClearChild(ClearAt(t, path[..|path| - 1]).value, path[|path| - 1]).Some?
    ensures OpReady(Graft(t, path[..|path| - 1],
              HideChild(ClearAt(t, path[..|path| - 1]).value, path[|path| - 1], d, g)), op)
  {
    ClearAtUp(t, path);
    var n := |path| - 1;
    var up, s, q := path[..n], path[n], op.path;
    var par := ClearAt(t, up).value;
    if up <= q {
      var rel := q[n..];
      ClearAtJoin(t, up, q);
      HideStands(par, s, d, g, rel, op.Decoys?);
      AlignedBelow(t, up, q);
      HideAligned(par, s, d, g, rel);
    }
    GraftStands(t, up, HideChild(par, s, d, g), q, op.Decoys?);
    GraftAligned(t, up, HideChild(par, s, d, g), q);
  }

  lemma {:induction false} AlignedBelow(t: Tree, up: Path, q: Path)
    requires up <= q && ClearAt(t, up).Some? && Aligned(t, q)
    ensures Aligned(ClearAt(t, up).value, q[|up|..]) && Aligned(t, up)
    decreases |up|
  {
    if up == [] {
      assert q[0..] == q;
    } else {
      AlignedBelow(ClearChild(t, up[0]).value, up[1..], q[1..]);
      assert q[1..][|up[1..]|..] == q[|up|..];
    }
  }

  lemma HideAligned(t: Tree, s: Segment, d: Disclosure, g: string, rel: Path)
    requires ClearChild(t, s).Some? && Aligned(t, rel) && |rel| <= 1
    ensures Aligned(HideChild(t, s, d, g), rel)
  {
    if rel != [] && t.ArrT? { SetKeepsGapless(t.cells, s.i, Hidden(g, d, ClearChild(t, s).value)); }
  }

  // ---- what the steps do to the places of disclosures

  lemma {:induction false} RemoveSets(ms: Members, name: string, path: Path)
    requires MemberNamed(ms, name).Some?
    ensures MemberSets(ms, path) ==
            MemberSets(RemoveMember(ms, name), path) + PlaceSet(MemberNamed(ms, name).value, path + [Key(name)])
  {
    match ms
    case Members(n, _, rest) => if n != name { RemoveSets(rest, name, path); }
  }

  lemma {:induction false} InsertSlotSets(slots: Cells, at: nat, c: Cell, path: Path)
    ensures SlotSets(InsertCell(slots, at, c), path) == SlotSets(slots, path) + SlotSet(c, path)
    decreases slots
  {
    match slots
    case NoCells =>
    case Cells(_, tail) => if at > 0 { InsertSlotSets(tail, at - 1, c, path); }
  }

  lemma {:induction false} InsertGapSets(cells: Cells, at: nat, g: string, base: nat, path: Path)
    ensures CellSets(InsertCell(cells, at, Gap(g)), base, path) == CellSets(cells, base, path)
    decreases cells
  {
    match cells
    case NoCells =>
    case Cells(head, tail) =>
      if at > 0 { InsertGapSets(tail, at - 1, g, if head.Gap? then base else base + 1, path); }
  }

  /** Hiding a child adds its place, and no other. */
  lemma HideSets(t: Tree, s: Segment, d: Disclosure, g: string, path: Path)
    requires Discloses(t, s, d) && (t.ArrT? ==> NoGaps(t.cells))
    ensures PlaceSet(HideChild(t, s, d, g), path) == PlaceSet(t, path) + {path + [s]}
  {
    var c := Hidden(g, d, ClearChild(t, s).value);
    match s
    case Key(name) =>
      RemoveSets(t.members, name, path);
      InsertSlotSets(t.slots, Position(DigestList(t.slots), g), c, path);
    case Index(i) => SetCellSets(t.cells, i, c, 0, path, {path + [s]});
  }

  lemma GapSets(t: Tree, g: string, at: nat, path: Path)
    requires !t.Leaf?
    ensures PlaceSet(AddGap(t, g, at), path) == PlaceSet(t, path)
  {
    match t
    case ObjT(_, _, slots) => InsertSlotSets(slots, Position(DigestList(slots), g), Gap(g), path);
    case ArrT(cells) => InsertGapSets(cells, at, g, 0, path);
  }

  lemma {:induction false} RemoveGaps(ms: Members, name: string, path: Path, q: Path)
    requires MemberNamed(ms, name).Some?
    ensures MemberGaps(ms, path, q) ==
            MemberGaps(RemoveMember(ms, name), path, q) + GapsAt(MemberNamed(ms, name).value, path + [Key(name)], q)
  {
    match ms
    case Members(n, _, rest) => if n != name { RemoveGaps(rest, name, path, q); }
  }

  lemma {:induction false} InsertSlotGaps(slots: Cells, at: nat, c: Cell, path: Path, q: Path)
    ensures SlotGaps(InsertCell(slots, at, c), path, q) == SlotGaps(slots, path, q) + SlotGap(c, path, q)
    decreases slots
  {
    match slots
    case NoCells =>
    case Cells(_, tail) => if at > 0 { InsertSlotGaps(tail, at - 1, c, path, q); }
  }

  lemma {:induction false} InsertGapGaps(cells: Cells, at: nat, g: string, base: nat, path: Path, q: Path)
    ensures CellGaps(InsertCell(cells, at, Gap(g)), base, path, q) ==
            CellGaps(cells, base, path, q) + if path == q then 1 else 0
    decreases cells
  {
    match cells
    case NoCells =>
    case Cells(head, tail) =>
      if at > 0 { InsertGapGaps(tail, at - 1, g, if head.Gap? then base else base + 1, path, q); }
  }

  /** Hiding a child moves its gaps along with it. */
  lemma HideGaps(t: Tree, s: Segment, d: Disclosure, g: string, path: Path, q: Path)
    requires Discloses(t, s, d) && (t.ArrT? ==> NoGaps(t.cells))
    ensures GapsAt(HideChild(t, s, d, g), path, q) == GapsAt(t, path, q)
  {
    var c := Hidden(g, d, ClearChild(t, s).value);
    match s
    case Key(name) =>
      RemoveGaps(t.members, name, path, q);
      InsertSlotGaps(t.slots, Position(DigestList(t.slots), g), c, path, q);
    case Index(i) => SetCellGaps(t.cells, i, c, 0, path, q, 0);
  }

  /** A decoy is one more gap in its own container. */
  lemma DecoyGaps(t: Tree, g: string, at: nat, path: Path, q: Path)
    requires !t.Leaf?
    ensures GapsAt(AddGap(t, g, at), path, q) == GapsAt(t, path, q) + if path == q then 1 else 0
  {
    match t
    case ObjT(_, _, slots) => InsertSlotGaps(slots, Position(DigestList(slots), g), Gap(g), path, q);
    case ArrT(cells) => InsertGapGaps(cells, at, g, 0, path, q);
  }

  lemma HideGraftGaps(t: Tree, path: Path, d: Disclosure, g: string, q: Path)
    requires path != [] && ClearAt(t, path).Some? && Aligned(t, path)
    requires var n := |path| - 1; ClearAt(t, path[..n]).Some? && Discloses(ClearAt(t, path[..n]).value, path[n], d)
    ensures var n := |path| - 1;
            GapsAt(Graft(t, path[..n], HideChild(ClearAt(t, path[..n]).value, path[n], d, g)), [], q) ==
            GapsAt(t, [], q)
  {
    var n := |path| - 1;
    var up, s, par := path[..n], path[n], ClearAt(t, path[..n]).value;
    AlignedBelow(t, up, path);
    assert path[n..] == [s] && [] + up == up;
    HideGaps(par, s, d, g, up, q);
    GraftGaps(t, up, HideChild(par, s, d, g), [], q, 0);
  }

  lemma DecoyGraftGaps(t: Tree, path: Path, g: string, at: nat, q: Path)
    requires Stands(t, path, true) && Aligned(t, path)
    ensures GapsAt(Graft(t, path, AddGap(ClearAt(t, path).value, g, at)), [], q) ==
            GapsAt(t, [], q) + if path == q then 1 else 0
  {
    assert [] + path == path;
    DecoyGaps(ClearAt(t, path).value, g, at, path, q);
    GraftGaps(t, path, AddGap(ClearAt(t, path).value, g, at), [], q, if path == q then 1 else 0);
  }

  lemma HideGraftSets(t: Tree, path: Path, d: Disclosure, g: string)
    requires path != [] && ClearAt(t, path).Some? && Aligned(t, path)
    requires var n := |path| - 1; ClearAt(t, path[..n]).Some? && Discloses(ClearAt(t, path[..n]).value, path[n], d)
    ensures var n := |path| - 1;
            PlaceSet(Graft(t, path[..n], HideChild(ClearAt(t, path[..n]).value, path[n], d, g)), []) ==
            PlaceSet(t, []) + {path}
  {
    var n := |path| - 1;
    var up, s, par := path[..n], path[n], ClearAt(t, path[..n]).value;
    AlignedBelow(t, up, path);
    assert path[n..] == [s] && up + [s] == path && [] + up == up;
    HideSets(par, s, d, g, up);
    GraftSets(t, up, HideChild(par, s, d, g), [], {path});
  }

  lemma GapGraftSets(t: Tree, path: Path, g: string, at: nat)
    requires Stands(t, path, true) && Aligned(t, path)
    ensures PlaceSet(Graft(t, path, AddGap(ClearAt(t, path).value, g, at)), []) == PlaceSet(t, [])
  {
    assert [] + path == path;
    GapSets(ClearAt(t, path).value, g, at, path);
    GraftSets(t, path, AddGap(ClearAt(t, path).value, g, at), [], {});
  }

  lemma {:induction false} ClearAtJoin(t: Tree, up: Path, q: Path)
    requires up <= q && ClearAt(t, up).Some?
    ensures ClearAt(t, q) == ClearAt(ClearAt(t, up).value, q[|up|..])
    decreases |up|
  {
    if up == [] {
      assert q[0..] == q;
    } else {
      ClearAtJoin(ClearChild(t, up[0]).value, up[1..], q[1..]);
      assert q[1..][|up[1..]|..] == q[|up|..];
    }
  }

  lemma GapLeaves(t: Tree, path: Path, g: string, at: nat, op: Op)
    requires Stands(t, path, true) && OpReady(t, op) && |op.path| <= |path|
    ensures OpReady(Graft(t, path, AddGap(ClearAt(t, path).value, g, at)), op)
  {
    if path <= op.path { assert op.path[|path|..] == []; }
    GraftStands(t, path, AddGap(ClearAt(t, path).value, g, at), op.path, op.Decoys?);
    GraftAligned(t, path, AddGap(ClearAt(t, path).value, g, at), op.path);
  }

  // ---- a further disclosure that nothing refers to yet

  lemma {:induction false} FitsMore(tab: Table, t: Tree, g: string, d: Disclosure)
    requires Fits(tab, t) && g !in Digests(t)
    ensures Fits(tab[g := d], t)
    decreases t
  {
    match t
    case Leaf(_) =>
    case ArrT(cells) => FitsMoreCells(tab, cells, g, d);
    case ObjT(ms, _, slots) => FitsMoreMembers(tab, ms, g, d); FitsMoreSlots(tab, slots, PlainMembers(ms).Keys, g, d);
  }

  lemma {:induction false} FitsMoreMembers(tab: Table, ms: Members, g: string, d: Disclosure)
    requires FitsMembers(tab, ms) && g !in MembersDigests(ms)
    ensures FitsMembers(tab[g := d], ms)
    decreases ms
  {
    match ms
    case NoMembers =>
    case Members(_, t, rest) => FitsMore(tab, t, g, d); FitsMoreMembers(tab, rest, g, d);
  }

  lemma {:induction false} FitsMoreCells(tab: Table, cells: Cells, g: string, d: Disclosure)
    requires FitsCells(tab, cells) && g !in CellsDigests(cells)
    ensures FitsCells(tab[g := d], cells)
    decreases cells
  {
    match cells
    case NoCells =>
    case Cells(head, tail) => FitsMoreCell(tab, head, g, d); FitsMoreCells(tab, tail, g, d);
  }

  lemma {:induction false} FitsMoreCell(tab: Table, c: Cell, g: string, d: Disclosure)
    requires FitsCell(tab, c) && g !in CellDigests(c)
    ensures FitsCell(tab[g := d], c)
    decreases c
  {
    match c
    case Shown(t) => FitsMore(tab, t, g, d);
    case Hidden(_, _, t) => FitsMore(tab, t, g, d);
    case Gap(_) =>
  }

  lemma {:induction false} FitsMoreSlots(tab: Table, slots: Cells, taken: set<string>, g: string, d: Disclosure)
    requires FitsSlots(tab, slots, taken) && g !in CellsDigests(slots)
    ensures FitsSlots(tab[g := d], slots, taken)
    decreases slots
  {
    match slots
    case NoCells =>
    case Cells(head, tail) =>
      FitsMoreCell(tab, head, g, d);
      FitsMoreSlots(tab, tail, if head.Hidden? then taken + {head.d.name.value} else taken, g, d);
  }

  // ---- a digest that has a disclosure is not a gap

  lemma {:induction false} DisclosedRevealed(tab: Table, t: Tree)
    requires Fits(tab, t)
    ensures Digests(t) * tab.Keys <= Revealed(t)
    decreases t
  {
    match t
    case Leaf(_) =>
    case ArrT(cells) => DisclosedRevealedCells(tab, cells);
    case ObjT(ms, _, slots) =>
      DisclosedRevealedMembers(tab, ms);
      DisclosedRevealedSlots(tab, slots, PlainMembers(ms).Keys);
  }

  lemma {:induction false} DisclosedRevealedMembers(tab: Table, ms: Members)
    requires FitsMembers(tab, ms)
    ensures MembersDigests(ms) * tab.Keys <= RevealedMembers(ms)
    decreases ms
  {
    match ms
    case NoMembers =>
    case Members(_, t, rest) => DisclosedRevealed(tab, t); DisclosedRevealedMembers(tab, rest);
  }

  lemma {:induction false} DisclosedRevealedCells(tab: Table, cells: Cells)
    requires FitsCells(tab, cells)
    ensures CellsDigests(cells) * tab.Keys <= RevealedCells(cells)
    decreases cells
  {
    match cells
    case NoCells =>
    case Cells(head, tail) => DisclosedRevealedCell(tab, head); DisclosedRevealedCells(tab, tail);
  }

  lemma {:induction false} DisclosedRevealedSlots(tab: Table, slots: Cells, taken: set<string>)
    requires FitsSlots(tab, slots, taken)
    ensures CellsDigests(slots) * tab.Keys <= RevealedCells(slots)
    decreases slots
  {
    match slots
    case NoCells =>
    case Cells(head, tail) =>
      DisclosedRevealedCell(tab, head);
      DisclosedRevealedSlots(tab, tail, if head.Hidden? then taken + {head.d.name.value} else taken);
  }

  lemma {:induction false} DisclosedRevealedCell(tab: Table, c: Cell)
    requires FitsCell(tab, c)
    ensures CellDigests(c) * tab.Keys <= RevealedCell(c)
    decreases c
  {
    match c
    case Shown(t) => DisclosedRevealed(tab, t);
    case Hidden(_, _, t) => DisclosedRevealed(tab, t);
    case Gap(_) =>
  }

  // ---- the run

  predicate NoRepeats(s: seq<string>) {
    forall i, j :: 0 <= i < j < |s| ==> s[i] != s[j]
  }

  function Elements(s: seq<string>): set<string> {
    set d | d in s
  }

  /** After any number of operations: the document is the wire form of a tree that still reads as the claims. */
  predicate Inv(src: Source, claims: map<string, Json>, b: Building, t: Tree) {
    && t.ObjT?
    && b.doc == Encode(t)
    && Plain(t) == Obj(claims)
    && Tabulate(src.hash, b.ds).Ok?
    && Fits(Tabulate(src.hash, b.ds).value, t) && Distinct(t)
    && Digests(t) == Elements(b.minted)
    && Tabulate(src.hash, b.ds).value.Keys <= Digests(t)
  }

  lemma {:induction false} RunMinted(src: Source, ops: seq<Op>, b: Building)
    ensures b.minted <= Run(src, ops, b).b.minted
    decreases |ops|, if ops != [] && ops[0].Decoys? then ops[0].count else 0
  {
    if ops != [] {
      match ops[0]
      case Hide(path) =>
        var o := HideAt(src, path, b);
        if o.Done? { RunMinted(src, ops[1..], o.b); }
      case Decoys(path, count) =>
        if count == 0 { RunMinted(src, ops[1..], b); }
        else {
          var o := DecoyAt(src, path, b);
          if o.Done? { RunMinted(src, [Decoys(path, count - 1)] + ops[1..], o.b); }
        }
    }
  }

  lemma FreshDigest(minted: seq<string>, g: string, all: seq<string>)
    requires minted + [g] <= all && NoRepeats(all)
    ensures g !in Elements(minted) && Elements(minted + [g]) == Elements(minted) + {g}
  {
    forall i | 0 <= i < |minted| ensures minted[i] != g {
      assert all[i] == minted[i] && all[|minted|] == g;
    }
  }

  lemma TabulateMore(hash: string -> string, ds: seq<Disclosure>, d: Disclosure)
    requires Tabulate(hash, ds).Ok? && hash(d.encoded) !in Tabulate(hash, ds).value
    ensures Tabulate(hash, ds + [d]) == Ok(Tabulate(hash, ds).value[hash(d.encoded) := d])
  {
    assert (ds + [d])[..|ds|] == ds;
  }

  /** One more place is hidden, and nothing else. */
  ghost predicate Hides(t: Tree, u: Tree, path: Path) {
    PlaceSet(u, []) == PlaceSet(t, []) + {path} && forall q :: GapsAt(u, [], q) == GapsAt(t, [], q)
  }

  /** One more decoy lies in the container at `path`, and nothing else is new. */
  ghost predicate Decoyed(t: Tree, u: Tree, path: Path) {
    && PlaceSet(u, []) == PlaceSet(t, [])
    && forall q :: GapsAt(u, [], q) == GapsAt(t, [], q) + if path == q then 1 else 0
  }

  /** One concealment: it does not panic, and the invariant holds for the tree with that child hidden. */
  lemma HideStep(src: Source, claims: map<string, Json>, path: Path, b: Building, t: Tree, all: seq<string>)
    requires Inv(src, claims, b, t) && OpReady(t, Hide(path))
    requires NoRepeats(all) && (HideAt(src, path, b).Done? ==> HideAt(src, path, b).b.minted <= all)
    ensures HideAt(src, path, b).Done?
    ensures var n := |path| - 1;
            var d := HideAt(src, path, b).b.ds[|b.ds|];
            && ClearAt(t, path[..n]).Some?
            && ClearChild(ClearAt(t, path[..n]).value, path[n]).Some?
            && Inv(src, claims, HideAt(src, path, b).b,
                   Graft(t, path[..n], HideChild(ClearAt(t, path[..n]).value, path[n], d, src.DigestOf(d))))
            && Hides(t, Graft(t, path[..n], HideChild(ClearAt(t, path[..n]).value, path[n], d, src.DigestOf(d))),
                     path)
  {
    var n, tab := |path| - 1, Tabulate(src.hash, b.ds).value;
    ClearAtUp(t, path);
    var up, s := path[..n], path[n];
    var par := ClearAt(t, up).value;
    ClearAtFits(tab, t, up);
    HideEncoded(tab, src, b.used, par, s);
    var (doc, d) := ConcealIn(src, b.used, Encode(par), s).value;
    var g := src.DigestOf(d);
    var after := HideChild(par, s, d, g);
    GraftEncoded(tab, t, up, after);
    FreshDigest(b.minted, g, all);
    TabulateMore(src.hash, b.ds, d);
    FitsMore(tab, t, g, d);
    ClearAtFits(tab[g := d], t, up);
    HideGrows(tab[g := d], par, s, d, g);
    GraftGrows(tab[g := d], t, up, after, g);
    GraftShape(t, up, after);
    HideGraftSets(t, path, d, g);
    forall q ensures GapsAt(Graft(t, up, after), [], q) == GapsAt(t, [], q) { HideGraftGaps(t, path, d, g, q); }
  }

  lemma {:induction false} ClearAtFits(tab: Table, t: Tree, path: Path)
    requires Fits(tab, t) && Distinct(t) && ClearAt(t, path).Some?
    ensures Fits(tab, ClearAt(t, path).value) && Distinct(ClearAt(t, path).value)
    ensures Digests(ClearAt(t, path).value) <= Digests(t)
    decreases |path|
  {
    if path != [] {
      ClearFits(tab, t, path[0]);
      ClearDistinct(t, path[0]);
      ClearAtFits(tab, ClearChild(t, path[0]).value, path[1..]);
    }
  }

  lemma GraftShape(t: Tree, path: Path, sub: Tree)
    requires ClearAt(t, path).Some? && t.ObjT? && (ClearAt(t, path).value.ObjT? ==> sub.ObjT?)
    ensures Graft(t, path, sub).ObjT?
  {
  }

  /** One decoy. */
  lemma DecoyStep(src: Source, claims: map<string, Json>, path: Path, b: Building, t: Tree, all: seq<string>)
    returns (at: nat)
    requires Inv(src, claims, b, t) && Stands(t, path, true) && Aligned(t, path)
    requires NoRepeats(all) && (DecoyAt(src, path, b).Done? ==> DecoyAt(src, path, b).b.minted <= all)
    ensures DecoyAt(src, path, b).Done?
    ensures Inv(src, claims, DecoyAt(src, path, b).b,
              Graft(t, path, AddGap(ClearAt(t, path).value, src.Decoy(b.used), at)))
    ensures Decoyed(t, Graft(t, path, AddGap(ClearAt(t, path).value, src.Decoy(b.used), at)), path)
  {
    var tab, sub, g := Tabulate(src.hash, b.ds).value, ClearAt(t, path).value, src.Decoy(b.used);
    ClearAtFits(tab, t, path);
    GapEncoded(tab, src, b.used, sub);
    at :| AddDecoy(src, b.used, Encode(sub)) == Some(Encode(AddGap(sub, g, at)));
    GraftEncoded(tab, t, path, AddGap(sub, g, at));
    FreshDigest(b.minted, g, all);
    AddGapGrows(tab, sub, g, at);
    GraftGrows(tab, t, path, AddGap(sub, g, at), g);
    GraftShape(t, path, AddGap(sub, g, at));
    GapGraftSets(t, path, g, at);
    forall q
      ensures GapsAt(Graft(t, path, AddGap(sub, g, at)), [], q) == GapsAt(t, [], q) + if path == q then 1 else 0
    {
      DecoyGraftGaps(t, path, g, at, q);
    }
  }

  /** What the remaining operations need, once the first is done. */
  predicate Pending(t: Tree, ops: seq<Op>) {
    Ready(t, ops) && Sorted(ops) && DistinctHides(ops)
  }

  lemma TailPending(t: Tree, ops: seq<Op>)
    requires ops != [] && Pending(t, ops)
    ensures Pending(t, ops[1..])
  {
    assert forall i :: 0 <= i < |ops[1..]| ==> ops[1..][i] == ops[i + 1];
  }

  lemma HidePending(t: Tree, ops: seq<Op>, path: Path, d: Disclosure, g: string)
    requires Pending(t, ops) && ops != [] && ops[0] == Hide(path)
    requires ClearAt(t, path[..|path| - 1]).Some?
               && ClearChild(ClearAt(t, path[..|path| - 1]).value, path[|path| - 1]).Some?
    ensures Pending(Graft(t, path[..|path| - 1],
              HideChild(ClearAt(t, path[..|path| - 1]).value, path[|path| - 1], d, g)), ops[1..])
  {
    TailPending(t, ops);
    var n := |path| - 1;
    var next := Graft(t, path[..n], HideChild(ClearAt(t, path[..n]).value, path[n], d, g));
    assert OpReady(t, ops[0]);
    forall i | 0 <= i < |ops[1..]| ensures OpReady(next, ops[1..][i]) {
      assert ops[1..][i] == ops[i + 1] && Earlier(ops[0], ops[i + 1]) && ops[0] != ops[i + 1];
      HideLeaves(t, path, d, g, ops[i + 1]);
    }
  }

  lemma DecoyPending(t: Tree, ops: seq<Op>, path: Path, count: nat, g: string, at: nat)
    requires Pending(t, ops) && ops != [] && ops[0] == Decoys(path, count) && count > 0
    requires Stands(t, path, true) && Aligned(t, path)
    ensures Pending(Graft(t, path, AddGap(ClearAt(t, path).value, g, at)), [Decoys(path, count - 1)] + ops[1..])
  {
    var rest := [Decoys(path, count - 1)] + ops[1..];
    var next := Graft(t, path, AddGap(ClearAt(t, path).value, g, at));
    assert forall i :: 0 < i < |rest| ==> rest[i] == ops[i] && Earlier(ops[0], ops[i]);
    forall i | 0 <= i < |rest| ensures OpReady(next, rest[i]) {
      GapLeaves(t, path, g, at, rest[i]);
    }
    forall i, j | 0 <= i < j < |rest| ensures Earlier(rest[i], rest[j]) {
      assert Earlier(ops[i], ops[j]);
    }
  }

  /** The places that the operations hide. */
  function HiddenBy(ops: seq<Op>): set<Path> {
    set op | op in ops && op.Hide? :: op.path
  }

  /** How many decoys the operations put into the container at `q`. */
  function DecoysFor(ops: seq<Op>, q: Path): nat {
    if ops == [] then 0
    else (if ops[0].Decoys? && ops[0].path == q then ops[0].count else 0) + DecoysFor(ops[1..], q)
  }

  /** From `t` to `r`: the places hidden, and the decoys added, are those of the operations. */
  ghost predicate Accounts(t: Tree, r: Tree, ops: seq<Op>) {
    && PlaceSet(r, []) == PlaceSet(t, []) + HiddenBy(ops)
    && forall q :: GapsAt(r, [], q) == GapsAt(t, [], q) + DecoysFor(ops, q)
  }

  lemma HiddenByFirst(ops: seq<Op>)
    requires ops != []
    ensures HiddenBy(ops) == HiddenBy(ops[1..]) + if ops[0].Hide? then {ops[0].path} else {}
  {
    assert ops == [ops[0]] + ops[1..];
  }

  lemma AccountHide(t: Tree, u: Tree, r: Tree, ops: seq<Op>)
    requires ops != [] && ops[0].Hide? && Hides(t, u, ops[0].path) && Accounts(u, r, ops[1..])
    ensures Accounts(t, r, ops)
  {
    HiddenByFirst(ops);
  }

  lemma AccountDecoy(t: Tree, u: Tree, r: Tree, ops: seq<Op>)
    requires ops != [] && ops[0].Decoys? && ops[0].count > 0 && Decoyed(t, u, ops[0].path)
    requires Accounts(u, r, [Decoys(ops[0].path, ops[0].count - 1)] + ops[1..])
    ensures Accounts(t, r, ops)
  {
    var rest := [Decoys(ops[0].path, ops[0].count - 1)] + ops[1..];
    HiddenByFirst(ops);
    HiddenByFirst(rest);
    assert rest[1..] == ops[1..];
  }

  lemma AccountNothing(t: Tree, r: Tree, ops: seq<Op>)
    requires ops != [] && ops[0].Decoys? && ops[0].count == 0 && Accounts(t, r, ops[1..])
    ensures Accounts(t, r, ops)
  {
    HiddenByFirst(ops);
  }

  /** All operations: none panics, and the result still reads as the claims. */
  lemma {:induction false} RunKeeps(src: Source, claims: map<string, Json>, ops: seq<Op>, b: Building, t: Tree)
    returns (r: Tree)
    requires Inv(src, claims, b, t) && Pending(t, ops)
    requires NoRepeats(Run(src, ops, b).b.minted)
    ensures Run(src, ops, b).Done? && Inv(src, claims, Run(src, ops, b).b, r)
    ensures Accounts(t, r, ops)
    decreases |ops|, if ops != [] && ops[0].Decoys? then ops[0].count else 0, 1
  {
    if ops == [] {
      r := t;
    } else {
      assert OpReady(t, ops[0]);
      match ops[0]
      case Hide(path) => r := RunKeepsHide(src, claims, ops, b, t);
      case Decoys(path, count) =>
        if count == 0 {
          TailPending(t, ops);
          r := RunKeeps(src, claims, ops[1..], b, t);
          AccountNothing(t, r, ops);
        } else {
          r := RunKeepsDecoy(src, claims, ops, b, t);
        }
    }
  }

  lemma {:induction false} RunKeepsHide(src: Source, claims: map<string, Json>, ops: seq<Op>, b: Building, t: Tree)
    returns (r: Tree)
    requires ops != [] && ops[0].Hide? && OpReady(t, ops[0])
    requires Inv(src, claims, b, t) && Pending(t, ops)
    requires NoRepeats(Run(src, ops, b).b.minted)
    ensures Run(src, ops, b).Done? && Inv(src, claims, Run(src, ops, b).b, r)
    ensures Accounts(t, r, ops)
    decreases |ops|, 0, 0
  {
    var path := ops[0].path;
    if HideAt(src, path, b).Done? { RunMinted(src, ops[1..], HideAt(src, path, b).b); }
    HideStep(src, claims, path, b, t, Run(src, ops, b).b.minted);
    var o := HideAt(src, path, b);
    var n, d := |path| - 1, o.b.ds[|b.ds|];
    HidePending(t, ops, path, d, src.DigestOf(d));
    var next := Graft(t, path[..n], HideChild(ClearAt(t, path[..n]).value, path[n], d, src.DigestOf(d)));
    r := RunKeeps(src, claims, ops[1..], o.b, next);
    AccountHide(t, next, r, ops);
  }

  lemma {:induction false} RunKeepsDecoy(src: Source, claims: map<string, Json>, ops: seq<Op>, b: Building, t: Tree)
    returns (r: Tree)
    requires ops != [] && ops[0].Decoys? && ops[0].count > 0 && OpReady(t, ops[0])
    requires Inv(src, claims, b, t) && Pending(t, ops)
    requires NoRepeats(Run(src, ops, b).b.minted)
    ensures Run(src, ops, b).Done? && Inv(src, claims, Run(src, ops, b).b, r)
    ensures Accounts(t, r, ops)
    decreases |ops|, ops[0].count, 0
  {
    var Decoys(path, count) := ops[0];
    var rest := [Decoys(path, count - 1)] + ops[1..];
    if DecoyAt(src, path, b).Done? { RunMinted(src, rest, DecoyAt(src, path, b).b); }
    var at := DecoyStep(src, claims, path, b, t, Run(src, ops, b).b.minted);
    DecoyPending(t, ops, path, count, src.Decoy(b.used), at);
    var next := Graft(t, path, AddGap(ClearAt(t, path).value, src.Decoy(b.used), at));
    r := RunKeeps(src, claims, rest, DecoyAt(src, path, b).b, next);
    AccountDecoy(t, next, r, ops);
  }

  // ---- sorting, and the whole of `build`

  lemma {:induction false} InsertOpSorts(op: Op, ops: seq<Op>)
    requires Sorted(ops) && DistinctHides(ops) && (op.Hide? ==> op !in ops)
    ensures Sorted(InsertOp(op, ops)) && DistinctHides(InsertOp(op, ops))
    ensures forall o :: o in InsertOp(op, ops) <==> o == op || o in ops
  {
    if ops == [] || !Earlier(ops[0], op) {
      assert forall i :: 0 < i < |[op] + ops| ==> ([op] + ops)[i] == ops[i - 1];
      forall i | 0 <= i < |ops| ensures Earlier(op, ops[i]) {
        assert i > 0 ==> Earlier(ops[0], ops[i]);
      }
    } else {
      assert forall i :: 0 <= i < |ops[1..]| ==> ops[1..][i] == ops[i + 1];
      InsertOpSorts(op, ops[1..]);
      var rest := InsertOp(op, ops[1..]);
      assert forall i :: 0 < i < |[ops[0]] + rest| ==> ([ops[0]] + rest)[i] == rest[i - 1];
      forall o | o in rest ensures Earlier(ops[0], o) && (ops[0].Hide? ==> o != ops[0]) {
        if o != op { var i :| 0 <= i < |ops[1..]| && ops[1..][i] == o; assert ops[i + 1] == o; }
      }
    }
  }

  lemma {:induction false} SortOpsSorts(ops: seq<Op>)
    requires DistinctHides(ops)
    ensures Sorted(SortOps(ops)) && DistinctHides(SortOps(ops))
    ensures forall o :: o in SortOps(ops) <==> o in ops
  {
    if ops != [] {
      var n := |ops| - 1;
      assert forall i :: 0 <= i < n ==> ops[..n][i] == ops[i];
      SortOpsSorts(ops[..n]);
      assert ops[n].Hide? ==> ops[n] !in ops[..n];
      InsertOpSorts(ops[n], SortOps(ops[..n]));
    }
  }

  lemma {:induction false} HideOpsReady(doc: Json, pointers: seq<string>)
    requires HideOps(doc, pointers).Ok?
    ensures var ops := HideOps(doc, pointers).value;
            && DistinctHides(ops)
            && forall i :: 0 <= i < |ops| ==> ops[i].Hide? && OpReady(ClearTree(doc), ops[i])
  {
    if pointers != [] {
      var n := |pointers| - 1;
      HideOpsReady(doc, pointers[..n]);
      ClearTreeAt(doc, Resolve(doc, pointers[n]).value);
      ClearAligned(doc, Resolve(doc, pointers[n]).value);
    }
  }

  lemma {:induction false} DecoyOpsReady(doc: Json, decoys: seq<(string, nat)>)
    requires DecoyOps(doc, decoys).Ok?
    ensures var ops := DecoyOps(doc, decoys).value;
            forall i :: 0 <= i < |ops| ==> ops[i].Decoys? && OpReady(ClearTree(doc), ops[i])
  {
    if decoys != [] {
      var n := |decoys| - 1;
      DecoyOpsReady(doc, decoys[..n]);
      var path := DecoyOps(doc, decoys).value[|DecoyOps(doc, decoys[..n]).value|].path;
      ClearTreeAt(doc, path);
      ClearAligned(doc, path);
    }
  }

  lemma BuildPending(doc: Json, concealed: seq<string>, decoys: seq<(string, nat)>)
    requires HideOps(doc, concealed).Ok? && DecoyOps(doc, decoys).Ok?
    ensures Pending(ClearTree(doc), SortOps(HideOps(doc, concealed).value + DecoyOps(doc, decoys).value))
  {
    HideOpsReady(doc, concealed);
    DecoyOpsReady(doc, decoys);
    var ops := HideOps(doc, concealed).value + DecoyOps(doc, decoys).value;
    SortOpsSorts(ops);
    forall i | 0 <= i < |SortOps(ops)| ensures OpReady(ClearTree(doc), SortOps(ops)[i]) {
      assert SortOps(ops)[i] in ops;
    }
  }

  /** Sorting and decoys do not change what is hidden. */
  lemma HiddenBySorted(doc: Json, concealed: seq<string>, decoys: seq<(string, nat)>)
    requires HideOps(doc, concealed).Ok? && DecoyOps(doc, decoys).Ok?
    ensures HiddenBy(SortOps(HideOps(doc, concealed).value + DecoyOps(doc, decoys).value)) ==
            HiddenBy(HideOps(doc, concealed).value)
  {
    HideOpsReady(doc, concealed);
    DecoyOpsReady(doc, decoys);
    var hides, decs := HideOps(doc, concealed).value, DecoyOps(doc, decoys).value;
    SortOpsSorts(hides + decs);
    assert forall op: Op :: op.Hide? ==> (op in SortOps(hides + decs) <==> op in hides);
  }

  /** What `build` leaves behind, as long as no two digests it made coincide: a tree that reads as the claims. */
  lemma BuildReads(src: Source, claims: map<string, Json>, concealed: seq<string>, decoys: seq<(string, nat)>)
    returns (t: Tree)
    requires Build(src, claims, concealed, decoys).Ok?
    requires NoRepeats(Build(src, claims, concealed, decoys).value.b.minted)
    ensures var o := Build(src, claims, concealed, decoys).value;
            && o.Done?
            && Inv(src, claims, o.b, t)
            && Readable(src.hash, o.b.doc.fields, o.b.ds, t)
    ensures Accounts(ClearTree(Obj(claims)), t,
                     SortOps(HideOps(Obj(claims), concealed).value + DecoyOps(Obj(claims), decoys).value))
  {
    var doc := Obj(claims);
    ClearTreeReads(doc);
    BuildPending(doc, concealed, decoys);
    t := RunKeeps(src, claims, SortOps(HideOps(doc, concealed).value + DecoyOps(doc, decoys).value),
                  Building(doc, [], [], 0), ClearTree(doc));
    var tab := Tabulate(src.hash, Build(src, claims, concealed, decoys).value.b.ds).value;
    PlacesRevealed(tab, t, []);
    DisclosedRevealed(tab, t);
    PlacesAreDisclosed(tab, t, []);
  }
}
