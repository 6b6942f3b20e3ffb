/**
 What is read when disclosures are withheld, said without trees: the claims, with the places of the
 withheld disclosures cut out (crates/sdjwt/src/process.rs, section 7.1 of RFC 9901).
 */
module Cutting {
  import opened Prelude
  import opened Json
  import opened Processing
  import opened SdTree
  import opened Walk
  import opened Landing
  import opened Restriction
  import opened Selection
  import opened Minimality

  /** The value at `at`, without the places in `gone`; array elements that follow one of them move up. */
  function Cut(v: Json, at: Path, gone: set<Path>): Json
    decreases v, 0
  {
    match v
    case Obj(fields) =>
      Obj(map k | k in fields && at + [Key(k)] !in gone :: Cut(fields[k], at + [Key(k)], gone))
    case Arr(items) => Arr(CutItems(items, 0, at, gone))
    case _ => v
  }

  function CutItems(items: seq<Json>, i: nat, at: Path, gone: set<Path>): seq<Json>
    decreases items
  {
    if items == [] then []
    else
      (if at + [Index(i)] in gone then [] else [Cut(items[0], at + [Index(i)], gone)])
      + CutItems(items[1..], i + 1, at, gone)
  }

  // ---- where the rest goes

  /** How many of the first `i` elements of the array at `at` stay. */
  function Staying(at: Path, i: nat, gone: set<Path>): nat {
    if i == 0 then 0 else Staying(at, i - 1, gone) + if at + [Index(i - 1)] in gone then 0 else 1
  }

  /** The place `w` once array indices have closed up. */
  function ClosedUp(at: Path, w: Path, gone: set<Path>): Path
    decreases |w|
  {
    if w == [] then []
    else
      var s := if w[0].Key? then w[0] else Index(Staying(at, w[0].i, gone));
      [s] + ClosedUp(at + [w[0]], w[1..], gone)
  }

  /** Neither `at + w` nor anything on the way there from `at` is gone. */
  predicate Stays(at: Path, w: Path, gone: set<Path>)
    decreases |w|
  {
    w == [] || (at + [w[0]] !in gone && Stays(at + [w[0]], w[1..], gone))
  }

  lemma {:induction false} StayingFrom(at: Path, i: nat, k: nat, gone: set<Path>)
    requires i <= k
    ensures Staying(at, i, gone) <= Staying(at, k, gone)
    ensures i < k && at + [Index(i)] !in gone ==> Staying(at, i, gone) < Staying(at, k, gone)
  {
    if i < k { StayingFrom(at, i, k - 1, gone); }
  }

  lemma {:induction false} ItemStays(items: seq<Json>, i: nat, k: nat, at: Path, gone: set<Path>)
    requires i <= k < i + |items| && at + [Index(k)] !in gone
    ensures Staying(at, i, gone) <= Staying(at, k, gone)
    ensures var j := Staying(at, k, gone) - Staying(at, i, gone);
            && j < |CutItems(items, i, at, gone)|
            && CutItems(items, i, at, gone)[j] == Cut(items[k - i], at + [Index(k)], gone)
    decreases items
  {
    StayingFrom(at, i, k, gone);
    if i < k {
      var first := if at + [Index(i)] in gone then [] else [Cut(items[0], at + [Index(i)], gone)];
      var rest := CutItems(items[1..], i + 1, at, gone);
      assert CutItems(items, i, at, gone) == first + rest;
      assert Staying(at, i + 1, gone) == Staying(at, i, gone) + |first|;
      ItemStays(items[1..], i + 1, k, at, gone);
      assert items[1..][k - (i + 1)] == items[k - i];
      assert (first + rest)[|first| + (Staying(at, k, gone) - Staying(at, i + 1, gone))] ==
             rest[Staying(at, k, gone) - Staying(at, i + 1, gone)];
    }
  }

  lemma {:induction false} ItemComes(items: seq<Json>, i: nat, j: nat, at: Path, gone: set<Path>) returns (k: nat)
    requires j < |CutItems(items, i, at, gone)|
    ensures i <= k < i + |items| && at + [Index(k)] !in gone && Staying(at, k, gone) == Staying(at, i, gone) + j
    decreases items
  {
    if at + [Index(i)] in gone {
      k := ItemComes(items[1..], i + 1, j, at, gone);
    } else if j > 0 {
      k := ItemComes(items[1..], i + 1, j - 1, at, gone);
    } else {
      k := i;
    }
  }

  /** What is not gone is found, cut, at its place with the indices closed up. */
  lemma {:induction false} CutFinds(v: Json, at: Path, w: Path, gone: set<Path>)
    requires Lookup(v, w).Some? && Stays(at, w, gone)
    ensures Lookup(Cut(v, at, gone), ClosedUp(at, w, gone)) == Some(Cut(Lookup(v, w).value, at + w, gone))
    decreases |w|
  {
    if w == [] {
      assert at + w == at;
    } else {
      var child := if v.Obj? then v.fields[w[0].name] else v.items[w[0].i];
      if v.Arr? { ItemStays(v.items, 0, w[0].i, at, gone); }
      CutFinds(child, at + [w[0]], w[1..], gone);
      assert at + [w[0]] + w[1..] == at + w;
      LookupStep(Cut(v, at, gone), ClosedUp(at, w, gone)[0], ClosedUp(at + [w[0]], w[1..], gone));
    }
  }

  /** And everything found comes from a place that is not gone. */
  lemma {:induction false} CutComes(v: Json, at: Path, u: Path, gone: set<Path>) returns (w: Path)
    requires Lookup(Cut(v, at, gone), u).Some?
    ensures Lookup(v, w).Some? && Stays(at, w, gone) && ClosedUp(at, w, gone) == u
    decreases |u|
  {
    if u == [] {
      w := [];
    } else {
      var s := u[0];
      if v.Arr? {
        var k := ItemComes(v.items, 0, u[0].i, at, gone);
        ItemStays(v.items, 0, k, at, gone);
        s := Index(k);
      }
      var child := if v.Obj? then v.fields[s.name] else v.items[s.i];
      var rest := CutComes(child, at + [s], u[1..], gone);
      w := [s] + rest;
      assert w[1..] == rest && u == [u[0]] + u[1..];
      LookupStep(v, s, rest);
    }
  }

  // ---- withholding is cutting

  /** A disclosure's place is gone exactly when the disclosure is withheld. */
  predicate Withheld(all: map<string, Path>, keep: set<string>, gone: set<Path>) {
    forall d :: d in all ==> (all[d] in gone <==> d !in keep)
  }

  /** Nothing is gone strictly below `path` but places of disclosures in `places`. */
  predicate Only(places: map<string, Path>, path: Path, gone: set<Path>) {
    forall p :: p in gone && path < p ==> p in places.Values
  }

  /** The same for the children at one kind of segment. */
  predicate OnlyKeys(places: map<string, Path>, names: set<string>, path: Path, gone: set<Path>) {
    forall p :: p in gone && path < p && p[|path|].Key? && p[|path|].name in names ==> p in places.Values
  }

  predicate OnlyFrom(places: map<string, Path>, base: nat, path: Path, gone: set<Path>) {
    forall p :: p in gone && path < p && p[|path|].Index? && p[|path|].i >= base ==> p in places.Values
  }

  /** Places start with the path of the part they are in. */
  lemma StepOf(path: Path, s: Segment, p: Path)
    requires path + [s] <= p
    ensures path < p && p[|path|] == s
  {
    assert (path + [s])[|path|] == s;
  }

  lemma StrictlyBelow(tab: Table, t: Tree, path: Path, d: string)
    requires Fits(tab, t) && d in Places(t, path)
    ensures path < Places(t, path)[d]
  {
    var rel, sub := Lands(tab, t, path, d);
  }

  lemma {:induction false} RestrictCuts(tab: Table, t: Tree, path: Path, all: map<string, Path>, keep: set<string>,
                                        gone: set<Path>)
    requires Fits(tab, t) && Distinct(t) && Agrees(Places(t, path), all)
    requires Withheld(all, keep, gone) && Only(Places(t, path), path, gone)
    ensures Plain(Restrict(t, keep)) == Cut(Plain(t), path, gone)
    decreases t
  {
    match t
    case Leaf(_) =>
    case ArrT(cells) => RestrictCutsCells(tab, cells, 0, path, all, keep, gone);
    case ObjT(ms, _, slots) =>
      var taken := PlainMembers(ms).Keys;
      NamesUnique(ms);
      ObjectPlacesDisjoint(tab, ms, slots, taken, path);
      SlotNamesFresh(tab, slots, taken);
      OnlyParts(tab, ms, slots, path, gone);
      RestrictCutsMembers(tab, ms, path, all, keep, gone);
      RestrictCutsSlots(tab, slots, taken, path, all, keep, gone);
      RestrictNames(ms, keep);
      CutJoin(PlainMembers(ms), PlainSlots(slots), PlainMembers(RestrictMembers(ms, keep)),
            PlainSlots(RestrictCells(slots, keep)), path, gone);
      CutIsAll(PlainMembers(ms) + PlainSlots(slots),
            PlainMembers(RestrictMembers(ms, keep)) + PlainSlots(RestrictCells(slots, keep)), path, gone);
  }

  /** What is gone below an object is gone below its members or below its slots. */
  lemma OnlyParts(tab: Table, ms: Members, slots: Cells, path: Path, gone: set<Path>)
    requires FitsMembers(tab, ms) && Unique(ms) && FitsSlots(tab, slots, PlainMembers(ms).Keys)
    requires PlainSlots(slots).Keys !! PlainMembers(ms).Keys
    requires Only(MemberPlaces(ms, path) + SlotPlaces(slots, path), path, gone)
    requires MemberPlaces(ms, path).Keys !! SlotPlaces(slots, path).Keys
    ensures OnlyKeys(MemberPlaces(ms, path), PlainMembers(ms).Keys, path, gone)
    ensures OnlyKeys(SlotPlaces(slots, path), PlainSlots(slots).Keys, path, gone)
  {
    var both := MemberPlaces(ms, path) + SlotPlaces(slots, path);
    forall p | p in gone && path < p && p[|path|].Key?
      ensures p[|path|].name in PlainMembers(ms) ==> p in MemberPlaces(ms, path).Values
      ensures p[|path|].name in PlainSlots(slots) ==> p in SlotPlaces(slots, path).Values
    {
      var d :| d in both && both[d] == p;
      if d in SlotPlaces(slots, path) {
        var name := ThroughSlots(tab, slots, PlainMembers(ms).Keys, path, d);
        CellPlaceBelow(SlotNamed(slots, name).value, path + [Key(name)], d);
        SlotFound(tab, slots, PlainMembers(ms).Keys, name);
        StepOf(path, Key(name), p);
      } else {
        var name := ThroughMembers(ms, path, d);
        PlacesBelow(MemberNamed(ms, name).value, path + [Key(name)], d);
        MemberFound(ms, name);
        StepOf(path, Key(name), p);
      }
    }
  }

  /** Every member of `a` is, cut, in `b`, unless its own place is gone. */
  predicate CutInto(a: map<string, Json>, b: map<string, Json>, path: Path, gone: set<Path>) {
    && b.Keys <= a.Keys
    && forall k :: k in a ==>
         && (k in b <==> path + [Key(k)] !in gone)
         && (k in b ==> b[k] == Cut(a[k], path + [Key(k)], gone))
  }

  lemma CutJoin(a: map<string, Json>, b: map<string, Json>, c: map<string, Json>, d: map<string, Json>, path: Path,
                gone: set<Path>)
    requires CutInto(a, c, path, gone) && CutInto(b, d, path, gone) && a.Keys !! b.Keys
    ensures CutInto(a + b, c + d, path, gone)
  {
  }

  lemma CutIsAll(a: map<string, Json>, b: map<string, Json>, path: Path, gone: set<Path>)
    requires CutInto(a, b, path, gone)
    ensures Cut(Obj(a), path, gone) == Obj(b)
  {
  }

  /** The first of some members, and the others, each have what is gone below them to themselves. */
  lemma OnlyHead(tab: Table, name: string, t: Tree, rest: Members, path: Path, gone: set<Path>)
    requires Fits(tab, t) && FitsMembers(tab, rest) && Unique(rest) && name !in PlainMembers(rest)
    requires OnlyKeys(Places(t, path + [Key(name)]) + MemberPlaces(rest, path), {name} + PlainMembers(rest).Keys,
                      path, gone)
    ensures path + [Key(name)] !in gone && Only(Places(t, path + [Key(name)]), path + [Key(name)], gone)
    ensures OnlyKeys(MemberPlaces(rest, path), PlainMembers(rest).Keys, path, gone)
  {
    var at := path + [Key(name)];
    var places := Places(t, at) + MemberPlaces(rest, path);
    forall p | p in gone && path < p && p[|path|].Key? && p[|path|].name in {name} + PlainMembers(rest).Keys
      ensures p[|path|].name == name ==> at < p && p in Places(t, at).Values
      ensures p[|path|].name != name ==> p in MemberPlaces(rest, path).Values
    {
      var d :| d in places && places[d] == p;
      if d in MemberPlaces(rest, path) {
        var other := ThroughMembers(rest, path, d);
        PlacesBelow(MemberNamed(rest, other).value, path + [Key(other)], d);
        MemberFound(rest, other);
        StepOf(path, Key(other), p);
      } else {
        StrictlyBelow(tab, t, at, d);
        StepOf(path, Key(name), p);
      }
    }
    if at in gone { StepOf(path, Key(name), at); }
    forall p | p in gone && at < p ensures p in Places(t, at).Values { StepOf(path, Key(name), p); }
  }

  lemma {:induction false} RestrictCutsMembers(tab: Table, ms: Members, path: Path, all: map<string, Path>,
                                               keep: set<string>, gone: set<Path>)
    requires FitsMembers(tab, ms) && DistinctMembers(ms) && Unique(ms) && Agrees(MemberPlaces(ms, path), all)
    requires Withheld(all, keep, gone) && OnlyKeys(MemberPlaces(ms, path), PlainMembers(ms).Keys, path, gone)
    ensures CutInto(PlainMembers(ms), PlainMembers(RestrictMembers(ms, keep)), path, gone)
    decreases ms
  {
    match ms
    case NoMembers =>
    case Members(name, t, rest) =>
      var at := path + [Key(name)];
      PlacesRevealed(tab, t, at);
      PlacesRevealedMembers(tab, rest, path);
      RevealedAreDigests(t);
      RevealedMembersAreDigests(rest);
      assert PlainMembers(ms).Keys == {name} + PlainMembers(rest).Keys;
      OnlyHead(tab, name, t, rest, path, gone);
      RestrictCuts(tab, t, at, all, keep, gone);
      RestrictCutsMembers(tab, rest, path, all, keep, gone);
      CutJoin(map[name := Plain(t)], PlainMembers(rest), map[name := Plain(Restrict(t, keep))],
            PlainMembers(RestrictMembers(rest, keep)), path, gone);
  }

  /** Nothing is gone at or below `at` but places of disclosures in `places`. */
  predicate OnlyAt(places: map<string, Path>, at: Path, gone: set<Path>) {
    forall p :: p in gone && at <= p ==> p in places.Values
  }

  lemma {:induction false} RestrictCutsCell(tab: Table, c: Cell, at: Path, all: map<string, Path>, keep: set<string>,
                                            gone: set<Path>)
    requires !c.Gap? && FitsCell(tab, c) && DistinctCell(c) && Agrees(CellPlace(c, at), all)
    requires Withheld(all, keep, gone) && OnlyAt(CellPlace(c, at), at, gone)
    ensures PlainCell(RestrictCell(c, keep)) == if at in gone then [] else [Cut(Plain(c.t), at, gone)]
    ensures at in gone <==> c.Hidden? && c.digest !in keep
    decreases c, 0
  {
    var t := c.t;
    PlacesRevealed(tab, t, at);
    RevealedAreDigests(t);
    assert Agrees(Places(t, at), all) by {
      assert forall d :: d in Places(t, at) ==> CellPlace(c, at)[d] == Places(t, at)[d];
    }
    forall p | p in gone && at < p ensures p in Places(t, at).Values {
      var d :| d in CellPlace(c, at) && CellPlace(c, at)[d] == p;
    }
    if c.Shown? {
      if at in gone {
        var d :| d in Places(t, at) && Places(t, at)[d] == at;
        StrictlyBelow(tab, t, at, d);
      }
    } else {
      assert c.digest in CellPlace(c, at) && CellPlace(c, at)[c.digest] == at;
    }
    RestrictCuts(tab, t, at, all, keep, gone);
  }

  /** The first of some slots, and the others, each have what is gone below them to themselves. */
  lemma OnlyFirstSlot(tab: Table, head: Cell, tail: Cells, taken: set<string>, path: Path, gone: set<Path>)
    requires FitsSlots(tab, Cells(head, tail), taken) && PlainSlot(head).Keys !! PlainSlots(tail).Keys
    requires OnlyKeys(SlotPlace(head, path) + SlotPlaces(tail, path), PlainSlot(head).Keys + PlainSlots(tail).Keys,
                      path, gone)
    ensures head.Hidden? ==> OnlyAt(SlotPlace(head, path), path + [Key(head.d.name.value)], gone)
    ensures OnlyKeys(SlotPlaces(tail, path), PlainSlots(tail).Keys, path, gone)
  {
    var places := SlotPlace(head, path) + SlotPlaces(tail, path);
    var more := if head.Hidden? then taken + {head.d.name.value} else taken;
    forall p | p in gone && path < p && p[|path|].Key?
      ensures p[|path|].name in PlainSlots(tail) ==> p in SlotPlaces(tail, path).Values
      ensures p[|path|].name in PlainSlot(head) ==> p in SlotPlace(head, path).Values
    {
      if p[|path|].name in PlainSlot(head).Keys + PlainSlots(tail).Keys {
        var d :| d in places && places[d] == p;
        if d in SlotPlaces(tail, path) {
          var name := ThroughSlots(tab, tail, more, path, d);
          CellPlaceBelow(SlotNamed(tail, name).value, path + [Key(name)], d);
          SlotFound(tab, tail, more, name);
          StepOf(path, Key(name), p);
        } else {
          CellPlaceBelow(head, path + [Key(head.d.name.value)], d);
          StepOf(path, Key(head.d.name.value), p);
        }
      }
    }
    if head.Hidden? {
      forall p | p in gone && path + [Key(head.d.name.value)] <= p ensures p in SlotPlace(head, path).Values {
        StepOf(path, Key(head.d.name.value), p);
      }
    }
  }

  lemma {:induction false} RestrictCutsSlots(tab: Table, slots: Cells, taken: set<string>, path: Path,
                                             all: map<string, Path>, keep: set<string>, gone: set<Path>)
    requires FitsSlots(tab, slots, taken) && DistinctCells(slots) && Agrees(SlotPlaces(slots, path), all)
    requires Withheld(all, keep, gone) && OnlyKeys(SlotPlaces(slots, path), PlainSlots(slots).Keys, path, gone)
    ensures CutInto(PlainSlots(slots), PlainSlots(RestrictCells(slots, keep)), path, gone)
    decreases slots
  {
    match slots
    case NoCells =>
    case Cells(head, tail) =>
      var more := if head.Hidden? then taken + {head.d.name.value} else taken;
      SlotNamesFresh(tab, tail, more);
      PlacesRevealedSlots(tab, tail, more, path);
      RevealedCellIsDigests(head);
      RevealedCellsAreDigests(tail);
      assert PlainSlots(slots).Keys == PlainSlot(head).Keys + PlainSlots(tail).Keys;
      OnlyFirstSlot(tab, head, tail, taken, path, gone);
      RestrictCutsSlots(tab, tail, more, path, all, keep, gone);
      if head.Hidden? {
        PlacesRevealedCell(tab, head, path + [Key(head.d.name.value)]);
        RestrictCutsSlot(tab, head, path, all, keep, gone);
      }
      CutJoin(PlainSlot(head), PlainSlots(tail), PlainSlot(RestrictCell(head, keep)),
            PlainSlots(RestrictCells(tail, keep)), path, gone);
  }

  lemma RestrictCutsSlot(tab: Table, c: Cell, path: Path, all: map<string, Path>, keep: set<string>, gone: set<Path>)
    requires c.Hidden? && c.d.name.Some? && FitsCell(tab, c) && DistinctCell(c) && Agrees(SlotPlace(c, path), all)
    requires Withheld(all, keep, gone) && OnlyAt(SlotPlace(c, path), path + [Key(c.d.name.value)], gone)
    ensures CutInto(PlainSlot(c), PlainSlot(RestrictCell(c, keep)), path, gone)
    decreases c, 1
  {
    var at := path + [Key(c.d.name.value)];
    RestrictCutsCell(tab, c, at, all, keep, gone);
    assert at !in gone ==> [Plain(RestrictCell(c, keep).t)] == [Cut(Plain(c.t), at, gone)];
  }

  /** The first of some elements, and the others, each have what is gone below them to themselves. */
  lemma OnlyFirstCell(tab: Table, head: Cell, tail: Cells, base: nat, path: Path, gone: set<Path>)
    requires FitsCells(tab, Cells(head, tail))
    requires OnlyFrom(CellPlaces(Cells(head, tail), base, path), base, path, gone)
    ensures !head.Gap? ==> OnlyAt(CellPlace(head, path + [Index(base)]), path + [Index(base)], gone)
    ensures var next := if head.Gap? then base else base + 1;
            OnlyFrom(CellPlaces(tail, next, path), next, path, gone)
  {
    var next := if head.Gap? then base else base + 1;
    var places, at := CellPlaces(Cells(head, tail), base, path), path + [Index(base)];
    forall p | p in gone && path < p && p[|path|].Index? && p[|path|].i >= base
      ensures p[|path|].i >= next ==> p in CellPlaces(tail, next, path).Values
      ensures p[|path|].i < next ==> p in CellPlace(head, at).Values
    {
      var d :| d in places && places[d] == p;
      if d in CellPlaces(tail, next, path) {
        var k := ThroughCells(tail, next, path, d);
        CellPlaceBelow(VisibleAt(tail, k).value, path + [Index(next + k)], d);
        StepOf(path, Index(next + k), p);
      } else {
        CellPlaceBelow(head, at, d);
        StepOf(path, Index(base), p);
      }
    }
    if !head.Gap? {
      forall p | p in gone && at <= p ensures p in CellPlace(head, at).Values { StepOf(path, Index(base), p); }
    }
  }

  lemma {:induction false} RestrictCutsCells(tab: Table, cells: Cells, base: nat, path: Path, all: map<string, Path>,
                                             keep: set<string>, gone: set<Path>)
    requires FitsCells(tab, cells) && DistinctCells(cells) && Agrees(CellPlaces(cells, base, path), all)
    requires Withheld(all, keep, gone) && OnlyFrom(CellPlaces(cells, base, path), base, path, gone)
    ensures PlainCells(RestrictCells(cells, keep)) == CutItems(PlainCells(cells), base, path, gone)
    decreases cells
  {
    match cells
    case NoCells =>
    case Cells(head, tail) =>
      var next := if head.Gap? then base else base + 1;
      PlacesRevealedCell(tab, head, path + [Index(base)]);
      PlacesRevealedCells(tab, tail, next, path);
      RevealedCellIsDigests(head);
      RevealedCellsAreDigests(tail);
      OnlyFirstCell(tab, head, tail, base, path, gone);
      RestrictCutsCells(tab, tail, next, path, all, keep, gone);
      if !head.Gap? {
        RestrictCutsCell(tab, head, path + [Index(base)], all, keep, gone);
        assert PlainCells(cells)[1..] == PlainCells(tail) && PlainCells(cells)[0] == Plain(head.t);
      } else {
        assert PlainCells(cells) == PlainCells(tail);
      }
  }

  // ---- no two disclosures have one place

  lemma {:induction false} PlacesInjective(tab: Table, t: Tree, path: Path, d: string, e: string)
    requires Fits(tab, t) && d in Places(t, path) && e in Places(t, path)
    requires Places(t, path)[d] == Places(t, path)[e]
    ensures d == e
    decreases if |path| < |Places(t, path)[d]| then |Places(t, path)[d]| - |path| else 0
  {
    var p := Places(t, path)[d];
    var s := Through(tab, t, path, d);
    var r := Through(tab, t, path, e);
    CellPlaceBelow(Child(t, s).value, path + [s], d);
    CellPlaceBelow(Child(t, r).value, path + [r], e);
    StepOf(path, s, p);
    StepOf(path, r, p);
    var sub, at := Child(t, s).value.t, path + [s];
    ChildFits(tab, t, s);
    if d in Places(sub, at) { StrictlyBelow(tab, sub, at, d); }
    if e in Places(sub, at) { StrictlyBelow(tab, sub, at, e); }
    if d in Places(sub, at) && e in Places(sub, at) { PlacesInjective(tab, sub, at, d, e); }
  }

  // ---- the theorem

  /** The places of the disclosures that are not in `some`. */
  function PlacesOf(ds: seq<Disclosure>, paths: seq<Path>, some: seq<Disclosure>): set<Path>
    requires |ds| == |paths|
  {
    set i | 0 <= i < |ds| && ds[i] !in some :: paths[i]
  }

  /** With nothing disclosed, a token that processes still does. */
  lemma NothingDisclosed(payload: map<string, Json>, ds: seq<Disclosure>, hash: string -> string)
    requires Process(payload, ds, hash).Ok?
    ensures Process(payload, [], hash).Ok?
  {
    var t := ReadingOf(hash, payload, ds);
    var tab, r := Tabulate(hash, ds).value, Restrict(t, {});
    RestrictFits(tab, map[], t, {});
    RestrictEncode(t, {});
    RestrictDistinct(t, {});
    PlacesAreDisclosed(map[], r, []);
    assert Readable(hash, payload, [], r);
    ProcessReads(hash, payload, [], r);
  }

  lemma KeptExact(hash: string -> string, ds: seq<Disclosure>, some: seq<Disclosure>, i: nat)
    requires Tabulate(hash, ds).Ok? && Tabulate(hash, some).Ok? && (forall d :: d in some ==> d in ds) && i < |ds|
    ensures hash(ds[i].encoded) in Tabulate(hash, some).value <==> ds[i] in some
  {
    TabulateExact(hash, ds);
    if ds[i] in some {
      var j :| 0 <= j < |some| && some[j] == ds[i];
      TabulateFinds(hash, some, j);
    }
    if hash(ds[i].encoded) in Tabulate(hash, some).value {
      var j := FoundIn(hash, some, hash(ds[i].encoded));
      assert some[j] in ds;
      var k :| 0 <= k < |ds| && ds[k] == some[j];
      assert k == i;
    }
  }

  lemma PlacesWithheld(hash: string -> string, payload: map<string, Json>, ds: seq<Disclosure>, some: seq<Disclosure>,
                       t: Tree, paths: seq<Path>)
    requires Readable(hash, payload, ds, t) && Tabulate(hash, some).Ok? && forall d :: d in some ==> d in ds
    requires |paths| == |ds| && forall i :: 0 <= i < |ds| ==>
               && hash(ds[i].encoded) in Places(t, []) && paths[i] == Places(t, [])[hash(ds[i].encoded)]
    ensures Withheld(Places(t, []), Tabulate(hash, some).value.Keys, PlacesOf(ds, paths, some))
    ensures Only(Places(t, []), [], PlacesOf(ds, paths, some))
  {
    var all, gone := Places(t, []), PlacesOf(ds, paths, some);
    forall g | g in all ensures all[g] in gone <==> g !in Tabulate(hash, some).value {
      var i := FoundIn(hash, ds, g);
      KeptExact(hash, ds, some, i);
      if all[g] in gone {
        var j :| 0 <= j < |ds| && ds[j] !in some && paths[j] == all[g];
        PlacesInjective(Tabulate(hash, ds).value, t, [], g, hash(ds[j].encoded));
        KeptExact(hash, ds, some, j);
      }
    }
  }

  lemma CutKeepsCutting(fields: map<string, Json>, name: string, gone: set<Path>)
    ensures Cut(Obj(fields), [], gone).fields - {name} == Cut(Obj(fields - {name}), [], gone).fields
  {
  }

  lemma ReadingCut(hash: string -> string, payload: map<string, Json>, ds: seq<Disclosure>, some: seq<Disclosure>,
                   t: Tree, paths: seq<Path>)
    requires Readable(hash, payload, ds, t) && Tabulate(hash, some).Ok? && forall d :: d in some ==> d in ds
    requires |paths| == |ds| && forall i :: 0 <= i < |ds| ==>
               && hash(ds[i].encoded) in Places(t, []) && paths[i] == Places(t, [])[hash(ds[i].encoded)]
    ensures Plain(Restrict(t, Tabulate(hash, some).value.Keys)) == Cut(Plain(t), [], PlacesOf(ds, paths, some))
  {
    PlacesWithheld(hash, payload, ds, some, t, paths);
    RestrictCuts(Tabulate(hash, ds).value, t, [], Places(t, []), Tabulate(hash, some).value.Keys,
          PlacesOf(ds, paths, some));
  }

  /** Withholding disclosures cuts their places out of the claims, and does nothing else. */
  lemma WithholdingCuts(payload: map<string, Json>, ds: seq<Disclosure>, hash: string -> string,
                        some: seq<Disclosure>)
    requires Process(payload, ds, hash).Ok? && Process(payload, some, hash).Ok? && forall d :: d in some ==> d in ds
    ensures var full := Process(payload, ds, hash).value;
            Obj(Process(payload, some, hash).value.claims) ==
            Cut(Obj(full.claims), [], PlacesOf(ds, full.paths, some))
  {
    var t := ReadingOf(hash, payload, ds);
    var full := Process(payload, ds, hash).value;
    ProcessReads(hash, payload, ds, t);
    SubsetReads(payload, ds, hash, some, t);
    ReadingCut(hash, payload, ds, some, t, full.paths);
    CutKeepsCutting(Plain(t).fields, "_sd_alg", PlacesOf(ds, full.paths, some));
  }
}
