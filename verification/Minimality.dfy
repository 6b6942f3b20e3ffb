/**
 `select` keeps only what is needed (crates/sdjwt/src/sdjwt.rs): whatever subset of the
 disclosures still processes and still shows every wanted claim with its value
 contains the disclosures that `select` keeps.
 */
module Minimality {
  import opened Prelude
  import opened Json
  import opened Processing
  import opened SdTree
  import opened Walk
  import opened Landing
  import opened Restriction
  import opened Selection
  import opened Pointer

  // ---- a value that stays the same keeps everything inside

  lemma {:induction false} SameReading(tab: Table, t: Tree, keep: set<string>)
    requires Fits(tab, t) && Plain(Restrict(t, keep)) == Plain(t)
    ensures Revealed(t) <= keep
    decreases t
  {
    match t
    case Leaf(_) =>
    case ArrT(cells) => SameCells(tab, cells, keep);
    case ObjT(ms, _, slots) =>
      NamesUnique(ms);
      SlotNamesFresh(tab, slots, PlainMembers(ms).Keys);
      FewerSlots(slots, keep);
      RestrictNames(ms, keep);
      SplitUnion(PlainMembers(RestrictMembers(ms, keep)), PlainSlots(RestrictCells(slots, keep)), PlainMembers(ms),
            PlainSlots(slots));
      SameMembers(tab, ms, keep);
      SameSlots(tab, slots, PlainMembers(ms).Keys, keep);
  }

  lemma SplitUnion<K, V>(a: map<K, V>, b: map<K, V>, c: map<K, V>, d: map<K, V>)
    requires a + b == c + d && a.Keys == c.Keys && b.Keys <= d.Keys && c.Keys !! d.Keys
    ensures a == c && b == d
  {
    forall k | k in a ensures a[k] == c[k] { assert (a + b)[k] == (c + d)[k]; }
    forall k | k in d ensures k in b && b[k] == d[k] {
      assert k in c + d && k in a + b;
      assert (a + b)[k] == (c + d)[k];
    }
  }

  lemma {:induction false} SameMembers(tab: Table, ms: Members, keep: set<string>)
    requires FitsMembers(tab, ms) && Unique(ms) && PlainMembers(RestrictMembers(ms, keep)) == PlainMembers(ms)
    ensures RevealedMembers(ms) <= keep
    decreases ms
  {
    match ms
    case NoMembers =>
    case Members(name, t, rest) =>
      RestrictNames(rest, keep);
      SplitUnion(PlainMembers(RestrictMembers(rest, keep)), map[name := Plain(Restrict(t, keep))], PlainMembers(rest),
            map[name := Plain(t)]);
      SameReading(tab, t, keep);
      SameMembers(tab, rest, keep);
  }

  lemma {:induction false} SameCells(tab: Table, cells: Cells, keep: set<string>)
    requires FitsCells(tab, cells) && PlainCells(RestrictCells(cells, keep)) == PlainCells(cells)
    ensures RevealedCells(cells) <= keep
    decreases cells
  {
    match cells
    case NoCells =>
    case Cells(head, tail) =>
      FewerVisible(tail, keep);
      var a, b := PlainCell(RestrictCell(head, keep)), PlainCell(head);
      var x, y := PlainCells(RestrictCells(tail, keep)), PlainCells(tail);
      assert a + x == b + y && |a| <= |b| && |x| <= |y|;
      assert a == (a + x)[..|a|] && x == (a + x)[|a|..] && b == (b + y)[..|b|] && y == (b + y)[|b|..];
      SameCell(tab, head, keep);
      SameCells(tab, tail, keep);
  }

  lemma {:induction false} SameCell(tab: Table, c: Cell, keep: set<string>)
    requires FitsCell(tab, c) && PlainCell(RestrictCell(c, keep)) == PlainCell(c)
    ensures RevealedCell(c) <= keep
    decreases c
  {
    match c
    case Gap(_) =>
    case _ =>
      assert PlainCell(RestrictCell(c, keep))[0] == PlainCell(c)[0];
      SameReading(tab, c.t, keep);
  }

  lemma {:induction false} SameSlots(tab: Table, slots: Cells, taken: set<string>, keep: set<string>)
    requires FitsSlots(tab, slots, taken) && PlainSlots(RestrictCells(slots, keep)) == PlainSlots(slots)
    ensures RevealedCells(slots) <= keep
    decreases slots
  {
    match slots
    case NoCells =>
    case Cells(head, tail) =>
      var more := if head.Hidden? then taken + {head.d.name.value} else taken;
      SlotNamesFresh(tab, tail, more);
      FewerSlots(tail, keep);
      SlotHeadSame(head, tail, taken, keep);
      if head.Hidden? { SameReading(tab, head.t, keep); }
      SameSlots(tab, tail, more, keep);
  }

  lemma SlotHeadSame(head: Cell, tail: Cells, taken: set<string>, keep: set<string>)
    requires !head.Shown? && (head.Hidden? ==> head.d.name.Some? && head.d.name.value !in PlainSlots(tail))
    requires PlainSlots(RestrictCells(tail, keep)).Keys <= PlainSlots(tail).Keys
    requires PlainSlots(RestrictCells(Cells(head, tail), keep)) == PlainSlots(Cells(head, tail))
    ensures PlainSlots(RestrictCells(tail, keep)) == PlainSlots(tail)
    ensures head.Hidden? ==> head.digest in keep && Plain(Restrict(head.t, keep)) == Plain(head.t)
  {
    var a, b := PlainSlot(RestrictCell(head, keep)), PlainSlots(RestrictCells(tail, keep));
    var c, d := PlainSlot(head), PlainSlots(tail);
    assert a + b == c + d;
    if head.Hidden? {
      assert head.d.name.value in a + b;
      SplitUnion(b, a, d, c);
    }
  }

  // ---- the way to a disclosed value

  /** The first step towards the place of `d`. */
  lemma {:induction false} Through(tab: Table, t: Tree, path: Path, d: string) returns (s: Segment)
    requires Fits(tab, t) && d in Places(t, path)
    ensures Child(t, s).Some? && d in CellPlace(Child(t, s).value, path + [s])
    ensures CellPlace(Child(t, s).value, path + [s])[d] == Places(t, path)[d]
  {
    match t
    case ArrT(cells) =>
      var k := ThroughCells(cells, 0, path, d);
      s := Index(k);
    case ObjT(ms, _, slots) =>
      NamesUnique(ms);
      var name;
      if d in SlotPlaces(slots, path) {
        name := ThroughSlots(tab, slots, PlainMembers(ms).Keys, path, d);
        SlotFound(tab, slots, PlainMembers(ms).Keys, name);
        SlotNamesFresh(tab, slots, PlainMembers(ms).Keys);
        MemberFound(ms, name);
      } else {
        name := ThroughMembers(ms, path, d);
      }
      s := Key(name);
  }

  lemma {:induction false} ThroughCells(cells: Cells, base: nat, path: Path, d: string) returns (k: nat)
    requires d in CellPlaces(cells, base, path)
    ensures VisibleAt(cells, k).Some? && d in CellPlace(VisibleAt(cells, k).value, path + [Index(base + k)])
    ensures CellPlace(VisibleAt(cells, k).value, path + [Index(base + k)])[d] == CellPlaces(cells, base, path)[d]
    decreases cells
  {
    match cells
    case Cells(head, tail) =>
      var next := if head.Gap? then base else base + 1;
      if d in CellPlaces(tail, next, path) {
        var j := ThroughCells(tail, next, path, d);
        k := if head.Gap? then j else j + 1;
      } else {
        k := 0;
      }
  }

  lemma {:induction false} ThroughMembers(ms: Members, path: Path, d: string) returns (name: string)
    requires Unique(ms) && d in MemberPlaces(ms, path)
    ensures MemberNamed(ms, name).Some? && d in Places(MemberNamed(ms, name).value, path + [Key(name)])
    ensures Places(MemberNamed(ms, name).value, path + [Key(name)])[d] == MemberPlaces(ms, path)[d]
    decreases ms
  {
    match ms
    case Members(n, t, rest) =>
      if d in MemberPlaces(rest, path) {
        name := ThroughMembers(rest, path, d);
        MemberFound(rest, name);
      } else {
        name := n;
      }
  }

  lemma {:induction false} ThroughSlots(tab: Table, slots: Cells, taken: set<string>, path: Path, d: string)
    returns (name: string)
    requires FitsSlots(tab, slots, taken) && d in SlotPlaces(slots, path)
    ensures SlotNamed(slots, name).Some? && d in CellPlace(SlotNamed(slots, name).value, path + [Key(name)])
    ensures CellPlace(SlotNamed(slots, name).value, path + [Key(name)])[d] == SlotPlaces(slots, path)[d]
    decreases slots
  {
    match slots
    case Cells(head, tail) =>
      if d in SlotPlaces(tail, path) {
        var more := if head.Hidden? then taken + {head.d.name.value} else taken;
        name := ThroughSlots(tab, tail, more, path, d);
        SlotFound(tab, tail, more, name);
        SlotNamesFresh(tab, tail, more);
      } else {
        name := head.d.name.value;
      }
  }

  // ---- minimality

  /** Every disclosure on the way to `w` is in `keep`: the place itself is still there. */
  predicate Survives(t: Tree, keep: set<string>, w: Path)
    decreases |w|
  {
    w == [] || (Child(t, w[0]).Some? && Kept(Child(t, w[0]).value, keep)
                && Survives(Child(t, w[0]).value.t, keep, w[1..]))
  }

  /** The value found at `w` is the one found with everything disclosed. */
  predicate Shows(t: Tree, keep: set<string>, w: Path) {
    Survives(t, keep, w) && Lookup(Plain(Restrict(t, keep)), Shifted(t, keep, w)) == Lookup(Plain(t), w)
  }

  lemma ShowsBelow(tab: Table, small: Table, t: Tree, keep: set<string>, w: Path)
    requires Fits(tab, t) && SubTable(small, tab, keep) && w != [] && Shows(t, keep, w)
    ensures var c := Child(t, w[0]).value; FitsCell(tab, c) && Shows(c.t, keep, w[1..])
  {
    var c := Child(t, w[0]).value;
    var s2 := if t.ArrT? then Index(KeptBefore(t.cells, keep, w[0].i)) else w[0];
    assert w == [w[0]] + w[1..];
    ChildFound(tab, t, w[0], w[1..]);
    ChildFits(tab, t, w[0]);
    RestrictFits(tab, small, t, keep);
    ChildRestricted(t, keep, w[0]);
    ChildFound(small, Restrict(t, keep), s2, Shifted(c.t, keep, w[1..]));
  }

  lemma SameStep(path: Path, s: Segment, w: Path, at: Path)
    requires w != [] && path + [s] <= at && (at <= path + w || path + w <= at)
    ensures s == w[0] && path + w == path + [s] + w[1..]
  {
    assert (path + [s])[|path|] == s == at[|path|] && (path + w)[|path|] == w[0];
    assert w == [w[0]] + w[1..];
  }

  /** What lies on the way to a place that is shown, or inside the value there, is kept. */
  lemma {:induction false} NearIsKept(tab: Table, small: Table, t: Tree, path: Path, keep: set<string>, w: Path,
                                      d: string)
    requires Fits(tab, t) && SubTable(small, tab, keep) && Shows(t, keep, w) && d in Places(t, path)
    requires Places(t, path)[d] <= path + w || path + w <= Places(t, path)[d]
    ensures d in keep
    decreases |w|
  {
    if w == [] {
      SameReading(tab, t, keep);
      PlacesRevealed(tab, t, path);
    } else {
      var s := Through(tab, t, path, d);
      var c, at := Child(t, s).value, path + [s];
      CellPlaceBelow(c, at, d);
      SameStep(path, s, w, Places(t, path)[d]);
      ShowsBelow(tab, small, t, keep, w);
      if c.Shown? || d in Places(c.t, at) {
        NearIsKept(tab, small, c.t, at, keep, w[1..], d);
      }
    }
  }

  /** A subset of the disclosures that processes reads as the tree without the others. */
  lemma SubsetReads(payload: map<string, Json>, ds: seq<Disclosure>, hash: string -> string, some: seq<Disclosure>,
                    t: Tree)
    requires Readable(hash, payload, ds, t) && Process(payload, some, hash).Ok? && forall d :: d in some ==> d in ds
    ensures var keep := Tabulate(hash, some).value.Keys;
            && SubTable(Tabulate(hash, some).value, Tabulate(hash, ds).value, keep)
            && Process(payload, some, hash).value.claims == Plain(Restrict(t, keep)).fields - {"_sd_alg"}
  {
    var tab, small := Tabulate(hash, ds).value, Tabulate(hash, some).value;
    SubsetTable(hash, ds, some);
    RestrictedWalks(tab, small, payload, t, small.Keys);
  }

  lemma RestrictedWalks(tab: Table, small: Table, payload: map<string, Json>, t: Tree, keep: set<string>)
    requires t.ObjT? && Explains(tab, t, Obj(payload), {}) && SubTable(small, tab, keep)
    ensures var w := WalkObject(small, payload, [], State({}, map[]));
            w.Ok? && w.value.out == Plain(Restrict(t, keep)).fields
  {
    var r := Restrict(t, keep);
    RestrictFits(tab, small, t, keep);
    RestrictEncode(t, keep);
    RestrictDistinct(t, keep);
    AcceptsObject(small, r.members, r.hasSd, r.slots, [], State({}, map[]));
  }

  lemma SubsetTable(hash: string -> string, ds: seq<Disclosure>, some: seq<Disclosure>)
    requires Tabulate(hash, ds).Ok? && Tabulate(hash, some).Ok? && forall d :: d in some ==> d in ds
    ensures SubTable(Tabulate(hash, some).value, Tabulate(hash, ds).value, Tabulate(hash, some).value.Keys)
  {
    var tab, small := Tabulate(hash, ds).value, Tabulate(hash, some).value;
    forall g | g in small ensures g in tab && tab[g] == small[g] {
      var i := FoundIn(hash, some, g);
      assert some[i] in ds;
      var j :| 0 <= j < |ds| && ds[j] == some[i];
      TabulateFinds(hash, ds, j);
    }
  }

  /**
   With the disclosures `some` the claim at `w` is still there, not an equal sibling in its place, and has
   the value it has with all of `ds`.
   */
  predicate StillShown(payload: map<string, Json>, ds: seq<Disclosure>, hash: string -> string, some: seq<Disclosure>,
                       t: Tree, w: Path)
    requires Process(payload, ds, hash).Ok? && Process(payload, some, hash).Ok?
  {
    var keep := Tabulate(hash, some).value.Keys;
    && Survives(t, keep, w)
    && Lookup(Obj(Process(payload, some, hash).value.claims), Shifted(t, keep, w)) ==
       Lookup(Obj(Process(payload, ds, hash).value.claims), w)
  }

  /** The algorithm name cut out after the walk does not matter to a claim that exists. */
  lemma StillShownExact(payload: map<string, Json>, ds: seq<Disclosure>, hash: string -> string,
                        some: seq<Disclosure>, t: Tree, w: Path)
    requires Readable(hash, payload, ds, t) && Process(payload, some, hash).Ok? && forall d :: d in some ==> d in ds
    requires Process(payload, ds, hash).Ok? && w != []
    requires Lookup(Obj(Process(payload, ds, hash).value.claims), w).Some?
    ensures StillShown(payload, ds, hash, some, t, w) <==> Shows(t, Tabulate(hash, some).value.Keys, w)
  {
    var keep := Tabulate(hash, some).value.Keys;
    SubsetReads(payload, ds, hash, some, t);
    ProcessReads(hash, payload, ds, t);
    LookupWithout(Plain(t).fields, "_sd_alg", w);
    LookupWithout(Plain(Restrict(t, keep)).fields, "_sd_alg", Shifted(t, keep, w));
  }

  lemma {:induction false} OnWaySurvives(t: Tree, keep: set<string>, more: set<string>, w: Path)
    requires OnWay(t, keep, w) && keep <= more
    ensures OnWay(t, more, w) && Survives(t, more, w)
    decreases |w|
  {
    if w != [] { OnWaySurvives(Child(t, w[0]).value.t, keep, more, w[1..]); }
  }

  lemma WantedFound(payload: map<string, Json>, ds: seq<Disclosure>, hash: string -> string, pointers: seq<string>,
                    i: nat)
    requires Select(payload, ds, hash, pointers).Ok? && i < |Wanted(payload, ds, hash, pointers)|
    ensures var w := Wanted(payload, ds, hash, pointers)[i];
            w != [] && Lookup(Obj(Process(payload, ds, hash).value.claims), w).Some?
  {
    assert Resolve(Obj(Process(payload, ds, hash).value.claims), pointers[i]) ==
           Ok(Wanted(payload, ds, hash, pointers)[i]);
  }

  /** A wanted claim is shown as soon as everything near it is kept, and only then. */
  lemma ShownIfKept(tab: Table, small: Table, t: Tree, wanted: seq<Path>, i: nat)
    requires Fits(tab, t) && Distinct(t) && SubTable(small, tab, small.Keys) && i < |wanted|
    requires Lookup(Plain(t), wanted[i]).Some?
    ensures Kernel(t, wanted) <= small.Keys ==> Shows(t, small.Keys, wanted[i])
    ensures Shows(t, small.Keys, wanted[i]) ==> Kernel(t, [wanted[i]]) <= small.Keys
  {
    var w := wanted[i];
    assert [] + w == w;
    if Kernel(t, wanted) <= small.Keys {
      NearOnWay(tab, t, [], Places(t, []), Kernel(t, wanted), wanted, i, w);
      OnWaySurvives(t, Kernel(t, wanted), small.Keys, w);
      ShiftedLookup(tab, small, t, small.Keys, w);
    }
    if Shows(t, small.Keys, w) {
      forall d | d in Kernel(t, [w]) ensures d in small.Keys {
        NearIsKept(tab, small, t, [], small.Keys, w, d);
      }
    }
  }

  /** Of two parts of a table, one lies in the other exactly when its disclosures do. */
  lemma PartsNest(hash: string -> string, tab: Table, a: seq<Disclosure>, b: seq<Disclosure>)
    requires Tabulate(hash, a).Ok? && Tabulate(hash, b).Ok?
    requires forall g :: g in Tabulate(hash, a).value ==> g in tab && Tabulate(hash, a).value[g] == tab[g]
    requires forall g :: g in Tabulate(hash, b).value ==> g in tab && Tabulate(hash, b).value[g] == tab[g]
    ensures Tabulate(hash, a).value.Keys <= Tabulate(hash, b).value.Keys <==> forall d :: d in a ==> d in b
  {
    var ta, tb := Tabulate(hash, a).value, Tabulate(hash, b).value;
    if ta.Keys <= tb.Keys {
      forall d | d in a ensures d in b {
        var i :| 0 <= i < |a| && a[i] == d;
        TabulateFinds(hash, a, i);
        var j := FoundIn(hash, b, hash(d.encoded));
        assert b[j] == d;
      }
    }
    if forall d :: d in a ==> d in b {
      forall g | g in ta ensures g in tb {
        var i := FoundIn(hash, a, g);
        assert a[i] in b;
        var j :| 0 <= j < |b| && b[j] == a[i];
        TabulateFinds(hash, b, j);
      }
    }
  }

  /** The kernel are the digests of the selection. */
  lemma KernelSelected(payload: map<string, Json>, ds: seq<Disclosure>, hash: string -> string, pointers: seq<string>,
                       t: Tree, some: seq<Disclosure>)
    requires Select(payload, ds, hash, pointers).Ok? && Readable(hash, payload, ds, t)
    requires Tabulate(hash, some).Ok? && forall d :: d in some ==> d in ds
    ensures Kernel(t, Wanted(payload, ds, hash, pointers)) <= Tabulate(hash, some).value.Keys
            <==> forall d :: d in Select(payload, ds, hash, pointers).value ==> d in some
  {
    var kept := Select(payload, ds, hash, pointers).value;
    SelectionReads(payload, ds, hash, pointers, t);
    SubsetTable(hash, ds, some);
    assert Tabulate(hash, kept).value.Keys == Kernel(t, Wanted(payload, ds, hash, pointers));
    PartsNest(hash, Tabulate(hash, ds).value, kept, some);
  }

  lemma KernelOf(t: Tree, wanted: seq<Path>, keys: set<string>)
    requires forall i :: 0 <= i < |wanted| ==> Kernel(t, [wanted[i]]) <= keys
    ensures Kernel(t, wanted) <= keys
  {
    forall d | d in Kernel(t, wanted) ensures d in keys {
      var at := Places(t, [])[d];
      var i :| 0 <= i < |wanted| && (wanted[i] <= at || at <= wanted[i]);
      assert Near(at, [wanted[i]]) by { assert [wanted[i]][0] == wanted[i]; }
      assert d in Kernel(t, [wanted[i]]);
    }
  }

  /** One wanted claim. */
  lemma WantedExact(payload: map<string, Json>, ds: seq<Disclosure>, hash: string -> string, pointers: seq<string>,
                    t: Tree, some: seq<Disclosure>, i: nat)
    requires Select(payload, ds, hash, pointers).Ok? && Readable(hash, payload, ds, t)
    requires Process(payload, some, hash).Ok? && forall d :: d in some ==> d in ds
    requires i < |Wanted(payload, ds, hash, pointers)|
    ensures var wanted, keep := Wanted(payload, ds, hash, pointers), Tabulate(hash, some).value.Keys;
            && (Kernel(t, wanted) <= keep ==> StillShown(payload, ds, hash, some, t, wanted[i]))
            && (StillShown(payload, ds, hash, some, t, wanted[i]) ==> Kernel(t, [wanted[i]]) <= keep)
  {
    var wanted := Wanted(payload, ds, hash, pointers);
    WantedFound(payload, ds, hash, pointers, i);
    StillShownExact(payload, ds, hash, some, t, wanted[i]);
    ProcessReads(hash, payload, ds, t);
    LookupWithout(Plain(t).fields, "_sd_alg", wanted[i]);
    SubsetTable(hash, ds, some);
    ShownIfKept(Tabulate(hash, ds).value, Tabulate(hash, some).value, t, wanted, i);
  }

  /**
   The selection is the least one: disclosures that still process show every wanted claim exactly when
   they contain all that `select` keeps.
   */
  lemma SelectLeast(payload: map<string, Json>, ds: seq<Disclosure>, hash: string -> string, pointers: seq<string>,
                    t: Tree, some: seq<Disclosure>)
    requires Select(payload, ds, hash, pointers).Ok? && Readable(hash, payload, ds, t)
    requires Process(payload, some, hash).Ok? && forall d :: d in some ==> d in ds
    ensures var wanted := Wanted(payload, ds, hash, pointers);
            (forall i :: 0 <= i < |wanted| ==> StillShown(payload, ds, hash, some, t, wanted[i]))
            <==> forall d :: d in Select(payload, ds, hash, pointers).value ==> d in some
  {
    var wanted, keep := Wanted(payload, ds, hash, pointers), Tabulate(hash, some).value.Keys;
    KernelSelected(payload, ds, hash, pointers, t, some);
    forall i | 0 <= i < |wanted|
      ensures Kernel(t, wanted) <= keep ==> StillShown(payload, ds, hash, some, t, wanted[i])
      ensures StillShown(payload, ds, hash, some, t, wanted[i]) ==> Kernel(t, [wanted[i]]) <= keep
    {
      WantedExact(payload, ds, hash, pointers, t, some, i);
    }
    if forall i :: 0 <= i < |wanted| ==> StillShown(payload, ds, hash, some, t, wanted[i]) {
      KernelOf(t, wanted, keep);
    }
  }
}
