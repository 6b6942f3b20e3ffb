/**
 What `process` guarantees (crates/sdjwt/src/process.rs): which inputs it accepts, what
 claims it yields and where disclosures land.
 */
module Landing {
  import opened Prelude
  import opened Json
  import opened Strings
  import opened Processing
  import opened SdTree
  import opened Walk

  // ---- every recorded path resolves to the disclosed value

  predicate Unique(ms: Members) {
    match ms
    case NoMembers => true
    case Members(name, _, rest) => name !in PlainMembers(rest) && Unique(rest)
  }

  lemma {:induction false} NamesUnique(ms: Members)
    requires forall i, j :: 0 <= i < j < |Names(ms)| ==> Names(ms)[i] != Names(ms)[j]
    ensures Unique(ms)
  {
    match ms
    case NoMembers =>
    case Members(name, t, rest) =>
      var ns := Names(ms);
      assert forall j :: 0 <= j < |Names(rest)| ==> Names(rest)[j] == ns[j + 1];
      MemberNames(rest);
      assert name !in Names(rest) by {
        forall j | 0 <= j < |Names(rest)| ensures Names(rest)[j] != name { assert ns[0] != ns[j + 1]; }
      }
      NamesUnique(rest);
  }

  lemma {:induction false} SlotNamesFresh(tab: Table, slots: Cells, taken: set<string>)
    requires FitsSlots(tab, slots, taken)
    ensures PlainSlots(slots).Keys !! taken
    decreases slots
  {
    match slots
    case NoCells =>
    case Cells(head, tail) =>
      SlotNamesFresh(tab, tail, if head.Hidden? then taken + {head.d.name.value} else taken);
  }

  /** `rel` leads from `v` to the processed value of the disclosure `digest`. */
  predicate Reaches(tab: Table, digest: string, v: Json, rel: Path, sub: Tree) {
    && digest in tab && tab[digest].value == Encode(sub)
    && Fits(tab, sub)
    && Lookup(v, rel) == Some(Plain(sub))
  }

  lemma LookupStep(v: Json, s: Segment, rel: Path)
    ensures v.Obj? && s.Key? && s.name in v.fields ==> Lookup(v, [s] + rel) == Lookup(v.fields[s.name], rel)
    ensures v.Arr? && s.Index? && s.i < |v.items| ==> Lookup(v, [s] + rel) == Lookup(v.items[s.i], rel)
  {
    assert ([s] + rel)[1..] == rel;
  }

  lemma PathJoin(path: Path, s: Segment, rel: Path)
    ensures path + [s] + rel == path + ([s] + rel)
  {
  }

  lemma {:induction false} Lands(tab: Table, t: Tree, path: Path, digest: string) returns (rel: Path, sub: Tree)
    requires Fits(tab, t) && digest in Places(t, path)
    ensures Places(t, path)[digest] == path + rel && rel != [] && Reaches(tab, digest, Plain(t), rel, sub)
    decreases t, 1
  {
    match t
    case ArrT(cells) =>
      var k, r, s := LandsInCells(tab, cells, 0, path, digest);
      PathJoin(path, Index(k), r);
      LookupStep(Plain(t), Index(k), r);
      return [Index(k)] + r, s;
    case ObjT(ms, _, slots) =>
      NamesUnique(ms);
      SlotNamesFresh(tab, slots, PlainMembers(ms).Keys);
      rel, sub := LandsInObject(tab, t, path, digest);
  }

  lemma {:induction false} LandsInObject(tab: Table, t: Tree, path: Path, digest: string)
    returns (rel: Path, sub: Tree)
    requires t.ObjT? && FitsMembers(tab, t.members) && Unique(t.members)
    requires FitsSlots(tab, t.slots, PlainMembers(t.members).Keys)
    requires PlainSlots(t.slots).Keys !! PlainMembers(t.members).Keys
    requires digest in MemberPlaces(t.members, path) + SlotPlaces(t.slots, path)
    ensures Places(t, path)[digest] == path + rel && rel != [] && Reaches(tab, digest, Plain(t), rel, sub)
    decreases t, 0
  {
    var name, r;
    if digest in SlotPlaces(t.slots, path) {
      name, r, sub := LandsInSlots(tab, t.slots, PlainMembers(t.members).Keys, path, digest);
    } else {
      name, r, sub := LandsInMembers(tab, t.members, path, digest);
    }
    rel := [Key(name)] + r;
    PathJoin(path, Key(name), r);
    LookupStep(Plain(t), Key(name), r);
  }

  lemma {:induction false} LandsInMembers(tab: Table, ms: Members, path: Path, digest: string)
    returns (name: string, rel: Path, sub: Tree)
    requires FitsMembers(tab, ms) && Unique(ms) && digest in MemberPlaces(ms, path)
    ensures name in PlainMembers(ms) && MemberPlaces(ms, path)[digest] == path + [Key(name)] + rel
    ensures Reaches(tab, digest, PlainMembers(ms)[name], rel, sub)
    decreases ms
  {
    match ms
    case Members(n, t, rest) =>
      if digest in MemberPlaces(rest, path) {
        name, rel, sub := LandsInMembers(tab, rest, path, digest);
      } else {
        name := n;
        rel, sub := Lands(tab, t, path + [Key(n)], digest);
      }
  }

  lemma {:induction false} LandsInSlots(tab: Table, slots: Cells, taken: set<string>, path: Path, digest: string)
    returns (name: string, rel: Path, sub: Tree)
    requires FitsSlots(tab, slots, taken) && digest in SlotPlaces(slots, path)
    ensures name in PlainSlots(slots) && SlotPlaces(slots, path)[digest] == path + [Key(name)] + rel
    ensures Reaches(tab, digest, PlainSlots(slots)[name], rel, sub)
    decreases slots
  {
    match slots
    case Cells(head, tail) =>
      var more := if head.Hidden? then taken + {head.d.name.value} else taken;
      if digest in SlotPlaces(tail, path) {
        name, rel, sub := LandsInSlots(tab, tail, more, path, digest);
      } else {
        name := head.d.name.value;
        SlotNamesFresh(tab, tail, more);
        rel, sub := LandsInCell(tab, head, path + [Key(name)], digest);
      }
  }

  lemma {:induction false} LandsInCells(tab: Table, cells: Cells, base: nat, path: Path, digest: string)
    returns (k: nat, rel: Path, sub: Tree)
    requires FitsCells(tab, cells) && digest in CellPlaces(cells, base, path)
    ensures base <= k < base + |PlainCells(cells)| && CellPlaces(cells, base, path)[digest] == path + [Index(k)] + rel
    ensures Reaches(tab, digest, PlainCells(cells)[k - base], rel, sub)
    decreases cells
  {
    match cells
    case Cells(head, tail) =>
      var next := if head.Gap? then base else base + 1;
      if digest in CellPlaces(tail, next, path) {
        k, rel, sub := LandsInCells(tab, tail, next, path, digest);
      } else {
        k := base;
        rel, sub := LandsInCell(tab, head, path + [Index(base)], digest);
      }
  }

  lemma {:induction false} LandsInCell(tab: Table, c: Cell, at: Path, digest: string) returns (rel: Path, sub: Tree)
    requires FitsCell(tab, c) && digest in CellPlace(c, at)
    ensures !c.Gap? && CellPlace(c, at)[digest] == at + rel && Reaches(tab, digest, Plain(c.t), rel, sub)
    decreases c
  {
    match c
    case Shown(t) => rel, sub := Lands(tab, t, at, digest);
    case Hidden(g, d, t) =>
      if digest in Places(t, at) {
        rel, sub := Lands(tab, t, at, digest);
      } else {
        rel, sub := [], t;
      }
  }

  // ---- the whole of `process`

  /** `t` explains the payload, with every disclosure spliced in, each exactly once. */
  predicate Readable(hash: string -> string, payload: map<string, Json>, ds: seq<Disclosure>, t: Tree) {
    && Tabulate(hash, ds).Ok?
    && t.ObjT?
    && Explains(Tabulate(hash, ds).value, t, Obj(payload), {})
    && Places(t, []).Keys == Tabulate(hash, ds).value.Keys
  }

  lemma ProcessReads(hash: string -> string, payload: map<string, Json>, ds: seq<Disclosure>, t: Tree)
    requires Readable(hash, payload, ds, t)
    ensures var r := Process(payload, ds, hash);
            && r.Ok?
            && r.value.claims == Plain(t).fields - {"_sd_alg"}
            && |r.value.paths| == |ds|
            && forall i :: 0 <= i < |ds| ==>
                             && hash(ds[i].encoded) in Places(t, [])
                             && r.value.paths[i] == Places(t, [])[hash(ds[i].encoded)]
  {
    var tab := Tabulate(hash, ds).value;
    TabulateExact(hash, ds);
    AcceptsObject(tab, t.members, t.hasSd, t.slots, [], State({}, map[]));
    MapEmpty(Places(t, []));
  }

  lemma {:induction false} PlacesAreDisclosed(tab: Table, t: Tree, path: Path)
    requires Fits(tab, t)
    ensures Places(t, path).Keys <= tab.Keys
  {
    forall d | d in Places(t, path) ensures d in tab {
      var rel, sub := Lands(tab, t, path, d);
    }
  }

  /** `process` succeeds exactly when the payload and its disclosures can be read without ambiguity. */
  lemma ProcessExact(hash: string -> string, payload: map<string, Json>, ds: seq<Disclosure>)
    ensures Process(payload, ds, hash).Ok? <==> exists t :: Readable(hash, payload, ds, t)
  {
    if Process(payload, ds, hash).Ok? {
      var t := ReadingOf(hash, payload, ds);
    }
    forall t | Readable(hash, payload, ds, t) ensures Process(payload, ds, hash).Ok? {
      ProcessReads(hash, payload, ds, t);
    }
  }

  lemma ReadingOf(hash: string -> string, payload: map<string, Json>, ds: seq<Disclosure>) returns (t: Tree)
    requires Process(payload, ds, hash).Ok?
    ensures Readable(hash, payload, ds, t)
  {
    var tab := Tabulate(hash, ds).value;
    var st := State({}, map[]);
    t := TreeOfObject(tab, payload, [], st);
    AcceptsObject(tab, t.members, t.hasSd, t.slots, [], st);
    MapEmpty(Places(t, []));
    PlacesAreDisclosed(tab, t, []);
    forall d | d in tab ensures d in Places(t, []) {
      TabulateKeys(hash, ds, d);
    }
  }

  /** Cutting one member out of an object changes only the paths through it. */
  lemma LookupCut(fields: map<string, Json>, name: string, path: Path)
    requires path != []
    ensures Lookup(Obj(fields - {name}), path) == if path[0] == Key(name) then None else Lookup(Obj(fields), path)
  {
  }

  /** The place of disclosure `i` in a reading leads to that disclosure's own value. */
  lemma PlaceResolves(hash: string -> string, ds: seq<Disclosure>, t: Tree, i: nat) returns (sub: Tree)
    requires Tabulate(hash, ds).Ok? && t.ObjT? && Fits(Tabulate(hash, ds).value, t) && i < |ds|
               && hash(ds[i].encoded) in Places(t, [])
    ensures Encode(sub) == ds[i].value && Fits(Tabulate(hash, ds).value, sub)
    ensures var at := Places(t, [])[hash(ds[i].encoded)];
            && at != []
            && Lookup(Obj(Plain(t).fields - {"_sd_alg"}), at) ==
               if at[0] == Key("_sd_alg") then None else Some(Plain(sub))
  {
    TabulateExact(hash, ds);
    var rel, s := Lands(Tabulate(hash, ds).value, t, [], hash(ds[i].encoded));
    assert [] + rel == rel;
    LookupCut(Plain(t).fields, "_sd_alg", rel);
    sub := s;
  }

  /**
   The recorded path of a disclosure leads, in the claims, to that disclosure's
   own processed value; the one exception is a top-level `_sd_alg`, which is
   removed after the walk.
   */
  lemma PathsResolve(hash: string -> string, payload: map<string, Json>, ds: seq<Disclosure>, i: nat)
    returns (sub: Tree)
    requires Process(payload, ds, hash).Ok? && i < |ds|
    ensures Encode(sub) == ds[i].value && Fits(Tabulate(hash, ds).value, sub)
    ensures var p := Process(payload, ds, hash).value;
            && |p.paths| == |ds| && p.paths[i] != []
            && Lookup(Obj(p.claims), p.paths[i]) ==
               if p.paths[i][0] == Key("_sd_alg") then None else Some(Plain(sub))
  {
    var t := ReadingOf(hash, payload, ds);
    ProcessReads(hash, payload, ds, t);
    sub := PlaceResolves(hash, ds, t, i);
  }

  /** That exception happens: the signed payload names no algorithm, and a disclosure claims to be `_sd_alg`. */
  lemma SdAlgVanishes(hash: string -> string, d: Disclosure)
    requires d.name == Some("_sd_alg") && Scalar(d.value)
    ensures Process(map["_sd" := Arr([Str(hash(d.encoded))])], [d], hash) ==
            Ok(Processed(map[], [[Key("_sd_alg")]]))
  {
    var c := Hidden(hash(d.encoded), d, Leaf(d.value));
    var t := ObjT(NoMembers, true, Cells(c, NoCells));
    TabulateOne(hash, d);
    OneSlotObject(c);
    ProcessReads(hash, map["_sd" := Arr([Str(c.digest)])], [d], t);
    assert map["_sd_alg" := d.value] - {"_sd_alg"} == map[];
    var r := Process(map["_sd" := Arr([Str(c.digest)])], [d], hash).value;
    assert hash([d][0].encoded) == c.digest;
    assert r.paths[0] == [Key("_sd_alg")];
    assert r.paths == [[Key("_sd_alg")]];
  }

  /** One disclosed scalar in an `_sd` list. */
  lemma OneSlot(c: Cell)
    requires c.Hidden? && c.t == Leaf(c.d.value) && Scalar(c.d.value) && c.d.name.Some?
    requires c.d.name.value != "_sd" && c.d.name.value != "..."
    ensures var slots := Cells(c, NoCells);
            && FitsSlots(map[c.digest := c.d], slots, {}) && DistinctCells(slots) && CellsDigests(slots) == {c.digest}
            && DigestList(slots) == [Str(c.digest)] && PlainSlots(slots) == map[c.d.name.value := c.d.value]
            && SlotPlaces(slots, []) == map[c.digest := [] + [Key(c.d.name.value)]]
  {
    var at := [] + [Key(c.d.name.value)];
    assert Places(c.t, at) == map[] && Digests(c.t) == {} && Distinct(c.t) && Plain(c.t) == c.d.value;
    MapEmpty(map[c.digest := at]);
    assert SlotPlace(c, []) == CellPlace(c, at) == map[c.digest := at];
    MapEmpty(PlainSlot(c));
    assert DigestList(NoCells) == [] && PlainSlots(NoCells) == map[] && SlotPlaces(NoCells, []) == map[];
    assert FitsSlots(map[c.digest := c.d], NoCells, {} + {c.d.name.value});
    assert DistinctCells(NoCells) && CellsDigests(NoCells) == {};
  }

  /** An object with nothing but that. */
  lemma OneSlotObject(c: Cell)
    requires c.Hidden? && c.t == Leaf(c.d.value) && Scalar(c.d.value) && c.d.name.Some?
    requires c.d.name.value != "_sd" && c.d.name.value != "..."
    ensures var t := ObjT(NoMembers, true, Cells(c, NoCells));
            && Explains(map[c.digest := c.d], t, Obj(map["_sd" := Arr([Str(c.digest)])]), {})
            && Plain(t) == Obj(map[c.d.name.value := c.d.value])
            && Places(t, []) == map[c.digest := [] + [Key(c.d.name.value)]]
  {
    OneSlot(c);
    InOrderUnique([], {});
    assert PlainMembers(NoMembers) == map[] && MemberPlaces(NoMembers, []) == map[];
    assert MembersDigests(NoMembers) == {};
    assert PlainMembers(NoMembers).Keys == {};
    MapEmpty(map[c.d.name.value := c.d.value]);
    MapEmpty(map[c.digest := [] + [Key(c.d.name.value)]]);
  }
}
