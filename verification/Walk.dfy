/**
 The walker accepts exactly the wire forms of well-formed trees, and yields their
 plain reading. The first half follows a tree and computes what the walk of its
 wire form does; the second half builds the tree of any payload that the walk
 accepts.
 */
module Walk {
  import opened Prelude
  import opened Json
  import opened Strings
  import opened Processing
  import opened SdTree

  // ---- completeness: a well-formed tree is accepted

  function After(st: State, digests: set<string>, places: map<string, Path>): State {
    State(st.seen + digests, st.paths + places)
  }

  lemma AfterTwice(st: State, d1: set<string>, p1: map<string, Path>, d2: set<string>, p2: map<string, Path>)
    ensures After(After(st, d1, p1), d2, p2) == After(st, d1 + d2, p1 + p2)
  {
  }

  /** Every member is found in `fields` under its name. */
  predicate Carries(fields: map<string, Json>, ms: Members) {
    match ms
    case NoMembers => true
    case Members(name, t, rest) => name in fields && fields[name] == Encode(t) && Carries(fields, rest)
  }

  lemma {:induction false} MemberNames(ms: Members)
    ensures EncodeMembers(ms).Keys == PlainMembers(ms).Keys
    ensures forall k :: k in EncodeMembers(ms) <==> k in Names(ms)
  {
    match ms
    case NoMembers =>
    case Members(name, t, rest) => MemberNames(rest);
  }

  lemma {:induction false} CarriesMore(fields: map<string, Json>, ms: Members, k: string, v: Json)
    requires Carries(fields, ms) && k !in Names(ms)
    ensures Carries(fields[k := v], ms)
  {
    match ms
    case NoMembers =>
    case Members(_, _, rest) => CarriesMore(fields, rest, k, v);
  }

  lemma {:induction false} EncodingCarries(ms: Members)
    requires forall i, j :: 0 <= i < j < |Names(ms)| ==> Names(ms)[i] != Names(ms)[j]
    ensures Carries(EncodeMembers(ms), ms)
  {
    match ms
    case NoMembers =>
    case Members(name, t, rest) =>
      var ns := Names(ms);
      assert ns[1..] == Names(rest) && ns[0] == name;
      assert name !in Names(rest) by {
        forall j | 0 <= j < |Names(rest)| ensures Names(rest)[j] != name {
          assert ns[0] != ns[j + 1];
        }
      }
      assert forall i, j :: 0 <= i < j < |Names(rest)| ==> Names(rest)[i] == ns[i + 1] && Names(rest)[j] == ns[j + 1];
      EncodingCarries(rest);
      CarriesMore(EncodeMembers(rest), rest, name, Encode(t));
  }

  lemma {:induction false} MembersNotReserved(tab: Table, ms: Members)
    requires FitsMembers(tab, ms)
    ensures "_sd" !in EncodeMembers(ms) && "..." !in EncodeMembers(ms)
  {
    match ms
    case NoMembers =>
    case Members(_, _, rest) => MembersNotReserved(tab, rest);
  }

  lemma {:induction false} NamesCarried(fields: map<string, Json>, ms: Members)
    requires Carries(fields, ms)
    ensures forall k :: k in Names(ms) ==> k in fields
  {
    match ms
    case NoMembers =>
    case Members(_, _, rest) => NamesCarried(fields, rest);
  }

  lemma {:induction false} AcceptsTree(tab: Table, t: Tree, path: Path, st: State)
    requires Fits(tab, t) && Distinct(t) && Digests(t) !! st.seen
    ensures WalkValue(tab, Encode(t), path, st) == Ok(Walked(Plain(t), After(st, Digests(t), Places(t, path))))
    decreases t, 1
  {
    match t
    case Leaf(v) =>
      assert After(st, {}, map[]) == st;
    case ArrT(cells) =>
      AcceptsCells(tab, cells, [], path, st);
      assert [] + PlainCells(cells) == PlainCells(cells);
    case ObjT(ms, hasSd, slots) =>
      AcceptsObject(tab, ms, hasSd, slots, path, st);
  }

  lemma MapJoin<K, V>(a: map<K, V>, b: map<K, V>, c: map<K, V>)
    ensures (a + b) + c == a + (b + c)
  {
  }

  lemma MapPut<K, V>(a: map<K, V>, k: K, v: V)
    ensures a[k := v] == a + map[k := v]
  {
  }

  lemma MapEmpty<K, V>(a: map<K, V>)
    ensures a + map[] == a && map[] + a == a
  {
  }

  lemma AfterNothing(st: State)
    ensures After(st, {}, map[]) == st
  {
    MapEmpty(st.paths);
  }

  lemma LandIsAfter(digest: string, at: Path, st: State)
    ensures Land(digest, at, st) == After(st, {digest}, map[digest := at])
  {
    MapPut(st.paths, digest, at);
  }

  lemma KeysWithout<K, V>(m: map<K, V>, k: K, v: V)
    requires k !in m
    ensures m.Keys - {k} == m.Keys && m[k := v].Keys - {k} == m.Keys
  {
  }

  lemma ObjectFields(tab: Table, ms: Members, hasSd: bool, slots: Cells)
    requires Fits(tab, ObjT(ms, hasSd, slots))
    ensures var fields := Encode(ObjT(ms, hasSd, slots)).fields;
            && "..." !in fields
            && Carries(fields, ms)
            && InOrder(fields.Keys - {"_sd"}) == Names(ms)
            && ("_sd" in fields <==> hasSd)
            && (hasSd ==> fields["_sd"] == Arr(DigestList(slots)))
            && forall k :: k in Names(ms) ==> k in fields
  {
    var fields := Encode(ObjT(ms, hasSd, slots)).fields;
    MemberNames(ms);
    MembersNotReserved(tab, ms);
    EncodingCarries(ms);
    if hasSd { CarriesMore(EncodeMembers(ms), ms, "_sd", Arr(DigestList(slots))); }
    KeysWithout(EncodeMembers(ms), "_sd", Arr(DigestList(slots)));
    NamesCarried(fields, ms);
  }

  lemma {:induction false} AcceptsObject(tab: Table, ms: Members, hasSd: bool, slots: Cells, path: Path, st: State)
    requires var t := ObjT(ms, hasSd, slots); Fits(tab, t) && Distinct(t) && Digests(t) !! st.seen
    ensures var t := ObjT(ms, hasSd, slots);
            WalkObject(tab, Encode(t).fields, path, st) ==
            Ok(Walked(PlainMembers(ms) + PlainSlots(slots), After(st, Digests(t), Places(t, path))))
    decreases ObjT(ms, hasSd, slots), 0
  {
    var fields := Encode(ObjT(ms, hasSd, slots)).fields;
    ObjectFields(tab, ms, hasSd, slots);
    AcceptsMembers(tab, fields, ms, map[], path, st);
    MapEmpty(PlainMembers(ms));
    var st1 := After(st, MembersDigests(ms), MemberPlaces(ms, path));
    if hasSd {
      AcceptsSlots(tab, slots, PlainMembers(ms), path, st1);
    } else {
      MapEmpty(PlainMembers(ms));
      AfterNothing(st1);
    }
    AfterTwice(st, MembersDigests(ms), MemberPlaces(ms, path), CellsDigests(slots), SlotPlaces(slots, path));
  }

  lemma {:induction false} AcceptsMembers(tab: Table, fields: map<string, Json>, ms: Members, out: map<string, Json>,
                                          path: Path, st: State)
    requires FitsMembers(tab, ms) && DistinctMembers(ms) && MembersDigests(ms) !! st.seen
    requires Carries(fields, ms)
    requires forall k :: k in Names(ms) ==> k in fields
    ensures WalkFields(tab, fields, Names(ms), out, path, st) ==
            Ok(Walked(out + PlainMembers(ms), After(st, MembersDigests(ms), MemberPlaces(ms, path))))
    decreases ms, 1
  {
    match ms
    case NoMembers =>
      MapEmpty(out);
      AfterNothing(st);
    case Members(name, t, rest) =>
      var at := path + [Key(name)];
      AcceptsMember(tab, fields, ms, out, path, st);
      AcceptsMembers(tab, fields, rest, out + map[name := Plain(t)], path, After(st, Digests(t), Places(t, at)));
      AfterTwice(st, Digests(t), Places(t, at), MembersDigests(rest), MemberPlaces(rest, path));
      MapJoin(out, map[name := Plain(t)], PlainMembers(rest));
  }

  lemma {:induction false} AcceptsMember(tab: Table, fields: map<string, Json>, ms: Members, out: map<string, Json>,
                                         path: Path, st: State)
    requires ms.Members? && Fits(tab, ms.t) && Distinct(ms.t) && Digests(ms.t) !! st.seen
    requires ms.name in fields && fields[ms.name] == Encode(ms.t)
    requires forall k :: k in Names(ms) ==> k in fields
    ensures var at := path + [Key(ms.name)];
            && (forall k :: k in Names(ms.rest) ==> k in fields)
            && WalkFields(tab, fields, Names(ms), out, path, st) ==
               WalkFields(tab, fields, Names(ms.rest), out + map[ms.name := Plain(ms.t)], path,
                          After(st, Digests(ms.t), Places(ms.t, at)))
    decreases ms, 0
  {
    match ms
    case Members(name, t, rest) =>
      assert Names(ms)[1..] == Names(rest) && Names(ms)[0] == name;
      AcceptsTree(tab, t, path + [Key(name)], st);
      MapPut(out, name, Plain(t));
  }

  lemma {:induction false} AcceptsHidden(tab: Table, c: Cell, at: Path, st: State)
    requires c.Hidden? && FitsCell(tab, c) && DistinctCell(c) && CellDigests(c) !! st.seen
    ensures WalkValue(tab, c.d.value, at, Land(c.digest, at, st)) ==
            Ok(Walked(Plain(c.t), After(st, CellDigests(c), CellPlace(c, at))))
    decreases c, 0
  {
    match c
    case Hidden(digest, d, t) =>
      LandIsAfter(digest, at, st);
      var st1 := After(st, {digest}, map[digest := at]);
      AcceptsTree(tab, t, at, st1);
      AfterTwice(st, {digest}, map[digest := at], Digests(t), Places(t, at));
  }

  lemma {:induction false} AcceptsSlots(tab: Table, slots: Cells, out: map<string, Json>, path: Path, st: State)
    requires FitsSlots(tab, slots, out.Keys) && DistinctCells(slots) && CellsDigests(slots) !! st.seen
    ensures WalkDigests(tab, DigestList(slots), out, path, st) ==
            Ok(Walked(out + PlainSlots(slots), After(st, CellsDigests(slots), SlotPlaces(slots, path))))
    decreases slots
  {
    match slots
    case NoCells =>
      MapEmpty(out);
      AfterNothing(st);
    case Cells(head, tail) =>
      AcceptsSlot(tab, head, tail, out, path, st);
      AcceptsSlots(tab, tail, out + PlainSlot(head), path, After(st, CellDigests(head), SlotPlace(head, path)));
      AfterTwice(st, CellDigests(head), SlotPlace(head, path), CellsDigests(tail), SlotPlaces(tail, path));
      MapJoin(out, PlainSlot(head), PlainSlots(tail));
  }

  lemma {:induction false} AcceptsSlot(tab: Table, c: Cell, tail: Cells, out: map<string, Json>, path: Path,
                                       st: State)
    requires !c.Shown? && FitsCell(tab, c) && DistinctCell(c) && CellDigests(c) !! st.seen
    requires c.Hidden? ==> GoodName(c.d.name, out.Keys)
    ensures WalkDigests(tab, DigestList(Cells(c, tail)), out, path, st) ==
            WalkDigests(tab, DigestList(tail), out + PlainSlot(c), path,
                  After(st, CellDigests(c), SlotPlace(c, path)))
    ensures (out + PlainSlot(c)).Keys == if c.Hidden? then out.Keys + {c.d.name.value} else out.Keys
    decreases c, 1
  {
    var digests := DigestList(Cells(c, tail));
    assert digests[1..] == DigestList(tail) && digests[0] == Str(c.digest);
    match c
    case Gap(digest) =>
      MapEmpty(out);
      MapEmpty(st.paths);
    case Hidden(digest, d, t) =>
      AcceptsHidden(tab, c, path + [Key(d.name.value)], st);
      MapPut(out, d.name.value, Plain(t));
  }

  lemma ShownIsNoDigest(tab: Table, t: Tree)
    requires Fits(tab, t)
    ensures ElementDigest(Encode(t)) == Ok(None)
  {
    if t.ObjT? {
      MembersNotReserved(tab, t.members);
    }
  }

  lemma AppendAssociative<T>(a: seq<T>, b: seq<T>, c: seq<T>)
    ensures (a + b) + c == a + (b + c)
  {
  }

  lemma {:induction false} AcceptsCells(tab: Table, cells: Cells, out: seq<Json>, path: Path, st: State)
    requires FitsCells(tab, cells) && DistinctCells(cells) && CellsDigests(cells) !! st.seen
    ensures WalkItems(tab, EncodeCells(cells), out, path, st) ==
            Ok(Walked(out + PlainCells(cells), After(st, CellsDigests(cells), CellPlaces(cells, |out|, path))))
    decreases cells
  {
    match cells
    case NoCells =>
      assert out + [] == out;
      assert After(st, {}, map[]) == st;
    case Cells(head, tail) =>
      assert EncodeCells(cells)[1..] == EncodeCells(tail);
      var at, more := path + [Index(|out|)], out + PlainCell(head);
      var st1 := After(st, CellDigests(head), CellPlace(head, at));
      AcceptsCell(tab, head, EncodeCells(cells), out, path, st);
      AcceptsCells(tab, tail, more, path, st1);
      CellsAfter(head, tail, out, more, path, st);
  }

  /** What a first cell and the rest leave behind is what all of them leave. */
  lemma CellsAfter(head: Cell, tail: Cells, out: seq<Json>, more: seq<Json>, path: Path, st: State)
    requires more == out + PlainCell(head)
    ensures var at, all := path + [Index(|out|)], Cells(head, tail);
            && more + PlainCells(tail) == out + PlainCells(all)
            && After(After(st, CellDigests(head), CellPlace(head, at)), CellsDigests(tail),
                 CellPlaces(tail, |more|, path))
               == After(st, CellsDigests(all), CellPlaces(all, |out|, path))
  {
    AppendAssociative(out, PlainCell(head), PlainCells(tail));
    assert |more| == if head.Gap? then |out| else |out| + 1;
    assert CellPlaces(Cells(head, tail), |out|, path) ==
             CellPlace(head, path + [Index(|out|)]) + CellPlaces(tail, |more|, path);
    AfterTwice(st, CellDigests(head), CellPlace(head, path + [Index(|out|)]), CellsDigests(tail),
          CellPlaces(tail, |more|, path));
  }

  lemma {:induction false} AcceptsCell(tab: Table, c: Cell, items: seq<Json>, out: seq<Json>, path: Path, st: State)
    requires items != [] && EncodeCell(c) == items[0]
    requires FitsCell(tab, c) && (c.Hidden? ==> c.d.name.None?)
    requires DistinctCell(c) && CellDigests(c) !! st.seen
    ensures var at := path + [Index(|out|)];
            WalkItems(tab, items, out, path, st) ==
            WalkItems(tab, items[1..], out + PlainCell(c), path, After(st, CellDigests(c), CellPlace(c, at)))
    decreases c, 1
  {
    var at := path + [Index(|out|)];
    match c
    case Shown(t) =>
      ShownIsNoDigest(tab, t);
      AcceptsTree(tab, t, at, st);
    case Hidden(digest, d, t) =>
      assert ElementDigest(items[0]) == Ok(Some(digest));
      AcceptsHidden(tab, c, at, st);
    case Gap(digest) =>
      assert ElementDigest(items[0]) == Ok(Some(digest));
      assert out + [] == out;
      MapEmpty(st.paths);
  }

  // ---- soundness: whatever is accepted is the wire form of a well-formed tree

  /** `t` explains the wire value `v` under `tab`, with digests not seen before. */
  predicate Explains(tab: Table, t: Tree, v: Json, seen: set<string>) {
    Fits(tab, t) && Encode(t) == v && Distinct(t) && Digests(t) !! seen
  }

  lemma {:induction false} TreeOfValue(tab: Table, v: Json, path: Path, st: State) returns (t: Tree)
    requires WalkValue(tab, v, path, st).Ok?
    ensures Explains(tab, t, v, st.seen)
    decreases Unseen(tab, st), v, 2, 0
  {
    match v
    case Obj(fields) =>
      t := TreeOfObject(tab, fields, path, st);
    case Arr(items) =>
      var cells := TreeOfItems(tab, items, [], path, st);
      t := ArrT(cells);
    case _ =>
      t := Leaf(v);
  }

  lemma {:induction false} CarriedEncoding(fields: map<string, Json>, ms: Members)
    requires Carries(fields, ms)
    ensures forall k :: k in EncodeMembers(ms) ==> k in fields && EncodeMembers(ms)[k] == fields[k]
  {
    match ms
    case NoMembers =>
    case Members(_, _, rest) => CarriedEncoding(fields, rest);
  }

  lemma MembersEncoding(fields: map<string, Json>, ms: Members)
    requires Carries(fields, ms) && Names(ms) == InOrder(fields.Keys - {"_sd"})
    ensures EncodeMembers(ms) == fields - {"_sd"}
    ensures PlainMembers(ms).Keys == fields.Keys - {"_sd"}
  {
    MemberNames(ms);
    CarriedEncoding(fields, ms);
    assert EncodeMembers(ms).Keys == fields.Keys - {"_sd"};
  }

  lemma MapPutBack<K, V>(m: map<K, V>, k: K)
    ensures k in m ==> (m - {k})[k := m[k]] == m
    ensures k !in m ==> m - {k} == m
  {
  }

  lemma ObjectEncoding(fields: map<string, Json>, ms: Members, slots: Cells)
    requires Carries(fields, ms) && Names(ms) == InOrder(fields.Keys - {"_sd"})
    requires "_sd" in fields ==> fields["_sd"] == Arr(DigestList(slots))
    ensures Encode(ObjT(ms, "_sd" in fields, slots)) == Obj(fields)
    ensures Names(ms) == InOrder(PlainMembers(ms).Keys)
  {
    MembersEncoding(fields, ms);
    MapPutBack(fields, "_sd");
  }

  lemma {:induction false} SlotsOfObject(tab: Table, fields: map<string, Json>, ms: Members, path: Path, st: State)
    returns (slots: Cells)
    requires WalkObject(tab, fields, path, st).Ok? && "_sd" in fields
    requires Carries(fields, ms) && Names(ms) == InOrder(fields.Keys - {"_sd"})
    requires FitsMembers(tab, ms) && DistinctMembers(ms) && MembersDigests(ms) !! st.seen
    ensures fields["_sd"] == Arr(DigestList(slots)) && FitsSlots(tab, slots, PlainMembers(ms).Keys)
    ensures DistinctCells(slots) && CellsDigests(slots) !! st.seen + MembersDigests(ms)
    decreases Unseen(tab, st), fields["_sd"], 1, 0
  {
    AcceptsMembers(tab, fields, ms, map[], path, st);
    MapEmpty(PlainMembers(ms));
    var st1 := After(st, MembersDigests(ms), MemberPlaces(ms, path));
    UnseenShrinks(tab, st, st1);
    slots := TreeOfDigests(tab, fields["_sd"].items, PlainMembers(ms), path, st1);
  }

  /** An accepted object starts with its ordinary members. */
  lemma FieldsFirst(tab: Table, fields: map<string, Json>, path: Path, st: State)
    requires WalkObject(tab, fields, path, st).Ok?
    ensures forall k :: k in InOrder(fields.Keys - {"_sd"}) ==> k in fields && k != "_sd" && k != "..."
    ensures WalkFields(tab, fields, InOrder(fields.Keys - {"_sd"}), map[], path, st).Ok?
  {
  }

  lemma {:induction false} TreeOfObject(tab: Table, fields: map<string, Json>, path: Path, st: State)
    returns (t: Tree)
    requires WalkObject(tab, fields, path, st).Ok?
    ensures t.ObjT? && Explains(tab, t, Obj(fields), st.seen)
    decreases Unseen(tab, st), Obj(fields), 1, 0
  {
    FieldsFirst(tab, fields, path, st);
    var ms := TreeOfFields(tab, fields, InOrder(fields.Keys - {"_sd"}), map[], path, st);
    var slots := NoCells;
    if "_sd" in fields {
      slots := SlotsOfObject(tab, fields, ms, path, st);
    }
    t := ObjT(ms, "_sd" in fields, slots);
    ObjectExplains(tab, fields, ms, slots, st.seen);
  }

  /** The tree made of the members and the slots of an object explains it. */
  lemma ObjectExplains(tab: Table, fields: map<string, Json>, ms: Members, slots: Cells, seen: set<string>)
    requires Carries(fields, ms) && Names(ms) == InOrder(fields.Keys - {"_sd"})
    requires FitsMembers(tab, ms) && DistinctMembers(ms) && MembersDigests(ms) !! seen
    requires if "_sd" in fields then fields["_sd"] == Arr(DigestList(slots)) else slots == NoCells
    requires FitsSlots(tab, slots, PlainMembers(ms).Keys) && DistinctCells(slots)
    requires CellsDigests(slots) !! seen + MembersDigests(ms)
    ensures Explains(tab, ObjT(ms, "_sd" in fields, slots), Obj(fields), seen)
  {
    ObjectEncoding(fields, ms, slots);
  }

  /** What is left of the fields once the first is known to be the wire form of `t`. */
  lemma FieldStep(tab: Table, fields: map<string, Json>, keys: seq<string>, out: map<string, Json>, path: Path,
                  st: State, t: Tree)
    returns (st1: State)
    requires keys != [] && (forall k :: k in keys ==> k in fields) && WalkFields(tab, fields, keys, out, path, st).Ok?
    requires Encode(t) == fields[keys[0]] && Fits(tab, t) && Distinct(t) && Digests(t) !! st.seen
    ensures st1.seen == st.seen + Digests(t) && Unseen(tab, st1) <= Unseen(tab, st)
    ensures WalkFields(tab, fields, keys[1..], out[keys[0] := Plain(t)], path, st1).Ok?
  {
    var at := path + [Key(keys[0])];
    AcceptsTree(tab, t, at, st);
    st1 := After(st, Digests(t), Places(t, at));
    UnseenShrinks(tab, st, st1);
  }

  lemma ConsField(tab: Table, fields: map<string, Json>, keys: seq<string>, t: Tree, rest: Members, seen: set<string>)
    requires keys != [] && keys[0] in fields && keys[0] != "_sd" && keys[0] != "..."
    requires Encode(t) == fields[keys[0]] && Fits(tab, t) && Distinct(t) && Digests(t) !! seen
    requires Names(rest) == keys[1..] && Carries(fields, rest) && FitsMembers(tab, rest) && DistinctMembers(rest)
    requires MembersDigests(rest) !! seen + Digests(t)
    ensures var ms := Members(keys[0], t, rest);
            && Names(ms) == keys && Carries(fields, ms)
            && FitsMembers(tab, ms) && DistinctMembers(ms) && MembersDigests(ms) !! seen
  {
    assert keys == [keys[0]] + keys[1..];
  }

  lemma {:induction false} TreeOfFields(tab: Table, fields: map<string, Json>, keys: seq<string>,
                                        out: map<string, Json>, path: Path, st: State) returns (ms: Members)
    requires forall k :: k in keys ==> k in fields && k != "_sd" && k != "..."
    requires WalkFields(tab, fields, keys, out, path, st).Ok?
    ensures Names(ms) == keys && Carries(fields, ms)
    ensures FitsMembers(tab, ms) && DistinctMembers(ms) && MembersDigests(ms) !! st.seen
    decreases Unseen(tab, st), Obj(fields), 0, |keys|
  {
    if keys == [] {
      ms := NoMembers;
    } else {
      var k := keys[0];
      var t := TreeOfValue(tab, fields[k], path + [Key(k)], st);
      var st1 := FieldStep(tab, fields, keys, out, path, st, t);
      var rest := TreeOfFields(tab, fields, keys[1..], out[k := Plain(t)], path, st1);
      ConsField(tab, fields, keys, t, rest, st.seen);
      ms := Members(k, t, rest);
    }
  }

  lemma {:induction false} TreeOfHidden(tab: Table, digest: string, at: Path, st: State) returns (c: Cell)
    requires digest in tab && digest !in st.seen
    requires WalkValue(tab, tab[digest].value, at, Land(digest, at, st)).Ok?
    ensures c.Hidden? && c.digest == digest && c.d == tab[digest]
    ensures FitsCell(tab, c) && DistinctCell(c) && CellDigests(c) !! st.seen
    decreases Unseen(tab, Land(digest, at, st)), tab[digest].value, 3, 0
  {
    var t := TreeOfValue(tab, tab[digest].value, at, Land(digest, at, st));
    c := Hidden(digest, tab[digest], t);
  }

  lemma {:induction false} TreeOfDigests(tab: Table, digests: seq<Json>, out: map<string, Json>, path: Path,
                                         st: State)
    returns (slots: Cells)
    requires WalkDigests(tab, digests, out, path, st).Ok?
    ensures DigestList(slots) == digests
    ensures FitsSlots(tab, slots, out.Keys) && DistinctCells(slots) && CellsDigests(slots) !! st.seen
    decreases Unseen(tab, st), digests, 0, 0
  {
    if digests == [] {
      slots := NoCells;
    } else {
      var digest := digests[0].s;
      var c := Gap(digest);
      if digest in tab {
        var at := path + [Key(tab[digest].name.value)];
        LandShrinks(tab, digest, at, st);
        c := TreeOfHidden(tab, digest, at, st);
      }
      var tail := TreeOfTailDigests(tab, c, digests, out, path, st);
      slots := Cells(c, tail);
    }
  }

  lemma {:induction false} TreeOfTailDigests(tab: Table, c: Cell, digests: seq<Json>, out: map<string, Json>,
                                             path: Path, st: State)
    returns (tail: Cells)
    requires digests != [] && !c.Shown? && digests[0] == Str(c.digest)
    requires WalkDigests(tab, digests, out, path, st).Ok?
    requires FitsCell(tab, c) && DistinctCell(c) && CellDigests(c) !! st.seen
    ensures c.Hidden? ==> GoodName(c.d.name, out.Keys)
    ensures DigestList(tail) == digests[1..]
    ensures FitsSlots(tab, tail, if c.Hidden? then out.Keys + {c.d.name.value} else out.Keys)
    ensures DistinctCells(tail) && CellsDigests(tail) !! st.seen + CellDigests(c)
    decreases Unseen(tab, st), digests[1..], 1, 0
  {
    if c.Gap? {
      var st1 := st.(seen := st.seen + {c.digest});
      UnseenShrinks(tab, st, st1);
      tail := TreeOfDigests(tab, digests[1..], out, path, st1);
    } else {
      var name := c.d.name.value;
      AcceptsHidden(tab, c, path + [Key(name)], st);
      var st1 := After(st, CellDigests(c), SlotPlace(c, path));
      UnseenShrinks(tab, st, st1);
      var out1 := out[name := Plain(c.t)];
      tail := TreeOfDigests(tab, digests[1..], out1, path, st1);
      assert out1.Keys == out.Keys + {name};
    }
  }

  lemma {:induction false} TreeOfItems(tab: Table, items: seq<Json>, out: seq<Json>, path: Path, st: State)
    returns (cells: Cells)
    requires WalkItems(tab, items, out, path, st).Ok?
    ensures EncodeCells(cells) == items
    ensures FitsCells(tab, cells) && DistinctCells(cells) && CellsDigests(cells) !! st.seen
    decreases Unseen(tab, st), items, 3, 0
  {
    if items == [] {
      cells := NoCells;
    } else {
      var at := path + [Index(|out|)];
      var c := TreeOfItem(tab, items, out, path, st);
      var tail := TreeOfTailItems(tab, c, items, out, path, st);
      cells := Cells(c, tail);
    }
  }

  lemma {:induction false} TreeOfItem(tab: Table, items: seq<Json>, out: seq<Json>, path: Path, st: State)
    returns (c: Cell)
    requires items != [] && WalkItems(tab, items, out, path, st).Ok?
    ensures EncodeCell(c) == items[0] && FitsCell(tab, c) && (c.Hidden? ==> c.d.name.None?)
    ensures DistinctCell(c) && CellDigests(c) !! st.seen
    decreases Unseen(tab, st), items[0], 3, 0
  {
    var at := path + [Index(|out|)];
    var found := ElementDigest(items[0]).value;
    if found.None? {
      var t := TreeOfValue(tab, items[0], at, st);
      c := Shown(t);
    } else {
      var digest := found.value;
      assert items[0].fields == map["..." := Str(digest)];
      if digest in tab {
        LandShrinks(tab, digest, at, st);
        c := TreeOfHidden(tab, digest, at, st);
      } else {
        c := Gap(digest);
      }
    }
  }

  lemma {:induction false} TreeOfTailItems(tab: Table, c: Cell, items: seq<Json>, out: seq<Json>, path: Path,
                                           st: State)
    returns (tail: Cells)
    requires items != [] && EncodeCell(c) == items[0]
    requires WalkItems(tab, items, out, path, st).Ok?
    requires FitsCell(tab, c) && (c.Hidden? ==> c.d.name.None?)
    requires DistinctCell(c) && CellDigests(c) !! st.seen
    ensures EncodeCells(tail) == items[1..]
    ensures FitsCells(tab, tail) && DistinctCells(tail) && CellsDigests(tail) !! st.seen + CellDigests(c)
    decreases Unseen(tab, st), items[1..], 4, 0
  {
    var at := path + [Index(|out|)];
    var st1 := After(st, CellDigests(c), CellPlace(c, at));
    UnseenShrinks(tab, st, st1);
    AcceptsCell(tab, c, items, out, path, st);
    tail := TreeOfItems(tab, items[1..], out + PlainCell(c), path, st1);
  }

}
