/** Claims carried in the clear: no choice of disclosures hides them (crates/sdjwt/src/process.rs, verify.rs). */
module ClearClaims {
  import opened Prelude
  import opened Json
  import opened Processing
  import opened SdTree
  import opened Walk
  import opened Landing
  import opened Restriction
  import opened Selection
  import opened Conceal
  import V = Verification

  // ---- a value without digests is its own reading

  predicate ClearMembers(ms: Members) {
    match ms
    case NoMembers => true
    case Members(_, t, rest) => Unreserved(Encode(t)) && ClearMembers(rest)
  }

  lemma {:induction false} MembersClear(fields: map<string, Json>, ms: Members)
    requires Carries(fields, ms) && forall k :: k in fields ==> Unreserved(fields[k])
    ensures ClearMembers(ms)
  {
    match ms
    case NoMembers =>
    case Members(_, _, rest) => MembersClear(fields, rest);
  }

  lemma CellClear(c: Cell)
    requires Unreserved(EncodeCell(c))
    ensures c.Shown?
  {
  }

  lemma {:induction false} ClearStays(tab: Table, t: Tree)
    requires Fits(tab, t) && Unreserved(Encode(t))
    ensures Plain(t) == Encode(t)
    decreases t
  {
    match t
    case Leaf(_) =>
    case ArrT(cells) => ClearCellsStay(tab, cells);
    case ObjT(ms, hasSd, slots) =>
      assert "_sd" !in Encode(t).fields;
      NamesUnique(ms);
      EncodingCarries(ms);
      MembersClear(EncodeMembers(ms), ms);
      ClearMembersStay(tab, ms);
      MapEmpty(PlainMembers(ms));
  }

  lemma {:induction false} ClearMembersStay(tab: Table, ms: Members)
    requires FitsMembers(tab, ms) && Unique(ms) && ClearMembers(ms)
    ensures PlainMembers(ms) == EncodeMembers(ms)
    decreases ms
  {
    match ms
    case NoMembers =>
    case Members(name, t, rest) =>
      ClearStays(tab, t);
      ClearMembersStay(tab, rest);
      PutFirst(PlainMembers(rest), name, Plain(t));
  }

  lemma PutFirst<K, V>(m: map<K, V>, k: K, v: V)
    requires k !in m
    ensures map[k := v] + m == m[k := v]
  {
  }

  lemma {:induction false} ClearCellsStay(tab: Table, cells: Cells)
    requires FitsCells(tab, cells) && forall i :: 0 <= i < |EncodeCells(cells)| ==> Unreserved(EncodeCells(cells)[i])
    ensures PlainCells(cells) == EncodeCells(cells)
    decreases cells
  {
    match cells
    case NoCells =>
    case Cells(head, tail) =>
      assert EncodeCells(cells)[0] == EncodeCell(head) && EncodeCells(cells)[1..] == EncodeCells(tail);
      assert forall i :: 0 <= i < |EncodeCells(tail)| ==> EncodeCells(tail)[i] == EncodeCells(cells)[i + 1];
      CellClear(head);
      ClearStays(tab, head.t);
      ClearCellsStay(tab, tail);
  }

  // ---- items of a list that an object carries

  /** The list under `name` has an item that is `ok`. */
  ghost predicate Lists(fields: map<string, Json>, name: string, ok: Json -> bool) {
    name in fields && fields[name].Arr? && exists x :: x in fields[name].items && ok(x)
  }

  /** And carries it in the clear. */
  ghost predicate ClearlyLists(fields: map<string, Json>, name: string, ok: Json -> bool) {
    name in fields && fields[name].Arr? && exists x :: x in fields[name].items && Unreserved(x) && ok(x)
  }

  lemma {:induction false} ClearItemStays(tab: Table, cells: Cells, x: Json)
    requires FitsCells(tab, cells) && x in EncodeCells(cells) && Unreserved(x)
    ensures x in PlainCells(cells)
    decreases cells
  {
    match cells
    case NoCells =>
    case Cells(head, tail) =>
      if EncodeCell(head) == x {
        CellClear(head);
        ClearStays(tab, head.t);
      } else {
        ClearItemStays(tab, tail, x);
      }
  }

  /** A member other than `_sd` is read as the member that is written. */
  lemma MemberReads(tab: Table, t: Tree, name: string)
    requires t.ObjT? && Fits(tab, t) && name != "_sd" && name in Encode(t).fields
    ensures MemberNamed(t.members, name).Some? && name in Plain(t).fields
    ensures var sub := MemberNamed(t.members, name).value;
            && Fits(tab, sub) && Encode(sub) == Encode(t).fields[name] && Plain(t).fields[name] == Plain(sub)
            && Digests(sub) <= Digests(t) && (Distinct(t) ==> Distinct(sub))
  {
    var ms := t.members;
    NamesUnique(ms);
    MemberWritten(ms, name);
    MemberFound(ms, name);
    MemberFits(tab, ms, name);
    SlotNamesFresh(tab, t.slots, PlainMembers(ms).Keys);
  }

  lemma {:induction false} MemberWritten(ms: Members, name: string)
    requires Unique(ms) && name in EncodeMembers(ms)
    ensures MemberNamed(ms, name).Some?
    ensures var sub := MemberNamed(ms, name).value;
            && Encode(sub) == EncodeMembers(ms)[name] && Digests(sub) <= MembersDigests(ms)
            && (DistinctMembers(ms) ==> Distinct(sub))
  {
    match ms
    case Members(n, _, rest) => if n != name { MemberWritten(rest, name); } else { MemberNames(rest); }
  }

  /** An item carried in the clear is in the list that is read, whatever is disclosed. */
  lemma ObjectLists(tab: Table, t: Tree, name: string, ok: Json -> bool)
    requires t.ObjT? && Fits(tab, t) && name != "_sd" && ClearlyLists(Encode(t).fields, name, ok)
    ensures Lists(Plain(t).fields, name, ok)
  {
    MemberReads(tab, t, name);
    var sub := MemberNamed(t.members, name).value;
    var x :| x in Encode(t).fields[name].items && Unreserved(x) && ok(x);
    if sub.ArrT? { ClearItemStays(tab, sub.cells, x); }
  }

  /** An item carried in the clear is in the claims for every set of disclosures that processes. */
  lemma ClearListed(payload: map<string, Json>, ds: seq<Disclosure>, hash: string -> string, name: string,
                    ok: Json -> bool)
    requires Process(payload, ds, hash).Ok? && name != "_sd" && name != "_sd_alg" && ClearlyLists(payload, name, ok)
    ensures Lists(Process(payload, ds, hash).value.claims, name, ok)
  {
    var t := ReadingOf(hash, payload, ds);
    ProcessReads(hash, payload, ds, t);
    ObjectLists(Tabulate(hash, ds).value, t, name, ok);
  }

  /** Every item is carried in the clear or is a digest. */
  predicate Simple(items: seq<Json>) {
    forall i :: 0 <= i < |items| ==> Unreserved(items[i]) || V.IsDigest(items[i])
  }

  /** The list under `name`, if there is one, is simple. */
  predicate SimpleList(fields: map<string, Json>, name: string) {
    name in fields && fields[name].Arr? ==> Simple(fields[name].items)
  }

  // ---- with nothing disclosed inside, only what is clear is read

  lemma {:induction false} NothingRevealed(tab: Table, cells: Cells, x: Json)
    requires FitsCells(tab, cells) && tab.Keys !! CellsDigests(cells)
    requires Simple(EncodeCells(cells)) && x in PlainCells(cells)
    ensures x in EncodeCells(cells) && Unreserved(x)
    decreases cells
  {
    match cells
    case Cells(head, tail) =>
      assert EncodeCells(cells)[0] == EncodeCell(head) && EncodeCells(cells)[1..] == EncodeCells(tail);
      assert forall i :: 0 <= i < |EncodeCells(tail)| ==> EncodeCells(tail)[i] == EncodeCells(cells)[i + 1];
      if x in PlainCell(head) {
        ShownIsNoDigest(tab, head.t);
        ClearStays(tab, head.t);
      } else {
        NothingRevealed(tab, tail, x);
      }
  }

  lemma {:induction false} NoSlots(tab: Table, slots: Cells, taken: set<string>)
    requires FitsSlots(tab, slots, taken) && tab.Keys !! CellsDigests(slots)
    ensures PlainSlots(slots) == map[]
    decreases slots
  {
    match slots
    case NoCells =>
    case Cells(head, tail) => NoSlots(tab, tail, taken);
  }

  /** An object none of whose digests is disclosed lists only what it carries in the clear. */
  lemma BareLists(tab: Table, t: Tree, name: string, ok: Json -> bool)
    requires t.ObjT? && Fits(tab, t) && tab.Keys !! Digests(t) && name != "_sd" && SimpleList(Encode(t).fields, name)
    ensures Lists(Plain(t).fields, name, ok) <==> ClearlyLists(Encode(t).fields, name, ok)
  {
    if ClearlyLists(Encode(t).fields, name, ok) { ObjectLists(tab, t, name, ok); }
    if Lists(Plain(t).fields, name, ok) {
      NoSlots(tab, t.slots, PlainMembers(t.members).Keys);
      MemberNames(t.members);
      MemberReads(tab, t, name);
      var sub := MemberNamed(t.members, name).value;
      var x :| x in Plain(t).fields[name].items && ok(x);
      if sub.ArrT? { NothingRevealed(tab, sub.cells, x); }
    }
  }

  /** For a list of clear items and digests: listed whatever is disclosed, exactly when carried in the clear. */
  lemma AlwaysListedExact(payload: map<string, Json>, hash: string -> string, name: string, ok: Json -> bool)
    requires name != "_sd" && name != "_sd_alg" && SimpleList(payload, name) && Process(payload, [], hash).Ok?
    ensures (forall ds :: Process(payload, ds, hash).Ok? ==> Lists(Process(payload, ds, hash).value.claims, name, ok))
            <==> ClearlyLists(payload, name, ok)
  {
    if ClearlyLists(payload, name, ok) {
      forall ds | Process(payload, ds, hash).Ok? ensures Lists(Process(payload, ds, hash).value.claims, name, ok) {
        ClearListed(payload, ds, hash, name, ok);
      }
    }
    var t := ReadingOf(hash, payload, []);
    ProcessReads(hash, payload, [], t);
    BareLists(map[], t, name, ok);
  }
}
