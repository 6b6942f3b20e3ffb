/**
 Delegate Payloads in the clear: what no opening of a JWT can hide
 (crates/sdjwt/src/verify.rs). A JWT may offer several elements, each with
 disclosures inside, and a presentation opens exactly one of them.
 */
module ClearDelegates {
  import opened Prelude
  import opened Json
  import opened Processing
  import opened SdTree
  import opened Walk
  import opened Landing
  import opened Restriction
  import opened Selection
  import opened ClearClaims
  import opened Presentations
  import V = Verification

  /** The signed payload. */
  function Raw(w: V.World, jwt: string): map<string, Json> {
    w.decode(jwt).payload
  }

  function HashOf(w: V.World, jwt: string): string -> string
    requires V.AlgOf(Raw(w, jwt)).Ok?
  {
    V.Hash(w, V.AlgOf(Raw(w, jwt)).value)
  }

  /** The Delegate Payload read with the disclosures `ds`. */
  function Delegated(w: V.World, jwt: string, ds: seq<string>): (r: Result<map<string, Json>, V.VerifyError>)
    ensures r.Ok? ==> V.AlgOf(Raw(w, jwt)).Ok? && "delegate_payload" in Raw(w, jwt)
                      && Raw(w, jwt)["delegate_payload"].Arr?
  {
    var parts :- V.LinkClaims(w, SdJwt(jwt, ds));
    Ok(parts.0)
  }

  /** `item` of `delegate_payload` is written as `fields`: in place, or in the one disclosure of `bare`. */
  predicate WrittenAs(w: V.World, jwt: string, bare: seq<string>, item: Json, fields: map<string, Json>)
    requires V.AlgOf(Raw(w, jwt)).Ok?
  {
    if |bare| == 1 then
      && item == DigestObject(HashOf(w, jwt)(w.disclosure(bare[0]).encoded))
      && w.disclosure(bare[0]).value == Obj(fields)
    else bare == [] && item == Obj(fields) && !V.IsDigest(item)
  }

  /** With `bare`, at most one disclosure, the JWT opens to an element that is written as `fields`. */
  ghost predicate OpensTo(w: V.World, jwt: string, bare: seq<string>, fields: map<string, Json>) {
    && Delegated(w, jwt, bare).Ok?
    && exists item :: item in Raw(w, jwt)["delegate_payload"].items && WrittenAs(w, jwt, bare, item, fields)
  }

  /** However the JWT is opened, the element carries an `ok` item of its list in the clear. */
  ghost predicate JwtShows(w: V.World, jwt: string, name: string, ok: Json -> bool) {
    forall bare, fields :: OpensTo(w, jwt, bare, fields) ==> ClearlyLists(fields, name, ok)
  }

  ghost predicate SimpleOpenings(w: V.World, jwt: string, name: string) {
    forall bare, fields :: OpensTo(w, jwt, bare, fields) ==> SimpleList(fields, name)
  }

  // ---- the element that is read

  /** The list `delegate_payload` of a reading. */
  function Offered(t: Tree): Option<Cells> {
    if !t.ObjT? then None
    else match MemberNamed(t.members, "delegate_payload")
      case Some(ArrT(cells)) => Some(cells)
      case _ => None
  }

  /** `c` is the one visible element of `delegate_payload` in the reading `t`. */
  predicate Opening(tab: Table, t: Tree, c: Cell) {
    && Offered(t).Some? && "delegate_payload" in Encode(t).fields
    && |PlainCells(Offered(t).value)| == 1 && VisibleAt(Offered(t).value, 0) == Some(c)
    && !c.Gap? && FitsCell(tab, c) && DistinctCell(c) && c.t.ObjT? && "_sd_alg" !in Plain(c.t).fields
  }

  function TableOf(w: V.World, jwt: string, ds: seq<string>): Result<Table, ErrorKind>
    requires V.AlgOf(Raw(w, jwt)).Ok?
  {
    Tabulate(HashOf(w, jwt), V.Opened(w, SdJwt(jwt, ds)))
  }

  /** With `ds` the signed payload reads as `t`, in which `c` is the element opened. */
  predicate Links(w: V.World, jwt: string, ds: seq<string>, t: Tree, c: Cell) {
    && V.AlgOf(Raw(w, jwt)).Ok?
    && Readable(HashOf(w, jwt), Raw(w, jwt), V.Opened(w, SdJwt(jwt, ds)), t)
    && Opening(TableOf(w, jwt, ds).value, t, c)
    && Encode(t).fields["delegate_payload"] == Arr(EncodeCells(Offered(t).value))
  }

  lemma {:induction false} VisibleIn(cells: Cells, k: nat)
    requires VisibleAt(cells, k).Some?
    ensures var c := VisibleAt(cells, k).value;
            && EncodeCell(c) in EncodeCells(cells) && RevealedCell(c) <= RevealedCells(cells)
            && (DistinctCells(cells) ==> DistinctCell(c))
    decreases cells
  {
    match cells
    case Cells(head, tail) =>
      if head.Gap? { VisibleIn(tail, k); } else if k > 0 { VisibleIn(tail, k - 1); }
  }

  lemma {:induction false} MemberRevealed(ms: Members, name: string)
    requires MemberNamed(ms, name).Some?
    ensures Revealed(MemberNamed(ms, name).value) <= RevealedMembers(ms)
  {
    match ms
    case Members(n, _, rest) => if n != name { MemberRevealed(rest, name); }
  }

  /** What can be taken out of the claims is the one object in `delegate_payload`. */
  lemma TakesOnly(claims: map<string, Json>)
    requires V.TakeDelegatePayload(claims - {"_sd_alg"}).Ok?
    ensures "delegate_payload" in claims
    ensures var fields := V.TakeDelegatePayload(claims - {"_sd_alg"}).value.0;
            claims["delegate_payload"] == Arr([Obj(fields)]) && "_sd_alg" !in fields
  {
    var items := claims["delegate_payload"].items;
    assert items == [items[0]];
  }

  lemma OnlyElement(tab: Table, t: Tree, fields: map<string, Json>) returns (c: Cell)
    requires t.ObjT? && Fits(tab, t) && Distinct(t)
    requires "delegate_payload" in Encode(t).fields && Encode(t).fields["delegate_payload"].Arr?
    requires "delegate_payload" in Plain(t).fields && Plain(t).fields["delegate_payload"] == Arr([Obj(fields)])
    requires "_sd_alg" !in fields
    ensures Opening(tab, t, c) && Plain(c.t) == Obj(fields)
    ensures Encode(t).fields["delegate_payload"] == Arr(EncodeCells(Offered(t).value))
  {
    MemberReads(tab, t, "delegate_payload");
    var dp := MemberNamed(t.members, "delegate_payload").value;
    assert dp.ArrT? && FitsCells(tab, dp.cells) && DistinctCells(dp.cells);
    c := OnlyCell(tab, dp.cells);
    assert [Plain(c.t)] == [Obj(fields)];
    assert Offered(t) == Some(dp.cells);
  }

  lemma OnlyCell(tab: Table, cells: Cells) returns (c: Cell)
    requires FitsCells(tab, cells) && DistinctCells(cells) && |PlainCells(cells)| == 1
    ensures VisibleAt(cells, 0) == Some(c) && !c.Gap? && FitsCell(tab, c) && DistinctCell(c)
    ensures PlainCells(cells) == [Plain(c.t)]
  {
    VisibleFound(cells, 0);
    VisibleFits(tab, cells, 0);
    VisibleIn(cells, 0);
    c := VisibleAt(cells, 0).value;
  }

  /** Reading a link comes down to one element of its `delegate_payload`. */
  lemma LinkReads(w: V.World, jwt: string, ds: seq<string>) returns (t: Tree, c: Cell)
    requires Delegated(w, jwt, ds).Ok?
    ensures Links(w, jwt, ds, t, c) && Obj(Delegated(w, jwt, ds).value) == Plain(c.t)
  {
    var hash, all := HashOf(w, jwt), V.Opened(w, SdJwt(jwt, ds));
    t := ReadingOf(hash, Raw(w, jwt), all);
    ProcessReads(hash, Raw(w, jwt), all, t);
    TakesOnly(Plain(t).fields);
    c := OnlyElement(Tabulate(hash, all).value, t, Delegated(w, jwt, ds).value);
  }

  /** And conversely. */
  lemma LinkOpens(w: V.World, jwt: string, ds: seq<string>, t: Tree, c: Cell)
    requires V.CheckRawDelegatePayload(Raw(w, jwt)).Ok? && Links(w, jwt, ds, t, c)
    ensures Delegated(w, jwt, ds).Ok? && Obj(Delegated(w, jwt, ds).value) == Plain(c.t)
  {
    var hash, all := HashOf(w, jwt), V.Opened(w, SdJwt(jwt, ds));
    ProcessReads(hash, Raw(w, jwt), all, t);
    VisibleFound(Offered(t).value, 0);
    MemberReads(Tabulate(hash, all).value, t, "delegate_payload");
  }

  // ---- the same element, with nothing disclosed inside

  lemma FewerNames(t: Tree, keep: set<string>)
    requires t.ObjT?
    ensures Plain(Restrict(t, keep)).fields.Keys <= Plain(t).fields.Keys
  {
    RestrictNames(t.members, keep);
    FewerSlots(t.slots, keep);
  }

  lemma CellsRestricted(cells: Cells, c: Cell, keep: set<string>)
    requires |PlainCells(cells)| == 1 && VisibleAt(cells, 0) == Some(c) && Kept(c, keep)
    ensures var some := RestrictCells(cells, keep);
            && |PlainCells(some)| == 1 && VisibleAt(some, 0) == Some(RestrictCell(c, keep))
            && RevealedCell(RestrictCell(c, keep)) <= RevealedCells(some)
  {
    VisibleRestricted(cells, keep, 0);
    assert KeptBefore(cells, keep, 0) == 0 by { NoneBefore(cells, keep); }
    VisibleFound(RestrictCells(cells, keep), 0);
    FewerVisible(cells, keep);
    VisibleIn(RestrictCells(cells, keep), 0);
  }

  lemma {:induction false} NoneBefore(cells: Cells, keep: set<string>)
    ensures KeptBefore(cells, keep, 0) == 0
    decreases cells
  {
    match cells
    case NoCells =>
    case Cells(_, tail) => NoneBefore(tail, keep);
  }

  /** Withholding all but the element itself leaves the same element open. */
  lemma OpeningRestricted(tab: Table, small: Table, t: Tree, c: Cell, keep: set<string>)
    requires Opening(tab, t, c) && Kept(c, keep) && SubTable(small, tab, keep)
    ensures Opening(small, Restrict(t, keep), RestrictCell(c, keep))
    ensures Offered(Restrict(t, keep)) == Some(RestrictCells(Offered(t).value, keep))
    ensures RevealedCell(RestrictCell(c, keep)) <= Revealed(Restrict(t, keep))
  {
    MemberRestricted(t.members, keep, "delegate_payload");
    MemberRevealed(RestrictMembers(t.members, keep), "delegate_payload");
    RestrictEncode(t, keep);
    CellsRestricted(Offered(t).value, c, keep);
    RestrictFitsCell(tab, small, c, keep);
    RestrictDistinctCell(c, keep);
    FewerNames(c.t, keep);
  }

  /** The reading that keeps the disclosure of the open element, if it has one, and withholds the rest. */
  lemma BareReading(tab: Table, small: Table, t: Tree, c: Cell, keep: set<string>)
    requires Fits(tab, t) && Distinct(t) && Opening(tab, t, c) && SubTable(small, tab, keep) && small.Keys == keep
    requires keep == if c.Hidden? then {c.digest} else {}
    ensures var r := Restrict(t, keep);
            && Explains(small, r, Encode(t), {}) && Places(r, []).Keys == small.Keys
            && Opening(small, r, RestrictCell(c, keep))
            && EncodeCells(Offered(r).value) == EncodeCells(Offered(t).value)
  {
    OpeningRestricted(tab, small, t, c, keep);
    RestrictFits(tab, small, t, keep);
    RestrictEncode(t, keep);
    RestrictEncodeCells(Offered(t).value, keep);
    RestrictDistinct(t, keep);
    PlacesRevealed(small, Restrict(t, keep), []);
    PlacesAreDisclosed(small, Restrict(t, keep), []);
  }

  /** The table of one disclosure, or of none. */
  lemma BareTable(w: V.World, jwt: string, bare: seq<string>)
    requires V.AlgOf(Raw(w, jwt)).Ok? && |bare| <= 1
    ensures TableOf(w, jwt, bare) ==
            Ok(if bare == [] then map[]
               else map[HashOf(w, jwt)(w.disclosure(bare[0]).encoded) := w.disclosure(bare[0])])
  {
    var all := V.Opened(w, SdJwt(jwt, bare));
    if bare != [] {
      TabulateOne(HashOf(w, jwt), w.disclosure(bare[0]));
      assert all == [w.disclosure(bare[0])];
    }
  }

  /** The disclosure of the open element, if it has one. */
  lemma BareOf(w: V.World, jwt: string, ds: seq<string>, c: Cell) returns (bare: seq<string>)
    requires V.AlgOf(Raw(w, jwt)).Ok? && TableOf(w, jwt, ds).Ok?
    requires !c.Gap? && FitsCell(TableOf(w, jwt, ds).value, c) && c.t.ObjT?
    ensures TableOf(w, jwt, bare).Ok?
    ensures TableOf(w, jwt, bare).value.Keys == if c.Hidden? then {c.digest} else {}
    ensures SubTable(TableOf(w, jwt, bare).value, TableOf(w, jwt, ds).value, TableOf(w, jwt, bare).value.Keys)
    ensures WrittenAs(w, jwt, bare, EncodeCell(c), Encode(c.t).fields)
  {
    if c.Hidden? {
      var i := FoundIn(HashOf(w, jwt), V.Opened(w, SdJwt(jwt, ds)), c.digest);
      bare := [ds[i]];
      BareTable(w, jwt, bare);
      assert Encode(c.t) == w.disclosure(bare[0]).value;
    } else {
      bare := [];
      BareTable(w, jwt, bare);
      ShownIsNoDigest(TableOf(w, jwt, ds).value, c.t);
    }
  }

  /** Whatever a JWT opens to, it opens to the same element with nothing disclosed inside. */
  lemma OpensBare(w: V.World, jwt: string, ds: seq<string>, t: Tree, c: Cell) returns (bare: seq<string>)
    requires Delegated(w, jwt, ds).Ok? && Links(w, jwt, ds, t, c)
    ensures OpensTo(w, jwt, bare, Encode(c.t).fields)
  {
    bare := BareOf(w, jwt, ds, c);
    var keep := TableOf(w, jwt, bare).value.Keys;
    BareReading(TableOf(w, jwt, ds).value, TableOf(w, jwt, bare).value, t, c, keep);
    LinkOpens(w, jwt, bare, Restrict(t, keep), RestrictCell(c, keep));
    VisibleIn(Offered(t).value, 0);
    assert WrittenAs(w, jwt, bare, EncodeCell(c), Encode(c.t).fields);
  }

  /** What every opening carries in the clear is read, whatever is disclosed. */
  lemma LinkLists(w: V.World, jwt: string, ds: seq<string>, name: string, ok: Json -> bool)
    requires name != "_sd" && JwtShows(w, jwt, name, ok) && Delegated(w, jwt, ds).Ok?
    ensures Lists(Delegated(w, jwt, ds).value, name, ok)
  {
    var t, c := LinkReads(w, jwt, ds);
    var bare := OpensBare(w, jwt, ds, t, c);
    ObjectLists(Tabulate(HashOf(w, jwt), V.Opened(w, SdJwt(jwt, ds))).value, c.t, name, ok);
  }

  // ---- what is read with nothing disclosed inside

  lemma GapUndisclosed(tab: Table, c: Cell, g: string)
    requires c.Gap? && FitsCell(tab, c)
    ensures V.IsDigest(EncodeCell(c)) && (EncodeCell(c) == DigestObject(g) ==> g !in tab)
  {
    if EncodeCell(c) == DigestObject(g) {
      assert DigestObject(g).fields["..."] == DigestObject(c.digest).fields["..."];
    }
  }

  /** An item that is no digest, or the digest of a disclosure presented, is visible. */
  lemma {:induction false} ItemVisible(tab: Table, cells: Cells, item: Json, g: string) returns (k: nat)
    requires FitsCells(tab, cells) && item in EncodeCells(cells)
    requires V.IsDigest(item) ==> g in tab && item == DigestObject(g)
    ensures VisibleAt(cells, k).Some? && EncodeCell(VisibleAt(cells, k).value) == item
    decreases cells
  {
    match cells
    case Cells(head, tail) =>
      if EncodeCell(head) == item {
        if head.Gap? { GapUndisclosed(tab, head, g); }
        k := 0;
      } else {
        var j := ItemVisible(tab, tail, item, g);
        k := if head.Gap? then j else j + 1;
      }
  }

  /** A bare opening reads the element as it is written. */
  lemma BareElement(w: V.World, jwt: string, bare: seq<string>, fields: map<string, Json>)
    returns (tab: Table, t: Tree)
    requires OpensTo(w, jwt, bare, fields)
    ensures Fits(tab, t) && tab.Keys !! Digests(t) && t.ObjT?
    ensures Encode(t) == Obj(fields) && Plain(t) == Obj(Delegated(w, jwt, bare).value)
  {
    var whole, c := LinkReads(w, jwt, bare);
    tab, t := TableOf(w, jwt, bare).value, c.t;
    var item :| item in Raw(w, jwt)["delegate_payload"].items && WrittenAs(w, jwt, bare, item, fields);
    WrittenIn(w, jwt, bare, item, fields);
    AsWritten(tab, whole, c, item, fields);
  }

  /** `item` is what the table of at most one disclosure makes `fields`. */
  ghost predicate Spells(tab: Table, item: Json, fields: map<string, Json>) {
    if V.IsDigest(item)
    then exists g :: tab.Keys == {g} && item == DigestObject(g) && tab[g].value == Obj(fields)
    else tab == map[] && item == Obj(fields)
  }

  lemma WrittenIn(w: V.World, jwt: string, bare: seq<string>, item: Json, fields: map<string, Json>)
    requires V.AlgOf(Raw(w, jwt)).Ok? && WrittenAs(w, jwt, bare, item, fields)
    ensures TableOf(w, jwt, bare).Ok? && Spells(TableOf(w, jwt, bare).value, item, fields)
  {
    BareTable(w, jwt, bare);
  }

  lemma AsWritten(tab: Table, t: Tree, c: Cell, item: Json, fields: map<string, Json>)
    requires Fits(tab, t) && Opening(tab, t, c) && item in EncodeCells(Offered(t).value) && Spells(tab, item, fields)
    ensures Encode(c.t) == Obj(fields) && tab.Keys !! Digests(c.t)
  {
    if V.IsDigest(item) {
      var g :| tab.Keys == {g} && item == DigestObject(g) && tab[g].value == Obj(fields);
      OnlyItem(tab, t, c, item, g);
    } else {
      OnlyItem(tab, t, c, item, "");
    }
    if c.Shown? { ShownIsNoDigest(tab, c.t); }
  }

  /** The one visible element is the item that is no digest, or that is the digest disclosed. */
  lemma OnlyItem(tab: Table, t: Tree, c: Cell, item: Json, g: string)
    requires Fits(tab, t) && Opening(tab, t, c) && item in EncodeCells(Offered(t).value)
    requires V.IsDigest(item) ==> g in tab && item == DigestObject(g)
    ensures EncodeCell(c) == item && (c.Hidden? ==> c.digest == g && g !in Digests(c.t))
  {
    var cells := Offered(t).value;
    MemberFits(tab, t.members, "delegate_payload");
    var k := ItemVisible(tab, cells, item, g);
    VisibleFound(cells, k);
    if c.Hidden? { assert item.fields["..."] == Str(c.digest); }
  }

  /** A bare opening lists only what is written in the clear. */
  lemma BareShows(w: V.World, jwt: string, bare: seq<string>, fields: map<string, Json>, name: string,
                  ok: Json -> bool)
    requires name != "_sd" && OpensTo(w, jwt, bare, fields) && SimpleList(fields, name)
    ensures Lists(Delegated(w, jwt, bare).value, name, ok) <==> ClearlyLists(fields, name, ok)
  {
    var tab, t := BareElement(w, jwt, bare, fields);
    BareLists(tab, t, name, ok);
  }

  /**
   For lists of clear items and digests: listed whatever is disclosed, exactly when every opening
   carries it in the clear.
   */
  lemma LinkListsExact(w: V.World, jwt: string, name: string, ok: Json -> bool)
    requires name != "_sd" && SimpleOpenings(w, jwt, name)
    ensures (forall ds :: Delegated(w, jwt, ds).Ok? ==> Lists(Delegated(w, jwt, ds).value, name, ok))
            <==> JwtShows(w, jwt, name, ok)
  {
    if JwtShows(w, jwt, name, ok) {
      forall ds | Delegated(w, jwt, ds).Ok? ensures Lists(Delegated(w, jwt, ds).value, name, ok) {
        LinkLists(w, jwt, ds, name, ok);
      }
    }
    forall bare, fields | OpensTo(w, jwt, bare, fields) && Lists(Delegated(w, jwt, bare).value, name, ok)
      ensures ClearlyLists(fields, name, ok)
    {
      BareShows(w, jwt, bare, fields, name, ok);
    }
  }
}
