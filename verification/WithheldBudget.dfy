/**
 A budget that can be withheld: one signed mandate whose single constraint is concealed,
 read from its JWT with the constraint and without it, verifies both times
 (crates/authority/src/verifier.rs, crates/sdjwt/src/verify.rs).
 */
module WithheldBudget {
  import opened Prelude
  import opened Json
  import opened Strings
  import opened Processing
  import opened SdTree
  import opened Walk
  import opened Landing
  import opened Restriction
  import opened Selection
  import opened ClearClaims
  import C = Conceal
  import opened RoundTrip
  import opened Constraints
  import opened Mandates
  import opened MandateParsing
  import opened Ledger
  import opened ShownLimits
  import opened Presentations
  import CD = ClearDelegates
  import CM = CartMatching
  import V = Verification

  /** An open payment mandate whose `constraints` are `cs`. */
  function Fields(exp: real, cs: seq<Json>, cnf: Json): map<string, Json> {
    map["vct" := Str(PAYMENT_TYPE)]["exp" := Num(exp)]["constraints" := Arr(cs)]["cnf" := cnf]
  }

  function MandateTree(cnf: Json, exp: real, c: Cell): Tree {
    ObjT(MandateMembers(cnf, exp, c), false, NoCells)
  }

  /** The signed payload around it: nothing but the digest of the mandate. */
  function RootTree(outer: Disclosure, g: string, t: Tree): Tree {
    ObjT(Members("delegate_payload", ArrT(Cells(Hidden(g, outer, t), NoCells)), NoMembers), false, NoCells)
  }

  const MEMBERS: set<string> := {"cnf", "constraints", "exp", "vct"}

  lemma MandateOrder()
    ensures ["cnf", "constraints", "exp", "vct"] == InOrder(MEMBERS)
  {
    var s := ["cnf", "constraints", "exp", "vct"];
    assert "cnf"[1..][0] == 'n' && "constraints"[1..][0] == 'o';
    assert Before("cnf"[1..], "constraints"[1..]);
    assert Increasing(s);
    InOrderUnique(s, MEMBERS);
  }

  /** A list of one cell reads as that cell. */
  lemma OneCell(tab: Table, c: Cell)
    requires FitsCell(tab, c) && DistinctCell(c) && (c.Hidden? ==> c.d.name.None?)
    ensures var t := ArrT(Cells(c, NoCells));
            && Fits(tab, t) && Distinct(t) && Digests(t) == CellDigests(c) && Revealed(t) == RevealedCell(c)
            && Encode(t) == Arr([EncodeCell(c)]) && Plain(t) == Arr(PlainCell(c))
  {
    var cells := Cells(c, NoCells);
    assert FitsCells(tab, NoCells) && DistinctCells(NoCells) && CellsDigests(NoCells) == {};
    assert EncodeCells(NoCells) == [] && PlainCells(NoCells) == [] && RevealedCells(NoCells) == {};
  }

  /** One more member in front. */
  lemma OneMember(tab: Table, name: string, t: Tree, rest: Members)
    requires Fits(tab, t) && Distinct(t) && FitsMembers(tab, rest) && DistinctMembers(rest)
    requires Digests(t) !! MembersDigests(rest) && name != "_sd" && name != "..." && name !in PlainMembers(rest)
    ensures var ms := Members(name, t, rest);
            && FitsMembers(tab, ms) && DistinctMembers(ms) && MembersDigests(ms) == Digests(t) + MembersDigests(rest)
            && RevealedMembers(ms) == Revealed(t) + RevealedMembers(rest) && Names(ms) == [name] + Names(rest)
            && EncodeMembers(ms) == EncodeMembers(rest)[name := Encode(t)]
            && PlainMembers(ms) == PlainMembers(rest)[name := Plain(t)]
  {
    PutFirst(PlainMembers(rest), name, Plain(t));
  }

  lemma NoMember(tab: Table)
    ensures FitsMembers(tab, NoMembers) && DistinctMembers(NoMembers) && MembersDigests(NoMembers) == {}
    ensures RevealedMembers(NoMembers) == {} && Names(NoMembers) == []
    ensures EncodeMembers(NoMembers) == map[] && PlainMembers(NoMembers) == map[]
  {
  }

  /** An object without `_sd` reads as its members. */
  lemma PlainObject(tab: Table, ms: Members)
    requires FitsMembers(tab, ms) && DistinctMembers(ms) && Names(ms) == InOrder(PlainMembers(ms).Keys)
    ensures var t := ObjT(ms, false, NoCells);
            && Fits(tab, t) && Distinct(t) && Digests(t) == MembersDigests(ms) && Revealed(t) == RevealedMembers(ms)
            && Encode(t) == Obj(EncodeMembers(ms)) && Plain(t) == Obj(PlainMembers(ms))
  {
    assert FitsSlots(tab, NoCells, PlainMembers(ms).Keys) && DistinctCells(NoCells) && CellsDigests(NoCells) == {};
    assert PlainSlots(NoCells) == map[] && RevealedCells(NoCells) == {};
    MapEmpty(PlainMembers(ms));
  }

  function LastMembers(exp: real): Members {
    Members("exp", Leaf(Num(exp)), Members("vct", Leaf(Str(PAYMENT_TYPE)), NoMembers))
  }

  lemma LastMembersRead(tab: Table, exp: real)
    ensures var ms := LastMembers(exp);
            && FitsMembers(tab, ms) && DistinctMembers(ms) && MembersDigests(ms) == {} && RevealedMembers(ms) == {}
            && Names(ms) == ["exp", "vct"]
            && EncodeMembers(ms) == map["vct" := Str(PAYMENT_TYPE)]["exp" := Num(exp)] == PlainMembers(ms)
  {
    NoMember(tab);
    OneMember(tab, "vct", Leaf(Str(PAYMENT_TYPE)), NoMembers);
    assert map[]["vct" := Str(PAYMENT_TYPE)] == map["vct" := Str(PAYMENT_TYPE)];
    OneMember(tab, "exp", Leaf(Num(exp)), Members("vct", Leaf(Str(PAYMENT_TYPE)), NoMembers));
  }

  function MandateMembers(cnf: Json, exp: real, c: Cell): Members {
    Members("cnf", ClearTree(cnf), Members("constraints", ArrT(Cells(c, NoCells)), LastMembers(exp)))
  }

  lemma MandateMembersRead(tab: Table, cnf: Json, exp: real, c: Cell)
    requires Fits(tab, ClearTree(cnf)) && Distinct(ClearTree(cnf)) && Digests(ClearTree(cnf)) == {}
    requires FitsCell(tab, c) && DistinctCell(c) && (c.Hidden? ==> c.d.name.None?)
    ensures var ms := MandateMembers(cnf, exp, c);
            && FitsMembers(tab, ms) && DistinctMembers(ms) && MembersDigests(ms) == CellDigests(c)
            && RevealedMembers(ms) == RevealedCell(c) && Names(ms) == ["cnf", "constraints", "exp", "vct"]
            && EncodeMembers(ms) == Fields(exp, [EncodeCell(c)], Encode(ClearTree(cnf)))
            && PlainMembers(ms) == Fields(exp, PlainCell(c), Plain(ClearTree(cnf)))
  {
    var listed := ArrT(Cells(c, NoCells));
    OneCell(tab, c);
    LastMembersRead(tab, exp);
    OneMember(tab, "constraints", listed, LastMembers(exp));
    RevealedAreDigests(ClearTree(cnf));
    OneMember(tab, "cnf", ClearTree(cnf), Members("constraints", listed, LastMembers(exp)));
  }

  lemma MandateReads(tab: Table, cnf: Json, exp: real, c: Cell)
    requires IsClear(ClearTree(cnf), cnf) && Fits(tab, ClearTree(cnf))
    requires !c.Shown? && FitsCell(tab, c) && DistinctCell(c) && (c.Hidden? ==> c.d.name.None?)
    ensures var t := MandateTree(cnf, exp, c);
            && Fits(tab, t) && Distinct(t) && Digests(t) == CellDigests(c) && Revealed(t) == RevealedCell(c)
            && Encode(t) == Obj(Fields(exp, [DigestObject(c.digest)], cnf))
            && Plain(t) == Obj(Fields(exp, PlainCell(c), cnf))
  {
    MandateMembersRead(tab, cnf, exp, c);
    MandateOrder();
    FieldNames(exp, PlainCell(c), cnf);
    PlainObject(tab, MandateMembers(cnf, exp, c));
  }

  lemma FieldNames(exp: real, cs: seq<Json>, cnf: Json)
    ensures Fields(exp, cs, cnf).Keys == MEMBERS
  {
  }

  lemma RootReads(tab: Table, outer: Disclosure, g: string, t: Tree)
    requires Fits(tab, t) && Distinct(t) && g !in Digests(t) && g in tab && tab[g] == outer && outer.name.None?
    requires outer.value == Encode(t)
    ensures var r := RootTree(outer, g, t);
            && Fits(tab, r) && Distinct(r) && Revealed(r) == {g} + Revealed(t)
            && Encode(r) == Obj(map["delegate_payload" := Arr([DigestObject(g)])])
            && Plain(r) == Obj(map["delegate_payload" := Arr([Plain(t)])])
  {
    var c := Hidden(g, outer, t);
    OneCell(tab, c);
    NoMember(tab);
    OneMember(tab, "delegate_payload", ArrT(Cells(c, NoCells)), NoMembers);
    InOrderUnique(["delegate_payload"], {"delegate_payload"});
    var ms := Members("delegate_payload", ArrT(Cells(c, NoCells)), NoMembers);
    assert PlainMembers(ms).Keys == {"delegate_payload"};
    PlainObject(tab, ms);
  }

  /** What is presented of the constraint: the disclosure, or only its digest. */
  function Inner(h: string, i: Disclosure, all: bool): Cell {
    if all then Hidden(h, i, ClearTree(i.value)) else Gap(h)
  }

  lemma InnerReads(g: string, o: Disclosure, h: string, i: Disclosure, cnf: Json, all: bool)
    requires g != h && C.Unreserved(i.value) && C.Unreserved(cnf)
    ensures var tab, c := if all then map[g := o][h := i] else map[g := o], Inner(h, i, all);
            && IsClear(ClearTree(cnf), cnf) && Fits(tab, ClearTree(cnf)) && FitsCell(tab, c) && DistinctCell(c)
            && CellDigests(c) == {h} && RevealedCell(c) == (if all then {h} else {})
            && PlainCell(c) == if all then [i.value] else []
  {
    var t, u := ClearTree(cnf), ClearTree(i.value);
    ClearTreeReads(cnf);
    ClearTreeReads(i.value);
    RevealedAreDigests(u);
    FitsMore(map[], t, g, o);
    FitsMore(map[], u, g, o);
    assert map[][g := o] == map[g := o];
    if all {
      FitsMore(map[g := o], t, h, i);
      FitsMore(map[g := o], u, h, i);
    }
  }

  function Whole(g: string, o: Disclosure, h: string, i: Disclosure, cnf: Json, exp: real, all: bool): Tree {
    RootTree(o, g, MandateTree(cnf, exp, Inner(h, i, all)))
  }

  lemma WholeReads(g: string, o: Disclosure, h: string, i: Disclosure, cnf: Json, exp: real, all: bool)
    requires g != h && C.Unreserved(cnf) && C.Unreserved(i.value) && o.name.None? && i.name.None?
    requires o.value == Obj(Fields(exp, [DigestObject(h)], cnf))
    ensures var tab, t := if all then map[g := o][h := i] else map[g := o], Whole(g, o, h, i, cnf, exp, all);
            && Explains(tab, t, Obj(map["delegate_payload" := Arr([DigestObject(g)])]), {})
            && Places(t, []).Keys == tab.Keys
            && Plain(t) == Obj(map["delegate_payload" := Arr([Obj(Fields(exp, if all then [i.value] else [], cnf))])])
  {
    var tab := if all then map[g := o][h := i] else map[g := o];
    InnerReads(g, o, h, i, cnf, all);
    CellReads(tab, g, o, Inner(h, i, all), cnf, exp);
  }

  lemma CellReads(tab: Table, g: string, o: Disclosure, c: Cell, cnf: Json, exp: real)
    requires IsClear(ClearTree(cnf), cnf) && Fits(tab, ClearTree(cnf))
    requires !c.Shown? && FitsCell(tab, c) && DistinctCell(c) && (c.Hidden? ==> c.d.name.None?)
    requires g !in CellDigests(c) && g in tab && tab[g] == o && o.name.None?
    requires o.value == Obj(Fields(exp, [DigestObject(c.digest)], cnf))
    ensures var t := RootTree(o, g, MandateTree(cnf, exp, c));
            && Explains(tab, t, Obj(map["delegate_payload" := Arr([DigestObject(g)])]), {})
            && Places(t, []).Keys == {g} + RevealedCell(c)
            && Plain(t) == Obj(map["delegate_payload" := Arr([Obj(Fields(exp, PlainCell(c), cnf))])])
  {
    MandateReads(tab, cnf, exp, c);
    RootReads(tab, o, g, MandateTree(cnf, exp, c));
    PlacesRevealed(tab, RootTree(o, g, MandateTree(cnf, exp, c)), []);
  }

  /** Both presentations process, to the mandate with its constraint and without. */
  lemma BothProcess(hash: string -> string, o: Disclosure, i: Disclosure, ds: seq<Disclosure>, cnf: Json, exp: real,
                    all: bool)
    requires hash(o.encoded) != hash(i.encoded) && C.Unreserved(cnf) && C.Unreserved(i.value)
    requires o.name.None? && i.name.None? && ds == if all then [o, i] else [o]
    requires o.value == Obj(Fields(exp, [DigestObject(hash(i.encoded))], cnf))
    ensures var r := Process(map["delegate_payload" := Arr([DigestObject(hash(o.encoded))])], ds, hash);
            && r.Ok?
            && r.value.claims ==
               map["delegate_payload" := Arr([Obj(Fields(exp, if all then [i.value] else [], cnf))])]
  {
    var g, h := hash(o.encoded), hash(i.encoded);
    var payload, t := map["delegate_payload" := Arr([DigestObject(g)])], Whole(g, o, h, i, cnf, exp, all);
    TableIs(hash, o, i, ds, all);
    WholeReads(g, o, h, i, cnf, exp, all);
    ProcessReads(hash, payload, ds, t);
    assert "_sd_alg" !in Plain(t).fields;
    MapPutBack(Plain(t).fields, "_sd_alg");
  }

  lemma TableIs(hash: string -> string, o: Disclosure, i: Disclosure, ds: seq<Disclosure>, all: bool)
    requires hash(o.encoded) != hash(i.encoded) && ds == if all then [o, i] else [o]
    ensures Tabulate(hash, ds) ==
            Ok(if all then map[hash(o.encoded) := o][hash(i.encoded) := i] else map[hash(o.encoded) := o])
  {
    TabulateOne(hash, o);
    assert [o, i][..1] == [o];
  }

  // ---- the presentations

  /**
   The user signs a payload that is one digest; `outer` discloses the mandate, and `inner` the one
   constraint in it.
   */
  predicate OneConstraint(w: V.World, jwt: string, cnf: Json, exp: real, outer: string, inner: string) {
    var o, i := w.disclosure(outer), w.disclosure(inner);
    var g, h := w.digest(V.Sha256, o.encoded), w.digest(V.Sha256, i.encoded);
    && g != h && C.Unreserved(cnf) && C.Unreserved(i.value) && o.name.None? && i.name.None?
    && w.decode(jwt).payload == map["delegate_payload" := Arr([DigestObject(g)])]
    && o.value == Obj(Fields(exp, [DigestObject(h)], cnf))
  }

  /** The disclosures presented: the mandate, with its constraint or without. */
  function Shown(outer: string, inner: string, all: bool): seq<string> {
    if all then [outer, inner] else [outer]
  }

  /** The mandate that is read. */
  function Read(w: V.World, cnf: Json, exp: real, inner: string, all: bool): map<string, Json> {
    Fields(exp, if all then [w.disclosure(inner).value] else [], cnf)
  }

  lemma BothClaims(w: V.World, jwt: string, cnf: Json, exp: real, outer: string, inner: string, all: bool)
    requires OneConstraint(w, jwt, cnf, exp, outer, inner)
    ensures V.Claims(w, SdJwt(jwt, Shown(outer, inner, all)), V.Sha256) ==
            Ok(map["delegate_payload" := Arr([Obj(Read(w, cnf, exp, inner, all))])])
    ensures V.AlgOf(w.decode(jwt).payload) == Ok(V.Sha256)
  {
    var o, i := w.disclosure(outer), w.disclosure(inner);
    var ds := V.Opened(w, SdJwt(jwt, Shown(outer, inner, all)));
    assert ds == if all then [o, i] else [o];
    BothProcess(V.Hash(w, V.Sha256), o, i, ds, cnf, exp, all);
  }

  lemma Taken(fields: map<string, Json>)
    requires "_sd_alg" !in fields
    ensures V.TakeDelegatePayload(map["delegate_payload" := Arr([Obj(fields)])]) == Ok((fields, map[]))
  {
  }

  lemma StillValid(exp: real, cs: seq<Json>, cnf: Json, opts: V.Options, required: bool)
    requires opts.now as real < exp + opts.leeway as real
    ensures V.CheckValidity(Fields(exp, cs, cnf), opts, required).Ok? && V.CheckValidity(map[], opts, false).Ok?
  {
    FieldNames(exp, cs, cnf);
  }

  lemma RootTaken(payload: map<string, Json>, fields: map<string, Json>, opts: V.Options)
    requires V.CheckRawDelegatePayload(payload).Ok? && opts.rootForm.DelegateRoot? && "_sd_alg" !in fields
    requires V.CheckValidity(map[], opts, false).Ok?
    ensures V.RootClaims(payload, map["delegate_payload" := Arr([Obj(fields)])], opts) == Ok((fields, map[]))
  {
    Taken(fields);
  }

  /** Under every policy for user-signed roots, both presentations verify. */
  lemma BothVerify(w: V.World, jwt: string, cnf: Json, exp: real, outer: string, inner: string, all: bool,
                   issuer: V.Key, opts: V.Options)
    requires OneConstraint(w, jwt, cnf, exp, outer, inner) && w.readKey(cnf).Some?
    requires opts.rootForm.DelegateRoot? && opts.now as real < exp + opts.leeway as real
    requires V.TypIn(w.decode(jwt).header, opts.rootTyp) && V.VerifyJws(w, jwt, issuer).Ok?
    ensures var e := SdJwt(jwt, Shown(outer, inner, all));
            V.VerifyRoot(w, e, issuer, opts, true) ==
            Ok(V.Verified(V.Root, Read(w, cnf, exp, inner, all), map[], w.readKey(cnf), V.Sha256, ElementText(e)))
  {
    var claims := Read(w, cnf, exp, inner, all);
    BothClaims(w, jwt, cnf, exp, outer, inner, all);
    StillValid(exp, claims["constraints"].items, cnf, opts, opts.requireExp);
    RootTaken(w.decode(jwt).payload, claims, opts);
  }

  lemma BothDelegated(w: V.World, jwt: string, cnf: Json, exp: real, outer: string, inner: string, all: bool)
    requires OneConstraint(w, jwt, cnf, exp, outer, inner)
    ensures CD.Delegated(w, jwt, Shown(outer, inner, all)) == Ok(Read(w, cnf, exp, inner, all))
  {
    BothClaims(w, jwt, cnf, exp, outer, inner, all);
    Taken(Read(w, cnf, exp, inner, all));
  }

  lemma NothingPreset(exp: real, cs: seq<Json>, cnf: Json)
    ensures Fields(exp, cs, cnf) - STRUCTURAL == map[]
  {
    FieldNames(exp, cs, cnf);
    assert MEMBERS <= STRUCTURAL;
    assert (Fields(exp, cs, cnf) - STRUCTURAL).Keys == {};
  }

  lemma FieldsRead(exp: real, cs: seq<Json>, cnf: Json, read: Reader, m: OpenMandate)
    requires m == OpenMandate(Payment, m.constraints, map[], 0, m.key) && |cs| == |m.constraints|
    requires forall i :: 0 <= i < |cs| ==> read(cs[i]) == Some(m.constraints[i]) && m.constraints[i].Budget?
    ensures ReadsAs(Fields(exp, cs, cnf), read, m.key, m)
  {
    NothingPreset(exp, cs, cnf);
  }

  /** Both are read as mandates under whatever key, with the constraint and without. */
  lemma BothRead(w: V.World, read: Reader, jwt: string, cnf: Json, exp: real, outer: string, inner: string, all: bool,
                 key: string, b: Constraint)
    requires OneConstraint(w, jwt, cnf, exp, outer, inner)
    requires read(w.disclosure(inner).value) == Some(b) && b.Budget?
    ensures ReadFrom(w, read, jwt, Shown(outer, inner, all), Single(if all then [b] else [], key))
  {
    BothDelegated(w, jwt, cnf, exp, outer, inner, all);
    FieldsRead(exp, if all then [w.disclosure(inner).value] else [], cnf, read, Single(if all then [b] else [], key));
  }

  /** The mandate above a `Paying` request. */
  function Single(cs: seq<Constraint>, key: string): OpenMandate {
    OpenMandate(Payment, cs, map[], 0, key)
  }

  lemma TwoFromOne(w: V.World, read: Reader, jwt: string, a: Request, b: Request, key: string)
    requires |a.opens| == |b.opens| == 1
    requires SaysWithSome(w, read, jwt, a.opens[0]) && SaysWithSome(w, read, jwt, b.opens[0])
    ensures OneJwt(w, read, [a] + [b], key, jwt)
  {
    var says := (m: OpenMandate) => SaysWithSome(w, read, jwt, m);
    BothSay(says, a, b);
  }

  lemma BothSay(says: OpenMandate -> bool, a: Request, b: Request)
    requires |a.opens| == |b.opens| == 1 && says(a.opens[0]) && says(b.opens[0])
    ensures forall i, k :: 0 <= i < 2 && 0 <= k < |([a] + [b])[i].opens| ==> says(([a] + [b])[i].opens[k])
  {
  }

  /**
   One signed mandate whose budget is concealed: shown with it once and without it once, each time
   read from the same JWT and so counted under the same ledger key, it spends the budget twice.
   */
  lemma OneJwtOverspends(w: V.World, read: Reader, jwt: string, cnf: Json, exp: real, outer: string, inner: string,
                         key: string, b: Constraint, closed: Closed, env: Env)
    requires OneConstraint(w, jwt, cnf, exp, outer, inner)
    requires read(w.disclosure(inner).value) == Some(b) && b.Budget? && b.budgetMax <= CM.U64_MAX
    requires closed.content.PaymentMandate? && closed.content.paid == Amount(b.budgetMax, b.budgetCurrency)
    ensures var run := [Paying(key, [b], closed, env)] + [Paying(key, [], closed, env)];
            && OneJwt(w, read, run, key, jwt)
            && Spent(Run(run).log, key) == 2 * b.budgetMax
  {
    BothRead(w, read, jwt, cnf, exp, outer, inner, true, key, b);
    BothRead(w, read, jwt, cnf, exp, outer, inner, false, key, b);
    TwoFromOne(w, read, jwt, Paying(key, [b], closed, env), Paying(key, [], closed, env), key);
    WithheldBudgetOverspends(key, b, closed, env);
  }
}
