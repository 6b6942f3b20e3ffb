/**
 Issuance conceals (crates/sdjwt/src/conceal.rs): what the payload still says when nothing
 is disclosed, one disclosure for each concealed place, named after it and carrying its
 value, and decoys in the containers they were asked for.
 */
module Concealing {
  import opened Prelude
  import opened Json
  import opened Processing
  import opened Pointer
  import opened SdTree
  import opened Walk
  import opened Landing
  import opened Restriction
  import opened Selection
  import opened Placing
  import opened Conceal
  import opened RoundTrip
  import opened Cutting
  import opened Minimality
  import Issuing
  import Minting

  // ---- how many

  function NumHides(ops: seq<Op>): nat {
    if ops == [] then 0 else (if ops[0].Hide? then 1 else 0) + NumHides(ops[1..])
  }

  function NumDecoys(ops: seq<Op>): nat {
    if ops == [] then 0 else (if ops[0].Decoys? then ops[0].count else 0) + NumDecoys(ops[1..])
  }

  /** Each concealment makes one disclosure and one digest, each decoy one digest. */
  lemma {:induction false} RunCounts(src: Source, ops: seq<Op>, b: Building)
    requires Run(src, ops, b).Done?
    ensures var r := Run(src, ops, b).b;
            && |r.ds| == |b.ds| + NumHides(ops)
            && |r.minted| == |b.minted| + NumHides(ops) + NumDecoys(ops)
    decreases |ops|, if ops != [] && ops[0].Decoys? then ops[0].count else 0
  {
    if ops != [] {
      match ops[0]
      case Hide(path) => RunCounts(src, ops[1..], HideAt(src, path, b).b);
      case Decoys(path, count) =>
        if count == 0 {
          RunCounts(src, ops[1..], b);
        } else {
          var rest := [Decoys(path, count - 1)] + ops[1..];
          RunCounts(src, rest, DecoyAt(src, path, b).b);
          assert rest[1..] == ops[1..];
        }
    }
  }

  lemma {:induction false} InsertCounts(op: Op, ops: seq<Op>)
    ensures NumHides(InsertOp(op, ops)) == NumHides([op]) + NumHides(ops)
    ensures NumDecoys(InsertOp(op, ops)) == NumDecoys([op]) + NumDecoys(ops)
  {
    var r := InsertOp(op, ops);
    if ops == [] || !Earlier(ops[0], op) {
      assert r[1..] == ops;
    } else {
      InsertCounts(op, ops[1..]);
      assert r[1..] == InsertOp(op, ops[1..]);
    }
  }

  lemma {:induction false} CountsJoin(a: seq<Op>, b: seq<Op>)
    ensures NumHides(a + b) == NumHides(a) + NumHides(b) && NumDecoys(a + b) == NumDecoys(a) + NumDecoys(b)
  {
    if a == [] {
      assert a + b == b;
    } else {
      CountsJoin(a[1..], b);
      assert (a + b)[1..] == a[1..] + b;
    }
  }

  lemma {:induction false} SortCounts(ops: seq<Op>)
    ensures NumHides(SortOps(ops)) == NumHides(ops) && NumDecoys(SortOps(ops)) == NumDecoys(ops)
  {
    if ops != [] {
      var n := |ops| - 1;
      SortCounts(ops[..n]);
      InsertCounts(ops[n], SortOps(ops[..n]));
      CountsJoin(ops[..n], [ops[n]]);
      assert ops == ops[..n] + [ops[n]];
    }
  }

  /** The decoys asked for, over all containers. */
  function AllDecoys(decoys: seq<(string, nat)>): nat {
    if decoys == [] then 0 else AllDecoys(decoys[..|decoys| - 1]) + decoys[|decoys| - 1].1
  }

  lemma {:induction false} HideOpsCount(doc: Json, pointers: seq<string>)
    requires HideOps(doc, pointers).Ok?
    ensures NumHides(HideOps(doc, pointers).value) == |pointers| && NumDecoys(HideOps(doc, pointers).value) == 0
  {
    if pointers != [] {
      var n := |pointers| - 1;
      HideOpsCount(doc, pointers[..n]);
      CountsJoin(HideOps(doc, pointers[..n]).value, [Hide(Resolve(doc, pointers[n]).value)]);
    }
  }

  lemma {:induction false} DecoyOpsCount(doc: Json, decoys: seq<(string, nat)>)
    requires DecoyOps(doc, decoys).Ok?
    ensures NumHides(DecoyOps(doc, decoys).value) == 0 && NumDecoys(DecoyOps(doc, decoys).value) == AllDecoys(decoys)
  {
    if decoys != [] {
      var n := |decoys| - 1;
      DecoyOpsCount(doc, decoys[..n]);
      var init, all := DecoyOps(doc, decoys[..n]).value, DecoyOps(doc, decoys).value;
      CountsJoin(init, [all[|init|]]);
    }
  }

  /** One disclosure per concealed pointer; one digest for each of them and for each decoy. */
  lemma BuildCounts(src: Source, claims: map<string, Json>, concealed: seq<string>, decoys: seq<(string, nat)>)
    requires Build(src, claims, concealed, decoys).Ok?
    requires Build(src, claims, concealed, decoys).value.Done?
    ensures var b := Build(src, claims, concealed, decoys).value.b;
            |b.ds| == |concealed| && |b.minted| == |concealed| + AllDecoys(decoys)
  {
    var doc := Obj(claims);
    var hides, decs := HideOps(doc, concealed).value, DecoyOps(doc, decoys).value;
    RunCounts(src, SortOps(hides + decs), Building(doc, [], [], 0));
    SortCounts(hides + decs);
    CountsJoin(hides, decs);
    HideOpsCount(doc, concealed);
    DecoyOpsCount(doc, decoys);
  }

  // ---- where

  /** The places that the concealed pointers lead to. */
  function Concealed(claims: map<string, Json>, concealed: seq<string>): set<Path> {
    set i | 0 <= i < |concealed| && Resolve(Obj(claims), concealed[i]).Ok? :: Resolve(Obj(claims), concealed[i]).value
  }

  lemma ConcealedAreHidden(claims: map<string, Json>, concealed: seq<string>)
    requires HideOps(Obj(claims), concealed).Ok?
    ensures HiddenBy(HideOps(Obj(claims), concealed).value) == Concealed(claims, concealed)
  {
    var doc := Obj(claims);
    HideOpsBy(doc, concealed);
    forall p ensures p in HiddenBy(HideOps(doc, concealed).value) <==> p in Concealed(claims, concealed) {
      OpsMember(In(doc), concealed, p);
      assert p in HiddenBy(HideOps(doc, concealed).value) <==> Hide(p) in HideOps(doc, concealed).value;
    }
  }

  /** The disclosures land exactly on the concealed places. */
  lemma DisclosuresLand(src: Source, claims: map<string, Json>, concealed: seq<string>, decoys: seq<(string, nat)>)
    requires Build(src, claims, concealed, decoys).Ok?
    requires NoRepeats(Build(src, claims, concealed, decoys).value.b.minted)
    ensures var b := Build(src, claims, concealed, decoys).value.b;
            && b.doc.Obj? && Process(b.doc.fields, b.ds, src.hash).Ok?
            && PlacesOf(b.ds, Process(b.doc.fields, b.ds, src.hash).value.paths, []) == Concealed(claims, concealed)
  {
    var t := BuildReads(src, claims, concealed, decoys);
    var b := Build(src, claims, concealed, decoys).value.b;
    ProcessReads(src.hash, b.doc.fields, b.ds, t);
    ConcealedAreHidden(claims, concealed);
    HiddenBySorted(Obj(claims), concealed, decoys);
    ClearHasNoPlaces(Obj(claims));
    var tab := Tabulate(src.hash, b.ds).value;
    PlacesAreSet(tab, t, []);
    var paths := Process(b.doc.fields, b.ds, src.hash).value.paths;
    forall p ensures p in PlacesOf(b.ds, paths, []) <==> p in Places(t, []).Values {
      if g :| g in Places(t, []) && Places(t, [])[g] == p {
        var i := FoundIn(src.hash, b.ds, g);
        assert paths[i] == p;
      }
    }
  }

  // ---- one disclosure each

  /** A disclosure is named after the member it lands on, and unnamed when it lands on an element. */
  predicate NamedAfter(d: Disclosure, at: Path) {
    at != [] && d.name == match at[|at| - 1] case Key(name) => Some(name) case Index(_) => None
  }

  lemma {:induction false} VisibleUnnamed(tab: Table, cells: Cells, k: nat)
    requires FitsCells(tab, cells) && VisibleAt(cells, k).Some?
    ensures VisibleAt(cells, k).value.Hidden? ==> VisibleAt(cells, k).value.d.name.None?
    decreases cells
  {
    match cells
    case Cells(head, tail) =>
      if head.Gap? { VisibleUnnamed(tab, tail, k); } else if k > 0 { VisibleUnnamed(tab, tail, k - 1); }
  }

  lemma {:induction false} SlotIsNamed(slots: Cells, name: string)
    requires SlotNamed(slots, name).Some?
    ensures SlotNamed(slots, name).value.Hidden? && SlotNamed(slots, name).value.d.name == Some(name)
    decreases slots
  {
    match slots
    case Cells(head, tail) => if !(head.Hidden? && head.d.name == Some(name)) { SlotIsNamed(tail, name); }
  }

  /** The place of a disclosure ends in its name, or in an index. */
  lemma {:induction false} PlaceNamed(tab: Table, t: Tree, path: Path, g: string)
    requires Fits(tab, t) && g in Places(t, path)
    ensures g in tab && NamedAfter(tab[g], Places(t, path)[g])
    decreases if |path| < |Places(t, path)[g]| then |Places(t, path)[g]| - |path| else 0
  {
    var s := Through(tab, t, path, g);
    var c, at := Child(t, s).value, path + [s];
    CellPlaceBelow(c, at, g);
    ChildFits(tab, t, s);
    if g in Places(c.t, at) {
      StepOf(path, s, Places(t, path)[g]);
      PlaceNamed(tab, c.t, at, g);
    } else {
      match (t, s)
      case (ArrT(cells), Index(i)) => VisibleUnnamed(tab, cells, i);
      case (ObjT(ms, _, slots), Key(name)) => if MemberNamed(ms, name).None? { SlotIsNamed(slots, name); }
    }
  }

  /** Disclosure `i` is the one for the place `at`: named after it, and carrying the value there. */
  ghost predicate IsFor(src: Source, claims: map<string, Json>, b: Building, i: nat, at: Path)
    requires b.doc.Obj? && Process(b.doc.fields, b.ds, src.hash).Ok? && i < |b.ds|
  {
    && Process(b.doc.fields, b.ds, src.hash).value.paths[i] == at && NamedAfter(b.ds[i], at)
    && exists sub :: Encode(sub) == b.ds[i].value && Lookup(Obj(claims), at) == Some(Plain(sub))
  }

  /** Every concealed pointer has its disclosure, and every disclosure lands on a concealed place of its own. */
  lemma OneDisclosureEach(src: Source, claims: map<string, Json>, concealed: seq<string>, decoys: seq<(string, nat)>)
    requires Build(src, claims, concealed, decoys).Ok?
    requires NoRepeats(Build(src, claims, concealed, decoys).value.b.minted)
    ensures var b := Build(src, claims, concealed, decoys).value.b;
            && b.doc.Obj? && Process(b.doc.fields, b.ds, src.hash).Ok?
            && |b.ds| == |concealed| && |b.minted| == |concealed| + AllDecoys(decoys)
            && (forall i :: 0 <= i < |b.ds| ==>
                  && Process(b.doc.fields, b.ds, src.hash).value.paths[i] in Concealed(claims, concealed)
                  && IsFor(src, claims, b, i, Process(b.doc.fields, b.ds, src.hash).value.paths[i]))
            && (forall p :: p in Concealed(claims, concealed) ==>
                  exists i :: 0 <= i < |b.ds| && Process(b.doc.fields, b.ds, src.hash).value.paths[i] == p)
            && (forall i, j :: 0 <= i < j < |b.ds| ==>
                  Process(b.doc.fields, b.ds, src.hash).value.paths[i]
                  != Process(b.doc.fields, b.ds, src.hash).value.paths[j])
  {
    var b := Build(src, claims, concealed, decoys).value.b;
    var t := BuildReads(src, claims, concealed, decoys);
    DisclosuresLand(src, claims, concealed, decoys);
    BuildCounts(src, claims, concealed, decoys);
    ProcessReads(src.hash, b.doc.fields, b.ds, t);
    var tab, paths := Tabulate(src.hash, b.ds).value, Process(b.doc.fields, b.ds, src.hash).value.paths;
    TabulateExact(src.hash, b.ds);
    forall i | 0 <= i < |b.ds|
      ensures paths[i] in Concealed(claims, concealed) && IsFor(src, claims, b, i, paths[i])
    {
      assert paths[i] in PlacesOf(b.ds, paths, []);
      PlaceNamed(tab, t, [], src.hash(b.ds[i].encoded));
      PlaceValue(src, claims, b, t, i);
    }
    forall p | p in Concealed(claims, concealed) ensures exists i :: 0 <= i < |b.ds| && paths[i] == p {
      assert p in PlacesOf(b.ds, paths, []);
    }
    forall i, j | 0 <= i < j < |b.ds| ensures paths[i] != paths[j] {
      if paths[i] == paths[j] {
        PlacesInjective(tab, t, [], src.hash(b.ds[i].encoded), src.hash(b.ds[j].encoded));
      }
    }
  }

  lemma PlaceValue(src: Source, claims: map<string, Json>, b: Building, t: Tree, i: nat)
    requires Inv(src, claims, b, t) && Readable(src.hash, b.doc.fields, b.ds, t) && i < |b.ds|
    requires src.hash(b.ds[i].encoded) in Places(t, [])
    ensures exists sub :: && Encode(sub) == b.ds[i].value
                          && Lookup(Obj(claims), Places(t, [])[src.hash(b.ds[i].encoded)]) == Some(Plain(sub))
  {
    TabulateExact(src.hash, b.ds);
    var g := src.hash(b.ds[i].encoded);
    var rel, sub := Lands(Tabulate(src.hash, b.ds).value, t, [], g);
    assert [] + rel == rel;
    assert Encode(sub) == b.ds[i].value;
  }

  // ---- decoys

  lemma {:induction false} InsertDecoysFor(op: Op, ops: seq<Op>, q: Path)
    ensures DecoysFor(InsertOp(op, ops), q) == DecoysFor([op], q) + DecoysFor(ops, q)
  {
    var r := InsertOp(op, ops);
    if ops == [] || !Earlier(ops[0], op) {
      assert r[1..] == ops;
    } else {
      InsertDecoysFor(op, ops[1..], q);
      assert r[1..] == InsertOp(op, ops[1..]);
    }
  }

  lemma {:induction false} DecoysForJoin(a: seq<Op>, b: seq<Op>, q: Path)
    ensures DecoysFor(a + b, q) == DecoysFor(a, q) + DecoysFor(b, q)
  {
    if a == [] {
      assert a + b == b;
    } else {
      DecoysForJoin(a[1..], b, q);
      assert (a + b)[1..] == a[1..] + b;
    }
  }

  lemma {:induction false} SortDecoysFor(ops: seq<Op>, q: Path)
    ensures DecoysFor(SortOps(ops), q) == DecoysFor(ops, q)
  {
    if ops != [] {
      var n := |ops| - 1;
      SortDecoysFor(ops[..n], q);
      InsertDecoysFor(ops[n], SortOps(ops[..n]), q);
      DecoysForJoin(ops[..n], [ops[n]], q);
      assert ops == ops[..n] + [ops[n]];
    }
  }

  lemma {:induction false} HideOpsNoDecoys(doc: Json, pointers: seq<string>, q: Path)
    requires HideOps(doc, pointers).Ok?
    ensures DecoysFor(HideOps(doc, pointers).value, q) == 0
  {
    if pointers != [] {
      var n := |pointers| - 1;
      HideOpsNoDecoys(doc, pointers[..n], q);
      DecoysForJoin(HideOps(doc, pointers[..n]).value, [Hide(Resolve(doc, pointers[n]).value)], q);
    }
  }

  /** The decoys asked for in the container at `q`. */
  function Asked(doc: Json, decoys: seq<(string, nat)>, q: Path): nat {
    if decoys == [] then 0
    else
      var (p, count) := decoys[|decoys| - 1];
      var at := if p == [] then Ok([]) else Resolve(doc, p);
      Asked(doc, decoys[..|decoys| - 1], q) + if at == Ok(q) then count else 0
  }

  lemma {:induction false} DecoyOpsAsked(doc: Json, decoys: seq<(string, nat)>, q: Path)
    requires DecoyOps(doc, decoys).Ok?
    ensures DecoysFor(DecoyOps(doc, decoys).value, q) == Asked(doc, decoys, q)
  {
    if decoys != [] {
      var n := |decoys| - 1;
      DecoyOpsAsked(doc, decoys[..n], q);
      var init, all := DecoyOps(doc, decoys[..n]).value, DecoyOps(doc, decoys).value;
      DecoysForJoin(init, [all[|init|]], q);
    }
  }

  /**
   What the payload and the disclosures carry, when read together: every container has as many digests
   without a disclosure as decoys were asked for there, and no digest occurs twice.
   */
  lemma DecoysPlaced(src: Source, claims: map<string, Json>, concealed: seq<string>, decoys: seq<(string, nat)>)
    returns (t: Tree)
    requires Build(src, claims, concealed, decoys).Ok?
    requires NoRepeats(Build(src, claims, concealed, decoys).value.b.minted)
    ensures var b := Build(src, claims, concealed, decoys).value.b;
            && b.doc.Obj? && Readable(src.hash, b.doc.fields, b.ds, t) && Plain(t) == Obj(claims)
            && forall q :: GapsAt(t, [], q) == Asked(Obj(claims), decoys, q)
  {
    t := BuildReads(src, claims, concealed, decoys);
    var doc := Obj(claims);
    var hides, decs := HideOps(doc, concealed).value, DecoyOps(doc, decoys).value;
    forall q ensures GapsAt(t, [], q) == Asked(doc, decoys, q) {
      ClearHasNoGaps(doc, [], q);
      SortDecoysFor(hides + decs, q);
      DecoysForJoin(hides, decs, q);
      HideOpsNoDecoys(doc, concealed, q);
      DecoyOpsAsked(doc, decoys, q);
    }
  }

  // ---- what is read

  /** Whatever is disclosed, the payload says the claims with the places of everything else cut out. */
  lemma PresentedIsCut(src: Source, claims: map<string, Json>, concealed: seq<string>, decoys: seq<(string, nat)>,
                       some: seq<Disclosure>)
    requires Build(src, claims, concealed, decoys).Ok?
    requires var b := Build(src, claims, concealed, decoys).value.b;
             && NoRepeats(b.minted) && b.doc.Obj? && Process(b.doc.fields, some, src.hash).Ok?
             && forall d :: d in some ==> d in b.ds
    ensures var b := Build(src, claims, concealed, decoys).value.b;
            && Process(b.doc.fields, b.ds, src.hash).Ok?
            && Obj(Process(b.doc.fields, some, src.hash).value.claims) ==
               Cut(Obj(claims), [], PlacesOf(b.ds, Process(b.doc.fields, b.ds, src.hash).value.paths, some))
  {
    var b := Build(src, claims, concealed, decoys).value.b;
    Issuing.ConcealThenProcess(src, claims, concealed, decoys);
    WithholdingCuts(b.doc.fields, b.ds, src.hash, some);
  }

  /** With nothing disclosed, the payload says the claims with every concealed place cut out. */
  lemma ConcealedIsCut(src: Source, claims: map<string, Json>, concealed: seq<string>, decoys: seq<(string, nat)>)
    requires Build(src, claims, concealed, decoys).Ok?
    requires NoRepeats(Build(src, claims, concealed, decoys).value.b.minted)
    ensures var b := Build(src, claims, concealed, decoys).value.b;
            && b.doc.Obj? && Process(b.doc.fields, [], src.hash).Ok?
            && Obj(Process(b.doc.fields, [], src.hash).value.claims) ==
               Cut(Obj(claims), [], Concealed(claims, concealed))
  {
    var b := Build(src, claims, concealed, decoys).value.b;
    DisclosuresLand(src, claims, concealed, decoys);
    NothingDisclosed(b.doc.fields, b.ds, src.hash);
    PresentedIsCut(src, claims, concealed, decoys, []);
  }

  /** The same from the assumptions on salts, texts and the hash alone. */
  lemma IdealConceals(src: Source, claims: map<string, Json>, concealed: seq<string>, decoys: seq<(string, nat)>)
    requires Minting.Ideal(src) && Build(src, claims, concealed, decoys).Ok?
    ensures var b := Build(src, claims, concealed, decoys).value.b;
            && b.doc.Obj? && Process(b.doc.fields, [], src.hash).Ok?
            && Obj(Process(b.doc.fields, [], src.hash).value.claims) ==
               Cut(Obj(claims), [], Concealed(claims, concealed))
  {
    Minting.MintedDistinct(src, claims, concealed, decoys);
    ConcealedIsCut(src, claims, concealed, decoys);
  }

  /** A place of the claims is said in the clear exactly when no concealed pointer leads to it or above it. */
  lemma SaidInTheClear(src: Source, claims: map<string, Json>, concealed: seq<string>, decoys: seq<(string, nat)>,
                       w: Path)
    requires Build(src, claims, concealed, decoys).Ok?
    requires NoRepeats(Build(src, claims, concealed, decoys).value.b.minted) && Lookup(Obj(claims), w).Some?
    ensures var b := Build(src, claims, concealed, decoys).value.b;
            var gone := Concealed(claims, concealed);
            && b.doc.Obj? && Process(b.doc.fields, [], src.hash).Ok?
            && (Stays([], w, gone) <==>
                forall i :: 0 <= i < |concealed| ==> !(Resolve(Obj(claims), concealed[i]).Ok?
                                                       && Resolve(Obj(claims), concealed[i]).value <= w))
            && (Stays([], w, gone) ==>
                  Lookup(Obj(Process(b.doc.fields, [], src.hash).value.claims), ClosedUp([], w, gone)) ==
                  Some(Cut(Lookup(Obj(claims), w).value, w, gone)))
  {
    ConcealedIsCut(src, claims, concealed, decoys);
    var gone := Concealed(claims, concealed);
    assert [] + w == w;
    if Stays([], w, gone) { CutFinds(Obj(claims), [], w, gone); }
    StaysExact([], w, gone);
    forall i | 0 <= i < |concealed| && Resolve(Obj(claims), concealed[i]).Ok?
      ensures Resolve(Obj(claims), concealed[i]).value in gone && Resolve(Obj(claims), concealed[i]).value != []
    {
    }
  }

  /** A place stays exactly when neither it nor a place above it, below `at`, is gone. */
  lemma {:induction false} StaysExact(at: Path, w: Path, gone: set<Path>)
    ensures Stays(at, w, gone) <==> forall p :: p in gone && at < p ==> !(p <= at + w)
    decreases |w|
  {
    if w == [] {
      assert at + w == at;
    } else {
      var next := at + [w[0]];
      assert next + w[1..] == at + w;
      StaysExact(next, w[1..], gone);
      forall p | p in gone && at < p && p <= at + w ensures p == next || next < p {
        assert p[|at|] == (at + w)[|at|] == w[0];
        assert p[..|next|] == next;
      }
    }
  }
}
