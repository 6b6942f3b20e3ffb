/** Lists of digests are kept sorted, so that they do not reveal the order of claims (crates/sdjwt/src/conceal.rs). */
module SdOrder {
  // Section 4.2.4.1 of RFC 9901.

  import opened Prelude
  import opened Json
  import opened Strings
  import opened Processing
  import opened SdTree
  import opened Grafting
  import opened Conceal
  import opened RoundTrip

  /** No digest comes before the one in front of it. */
  predicate Ascending(sd: seq<Json>) {
    forall i :: 0 <= i < |sd| - 1 ==> !Before(Text(sd[i + 1]), Text(sd[i]))
  }

  /** Every `_sd` list in `v`, at every depth, is ascending. */
  predicate SdSorted(v: Json) {
    match v
    case Obj(fields) =>
      && ("_sd" in fields && fields["_sd"].Arr? ==> Ascending(fields["_sd"].items))
      && forall k :: k in fields ==> SdSorted(fields[k])
    case Arr(items) => forall i :: 0 <= i < |items| ==> SdSorted(items[i])
    case _ => true
  }

  lemma {:induction false} UnreservedSorted(v: Json)
    requires Unreserved(v)
    ensures SdSorted(v)
  {
    match v
    case Obj(fields) => forall k | k in fields ensures SdSorted(fields[k]) { UnreservedSorted(fields[k]); }
    case Arr(items) => forall i | 0 <= i < |items| ensures SdSorted(items[i]) { UnreservedSorted(items[i]); }
    case _ =>
  }

  lemma ConsAscends(x: Json, sd: seq<Json>)
    requires Ascending(sd) && (sd != [] ==> !Before(Text(sd[0]), Text(x)))
    ensures Ascending([x] + sd)
  {
    var r := [x] + sd;
    forall i | 0 <= i < |r| - 1 ensures !Before(Text(r[i + 1]), Text(r[i])) {
      assert r[i + 1] == sd[i];
      if i > 0 { assert r[i] == sd[i - 1] && !Before(Text(sd[i - 1 + 1]), Text(sd[i - 1])); }
    }
  }

  lemma TailAscends(sd: seq<Json>)
    requires sd != [] && Ascending(sd)
    ensures Ascending(sd[1..]) && (|sd| > 1 ==> !Before(Text(sd[1]), Text(sd[0])))
  {
    var r := sd[1..];
    forall i | 0 <= i < |r| - 1 ensures !Before(Text(r[i + 1]), Text(r[i])) {
      assert r[i] == sd[i + 1] && r[i + 1] == sd[i + 1 + 1];
      assert !Before(Text(sd[i + 1 + 1]), Text(sd[i + 1]));
    }
    if |sd| > 1 { assert !Before(Text(sd[0 + 1]), Text(sd[0])); }
  }

  lemma {:induction false} InsertAscends(sd: seq<Json>, g: string)
    requires Ascending(sd)
    ensures var r := Insert(sd, Position(sd, g), Str(g));
            Ascending(r) && r != [] && (r[0] == Str(g) || (sd != [] && r[0] == sd[0]))
  {
    var p := Position(sd, g);
    if p == 0 {
      assert Insert(sd, 0, Str(g)) == [Str(g)] + sd;
      ConsAscends(Str(g), sd);
    } else {
      TailAscends(sd);
      InsertAscends(sd[1..], g);
      InsertTail(sd, p, Str(g));
      BeforeTotal(Text(sd[0]), g);
      ConsAscends(sd[0], Insert(sd[1..], p - 1, Str(g)));
    }
  }

  lemma PushSorts(fields: map<string, Json>, g: string)
    requires SdSorted(Obj(fields)) && PushSd(fields, g).Some?
    ensures SdSorted(Obj(PushSd(fields, g).value))
  {
    if "_sd" in fields {
      var sd := fields["_sd"].items;
      InsertAscends(sd, g);
      assert forall i :: 0 <= i < |sd| ==> SdSorted(sd[i]);
    }
  }

  lemma ConcealSorts(src: Source, k: nat, parent: Json, s: Segment)
    requires SdSorted(parent) && ConcealIn(src, k, parent, s).Some?
    ensures var r := ConcealIn(src, k, parent, s).value; SdSorted(r.0) && SdSorted(r.1.value)
  {
    match (parent, s)
    case (Obj(fields), Key(name)) =>
      var d := src.Mint(k, Some(name), fields[name]);
      assert SdSorted(Obj(fields - {name}));
      PushSorts(fields - {name}, src.DigestOf(d));
    case (Arr(items), Index(i)) =>
  }

  lemma DecoySorts(src: Source, k: nat, container: Json)
    requires SdSorted(container) && AddDecoy(src, k, container).Some?
    ensures SdSorted(AddDecoy(src, k, container).value)
  {
    if container.Obj? { PushSorts(container.fields, src.Decoy(k)); }
  }

  lemma {:induction false} LookupSorted(v: Json, path: Path)
    requires SdSorted(v) && Lookup(v, path).Some?
    ensures SdSorted(Lookup(v, path).value)
    decreases |path|
  {
    if path != [] { LookupSorted(if v.Obj? then v.fields[path[0].name] else v.items[path[0].i], path[1..]); }
  }

  /** A path through claims only, not into a list of digests. */
  predicate OffSd(path: Path) {
    forall i :: 0 <= i < |path| ==> path[i] != Key("_sd")
  }

  lemma {:induction false} PutSorts(doc: Json, path: Path, v: Json)
    requires SdSorted(doc) && SdSorted(v) && OffSd(path)
    ensures SdSorted(Put(doc, path, v))
    decreases |path|
  {
    if path != [] {
      match (doc, path[0])
      case (Obj(fields), Key(name)) => if name in fields { PutSorts(fields[name], path[1..], v); }
      case (Arr(items), Index(i)) => if i < |items| { PutSorts(items[i], path[1..], v); }
      case _ =>
    }
  }

  lemma {:induction false} PathsOffSd(v: Json, path: Path)
    requires Unreserved(v) && Lookup(v, path).Some?
    ensures OffSd(path)
    decreases |path|
  {
    if path != [] {
      PathsOffSd(if v.Obj? then v.fields[path[0].name] else v.items[path[0].i], path[1..]);
      assert path == [path[0]] + path[1..];
    }
  }

  /** The document and the values of all disclosures. */
  predicate AllSorted(b: Building) {
    SdSorted(b.doc) && forall i :: 0 <= i < |b.ds| ==> SdSorted(b.ds[i].value)
  }

  lemma {:induction false} RunSorts(src: Source, ops: seq<Op>, b: Building)
    requires AllSorted(b) && forall op :: op in ops ==> OffSd(op.path)
    ensures AllSorted(Run(src, ops, b).b)
    decreases |ops|, if ops != [] && ops[0].Decoys? then ops[0].count else 0
  {
    if ops != [] {
      assert OffSd(ops[0].path);
      match ops[0]
      case Hide(path) =>
        HideSorts(src, path, b);
        var o := HideAt(src, path, b);
        if o.Done? { RunSorts(src, ops[1..], o.b); }
      case Decoys(path, count) =>
        if count == 0 {
          RunSorts(src, ops[1..], b);
        } else {
          DecoyStepSorts(src, path, b);
          var o := DecoyAt(src, path, b);
          if o.Done? { RunSorts(src, [Decoys(path, count - 1)] + ops[1..], o.b); }
        }
    }
  }

  lemma HideSorts(src: Source, path: Path, b: Building)
    requires AllSorted(b) && OffSd(path)
    ensures AllSorted(HideAt(src, path, b).b)
  {
    if HideAt(src, path, b).Done? {
      var up := path[..|path| - 1];
      LookupSorted(b.doc, up);
      var parent := Lookup(b.doc, up).value;
      ConcealSorts(src, b.used, parent, path[|path| - 1]);
      PutSorts(b.doc, up, ConcealIn(src, b.used, parent, path[|path| - 1]).value.0);
    }
  }

  lemma DecoyStepSorts(src: Source, path: Path, b: Building)
    requires AllSorted(b) && OffSd(path)
    ensures AllSorted(DecoyAt(src, path, b).b)
  {
    if DecoyAt(src, path, b).Done? {
      LookupSorted(b.doc, path);
      var container := Lookup(b.doc, path).value;
      DecoySorts(src, b.used, container);
      PutSorts(b.doc, path, AddDecoy(src, b.used, container).value);
    }
  }

  /** Every `_sd` list that issuance makes, in the payload or inside a disclosure, is sorted. */
  lemma BuildSorts(src: Source, claims: map<string, Json>, concealed: seq<string>, decoys: seq<(string, nat)>)
    requires Build(src, claims, concealed, decoys).Ok?
    ensures AllSorted(Build(src, claims, concealed, decoys).value.b)
  {
    var doc := Obj(claims);
    var hides, decs := HideOps(doc, concealed).value, DecoyOps(doc, decoys).value;
    HideOpsReady(doc, concealed);
    DecoyOpsReady(doc, decoys);
    SortOpsSorts(hides + decs);
    forall op | op in SortOps(hides + decs) ensures OffSd(op.path) {
      OpInClaims(doc, concealed, decoys, op);
      PathsOffSd(doc, op.path);
    }
    UnreservedSorted(doc);
    RunSorts(src, SortOps(hides + decs), Building(doc, [], [], 0));
  }

  /** Every operation is on a place of the claims. */
  lemma OpInClaims(doc: Json, concealed: seq<string>, decoys: seq<(string, nat)>, op: Op)
    requires HideOps(doc, concealed).Ok? && DecoyOps(doc, decoys).Ok?
    requires op in HideOps(doc, concealed).value + DecoyOps(doc, decoys).value
    ensures Lookup(doc, op.path).Some?
  {
    HidesInClaims(doc, concealed);
    DecoysInClaims(doc, decoys);
  }

  lemma {:induction false} HidesInClaims(doc: Json, pointers: seq<string>)
    requires HideOps(doc, pointers).Ok?
    ensures forall op :: op in HideOps(doc, pointers).value ==> Lookup(doc, op.path).Some?
  {
    if pointers != [] { HidesInClaims(doc, pointers[..|pointers| - 1]); }
  }

  lemma {:induction false} DecoysInClaims(doc: Json, decoys: seq<(string, nat)>)
    requires DecoyOps(doc, decoys).Ok?
    ensures forall op :: op in DecoyOps(doc, decoys).value ==> Lookup(doc, op.path).Some?
  {
    if decoys != [] { DecoysInClaims(doc, decoys[..|decoys| - 1]); }
  }
}
