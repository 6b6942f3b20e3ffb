/**
 The processing rules of section 7.1 of RFC 9901, steps 3 to 5
 (crates/sdjwt/src/process.rs): digests are replaced by the values of the
 disclosures that match them, and every ambiguity is an error.
 */
module Processing {
  // The functions thread the walker's state explicitly; module Walker holds the
  // class that updates it in place. Disclosures are looked up by digest, and the
  // place where a disclosure's value lands is recorded under its digest.

  import opened Prelude
  import opened Json
  import opened Strings

  datatype ErrorKind =
    | DuplicateDisclosure
    | DuplicateDigest(digest: string)
    | UnreferencedDisclosure
    | InvalidDisclosure
    | ReservedName(name: string)
    | ClaimCollision(name: string)
    | InvalidClaim(claim: string)
    | InvalidPointer

  /** `name` is absent for an array-element disclosure. */
  datatype Disclosure = Disclosure(encoded: string, name: Option<string>, value: Json)

  type Table = map<string, Disclosure>

  datatype State = State(seen: set<string>, paths: map<string, Path>)

  datatype Walked<+T> = Walked(out: T, st: State)

  /** `Some(digest)` for `{"...": "<digest>"}`; `...` in any other shape is an error. */
  function ElementDigest(item: Json): Result<Option<string>, ErrorKind> {
    match item
    case Obj(fields) =>
      if "..." !in fields then Ok(None)
      else if fields["..."].Str? && fields.Keys == {"..."} then Ok(Some(fields["..."].s))
      else Err(ReservedName("..."))
    case _ => Ok(None)
  }

  /** The disclosures no digest has consumed yet: the first component of every termination measure. */
  function Unseen(tab: Table, st: State): nat {
    |tab.Keys - st.seen|
  }

  lemma UnseenShrinks(tab: Table, a: State, b: State)
    requires a.seen <= b.seen
    ensures Unseen(tab, b) <= Unseen(tab, a)
    ensures (exists d :: d in tab && d in b.seen && d !in a.seen) ==> Unseen(tab, b) < Unseen(tab, a)
  {
    var x, y := tab.Keys - b.seen, tab.Keys - a.seen;
    SubsetSize(x, y);
    if d :| d in tab && d in b.seen && d !in a.seen {
      SubsetSize(x, y - {d});
    }
  }

  lemma {:induction false} SubsetSize<T>(x: set<T>, y: set<T>)
    requires x <= y
    ensures |x| <= |y|
    decreases x
  {
    if x != {} {
      var e :| e in x;
      SubsetSize(x - {e}, y - {e});
    }
  }

  function WalkValue(tab: Table, v: Json, path: Path, st: State): (r: Result<Walked<Json>, ErrorKind>)
    ensures r.Ok? ==> st.seen <= r.value.st.seen
    decreases Unseen(tab, st), v, 2, 0
  {
    match v
    case Obj(fields) =>
      var w :- WalkObject(tab, fields, path, st);
      Ok(Walked(Obj(w.out), w.st))
    case Arr(items) =>
      var w :- WalkItems(tab, items, [], path, st);
      Ok(Walked(Arr(w.out), w.st))
    case _ => Ok(Walked(v, st))
  }

  function WalkObject(tab: Table, fields: map<string, Json>, path: Path, st: State)
    : (r: Result<Walked<map<string, Json>>, ErrorKind>)
    ensures r.Ok? ==> st.seen <= r.value.st.seen
    decreases Unseen(tab, st), Obj(fields), 1, 0
  {
    if "..." in fields then Err(ReservedName("..."))
    else
      var w :- WalkFields(tab, fields, InOrder(fields.Keys - {"_sd"}), map[], path, st);
      if "_sd" !in fields then Ok(w)
      else if !fields["_sd"].Arr? then Err(InvalidClaim("_sd"))
      else
        UnseenShrinks(tab, st, w.st);
        WalkDigests(tab, fields["_sd"].items, w.out, path, w.st)
  }

  /** The members other than `_sd`, in key order. */
  function WalkFields(tab: Table, fields: map<string, Json>, keys: seq<string>, out: map<string, Json>, path: Path,
                      st: State)
    : (r: Result<Walked<map<string, Json>>, ErrorKind>)
    requires forall k :: k in keys ==> k in fields
    ensures r.Ok? ==> st.seen <= r.value.st.seen
    decreases Unseen(tab, st), Obj(fields), 0, |keys|
  {
    if keys == [] then Ok(Walked(out, st))
    else
      var w :- WalkValue(tab, fields[keys[0]], path + [Key(keys[0])], st);
      UnseenShrinks(tab, st, w.st);
      WalkFields(tab, fields, keys[1..], out[keys[0] := w.out], path, w.st)
  }

  /** Records `digest` as seen; the matching disclosure, if any, is `tab[digest]`. */
  function Mark(digest: string, st: State): Result<State, ErrorKind> {
    if digest in st.seen then Err(DuplicateDigest(digest)) else Ok(st.(seen := st.seen + {digest}))
  }

  /** The disclosure under `digest` is consumed, and its value lands at `at`. */
  function Land(digest: string, at: Path, st: State): State {
    State(st.seen + {digest}, st.paths[digest := at])
  }

  lemma LandShrinks(tab: Table, digest: string, at: Path, st: State)
    requires digest in tab && digest !in st.seen
    ensures Unseen(tab, Land(digest, at, st)) < Unseen(tab, st)
  {
    assert digest in Land(digest, at, st).seen;
    UnseenShrinks(tab, st, Land(digest, at, st));
  }

  /** The digests of `_sd`. One without a disclosure is an undisclosed claim or a decoy. */
  function WalkDigests(tab: Table, digests: seq<Json>, out: map<string, Json>, path: Path, st: State)
    : (r: Result<Walked<map<string, Json>>, ErrorKind>)
    ensures r.Ok? ==> st.seen <= r.value.st.seen
    decreases Unseen(tab, st), digests, 0, 0
  {
    if digests == [] then Ok(Walked(out, st))
    else if !digests[0].Str? then Err(InvalidClaim("_sd"))
    else
      var digest := digests[0].s;
      var st1 :- Mark(digest, st);
      UnseenShrinks(tab, st, st1);
      if digest !in tab then WalkDigests(tab, digests[1..], out, path, st1)
      else if tab[digest].name.None? then Err(InvalidDisclosure)
      else
        var name := tab[digest].name.value;
        if name == "_sd" || name == "..." then Err(ReservedName(name))
        else if name in out then Err(ClaimCollision(name))
        else
          LandShrinks(tab, digest, path + [Key(name)], st);
          var w :- WalkValue(tab, tab[digest].value, path + [Key(name)], Land(digest, path + [Key(name)], st));
          UnseenShrinks(tab, st, w.st);
          WalkDigests(tab, digests[1..], out[name := w.out], path, w.st)
  }

  /** Array elements. An undisclosed element is dropped, so later ones move up. */
  function WalkItems(tab: Table, items: seq<Json>, out: seq<Json>, path: Path, st: State)
    : (r: Result<Walked<seq<Json>>, ErrorKind>)
    ensures r.Ok? ==> st.seen <= r.value.st.seen
    decreases Unseen(tab, st), items, 3, 0
  {
    if items == [] then Ok(Walked(out, st))
    else
      var at := path + [Index(|out|)];
      var found :- ElementDigest(items[0]);
      if found.None? then
        var w :- WalkValue(tab, items[0], at, st);
        UnseenShrinks(tab, st, w.st);
        WalkItems(tab, items[1..], out + [w.out], path, w.st)
      else
        var digest := found.value;
        var st1 :- Mark(digest, st);
        UnseenShrinks(tab, st, st1);
        if digest !in tab then WalkItems(tab, items[1..], out, path, st1)
        else if tab[digest].name.Some? then Err(InvalidDisclosure)
        else
          LandShrinks(tab, digest, at, st);
          var w :- WalkValue(tab, tab[digest].value, at, Land(digest, at, st));
          UnseenShrinks(tab, st, w.st);
          WalkItems(tab, items[1..], out + [w.out], path, w.st)
  }

  datatype Processed = Processed(claims: map<string, Json>, paths: seq<Path>)

  predicate DistinctDigests(hash: string -> string, ds: seq<Disclosure>) {
    forall i, j :: 0 <= i < j < |ds| ==> hash(ds[i].encoded) != hash(ds[j].encoded)
  }

  /** Disclosures by digest; two with the same digest are an error. */
  function Tabulate(hash: string -> string, ds: seq<Disclosure>): Result<Table, ErrorKind> {
    if ds == [] then Ok(map[])
    else
      var last := ds[|ds| - 1];
      var init :- Tabulate(hash, ds[..|ds| - 1]);
      if hash(last.encoded) in init then Err(DuplicateDisclosure)
      else Ok(init[hash(last.encoded) := last])
  }

  lemma {:induction false} TabulateKeys(hash: string -> string, ds: seq<Disclosure>, d: string)
    requires Tabulate(hash, ds).Ok?
    ensures d in Tabulate(hash, ds).value <==> exists i :: 0 <= i < |ds| && hash(ds[i].encoded) == d
  {
    if ds != [] {
      var n := |ds| - 1;
      TabulateKeys(hash, ds[..n], d);
      assert forall i :: 0 <= i < n ==> ds[..n][i] == ds[i];
    }
  }

  lemma {:induction false} TabulateFinds(hash: string -> string, ds: seq<Disclosure>, i: nat)
    requires Tabulate(hash, ds).Ok? && i < |ds|
    ensures hash(ds[i].encoded) in Tabulate(hash, ds).value && Tabulate(hash, ds).value[hash(ds[i].encoded)] == ds[i]
  {
    var n := |ds| - 1;
    if i < n { TabulateFinds(hash, ds[..n], i); }
  }

  /** A disclosure in the table is one of those presented, under its own digest. */
  lemma FoundIn(hash: string -> string, ds: seq<Disclosure>, g: string) returns (i: nat)
    requires Tabulate(hash, ds).Ok? && g in Tabulate(hash, ds).value
    ensures i < |ds| && hash(ds[i].encoded) == g && Tabulate(hash, ds).value[g] == ds[i]
  {
    TabulateKeys(hash, ds, g);
    i :| 0 <= i < |ds| && hash(ds[i].encoded) == g;
    TabulateFinds(hash, ds, i);
  }

  lemma TabulateOne(hash: string -> string, d: Disclosure)
    ensures Tabulate(hash, [d]) == Ok(map[hash(d.encoded) := d])
  {
    assert [d][..0] == [];
  }

  /** One more disclosure keeps the digests distinct exactly when its own is new. */
  lemma DistinctSnoc(hash: string -> string, ds: seq<Disclosure>)
    requires ds != []
    ensures var n := |ds| - 1;
            DistinctDigests(hash, ds) <==>
            DistinctDigests(hash, ds[..n]) && forall i :: 0 <= i < n ==> hash(ds[i].encoded) != hash(ds[n].encoded)
  {
    var n := |ds| - 1;
    assert forall i :: 0 <= i < n ==> ds[..n][i] == ds[i];
  }

  lemma {:induction false} TabulateDistinct(hash: string -> string, ds: seq<Disclosure>)
    ensures Tabulate(hash, ds).Ok? <==> DistinctDigests(hash, ds)
  {
    if ds != [] {
      var n := |ds| - 1;
      TabulateDistinct(hash, ds[..n]);
      DistinctSnoc(hash, ds);
      if Tabulate(hash, ds[..n]).Ok? { TabulateKeys(hash, ds[..n], hash(ds[n].encoded)); }
    }
  }

  /** The table exists exactly when no two disclosures share a digest, and then finds each of them. */
  lemma TabulateExact(hash: string -> string, ds: seq<Disclosure>)
    ensures Tabulate(hash, ds).Ok? <==> DistinctDigests(hash, ds)
    ensures Tabulate(hash, ds).Ok? ==>
              forall i :: 0 <= i < |ds| ==>
                            && hash(ds[i].encoded) in Tabulate(hash, ds).value
                            && Tabulate(hash, ds).value[hash(ds[i].encoded)] == ds[i]
  {
    TabulateDistinct(hash, ds);
    if Tabulate(hash, ds).Ok? {
      forall i | 0 <= i < |ds|
        ensures hash(ds[i].encoded) in Tabulate(hash, ds).value
                  && Tabulate(hash, ds).value[hash(ds[i].encoded)] == ds[i]
      {
        TabulateFinds(hash, ds, i);
      }
    }
  }

  /** A disclosure without a recorded path was referenced by no digest. */
  function PathsOf(hash: string -> string, ds: seq<Disclosure>, paths: map<string, Path>)
    : (r: Result<seq<Path>, ErrorKind>)
    ensures r.Ok? <==> forall i :: 0 <= i < |ds| ==> hash(ds[i].encoded) in paths
    ensures r.Ok? ==> |r.value| == |ds| && forall i :: 0 <= i < |ds| ==> r.value[i] == paths[hash(ds[i].encoded)]
  {
    if ds == [] then Ok([])
    else
      var n := |ds| - 1;
      var init := PathsOf(hash, ds[..n], paths);
      if init.Err? then init
      else
        if hash(ds[n].encoded) !in paths then Err(UnreferencedDisclosure)
        else Ok(init.value + [paths[hash(ds[n].encoded)]])
  }

  function Process(payload: map<string, Json>, ds: seq<Disclosure>, hash: string -> string)
    : (r: Result<Processed, ErrorKind>)
    ensures r.Ok? ==> |r.value.paths| == |ds|
  {
    var tab :- Tabulate(hash, ds);
    var w :- WalkObject(tab, payload, [], State({}, map[]));
    var paths :- PathsOf(hash, ds, w.st.paths);
    Ok(Processed(w.out - {"_sd_alg"}, paths))
  }
}
