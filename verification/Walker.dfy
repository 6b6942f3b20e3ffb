/**
 The walker as the code runs it (crates/sdjwt/src/process.rs): one object whose `seen`,
 `paths` and `path` change in place. Its methods return what the specification
 functions return and leave the state they leave.
 */
module Walker {
  import opened Prelude
  import opened Json
  import opened Strings
  import opened Processing

  /** One array element at `at`: what it contributes, if anything. */
  ghost function ItemStep(tab: Table, item: Json, at: Path, st: State): Result<Walked<Option<Json>>, ErrorKind> {
    var found :- ElementDigest(item);
    if found.None? then
      var w :- WalkValue(tab, item, at, st);
      Ok(Walked(Some(w.out), w.st))
    else
      var st1 :- Mark(found.value, st);
      if found.value !in tab then Ok(Walked(None, st1))
      else if tab[found.value].name.Some? then Err(InvalidDisclosure)
      else
        var w :- WalkValue(tab, tab[found.value].value, at, Land(found.value, at, st));
        Ok(Walked(Some(w.out), w.st))
  }

  function Pushed(out: seq<Json>, v: Option<Json>): seq<Json> {
    if v.Some? then out + [v.value] else out
  }

  lemma ItemsUnfold(tab: Table, items: seq<Json>, out: seq<Json>, path: Path, st: State)
    requires items != []
    ensures WalkItems(tab, items, out, path, st) ==
            match ItemStep(tab, items[0], path + [Index(|out|)], st)
            case Err(e) => Err(e)
            case Ok(w) => WalkItems(tab, items[1..], Pushed(out, w.out), path, w.st)
  {
  }

  /** One digest of `_sd`: the members once it is resolved. */
  ghost function DigestStep(tab: Table, d: Json, out: map<string, Json>, path: Path,
                            st: State): Result<Walked<map<string, Json>>, ErrorKind> {
    if !d.Str? then Err(InvalidClaim("_sd"))
    else
      var st1 :- Mark(d.s, st);
      if d.s !in tab then Ok(Walked(out, st1))
      else if tab[d.s].name.None? then Err(InvalidDisclosure)
      else
        var name := tab[d.s].name.value;
        if name == "_sd" || name == "..." then Err(ReservedName(name))
        else if name in out then Err(ClaimCollision(name))
        else
          var w :- WalkValue(tab, tab[d.s].value, path + [Key(name)], Land(d.s, path + [Key(name)], st));
          Ok(Walked(out[name := w.out], w.st))
  }

  lemma DigestsUnfold(tab: Table, digests: seq<Json>, out: map<string, Json>, path: Path, st: State)
    requires digests != []
    ensures WalkDigests(tab, digests, out, path, st) ==
            match DigestStep(tab, digests[0], out, path, st)
            case Err(e) => Err(e)
            case Ok(w) => WalkDigests(tab, digests[1..], w.out, path, w.st)
  {
  }

  class Walker {
    const disclosures: seq<Disclosure>
    const byDigest: map<string, nat>
    var seen: set<string>
    var paths: seq<Option<Path>>
    var path: Path

    ghost predicate Valid()
      reads this`paths
    {
      && |paths| == |disclosures|
      && (forall d :: d in byDigest ==> byDigest[d] < |disclosures|)
      && (forall d, e :: d in byDigest && e in byDigest && byDigest[d] == byDigest[e] ==> d == e)
    }

    ghost function Tab(): Table
      requires forall d :: d in byDigest ==> byDigest[d] < |disclosures|
    {
      map d | d in byDigest :: disclosures[byDigest[d]]
    }

    ghost function St(): State
      reads this`seen, this`paths
      requires Valid()
    {
      State(seen, map d | d in byDigest && paths[byDigest[d]].Some? :: paths[byDigest[d]].value)
    }

    /** A result, and on success the state and the restored path stack, agree with the specification. */
    ghost predicate Matches<T>(spec: Result<Walked<T>, ErrorKind>, r: Result<T, ErrorKind>, at: Path)
      reads this
      requires Valid()
    {
      match spec
      case Ok(w) => r == Ok(w.out) && St() == w.st && path == at
      case Err(e) => r == Err(e)
    }

    constructor (ds: seq<Disclosure>, index: map<string, nat>)
      requires forall d :: d in index ==> index[d] < |ds|
      requires forall d, e :: d in index && e in index && index[d] == index[e] ==> d == e
      ensures Valid() && disclosures == ds && byDigest == index
      ensures path == [] && St() == State({}, map[])
    {
      disclosures := ds;
      byDigest := index;
      seen := {};
      paths := seq(|ds|, i => None);
      path := [];
    }

    /** Records `digest` as seen and returns the matching disclosure, if any. */
    method Lookup(digest: string) returns (r: Result<Option<nat>, ErrorKind>)
      requires Valid()
      modifies this`seen
      ensures Valid()
      ensures match Mark(digest, old(St()))
              case Ok(st) => St() == st && r == Ok(if digest in byDigest then Some(byDigest[digest]) else None)
              case Err(e) => r == Err(e)
    {
      if digest in seen {
        return Err(DuplicateDigest(digest));
      }
      seen := seen + {digest};
      r := Ok(if digest in byDigest then Some(byDigest[digest]) else None);
    }

    method Value(v: Json) returns (r: Result<Json, ErrorKind>)
      requires Valid()
      modifies this
      ensures Valid() && Matches(WalkValue(Tab(), v, old(path), old(St())), r, old(path))
      decreases Unseen(Tab(), St()), v, 2, 0
    {
      match v
      case Obj(fields) =>
        var o := Object(fields);
        if o.Err? { return Err(o.error); }
        r := Ok(Obj(o.value));
      case Arr(items) =>
        var a := Array(items);
        if a.Err? { return Err(a.error); }
        r := Ok(Arr(a.value));
      case _ =>
        r := Ok(v);
    }

    method Object(fields: map<string, Json>) returns (r: Result<map<string, Json>, ErrorKind>)
      requires Valid()
      modifies this
      ensures Valid() && Matches(WalkObject(Tab(), fields, old(path), old(St())), r, old(path))
      decreases Unseen(Tab(), St()), Obj(fields), 1, 0
    {
      if "..." in fields {
        return Err(ReservedName("..."));
      }
      var out := Members(fields);
      if out.Err? || "_sd" !in fields {
        return out;
      }
      if !fields["_sd"].Arr? {
        return Err(InvalidClaim("_sd"));
      }
      UnseenShrinks(Tab(), old(St()), St());
      r := Digests(fields["_sd"].items, out.value);
    }

    method Members(fields: map<string, Json>) returns (r: Result<map<string, Json>, ErrorKind>)
      requires Valid()
      modifies this
      ensures Valid()
      ensures Matches(WalkFields(Tab(), fields, InOrder(fields.Keys - {"_sd"}), map[], old(path), old(St())), r,
                old(path))
      decreases Unseen(Tab(), St()), Obj(fields), 0, 0
    {
      ghost var spec := WalkFields(Tab(), fields, InOrder(fields.Keys - {"_sd"}), map[], path, St());
      var keys := InOrder(fields.Keys - {"_sd"});
      var out: map<string, Json> := map[];
      while keys != []
        invariant Valid() && path == old(path)
        invariant forall k :: k in keys ==> k in fields
        invariant old(St()).seen <= St().seen
        invariant WalkFields(Tab(), fields, keys, out, path, St()) == spec
        decreases |keys|
      {
        UnseenShrinks(Tab(), old(St()), St());
        var name := keys[0];
        path := path + [Key(name)];
        var v := Value(fields[name]);
        if v.Err? { return Err(v.error); }
        path := path[..|path| - 1];
        out := out[name := v.value];
        keys := keys[1..];
      }
      r := Ok(out);
    }

    /** The value of disclosure `i`, whose digest was just marked, lands at the current path. */
    method Disclosed(i: nat, ghost digest: string, ghost st: State) returns (r: Result<Json, ErrorKind>)
      requires Valid() && digest in byDigest && byDigest[digest] == i && digest !in st.seen
      requires St() == State(st.seen + {digest}, st.paths)
      modifies this
      ensures Valid()
      ensures Matches(WalkValue(Tab(), Tab()[digest].value, old(path), Land(digest, old(path), st)), r, old(path))
      decreases Unseen(Tab(), St()), Tab()[digest].value, 3, 0
    {
      paths := paths[i := Some(path)];
      assert St() == Land(digest, path, st);
      r := Value(disclosures[i].value);
    }

    method Digest(d: Json, base: map<string, Json>) returns (r: Result<map<string, Json>, ErrorKind>)
      requires Valid()
      modifies this
      ensures Valid() && Matches(DigestStep(Tab(), d, base, old(path), old(St())), r, old(path))
      ensures r.Ok? ==> old(seen) <= seen
      decreases Unseen(Tab(), St()), d, 0, 0
    {
      ghost var st := St();
      if !d.Str? { return Err(InvalidClaim("_sd")); }
      var found := Lookup(d.s);
      if found.Err? { return Err(found.error); }
      if found.value.None? { return Ok(base); }
      var i := found.value.value;
      if disclosures[i].name.None? { return Err(InvalidDisclosure); }
      var name := disclosures[i].name.value;
      if name == "_sd" || name == "..." { return Err(ReservedName(name)); }
      if name in base { return Err(ClaimCollision(name)); }
      path := path + [Key(name)];
      LandShrinks(Tab(), d.s, path, st);
      var v := Disclosed(i, d.s, st);
      if v.Err? { return Err(v.error); }
      path := path[..|path| - 1];
      r := Ok(base[name := v.value]);
    }

    method Digests(digests: seq<Json>, base: map<string, Json>) returns (r: Result<map<string, Json>, ErrorKind>)
      requires Valid()
      modifies this
      ensures Valid() && Matches(WalkDigests(Tab(), digests, base, old(path), old(St())), r, old(path))
      decreases Unseen(Tab(), St()), digests, 0, 0
    {
      ghost var spec := WalkDigests(Tab(), digests, base, path, St());
      var out := base;
      for k := 0 to |digests|
        invariant Valid() && path == old(path)
        invariant old(St()).seen <= St().seen
        invariant WalkDigests(Tab(), digests[k..], out, path, St()) == spec
      {
        UnseenShrinks(Tab(), old(St()), St());
        DigestsUnfold(Tab(), digests[k..], out, path, St());
        assert digests[k..][0] == digests[k] && digests[k..][1..] == digests[k + 1..];
        var next := Digest(digests[k], out);
        if next.Err? { return Err(next.error); }
        out := next.value;
      }
      r := Ok(out);
    }

    /** One array element, at the path already pushed. */
    method Item(item: Json) returns (r: Result<Option<Json>, ErrorKind>)
      requires Valid()
      modifies this
      ensures Valid() && Matches(ItemStep(Tab(), item, old(path), old(St())), r, old(path))
      ensures r.Ok? ==> old(seen) <= seen
      decreases Unseen(Tab(), St()), item, 3, 1
    {
      ghost var st := St();
      var found := ElementDigest(item);
      if found.Err? { return Err(found.error); }
      var v: Result<Json, ErrorKind>;
      if found.value.None? {
        v := Value(item);
      } else {
        var hit := Lookup(found.value.value);
        if hit.Err? { return Err(hit.error); }
        if hit.value.None? { return Ok(None); }
        var i := hit.value.value;
        if disclosures[i].name.Some? { return Err(InvalidDisclosure); }
        LandShrinks(Tab(), found.value.value, path, st);
        v := Disclosed(i, found.value.value, st);
      }
      if v.Err? { return Err(v.error); }
      r := Ok(Some(v.value));
    }

    method Array(items: seq<Json>) returns (r: Result<seq<Json>, ErrorKind>)
      requires Valid()
      modifies this
      ensures Valid() && Matches(WalkItems(Tab(), items, [], old(path), old(St())), r, old(path))
      decreases Unseen(Tab(), St()), items, 3, 0
    {
      ghost var spec := WalkItems(Tab(), items, [], path, St());
      var out: seq<Json> := [];
      for k := 0 to |items|
        invariant Valid() && path == old(path)
        invariant old(St()).seen <= St().seen
        invariant WalkItems(Tab(), items[k..], out, path, St()) == spec
      {
        UnseenShrinks(Tab(), old(St()), St());
        ItemsUnfold(Tab(), items[k..], out, path, St());
        assert items[k..][0] == items[k] && items[k..][1..] == items[k + 1..];
        path := path + [Index(|out|)];
        var v := Item(items[k]);
        if v.Err? { return Err(v.error); }
        path := path[..|path| - 1];
        out := Pushed(out, v.value);
      }
      r := Ok(out);
    }
  }

  /** Each digest leads to the one disclosure that has it. */
  ghost predicate Indexes(hash: string -> string, ds: seq<Disclosure>, index: map<string, nat>) {
    && (forall d :: d in index ==> index[d] < |ds| && hash(ds[index[d]].encoded) == d)
    && Tabulate(hash, ds) == Ok(map d | d in index :: ds[index[d]])
  }

  method IndexDisclosures(ds: seq<Disclosure>, hash: string -> string)
    returns (r: Result<map<string, nat>, ErrorKind>)
    ensures r.Ok? ==> Indexes(hash, ds, r.value)
    ensures r.Err? ==> Tabulate(hash, ds) == Err(r.error)
  {
    var index: map<string, nat> := map[];
    for i := 0 to |ds|
      invariant Indexes(hash, ds[..i], index)
    {
      assert ds[..i + 1][..i] == ds[..i];
      var d := hash(ds[i].encoded);
      if d in index {
        TabulatePrefix(hash, ds, i + 1);
        return Err(DuplicateDisclosure);
      }
      ghost var tab := map e | e in index :: ds[..i][index[e]];
      index := index[d := i];
      assert (map e | e in index :: ds[..i + 1][index[e]]) == tab[d := ds[i]];
    }
    assert ds[..|ds|] == ds;
    r := Ok(index);
  }

  method CollectPaths(walker: Walker, ghost hash: string -> string) returns (r: Result<seq<Path>, ErrorKind>)
    requires walker.Valid() && Indexes(hash, walker.disclosures, walker.byDigest)
    ensures r == PathsOf(hash, walker.disclosures, walker.St().paths)
  {
    ghost var ds := walker.disclosures;
    var paths: seq<Path> := [];
    for i := 0 to |walker.paths|
      invariant PathsOf(hash, ds[..i], walker.St().paths) == Ok(paths)
    {
      assert ds[..i + 1][..i] == ds[..i];
      IndexHolds(hash, ds, walker.byDigest, i);
      if walker.paths[i].None? {
        PathsPrefix(hash, ds, walker.St().paths, i + 1);
        return Err(UnreferencedDisclosure);
      }
      paths := paths + [walker.paths[i].value];
    }
    assert ds[..|ds|] == ds;
    r := Ok(paths);
  }

  /** The whole of `process`, with its index of disclosures and its walker. */
  method ProcessPayload(payload: map<string, Json>, ds: seq<Disclosure>, hash: string -> string)
    returns (r: Result<Processed, ErrorKind>)
    ensures r == Process(payload, ds, hash)
  {
    var index := IndexDisclosures(ds, hash);
    if index.Err? {
      return Err(index.error);
    }
    var walker := new Walker(ds, index.value);
    assert walker.Tab() == Tabulate(hash, ds).value;
    var claims := walker.Object(payload);
    if claims.Err? {
      return Err(claims.error);
    }
    var paths := CollectPaths(walker, hash);
    if paths.Err? {
      return Err(paths.error);
    }
    r := Ok(Processed(claims.value - {"_sd_alg"}, paths.value));
  }

  lemma {:induction false} TabulatePrefix(hash: string -> string, ds: seq<Disclosure>, n: nat)
    requires n <= |ds| && Tabulate(hash, ds[..n]).Err?
    ensures Tabulate(hash, ds) == Err(DuplicateDisclosure)
    decreases |ds| - n
  {
    if n == |ds| {
      assert ds[..n] == ds;
      TabulateError(hash, ds);
    } else {
      assert ds[..n + 1][..n] == ds[..n];
      TabulatePrefix(hash, ds, n + 1);
    }
  }

  lemma {:induction false} TabulateError(hash: string -> string, ds: seq<Disclosure>)
    ensures Tabulate(hash, ds).Err? ==> Tabulate(hash, ds).error == DuplicateDisclosure
  {
    if ds != [] { TabulateError(hash, ds[..|ds| - 1]); }
  }

  lemma {:induction false} PathsPrefix(hash: string -> string, ds: seq<Disclosure>, paths: map<string, Path>, n: nat)
    requires n <= |ds| && PathsOf(hash, ds[..n], paths).Err?
    ensures PathsOf(hash, ds, paths) == Err(UnreferencedDisclosure)
    decreases |ds| - n
  {
    if n == |ds| {
      assert ds[..n] == ds;
      PathsError(hash, ds, paths);
    } else {
      assert ds[..n + 1][..n] == ds[..n];
      PathsPrefix(hash, ds, paths, n + 1);
    }
  }

  lemma {:induction false} PathsError(hash: string -> string, ds: seq<Disclosure>, paths: map<string, Path>)
    ensures PathsOf(hash, ds, paths).Err? ==> PathsOf(hash, ds, paths).error == UnreferencedDisclosure
  {
    if ds != [] { PathsError(hash, ds[..|ds| - 1], paths); }
  }

  lemma IndexHolds(hash: string -> string, ds: seq<Disclosure>, index: map<string, nat>, i: nat)
    requires i < |ds| && Indexes(hash, ds, index)
    ensures hash(ds[i].encoded) in index && index[hash(ds[i].encoded)] == i
  {
    TabulateExact(hash, ds);
    var d := hash(ds[i].encoded);
    assert d in Tabulate(hash, ds).value;
  }
}
