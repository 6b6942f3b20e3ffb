/**
 Issuance as the code runs it (crates/sdjwt/src/conceal.rs): one document rewritten in
 place, operation by operation, with disclosures and salts drawn along the way. Its
 methods reach the state that the specification of each step gives.
 */
module Builder {
  import opened Prelude
  import opened Json
  import opened Processing
  import opened Pointer
  import opened Grafting
  import opened Conceal
  import Splitting

  class Builder {
    const src: Source
    var doc: Json
    var disclosures: seq<Disclosure>
    var minted: seq<string>
    var used: nat

    constructor (src: Source, claims: map<string, Json>)
      ensures this.src == src && Now() == Building(Obj(claims), [], [], 0)
    {
      this.src := src;
      doc := Obj(claims);
      disclosures, minted, used := [], [], 0;
    }

    ghost function Now(): Building
      reads this
    {
      Building(doc, disclosures, minted, used)
    }

    /** The specification, seen from a call that may have hit a panic. */
    ghost predicate Reached(o: Outcome, ok: bool)
      reads this
    {
      o == if ok then Done(Now()) else Panic(Now())
    }

    /** `conceal_at`. */
    method ConcealAt(path: Path) returns (ok: bool)
      modifies this
      ensures Reached(HideAt(src, path, old(Now())), ok)
    {
      if path == [] { return false; }
      var up := path[..|path| - 1];
      var parent := Lookup(doc, up);
      if parent.None? { return false; }
      var hidden := ConcealIn(src, used, parent.value, path[|path| - 1]);
      if hidden.None? { return false; }
      doc := Put(doc, up, hidden.value.0);
      disclosures := disclosures + [hidden.value.1];
      minted := minted + [src.DigestOf(hidden.value.1)];
      used := used + 1;
      return true;
    }

    /** One turn of `add_decoys`. */
    method PlaceDecoy(path: Path) returns (ok: bool)
      modifies this
      ensures Reached(DecoyAt(src, path, old(Now())), ok)
    {
      var container := Lookup(doc, path);
      if container.None? { return false; }
      var decoyed := AddDecoy(src, used, container.value);
      if decoyed.None? { return false; }
      doc := Put(doc, path, decoyed.value);
      minted := minted + [src.Decoy(used)];
      used := used + 1;
      return true;
    }

    /** `add_decoys`; `rest` is what follows in the list of operations. */
    method AddDecoys(path: Path, count: nat, ghost rest: seq<Op>) returns (ok: bool)
      modifies this
      ensures ok ==> Run(src, [Decoys(path, count)] + rest, old(Now())) == Run(src, rest, Now())
      ensures !ok ==> Run(src, [Decoys(path, count)] + rest, old(Now())) == Panic(Now())
    {
      ghost var spec := Run(src, [Decoys(path, count)] + rest, Now());
      var left: nat := count;
      while left > 0
        invariant left <= count
        invariant Run(src, [Decoys(path, left)] + rest, Now()) == spec
      {
        DecoyTurn(src, path, left, rest, Now());
        ok := PlaceDecoy(path);
        if !ok { return; }
        left := left - 1;
      }
      DecoyTurn(src, path, 0, rest, Now());
      ok := true;
    }

    /** The loop over the sorted operations. */
    method Apply(ops: seq<Op>) returns (ok: bool)
      modifies this
      ensures Reached(Run(src, ops, old(Now())), ok)
    {
      ghost var spec := Run(src, ops, Now());
      assert ops[0..] == ops;
      for k := 0 to |ops|
        invariant Run(src, ops[k..], Now()) == spec
      {
        assert ops[k..] == [ops[k]] + ops[k + 1..];
        match ops[k]
        case Hide(path) =>
          HideTurn(src, path, ops[k + 1..], Now());
          ok := ConcealAt(path);
          if !ok { return; }
        case Decoys(path, count) =>
          ok := AddDecoys(path, count, ops[k + 1..]);
          if !ok { return; }
      }
      ok := true;
    }
  }

  lemma HideTurn(src: Source, path: Path, rest: seq<Op>, b: Building)
    ensures var o := HideAt(src, path, b);
            Run(src, [Hide(path)] + rest, b) == if o.Panic? then o else Run(src, rest, o.b)
  {
    var ops := [Hide(path)] + rest;
    assert ops[0] == Hide(path) && ops[1..] == rest;
  }

  lemma DecoyTurn(src: Source, path: Path, count: nat, rest: seq<Op>, b: Building)
    ensures Run(src, [Decoys(path, count)] + rest, b) ==
            if count == 0 then Run(src, rest, b)
            else
              var o := DecoyAt(src, path, b);
              if o.Panic? then o else Run(src, [Decoys(path, count - 1)] + rest, o.b)
  {
    var ops := [Decoys(path, count)] + rest;
    assert ops[0] == Decoys(path, count) && ops[1..] == rest;
  }

  /** `build`: resolves the pointers, sorts the operations and applies them to the document. */
  method BuildPayload(src: Source, claims: map<string, Json>, concealed: seq<string>, decoys: seq<(string, nat)>)
    returns (r: Result<Outcome, ErrorKind>)
    ensures r == Build(src, claims, concealed, decoys)
  {
    ReservedFound(Obj(claims));
    var reserved := FirstReserved(Obj(claims));
    if reserved.Some? { return Err(ReservedName(reserved.value)); }
    if "_sd_alg" in claims { return Err(ReservedName("_sd_alg")); }
    var hides := HidesOf(Obj(claims), concealed);
    if hides.Err? { return Err(hides.error); }
    var decs := DecoysOf(Obj(claims), decoys);
    if decs.Err? { return Err(decs.error); }
    var b := new Builder(src, claims);
    var ok := b.Apply(SortOps(hides.value + decs.value));
    var building := Building(b.doc, b.disclosures, b.minted, b.used);
    r := Ok(if ok then Done(building) else Panic(building));
  }

  method HidesOf(doc: Json, pointers: seq<string>) returns (r: Result<seq<Op>, ErrorKind>)
    ensures r == HideOps(doc, pointers)
  {
    var ops: seq<Op> := [];
    for k := 0 to |pointers|
      invariant HideOps(doc, pointers[..k]) == Ok(ops)
    {
      assert pointers[..k + 1][..k] == pointers[..k];
      var path := ResolveInSteps(doc, pointers[k]);
      if path.Err? || Hide(path.value) in ops {
        HideOpsFail(doc, pointers, k + 1);
        return Err(InvalidPointer);
      }
      ops := ops + [Hide(path.value)];
    }
    assert pointers[..|pointers|] == pointers;
    r := Ok(ops);
  }

  method DecoysOf(doc: Json, decoys: seq<(string, nat)>) returns (r: Result<seq<Op>, ErrorKind>)
    ensures r == DecoyOps(doc, decoys)
  {
    var ops: seq<Op> := [];
    for k := 0 to |decoys|
      invariant DecoyOps(doc, decoys[..k]) == Ok(ops)
    {
      assert decoys[..k + 1][..k] == decoys[..k];
      var (p, count) := decoys[k];
      var path: Result<Path, ErrorKind> := Ok([]);
      if p != [] { path := ResolveInSteps(doc, p); }
      var target := if path.Ok? then Lookup(doc, path.value) else None;
      if target.None? || !(target.value.Obj? || target.value.Arr?) {
        DecoyOpsFail(doc, decoys, k + 1);
        return Err(InvalidPointer);
      }
      ops := ops + [Decoys(path.value, count)];
    }
    assert decoys[..|decoys|] == decoys;
    r := Ok(ops);
  }

  /** A pointer that fails makes the whole list fail, and every failure is the same error. */
  lemma {:induction false} HideOpsFail(doc: Json, pointers: seq<string>, k: nat)
    requires k <= |pointers| && HideOps(doc, pointers[..k]).Err?
    ensures HideOps(doc, pointers) == Err(InvalidPointer)
    decreases |pointers|
  {
    HideOpsError(doc, pointers);
    if k < |pointers| {
      var init := pointers[..|pointers| - 1];
      assert init[..k] == pointers[..k];
      HideOpsFail(doc, init, k);
    } else {
      assert pointers[..k] == pointers;
    }
  }

  lemma {:induction false} HideOpsError(doc: Json, pointers: seq<string>)
    ensures HideOps(doc, pointers).Err? ==> HideOps(doc, pointers).error == InvalidPointer
  {
    if pointers != [] {
      HideOpsError(doc, pointers[..|pointers| - 1]);
      ResolveError(doc, pointers[|pointers| - 1]);
    }
  }

  lemma {:induction false} DecoyOpsFail(doc: Json, decoys: seq<(string, nat)>, k: nat)
    requires k <= |decoys| && DecoyOps(doc, decoys[..k]).Err?
    ensures DecoyOps(doc, decoys) == Err(InvalidPointer)
    decreases |decoys|
  {
    DecoyOpsError(doc, decoys);
    if k < |decoys| {
      var init := decoys[..|decoys| - 1];
      assert init[..k] == decoys[..k];
      DecoyOpsFail(doc, init, k);
    } else {
      assert decoys[..k] == decoys;
    }
  }

  lemma {:induction false} DecoyOpsError(doc: Json, decoys: seq<(string, nat)>)
    ensures DecoyOps(doc, decoys).Err? ==> DecoyOps(doc, decoys).error == InvalidPointer
  {
    if decoys != [] {
      DecoyOpsError(doc, decoys[..|decoys| - 1]);
      ResolveError(doc, decoys[|decoys| - 1].0);
    }
  }

  lemma ResolveError(doc: Json, pointer: string)
    ensures Resolve(doc, pointer).Err? ==> Resolve(doc, pointer).error == InvalidPointer
  {
    if pointer != [] { TokensError(doc, Splitting.Split(pointer[1..], '/')); }
  }

  lemma {:induction false} TokensError(v: Json, tokens: seq<string>)
    ensures ResolveTokens(v, tokens).Err? ==> ResolveTokens(v, tokens).error == InvalidPointer
    decreases |tokens|
  {
    if tokens != [] && ValidEscapes(tokens[0]) && Step(v, Unescape(tokens[0])).Some? {
      TokensError(Follow(v, Step(v, Unescape(tokens[0])).value), tokens[1..]);
    }
  }
}
