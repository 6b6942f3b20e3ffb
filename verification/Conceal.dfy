/** Issuance: claims become a payload with digests and the matching disclosures (crates/sdjwt/src/conceal.rs). */
module Conceal {
  // Section 4.2 of RFC 9901. Concealment runs deepest pointer first, the decoys of a
  // container before the container.

  import opened Prelude
  import opened Json
  import opened Strings
  import opened Processing
  import opened Pointer
  import opened SdTree
  import opened Grafting

  /**
   What issuance draws from outside: the k-th random salt, the k-th random
   position for an array decoy, the base64url text of a disclosure, the hash.
   */
  datatype Source = Source(
    salt: nat -> string,
    pick: nat -> nat,
    encode: (string, Option<string>, Json) -> string,
    hash: string -> string)
  {
    function Mint(k: nat, name: Option<string>, value: Json): Disclosure {
      Disclosure(encode(salt(k), name, value), name, value)
    }

    function DigestOf(d: Disclosure): string {
      hash(d.encoded)
    }

    function Decoy(k: nat): string {
      hash(salt(k))
    }
  }

  /** Section 4.1 of RFC 9901, rule 7: `_sd` and `...` are reserved for digests. */
  predicate Unreserved(v: Json) {
    match v
    case Obj(fields) => "_sd" !in fields && "..." !in fields && forall k :: k in fields ==> Unreserved(fields[k])
    case Arr(items) => forall i :: 0 <= i < |items| ==> Unreserved(items[i])
    case _ => true
  }

  /** The first reserved name, in the order in which members and elements are visited. */
  function FirstReserved(v: Json): Option<string>
    decreases v, 1, 0
  {
    match v
    case Obj(fields) =>
      if "_sd" in fields then Some("_sd")
      else if "..." in fields then Some("...")
      else FirstInFields(fields, InOrder(fields.Keys))
    case Arr(items) => FirstInItems(items)
    case _ => None
  }

  function FirstInFields(fields: map<string, Json>, keys: seq<string>): Option<string>
    requires forall k :: k in keys ==> k in fields
    decreases Obj(fields), 0, |keys|
  {
    if keys == [] then None
    else if FirstReserved(fields[keys[0]]).Some? then FirstReserved(fields[keys[0]])
    else FirstInFields(fields, keys[1..])
  }

  function FirstInItems(items: seq<Json>): Option<string>
    decreases items, 0, 0
  {
    if items == [] then None
    else if FirstReserved(items[0]).Some? then FirstReserved(items[0])
    else FirstInItems(items[1..])
  }

  /** A reserved name is found exactly when there is one. */
  lemma {:induction false} ReservedFound(v: Json)
    ensures FirstReserved(v).None? <==> Unreserved(v)
    decreases v, 1, 0
  {
    match v
    case Obj(fields) => ReservedInFields(fields, InOrder(fields.Keys));
    case Arr(items) => ReservedInItems(items);
    case _ =>
  }

  lemma {:induction false} ReservedInFields(fields: map<string, Json>, keys: seq<string>)
    requires forall k :: k in keys ==> k in fields
    ensures FirstInFields(fields, keys).None? <==> forall k :: k in keys ==> Unreserved(fields[k])
    decreases Obj(fields), 0, |keys|
  {
    if keys != [] {
      assert keys == [keys[0]] + keys[1..];
      ReservedFound(fields[keys[0]]);
      ReservedInFields(fields, keys[1..]);
    }
  }

  lemma {:induction false} ReservedInItems(items: seq<Json>)
    ensures FirstInItems(items).None? <==> forall i :: 0 <= i < |items| ==> Unreserved(items[i])
    decreases items, 0, 0
  {
    if items != [] {
      ReservedFound(items[0]);
      ReservedInItems(items[1..]);
      assert forall i :: 1 <= i < |items| ==> items[i] == items[1..][i - 1];
    }
  }

  // ---- steps on the document

  function Text(v: Json): string {
    if v.Str? then v.s else ""
  }

  /** Where binary search puts `digest` in a sorted list. */
  function Position(sd: seq<Json>, digest: string): (p: nat)
    ensures p <= |sd|
  {
    if sd != [] && Before(Text(sd[0]), digest) then 1 + Position(sd[1..], digest) else 0
  }

  function Insert<T>(s: seq<T>, at: nat, x: T): seq<T>
    requires at <= |s|
  {
    s[..at] + [x] + s[at..]
  }

  /** `None` stands for the panic the code reserves for an `_sd` that is not an array. */
  function PushSd(fields: map<string, Json>, digest: string): Option<map<string, Json>> {
    if "_sd" !in fields then Some(fields["_sd" := Arr([Str(digest)])])
    else if !fields["_sd"].Arr? then None
    else
      var sd := fields["_sd"].items;
      Some(fields["_sd" := Arr(Insert(sd, Position(sd, digest), Str(digest)))])
  }

  /** Hides one child of `parent` behind a digest; `None` is a panic. */
  function ConcealIn(src: Source, k: nat, parent: Json, s: Segment): Option<(Json, Disclosure)> {
    match (parent, s)
    case (Obj(fields), Key(name)) =>
      if name !in fields then None
      else
        var d := src.Mint(k, Some(name), fields[name]);
        var pushed := PushSd(fields - {name}, src.DigestOf(d));
        if pushed.None? then None else Some((Obj(pushed.value), d))
    case (Arr(items), Index(i)) =>
      if i >= |items| then None
      else
        var d := src.Mint(k, None, items[i]);
        Some((Arr(items[i := DigestObject(src.DigestOf(d))]), d))
    case _ => None
  }

  function AddDecoy(src: Source, k: nat, container: Json): Option<Json> {
    match container
    case Obj(fields) =>
      var pushed := PushSd(fields, src.Decoy(k));
      if pushed.None? then None else Some(Obj(pushed.value))
    case Arr(items) => Some(Arr(Insert(items, src.pick(k) % (|items| + 1), DigestObject(src.Decoy(k)))))
    case _ => None
  }

  datatype Op = Hide(path: Path) | Decoys(path: Path, count: nat)

  /** The document so far, the disclosures and every digest made, in order. `used` counts random salts. */
  datatype Building = Building(doc: Json, ds: seq<Disclosure>, minted: seq<string>, used: nat)

  datatype Outcome = Done(b: Building) | Panic(b: Building)

  function HideAt(src: Source, path: Path, b: Building): Outcome {
    if path == [] then Panic(b)
    else
      var up := path[..|path| - 1];
      var parent := Lookup(b.doc, up);
      if parent.None? then Panic(b)
      else
        var r := ConcealIn(src, b.used, parent.value, path[|path| - 1]);
        if r.None? then Panic(b)
        else Done(Building(Put(b.doc, up, r.value.0), b.ds + [r.value.1], b.minted + [src.DigestOf(r.value.1)],
              b.used + 1))
  }

  function DecoyAt(src: Source, path: Path, b: Building): Outcome {
    var container := Lookup(b.doc, path);
    if container.None? then Panic(b)
    else
      var r := AddDecoy(src, b.used, container.value);
      if r.None? then Panic(b)
      else Done(Building(Put(b.doc, path, r.value), b.ds, b.minted + [src.Decoy(b.used)], b.used + 1))
  }

  function Run(src: Source, ops: seq<Op>, b: Building): Outcome
    decreases |ops|, if ops != [] && ops[0].Decoys? then ops[0].count else 0
  {
    if ops == [] then Done(b)
    else match ops[0]
      case Hide(path) =>
        var o := HideAt(src, path, b);
        if o.Panic? then o else Run(src, ops[1..], o.b)
      case Decoys(path, count) =>
        if count == 0 then Run(src, ops[1..], b)
        else
          var o := DecoyAt(src, path, b);
          if o.Panic? then o else Run(src, [Decoys(path, count - 1)] + ops[1..], o.b)
  }

  // ---- the order of operations

  /** Deepest first; at equal depth decoys before concealment. */
  predicate Earlier(a: Op, b: Op) {
    |a.path| > |b.path| || (|a.path| == |b.path| && !(a.Hide? && b.Decoys?))
  }

  function InsertOp(op: Op, ops: seq<Op>): seq<Op> {
    if ops == [] || !Earlier(ops[0], op) then [op] + ops else [ops[0]] + InsertOp(op, ops[1..])
  }

  /** A stable sort, as `sort_by_key` is. */
  function SortOps(ops: seq<Op>): seq<Op> {
    if ops == [] then [] else InsertOp(ops[|ops| - 1], SortOps(ops[..|ops| - 1]))
  }

  // ---- the whole of `build`

  function HideOps(doc: Json, pointers: seq<string>): Result<seq<Op>, ErrorKind> {
    if pointers == [] then Ok([])
    else
      var init :- HideOps(doc, pointers[..|pointers| - 1]);
      var path :- Resolve(doc, pointers[|pointers| - 1]);
      if Hide(path) in init then Err(InvalidPointer) else Ok(init + [Hide(path)])
  }

  function DecoyOps(doc: Json, decoys: seq<(string, nat)>): Result<seq<Op>, ErrorKind> {
    if decoys == [] then Ok([])
    else
      var init :- DecoyOps(doc, decoys[..|decoys| - 1]);
      var (p, count) := decoys[|decoys| - 1];
      var path :- if p == [] then Ok([]) else Resolve(doc, p);
      var target := Lookup(doc, path);
      if target.Some? && (target.value.Obj? || target.value.Arr?) then Ok(init + [Decoys(path, count)])
      else Err(InvalidPointer)
  }

  function Build(src: Source, claims: map<string, Json>, concealed: seq<string>, decoys: seq<(string, nat)>)
    : Result<Outcome, ErrorKind>
  {
    if !Unreserved(Obj(claims)) then
      ReservedFound(Obj(claims));
      Err(ReservedName(FirstReserved(Obj(claims)).value))
    else if "_sd_alg" in claims then Err(ReservedName("_sd_alg"))
    else
      var hides :- HideOps(Obj(claims), concealed);
      var decs :- DecoyOps(Obj(claims), decoys);
      Ok(Run(src, SortOps(hides + decs), Building(Obj(claims), [], [], 0)))
  }

  // ---- when `build` succeeds

  type Resolver = string -> Result<Path, ErrorKind>

  /** Every pointer leads somewhere. */
  predicate Resolves(r: Resolver, pointers: seq<string>) {
    forall i :: 0 <= i < |pointers| ==> r(pointers[i]).Ok?
  }

  /** No two pointers lead to the same place, whatever they are spelled like. */
  predicate Apart(r: Resolver, pointers: seq<string>) {
    forall i, j :: 0 <= i < j < |pointers| ==> r(pointers[i]) != r(pointers[j])
  }

  predicate IsContainer(doc: Json, p: string) {
    var path := if p == [] then Ok([]) else Resolve(doc, p);
    path.Ok? && Lookup(doc, path.value).Some?
          && (Lookup(doc, path.value).value.Obj? || Lookup(doc, path.value).value.Arr?)
  }

  /** The operations for `pointers`, however they are resolved. */
  function OpsBy(r: Resolver, pointers: seq<string>): Result<seq<Op>, ErrorKind> {
    if pointers == [] then Ok([])
    else
      var init :- OpsBy(r, pointers[..|pointers| - 1]);
      var path :- r(pointers[|pointers| - 1]);
      if Hide(path) in init then Err(InvalidPointer) else Ok(init + [Hide(path)])
  }

  function In(doc: Json): Resolver {
    p => Resolve(doc, p)
  }

  lemma {:induction false} HideOpsBy(doc: Json, pointers: seq<string>)
    ensures HideOps(doc, pointers) == OpsBy(In(doc), pointers)
  {
    if pointers != [] { HideOpsBy(doc, pointers[..|pointers| - 1]); }
  }

  lemma {:induction false} OpsMember(r: Resolver, pointers: seq<string>, path: Path)
    requires OpsBy(r, pointers).Ok?
    ensures Hide(path) in OpsBy(r, pointers).value <==> exists i :: 0 <= i < |pointers| && r(pointers[i]) == Ok(path)
  {
    if pointers != [] {
      var n := |pointers| - 1;
      OpsMember(r, pointers[..n], path);
      assert forall i :: 0 <= i < n ==> pointers[..n][i] == pointers[i];
    }
  }

  /** The last pointer leads to a place no earlier one leads to. */
  predicate NewPlace(r: Resolver, pointers: seq<string>)
    requires pointers != []
  {
    forall i :: 0 <= i < |pointers| - 1 ==> r(pointers[i]) != r(pointers[|pointers| - 1])
  }

  lemma Snoc(r: Resolver, pointers: seq<string>)
    requires pointers != []
    ensures var n := |pointers| - 1;
            && (Resolves(r, pointers) <==> Resolves(r, pointers[..n]) && r(pointers[n]).Ok?)
            && (Apart(r, pointers) <==> Apart(r, pointers[..n]) && NewPlace(r, pointers))
  {
    var n := |pointers| - 1;
    assert forall i :: 0 <= i < n ==> pointers[..n][i] == pointers[i];
  }

  lemma {:induction false} OpsExact(r: Resolver, pointers: seq<string>)
    ensures OpsBy(r, pointers).Ok? <==> Resolves(r, pointers) && Apart(r, pointers)
  {
    if pointers != [] {
      var n := |pointers| - 1;
      OpsExact(r, pointers[..n]);
      Snoc(r, pointers);
      if OpsBy(r, pointers[..n]).Ok? && r(pointers[n]).Ok? {
        OpsMember(r, pointers[..n], r(pointers[n]).value);
        assert forall i :: 0 <= i < n ==> pointers[..n][i] == pointers[i];
      }
    }
  }

  lemma DecoyOpsTurn(doc: Json, decoys: seq<(string, nat)>)
    requires decoys != []
    ensures DecoyOps(doc, decoys).Ok? <==>
              DecoyOps(doc, decoys[..|decoys| - 1]).Ok? && IsContainer(doc, decoys[|decoys| - 1].0)
  {
  }

  lemma {:induction false} DecoyOpsExact(doc: Json, decoys: seq<(string, nat)>)
    ensures DecoyOps(doc, decoys).Ok? <==> forall i :: 0 <= i < |decoys| ==> IsContainer(doc, decoys[i].0)
  {
    if decoys != [] {
      var n := |decoys| - 1;
      DecoyOpsExact(doc, decoys[..n]);
      DecoyOpsTurn(doc, decoys);
      assert forall i :: 0 <= i < n ==> decoys[..n][i] == decoys[i];
    }
  }

  /**
   `build` accepts exactly claims without reserved names, pointers to distinct existing places and
   decoys for containers.
   */
  lemma BuildExact(src: Source, claims: map<string, Json>, concealed: seq<string>, decoys: seq<(string, nat)>)
    ensures Build(src, claims, concealed, decoys).Ok? <==>
            && Unreserved(Obj(claims)) && "_sd_alg" !in claims
            && Resolves(In(Obj(claims)), concealed) && Apart(In(Obj(claims)), concealed)
            && forall i :: 0 <= i < |decoys| ==> IsContainer(Obj(claims), decoys[i].0)
  {
    HideOpsBy(Obj(claims), concealed);
    OpsExact(In(Obj(claims)), concealed);
    DecoyOpsExact(Obj(claims), decoys);
  }
}
