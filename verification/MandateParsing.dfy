/** Reading an open mandate from claims (crates/authority/src/mandate.rs `OpenMandate::parse`). */
module MandateParsing {
  import opened Prelude
  import opened Json
  import opened Constraints
  import opened Mandates

  datatype MandateError =
    | MissingType
    | UnknownType
    | NotOpen
    | ConstraintsNotArray
    | BadConstraint(index: nat)
    | NotApplicable(index: nat)
    | NoActions
    | RecurrenceAlone

  /** Reads one member of `constraints`; absent when it is no known constraint. */
  type Reader = Json -> Option<Constraint>

  const STRUCTURAL: set<string> := {
    "vct", "constraints", "cnf", "iat", "exp", "nbf", "status", "iss", "sub", "aud", "jti", "nonce",
    "risk_data", "aap.agent", "aap.note" }

  const PAYMENT_TYPE := "mandate.payment.open.1"

  const OPEN_TYPES: map<string, Family> := map[
    "aap.authority.open.1" := Authority, "mandate.checkout.open.1" := Checkout, PAYMENT_TYPE := Payment]

  const CLOSED_TYPES: map<string, Family> := map[
    "aap.action.1" := Authority, "mandate.checkout.1" := Checkout, "mandate.payment.1" := Payment]

  /** The family a constraint belongs to; `Delegation` fits every family. */
  function FamilyOfConstraint(c: Constraint): Option<Family> {
    match c
    case Delegation(_) => None
    case Actions(_) | Resources(_) | AmountCap(_, _) | Counterparties(_, _) | DataCategories(_) | TimeWindows(_) =>
      Some(Authority)
    case AllowedMerchants(_) | LineItems(_) => Some(Checkout)
    case _ => Some(Payment)
  }

  predicate Applies(c: Constraint, family: Family) {
    FamilyOfConstraint(c).Some? ==> FamilyOfConstraint(c).value == family
  }

  /** Depths are read as 32-bit numbers. */
  ghost predicate Fitting(read: Reader) {
    forall j :: read(j).Some? && read(j).value.Delegation? ==> read(j).value.maxDepth <= U32_MAX
  }

  /** `d` is the smallest delegation depth among `cs`, or 0 when there is none. */
  predicate SmallestDepth(cs: seq<Constraint>, d: nat) {
    && (forall i :: 0 <= i < |cs| && cs[i].Delegation? ==> d <= cs[i].maxDepth)
    && if exists i :: 0 <= i < |cs| && cs[i].Delegation?
       then exists i :: 0 <= i < |cs| && cs[i].Delegation? && cs[i].maxDepth == d
       else d == 0
  }

  method DepthOf(cs: seq<Constraint>) returns (d: u32)
    requires forall i :: 0 <= i < |cs| && cs[i].Delegation? ==> cs[i].maxDepth <= U32_MAX
    ensures SmallestDepth(cs, d)
  {
    d := 0;
    var found := false;
    for k := 0 to |cs|
      invariant !found ==> d == 0 && forall i :: 0 <= i < k ==> !cs[i].Delegation?
      invariant found ==> exists i :: 0 <= i < k && cs[i].Delegation? && cs[i].maxDepth == d
      invariant forall i :: 0 <= i < k && cs[i].Delegation? ==> d <= cs[i].maxDepth
    {
      if cs[k].Delegation? && (!found || cs[k].maxDepth < d) {
        d, found := cs[k].maxDepth, true;
      }
    }
  }

  predicate HasActions(cs: seq<Constraint>) {
    exists i :: 0 <= i < |cs| && cs[i].Actions?
  }

  predicate HasRecurrence(cs: seq<Constraint>) {
    exists i :: 0 <= i < |cs| && cs[i].AgentRecurrence?
  }

  predicate HasRange(cs: seq<Constraint>) {
    exists i :: 0 <= i < |cs| && cs[i].AmountRange?
  }

  predicate HasBudget(cs: seq<Constraint>) {
    exists i :: 0 <= i < |cs| && cs[i].Budget?
  }

  /** The companions a constraint needs are there. */
  predicate Complete(cs: seq<Constraint>, family: Family) {
    && (family == Authority ==> HasActions(cs))
    && (HasRecurrence(cs) ==> HasRange(cs) && HasBudget(cs))
  }

  predicate Typed(claims: map<string, Json>, types: map<string, Family>) {
    "vct" in claims && claims["vct"].Str? && claims["vct"].s in types
  }

  /** The members of `constraints`; none when the claim is absent. */
  function Items(claims: map<string, Json>): seq<Json> {
    if "constraints" in claims && claims["constraints"].Arr? then claims["constraints"].items else []
  }

  /** `cs` are the constraints read from the first members of `items`, all of `family`. */
  predicate ReadTo(read: Reader, family: Family, items: seq<Json>, cs: seq<Constraint>) {
    && |cs| <= |items|
    && forall i :: 0 <= i < |cs| ==> read(items[i]) == Some(cs[i]) && Applies(cs[i], family)
  }

  /** `m` says what the claims say, and nothing else. */
  predicate ReadsAs(claims: map<string, Json>, read: Reader, key: string, m: OpenMandate) {
    && Typed(claims, OPEN_TYPES) && m.family == OPEN_TYPES[claims["vct"].s]
    && ("constraints" in claims ==> claims["constraints"].Arr?)
    && |m.constraints| == |Items(claims)| && ReadTo(read, m.family, Items(claims), m.constraints)
    && Complete(m.constraints, m.family)
    && SmallestDepth(m.constraints, m.maxDepth)
    && m.presets == claims - STRUCTURAL && m.key == key
  }

  /** The first rule the claims break, in the order in which the rules are read. */
  ghost predicate Refuses(claims: map<string, Json>, read: Reader, e: MandateError) {
    match e
    case MissingType => "vct" !in claims || !claims["vct"].Str?
    case NotOpen => Typed(claims, CLOSED_TYPES) && !Typed(claims, OPEN_TYPES)
    case UnknownType =>
      "vct" in claims && claims["vct"].Str? && !Typed(claims, OPEN_TYPES) && !Typed(claims, CLOSED_TYPES)
    case ConstraintsNotArray => Typed(claims, OPEN_TYPES) && "constraints" in claims && !claims["constraints"].Arr?
    case BadConstraint(i) => StopsAt(claims, read, i) && read(Items(claims)[i]).None?
    case NotApplicable(i) =>
      && StopsAt(claims, read, i) && read(Items(claims)[i]).Some?
      && !Applies(read(Items(claims)[i]).value, OPEN_TYPES[claims["vct"].s])
    case NoActions => Typed(claims, OPEN_TYPES) && OPEN_TYPES[claims["vct"].s] == Authority
                      && exists cs :: AllRead(claims, read, cs) && !HasActions(cs)
    case RecurrenceAlone =>
      && Typed(claims, OPEN_TYPES)
      && exists cs :: AllRead(claims, read, cs) && (OPEN_TYPES[claims["vct"].s] == Authority ==> HasActions(cs))
                      && HasRecurrence(cs) && !(HasRange(cs) && HasBudget(cs))
  }

  /** Everything before member `i` is read, and there is a member `i`. */
  ghost predicate StopsAt(claims: map<string, Json>, read: Reader, i: nat) {
    && Typed(claims, OPEN_TYPES) && i < |Items(claims)|
    && exists cs :: |cs| == i && ReadTo(read, OPEN_TYPES[claims["vct"].s], Items(claims), cs)
  }

  ghost predicate AllRead(claims: map<string, Json>, read: Reader, cs: seq<Constraint>) {
    && Typed(claims, OPEN_TYPES) && |cs| == |Items(claims)|
    && ReadTo(read, OPEN_TYPES[claims["vct"].s], Items(claims), cs)
  }

  lemma ReadUnique(read: Reader, family: Family, items: seq<Json>, a: seq<Constraint>, b: seq<Constraint>)
    requires |a| <= |b| && ReadTo(read, family, items, a) && ReadTo(read, family, items, b)
    ensures a == b[..|a|]
  {
  }

  /** A mandate that breaks a rule is read as nothing. */
  lemma RefusedOrRead(claims: map<string, Json>, read: Reader, key: string, e: MandateError, m: OpenMandate)
    requires Refuses(claims, read, e)
    ensures !ReadsAs(claims, read, key, m)
  {
    forall cs | AllRead(claims, read, cs) && ReadsAs(claims, read, key, m) ensures cs == m.constraints {
      ReadUnique(read, m.family, Items(claims), cs, m.constraints);
    }
  }

  method ReadConstraints(claims: map<string, Json>, read: Reader) returns (r: Result<seq<Constraint>, MandateError>)
    requires Typed(claims, OPEN_TYPES)
    ensures r.Ok? ==> AllRead(claims, read, r.value)
    ensures r.Err? ==> Refuses(claims, read, r.error)
  {
    var family, items := OPEN_TYPES[claims["vct"].s], Items(claims);
    var cs: seq<Constraint> := [];
    for k := 0 to |items|
      invariant |cs| == k && ReadTo(read, family, items, cs)
    {
      var c := read(items[k]);
      if c.None? { return Err(BadConstraint(k)); }
      if !Applies(c.value, family) { return Err(NotApplicable(k)); }
      cs := cs + [c.value];
    }
    r := Ok(cs);
  }

  /**
   Succeeds exactly on claims that can be read as an open mandate, and otherwise names the first
   rule they break.
   */
  method Parse(claims: map<string, Json>, read: Reader, key: string) returns (r: Result<OpenMandate, MandateError>)
    requires Fitting(read)
    ensures r.Ok? ==> ReadsAs(claims, read, key, r.value)
    ensures r.Err? ==> Refuses(claims, read, r.error)
    ensures forall m :: ReadsAs(claims, read, key, m) ==> r.Ok?
  {
    forall e, m | Refuses(claims, read, e) ensures !ReadsAs(claims, read, key, m) {
      RefusedOrRead(claims, read, key, e, m);
    }
    if "vct" !in claims || !claims["vct"].Str? { return Err(MissingType); }
    var vct := claims["vct"].s;
    if vct !in OPEN_TYPES { return Err(if vct in CLOSED_TYPES then NotOpen else UnknownType); }
    if "constraints" in claims && !claims["constraints"].Arr? { return Err(ConstraintsNotArray); }
    var constraints := ReadConstraints(claims, read);
    if constraints.Err? { return Err(constraints.error); }
    var cs := constraints.value;
    if OPEN_TYPES[vct] == Authority && !HasActions(cs) { return Err(NoActions); }
    if HasRecurrence(cs) && !(HasRange(cs) && HasBudget(cs)) { return Err(RecurrenceAlone); }
    var depth := DepthOf(cs);
    r := Ok(OpenMandate(OPEN_TYPES[vct], cs, claims - STRUCTURAL, depth, key));
  }

  /** Claims of an open payment mandate with these constraints and nothing else. */
  function PaymentClaims(items: seq<Json>): map<string, Json> {
    map["vct" := Str(PAYMENT_TYPE), "constraints" := Arr(items)]
  }

  /** The two mandates that show that narrowing ignores counters are read from claims. */
  lemma CountersBreakOnParsed(read: Reader, vb: Json, vd: Json)
    requires read(vb) == Some(Budget(10, "EUR")) && read(vd) == Some(Delegation(1))
    ensures ReadsAs(PaymentClaims([vb, vd]), read, "p", PARENT) && ReadsAs(PaymentClaims([vb]), read, "c", CHILD)
  {
    assert PaymentClaims([vb, vd]) - STRUCTURAL == map[] && PaymentClaims([vb]) - STRUCTURAL == map[];
    assert PARENT_CONSTRAINTS[1].Delegation?;
  }

  // ---- the rules, type by type

  /** The constraint is one for mandates of the family. */
  predicate Belongs(c: Constraint, family: Family) {
    match family
    case Authority =>
      || c.Actions? || c.Resources? || c.AmountCap? || c.Counterparties? || c.DataCategories? || c.TimeWindows?
      || c.Delegation?
    case Checkout => c.AllowedMerchants? || c.LineItems? || c.Delegation?
    case Payment =>
      || c.AmountRange? || c.AllowedPayees? || c.AllowedInstruments? || c.AllowedPisps? || c.Budget?
      || c.AgentRecurrence? || c.ExecutionDate? || c.Reference? || c.Delegation?
  }

  /** The names a mandate uses for itself; every other claim is pre-set for the action. */
  predicate OwnName(k: string) {
    || k == "vct" || k == "constraints" || k == "cnf" || k == "iat" || k == "exp" || k == "nbf" || k == "status"
    || k == "iss" || k == "sub" || k == "aud" || k == "jti" || k == "nonce" || k == "risk_data" || k == "aap.agent"
    || k == "aap.note"
  }

  predicate TypeNames(vct: Json, family: Family) {
    match family
    case Authority => vct == Str("aap.authority.open.1")
    case Checkout => vct == Str("mandate.checkout.open.1")
    case Payment => vct == Str("mandate.payment.open.1")
  }

  /** As deep as the tightest delegation constraint, and not at all without one. */
  predicate DeepAs(cs: seq<Constraint>, d: nat) {
    && (forall c :: c in cs && c.Delegation? ==> d <= c.maxDepth)
    && (d == 0 || exists c :: c in cs && c.Delegation? && c.maxDepth == d)
    && ((exists c :: c in cs && c.Delegation?) ==> exists c :: c in cs && c.Delegation? && c.maxDepth == d)
  }

  /** Every constraint belongs to the family, and comes with those it cannot do without. */
  predicate Together(cs: seq<Constraint>, family: Family) {
    && (forall c :: c in cs ==> Belongs(c, family))
    && (family == Authority ==> exists c :: c in cs && c.Actions?)
    && ((exists c :: c in cs && c.AgentRecurrence?) ==>
          (exists c :: c in cs && c.AmountRange?) && exists c :: c in cs && c.Budget?)
  }

  /** The mandate is the type, the constraints, the pre-set claims and the depth that the claims give. */
  ghost predicate SaysMandate(claims: map<string, Json>, read: Reader, key: string, m: OpenMandate) {
    && "vct" in claims && TypeNames(claims["vct"], m.family)
    && (if "constraints" in claims then
          && claims["constraints"].Arr? && |claims["constraints"].items| == |m.constraints|
          && forall i :: 0 <= i < |m.constraints| ==> read(claims["constraints"].items[i]) == Some(m.constraints[i])
        else m.constraints == [])
    && Together(m.constraints, m.family) && DeepAs(m.constraints, m.maxDepth)
    && (forall k :: k in m.presets <==> k in claims && !OwnName(k))
    && (forall k :: k in m.presets ==> m.presets[k] == claims[k])
    && m.key == key
  }

  lemma BelongsExact(c: Constraint, family: Family)
    ensures Applies(c, family) <==> Belongs(c, family)
  {
  }

  lemma TogetherExact(cs: seq<Constraint>, family: Family)
    ensures (forall i :: 0 <= i < |cs| ==> Applies(cs[i], family)) && Complete(cs, family) <==> Together(cs, family)
  {
    forall i | 0 <= i < |cs| ensures Applies(cs[i], family) <==> Belongs(cs[i], family) {
      BelongsExact(cs[i], family);
    }
    assert HasActions(cs) <==> exists c :: c in cs && c.Actions?;
    assert HasRecurrence(cs) <==> exists c :: c in cs && c.AgentRecurrence?;
    assert HasRange(cs) <==> exists c :: c in cs && c.AmountRange?;
    assert HasBudget(cs) <==> exists c :: c in cs && c.Budget?;
  }

  lemma DepthExact(cs: seq<Constraint>, d: nat)
    ensures SmallestDepth(cs, d) <==> DeepAs(cs, d)
  {
    assert (exists i :: 0 <= i < |cs| && cs[i].Delegation?) <==> exists c :: c in cs && c.Delegation?;
    assert (exists i :: 0 <= i < |cs| && cs[i].Delegation? && cs[i].maxDepth == d) <==>
           exists c :: c in cs && c.Delegation? && c.maxDepth == d;
  }

  lemma OwnNameExact(k: string)
    ensures k in STRUCTURAL <==> OwnName(k)
  {
  }

  lemma RestIs(claims: map<string, Json>, own: set<string>, presets: map<string, Json>)
    ensures presets == claims - own <==>
            && (forall k :: k in presets <==> k in claims && k !in own)
            && forall k :: k in presets ==> presets[k] == claims[k]
  {
    if forall k :: k in presets <==> k in claims && k !in own { assert presets.Keys == (claims - own).Keys; }
  }

  lemma PresetsExact(claims: map<string, Json>, presets: map<string, Json>)
    ensures presets == claims - STRUCTURAL <==>
            && (forall k :: k in presets <==> k in claims && !OwnName(k))
            && forall k :: k in presets ==> presets[k] == claims[k]
  {
    forall k ensures k in STRUCTURAL <==> OwnName(k) { OwnNameExact(k); }
    RestIs(claims, STRUCTURAL, presets);
  }

  /** Claims read as a mandate exactly when they say it. */
  lemma ReadsExact(claims: map<string, Json>, read: Reader, key: string, m: OpenMandate)
    ensures ReadsAs(claims, read, key, m) <==> SaysMandate(claims, read, key, m)
  {
    TogetherExact(m.constraints, m.family);
    DepthExact(m.constraints, m.maxDepth);
    PresetsExact(claims, m.presets);
    assert "vct" in claims ==>
      (Typed(claims, OPEN_TYPES) && m.family == OPEN_TYPES[claims["vct"].s] <==> TypeNames(claims["vct"], m.family));
  }
}
