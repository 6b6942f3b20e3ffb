/** Authorizing a verified chain (crates/authority/src/verifier.rs `authorize`). */
module Authorization {
  // Root, status, revocability, depth, transaction binding, cumulative evaluation,
  // freshness and replay are checked in that order.

  import opened Prelude
  import opened Json
  import opened Strings
  import opened Constraints
  import opened Mandates
  import opened Nonces
  import CM = CartMatching
  import V = Verification

  // ---- evaluation as the code runs it

  method CheckConstraint(c: Constraint, closed: Closed, env: Env, key: string) returns (r: Result<(), CM.Failure>)
    ensures r == Evaluate(c, closed, env, key)
  {
    if c.Delegation? { return Ok(()); }
    match closed.content
    case Action(_, _, _, _, _) => r := EvaluateAction(c, closed.content, env);
    case CheckoutMandate(_, _) =>
      if c.LineItems? {
        r := CM.LineItems(c.items, if env.checkout.Some? then Some(env.checkout.value.items) else None);
      } else if c.AllowedMerchants? && env.checkout.Some? {
        var merchant := env.checkout.value.merchant;
        r := Check(merchant.Some? && NamesMerchant(c.merchants, merchant.value.id));
      } else {
        r := Err(CM.Unresolved);
      }
    case PaymentMandate(_, _, _, _, _, _) => r := EvaluatePayment(c, closed.content, env, key);
  }

  /** `OpenMandate::accepts`. */
  method CheckMandate(m: OpenMandate, closed: Closed, env: Env) returns (r: Result<(), Cause>)
    ensures r == Accepts(m, closed, env)
  {
    if m.family != FamilyOf(closed.content) { return Err(FamilyMismatch(m.family, FamilyOf(closed.content))); }
    var changed := FirstChanged(InOrder(m.presets.Keys), m.presets, closed.claims);
    if changed.Some? { return Err(Preset(changed.value)); }
    if CarriesAmount(closed) && !HasCeiling(m) { return Err(AmountWithoutCeiling); }
    ghost var spec := EvaluateAll(m.constraints, closed, env, m.key);
    assert m.constraints[0..] == m.constraints;
    for i := 0 to |m.constraints|
      invariant EvaluateAll(m.constraints[i..], closed, env, m.key) == spec
    {
      assert m.constraints[i..][0] == m.constraints[i] && m.constraints[i..][1..] == m.constraints[i + 1..];
      var e := CheckConstraint(m.constraints[i], closed, env, m.key);
      if e.Err? { return Err(Rejected(TypeName(m.constraints[i]), e.error)); }
    }
    r := Ok(());
  }

  /** `evaluate_chain`. */
  method CheckChain(opens: seq<OpenMandate>, closed: Closed, env: Env) returns (r: Result<(), ChainFailure>)
    ensures r == EvaluateChain(opens, closed, env)
  {
    for i := 0 to |opens|
      invariant FirstRejection(Verdicts(opens, closed, env), i) == EvaluateChain(opens, closed, env)
    {
      var a := CheckMandate(opens[i], closed, env);
      if a.Err? { return Err(ChainFailure(i, a.error)); }
    }
    r := Ok(());
  }

  // ---- what a verified chain is judged against

  datatype StatusAnswer = Valid | NotValid | Unavailable

  /** A verified element of the chain, as far as authorization reads it. */
  datatype Element = Element(
    claims: map<string, Json>,
    envelope: map<string, Json>,
    cnf: Option<V.Key>,
    alg: V.SdAlg,
    jwtHash: string)

  datatype Settings = Settings(
    credentialRoot: bool,
    rootTypes: seq<string>,
    audience: string,
    freshness: Policy,
    maxOpenMandates: nat,
    maxValidityWithoutStatus: int)

  /** What the verifier knows about the transaction it is about to perform. */
  datatype Transaction = Transaction(
    checkoutJwt: Option<string>,
    merchantKey: Option<V.Key>,
    expectedCheckoutHash: Option<string>,
    expectedTransactionId: Option<string>)

  /** Reading claims and JWTs, hashing, the merchant's signature and the status service. */
  datatype Services = Services(
    open: (map<string, Json>, string) -> Option<OpenMandate>,
    closed: map<string, Json> -> Option<Closed>,
    status: Json -> StatusAnswer,
    digest: (V.SdAlg, string) -> string,
    payload: string -> Option<Json>,
    signedPayload: (string, V.Key) -> Option<Json>,
    cart: Json -> Option<Cart>)

  datatype Denial =
    | RootNotAccepted
    | TooManyMandates
    | Revoked(position: nat)
    | StatusUnavailable(position: nat)
    | BadMandate(position: nat)
    | Unrevocable(position: nat)
    | DelegationDepth(position: nat)
    | Binding(failure: CM.Failure)
    | Chain(rejection: ChainFailure)

  datatype Reason = NoMandate | Denied(denial: Denial) | Freshness | NoNonceStore | Replay

  datatype Principal = Credential(issuer: Option<string>, userKey: Option<V.Key>) | UserKey(key: V.Key)

  datatype Authorized = Authorized(principal: Principal, closed: Closed, ledgerKeys: seq<string>)

  // ---- transaction bindings

  /** The checkout JWT in question: disclosed, or the verifier's own; they must agree. */
  function CheckoutJwt(disclosed: Option<string>, own: Option<string>): Result<string, CM.Failure> {
    match (disclosed, own)
    case (Some(d), Some(o)) => if d != o then Err(CM.Violated) else Ok(d)
    case (Some(d), None) => Ok(d)
    case (None, Some(o)) => Ok(o)
    case (None, None) => Err(CM.Unresolved)
  }

  /**
   The checkout, if it is bound to the mandate and its content can be trusted; `None` when bound
   but not trusted.
   */
  function BindCheckout(v: Services, m: Content, alg: V.SdAlg, tx: Transaction): Result<Option<Cart>, CM.Failure>
    requires m.CheckoutMandate?
  {
    var jwt :- CheckoutJwt(m.checkoutJwt, tx.checkoutJwt);
    if v.digest(alg, jwt) != m.checkoutHash then Err(CM.Violated)
    else if tx.expectedCheckoutHash.Some? && tx.expectedCheckoutHash.value != m.checkoutHash then Err(CM.Violated)
    else if tx.checkoutJwt.None? && tx.merchantKey.None? then Ok(None)
    else
      var payload := if tx.checkoutJwt.Some? then v.payload(jwt) else v.signedPayload(jwt, tx.merchantKey.value);
      if payload.None? || v.cart(payload.value).None? then Err(CM.Violated) else Ok(v.cart(payload.value))
  }

  /** A payment must be for the checkout the verifier settles. */
  function BindPayment(m: Content, tx: Transaction): Result<(), CM.Failure>
    requires m.PaymentMandate?
  {
    if tx.expectedTransactionId.None? then Err(CM.Unresolved)
    else if tx.expectedTransactionId.value == m.transactionId then Ok(())
    else Err(CM.Violated)
  }

  function Bind(v: Services, closed: Closed, alg: V.SdAlg, tx: Transaction): Result<Option<Cart>, CM.Failure> {
    match closed.content
    case Action(_, _, _, _, _) => Ok(None)
    case CheckoutMandate(_, _) => BindCheckout(v, closed.content, alg, tx)
    case PaymentMandate(_, _, _, _, _, _) =>
      var _ :- BindPayment(closed.content, tx);
      Ok(None)
  }

  /** `jwt` is the checkout the mandate names, and its content is the verifier's own or signed by the merchant. */
  predicate Trusted(v: Services, m: Content, alg: V.SdAlg, tx: Transaction, jwt: string, cart: Cart)
    requires m.CheckoutMandate?
  {
    && v.digest(alg, jwt) == m.checkoutHash
    && (tx.expectedCheckoutHash.Some? ==> tx.expectedCheckoutHash.value == m.checkoutHash)
    && (m.checkoutJwt.Some? ==> m.checkoutJwt.value == jwt)
    && if tx.checkoutJwt.Some?
       then tx.checkoutJwt.value == jwt && v.payload(jwt).Some? && v.cart(v.payload(jwt).value) == Some(cart)
       else tx.merchantKey.Some? && m.checkoutJwt.Some? && v.signedPayload(jwt, tx.merchantKey.value).Some?
            && v.cart(v.signedPayload(jwt, tx.merchantKey.value).value) == Some(cart)
  }

  /** Constraints read a checkout exactly when it is bound to the mandate and trusted. */
  lemma BindTrusts(v: Services, m: Content, alg: V.SdAlg, tx: Transaction, cart: Cart)
    requires m.CheckoutMandate?
    ensures BindCheckout(v, m, alg, tx) == Ok(Some(cart)) <==> exists jwt :: Trusted(v, m, alg, tx, jwt, cart)
  {
    if BindCheckout(v, m, alg, tx) == Ok(Some(cart)) {
      assert Trusted(v, m, alg, tx, CheckoutJwt(m.checkoutJwt, tx.checkoutJwt).value, cart);
    }
  }

  // ---- the verifier's tests, each on its own

  predicate RootAccepted(s: Settings, root: Element) {
    s.credentialRoot ==> "vct" in root.claims && root.claims["vct"].Str? && root.claims["vct"].s in s.rootTypes
  }

  predicate StatusOk(v: Services, e: Element) {
    "status" in e.claims ==> v.status(e.claims["status"]).Valid?
  }

  /** The elements before `n` all have a valid status, or none. */
  predicate StatusesOkTo(v: Services, chain: seq<Element>, n: nat)
    requires n <= |chain|
  {
    forall i :: 0 <= i < n ==> StatusOk(v, chain[i])
  }

  /** An element without a status must expire soon. */
  predicate Revocable(s: Settings, e: Element, now: int) {
    || "status" in e.claims
    || ("exp" in e.claims && e.claims["exp"].Num?
        && e.claims["exp"].n - now as real <= s.maxValidityWithoutStatus as real)
  }

  /** Where the mandates start: after a credential root, or with the root itself. */
  function First(s: Settings): nat {
    if s.credentialRoot then 1 else 0
  }

  predicate FreshLeaf(s: Settings, leaf: Element, nonce: string, now: int) {
    var env := leaf.envelope;
    && "aud" in env && env["aud"] == Str(s.audience)
    && "nonce" in env && env["nonce"] == Str(nonce)
    && "iat" in env && env["iat"].Num? && Fresh(s.freshness, env["iat"].n, now)
  }

  function MandateAt(v: Services, chain: seq<Element>, i: nat): Option<OpenMandate>
    requires i < |chain|
  {
    v.open(chain[i].claims, chain[i].jwtHash)
  }

  /** Mandate `k` is that of the `k`-th element after the root, which is revocable. */
  predicate ReadAt(s: Settings, v: Services, chain: seq<Element>, opens: seq<OpenMandate>, k: nat, now: int)
    requires k < |opens| && First(s) + |opens| < |chain|
  {
    MandateAt(v, chain, First(s) + k) == Some(opens[k]) && Revocable(s, chain[First(s) + k], now)
  }

  /** `opens` are the mandates of the first elements after the root that carry one, each revocable. */
  predicate ReadsTo(s: Settings, v: Services, chain: seq<Element>, opens: seq<OpenMandate>, now: int) {
    First(s) + |opens| < |chain| && forall k :: 0 <= k < |opens| ==> ReadAt(s, v, chain, opens, k, now)
  }

  lemma ReadsMore(s: Settings, v: Services, chain: seq<Element>, opens: seq<OpenMandate>, open: OpenMandate, now: int)
    requires ReadsTo(s, v, chain, opens, now) && First(s) + |opens| + 1 < |chain|
    requires MandateAt(v, chain, First(s) + |opens|) == Some(open) && Revocable(s, chain[First(s) + |opens|], now)
    ensures ReadsTo(s, v, chain, opens + [open], now)
  {
    forall k | 0 <= k < |opens| + 1 ensures ReadAt(s, v, chain, opens + [open], k, now) {
      if k < |opens| { assert ReadAt(s, v, chain, opens, k, now); }
    }
  }

  /** All of them: every element between the root and the leaf. */
  predicate Reads(s: Settings, v: Services, chain: seq<Element>, opens: seq<OpenMandate>, now: int) {
    ReadsTo(s, v, chain, opens, now) && First(s) + |opens| == |chain| - 1
  }

  predicate DepthHoldsTo(opens: seq<OpenMandate>, n: nat)
    requires n <= |opens|
  {
    forall k :: 0 <= k < n ==> |opens| - 1 - k <= opens[k].maxDepth
  }

  function IssuerOf(claims: map<string, Json>): Option<string> {
    if "iss" in claims && claims["iss"].Str? then Some(claims["iss"].s) else None
  }

  function PrincipalOf(s: Settings, root: Element, issuer: V.Key): Principal {
    if s.credentialRoot
    then Credential(IssuerOf(root.claims), root.cnf)
    else UserKey(issuer)
  }

  // ---- what is accepted

  /**
   The chain has an acceptable root, no more mandates than allowed, valid status throughout and a
   closed mandate at its end.
   */
  predicate Opens(s: Settings, v: Services, chain: seq<Element>)
    requires |chain| > First(s)
  {
    && RootAccepted(s, chain[0]) && |chain| - 1 - First(s) <= s.maxOpenMandates
    && StatusesOkTo(v, chain, |chain|) && v.closed(chain[|chain| - 1].claims).Some?
  }

  function ClosedOf(v: Services, chain: seq<Element>): Closed
    requires |chain| > 0 && v.closed(chain[|chain| - 1].claims).Some?
  {
    v.closed(chain[|chain| - 1].claims).value
  }

  function BindLeaf(v: Services, chain: seq<Element>, tx: Transaction): Result<Option<Cart>, CM.Failure>
    requires |chain| > 0 && v.closed(chain[|chain| - 1].claims).Some?
  {
    Bind(v, ClosedOf(v, chain), chain[|chain| - 1].alg, tx)
  }

  /** Everything short of freshness and replay, for the mandates the chain carries. */
  ghost predicate Passes(s: Settings, v: Services, chain: seq<Element>, opens: seq<OpenMandate>, tx: Transaction,
                         env: Env, now: int)
    requires |chain| > First(s)
  {
    && Opens(s, v, chain) && Reads(s, v, chain, opens, now) && DepthHolds(opens)
    && BindLeaf(v, chain, tx).Ok?
    && EvaluateChain(opens, ClosedOf(v, chain), env.(checkout := BindLeaf(v, chain, tx).value)).Ok?
  }

  /** `d` is the first test the chain fails. */
  ghost predicate Denies(s: Settings, v: Services, chain: seq<Element>, tx: Transaction, env: Env, now: int,
                         d: Denial)
    requires |chain| > First(s)
  {
    var last := |chain| - 1;
    match d
    case RootNotAccepted => !RootAccepted(s, chain[0])
    case TooManyMandates => RootAccepted(s, chain[0]) && last - First(s) > s.maxOpenMandates
    case Revoked(i) =>
      && RootAccepted(s, chain[0]) && last - First(s) <= s.maxOpenMandates && i <= last && StatusesOkTo(v, chain, i)
      && "status" in chain[i].claims && v.status(chain[i].claims["status"]).NotValid?
    case StatusUnavailable(i) =>
      && RootAccepted(s, chain[0]) && last - First(s) <= s.maxOpenMandates && i <= last && StatusesOkTo(v, chain, i)
      && "status" in chain[i].claims && v.status(chain[i].claims["status"]).Unavailable?
    case BadMandate(i) =>
      if i == last
      then RootAccepted(s, chain[0]) && last - First(s) <= s.maxOpenMandates && StatusesOkTo(v, chain, |chain|)
           && v.closed(chain[last].claims).None?
      else Opens(s, v, chain) && i < last && MandateAt(v, chain, i).None?
           && exists opens :: ReadsTo(s, v, chain, opens, now) && First(s) + |opens| == i
    case Unrevocable(i) =>
      && Opens(s, v, chain) && i < last && MandateAt(v, chain, i).Some? && !Revocable(s, chain[i], now)
      && exists opens :: ReadsTo(s, v, chain, opens, now) && First(s) + |opens| == i
    case DelegationDepth(i) =>
      && Opens(s, v, chain)
      && exists opens: seq<OpenMandate>, k: nat :: Reads(s, v, chain, opens, now) && k < |opens| && i == First(s) + k
                            && DepthHoldsTo(opens, k) && |opens| - 1 - k > opens[k].maxDepth
    case Binding(f) =>
      && Opens(s, v, chain) && BindLeaf(v, chain, tx) == Err(f)
      && exists opens :: Reads(s, v, chain, opens, now) && DepthHolds(opens)
    case Chain(f) =>
      && Opens(s, v, chain) && BindLeaf(v, chain, tx).Ok?
      && exists opens ::
           && Reads(s, v, chain, opens, now) && DepthHolds(opens)
           && EvaluateChain(opens, ClosedOf(v, chain), env.(checkout := BindLeaf(v, chain, tx).value)) == Err(f)
  }

  /** Reading is deterministic: what was read so far is a prefix of what is read in all. */
  lemma ReadsAhead(s: Settings, v: Services, chain: seq<Element>, some: seq<OpenMandate>, all: seq<OpenMandate>,
                   now: int)
    requires ReadsTo(s, v, chain, some, now) && Reads(s, v, chain, all, now)
    ensures |some| <= |all| && some == all[..|some|]
  {
    forall k | 0 <= k < |some|
      ensures some[k] == all[k]
    {
      assert ReadAt(s, v, chain, some, k, now) && ReadAt(s, v, chain, all, k, now);
    }
  }

  /** Every element between the root and the leaf carries a mandate and is revocable. */
  predicate AllRead(s: Settings, v: Services, chain: seq<Element>, now: int) {
    forall i :: First(s) <= i < |chain| - 1 ==> MandateAt(v, chain, i).Some? && Revocable(s, chain[i], now)
  }

  lemma ReadsAll(s: Settings, v: Services, chain: seq<Element>, opens: seq<OpenMandate>, now: int)
    requires Reads(s, v, chain, opens, now)
    ensures AllRead(s, v, chain, now)
  {
    forall i | First(s) <= i < |chain| - 1 ensures MandateAt(v, chain, i).Some? && Revocable(s, chain[i], now) {
      assert ReadAt(s, v, chain, opens, i - First(s), now);
    }
  }

  lemma ReadsOnce(s: Settings, v: Services, chain: seq<Element>, a: seq<OpenMandate>, b: seq<OpenMandate>, now: int)
    requires Reads(s, v, chain, a, now) && Reads(s, v, chain, b, now)
    ensures a == b
  {
    ReadsAhead(s, v, chain, a, b, now);
  }

  /** A chain that fails a test passes with no mandates. */
  lemma DeniedOrPasses(s: Settings, v: Services, chain: seq<Element>, opens: seq<OpenMandate>, tx: Transaction,
                       env: Env, now: int, d: Denial)
    requires |chain| > First(s) && Denies(s, v, chain, tx, env, now, d)
    ensures !Passes(s, v, chain, opens, tx, env, now)
  {
    if Reads(s, v, chain, opens, now) {
      ReadsAll(s, v, chain, opens, now);
      forall other | Reads(s, v, chain, other, now)
        ensures other == opens
      {
        ReadsOnce(s, v, chain, other, opens, now);
      }
    }
  }

  // ---- the steps of `authorize`

  method CheckStatus(v: Services, chain: seq<Element>) returns (f: Option<Denial>)
    ensures f.None? ==> StatusesOkTo(v, chain, |chain|)
    ensures f.Some? ==>
              && (f.value.Revoked? || f.value.StatusUnavailable?)
              && var i := f.value.position;
                 && i < |chain| && StatusesOkTo(v, chain, i) && "status" in chain[i].claims
                 && v.status(chain[i].claims["status"]) == if f.value.Revoked? then NotValid else Unavailable
  {
    for i := 0 to |chain|
      invariant StatusesOkTo(v, chain, i)
    {
      if "status" in chain[i].claims {
        var a := v.status(chain[i].claims["status"]);
        if a.Unavailable? { return Some(StatusUnavailable(i)); }
        if !a.Valid? { return Some(Revoked(i)); }
      }
    }
    f := None;
  }

  method ReadMandates(s: Settings, v: Services, chain: seq<Element>, now: int)
    returns (r: Result<seq<OpenMandate>, Denial>)
    requires |chain| > First(s)
    ensures r.Ok? ==> Reads(s, v, chain, r.value, now)
    ensures r.Err? ==>
              && (r.error.BadMandate? || r.error.Unrevocable?)
              && var i := r.error.position;
                 && First(s) <= i < |chain| - 1 && (MandateAt(v, chain, i).None? <==> r.error.BadMandate?)
                 && (r.error.Unrevocable? ==> !Revocable(s, chain[i], now))
                 && exists opens :: ReadsTo(s, v, chain, opens, now) && First(s) + |opens| == i
  {
    var opens: seq<OpenMandate> := [];
    for i := First(s) to |chain| - 1
      invariant First(s) + |opens| == i && ReadsTo(s, v, chain, opens, now)
    {
      var open := MandateAt(v, chain, i);
      if open.None? { return Err(BadMandate(i)); }
      if !Revocable(s, chain[i], now) { return Err(Unrevocable(i)); }
      ReadsMore(s, v, chain, opens, open.value, now);
      opens := opens + [open.value];
    }
    r := Ok(opens);
  }

  method CheckDepth(opens: seq<OpenMandate>, first: nat) returns (f: Option<Denial>)
    ensures f.None? <==> DepthHolds(opens)
    ensures f.Some? ==>
              f.value.DelegationDepth? && exists k :: 0 <= k < |opens| && f.value.position == first + k
                                                      && DepthHoldsTo(opens, k) && |opens| - 1 - k > opens[k].maxDepth
  {
    for i := 0 to |opens|
      invariant DepthHoldsTo(opens, i)
    {
      if |opens| - 1 - i > opens[i].maxDepth { return Some(DelegationDepth(first + i)); }
    }
    f := None;
  }

  /** The steps before freshness and replay: passes, or names the first test that fails. */
  method Judge(s: Settings, v: Services, chain: seq<Element>, tx: Transaction, env: Env, now: int)
    returns (r: Result<seq<OpenMandate>, Denial>)
    requires |chain| > First(s)
    ensures r.Ok? ==> Passes(s, v, chain, r.value, tx, env, now)
    ensures r.Err? ==> Denies(s, v, chain, tx, env, now, r.error)
  {
    if !RootAccepted(s, chain[0]) { return Err(RootNotAccepted); }
    if |chain| - 1 - First(s) > s.maxOpenMandates { return Err(TooManyMandates); }
    var bad := CheckStatus(v, chain);
    if bad.Some? { return Err(bad.value); }
    if v.closed(chain[|chain| - 1].claims).None? { return Err(BadMandate(|chain| - 1)); }
    var read := ReadMandates(s, v, chain, now);
    if read.Err? { return Err(read.error); }
    var opens := read.value;
    var deep := CheckDepth(opens, First(s));
    if deep.Some? { return Err(deep.value); }
    var bound := BindLeaf(v, chain, tx);
    if bound.Err? { return Err(Binding(bound.error)); }
    var verdict := CheckChain(opens, ClosedOf(v, chain), env.(checkout := bound.value));
    if verdict.Err? { return Err(Chain(verdict.error)); }
    r := Ok(opens);
  }

  ghost function Seen(store: MemoryNonceStore?): map<string, int>
    reads store
  {
    if store == null then map[] else store.seen
  }

  /** What `authorize` answers, and in which state it leaves the store. */
  ghost predicate Answers(s: Settings, v: Services, chain: seq<Element>, tx: Transaction, env: Env, issuer: V.Key,
                          nonce: Option<string>, agentChosen: bool, now: int, hasStore: bool,
                          before: map<string, int>, r: Result<Authorized, Reason>, after: map<string, int>)
    requires |chain| > 0
  {
    if |chain| <= First(s) then
      r == Err(if RootAccepted(s, chain[0]) then NoMandate else Denied(RootNotAccepted)) && after == before
    else if r.Err? && r.error.Denied? then
      Denies(s, v, chain, tx, env, now, r.error.denial) && after == before
    else
      var leaf := chain[|chain| - 1];
      && (exists opens ::
            && Passes(s, v, chain, opens, tx, env, now)
            && (r.Ok? ==> r.value == Authorized(PrincipalOf(s, chain[0], issuer), ClosedOf(v, chain), Keys(opens))))
      && if nonce.Some? && !FreshLeaf(s, leaf, nonce.value, now) then r == Err(Freshness) && after == before
         else if nonce.None? || !agentChosen then r.Ok? && after == before
         else if !hasStore then r == Err(NoNonceStore) && after == before
         else && (r.Ok? || r == Err(Replay))
              && (r.Ok? <==> !(nonce.value in before && before[nonce.value] > now))
              && after == Inserted(before, nonce.value, Expiry(s.freshness, leaf.envelope["iat"].n), now)
  }

  function Keys(opens: seq<OpenMandate>): seq<string> {
    seq(|opens|, i requires 0 <= i < |opens| => opens[i].key)
  }

  /** `authorize`: the answer and the nonce store, for every outcome. */
  method Authorize(s: Settings, v: Services, chain: seq<Element>, tx: Transaction, env: Env, issuer: V.Key,
                   nonce: Option<string>, agentChosen: bool, store: MemoryNonceStore?, now: int)
    returns (r: Result<Authorized, Reason>)
    requires |chain| > 0
    modifies store
    ensures Answers(s, v, chain, tx, env, issuer, nonce, agentChosen, now,
                    store != null, old(Seen(store)), r, Seen(store))
  {
    if !RootAccepted(s, chain[0]) { return Err(Denied(RootNotAccepted)); }
    if |chain| <= First(s) { return Err(NoMandate); }
    var leaf := chain[|chain| - 1];
    var judged := Judge(s, v, chain, tx, env, now);
    if judged.Err? { return Err(Denied(judged.error)); }
    if nonce.Some? {
      if !FreshLeaf(s, leaf, nonce.value, now) { return Err(Freshness); }
      if agentChosen {
        if store == null { return Err(NoNonceStore); }
        var ok := store.CheckAndInsert(nonce.value, Expiry(s.freshness, leaf.envelope["iat"].n), now);
        if !ok { return Err(Replay); }
      }
    }
    r := Ok(Authorized(PrincipalOf(s, chain[0], issuer), ClosedOf(v, chain), Keys(judged.value)));
  }
}
