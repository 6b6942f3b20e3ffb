/**
 What it takes to be authorized, from the text to the ledger keys
 (crates/authority/src/verifier.rs, mandate.rs). Everything here is said in terms of the
 text, the claims and the policy: none of the verifier's own tests is named. The theorems
 say that the tests decide exactly this.
 */
module Guarantees {
  import opened Prelude
  import opened Json
  import opened Presentations
  import opened Constraints
  import opened Mandates
  import opened Authorization
  import opened Meaning
  import opened Acceptance
  import opened Deciding
  import CM = CartMatching
  import V = Verification

  // ---- the transaction

  /** `jwt` is the checkout that mandate and verifier agree on, and the one that the mandate hashes. */
  predicate Agreed(v: Services, m: Content, alg: V.SdAlg, tx: Transaction, jwt: string)
    requires m.CheckoutMandate?
  {
    && (m.checkoutJwt.Some? || tx.checkoutJwt.Some?)
    && (m.checkoutJwt.Some? ==> m.checkoutJwt.value == jwt) && (tx.checkoutJwt.Some? ==> tx.checkoutJwt.value == jwt)
    && v.digest(alg, jwt) == m.checkoutHash
    && (tx.expectedCheckoutHash.Some? ==> tx.expectedCheckoutHash.value == m.checkoutHash)
  }

  /** `cart` is what the constraints may look at: a checkout that is trusted, or nothing when none can be. */
  ghost predicate Settles(v: Services, m: Content, alg: V.SdAlg, tx: Transaction, cart: Option<Cart>) {
    match m
    case Action(_, _, _, _, _) => cart.None?
    case PaymentMandate(id, _, _, _, _, _) => cart.None? && tx.expectedTransactionId == Some(id)
    case CheckoutMandate(_, _) =>
      exists jwt ::
        && Agreed(v, m, alg, tx, jwt)
        && if cart.Some? then Trusted(v, m, alg, tx, jwt, cart.value)
           else tx.checkoutJwt.None? && tx.merchantKey.None?
  }

  lemma SettlesExact(v: Services, closed: Closed, alg: V.SdAlg, tx: Transaction, cart: Option<Cart>)
    ensures Bind(v, closed, alg, tx) == Ok(cart) <==> Settles(v, closed.content, alg, tx, cart)
  {
    var m := closed.content;
    if m.CheckoutMandate? {
      var named := CheckoutJwt(m.checkoutJwt, tx.checkoutJwt);
      if named.Ok? { assert BindCheckout(v, m, alg, tx) == Ok(cart) ==> Agreed(v, m, alg, tx, named.value); }
      forall jwt | Agreed(v, m, alg, tx, jwt) ensures named == Ok(jwt) { }
    }
  }

  // ---- the chain

  /** The claims `e` carries no status, or one that the status service calls valid. */
  predicate NotRevoked(v: Services, e: Element) {
    "status" !in e.claims || v.status(e.claims["status"]) == Valid
  }

  /** Without a status, an open mandate has to expire soon. */
  predicate SoonOver(s: Settings, e: Element, now: int) {
    || "status" in e.claims
    || ("exp" in e.claims && e.claims["exp"].Num? && e.claims["exp"].n <= (now + s.maxValidityWithoutStatus) as real)
  }

  /** The element carries the open mandate `m`, and can be revoked or is soon over. */
  predicate OpenAs(s: Settings, v: Services, e: Element, m: OpenMandate, now: int) {
    v.open(e.claims, e.jwtHash) == Some(m) && SoonOver(s, e, now)
  }

  /** `opens` are the open mandates, root first, between a credential root, if there is one, and the leaf. */
  predicate Carry(s: Settings, v: Services, chain: seq<Element>, opens: seq<OpenMandate>, now: int) {
    var first := if s.credentialRoot then 1 else 0;
    && |chain| == first + |opens| + 1
    && forall k :: 0 <= k < |opens| ==> OpenAs(s, v, chain[first + k], opens[k], now)
  }

  predicate RootListed(s: Settings, root: Element) {
    s.credentialRoot ==> "vct" in root.claims && exists t :: t in s.rootTypes && root.claims["vct"] == Str(t)
  }

  /** What the leaf of the chain is about to do is settled, and every mandate allows it. */
  ghost predicate LeafAllowed(v: Services, leaf: Element, opens: seq<OpenMandate>, tx: Transaction, env: Env) {
    && v.closed(leaf.claims).Some?
    && exists cart ::
         && Settles(v, v.closed(leaf.claims).value.content, leaf.alg, tx, cart)
         && forall m :: m in opens ==> Allowed(m, v.closed(leaf.claims).value, env.(checkout := cart))
  }

  /** The mandates of the chain allow what its leaf is about to do. */
  ghost predicate ChainAllows(s: Settings, v: Services, chain: seq<Element>, opens: seq<OpenMandate>, tx: Transaction,
                              env: Env, now: int) {
    && Carry(s, v, chain, opens, now) && |opens| <= s.maxOpenMandates && RootListed(s, chain[0])
    && (forall i :: 0 <= i < |chain| ==> NotRevoked(v, chain[i]))
    && (forall k :: 0 <= k < |opens| ==> |opens| - 1 - k <= opens[k].maxDepth)
    && LeafAllowed(v, chain[|chain| - 1], opens, tx, env)
  }

  lemma RootExact(s: Settings, root: Element)
    ensures RootAccepted(s, root) <==> RootListed(s, root)
  {
  }

  lemma CarryExact(s: Settings, v: Services, chain: seq<Element>, opens: seq<OpenMandate>, now: int)
    requires |chain| > First(s)
    ensures Reads(s, v, chain, opens, now) <==> Carry(s, v, chain, opens, now)
  {
    if First(s) + |opens| < |chain| {
      forall k | 0 <= k < |opens|
        ensures ReadAt(s, v, chain, opens, k, now) <==> OpenAs(s, v, chain[First(s) + k], opens[k], now)
      {
      }
    }
  }

  lemma LeafExact(v: Services, chain: seq<Element>, opens: seq<OpenMandate>, tx: Transaction, env: Env)
    requires |chain| > 0 && v.closed(chain[|chain| - 1].claims).Some?
    ensures BindLeaf(v, chain, tx).Ok?
            && EvaluateChain(opens, ClosedOf(v, chain), env.(checkout := BindLeaf(v, chain, tx).value)).Ok?
            <==> LeafAllowed(v, chain[|chain| - 1], opens, tx, env)
  {
    var leaf, closed := chain[|chain| - 1], ClosedOf(v, chain);
    forall cart ensures BindLeaf(v, chain, tx) == Ok(cart) <==> Settles(v, closed.content, leaf.alg, tx, cart) {
      SettlesExact(v, closed, leaf.alg, tx, cart);
    }
    if BindLeaf(v, chain, tx).Ok? { ChainExact(opens, closed, env.(checkout := BindLeaf(v, chain, tx).value)); }
  }

  /** The verifier's tests pass a chain exactly when its mandates allow what its leaf does. */
  lemma PassesExact(s: Settings, v: Services, chain: seq<Element>, opens: seq<OpenMandate>, tx: Transaction, env: Env,
                    now: int)
    requires |chain| > First(s)
    ensures Passes(s, v, chain, opens, tx, env, now) <==> ChainAllows(s, v, chain, opens, tx, env, now)
  {
    RootExact(s, chain[0]);
    CarryExact(s, v, chain, opens, now);
    assert forall i :: 0 <= i < |chain| ==> (StatusOk(v, chain[i]) <==> NotRevoked(v, chain[i]));
    if v.closed(chain[|chain| - 1].claims).Some? { LeafExact(v, chain, opens, tx, env); }
  }

  // ---- the presentation

  /** The payload signed last: of the last link, or of the root when there is none. */
  function LastPayload(w: V.World, p: Presentation): map<string, Json> {
    w.decode(if p.links == [] then p.root.jwt else p.links[|p.links| - 1].jwt).payload
  }

  /** The nonce that the presentation has to name: the challenge, or whichever it names itself. */
  predicate NonceIs(vf: Verifier, q: Query, p: Presentation, nonce: string) {
    if q.rule.Challenge? then nonce == q.rule.nonce
    else "nonce" in LastPayload(vf.world, p) && LastPayload(vf.world, p)["nonce"] == Str(nonce)
  }

  /** How the end of a presentation must be bound: by its last link, or, with the policy's leave, not at all. */
  ghost predicate EndBound(vf: Verifier, q: Query, p: Presentation, binding: V.KeyBinding) {
    if p.links != [] then exists n :: NonceIs(vf, q, p, n) && binding == V.TerminalLink(vf.settings.audience, n)
    else vf.allowUnbound && !vf.settings.credentialRoot && binding == V.NotRequired
  }

  /** The policy, as options of verification. */
  predicate Policed(vf: Verifier, q: Query, opts: V.Options) {
    && opts.now == q.now && opts.leeway == vf.leeway && opts.requireExp && opts.rootTyp == vf.rootTyp
    && opts.maxAge == vf.settings.freshness.maxAge && opts.maxFuture == vf.settings.freshness.maxFuture
    && opts.maxLinks == vf.settings.maxOpenMandates + 1
    && (opts.rootForm == if vf.settings.credentialRoot then V.Credential else V.DelegateRoot)
  }

  /** The text is the presentation `p`, which verifies under the policy to `chain`, whose mandates allow its leaf. */
  ghost predicate Permits(vf: Verifier, q: Query, p: Presentation, chain: V.VerifiedChain, opens: seq<OpenMandate>) {
    && WellFormed(vf.codec, p) && Text(p) == q.text
    && (exists opts :: Policed(vf, q, opts) && EndBound(vf, q, p, opts.keyBinding)
                       && ChainFits(vf.world, p, q.issuer, opts, chain))
    && ChainAllows(vf.settings, vf.services, ElementsOf(vf.world, chain), opens, q.tx, q.env, q.now)
  }

  /** A nonce of the agent's own choice is in the store for the first time. */
  predicate Unused(vf: Verifier, q: Query, p: Presentation, hasStore: bool, before: map<string, int>) {
    q.rule.AgentGenerated? && p.links != [] ==>
      && hasStore && "nonce" in LastPayload(vf.world, p) && LastPayload(vf.world, p)["nonce"].Str?
      && var n := LastPayload(vf.world, p)["nonce"].s; n in before ==> before[n] <= q.now
  }

  lemma EndExact(vf: Verifier, q: Query, p: Presentation, binding: V.KeyBinding)
    ensures EndBound(vf, q, p, binding) <==>
            BindingFor(vf, q.rule, p).Ok? && BindingFor(vf, q.rule, p).value.0 == binding
  {
    assert Elements(p)[|p.links|].jwt == if p.links == [] then p.root.jwt else p.links[|p.links| - 1].jwt;
    if p.links != [] && BindingFor(vf, q.rule, p).Ok? {
      assert NonceIs(vf, q, p, BindingFor(vf, q.rule, p).value.1.value);
    }
  }

  lemma PolicyExact(vf: Verifier, q: Query, p: Presentation, opts: V.Options)
    ensures Policed(vf, q, opts) && EndBound(vf, q, p, opts.keyBinding) <==>
            BindingFor(vf, q.rule, p).Ok? && opts == OptionsFor(vf, q.now, BindingFor(vf, q.rule, p).value.0)
  {
    EndExact(vf, q, p, opts.keyBinding);
  }

  lemma PermitsExact(vf: Verifier, q: Query, p: Presentation, chain: V.VerifiedChain, opens: seq<OpenMandate>)
    ensures Allows(vf, q, p, chain, opens) <==> Permits(vf, q, p, chain, opens)
  {
    forall opts
      ensures Policed(vf, q, opts) && EndBound(vf, q, p, opts.keyBinding) <==>
              BindingFor(vf, q.rule, p).Ok? && opts == OptionsFor(vf, q.now, BindingFor(vf, q.rule, p).value.0)
      ensures V.Accepted(vf.world, p, q.issuer, opts, chain) <==> ChainFits(vf.world, p, q.issuer, opts, chain)
    {
      PolicyExact(vf, q, p, opts);
      AcceptedExact(vf.world, p, q.issuer, opts, chain);
    }
    if |chain.links| > First(vf.settings) {
      PassesExact(vf.settings, vf.services, ElementsOf(vf.world, chain), opens, q.tx, q.env, q.now);
    }
  }

  // ---- the answer

  lemma NonceExact(vf: Verifier, q: Query, p: Presentation, chain: V.VerifiedChain, hasStore: bool,
                   before: map<string, int>)
    requires Bindable(vf, q, p)
    ensures NonceFree(vf, q, p, hasStore, before) <==> Unused(vf, q, p, hasStore, before)
  {
    assert Elements(p)[|p.links|].jwt == if p.links == [] then p.root.jwt else p.links[|p.links| - 1].jwt;
  }

  /** Authorized is exactly what policy, presentation and mandates permit, with a nonce that was not used before. */
  lemma AuthorizedExact(vf: Verifier, q: Query, hasStore: bool, before: map<string, int>,
                        r: Result<Authorized, Rejection>, after: map<string, int>)
    requires Decided(vf, q, hasStore, before, r, after)
    ensures r.Ok? <==> exists p, chain, opens :: Permits(vf, q, p, chain, opens) && Unused(vf, q, p, hasStore, before)
  {
    AuthorizedExactly(vf, q, hasStore, before, r, after);
    forall p, chain, opens
      ensures Allows(vf, q, p, chain, opens) && NonceFree(vf, q, p, hasStore, before) <==>
              Permits(vf, q, p, chain, opens) && Unused(vf, q, p, hasStore, before)
    {
      PermitsExact(vf, q, p, chain, opens);
      if Bindable(vf, q, p) { NonceExact(vf, q, p, chain, hasStore, before); }
    }
  }

  /** On whose behalf: the subject of the credential, or whoever signed the root mandate. */
  predicate ActsFor(vf: Verifier, q: Query, chain: V.VerifiedChain, who: Principal)
    requires |chain.links| > 0
  {
    var claims := chain.links[0].claims;
    if vf.settings.credentialRoot then
      && who.Credential? && who.userKey == chain.links[0].cnf
      && who.issuer == if "iss" in claims && claims["iss"].Str? then Some(claims["iss"].s) else None
    else who == UserKey(q.issuer)
  }

  lemma AllowedAnswerIs(vf: Verifier, q: Query, hasStore: bool, before: map<string, int>,
                        r: Result<Authorized, Rejection>, after: map<string, int>, p: Presentation,
                        chain: V.VerifiedChain, opens: seq<OpenMandate>)
    requires Allows(vf, q, p, chain, opens) && AllowedAnswer(vf, q, p, chain, opens, hasStore, before, r, after)
    requires r.Ok?
    ensures |chain.links| > 0
    ensures r.value.principal == PrincipalOf(vf.settings, ElementsOf(vf.world, chain)[0], q.issuer)
    ensures vf.services.closed(chain.links[|chain.links| - 1].claims) == Some(r.value.closed)
    ensures r.value.ledgerKeys == Keys(opens)
  {
  }

  /** The answer to an allowed query. */
  lemma AnswerIs(vf: Verifier, q: Query, hasStore: bool, before: map<string, int>, r: Result<Authorized, Rejection>,
                 after: map<string, int>, p: Presentation, chain: V.VerifiedChain, opens: seq<OpenMandate>)
    requires Decided(vf, q, hasStore, before, r, after) && Allows(vf, q, p, chain, opens) && r.Ok?
    ensures |chain.links| > 0
    ensures r.value.principal == PrincipalOf(vf.settings, ElementsOf(vf.world, chain)[0], q.issuer)
    ensures vf.services.closed(chain.links[|chain.links| - 1].claims) == Some(r.value.closed)
    ensures r.value.ledgerKeys == Keys(opens)
  {
    AllowedAnswerIs(vf, q, hasStore, before, r, after, p, chain, opens);
  }

  lemma ActsForExact(vf: Verifier, q: Query, chain: V.VerifiedChain)
    requires |chain.links| > 0
    ensures ActsFor(vf, q, chain, PrincipalOf(vf.settings, ElementsOf(vf.world, chain)[0], q.issuer))
  {
  }

  /** What is answered is read off the chain: the principal of its root, its leaf, the key of every mandate. */
  lemma AnswerRead(vf: Verifier, q: Query, hasStore: bool, before: map<string, int>, r: Result<Authorized, Rejection>,
                   after: map<string, int>, p: Presentation, chain: V.VerifiedChain, opens: seq<OpenMandate>)
    requires Decided(vf, q, hasStore, before, r, after) && r.Ok? && Permits(vf, q, p, chain, opens)
    ensures |chain.links| > 0 && ActsFor(vf, q, chain, r.value.principal)
    ensures vf.services.closed(chain.links[|chain.links| - 1].claims) == Some(r.value.closed)
    ensures |r.value.ledgerKeys| == |opens| && forall k :: 0 <= k < |opens| ==> r.value.ledgerKeys[k] == opens[k].key
  {
    PermitsExact(vf, q, p, chain, opens);
    AnswerIs(vf, q, hasStore, before, r, after, p, chain, opens);
    ActsForExact(vf, q, chain);
  }

  /** Made for this verifier, with the challenge or a nonce not used before, within the freshness window. */
  predicate MadeForThis(vf: Verifier, q: Query, payload: map<string, Json>, hasStore: bool,
                        before: map<string, int>) {
    && "aud" in payload && payload["aud"] == Str(vf.settings.audience)
    && "nonce" in payload && payload["nonce"].Str?
    && (if q.rule.Challenge? then payload["nonce"].s == q.rule.nonce
        else hasStore && (payload["nonce"].s in before ==> before[payload["nonce"].s] <= q.now))
    && "iat" in payload && payload["iat"].Num?
    && (q.now - vf.settings.freshness.maxAge) as real <= payload["iat"].n
    && payload["iat"].n <= (q.now + vf.settings.freshness.maxFuture) as real
  }

  /** Unbound presentations need the policy's leave; every other one is made for this transaction. */
  lemma AuthorizedBound(vf: Verifier, q: Query, hasStore: bool, before: map<string, int>,
                        r: Result<Authorized, Rejection>, after: map<string, int>)
    requires Decided(vf, q, hasStore, before, r, after) && r.Ok?
    ensures exists p :: && WellFormed(vf.codec, p) && Text(p) == q.text
                        && if p.links == [] then vf.allowUnbound && !vf.settings.credentialRoot
                           else MadeForThis(vf, q, LastPayload(vf.world, p), hasStore, before)
  {
    AuthorizedExact(vf, q, hasStore, before, r, after);
    var p, chain, opens :| Permits(vf, q, p, chain, opens) && Unused(vf, q, p, hasStore, before);
    var opts :| Policed(vf, q, opts) && EndBound(vf, q, p, opts.keyBinding)
                && ChainFits(vf.world, p, q.issuer, opts, chain);
    if p.links != [] { EndIsMade(vf, q, p, opts, chain, hasStore, before); }
  }

  lemma EndIsMade(vf: Verifier, q: Query, p: Presentation, opts: V.Options, chain: V.VerifiedChain, hasStore: bool,
                  before: map<string, int>)
    requires p.links != [] && Policed(vf, q, opts) && EndBound(vf, q, p, opts.keyBinding)
    requires ChainFits(vf.world, p, q.issuer, opts, chain) && Unused(vf, q, p, hasStore, before)
    ensures MadeForThis(vf, q, LastPayload(vf.world, p), hasStore, before)
  {
    var n := |p.links|;
    assert FitsAt(vf.world, p, q.issuer, opts, chain.links, n);
    FitIsTimely(vf.world, p, q.issuer, opts, chain.links, n);
  }

  /** A presentation without links is refused as unbound exactly when the policy gives no leave. */
  lemma UnboundExact(vf: Verifier, q: Query, hasStore: bool, before: map<string, int>,
                     r: Result<Authorized, Rejection>, after: map<string, int>)
    requires Decided(vf, q, hasStore, before, r, after)
    ensures r == Err(Unbound) <==> exists p :: && WellFormed(vf.codec, p) && Text(p) == q.text && p.links == []
                                              && !(vf.allowUnbound && !vf.settings.credentialRoot)
    ensures r == Err(NoNonce) <==> exists p :: && WellFormed(vf.codec, p) && Text(p) == q.text && p.links != []
                                              && forall n :: !NonceIs(vf, q, p, n)
  {
    forall p | WellFormed(vf.codec, p) && Text(p) == q.text
      ensures r == Err(Unbound) <==> p.links == [] && !(vf.allowUnbound && !vf.settings.credentialRoot)
      ensures r == Err(NoNonce) <==> p.links != [] && forall n :: !NonceIs(vf, q, p, n)
    {
      UnboundFor(vf, q, hasStore, before, r, after, p);
    }
  }

  lemma UnboundFor(vf: Verifier, q: Query, hasStore: bool, before: map<string, int>, r: Result<Authorized, Rejection>,
                   after: map<string, int>, p: Presentation)
    requires Decided(vf, q, hasStore, before, r, after) && WellFormed(vf.codec, p) && Text(p) == q.text
    ensures r == Err(Unbound) <==> p.links == [] && !(vf.allowUnbound && !vf.settings.credentialRoot)
    ensures r == Err(NoNonce) <==> p.links != [] && forall n :: !NonceIs(vf, q, p, n)
  {
    forall other | WellFormed(vf.codec, other) && Text(other) == q.text ensures other == p {
      Unambiguous(vf.codec, other, p);
    }
    BindingFails(vf, q, p);
    if BindingFor(vf, q.rule, p).Err? {
      BindingRefuses(vf, q, hasStore, before, r, after, p);
    } else {
      BindingPasses(vf, q, hasStore, before, r, after, p);
    }
  }

  lemma BindingRefuses(vf: Verifier, q: Query, hasStore: bool, before: map<string, int>,
                       r: Result<Authorized, Rejection>, after: map<string, int>, p: Presentation)
    requires Decided(vf, q, hasStore, before, r, after) && WellFormed(vf.codec, p) && Text(p) == q.text
    requires forall other :: WellFormed(vf.codec, other) && Text(other) == q.text ==> other == p
    requires BindingFor(vf, q.rule, p).Err?
    ensures r == Err(BindingFor(vf, q.rule, p).error)
  {
    forall other, chain, opens ensures !Allows(vf, q, other, chain, opens) { }
    assert Refused(vf, q, r.error);
  }

  lemma BindingPasses(vf: Verifier, q: Query, hasStore: bool, before: map<string, int>,
                      r: Result<Authorized, Rejection>, after: map<string, int>, p: Presentation)
    requires Decided(vf, q, hasStore, before, r, after) && WellFormed(vf.codec, p) && Text(p) == q.text
    requires forall other :: WellFormed(vf.codec, other) && Text(other) == q.text ==> other == p
    requires BindingFor(vf, q.rule, p).Ok?
    ensures r != Err(Unbound) && r != Err(NoNonce)
  {
    if o, chain, opens :| Allows(vf, q, o, chain, opens) {
      AnsweredOtherwise(vf, q, hasStore, before, r, after, o, chain, opens);
    }
  }

  lemma AnsweredOtherwise(vf: Verifier, q: Query, hasStore: bool, before: map<string, int>,
                          r: Result<Authorized, Rejection>, after: map<string, int>, p: Presentation,
                          chain: V.VerifiedChain, opens: seq<OpenMandate>)
    requires Allows(vf, q, p, chain, opens) && AllowedAnswer(vf, q, p, chain, opens, hasStore, before, r, after)
    ensures r != Err(Unbound) && r != Err(NoNonce)
  {
  }

  lemma BindingFails(vf: Verifier, q: Query, p: Presentation)
    ensures BindingFor(vf, q.rule, p) == Err(Unbound) <==>
            p.links == [] && !(vf.allowUnbound && !vf.settings.credentialRoot)
    ensures BindingFor(vf, q.rule, p) == Err(NoNonce) <==> p.links != [] && forall n :: !NonceIs(vf, q, p, n)
    ensures BindingFor(vf, q.rule, p).Err? ==>
              BindingFor(vf, q.rule, p).error == Unbound || BindingFor(vf, q.rule, p).error == NoNonce
  {
    assert Elements(p)[|p.links|].jwt == if p.links == [] then p.root.jwt else p.links[|p.links| - 1].jwt;
    if p.links != [] && BindingFor(vf, q.rule, p).Ok? {
      assert NonceIs(vf, q, p, BindingFor(vf, q.rule, p).value.1.value);
    }
  }

  // ---- what it comes to

  /** Everything that is permitted is in time: every element, its envelope, and an expiry where there must be one. */
  lemma PermittedInTime(vf: Verifier, q: Query, p: Presentation, chain: V.VerifiedChain, opens: seq<OpenMandate>)
    requires Permits(vf, q, p, chain, opens)
    ensures |chain.links| == |p.links| + 1 && "exp" in chain.links[0].claims
    ensures forall i :: 0 <= i < |chain.links| ==>
              && InTime(chain.links[i].claims, q.now, vf.leeway) && InTime(chain.links[i].envelope, q.now, vf.leeway)
  {
    var opts :| Policed(vf, q, opts) && EndBound(vf, q, p, opts.keyBinding)
                && ChainFits(vf.world, p, q.issuer, opts, chain);
    FitsInTime(vf.world, p, q.issuer, opts, chain);
  }

  lemma FitsInTime(w: V.World, p: Presentation, issuer: V.Key, opts: V.Options, chain: V.VerifiedChain)
    requires ChainFits(w, p, issuer, opts, chain) && opts.requireExp
    ensures "exp" in chain.links[0].claims
    ensures forall i :: 0 <= i < |chain.links| ==>
              && InTime(chain.links[i].claims, opts.now, opts.leeway)
              && InTime(chain.links[i].envelope, opts.now, opts.leeway)
  {
    forall i | 0 <= i < |chain.links|
      ensures InTime(chain.links[i].claims, opts.now, opts.leeway)
      ensures InTime(chain.links[i].envelope, opts.now, opts.leeway) && (i == 0 ==> "exp" in chain.links[0].claims)
    {
      assert FitsAt(w, p, issuer, opts, chain.links, i);
      FitIsTimely(w, p, issuer, opts, chain.links, i);
      assert Timely(w, p, opts, chain.links, i);
    }
  }

  /** A checkout that passes under line items is one that is trusted, and its units can be assigned to them. */
  lemma LineItemsTrusted(s: Settings, v: Services, chain: seq<Element>, opens: seq<OpenMandate>, tx: Transaction,
                         env: Env, now: int, m: OpenMandate, items: seq<CM.Requirement>)
    requires |chain| > First(s) && Passes(s, v, chain, opens, tx, env, now)
    requires m in opens && LineItems(items) in m.constraints
    ensures var leaf := chain[|chain| - 1];
            && v.closed(leaf.claims).Some? && v.closed(leaf.claims).value.content.CheckoutMandate?
            && exists jwt, cart :: && Trusted(v, v.closed(leaf.claims).value.content, leaf.alg, tx, jwt, cart)
                                   && cart.items != [] && CM.Assignable(items, cart.items)
  {
    PassesExact(s, v, chain, opens, tx, env, now);
    var leaf := chain[|chain| - 1];
    var closed := v.closed(leaf.claims).value;
    var cart :| Settles(v, closed.content, leaf.alg, tx, cart)
                && forall m :: m in opens ==> Allowed(m, closed, env.(checkout := cart));
    assert Allowed(m, closed, env.(checkout := cart));
    assert Obeys(LineItems(items), closed.content, env.(checkout := cart), m.key);
  }
}
