/**
 A decision on a presentation text (crates/authority/src/verifier.rs `check`):
 parsing, verification and authorization in a row, with the options that the policy and
 the transaction's nonce rule call for.
 */
module Deciding {
  import opened Prelude
  import opened Json
  import opened Splitting
  import opened Mandates
  import opened Presentations
  import opened Authorization
  import C = Constraints
  import Acc = Acceptance
  import P = Processing
  import N = Nonces
  import L = Landing
  import T = SdTree
  import CC = ClearClaims
  import V = Verification

  /** A verifier with its policy; the foreign code it calls is `world`, `codec` and `services`. */
  datatype Verifier = Verifier(
    world: V.World,
    codec: Codec,
    services: Services,
    settings: Settings,
    rootTyp: seq<string>,
    leeway: int,
    allowUnbound: bool)

  /** A challenge of the verifier's own, or a nonce that the agent picked. */
  datatype NonceRule = Challenge(nonce: string) | AgentGenerated

  datatype Query = Query(text: string, issuer: V.Key, rule: NonceRule, tx: Transaction, env: C.Env, now: int)

  datatype Rejection =
    | Malformed(parse: ParseError)
    | NoNonce
    | Unbound
    | BadPresentation(error: V.Located)
    | NotAuthorized(reason: Reason)

  /** The nonce that the last element claims, before anything is verified. */
  function ClaimedNonce(w: V.World, p: Presentation): Option<string> {
    var payload := w.decode(Elements(p)[|p.links|].jwt).payload;
    if "nonce" in payload && payload["nonce"].Str? then Some(payload["nonce"].s) else None
  }

  /** How the end of the presentation has to be bound, and the nonce to look for. */
  function BindingFor(vf: Verifier, rule: NonceRule, p: Presentation)
    : Result<(V.KeyBinding, Option<string>), Rejection>
  {
    if p.links != [] then
      var nonce := if rule.Challenge? then Some(rule.nonce) else ClaimedNonce(vf.world, p);
      if nonce.None? then Err(NoNonce)
      else Ok((V.TerminalLink(vf.settings.audience, nonce.value), nonce))
    else if vf.allowUnbound && !vf.settings.credentialRoot then Ok((V.NotRequired, None))
    else Err(Unbound)
  }

  function OptionsFor(vf: Verifier, now: int, binding: V.KeyBinding): V.Options {
    var form := if vf.settings.credentialRoot then V.Credential else V.DelegateRoot;
    V.Options(now, vf.rootTyp, form, binding, vf.leeway, vf.settings.freshness.maxAge,
      vf.settings.freshness.maxFuture, true, vf.settings.maxOpenMandates + 1)
  }

  /** A verified element as authorization reads it; its ledger key is the hash of its first component. */
  function ElementOf(w: V.World, link: V.Verified): Element {
    Element(link.claims, link.envelope, link.cnf, link.alg, w.digest(V.Sha256, Split(link.text, '~')[0]))
  }

  function ElementsOf(w: V.World, chain: V.VerifiedChain): (es: seq<Element>)
    ensures |es| == |chain.links| && forall i :: 0 <= i < |es| ==> es[i] == ElementOf(w, chain.links[i])
  {
    seq(|chain.links|, i requires 0 <= i < |chain.links| => ElementOf(w, chain.links[i]))
  }

  // ---- what verification already established

  /** A signed claim that is no container is read as it is signed. */
  lemma ScalarStays(payload: map<string, Json>, ds: seq<P.Disclosure>, hash: string -> string, name: string)
    requires P.Process(payload, ds, hash).Ok? && name in payload && T.Scalar(payload[name])
    requires name != "_sd" && name != "_sd_alg"
    ensures var claims := P.Process(payload, ds, hash).value.claims; name in claims && claims[name] == payload[name]
  {
    var t := L.ReadingOf(hash, payload, ds);
    L.ProcessReads(hash, payload, ds, t);
    CC.MemberReads(P.Tabulate(hash, ds).value, t, name);
  }

  /** The envelope of a link keeps the signed audience, nonce and time. */
  lemma EnvelopeKeeps(w: V.World, e: SdJwt, name: string)
    requires V.LinkClaims(w, e).Ok? && name in w.decode(e.jwt).payload && T.Scalar(w.decode(e.jwt).payload[name])
    requires name != "_sd" && name != "_sd_alg" && name != "delegate_payload"
    ensures var env := V.LinkClaims(w, e).value.1; name in env && env[name] == w.decode(e.jwt).payload[name]
  {
    var payload := w.decode(e.jwt).payload;
    ScalarStays(payload, V.Opened(w, e), V.Hash(w, V.AlgOf(payload).value), name);
  }

  /** What an accepted link carries. */
  lemma LinkParts(w: V.World, e: SdJwt, prev: V.Verified, prevElement: SdJwt, isLast: bool, opts: V.Options,
                  needsCnf: bool, link: V.Verified)
    requires V.VerifyLink(w, e, prev, prevElement, isLast, opts, needsCnf) == Ok(link)
    ensures link.text == ElementText(e) && Carries(link, V.LinkClaims(w, e))
  {
    Acc.StartsExact(w, e, prev, prevElement, isLast, opts, needsCnf);
  }

  predicate Carries(link: V.Verified, parts: Result<(map<string, Json>, map<string, Json>, V.SdAlg), V.VerifyError>) {
    parts.Ok? && link.claims == parts.value.0 && link.envelope == parts.value.1
  }

  /** The last link of an accepted chain passed the freshness test. */
  lemma LinkIsFresh(s: Settings, w: V.World, e: SdJwt, link: V.Verified, opts: V.Options, nonce: string)
    requires opts.maxAge == s.freshness.maxAge && opts.maxFuture == s.freshness.maxFuture
    requires V.LinkClaims(w, e).Ok? && link.envelope == V.LinkClaims(w, e).value.1
    requires Acc.Addressed(w.decode(e.jwt).payload, s.audience, nonce, opts)
    ensures FreshLeaf(s, ElementOf(w, link), nonce, opts.now)
  {
    EnvelopeKeeps(w, e, "aud");
    EnvelopeKeeps(w, e, "nonce");
    EnvelopeKeeps(w, e, "iat");
  }

  /** Link `n` of an accepted chain was verified after the one before it. */
  lemma LinkVerified(w: V.World, p: Presentation, issuer: V.Key, opts: V.Options, chain: V.VerifiedChain, n: nat)
    requires V.Accepted(w, p, issuer, opts, chain) && 0 < n <= |p.links|
    ensures V.VerifyLink(w, p.links[n - 1], chain.links[n - 1], Elements(p)[n - 1], n == |p.links|, opts,
                         V.NeedsCnf(p, opts, n)) == Ok(chain.links[n])
  {
    var before := chain.links[..n];
    assert |before| == n && before[n - 1] == chain.links[n - 1] && Elements(p)[n] == p.links[n - 1];
    assert V.Step(w, p, issuer, opts)(before) == Ok(chain.links[n]);
    assert V.VerifyNext(w, p, issuer, opts, before) == Ok(chain.links[n]);
  }

  /** So the second freshness test never fails. */
  lemma FreshAgain(s: Settings, w: V.World, p: Presentation, issuer: V.Key, opts: V.Options, chain: V.VerifiedChain)
    requires opts.keyBinding.TerminalLink? && opts.keyBinding.audience == s.audience
    requires opts.maxAge == s.freshness.maxAge && opts.maxFuture == s.freshness.maxFuture
    requires V.Accepted(w, p, issuer, opts, chain)
    ensures FreshLeaf(s, ElementsOf(w, chain)[|p.links|], opts.keyBinding.nonce, opts.now)
  {
    var n := |p.links|;
    Acc.AcceptedInTime(w, p, issuer, opts, chain);
    LinkVerified(w, p, issuer, opts, chain, n);
    LinkParts(w, p.links[n - 1], chain.links[n - 1], Elements(p)[n - 1], true, opts, V.NeedsCnf(p, opts, n),
          chain.links[n]);
    LinkIsFresh(s, w, p.links[n - 1], chain.links[n], opts, opts.keyBinding.nonce);
  }

  // ---- the decision

  /** `p` is what the text says, and its end can be bound. */
  predicate Bindable(vf: Verifier, q: Query, p: Presentation) {
    WellFormed(vf.codec, p) && Text(p) == q.text && BindingFor(vf, q.rule, p).Ok?
  }

  function OptionsOf(vf: Verifier, q: Query, p: Presentation): V.Options
    requires Bindable(vf, q, p)
  {
    OptionsFor(vf, q.now, BindingFor(vf, q.rule, p).value.0)
  }

  /** The text reads as `p`, which verifies to `chain`, whose mandates `opens` allow the action. */
  ghost predicate Allows(vf: Verifier, q: Query, p: Presentation, chain: V.VerifiedChain, opens: seq<OpenMandate>) {
    && Bindable(vf, q, p) && V.Accepted(vf.world, p, q.issuer, OptionsOf(vf, q, p), chain)
    && |chain.links| > First(vf.settings)
    && Passes(vf.settings, vf.services, ElementsOf(vf.world, chain), opens, q.tx, q.env, q.now)
  }

  /** What an allowed action is answered with, and the store afterwards. */
  ghost predicate AllowedAnswer(vf: Verifier, q: Query, p: Presentation, chain: V.VerifiedChain,
                                opens: seq<OpenMandate>, hasStore: bool, before: map<string, int>,
                                r: Result<Authorized, Rejection>, after: map<string, int>)
    requires Allows(vf, q, p, chain, opens)
  {
    var es := ElementsOf(vf.world, chain);
    var nonce := BindingFor(vf, q.rule, p).value.1;
    var yes := Authorized(PrincipalOf(vf.settings, es[0], q.issuer), ClosedOf(vf.services, es), Keys(opens));
    if nonce.None? || q.rule.Challenge? then r == Ok(yes) && after == before
    else if !hasStore then r == Err(NotAuthorized(NoNonceStore)) && after == before
    else
      var env := es[|p.links|].envelope;
      && r == (if nonce.value in before && before[nonce.value] > q.now then Err(NotAuthorized(Replay)) else Ok(yes))
      && "iat" in env && env["iat"].Num?
      && after == N.Inserted(before, nonce.value, N.Expiry(vf.settings.freshness, env["iat"].n), q.now)
  }

  /** The text is the presentation `p`, and says so in only one way. */
  ghost predicate Says(vf: Verifier, q: Query, p: Presentation) {
    && WellFormed(vf.codec, p) && Text(p) == q.text
    && forall other :: WellFormed(vf.codec, other) && Text(other) == q.text ==> other == p
  }

  ghost predicate Unverified(vf: Verifier, q: Query, p: Presentation, e: V.Located) {
    Bindable(vf, q, p) && V.Fails(vf.world, p, q.issuer, OptionsOf(vf, q, p), e)
  }

  ghost predicate DeniedBy(vf: Verifier, q: Query, p: Presentation, chain: V.VerifiedChain, d: Denial) {
    && Bindable(vf, q, p) && V.Accepted(vf.world, p, q.issuer, OptionsOf(vf, q, p), chain)
    && |chain.links| > First(vf.settings)
    && Denies(vf.settings, vf.services, ElementsOf(vf.world, chain), q.tx, q.env, q.now, d)
  }

  /** Why a text is refused before its nonce matters. */
  ghost predicate Refused(vf: Verifier, q: Query, e: Rejection) {
    match e
    case Malformed(_) => forall p :: WellFormed(vf.codec, p) ==> Text(p) != q.text
    case BadPresentation(f) => exists p :: Says(vf, q, p) && Unverified(vf, q, p, f)
    case NotAuthorized(reason) => reason.Denied? && exists p, chain :: DeniedBy(vf, q, p, chain, reason.denial)
    case _ => exists p :: Says(vf, q, p) && BindingFor(vf, q.rule, p) == Err(e)
  }

  /** An accepted presentation always has an element after a credential root, so there is a mandate. */
  lemma MandatePresent(vf: Verifier, q: Query, p: Presentation, chain: V.VerifiedChain)
    requires Bindable(vf, q, p) && V.Accepted(vf.world, p, q.issuer, OptionsOf(vf, q, p), chain)
    ensures |chain.links| > First(vf.settings)
  {
  }

  /** And where a nonce is looked for, its last element is fresh. */
  lemma LeafFresh(vf: Verifier, q: Query, p: Presentation, chain: V.VerifiedChain)
    requires Bindable(vf, q, p) && V.Accepted(vf.world, p, q.issuer, OptionsOf(vf, q, p), chain)
    requires BindingFor(vf, q.rule, p).value.1.Some?
    ensures FreshLeaf(vf.settings, ElementsOf(vf.world, chain)[|p.links|], BindingFor(vf, q.rule, p).value.1.value,
                      q.now)
  {
    FreshAgain(vf.settings, vf.world, p, q.issuer, OptionsOf(vf, q, p), chain);
  }

  function Lifted(a: Result<Authorized, Reason>): Result<Authorized, Rejection> {
    if a.Ok? then Ok(a.value) else Err(NotAuthorized(a.error))
  }

  /** The answer of `authorize`, given to the one presentation and the one chain of the query. */
  ghost predicate Answered(vf: Verifier, q: Query, p: Presentation, chain: V.VerifiedChain, hasStore: bool,
                           before: map<string, int>, a: Result<Authorized, Reason>, after: map<string, int>) {
    && Bindable(vf, q, p) && V.Accepted(vf.world, p, q.issuer, OptionsOf(vf, q, p), chain)
    && Answers(vf.settings, vf.services, ElementsOf(vf.world, chain), q.tx, q.env, q.issuer,
               BindingFor(vf, q.rule, p).value.1, q.rule.AgentGenerated?, q.now, hasStore, before, a, after)
  }

  /** Mandates that allow the action fix the answer. */
  lemma AllowedIsAnswered(vf: Verifier, q: Query, p: Presentation, chain: V.VerifiedChain, opens: seq<OpenMandate>,
                          hasStore: bool, before: map<string, int>, a: Result<Authorized, Reason>,
                          after: map<string, int>)
    requires Answered(vf, q, p, chain, hasStore, before, a, after) && Allows(vf, q, p, chain, opens)
    ensures AllowedAnswer(vf, q, p, chain, opens, hasStore, before, Lifted(a), after)
  {
    var es := ElementsOf(vf.world, chain);
    if a.Err? && a.error.Denied? {
      DeniedOrPasses(vf.settings, vf.services, es, opens, q.tx, q.env, q.now, a.error.denial);
    }
    forall other | Passes(vf.settings, vf.services, es, other, q.tx, q.env, q.now) ensures other == opens {
      ReadsOnce(vf.settings, vf.services, es, other, opens, q.now);
    }
    if BindingFor(vf, q.rule, p).value.1.Some? { LeafFresh(vf, q, p, chain); }
  }

  lemma DeniedRefuses(vf: Verifier, q: Query, p: Presentation, chain: V.VerifiedChain, d: Denial)
    requires DeniedBy(vf, q, p, chain, d)
    ensures Refused(vf, q, NotAuthorized(Denied(d)))
  {
  }

  /** An answer that leaves the store alone and allows nothing is a refusal. */
  lemma AllowedOrRefused(vf: Verifier, q: Query, p: Presentation, chain: V.VerifiedChain, hasStore: bool,
                         before: map<string, int>, a: Result<Authorized, Reason>, after: map<string, int>)
    requires Answered(vf, q, p, chain, hasStore, before, a, after)
    ensures (exists opens :: Allows(vf, q, p, chain, opens))
            || (a.Err? && Refused(vf, q, NotAuthorized(a.error)) && after == before)
  {
    MandatePresent(vf, q, p, chain);
    if a.Err? && a.error.Denied? {
      DeniedRefuses(vf, q, p, chain, a.error.denial);
    } else {
      var opens :| Passes(vf.settings, vf.services, ElementsOf(vf.world, chain), opens, q.tx, q.env, q.now);
      assert Allows(vf, q, p, chain, opens);
    }
  }

  /**
   The whole answer: what any mandates that allow the action make it, and a refusal that leaves the store
   alone when none do.
   */
  ghost predicate Decided(vf: Verifier, q: Query, hasStore: bool, before: map<string, int>,
                          r: Result<Authorized, Rejection>, after: map<string, int>) {
    && (forall p, chain, opens :: Allows(vf, q, p, chain, opens) ==>
          AllowedAnswer(vf, q, p, chain, opens, hasStore, before, r, after))
    && ((exists p, chain, opens :: Allows(vf, q, p, chain, opens))
        || (r.Err? && Refused(vf, q, r.error) && after == before))
  }

  /** The nonce to look for, if the agent picked it, is not recorded in a store there is. */
  predicate NonceFree(vf: Verifier, q: Query, p: Presentation, hasStore: bool, before: map<string, int>)
    requires Bindable(vf, q, p)
  {
    var nonce := BindingFor(vf, q.rule, p).value.1;
    nonce.None? || q.rule.Challenge? || (hasStore && !(nonce.value in before && before[nonce.value] > q.now))
  }

  /** An allowed query is authorized exactly when its nonce is free. */
  lemma AllowedIfFree(vf: Verifier, q: Query, p: Presentation, chain: V.VerifiedChain, opens: seq<OpenMandate>,
                      hasStore: bool, before: map<string, int>, r: Result<Authorized, Rejection>,
                      after: map<string, int>)
    requires Decided(vf, q, hasStore, before, r, after) && Allows(vf, q, p, chain, opens)
    ensures r.Ok? <==> NonceFree(vf, q, p, hasStore, before)
    ensures r != Err(NotAuthorized(NoMandate)) && r != Err(NotAuthorized(Freshness))
  {
  }

  /**
   Authorized are exactly the texts of presentations that verify to a chain whose mandates allow the
   action, with a nonce that is free; the tests for a missing mandate and for freshness, repeated
   after verification, are never what refuses.
   */
  lemma AuthorizedExactly(vf: Verifier, q: Query, hasStore: bool, before: map<string, int>,
                          r: Result<Authorized, Rejection>, after: map<string, int>)
    requires Decided(vf, q, hasStore, before, r, after)
    ensures r.Ok? <==> exists p, chain, opens ::
                         Allows(vf, q, p, chain, opens) && NonceFree(vf, q, p, hasStore, before)
    ensures r != Err(NotAuthorized(NoMandate)) && r != Err(NotAuthorized(Freshness))
  {
    if p, chain, opens :| Allows(vf, q, p, chain, opens) {
      AllowedIfFree(vf, q, p, chain, opens, hasStore, before, r, after);
    }
    if p, chain, opens :| Allows(vf, q, p, chain, opens) && NonceFree(vf, q, p, hasStore, before) {
      AllowedIfFree(vf, q, p, chain, opens, hasStore, before, r, after);
    }
  }

  lemma BindingDecides(vf: Verifier, q: Query, p: Presentation, hasStore: bool, before: map<string, int>)
    requires Says(vf, q, p) && BindingFor(vf, q.rule, p).Err?
    ensures Decided(vf, q, hasStore, before, Err(BindingFor(vf, q.rule, p).error), before)
  {
  }

  lemma VerifierDecides(vf: Verifier, q: Query, p: Presentation, e: V.Located, hasStore: bool,
                        before: map<string, int>)
    requires Says(vf, q, p) && Unverified(vf, q, p, e)
    requires forall chain :: !V.Accepted(vf.world, p, q.issuer, OptionsOf(vf, q, p), chain)
    ensures Decided(vf, q, hasStore, before, Err(BadPresentation(e)), before)
  {
  }

  lemma ChainDecides(vf: Verifier, q: Query, p: Presentation, chain: V.VerifiedChain, hasStore: bool,
                     before: map<string, int>, a: Result<Authorized, Reason>, after: map<string, int>)
    requires Says(vf, q, p) && Answered(vf, q, p, chain, hasStore, before, a, after)
    requires forall other :: V.Accepted(vf.world, p, q.issuer, OptionsOf(vf, q, p), other) ==> other == chain
    ensures Decided(vf, q, hasStore, before, Lifted(a), after)
  {
    AllowedOrRefused(vf, q, p, chain, hasStore, before, a, after);
    forall p', chain', opens | Allows(vf, q, p', chain', opens)
      ensures AllowedAnswer(vf, q, p', chain', opens, hasStore, before, Lifted(a), after)
    {
      assert p' == p && chain' == chain;
      AllowedIsAnswered(vf, q, p, chain, opens, hasStore, before, a, after);
    }
  }

  /** `Verifier::check` on a presentation text. */
  method Decide(vf: Verifier, q: Query, store: N.MemoryNonceStore?) returns (r: Result<Authorized, Rejection>)
    modifies store
    ensures Decided(vf, q, store != null, old(Seen(store)), r, Seen(store))
  {
    var parsed := Parse(vf.codec, q.text);
    if parsed.Err? { return Err(Malformed(parsed.error)); }
    var p := parsed.value;
    var binding := BindingFor(vf, q.rule, p);
    if binding.Err? {
      BindingDecides(vf, q, p, store != null, Seen(store));
      return Err(binding.error);
    }
    var verified := V.Verify(vf.world, p, q.issuer, OptionsOf(vf, q, p));
    if verified.Err? {
      VerifierDecides(vf, q, p, verified.error, store != null, Seen(store));
      return Err(BadPresentation(verified.error));
    }
    MandatePresent(vf, q, p, verified.value);
    var decided := Authorize(vf.settings, vf.services, ElementsOf(vf.world, verified.value), q.tx, q.env, q.issuer,
                             binding.value.1, q.rule.AgentGenerated?, store, q.now);
    r := Lifted(decided);
    ChainDecides(vf, q, p, verified.value, store != null, old(Seen(store)), decided, Seen(store));
  }
}
