/**
 Limits over every run of decisions, per mandate JWT (crates/authority/src/verifier.rs).
 The ledger key is the hash of the mandate's JWT. When hashes do not collide, all mandates
 counted under it come from that JWT, so a limit in its clear part binds everything spent.
 */
module SpendingPerJwt {
  import opened Prelude
  import opened Json
  import opened Splitting
  import opened Presentations
  import opened Constraints
  import opened Mandates
  import opened MandateParsing
  import opened Authorization
  import opened ShownLimits
  import opened Deciding
  import CD = ClearDelegates
  import H = HashChain
  import L = Ledger
  import V = Verification

  /** Open mandates are read by the rules of `OpenMandate::parse`. */
  ghost predicate ParsesMandates(v: Services, read: Reader) {
    forall claims, key :: v.open(claims, key).Some? ==> ReadsAs(claims, read, key, v.open(claims, key).value)
  }

  /** The first component of an element's text is its JWT. */
  lemma TextStarts(e: SdJwt)
    requires NoTilde(e)
    ensures Split(ElementText(e), '~')[0] == e.jwt
  {
    SplitJoin([e.jwt] + e.disclosures + [""], '~');
  }

  lemma RootParts(w: V.World, root: SdJwt, issuer: V.Key, opts: V.Options, needsCnf: bool, v: V.Verified)
    requires V.VerifyRoot(w, root, issuer, opts, needsCnf) == Ok(v) && opts.rootForm.DelegateRoot?
    ensures v.text == ElementText(root) && CD.Delegated(w, root.jwt, root.disclosures) == Ok(v.claims)
  {
  }

  lemma LinkDelegated(w: V.World, e: SdJwt, v: V.Verified)
    requires Carries(v, V.LinkClaims(w, e))
    ensures CD.Delegated(w, e.jwt, e.disclosures) == Ok(v.claims)
  {
  }

  lemma FirstParts(w: V.World, p: Presentation, issuer: V.Key, opts: V.Options, chain: V.VerifiedChain)
    requires V.Accepted(w, p, issuer, opts, chain) && opts.rootForm.DelegateRoot?
    ensures var e, v := p.root, chain.links[0];
            v.text == ElementText(e) && CD.Delegated(w, e.jwt, e.disclosures) == Ok(v.claims)
  {
    assert V.Step(w, p, issuer, opts)(chain.links[..0]) == Ok(chain.links[0]);
    RootParts(w, p.root, issuer, opts, V.NeedsCnf(p, opts, 0), chain.links[0]);
  }

  /** Element `i` of an accepted presentation carries the Delegate Payload read with its own disclosures. */
  lemma ElementParts(w: V.World, p: Presentation, issuer: V.Key, opts: V.Options, chain: V.VerifiedChain, i: nat)
    requires V.Accepted(w, p, issuer, opts, chain) && i <= |p.links| && (i > 0 || opts.rootForm.DelegateRoot?)
    ensures var e, v := Elements(p)[i], chain.links[i];
            v.text == ElementText(e) && CD.Delegated(w, e.jwt, e.disclosures) == Ok(v.claims)
  {
    if i == 0 {
      FirstParts(w, p, issuer, opts, chain);
    } else {
      LinkVerified(w, p, issuer, opts, chain, i);
      LinkParts(w, p.links[i - 1], chain.links[i - 1], Elements(p)[i - 1], i == |p.links|, opts,
            V.NeedsCnf(p, opts, i), chain.links[i]);
      LinkDelegated(w, p.links[i - 1], chain.links[i]);
    }
  }

  /** `opens` are the mandates of a presentation that verifies. */
  ghost predicate Carried(vf: Verifier, q: Query, p: Presentation, chain: V.VerifiedChain, opens: seq<OpenMandate>) {
    && Bindable(vf, q, p) && V.Accepted(vf.world, p, q.issuer, OptionsOf(vf, q, p), chain)
    && Reads(vf.settings, vf.services, ElementsOf(vf.world, chain), opens, q.now)
  }

  /** Each of them is read from its JWT, and counted under the hash of that JWT. */
  lemma KeyNamesJwt(vf: Verifier, read: Reader, q: Query, p: Presentation, chain: V.VerifiedChain,
                    opens: seq<OpenMandate>, k: nat)
    requires ParsesMandates(vf.services, read) && Carried(vf, q, p, chain, opens) && k < |opens|
    ensures var i := First(vf.settings) + k;
            && i <= |p.links|
            && opens[k].key == vf.world.digest(V.Sha256, Elements(p)[i].jwt)
            && ReadFrom(vf.world, read, Elements(p)[i].jwt, Elements(p)[i].disclosures, opens[k])
  {
    var i := First(vf.settings) + k;
    ElementParts(vf.world, p, q.issuer, OptionsOf(vf, q, p), chain, i);
    TextStarts(Elements(p)[i]);
    assert ReadAt(vf.settings, vf.services, ElementsOf(vf.world, chain), opens, k, q.now);
  }

  /** The mandates above a request are those of some presentation that verifies. */
  ghost predicate FromPresentation(vf: Verifier, r: L.Request) {
    exists q, p, chain :: Carried(vf, q, p, chain, r.opens)
  }

  lemma KeySays(vf: Verifier, read: Reader, r: L.Request, k: nat, jwt: string)
    requires H.Injective(vf.world) && ParsesMandates(vf.services, read) && FromPresentation(vf, r)
    requires k < |r.opens| && r.opens[k].key == vf.world.digest(V.Sha256, jwt)
    ensures SaysWithSome(vf.world, read, jwt, r.opens[k])
  {
    var q, p, chain :| Carried(vf, q, p, chain, r.opens);
    CarriedSays(vf, read, q, p, chain, r.opens, k, jwt);
  }

  lemma CarriedSays(vf: Verifier, read: Reader, q: Query, p: Presentation, chain: V.VerifiedChain,
                    opens: seq<OpenMandate>, k: nat, jwt: string)
    requires H.Injective(vf.world) && ParsesMandates(vf.services, read) && Carried(vf, q, p, chain, opens)
    requires k < |opens| && opens[k].key == vf.world.digest(V.Sha256, jwt)
    ensures SaysWithSome(vf.world, read, jwt, opens[k])
  {
    KeyNamesJwt(vf, read, q, p, chain, opens, k);
    var e := Elements(p)[First(vf.settings) + k];
    assert e.jwt == jwt && ReadFrom(vf.world, read, jwt, e.disclosures, opens[k]);
  }

  /** So all mandates counted under one key come from one JWT. */
  lemma KeyIsOneJwt(vf: Verifier, read: Reader, requests: seq<L.Request>, jwt: string)
    requires H.Injective(vf.world) && ParsesMandates(vf.services, read)
    requires forall i :: 0 <= i < |requests| ==> FromPresentation(vf, requests[i])
    ensures OneJwt(vf.world, read, requests, vf.world.digest(V.Sha256, jwt), jwt)
  {
    forall i, k | 0 <= i < |requests| && 0 <= k < |requests[i].opens|
                    && requests[i].opens[k].key == vf.world.digest(V.Sha256, jwt)
      ensures SaysWithSome(vf.world, read, jwt, requests[i].opens[k])
    {
      KeySays(vf, read, requests[i], k, jwt);
    }
  }

  /**
   Over every run of requests whose mandates come from presentations that verify, what is spent under
   a mandate JWT stays within a budget that the JWT shows in the clear, whatever is disclosed.
   */
  lemma SpendingHolds(vf: Verifier, read: Reader, requests: seq<L.Request>, jwt: string, max: nat, currency: string)
    requires H.Injective(vf.world) && ParsesMandates(vf.services, read)
    requires forall i :: 0 <= i < |requests| ==> FromPresentation(vf, requests[i])
    requires LimitShown(vf.world, read, jwt, Budget(max, currency))
    ensures L.Spent(L.Run(requests).log, vf.world.digest(V.Sha256, jwt)) <= max
  {
    KeyIsOneJwt(vf, read, requests, jwt);
    ClearBudgetHolds(vf.world, read, requests, vf.world.digest(V.Sha256, jwt), jwt, max, currency);
  }

  lemma UsesHold(vf: Verifier, read: Reader, requests: seq<L.Request>, jwt: string, f: Frequency, max: nat)
    requires H.Injective(vf.world) && ParsesMandates(vf.services, read)
    requires forall i :: 0 <= i < |requests| ==> FromPresentation(vf, requests[i])
    requires LimitShown(vf.world, read, jwt, AgentRecurrence(f, Some(max)))
    ensures L.Uses(L.Run(requests).log, vf.world.digest(V.Sha256, jwt)) <= max
  {
    KeyIsOneJwt(vf, read, requests, jwt);
    ClearOccurrencesHold(vf.world, read, requests, vf.world.digest(V.Sha256, jwt), jwt, f, max);
  }
}
