/** The v0 verifier's walk along a delegation chain, leaf first (crates/core/src/verifier.rs `verify_inner`). */
module DelegationChains {
  import opened Prelude
  import opened Scopes

  type Key = string

  datatype Delegation = Delegation(
    id: string,
    principalId: string,
    principalType: string,
    agentId: string,
    agentKey: string,
    scope: Scope,
    validFrom: int,
    validUntil: int,
    canDelegate: bool,
    maxDepth: Option<nat>,
    parentId: Option<string>)

  datatype AgentMessage = AgentMessage(
    agentId: string,
    audience: string,
    nonce: string,
    issuedAt: int,
    request: ActionRequest)

  datatype Failure =
    | InvalidDelegationSignature
    | InvalidAgentSignature
    | AudienceMismatch
    | NonceReplayed
    | StaleMessage
    | MessageFromFuture
    | NotYetValid
    | Expired
    | Revoked
    | ChainBroken
    | ChainTooDeep
    | ScopeNotNarrowed
    | ScopeDenied
    | KeyResolutionFailed

  /** Decoding, keys, signatures, status and the nonce answer: code outside the walk. */
  datatype World = World(
    delegation: string -> Option<Delegation>,
    message: string -> Option<AgentMessage>,
    publicKey: string -> Option<Key>,
    principalKey: string -> Option<Key>,
    signed: (string, Key) -> bool,
    revoked: string -> bool,
    nonceSeen: (string, string) -> bool)

  datatype Settings = Settings(audience: string, maxAge: int, maxSkew: int)

  datatype VerifiedAction = VerifiedAction(chain: seq<Delegation>, message: AgentMessage)

  // ---- one link

  /** The key link `i` must be signed with: its parent's agent key, or the principal's for the root. */
  function SignerKey(w: World, chain: seq<string>, i: nat): Option<Key>
    requires i < |chain| && w.delegation(chain[i]).Some?
  {
    if i + 1 < |chain| then
      if w.delegation(chain[i + 1]).None? then None else w.publicKey(w.delegation(chain[i + 1]).value.agentKey)
    else w.principalKey(w.delegation(chain[i]).value.principalId)
  }

  /** Link `i` is signed by the right key, valid now and not revoked. */
  predicate LinkHolds(w: World, chain: seq<string>, i: nat, now: int)
    requires i < |chain|
  {
    && w.delegation(chain[i]).Some?
    && SignerKey(w, chain, i).Some? && w.signed(chain[i], SignerKey(w, chain, i).value)
    && var d := w.delegation(chain[i]).value; d.validFrom <= now <= d.validUntil && !w.revoked(d.id)
  }

  predicate SignedRight(w: World, chain: seq<string>, i: nat)
    requires i < |chain|
  {
    && w.delegation(chain[i]).Some?
    && SignerKey(w, chain, i).Some? && w.signed(chain[i], SignerKey(w, chain, i).value)
  }

  /** What is wrong with link `i`, by the first test that fails. */
  predicate LinkBreaks(w: World, chain: seq<string>, i: nat, now: int, e: Failure)
    requires i < |chain|
  {
    var d := w.delegation(chain[i]);
    match e
    case InvalidDelegationSignature =>
      || d.None?
      || (i + 1 < |chain| && w.delegation(chain[i + 1]).Some? && SignerKey(w, chain, i).None?)
      || (SignerKey(w, chain, i).Some? && !w.signed(chain[i], SignerKey(w, chain, i).value))
    case ChainBroken => d.Some? && i + 1 < |chain| && w.delegation(chain[i + 1]).None?
    case KeyResolutionFailed => d.Some? && i + 1 == |chain| && SignerKey(w, chain, i).None?
    case NotYetValid => SignedRight(w, chain, i) && now < d.value.validFrom
    case Expired => SignedRight(w, chain, i) && now >= d.value.validFrom && now > d.value.validUntil
    case Revoked =>
      SignedRight(w, chain, i) && d.value.validFrom <= now <= d.value.validUntil && w.revoked(d.value.id)
    case _ => false
  }

  method VerifyLink(w: World, chain: seq<string>, i: nat, now: int) returns (r: Result<Delegation, Failure>)
    requires i < |chain|
    ensures r.Ok? <==> LinkHolds(w, chain, i, now)
    ensures r.Ok? ==> w.delegation(chain[i]) == Some(r.value)
    ensures r.Err? ==> LinkBreaks(w, chain, i, now, r.error)
  {
    var unverified := w.delegation(chain[i]);
    if unverified.None? { return Err(InvalidDelegationSignature); }
    var key: Option<Key>;
    if i + 1 < |chain| {
      var parent := w.delegation(chain[i + 1]);
      if parent.None? { return Err(ChainBroken); }
      key := w.publicKey(parent.value.agentKey);
      if key.None? { return Err(InvalidDelegationSignature); }
    } else {
      key := w.principalKey(unverified.value.principalId);
      if key.None? { return Err(KeyResolutionFailed); }
    }
    if !w.signed(chain[i], key.value) { return Err(InvalidDelegationSignature); }
    var d := unverified.value;
    if now < d.validFrom { return Err(NotYetValid); }
    if now > d.validUntil { return Err(Expired); }
    if w.revoked(d.id) { return Err(Revoked); }
    r := Ok(d);
  }

  // ---- one pair

  /** `child` names `parent`, acts for its principal within its validity, and may exist. */
  predicate Linked(child: Delegation, parent: Delegation) {
    && child.parentId == Some(parent.id)
    && child.principalId == parent.principalId && child.principalType == parent.principalType
    && parent.validFrom <= child.validFrom && child.validUntil <= parent.validUntil
    && parent.canDelegate
  }

  /** `i` counts from the leaf; the depth is compared as a 32-bit number. */
  predicate WithinDepth(parent: Delegation, i: nat) {
    parent.maxDepth.Some? ==> (i + 1) % 0x1_0000_0000 <= parent.maxDepth.value
  }

  /** `child` at position `i` is a proper sub-delegation of `parent`. */
  predicate PairHolds(child: Delegation, parent: Delegation, i: nat) {
    Linked(child, parent) && WithinDepth(parent, i) && Narrows(parent.scope, child.scope)
  }

  /** What is wrong with a pair, by the first test that fails. */
  predicate PairBreaks(child: Delegation, parent: Delegation, i: nat, e: Failure) {
    match e
    case ChainBroken => !Linked(child, parent)
    case ChainTooDeep => Linked(child, parent) && !WithinDepth(parent, i)
    case ScopeNotNarrowed => Linked(child, parent) && WithinDepth(parent, i) && !Narrows(parent.scope, child.scope)
    case _ => false
  }

  method CheckPair(child: Delegation, parent: Delegation, i: nat) returns (f: Option<Failure>)
    ensures f.None? <==> PairHolds(child, parent, i)
    ensures f.Some? ==> PairBreaks(child, parent, i, f.value)
  {
    if child.parentId != Some(parent.id) { return Some(ChainBroken); }
    if child.principalId != parent.principalId || child.principalType != parent.principalType {
      return Some(ChainBroken);
    }
    if child.validFrom < parent.validFrom || child.validUntil > parent.validUntil { return Some(ChainBroken); }
    if !parent.canDelegate { return Some(ChainBroken); }
    if parent.maxDepth.Some? && (i + 1) % 0x1_0000_0000 > parent.maxDepth.value { return Some(ChainTooDeep); }
    if !Narrows(parent.scope, child.scope) { return Some(ScopeNotNarrowed); }
    return None;
  }

  // ---- the message

  predicate MessageSigned(w: World, leaf: Delegation, jws: string) {
    w.publicKey(leaf.agentKey).Some? && w.message(jws).Some? && w.signed(jws, w.publicKey(leaf.agentKey).value)
  }

  /** Addressed to this verifier, by the leaf's agent. */
  predicate Addressed(s: Settings, leaf: Delegation, m: AgentMessage) {
    m.audience == s.audience && m.agentId == leaf.agentId
  }

  predicate Timely(s: Settings, m: AgentMessage, now: int) {
    now - s.maxAge <= m.issuedAt <= now + s.maxSkew
  }

  predicate MessageHolds(w: World, s: Settings, leaf: Delegation, jws: string, now: int, clock: Clock) {
    && MessageSigned(w, leaf, jws)
    && var m := w.message(jws).value;
       && Addressed(s, leaf, m) && Timely(s, m, now)
       && !w.nonceSeen(m.agentId, m.nonce)
       && Matches(leaf.scope, m.request, clock)
  }

  /** What is wrong with the message, by the first test that fails. */
  predicate MessageBreaks(w: World, s: Settings, leaf: Delegation, jws: string, now: int, clock: Clock, e: Failure) {
    if !MessageSigned(w, leaf, jws) then e == InvalidAgentSignature
    else
      var m := w.message(jws).value;
      match e
      case AudienceMismatch => m.audience != s.audience
      case ChainBroken => m.audience == s.audience && m.agentId != leaf.agentId
      case MessageFromFuture => Addressed(s, leaf, m) && m.issuedAt > now + s.maxSkew
      case StaleMessage => Addressed(s, leaf, m) && m.issuedAt <= now + s.maxSkew && m.issuedAt < now - s.maxAge
      case NonceReplayed => Addressed(s, leaf, m) && Timely(s, m, now) && w.nonceSeen(m.agentId, m.nonce)
      case ScopeDenied =>
        && Addressed(s, leaf, m) && Timely(s, m, now) && !w.nonceSeen(m.agentId, m.nonce)
        && !Matches(leaf.scope, m.request, clock)
      case _ => false
  }

  method CheckMessage(w: World, s: Settings, leaf: Delegation, jws: string, now: int, clock: Clock)
    returns (r: Result<AgentMessage, Failure>)
    ensures r.Ok? <==> MessageHolds(w, s, leaf, jws, now, clock)
    ensures r.Ok? ==> w.message(jws) == Some(r.value)
    ensures r.Err? ==> MessageBreaks(w, s, leaf, jws, now, clock, r.error)
  {
    var key := w.publicKey(leaf.agentKey);
    if key.None? { return Err(InvalidAgentSignature); }
    var message := w.message(jws);
    if message.None? || !w.signed(jws, key.value) { return Err(InvalidAgentSignature); }
    var m := message.value;
    if m.audience != s.audience { return Err(AudienceMismatch); }
    if m.agentId != leaf.agentId { return Err(ChainBroken); }
    if m.issuedAt > now + s.maxSkew { return Err(MessageFromFuture); }
    if m.issuedAt < now - s.maxAge { return Err(StaleMessage); }
    if w.nonceSeen(m.agentId, m.nonce) { return Err(NonceReplayed); }
    if !Matches(leaf.scope, m.request, clock) { return Err(ScopeDenied); }
    r := Ok(m);
  }

  // ---- the walk

  predicate AllLinksHold(w: World, chain: seq<string>, now: int) {
    forall i :: 0 <= i < |chain| ==> LinkHolds(w, chain, i, now)
  }

  predicate LinksHoldTo(w: World, chain: seq<string>, n: nat, now: int)
    requires n <= |chain|
  {
    forall i :: 0 <= i < n ==> LinkHolds(w, chain, i, now)
  }

  predicate PairsHoldTo(ds: seq<Delegation>, n: nat)
    requires n < |ds|
  {
    forall i :: 0 <= i < n ==> PairAt(ds, i)
  }

  predicate PairAt(ds: seq<Delegation>, i: nat)
    requires i + 1 < |ds|
  {
    PairHolds(ds[i], ds[i + 1], i)
  }

  predicate AllPairsHold(ds: seq<Delegation>) {
    forall i :: 0 <= i < |ds| - 1 ==> PairAt(ds, i)
  }

  predicate Decodes(w: World, chain: seq<string>, ds: seq<Delegation>) {
    |ds| == |chain| && forall i :: 0 <= i < |chain| ==> w.delegation(chain[i]) == Some(ds[i])
  }

  method VerifyLinks(w: World, chain: seq<string>, now: int) returns (r: Result<seq<Delegation>, Failure>)
    ensures r.Ok? <==> AllLinksHold(w, chain, now)
    ensures r.Ok? ==> Decodes(w, chain, r.value)
    ensures r.Err? ==> exists i ::
              0 <= i < |chain| && LinksHoldTo(w, chain, i, now) && LinkBreaks(w, chain, i, now, r.error)
  {
    var ds: seq<Delegation> := [];
    for i := 0 to |chain|
      invariant |ds| == i
      invariant forall k :: 0 <= k < i ==> LinkHolds(w, chain, k, now) && w.delegation(chain[k]) == Some(ds[k])
    {
      var d := VerifyLink(w, chain, i, now);
      if d.Err? {
        assert LinksHoldTo(w, chain, i, now);
        return Err(d.error);
      }
      ds := ds + [d.value];
    }
    r := Ok(ds);
  }

  method CheckPairs(ds: seq<Delegation>) returns (f: Option<Failure>)
    requires |ds| > 0
    ensures f.None? <==> AllPairsHold(ds)
    ensures f.Some? ==> exists i, j ::
              0 <= i && j == i + 1 && j < |ds| && PairsHoldTo(ds, i) && PairBreaks(ds[i], ds[j], i, f.value)
  {
    for i := 0 to |ds| - 1
      invariant forall k :: 0 <= k < i ==> PairAt(ds, k)
    {
      f := CheckPair(ds[i], ds[i + 1], i);
      if f.Some? {
        assert !PairAt(ds, i) && PairsHoldTo(ds, i) && PairBreaks(ds[i], ds[i + 1], i, f.value);
        return;
      }
    }
    f := None;
  }

  /** `e` is what the first link, then the first pair, then the message gets wrong. */
  ghost predicate Fails(w: World, s: Settings, chain: seq<string>, jws: string, now: int, clock: Clock, e: Failure) {
    || (chain == [] && e == ChainBroken)
    || (exists i :: 0 <= i < |chain| && LinksHoldTo(w, chain, i, now) && LinkBreaks(w, chain, i, now, e))
    || (chain != [] && AllLinksHold(w, chain, now) && exists ds ::
         Decodes(w, chain, ds) && FailsAfter(w, s, ds, jws, now, clock, e))
  }

  ghost predicate FailsAfter(w: World, s: Settings, ds: seq<Delegation>, jws: string, now: int, clock: Clock,
                             e: Failure) {
    || (exists i, j :: 0 <= i && j == i + 1 && j < |ds| && PairsHoldTo(ds, i) && PairBreaks(ds[i], ds[j], i, e))
    || (|ds| > 0 && AllPairsHold(ds) && MessageBreaks(w, s, ds[0], jws, now, clock, e))
  }

  /** `verify_inner`, with exactly the checks it makes. */
  method Verify(w: World, s: Settings, chain: seq<string>, jws: string, now: int, clock: Clock)
    returns (r: Result<VerifiedAction, Failure>)
    ensures r.Ok? ==>
              && |chain| > 0 && AllLinksHold(w, chain, now)
              && Decodes(w, chain, r.value.chain) && AllPairsHold(r.value.chain)
              && MessageHolds(w, s, r.value.chain[0], jws, now, clock) && w.message(jws) == Some(r.value.message)
    ensures r.Err? ==> Fails(w, s, chain, jws, now, clock, r.error)
    ensures r.Err? ==>
              || |chain| == 0 || !AllLinksHold(w, chain, now)
              || exists ds ::
                   Decodes(w, chain, ds) && (!AllPairsHold(ds) || !MessageHolds(w, s, ds[0], jws, now, clock))
  {
    if |chain| == 0 { return Err(ChainBroken); }
    var links := VerifyLinks(w, chain, now);
    if links.Err? { return Err(links.error); }
    var ds := links.value;
    var broken := CheckPairs(ds);
    if broken.Some? {
      assert FailsAfter(w, s, ds, jws, now, clock, broken.value);
      return Err(broken.value);
    }
    var m := CheckMessage(w, s, ds[0], jws, now, clock);
    if m.Err? {
      assert FailsAfter(w, s, ds, jws, now, clock, m.error);
      return Err(m.error);
    }
    r := Ok(VerifiedAction(ds, m.value));
  }

  // ---- what acceptance means for the whole chain

  /** `d` stands below `a` in one chain: same principal, valid only while `a` is, within `a`'s depth. */
  predicate Below(d: Delegation, a: Delegation) {
    && d.principalId == a.principalId && d.principalType == a.principalType
    && a.validFrom <= d.validFrom && d.validUntil <= a.validUntil && a.canDelegate
  }

  lemma {:induction false} EveryAncestor(ds: seq<Delegation>, i: nat, j: nat)
    requires AllPairsHold(ds) && i < j < |ds|
    ensures Below(ds[i], ds[j])
    decreases j - i
  {
    assert PairAt(ds, j - 1);
    if i < j - 1 { EveryAncestor(ds, i, j - 1); }
  }

  /** No delegation has more links below it than it allows. */
  lemma DepthHolds(ds: seq<Delegation>, j: nat)
    requires AllPairsHold(ds) && 0 < j < |ds| <= 0x1_0000_0000 && ds[j].maxDepth.Some?
    ensures j <= ds[j].maxDepth.value
  {
    assert PairAt(ds, j - 1);
  }

  /** Ceilings are inherited downwards. */
  lemma {:induction false} CeilingInherited(ds: seq<Delegation>, i: nat, j: nat)
    requires AllPairsHold(ds) && i <= j < |ds| && ds[j].scope.maxAmount.Some?
    ensures ds[i].scope.maxAmount.Some?
    decreases j - i
  {
    if i < j {
      assert PairAt(ds, j - 1);
      CeilingInherited(ds, i, j - 1);
    }
  }

  /** Whenever the leaf's windows are open, every ancestor's are. */
  predicate LeafCovered(ds: seq<Delegation>)
    requires |ds| > 0
  {
    forall j :: 0 <= j < |ds| ==> ScopeCovered(ds[j].scope, ds[0].scope)
  }

  predicate MatchesAll(ds: seq<Delegation>, r: ActionRequest, clock: Clock) {
    forall i :: 0 <= i < |ds| ==> Matches(ds[i].scope, r, clock)
  }

  lemma {:induction false} RequestAbove(ds: seq<Delegation>, r: ActionRequest, j: nat)
    requires AllPairsHold(ds) && j < |ds| && MatchesRequest(ds[0].scope, r)
    requires ds[j].scope.maxAmount.Some? || ds[0].scope.maxAmount.None?
    ensures MatchesRequest(ds[j].scope, r)
  {
    if j > 0 {
      assert PairAt(ds, j - 1);
      if ds[j - 1].scope.maxAmount.Some? { CeilingInherited(ds, 0, j - 1); }
      RequestAbove(ds, r, j - 1);
      RequestExact(ds[j].scope, ds[j - 1].scope, r);
    }
  }

  /** Time aside, every ancestor matches exactly when the root has a ceiling or the leaf has none. */
  lemma RequestEverywhere(ds: seq<Delegation>, r: ActionRequest)
    requires |ds| > 0 && AllPairsHold(ds) && MatchesRequest(ds[0].scope, r)
    ensures (forall j :: 0 <= j < |ds| ==> MatchesRequest(ds[j].scope, r)) <==>
            ds[|ds| - 1].scope.maxAmount.Some? || ds[0].scope.maxAmount.None?
  {
    var root := |ds| - 1;
    if ds[root].scope.maxAmount.Some? || ds[0].scope.maxAmount.None? {
      forall j | 0 <= j < |ds| ensures MatchesRequest(ds[j].scope, r) {
        if ds[root].scope.maxAmount.Some? { CeilingInherited(ds, j, root); }
        RequestAbove(ds, r, j);
      }
    } else {
      assert !MatchesRequest(ds[root].scope, r);
    }
  }

  /**
   A request the leaf matches is matched by every ancestor exactly when the root has a ceiling or
   the leaf has none.
   */
  lemma WholeChainMatches(ds: seq<Delegation>, r: ActionRequest, clock: Clock)
    requires |ds| > 0 && AllPairsHold(ds) && LeafCovered(ds) && Matches(ds[0].scope, r, clock)
    ensures MatchesAll(ds, r, clock) <==> ds[|ds| - 1].scope.maxAmount.Some? || ds[0].scope.maxAmount.None?
  {
    RequestEverywhere(ds, r);
    forall j | 0 <= j < |ds| ensures MatchesTime(ds[j].scope, clock) {
      ScopeCoveredSound(ds[j].scope, ds[0].scope, clock);
    }
  }

  /**
   Over all instants: a matching leaf speaks for the whole chain exactly when it never opens, or
   its windows are covered and its ceiling is the root's.
   */
  lemma WholeChainExact(ds: seq<Delegation>, r: ActionRequest)
    requires |ds| > 0 && AllPairsHold(ds) && MatchesRequest(ds[0].scope, r)
    ensures (forall clock :: Matches(ds[0].scope, r, clock) ==> MatchesAll(ds, r, clock)) <==>
            !Opens(ds[0].scope)
            || (LeafCovered(ds) && (ds[|ds| - 1].scope.maxAmount.Some? || ds[0].scope.maxAmount.None?))
  {
    OpensSome(ds[0].scope);
    RequestEverywhere(ds, r);
    if LeafCovered(ds) {
      forall clock | Matches(ds[0].scope, r, clock)
        ensures MatchesAll(ds, r, clock) <==> ds[|ds| - 1].scope.maxAmount.Some? || ds[0].scope.maxAmount.None?
      {
        WholeChainMatches(ds, r, clock);
      }
    }
    if Opens(ds[0].scope) && forall clock :: Matches(ds[0].scope, r, clock) ==> MatchesAll(ds, r, clock) {
      var clock :| MatchesTime(ds[0].scope, clock);
      assert Matches(ds[0].scope, r, clock);
      forall j | 0 <= j < |ds| ensures ScopeCovered(ds[j].scope, ds[0].scope) { AncestorCovers(ds, r, j); }
    }
  }

  lemma AncestorCovers(ds: seq<Delegation>, r: ActionRequest, j: nat)
    requires AllPairsHold(ds) && j < |ds| && MatchesRequest(ds[0].scope, r)
    requires forall clock :: Matches(ds[0].scope, r, clock) ==> MatchesAll(ds, r, clock)
    ensures ScopeCovered(ds[j].scope, ds[0].scope)
  {
    if ds[j].scope.timeWindows.Some? {
      WindowsInherited(ds, 0, j);
      forall clock | Matches(ds[0].scope, r, clock) ensures Matches(ds[j].scope, r, clock) {
        assert MatchesAll(ds, r, clock);
      }
      SoundWindowsCover(ds[j].scope, ds[0].scope, r);
    }
  }

  /** Windows are inherited downwards. */
  lemma {:induction false} WindowsInherited(ds: seq<Delegation>, i: nat, j: nat)
    requires AllPairsHold(ds) && i <= j < |ds| && ds[j].scope.timeWindows.Some?
    ensures ds[i].scope.timeWindows.Some?
    decreases j - i
  {
    if i < j {
      assert PairAt(ds, j - 1);
      WindowsInherited(ds, i, j - 1);
    }
  }

  predicate AllOrdinaryTimes(ds: seq<Delegation>) {
    forall i :: 0 <= i < |ds| ==> OrdinaryTimes(ds[i].scope)
  }

  /** With ordinary times throughout, the windows of the leaf are covered. */
  lemma OrdinaryLeafCovered(ds: seq<Delegation>)
    requires |ds| > 0 && AllPairsHold(ds) && AllOrdinaryTimes(ds)
    ensures LeafCovered(ds)
  {
    forall j | 0 <= j < |ds| ensures ScopeCovered(ds[j].scope, ds[0].scope) { OrdinaryCoveredAt(ds, j); }
  }

  lemma {:induction false} OrdinaryCoveredAt(ds: seq<Delegation>, j: nat)
    requires AllPairsHold(ds) && AllOrdinaryTimes(ds) && j < |ds|
    ensures ScopeCovered(ds[j].scope, ds[0].scope)
  {
    if j == 0 {
      CoveredReflexive(ds[0].scope);
    } else {
      assert PairAt(ds, j - 1);
      OrdinaryCoveredAt(ds, j - 1);
      OrdinaryTimesCover(ds[j].scope, ds[j - 1].scope);
      CoveredTransitive(ds[j].scope, ds[j - 1].scope, ds[0].scope);
    }
  }

  /** A link under a root without a ceiling may carry one, and then moves money the root never mentioned. */
  lemma CeilingFromNowhere(p: Scope, clock: Clock)
    requires p == Scope(["pay"], None, None, None, None, None)
    ensures exists c, r :: Narrows(p, c) && Matches(c, r, clock) && !Matches(p, r, clock)
  {
    var euro := Amount(Finite(1.0), "EUR");
    var c := p.(maxAmount := Some(euro));
    var r := ActionRequest("pay", None, Some(euro), None, None);
    assert p.actions[0] == "pay";
    assert Narrows(p, c) && Matches(c, r, clock) && !Matches(p, r, clock);
  }

  /**
   Every link is signed under the agent key of its verified parent, the root under its principal's
   key, and all are valid now.
   */
  lemma ChainSigned(w: World, chain: seq<string>, ds: seq<Delegation>, now: int, i: nat)
    requires AllLinksHold(w, chain, now) && Decodes(w, chain, ds) && AllPairsHold(ds) && i < |chain|
    ensures var key := if i + 1 < |chain|
                       then w.publicKey(ds[i + 1].agentKey)
                       else w.principalKey(ds[|chain| - 1].principalId);
            key.Some? && w.signed(chain[i], key.value)
    ensures ds[i].principalId == ds[|chain| - 1].principalId && ds[i].validFrom <= now <= ds[i].validUntil
              && !w.revoked(ds[i].id)
  {
    assert LinkHolds(w, chain, i, now);
    if i + 1 < |chain| {
      assert w.delegation(chain[i + 1]) == Some(ds[i + 1]);
      EveryAncestor(ds, i, |chain| - 1);
    }
  }
}
