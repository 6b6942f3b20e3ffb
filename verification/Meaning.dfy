/** What an accepted chain of mandates allows, in terms of the action alone (crates/authority/src/evaluate.rs). */
module Meaning {
  import opened Prelude
  import opened Strings
  import opened Constraints
  import opened Mandates
  import CM = CartMatching
  import W = TimeWindows

  // ---- one clause per constraint type

  /** The verifier's local minute, wherever it can be told, is inside one of the windows. */
  predicate SomeWindowOpen(windows: seq<W.Window>, env: Env) {
    exists w :: w in windows && env.local(w.zone).Some? && W.Covers(w, env.local(w.zone).value)
  }

  /** Seconds that must have passed since the last use, for the frequencies with a fixed length. */
  function FixedPause(f: Frequency): Option<nat> {
    match f
    case OnDemand => Some(0)
    case Daily => Some(24 * 60 * 60)
    case Weekly => Some(7 * 24 * 60 * 60)
    case Biweekly => Some(14 * 24 * 60 * 60)
    case _ => None
  }

  function Months(f: Frequency): nat {
    if f.Monthly? then 1 else if f.Quarterly? then 3 else 12
  }

  /** Long enough after `last`. */
  predicate PauseKept(f: Frequency, last: int, env: Env) {
    if f.OnDemand? then env.now >= last
    else if FixedPause(f).Some? then
      env.now - last >= FixedPause(f).value && last + FixedPause(f).value <= 0x7FFF_FFFF_FFFF_FFFF
    else env.addMonths(last, Months(f)).Some? && env.addMonths(last, Months(f)).value <= env.now
  }

  predicate ActionObeys(c: Constraint, a: Content, env: Env)
    requires a.Action?
  {
    match c
    case Delegation(_) => true
    case Actions(allowed) => a.action in allowed
    case Resources(allowed) => a.resource.Some? && a.resource.value in allowed
    case AmountCap(max, currency) =>
      a.amount.None? || (a.amount.value.minor <= max && a.amount.value.currency == currency)
    case Counterparties(allow, deny) =>
      && a.counterparty.Some?
      && (allow.None? || a.counterparty.value in allow.value)
      && (deny.None? || a.counterparty.value !in deny.value)
    case DataCategories(allowed) =>
      a.categories.None? || forall x :: x in a.categories.value ==> x in allowed
    case TimeWindows(windows) => SomeWindowOpen(windows, env)
    case _ => false
  }

  ghost predicate CheckoutObeys(c: Constraint, checkout: Option<Cart>) {
    match c
    case Delegation(_) => true
    case AllowedMerchants(merchants) =>
      && checkout.Some? && checkout.value.merchant.Some?
      && exists m :: m in merchants && m.id == checkout.value.merchant.value.id
    case LineItems(items) => checkout.Some? && CM.Fulfilled(items, Some(checkout.value.items))
    case _ => false
  }

  /** Usage of the mandate itself, under its own key. */
  predicate UsageKnown(env: Env, key: string) {
    env.ledger.Some? && env.ledger.value(key).Some?
  }

  predicate PaymentObeys(c: Constraint, p: Content, env: Env, key: string)
    requires p.PaymentMandate?
  {
    match c
    case Delegation(_) => true
    case AmountRange(currency, min, max) =>
      p.paid.currency == currency && p.paid.minor <= max && (min.None? || min.value <= p.paid.minor)
    case AllowedPayees(merchants) => exists m :: m in merchants && m.id == p.payee.id
    case AllowedInstruments(instruments) => exists i :: i in instruments && i.id == p.instrument.id
    case AllowedPisps(pisps) => p.pisp.Some? && p.pisp.value in pisps
    case Budget(max, currency) =>
      && p.paid.currency == currency && UsageKnown(env, key)
      && env.ledger.value(key).value.total + p.paid.minor <= max
      && env.ledger.value(key).value.total + p.paid.minor <= 0xFFFF_FFFF_FFFF_FFFF
    case AgentRecurrence(f, max) =>
      && UsageKnown(env, key)
      && (max.None? || env.ledger.value(key).value.uses < max.value)
      && (env.ledger.value(key).value.lastUse.None? || PauseKept(f, env.ledger.value(key).value.lastUse.value, env))
    case ExecutionDate(notBefore, notAfter) =>
      if p.executionDate.None? then
        (notBefore.None? || notBefore.value <= env.now) && (notAfter.None? || env.now <= notAfter.value)
      else
        && env.instants(p.executionDate.value).Some?
        && (notBefore.None? || notBefore.value <= env.instants(p.executionDate.value).value.0)
        && (notAfter.None? || env.instants(p.executionDate.value).value.1 <= notAfter.value)
    case Reference(id) => env.openCheckoutHash == Some(id)
    case _ => false
  }

  ghost predicate Obeys(c: Constraint, content: Content, env: Env, key: string) {
    match content
    case Action(_, _, _, _, _) => ActionObeys(c, content, env)
    case CheckoutMandate(_, _) => CheckoutObeys(c, env.checkout)
    case PaymentMandate(_, _, _, _, _, _) => PaymentObeys(c, content, env, key)
  }

  lemma NamesExact(merchants: seq<Merchant>, instruments: seq<Instrument>, id: string)
    ensures NamesMerchant(merchants, id) <==> exists m :: m in merchants && m.id == id
    ensures NamesInstrument(instruments, id) <==> exists i :: i in instruments && i.id == id
  {
    if m :| m in merchants && m.id == id { var i :| 0 <= i < |merchants| && merchants[i] == m; }
    if x :| x in instruments && x.id == id { var i :| 0 <= i < |instruments| && instruments[i] == x; }
  }

  lemma WindowsExact(windows: seq<W.Window>, env: Env)
    ensures SomeWindowOpen(windows, env) <==>
            exists i :: && 0 <= i < |windows| && env.local(windows[i].zone).Some?
                        && W.Covers(windows[i], env.local(windows[i].zone).value)
  {
    if w :| w in windows && env.local(w.zone).Some? && W.Covers(w, env.local(w.zone).value) {
      var i :| 0 <= i < |windows| && windows[i] == w;
    }
  }

  lemma PauseExact(f: Frequency, last: int, env: Env)
    ensures var next := NextAfter(f, last, env.addMonths);
            PauseKept(f, last, env) <==> next.Some? && env.now >= next.value
  {
  }

  /** A constraint accepts exactly what obeys it. */
  lemma ObeysExact(c: Constraint, closed: Closed, env: Env, key: string)
    ensures Evaluate(c, closed, env, key).Ok? <==> Obeys(c, closed.content, env, key)
  {
    match closed.content
    case Action(_, _, _, _, _) => ActionExact(c, closed.content, env);
    case CheckoutMandate(_, _) => CheckoutExact(c, env);
    case PaymentMandate(_, _, _, _, _, _) => PaymentExact(c, closed.content, env, key);
  }

  lemma ActionExact(c: Constraint, a: Content, env: Env)
    requires a.Action?
    ensures c.Delegation? || EvaluateAction(c, a, env).Ok? <==> ActionObeys(c, a, env)
  {
    if c.TimeWindows? { WindowsExact(c.windows, env); }
    if c.DataCategories? { AllListed(OrEmpty(a.categories), c.allowed); }
  }

  lemma AllListed(s: seq<string>, allowed: seq<string>)
    ensures (forall x :: x in s ==> x in allowed) <==> forall i :: 0 <= i < |s| ==> s[i] in allowed
  {
  }

  lemma CheckoutExact(c: Constraint, env: Env)
    ensures c.Delegation? || EvaluateCheckout(c, env).Ok? <==> CheckoutObeys(c, env.checkout)
  {
    if c.AllowedMerchants? && env.checkout.Some? && env.checkout.value.merchant.Some? {
      NamesExact(c.merchants, [], env.checkout.value.merchant.value.id);
    }
    if c.LineItems? {
      CM.VerdictMeaning(c.items, if env.checkout.Some? then Some(env.checkout.value.items) else None);
    }
  }

  lemma PaymentExact(c: Constraint, p: Content, env: Env, key: string)
    requires p.PaymentMandate?
    ensures c.Delegation? || EvaluatePayment(c, p, env, key).Ok? <==> PaymentObeys(c, p, env, key)
  {
    if c.AllowedPayees? { NamesExact(c.merchants, [], p.payee.id); }
    if c.AllowedInstruments? { NamesExact([], c.instruments, p.instrument.id); }
    if c.AgentRecurrence? && UsageKnown(env, key) && env.ledger.value(key).value.lastUse.Some? {
      PauseExact(c.frequency, env.ledger.value(key).value.lastUse.value, env);
    }
  }

  // ---- mandates and chains

  predicate SameFamily(family: Family, content: Content) {
    match family
    case Authority => content.Action?
    case Checkout => content.CheckoutMandate?
    case Payment => content.PaymentMandate?
  }

  /** The action is of the mandate's family, keeps its pre-set claims, has its ceiling and obeys its constraints. */
  ghost predicate Allowed(m: OpenMandate, closed: Closed, env: Env) {
    && SameFamily(m.family, closed.content)
    && (forall k :: k in m.presets ==> k in closed.claims && closed.claims[k] == m.presets[k])
    && (closed.content.Action? && closed.content.amount.Some? ==> exists c :: c in m.constraints && c.AmountCap?)
    && forall c :: c in m.constraints ==> Obeys(c, closed.content, env, m.key)
  }

  lemma AllowedExact(m: OpenMandate, closed: Closed, env: Env)
    ensures Accepts(m, closed, env).Ok? <==> Allowed(m, closed, env)
  {
    EvaluateAllMeaning(m.constraints, closed, env, m.key);
    PresetsKept(m.presets, closed.claims);
    forall i | 0 <= i < |m.constraints|
      ensures Evaluate(m.constraints[i], closed, env, m.key).Ok?
              <==> Obeys(m.constraints[i], closed.content, env, m.key)
    {
      ObeysExact(m.constraints[i], closed, env, m.key);
    }
    assert HasCeiling(m) <==> exists c :: c in m.constraints && c.AmountCap?;
  }

  /** A chain is accepted exactly when every mandate in it allows the action. */
  lemma ChainExact(opens: seq<OpenMandate>, closed: Closed, env: Env)
    ensures EvaluateChain(opens, closed, env).Ok? <==> forall m :: m in opens ==> Allowed(m, closed, env)
  {
    EvaluateChainMeaning(opens, closed, env);
    forall k | 0 <= k < |opens| ensures Accepts(opens[k], closed, env).Ok? <==> Allowed(opens[k], closed, env) {
      AllowedExact(opens[k], closed, env);
    }
  }

  // ---- why a mandate rejects

  /** The verifier lacks what it would need to decide, or the constraint is of another family. */
  predicate Unknown(c: Constraint, content: Content, env: Env, key: string) {
    match c
    case Delegation(_) => false
    case Actions(_) | Resources(_) | AmountCap(_, _) | Counterparties(_, _) | DataCategories(_) | TimeWindows(_) =>
      !content.Action?
    case AllowedMerchants(_) => !content.CheckoutMandate? || env.checkout.None?
    case LineItems(items) =>
      !content.CheckoutMandate?
      || CM.Undecidable(items, if env.checkout.Some? then Some(env.checkout.value.items) else None)
    case Budget(_, currency) =>
      !content.PaymentMandate? || (content.paid.currency == currency && !UsageKnown(env, key))
    case AgentRecurrence(_, _) => !content.PaymentMandate? || !UsageKnown(env, key)
    case Reference(_) => !content.PaymentMandate? || env.openCheckoutHash.None?
    case _ => !content.PaymentMandate?
  }

  /** A constraint that rejects does so as unresolved exactly when the verifier cannot know. */
  lemma UnresolvedExact(c: Constraint, closed: Closed, env: Env, key: string)
    ensures Evaluate(c, closed, env, key) == Err(CM.Unresolved) <==> Unknown(c, closed.content, env, key)
  {
    if c.LineItems? {
      CM.VerdictMeaning(c.items, if env.checkout.Some? then Some(env.checkout.value.items) else None);
    }
  }

  /** `cs[i]` is the first constraint that the action does not obey. */
  ghost predicate FirstBroken(cs: seq<Constraint>, i: nat, content: Content, env: Env, key: string) {
    && i < |cs| && !Obeys(cs[i], content, env, key)
    && forall j :: 0 <= j < i ==> Obeys(cs[j], content, env, key)
  }

  lemma {:induction false} FirstBrokenIs(cs: seq<Constraint>, closed: Closed, env: Env, key: string) returns (i: nat)
    requires EvaluateAll(cs, closed, env, key).Err?
    ensures FirstBroken(cs, i, closed.content, env, key)
    ensures EvaluateAll(cs, closed, env, key) ==
            Err(Rejected(TypeName(cs[i]),
                         if Unknown(cs[i], closed.content, env, key) then CM.Unresolved else CM.Violated))
  {
    ObeysExact(cs[0], closed, env, key);
    UnresolvedExact(cs[0], closed, env, key);
    if Evaluate(cs[0], closed, env, key).Err? {
      i := 0;
    } else {
      var k := FirstBrokenIs(cs[1..], closed, env, key);
      i := k + 1;
      assert forall j :: 1 <= j < |cs| ==> cs[j] == cs[1..][j - 1];
    }
  }

  /** What a rejection says, test by test in the order in which they are made. */
  ghost predicate Explains(m: OpenMandate, closed: Closed, env: Env, cause: Cause) {
    match cause
    case FamilyMismatch(open, _) => open == m.family && !SameFamily(m.family, closed.content)
    case Preset(k) =>
      && SameFamily(m.family, closed.content)
      && k in m.presets && (k !in closed.claims || closed.claims[k] != m.presets[k])
    case AmountWithoutCeiling =>
      && SameFamily(m.family, closed.content)
      && (forall k :: k in m.presets ==> k in closed.claims && closed.claims[k] == m.presets[k])
      && closed.content.Action? && closed.content.amount.Some? && forall c :: c in m.constraints ==> !c.AmountCap?
    case Rejected(name, failure) =>
      && SameFamily(m.family, closed.content)
      && (forall k :: k in m.presets ==> k in closed.claims && closed.claims[k] == m.presets[k])
      && exists i: nat :: && FirstBroken(m.constraints, i, closed.content, env, m.key)
                          && name == TypeName(m.constraints[i])
                          && (failure == CM.Unresolved <==> Unknown(m.constraints[i], closed.content, env, m.key))
  }

  lemma RejectionExplained(m: OpenMandate, closed: Closed, env: Env)
    requires Accepts(m, closed, env).Err?
    ensures Explains(m, closed, env, Accepts(m, closed, env).error)
  {
    PresetsKept(m.presets, closed.claims);
    FirstChangedMeaning(InOrder(m.presets.Keys), m.presets, closed.claims);
    if EvaluateAll(m.constraints, closed, env, m.key).Err? {
      var i := FirstBrokenIs(m.constraints, closed, env, m.key);
    }
    assert HasCeiling(m) <==> exists c :: c in m.constraints && c.AmountCap?;
  }
}
