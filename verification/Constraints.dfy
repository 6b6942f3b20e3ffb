/** Constraint types of open mandates: evaluation, and "at least as strict" (crates/authority/src/constraint). */
module Constraints {
  import opened Prelude
  import opened Json
  import opened TimeWindows
  import CM = CartMatching

  const I64_MAX: int := 0x7FFF_FFFF_FFFF_FFFF

  type Failure = CM.Failure

  datatype Family = Authority | Checkout | Payment

  datatype Amount = Amount(minor: nat, currency: string)

  datatype Merchant = Merchant(id: string, name: Option<string>, website: Option<string>)

  datatype Instrument = Instrument(id: string, kind: string)

  datatype Pisp = Pisp(legalName: string, brandName: string, domainName: string)

  datatype Frequency = OnDemand | Daily | Weekly | Biweekly | Monthly | Quarterly | Annually

  datatype Constraint =
    | Actions(allowed: seq<string>)
    | Resources(allowed: seq<string>)
    | AmountCap(max: nat, currency: string)
    | Counterparties(allow: Option<seq<string>>, deny: Option<seq<string>>)
    | DataCategories(allowed: seq<string>)
    | TimeWindows(windows: seq<Window>)
    | Delegation(maxDepth: nat)
    | AllowedMerchants(merchants: seq<Merchant>)
    | LineItems(items: seq<CM.Requirement>)
    | AmountRange(rangeCurrency: string, min: Option<nat>, rangeMax: nat)
    | AllowedPayees(merchants: seq<Merchant>)
    | AllowedInstruments(instruments: seq<Instrument>)
    | AllowedPisps(pisps: seq<Pisp>)
    | Budget(budgetMax: nat, budgetCurrency: string)
    | AgentRecurrence(frequency: Frequency, maxOccurrences: Option<nat>)
    | ExecutionDate(notBefore: Option<int>, notAfter: Option<int>)
    | Reference(id: string)

  datatype Content =
    | Action(action: string, resource: Option<string>, amount: Option<Amount>,
             counterparty: Option<string>, categories: Option<seq<string>>)
    | CheckoutMandate(checkoutJwt: Option<string>, checkoutHash: string)
    | PaymentMandate(transactionId: string, payee: Merchant, pisp: Option<Pisp>, paid: Amount,
                     instrument: Instrument, executionDate: Option<string>)

  datatype Closed = Closed(content: Content, claims: map<string, Json>)

  function FamilyOf(c: Content): Family {
    match c
    case Action(_, _, _, _, _) => Authority
    case CheckoutMandate(_, _) => Checkout
    case PaymentMandate(_, _, _, _, _, _) => Payment
  }

  /** Past use of one open mandate. */
  datatype Usage = Usage(total: nat, uses: nat, lastUse: Option<int>)

  datatype Cart = Cart(merchant: Option<Merchant>, items: seq<CM.Item>)

  type Minute = m: nat | m < 10080

  /**
   Everything a constraint may look at besides the closed mandate. `local` is the
   verifier's clock in a zone; a ledger answers per key or fails; dates and
   calendar months are read by foreign code.
   */
  datatype Env = Env(
    now: int,
    local: string -> Option<Minute>,
    openCheckoutHash: Option<string>,
    ledger: Option<string -> Option<Usage>>,
    checkout: Option<Cart>,
    instants: string -> Option<(int, int)>,
    addMonths: (int, nat) -> Option<int>)

  predicate NamesMerchant(merchants: seq<Merchant>, id: string) {
    exists i :: 0 <= i < |merchants| && merchants[i].id == id
  }

  predicate NamesInstrument(instruments: seq<Instrument>, id: string) {
    exists i :: 0 <= i < |instruments| && instruments[i].id == id
  }

  function Check(ok: bool): Result<(), Failure> {
    if ok then Ok(()) else Err(CM.Violated)
  }

  function OrZero(n: Option<nat>): nat {
    if n.Some? then n.value else 0
  }

  function OrEmpty(s: Option<seq<string>>): seq<string> {
    if s.Some? then s.value else []
  }

  /** The earliest time of the next use after a use at `last`. */
  function NextAfter(f: Frequency, last: int, addMonths: (int, nat) -> Option<int>): Option<int> {
    match f
    case OnDemand => Some(last)
    case Daily => AddSeconds(last, 86_400)
    case Weekly => AddSeconds(last, 7 * 86_400)
    case Biweekly => AddSeconds(last, 14 * 86_400)
    case Monthly => addMonths(last, 1)
    case Quarterly => addMonths(last, 3)
    case Annually => addMonths(last, 12)
  }

  /** `i64::checked_add` of a positive amount. */
  function AddSeconds(t: int, d: nat): Option<int> {
    if t + d <= I64_MAX then Some(t + d) else None
  }

  function EvaluateAction(c: Constraint, a: Content, env: Env): Result<(), Failure>
    requires a.Action?
  {
    match c
    case Actions(allowed) => Check(a.action in allowed)
    case Resources(allowed) => Check(a.resource.Some? && a.resource.value in allowed)
    case AmountCap(max, currency) =>
      Check(a.amount.Some? ==> a.amount.value.currency == currency && a.amount.value.minor <= max)
    case Counterparties(allow, deny) =>
      Check(a.counterparty.Some? && a.counterparty.value !in OrEmpty(deny)
            && (allow.Some? ==> a.counterparty.value in allow.value))
    case DataCategories(allowed) =>
      Check(forall i :: 0 <= i < |OrEmpty(a.categories)| ==> OrEmpty(a.categories)[i] in allowed)
    case TimeWindows(windows) =>
      Check(exists i ::
              && 0 <= i < |windows| && env.local(windows[i].zone).Some?
              && Covers(windows[i], env.local(windows[i].zone).value))
    case _ => Err(CM.Unresolved)
  }

  ghost function EvaluateCheckout(c: Constraint, env: Env): Result<(), Failure> {
    match c
    case AllowedMerchants(merchants) =>
      if env.checkout.None? then Err(CM.Unresolved)
      else Check(env.checkout.value.merchant.Some? && NamesMerchant(merchants, env.checkout.value.merchant.value.id))
    case LineItems(items) =>
      CM.Verdict(items, if env.checkout.Some? then Some(env.checkout.value.items) else None)
    case _ => Err(CM.Unresolved)
  }

  function UsageOf(env: Env, key: string): Option<Usage> {
    if env.ledger.Some? then env.ledger.value(key) else None
  }

  function EvaluatePayment(c: Constraint, p: Content, env: Env, key: string): Result<(), Failure>
    requires p.PaymentMandate?
  {
    match c
    case AmountRange(currency, min, max) => Check(p.paid.currency == currency && OrZero(min) <= p.paid.minor <= max)
    case AllowedPayees(merchants) => Check(NamesMerchant(merchants, p.payee.id))
    case AllowedInstruments(instruments) => Check(NamesInstrument(instruments, p.instrument.id))
    case AllowedPisps(pisps) => Check(p.pisp.Some? && p.pisp.value in pisps)
    case Budget(max, currency) =>
      if p.paid.currency != currency then Err(CM.Violated)
      else if UsageOf(env, key).None? then Err(CM.Unresolved)
      else
        var total := UsageOf(env, key).value.total + p.paid.minor;
        Check(total <= CM.U64_MAX && total <= max)
    case AgentRecurrence(frequency, maxOccurrences) =>
      if UsageOf(env, key).None? then Err(CM.Unresolved)
      else
        var u := UsageOf(env, key).value;
        Check((maxOccurrences.Some? ==> u.uses < maxOccurrences.value)
              && (u.lastUse.Some? ==>
                    var next := NextAfter(frequency, u.lastUse.value, env.addMonths);
                    next.Some? && env.now >= next.value))
    case ExecutionDate(notBefore, notAfter) =>
      var range := if p.executionDate.None? then Some((env.now, env.now)) else env.instants(p.executionDate.value);
      Check(range.Some? && (notBefore.Some? ==> range.value.0 >= notBefore.value)
            && (notAfter.Some? ==> range.value.1 <= notAfter.value))
    case Reference(id) =>
      if env.openCheckoutHash.None? then Err(CM.Unresolved) else Check(env.openCheckoutHash.value == id)
    case _ => Err(CM.Unresolved)
  }

  /** Does the constraint accept `closed`? A constraint of another family never does. */
  ghost function Evaluate(c: Constraint, closed: Closed, env: Env, key: string): Result<(), Failure> {
    if c.Delegation? then Ok(())
    else match closed.content
      case Action(_, _, _, _, _) => EvaluateAction(c, closed.content, env)
      case CheckoutMandate(_, _) => EvaluateCheckout(c, env)
      case PaymentMandate(_, _, _, _, _, _) => EvaluatePayment(c, closed.content, env, key)
  }

  predicate Stateful(c: Constraint) {
    c.Budget? || c.AgentRecurrence?
  }

  function TypeName(c: Constraint): string {
    match c
    case Actions(_) => "aap.actions"
    case Resources(_) => "aap.resources"
    case AmountCap(_, _) => "aap.amount"
    case Counterparties(_, _) => "aap.counterparties"
    case DataCategories(_) => "aap.data_categories"
    case TimeWindows(_) => "aap.time_windows"
    case Delegation(_) => "aap.delegation"
    case AllowedMerchants(_) => "checkout.allowed_merchants"
    case LineItems(_) => "checkout.line_items"
    case AmountRange(_, _, _) => "payment.amount_range"
    case AllowedPayees(_) => "payment.allowed_payees"
    case AllowedInstruments(_) => "payment.allowed_payment_instruments"
    case AllowedPisps(_) => "payment.allowed_pisps"
    case Budget(_, _) => "payment.budget"
    case AgentRecurrence(_, _) => "payment.agent_recurrence"
    case ExecutionDate(_, _) => "payment.execution_date"
    case Reference(_) => "payment.reference"
  }

  // ---- at least as strict

  predicate Subset(inner: seq<string>, outer: seq<string>) {
    forall i :: 0 <= i < |inner| ==> inner[i] in outer
  }

  predicate NoLater(outer: Option<int>, inner: Option<int>) {
    outer.Some? ==> inner.Some? && inner.value <= outer.value
  }

  predicate NoEarlier(outer: Option<int>, inner: Option<int>) {
    outer.Some? ==> inner.Some? && inner.value >= outer.value
  }

  /** Is `c` at least as strict as `p`? `false` whenever that is not shown cheaply. */
  predicate Strictens(p: Constraint, c: Constraint) {
    match (p, c)
    case (Actions(pa), Actions(ca)) => Subset(ca, pa)
    case (Resources(pa), Resources(ca)) => Subset(ca, pa)
    case (DataCategories(pa), DataCategories(ca)) => Subset(ca, pa)
    case (AmountCap(pm, pc), AmountCap(cm, cc)) => pc == cc && cm <= pm
    case (Counterparties(pal, pd), Counterparties(cal, cd)) =>
      && (pal.Some? ==> cal.Some? && Subset(cal.value, pal.value))
      && Subset(OrEmpty(pd), OrEmpty(cd))
    case (TimeWindows(pw), TimeWindows(cw)) => forall i :: 0 <= i < |cw| ==> CoveredBy(cw[i], pw)
    case (Delegation(_), Delegation(_)) => true
    case (AllowedMerchants(pm), AllowedMerchants(cm)) => forall i :: 0 <= i < |cm| ==> NamesMerchant(pm, cm[i].id)
    case (AllowedPayees(pm), AllowedPayees(cm)) => forall i :: 0 <= i < |cm| ==> NamesMerchant(pm, cm[i].id)
    case (LineItems(pi), LineItems(ci)) => pi == ci
    case (AmountRange(pc, pmin, pmax), AmountRange(cc, cmin, cmax)) =>
      pc == cc && cmax <= pmax && OrZero(cmin) >= OrZero(pmin)
    case (AllowedInstruments(pi), AllowedInstruments(ci)) =>
      forall i :: 0 <= i < |ci| ==> NamesInstrument(pi, ci[i].id)
    case (AllowedPisps(pp), AllowedPisps(cp)) => forall i :: 0 <= i < |cp| ==> cp[i] in pp
    case (Budget(pm, pc), Budget(cm, cc)) => pc == cc && cm <= pm
    case (AgentRecurrence(pf, pm), AgentRecurrence(cf, cm)) =>
      pf == cf && (pm.Some? ==> cm.Some? && cm.value <= pm.value)
    case (ExecutionDate(pb, pa), ExecutionDate(cb, ca)) => NoEarlier(pb, cb) && NoLater(pa, ca)
    case (Reference(pid), Reference(cid)) => pid == cid
    case _ => false
  }

  /**
   What the stricter constraint accepts, the other accepts; for counters, when both ledger keys
   report the same usage.
   */
  lemma StrictensSound(p: Constraint, c: Constraint, closed: Closed, env: Env, pk: string, ck: string)
    requires Strictens(p, c) && Evaluate(c, closed, env, ck).Ok?
    requires Stateful(p) ==> UsageOf(env, pk) == UsageOf(env, ck)
    ensures Evaluate(p, closed, env, pk).Ok?
  {
    match (p, c)
    case (TimeWindows(pw), TimeWindows(cw)) =>
      if closed.content.Action? {
        var i :| 0 <= i < |cw| && env.local(cw[i].zone).Some? && Covers(cw[i], env.local(cw[i].zone).value);
        var m := env.local(cw[i].zone).value;
        assert CoveredBy(cw[i], pw);
        var k :| 0 <= k < |pw| && pw[k].zone == cw[i].zone && Covers(pw[k], m);
      }
    case _ =>
  }

  lemma StrictensReflexive(c: Constraint)
    ensures Strictens(c, c)
  {
    if c.TimeWindows? {
      forall i | 0 <= i < |c.windows| ensures CoveredBy(c.windows[i], c.windows) { }
    } else if c.AllowedMerchants? || c.AllowedPayees? {
      forall i | 0 <= i < |c.merchants| ensures NamesMerchant(c.merchants, c.merchants[i].id) { }
    } else if c.AllowedInstruments? {
      forall i | 0 <= i < |c.instruments| ensures NamesInstrument(c.instruments, c.instruments[i].id) { }
    }
  }

  lemma StrictensTransitive(a: Constraint, b: Constraint, c: Constraint)
    requires Strictens(a, b) && Strictens(b, c)
    ensures Strictens(a, c)
  {
    if a.TimeWindows? {
      forall i | 0 <= i < |c.windows|
        ensures CoveredBy(c.windows[i], a.windows)
      {
        CoveredTransitive(c.windows[i], b.windows, a.windows);
      }
    } else if a.AllowedMerchants? || a.AllowedPayees? {
      NamesTransitive(a.merchants, b.merchants, c.merchants);
    } else if a.AllowedInstruments? {
      InstrumentsTransitive(a.instruments, b.instruments, c.instruments);
    } else if a.Actions? || a.Resources? || a.DataCategories? {
      SubsetTransitive(c.allowed, b.allowed, a.allowed);
    } else if a.Counterparties? {
      SubsetTransitive(OrEmpty(a.deny), OrEmpty(b.deny), OrEmpty(c.deny));
      if a.allow.Some? { SubsetTransitive(c.allow.value, b.allow.value, a.allow.value); }
    }
  }

  lemma SubsetTransitive(a: seq<string>, b: seq<string>, c: seq<string>)
    requires Subset(a, b) && Subset(b, c)
    ensures Subset(a, c)
  {
  }

  lemma InstrumentsTransitive(a: seq<Instrument>, b: seq<Instrument>, c: seq<Instrument>)
    requires (forall i :: 0 <= i < |b| ==> NamesInstrument(a, b[i].id))
               && (forall i :: 0 <= i < |c| ==> NamesInstrument(b, c[i].id))
    ensures forall i :: 0 <= i < |c| ==> NamesInstrument(a, c[i].id)
  {
    forall i | 0 <= i < |c| ensures NamesInstrument(a, c[i].id) {
      assert NamesInstrument(b, c[i].id);
      var j :| 0 <= j < |b| && b[j].id == c[i].id;
      assert NamesInstrument(a, b[j].id);
    }
  }

  lemma NamesTransitive(a: seq<Merchant>, b: seq<Merchant>, c: seq<Merchant>)
    requires (forall i :: 0 <= i < |b| ==> NamesMerchant(a, b[i].id))
               && (forall i :: 0 <= i < |c| ==> NamesMerchant(b, c[i].id))
    ensures forall i :: 0 <= i < |c| ==> NamesMerchant(a, c[i].id)
  {
    forall i | 0 <= i < |c| ensures NamesMerchant(a, c[i].id) {
      assert NamesMerchant(b, c[i].id);
      var j :| 0 <= j < |b| && b[j].id == c[i].id;
      assert NamesMerchant(a, b[j].id);
    }
  }
}
