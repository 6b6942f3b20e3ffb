/** When "at least as strict" says exactly what it should (crates/authority/src/constraint/mod.rs `covers`). */
module Strictness {
  // The test may answer "no" where that is not shown cheaply. For the types below it never
  // does: a constraint is at least as strict exactly when the other accepts all that it accepts.

  import opened Prelude
  import opened Constraints
  import CM = CartMatching
  import W = TimeWindows

  /** Whatever `c` accepts, wherever and whenever, `p` accepts. */
  ghost predicate AcceptsAll(p: Constraint, c: Constraint) {
    forall closed, env, key :: Evaluate(c, closed, env, key).Ok? ==> Evaluate(p, closed, env, key).Ok?
  }

  /** Constraints of one type for which the test is exact; a range has to contain an amount. */
  predicate Tested(p: Constraint, c: Constraint) {
    match (p, c)
    case (Actions(_), Actions(_)) => true
    case (Resources(_), Resources(_)) => true
    case (AmountCap(_, _), AmountCap(_, _)) => true
    case (DataCategories(_), DataCategories(_)) => true
    case (TimeWindows(_), TimeWindows(_)) => true
    case (Delegation(_), Delegation(_)) => true
    case (AllowedMerchants(_), AllowedMerchants(_)) => true
    case (AllowedPayees(_), AllowedPayees(_)) => true
    case (AllowedInstruments(_), AllowedInstruments(_)) => true
    case (AllowedPisps(_), AllowedPisps(_)) => true
    case (AmountRange(_, _, _), AmountRange(_, min, max)) => OrZero(min) <= max
    case (Budget(_, _), Budget(max, _)) => max <= CM.U64_MAX
    case (Reference(_), Reference(_)) => true
    case _ => false
  }

  const NOTHING_KNOWN: Env :=
    Env(0, (_: string) => None, None, Some((_: string) => Some(Usage(0, 0, None))), None, (_: string) => None,
        (_: int, _: nat) => None)

  const NO_ACTION: Content := Action("", None, None, None, None)

  const NO_PAYMENT: Content :=
    PaymentMandate("", Merchant("", None, None), None, Amount(0, ""), Instrument("", ""), None)

  function Closing(content: Content): Closed {
    Closed(content, map[])
  }

  lemma TestSound(p: Constraint, c: Constraint)
    requires Tested(p, c) && Strictens(p, c)
    ensures AcceptsAll(p, c)
  {
    forall closed, env, key | Evaluate(c, closed, env, key).Ok? ensures Evaluate(p, closed, env, key).Ok? {
      StrictensSound(p, c, closed, env, key, key);
    }
  }

  lemma TestNeeded(p: Constraint, c: Constraint)
    requires Tested(p, c) && AcceptsAll(p, c)
    ensures Strictens(p, c)
  {
    if c.Actions? || c.Resources? || c.AmountCap? || c.DataCategories? || c.TimeWindows? {
      ActionNeeded(p, c);
    } else if c.AllowedMerchants? {
      MerchantsNeeded(p, c);
    } else if !c.Delegation? {
      PaymentNeeded(p, c);
    }
  }

  /** The test is exact. */
  lemma StrictensExact(p: Constraint, c: Constraint)
    requires Tested(p, c)
    ensures Strictens(p, c) <==> AcceptsAll(p, c)
  {
    if Strictens(p, c) { TestSound(p, c); }
    if AcceptsAll(p, c) { TestNeeded(p, c); }
  }

  lemma ActionNeeded(p: Constraint, c: Constraint)
    requires Tested(p, c) && AcceptsAll(p, c)
    requires c.Actions? || c.Resources? || c.AmountCap? || c.DataCategories? || c.TimeWindows?
    ensures Strictens(p, c)
  {
    match c
    case Actions(allowed) =>
      forall i | 0 <= i < |allowed| ensures allowed[i] in p.allowed {
        Try(p, c, NO_ACTION.(action := allowed[i]), NOTHING_KNOWN);
      }
    case Resources(allowed) =>
      forall i | 0 <= i < |allowed| ensures allowed[i] in p.allowed {
        Try(p, c, NO_ACTION.(resource := Some(allowed[i])), NOTHING_KNOWN);
      }
    case AmountCap(max, currency) => Try(p, c, NO_ACTION.(amount := Some(Amount(max, currency))), NOTHING_KNOWN);
    case DataCategories(allowed) =>
      forall i | 0 <= i < |allowed| ensures allowed[i] in p.allowed {
        var a := NO_ACTION.(categories := Some([allowed[i]]));
        Try(p, c, a, NOTHING_KNOWN);
        assert OrEmpty(a.categories)[0] == allowed[i];
      }
    case TimeWindows(windows) =>
      forall i | 0 <= i < |windows| ensures W.CoveredBy(windows[i], p.windows) { WindowNeeded(p, c, i); }
  }

  /** What `c` accepts in one case, `p` accepts in that case. */
  lemma Try(p: Constraint, c: Constraint, content: Content, env: Env)
    requires AcceptsAll(p, c)
    ensures Evaluate(c, Closing(content), env, "").Ok? ==> Evaluate(p, Closing(content), env, "").Ok?
  {
  }

  lemma WindowNeeded(p: Constraint, c: Constraint, i: nat)
    requires p.TimeWindows? && c.TimeWindows? && i < |c.windows| && AcceptsAll(p, c)
    ensures W.CoveredBy(c.windows[i], p.windows)
  {
    var w := c.windows[i];
    forall m | 0 <= m < W.WEEK && W.Covers(w, m)
      ensures exists k :: 0 <= k < |p.windows| && p.windows[k].zone == w.zone && W.Covers(p.windows[k], m)
    {
      var minute: Minute := m;
      var env := NOTHING_KNOWN.(local := z => if z == w.zone then Some(minute) else None);
      assert env.local(w.zone) == Some(minute);
      Try(p, c, NO_ACTION, env);
      var k :| 0 <= k < |p.windows| && env.local(p.windows[k].zone).Some?
               && W.Covers(p.windows[k], env.local(p.windows[k].zone).value);
    }
  }

  lemma MerchantsNeeded(p: Constraint, c: Constraint)
    requires p.AllowedMerchants? && c.AllowedMerchants? && AcceptsAll(p, c)
    ensures Strictens(p, c)
  {
    forall i | 0 <= i < |c.merchants| ensures NamesMerchant(p.merchants, c.merchants[i].id) {
      Try(p, c, CheckoutMandate(None, ""), NOTHING_KNOWN.(checkout := Some(Cart(Some(c.merchants[i]), []))));
    }
  }

  lemma PaymentNeeded(p: Constraint, c: Constraint)
    requires Tested(p, c) && AcceptsAll(p, c)
    requires c.AllowedPayees? || c.AllowedInstruments? || c.AllowedPisps? || c.AmountRange? || c.Budget?
               || c.Reference?
    ensures Strictens(p, c)
  {
    match c
    case AllowedPayees(merchants) =>
      forall i | 0 <= i < |merchants| ensures NamesMerchant(p.merchants, merchants[i].id) {
        Try(p, c, NO_PAYMENT.(payee := merchants[i]), NOTHING_KNOWN);
      }
    case AllowedInstruments(instruments) =>
      forall i | 0 <= i < |instruments| ensures NamesInstrument(p.instruments, instruments[i].id) {
        Try(p, c, NO_PAYMENT.(instrument := instruments[i]), NOTHING_KNOWN);
      }
    case AllowedPisps(pisps) =>
      forall i | 0 <= i < |pisps| ensures pisps[i] in p.pisps {
        Try(p, c, NO_PAYMENT.(pisp := Some(pisps[i])), NOTHING_KNOWN);
      }
    case AmountRange(currency, min, max) =>
      Try(p, c, NO_PAYMENT.(paid := Amount(max, currency)), NOTHING_KNOWN);
      Try(p, c, NO_PAYMENT.(paid := Amount(OrZero(min), currency)), NOTHING_KNOWN);
    case Budget(max, currency) => Try(p, c, NO_PAYMENT.(paid := Amount(max, currency)), NOTHING_KNOWN);
    case Reference(id) => Try(p, c, NO_PAYMENT, NOTHING_KNOWN.(openCheckoutHash := Some(id)));
  }
}
