/** Runs of decisions against a usage ledger (crates/authority/src/verifier.rs). */
module Ledger {
  // The caller records every accepted use under all returned ledger keys before the
  // next decision.

  import opened Prelude
  import opened Constraints
  import opened Mandates
  import CM = CartMatching

  /** One presentation: its open mandates, root first, the closed mandate and what the verifier knows. */
  datatype Request = Request(
    opens: seq<OpenMandate>,
    closed: Closed,
    env: Env,
    reachable: string -> bool,
    hasLedger: bool)

  function Minor(closed: Closed): nat {
    if closed.content.PaymentMandate? then closed.content.paid.minor else 0
  }

  function UsageAt(ledger: map<string, Usage>, key: string): Usage {
    if key in ledger then ledger[key] else Usage(0, 0, None)
  }

  /** The environment of a request when the ledger holds `ledger`. */
  function EnvFor(r: Request, ledger: map<string, Usage>): Env {
    var answer := (k: string) => if r.reachable(k) then Some(UsageAt(ledger, k)) else None;
    r.env.(ledger := if r.hasLedger then Some(answer) else None)
  }

  function RecordOne(ledger: map<string, Usage>, key: string, minor: nat, now: int): map<string, Usage> {
    var u := UsageAt(ledger, key);
    ledger[key := Usage(u.total + minor, u.uses + 1, Some(now))]
  }

  /** Records one use under the key of every open mandate. */
  function Record(ledger: map<string, Usage>, opens: seq<OpenMandate>, minor: nat, now: int): map<string, Usage>
    decreases |opens|
  {
    if opens == [] then ledger
    else Record(RecordOne(ledger, opens[0].key, minor, now), opens[1..], minor, now)
  }

  datatype State = State(ledger: map<string, Usage>, log: seq<Request>)

  ghost function Decide(s: State, r: Request): State {
    if EvaluateChain(r.opens, r.closed, EnvFor(r, s.ledger)).Ok?
    then State(Record(s.ledger, r.opens, Minor(r.closed), r.env.now), s.log + [r])
    else s
  }

  ghost function Run(requests: seq<Request>): State {
    if requests == [] then State(map[], [])
    else Decide(Run(requests[..|requests| - 1]), requests[|requests| - 1])
  }

  // ---- what was accepted, read off the log alone

  predicate HasKey(opens: seq<OpenMandate>, key: string) {
    exists i :: 0 <= i < |opens| && opens[i].key == key
  }

  predicate Draws(r: Request, key: string) {
    HasKey(r.opens, key)
  }

  /** Sum of the amounts accepted under `key`, through whichever sub-delegation. */
  function Spent(log: seq<Request>, key: string): nat {
    if log == [] then 0
    else Spent(log[..|log| - 1], key) + if Draws(log[|log| - 1], key) then Minor(log[|log| - 1].closed) else 0
  }

  function Uses(log: seq<Request>, key: string): nat {
    if log == [] then 0
    else Uses(log[..|log| - 1], key) + if Draws(log[|log| - 1], key) then 1 else 0
  }

  function LastUse(log: seq<Request>, key: string): Option<int> {
    if log == [] then None
    else if Draws(log[|log| - 1], key) then Some(log[|log| - 1].env.now)
    else LastUse(log[..|log| - 1], key)
  }

  /** `u` counts at least what the log holds; the last use is exact. */
  predicate Counts(u: Usage, log: seq<Request>, key: string) {
    Spent(log, key) <= u.total && Uses(log, key) <= u.uses && u.lastUse == LastUse(log, key)
  }

  lemma {:induction false} RecordCounts(ledger: map<string, Usage>, opens: seq<OpenMandate>, minor: nat, now: int,
                                        key: string)
    ensures var u, v := UsageAt(ledger, key), UsageAt(Record(ledger, opens, minor, now), key);
            if HasKey(opens, key)
            then v.total >= u.total + minor && v.uses >= u.uses + 1 && v.lastUse == Some(now)
            else v == u
    decreases |opens|
  {
    if opens != [] {
      var next := RecordOne(ledger, opens[0].key, minor, now);
      RecordCounts(next, opens[1..], minor, now, key);
      assert forall i :: 1 <= i < |opens| ==> opens[i] == opens[1..][i - 1];
    }
  }

  /** What acceptance by `m` means once the log `before` has been recorded: nothing here mentions the ledger. */
  ghost predicate WithinLimits(m: OpenMandate, before: seq<Request>, r: Request) {
    forall i :: 0 <= i < |m.constraints| ==> WithinLimit(m.constraints[i], m.key, before, r)
  }

  ghost predicate WithinLimit(c: Constraint, key: string, before: seq<Request>, r: Request) {
    match c
    case Budget(max, currency) =>
      && r.closed.content.PaymentMandate? && r.closed.content.paid.currency == currency
      && Spent(before, key) + Minor(r.closed) <= max
    case AgentRecurrence(frequency, maxOccurrences) =>
      && (maxOccurrences.Some? ==> Uses(before, key) + 1 <= maxOccurrences.value)
      && (LastUse(before, key).Some? ==>
            var next := NextAfter(frequency, LastUse(before, key).value, r.env.addMonths);
            next.Some? && r.env.now >= next.value)
    case _ => true
  }

  lemma AcceptedWithin(c: Constraint, key: string, s: State, r: Request)
    requires Counts(UsageAt(s.ledger, key), s.log, key)
    requires Evaluate(c, r.closed, EnvFor(r, s.ledger), key).Ok?
    ensures WithinLimit(c, key, s.log, r)
  {
    var env := EnvFor(r, s.ledger);
    assert UsageOf(env, key).Some? ==> UsageOf(env, key).value == UsageAt(s.ledger, key);
    match c
    case Budget(_, _) =>
    case AgentRecurrence(_, _) =>
    case _ =>
  }

  ghost predicate Lawful(log: seq<Request>) {
    forall i :: 0 <= i < |log| ==> LawfulAt(log, i)
  }

  /** Entry `i` respected every budget and recurrence of every mandate in its chain. */
  ghost predicate LawfulAt(log: seq<Request>, i: nat)
    requires i < |log|
  {
    forall k :: 0 <= k < |log[i].opens| ==> WithinLimits(log[i].opens[k], log[..i], log[i])
  }

  lemma DecideKeeps(s: State, r: Request)
    requires Lawful(s.log) && forall key :: Counts(UsageAt(s.ledger, key), s.log, key)
    ensures var t := Decide(s, r); Lawful(t.log) && forall key :: Counts(UsageAt(t.ledger, key), t.log, key)
  {
    var env := EnvFor(r, s.ledger);
    if EvaluateChain(r.opens, r.closed, env).Ok? {
      var t := Decide(s, r);
      assert t.log[..|t.log| - 1] == s.log;
      forall key ensures Counts(UsageAt(t.ledger, key), t.log, key) {
        RecordCounts(s.ledger, r.opens, Minor(r.closed), r.env.now, key);
        assert Counts(UsageAt(s.ledger, key), s.log, key);
      }
      EvaluateChainMeaning(r.opens, r.closed, env);
      forall k | 0 <= k < |r.opens| ensures WithinLimits(r.opens[k], s.log, r) { ChainLinkWithin(s, r, k); }
      forall i | 0 <= i < |t.log| ensures LawfulAt(t.log, i) {
        assert t.log[..i] == s.log[..i];
        if i < |s.log| { assert LawfulAt(s.log, i); }
      }
    }
  }

  lemma ChainLinkWithin(s: State, r: Request, k: nat)
    requires forall key :: Counts(UsageAt(s.ledger, key), s.log, key)
    requires k < |r.opens| && Accepts(r.opens[k], r.closed, EnvFor(r, s.ledger)).Ok?
    ensures WithinLimits(r.opens[k], s.log, r)
  {
    var m := r.opens[k];
    EvaluateAllMeaning(m.constraints, r.closed, EnvFor(r, s.ledger), m.key);
    forall i | 0 <= i < |m.constraints| ensures WithinLimit(m.constraints[i], m.key, s.log, r) {
      assert Counts(UsageAt(s.ledger, m.key), s.log, m.key);
      AcceptedWithin(m.constraints[i], m.key, s, r);
    }
  }

  /** In every run, every accepted use respected every limit of every mandate above it. */
  lemma {:induction false} RunLawful(requests: seq<Request>)
    ensures var s := Run(requests); Lawful(s.log) && forall key :: Counts(UsageAt(s.ledger, key), s.log, key)
  {
    if requests != [] {
      RunLawful(requests[..|requests| - 1]);
      DecideKeeps(Run(requests[..|requests| - 1]), requests[|requests| - 1]);
    }
  }

  /** Every accepted use under `key` showed the mandate with constraint `c`. */
  predicate AlwaysCarries(log: seq<Request>, key: string, c: Constraint) {
    forall i, k :: 0 <= i < |log| && 0 <= k < |log[i].opens| && log[i].opens[k].key == key ==>
          c in log[i].opens[k].constraints
  }

  lemma {:induction false} LawfulSpent(log: seq<Request>, key: string, max: nat, currency: string)
    requires Lawful(log) && AlwaysCarries(log, key, Budget(max, currency))
    ensures Spent(log, key) <= max
  {
    if log != [] {
      var n := |log| - 1;
      var before := log[..n];
      forall i | 0 <= i < n ensures LawfulAt(before, i) {
        assert LawfulAt(log, i) && before[..i] == log[..i];
      }
      LawfulSpent(before, key, max, currency);
      if Draws(log[n], key) {
        var k :| 0 <= k < |log[n].opens| && log[n].opens[k].key == key;
        assert LawfulAt(log, n);
        LimitApplies(log[n].opens[k], before, log[n], Budget(max, currency));
      }
    }
  }

  lemma LimitApplies(m: OpenMandate, before: seq<Request>, r: Request, c: Constraint)
    requires WithinLimits(m, before, r) && c in m.constraints
    ensures WithinLimit(c, m.key, before, r)
  {
  }

  lemma {:induction false} LawfulUses(log: seq<Request>, key: string, frequency: Frequency, max: nat)
    requires Lawful(log) && AlwaysCarries(log, key, AgentRecurrence(frequency, Some(max)))
    ensures Uses(log, key) <= max
  {
    if log != [] {
      var n := |log| - 1;
      var before := log[..n];
      forall i | 0 <= i < n ensures LawfulAt(before, i) {
        assert LawfulAt(log, i) && before[..i] == log[..i];
      }
      LawfulUses(before, key, frequency, max);
      if Draws(log[n], key) {
        var k :| 0 <= k < |log[n].opens| && log[n].opens[k].key == key;
        assert LawfulAt(log, n);
        LimitApplies(log[n].opens[k], before, log[n], AgentRecurrence(frequency, Some(max)));
      }
    }
  }

  /** Only what was requested is accepted. */
  lemma {:induction false} LogRequested(requests: seq<Request>, i: nat)
    requires i < |Run(requests).log|
    ensures Run(requests).log[i] in requests
  {
    if requests != [] {
      var before := requests[..|requests| - 1];
      assert forall r :: r in before ==> r in requests;
      if i < |Run(before).log| { LogRequested(before, i); }
    }
  }

  lemma RequestsCarry(requests: seq<Request>, key: string, c: Constraint)
    requires AlwaysCarries(requests, key, c)
    ensures AlwaysCarries(Run(requests).log, key, c)
  {
    var log := Run(requests).log;
    forall i, k | 0 <= i < |log| && 0 <= k < |log[i].opens| && log[i].opens[k].key == key
      ensures c in log[i].opens[k].constraints
    {
      LogRequested(requests, i);
      var j :| 0 <= j < |requests| && requests[j] == log[i];
      assert requests[j].opens[k].key == key;
    }
  }

  /** No run spends more under a mandate than a budget that every presentation of it shows. */
  lemma BudgetHolds(requests: seq<Request>, key: string, max: nat, currency: string)
    requires AlwaysCarries(requests, key, Budget(max, currency))
    ensures Spent(Run(requests).log, key) <= max
  {
    RequestsCarry(requests, key, Budget(max, currency));
    RunLawful(requests);
    LawfulSpent(Run(requests).log, key, max, currency);
  }

  lemma OccurrencesHold(requests: seq<Request>, key: string, frequency: Frequency, max: nat)
    requires AlwaysCarries(requests, key, AgentRecurrence(frequency, Some(max)))
    ensures Uses(Run(requests).log, key) <= max
  {
    RequestsCarry(requests, key, AgentRecurrence(frequency, Some(max)));
    RunLawful(requests);
    LawfulUses(Run(requests).log, key, frequency, max);
  }

  // ---- a budget that is not shown

  function Paying(key: string, cs: seq<Constraint>, closed: Closed, env: Env): Request {
    Request([OpenMandate(Payment, cs, map[], 0, key)], closed, env, (_: string) => true, true)
  }

  /**
   A mandate shown with nothing in it accepts; shown with a budget that the payment just fills, it
   accepts the first time.
   */
  lemma PayingAccepted(key: string, b: Constraint, closed: Closed, env: Env, s: State)
    requires b.Budget? && closed.content.PaymentMandate?
               && closed.content.paid == Amount(b.budgetMax, b.budgetCurrency)
    requires b.budgetMax <= CM.U64_MAX
    ensures var r := Paying(key, [], closed, env); EvaluateChain(r.opens, closed, EnvFor(r, s.ledger)).Ok?
    ensures UsageAt(s.ledger, key).total == 0 ==>
              var r := Paying(key, [b], closed, env); EvaluateChain(r.opens, closed, EnvFor(r, s.ledger)).Ok?
  {
    var shown, hidden := Paying(key, [b], closed, env), Paying(key, [], closed, env);
    EvaluateChainMeaning(hidden.opens, closed, EnvFor(hidden, s.ledger));
    EvaluateChainMeaning(shown.opens, closed, EnvFor(shown, s.ledger));
    BudgetAlone(shown.opens[0], closed, EnvFor(shown, s.ledger));
    PresetsKept(map[], closed.claims);
    assert Accepts(hidden.opens[0], closed, EnvFor(hidden, s.ledger)).Ok?;
  }

  lemma RunSnoc(requests: seq<Request>, r: Request)
    requires EvaluateChain(r.opens, r.closed, EnvFor(r, Run(requests).ledger)).Ok?
    ensures Run(requests + [r]).log == Run(requests).log + [r]
  {
    assert (requests + [r])[..|requests|] == requests;
  }

  lemma RunOne(r: Request)
    requires EvaluateChain(r.opens, r.closed, EnvFor(r, map[])).Ok?
    ensures Run([r]).log == [r]
  {
    RunSnoc([], r);
    assert [] + [r] == [r];
  }

  lemma SpentTwo(a: Request, b: Request, key: string)
    requires Draws(a, key) && Draws(b, key)
    ensures Spent([a] + [b], key) == Minor(a.closed) + Minor(b.closed)
  {
    assert [] + [a] == [a];
    LogAppend([], a, key);
    LogAppend([a], b, key);
  }

  /**
   The ledger key does not change with what is disclosed: withhold the budget the second time, and
   twice the budget is spent.
   */
  lemma WithheldBudgetOverspends(key: string, b: Constraint, closed: Closed, env: Env)
    requires b.Budget? && closed.content.PaymentMandate?
    requires closed.content.paid == Amount(b.budgetMax, b.budgetCurrency) && b.budgetMax <= CM.U64_MAX
    ensures Spent(Run([Paying(key, [b], closed, env)] + [Paying(key, [], closed, env)]).log, key) == 2 * b.budgetMax
  {
    var first, second := Paying(key, [b], closed, env), Paying(key, [], closed, env);
    PayingAccepted(key, b, closed, env, State(map[], []));
    RunOne(first);
    PayingAccepted(key, b, closed, env, Run([first]));
    RunSnoc([first], second);
    assert first.opens[0].key == key && second.opens[0].key == key;
    SpentTwo(first, second, key);
  }

  predicate SilentBetween(log: seq<Request>, i: nat, j: nat, key: string)
    requires j <= |log|
  {
    forall k :: i < k < j ==> !Draws(log[k], key)
  }

  lemma {:induction false} LastUseIs(log: seq<Request>, i: nat, key: string)
    requires i < |log| && Draws(log[i], key) && SilentBetween(log, i, |log|, key)
    ensures LastUse(log, key) == Some(log[i].env.now)
  {
    if i < |log| - 1 {
      var before := log[..|log| - 1];
      assert forall k :: i < k < |before| ==> before[k] == log[k];
      LastUseIs(before, i, key);
    }
  }

  /** The later of two consecutive uses, if it shows a recurrence, is at least its interval after the earlier. */
  lemma ConsecutiveUsesApart(requests: seq<Request>, i: nat, j: nat, k: nat, key: string, c: Constraint)
    requires var log := Run(requests).log;
             && i < j < |log| && Draws(log[i], key) && SilentBetween(log, i, j, key)
             && k < |log[j].opens| && log[j].opens[k].key == key && c in log[j].opens[k].constraints
    requires c.AgentRecurrence?
    ensures var log := Run(requests).log;
            var next := NextAfter(c.frequency, log[i].env.now, log[j].env.addMonths);
            next.Some? && log[j].env.now >= next.value
  {
    var log := Run(requests).log;
    RunLawful(requests);
    assert LawfulAt(log, j);
    LimitApplies(log[j].opens[k], log[..j], log[j], c);
    assert SilentBetween(log[..j], i, j, key);
    LastUseIs(log[..j], i, key);
  }

  // ---- no double counting

  predicate DistinctKeys(r: Request) {
    forall i, j :: 0 <= i < j < |r.opens| ==> r.opens[i].key != r.opens[j].key
  }

  lemma {:induction false} RecordOnce(ledger: map<string, Usage>, opens: seq<OpenMandate>, minor: nat, now: int,
                                      key: string)
    requires forall i, j :: 0 <= i < j < |opens| ==> opens[i].key != opens[j].key
    ensures var u, v := UsageAt(ledger, key), UsageAt(Record(ledger, opens, minor, now), key);
            if HasKey(opens, key) then v == Usage(u.total + minor, u.uses + 1, Some(now)) else v == u
    decreases |opens|
  {
    if opens != [] {
      var next := RecordOne(ledger, opens[0].key, minor, now);
      RecordOnce(next, opens[1..], minor, now, key);
      assert forall i :: 1 <= i < |opens| ==> opens[i] == opens[1..][i - 1];
    }
  }

  ghost predicate Exact(s: State, key: string) {
    UsageAt(s.ledger, key) == Usage(Spent(s.log, key), Uses(s.log, key), LastUse(s.log, key))
  }

  lemma LogAppend(log: seq<Request>, r: Request, key: string)
    ensures var next := log + [r];
            if Draws(r, key)
            then Spent(next, key) == Spent(log, key) + Minor(r.closed) && Uses(next, key) == Uses(log, key) + 1
                  && LastUse(next, key) == Some(r.env.now)
            else Spent(next, key) == Spent(log, key) && Uses(next, key) == Uses(log, key)
                  && LastUse(next, key) == LastUse(log, key)
  {
    assert (log + [r])[..|log|] == log;
  }

  /** A use recorded under the keys of `r` is counted once under each. */
  lemma RecordExact(s: State, r: Request, key: string)
    requires Exact(s, key) && DistinctKeys(r)
    ensures Exact(State(Record(s.ledger, r.opens, Minor(r.closed), r.env.now), s.log + [r]), key)
  {
    RecordOnce(s.ledger, r.opens, Minor(r.closed), r.env.now, key);
    LogAppend(s.log, r, key);
  }

  /** With one key per open mandate of a chain the ledger holds exactly what was accepted, so no limit trips early. */
  lemma {:induction false} RunExact(requests: seq<Request>, key: string)
    requires forall i :: 0 <= i < |requests| ==> DistinctKeys(requests[i])
    ensures Exact(Run(requests), key)
  {
    if requests != [] {
      var s, r := Run(requests[..|requests| - 1]), requests[|requests| - 1];
      RunExact(requests[..|requests| - 1], key);
      RecordExact(s, r, key);
    }
  }
}
