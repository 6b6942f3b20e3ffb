/** Open mandates, cumulative evaluation and narrowing (crates/authority/src/evaluate.rs, mandate.rs). */
module Mandates {
  import opened Prelude
  import opened Json
  import opened Strings
  import opened Constraints
  import CM = CartMatching

  const U32_MAX: nat := 0xFFFF_FFFF

  type u32 = n: nat | n <= U32_MAX

  datatype OpenMandate = OpenMandate(
    family: Family,
    constraints: seq<Constraint>,
    presets: map<string, Json>,
    maxDepth: u32,
    key: string)

  datatype Cause =
    | FamilyMismatch(open: Family, closed: Family)
    | Preset(claim: string)
    | AmountWithoutCeiling
    | Rejected(typeName: string, failure: Failure)

  datatype ChainFailure = ChainFailure(link: nat, cause: Cause)

  // ---- evaluation

  predicate HasCeiling(m: OpenMandate) {
    exists i :: 0 <= i < |m.constraints| && m.constraints[i].AmountCap?
  }

  predicate Keeps(presets: map<string, Json>, claims: map<string, Json>) {
    forall k :: k in presets ==> k in claims && claims[k] == presets[k]
  }

  /** The first pre-set claim, in key order, that is missing or changed. */
  function FirstChanged(keys: seq<string>, presets: map<string, Json>, claims: map<string, Json>): Option<string>
    requires forall k :: k in keys ==> k in presets
  {
    if keys == [] then None
    else if keys[0] !in claims || claims[keys[0]] != presets[keys[0]] then Some(keys[0])
    else FirstChanged(keys[1..], presets, claims)
  }

  lemma {:induction false} FirstChangedMeaning(keys: seq<string>, presets: map<string, Json>,
                                               claims: map<string, Json>)
    requires forall k :: k in keys ==> k in presets
    ensures var f := FirstChanged(keys, presets, claims);
            && (f.None? <==> forall k :: k in keys ==> k in claims && claims[k] == presets[k])
            && (f.Some? ==> f.value in keys && !(f.value in claims && claims[f.value] == presets[f.value]))
  {
    if keys != [] {
      assert keys == [keys[0]] + keys[1..];
      FirstChangedMeaning(keys[1..], presets, claims);
    }
  }

  /** A pre-set claim is reported exactly when one is not kept. */
  lemma PresetsKept(presets: map<string, Json>, claims: map<string, Json>)
    ensures FirstChanged(InOrder(presets.Keys), presets, claims).None? <==> Keeps(presets, claims)
  {
    FirstChangedMeaning(InOrder(presets.Keys), presets, claims);
  }

  predicate CarriesAmount(closed: Closed) {
    closed.content.Action? && closed.content.amount.Some?
  }

  /** The first constraint that fails, in order: its type and why. */
  ghost function EvaluateAll(cs: seq<Constraint>, closed: Closed, env: Env, key: string): Result<(), Cause> {
    if cs == [] then Ok(())
    else
      var r := Evaluate(cs[0], closed, env, key);
      if r.Err? then Err(Rejected(TypeName(cs[0]), r.error)) else EvaluateAll(cs[1..], closed, env, key)
  }

  lemma {:induction false} EvaluateAllMeaning(cs: seq<Constraint>, closed: Closed, env: Env, key: string)
    ensures EvaluateAll(cs, closed, env, key).Ok? <==>
            forall i :: 0 <= i < |cs| ==> Evaluate(cs[i], closed, env, key).Ok?
  {
    if cs != [] {
      EvaluateAllMeaning(cs[1..], closed, env, key);
      assert forall i :: 1 <= i < |cs| ==> cs[i] == cs[1..][i - 1];
    }
  }

  /** Does this open mandate, on its own, accept `closed`? */
  ghost function Accepts(m: OpenMandate, closed: Closed, env: Env): Result<(), Cause> {
    var changed := FirstChanged(InOrder(m.presets.Keys), m.presets, closed.claims);
    if m.family != FamilyOf(closed.content) then Err(FamilyMismatch(m.family, FamilyOf(closed.content)))
    else if changed.Some? then Err(Preset(changed.value))
    else if CarriesAmount(closed) && !HasCeiling(m) then Err(AmountWithoutCeiling)
    else EvaluateAll(m.constraints, closed, env, m.key)
  }

  /** What each open mandate says on its own. */
  ghost function Verdicts(opens: seq<OpenMandate>, closed: Closed, env: Env): (rs: seq<Result<(), Cause>>)
    ensures |rs| == |opens| && forall i :: 0 <= i < |rs| ==> rs[i] == Accepts(opens[i], closed, env)
  {
    seq(|opens|, i requires 0 <= i < |opens| => Accepts(opens[i], closed, env))
  }

  /** The first rejection from `i` on. */
  function FirstRejection(rs: seq<Result<(), Cause>>, i: nat): Result<(), ChainFailure>
    requires i <= |rs|
    decreases |rs| - i
  {
    if i == |rs| then Ok(())
    else if rs[i].Err? then Err(ChainFailure(i, rs[i].error))
    else FirstRejection(rs, i + 1)
  }

  lemma {:induction false} FirstRejectionMeaning(rs: seq<Result<(), Cause>>, i: nat)
    requires i <= |rs|
    ensures var r := FirstRejection(rs, i);
            && (r.Ok? <==> forall k :: i <= k < |rs| ==> rs[k].Ok?)
            && (r.Err? ==> i <= r.error.link < |rs| && rs[r.error.link] == Err(r.error.cause)
                           && forall k :: i <= k < r.error.link ==> rs[k].Ok?)
    decreases |rs| - i
  {
    if i < |rs| { FirstRejectionMeaning(rs, i + 1); }
  }

  /** The first open mandate, root first, that rejects, and why. */
  ghost function EvaluateChain(opens: seq<OpenMandate>, closed: Closed, env: Env): Result<(), ChainFailure> {
    FirstRejection(Verdicts(opens, closed, env), 0)
  }

  lemma EvaluateChainMeaning(opens: seq<OpenMandate>, closed: Closed, env: Env)
    ensures var r := EvaluateChain(opens, closed, env);
            && (r.Ok? <==> forall k :: 0 <= k < |opens| ==> Accepts(opens[k], closed, env).Ok?)
            && (r.Err? ==>
                  && r.error.link < |opens| && Accepts(opens[r.error.link], closed, env) == Err(r.error.cause)
                  && forall k :: 0 <= k < r.error.link ==> Accepts(opens[k], closed, env).Ok?)
  {
    var rs := Verdicts(opens, closed, env);
    FirstRejectionMeaning(rs, 0);
    assert forall k :: 0 <= k < |opens| ==> rs[k] == Accepts(opens[k], closed, env);
  }

  // ---- narrowing

  function SaturatingSucc(n: u32): u32 {
    if n == U32_MAX then n else n + 1
  }

  predicate Matched(p: Constraint, cs: seq<Constraint>) {
    exists j :: 0 <= j < |cs| && Strictens(p, cs[j])
  }

  /** May `parent` sign `child` as a sub-delegation? */
  predicate Narrows(parent: OpenMandate, child: OpenMandate) {
    && parent.family == child.family
    && SaturatingSucc(child.maxDepth) <= parent.maxDepth
    && Keeps(parent.presets, child.presets)
    && (HasCeiling(child) ==> HasCeiling(parent))
    && forall i :: 0 <= i < |parent.constraints| && !parent.constraints[i].Delegation? ==>
         Matched(parent.constraints[i], child.constraints)
  }

  predicate Stateless(m: OpenMandate) {
    forall i :: 0 <= i < |m.constraints| ==> !Stateful(m.constraints[i])
  }

  /** The part of the parent that counts its own past use. */
  ghost predicate CountersAccept(m: OpenMandate, closed: Closed, env: Env) {
    forall i :: 0 <= i < |m.constraints| && Stateful(m.constraints[i]) ==>
          Evaluate(m.constraints[i], closed, env, m.key).Ok?
  }

  /** Once the child accepts, only the parent's own counters can still reject. */
  lemma NarrowsExact(parent: OpenMandate, child: OpenMandate, closed: Closed, env: Env)
    requires Narrows(parent, child) && Accepts(child, closed, env).Ok?
    ensures Accepts(parent, closed, env).Ok? <==> CountersAccept(parent, closed, env)
  {
    EvaluateAllMeaning(child.constraints, closed, env, child.key);
    EvaluateAllMeaning(parent.constraints, closed, env, parent.key);
    PresetsKept(child.presets, closed.claims);
    PresetsKept(parent.presets, closed.claims);
    forall i | 0 <= i < |parent.constraints| && !Stateful(parent.constraints[i])
      ensures Evaluate(parent.constraints[i], closed, env, parent.key).Ok?
    {
      MatchedSound(parent.constraints[i], child, closed, env, parent.key);
    }
  }

  lemma MatchedSound(p: Constraint, child: OpenMandate, closed: Closed, env: Env, key: string)
    requires p.Delegation? || Matched(p, child.constraints)
    requires forall j :: 0 <= j < |child.constraints| ==> Evaluate(child.constraints[j], closed, env, child.key).Ok?
    requires Stateful(p) ==> UsageOf(env, key) == UsageOf(env, child.key)
    ensures Evaluate(p, closed, env, key).Ok?
  {
    if !p.Delegation? {
      var j :| 0 <= j < |child.constraints| && Strictens(p, child.constraints[j]);
      StrictensSound(p, child.constraints[j], closed, env, key, child.key);
    }
  }

  /** Everything the child accepts, the parent accepts; with counters, when both keys report the same usage. */
  lemma NarrowsSound(parent: OpenMandate, child: OpenMandate, closed: Closed, env: Env)
    requires Narrows(parent, child) && Accepts(child, closed, env).Ok?
    requires Stateless(parent) || UsageOf(env, parent.key) == UsageOf(env, child.key)
    ensures Accepts(parent, closed, env).Ok?
  {
    NarrowsExact(parent, child, closed, env);
    EvaluateAllMeaning(child.constraints, closed, env, child.key);
    forall i | 0 <= i < |parent.constraints| && Stateful(parent.constraints[i])
      ensures Evaluate(parent.constraints[i], closed, env, parent.key).Ok?
    {
      MatchedSound(parent.constraints[i], child, closed, env, parent.key);
    }
  }

  /** A mandate with nothing but a budget, and perhaps the permission to delegate. */
  lemma BudgetAlone(m: OpenMandate, closed: Closed, env: Env)
    requires m.family == Payment && m.presets == map[] && |m.constraints| >= 1 && m.constraints[0].Budget?
    requires forall i :: 1 <= i < |m.constraints| ==> m.constraints[i].Delegation?
    requires closed.content.PaymentMandate? && closed.content.paid.currency == m.constraints[0].budgetCurrency
    requires UsageOf(env, m.key).Some? && m.constraints[0].budgetMax <= CM.U64_MAX
    ensures Accepts(m, closed, env).Ok? <==>
              UsageOf(env, m.key).value.total + closed.content.paid.minor <= m.constraints[0].budgetMax
  {
    EvaluateAllMeaning(m.constraints, closed, env, m.key);
    PresetsKept(m.presets, closed.claims);
  }

  function SpentParent(k: string): Option<Usage> {
    Some(Usage(if k == "p" then 10 else 0, 0, None))
  }

  /** A budget that may be delegated once. */
  const PARENT_CONSTRAINTS: seq<Constraint> := [Budget(10, "EUR"), Delegation(1)]

  const PARENT: OpenMandate := OpenMandate(Payment, PARENT_CONSTRAINTS, map[], 1, "p")

  /** The same budget, not to be delegated further. */
  const CHILD: OpenMandate := OpenMandate(Payment, [Budget(10, "EUR")], map[], 0, "c")

  lemma BudgetNarrows()
    ensures Narrows(PARENT, CHILD)
  {
    assert Strictens(PARENT_CONSTRAINTS[0], CHILD.constraints[0]);
    assert Matched(PARENT_CONSTRAINTS[0], CHILD.constraints);
  }

  /** With counters of their own, the promise fails: the parent's budget may already be spent. */
  lemma CountersBreakSoundness(closed: Closed, env: Env)
    requires env.ledger == Some(SpentParent) && closed.content.PaymentMandate?
               && closed.content.paid == Amount(1, "EUR")
    ensures Narrows(PARENT, CHILD) && Accepts(CHILD, closed, env).Ok? && Accepts(PARENT, closed, env).Err?
  {
    BudgetNarrows();
    BudgetAlone(PARENT, closed, env);
    BudgetAlone(CHILD, closed, env);
  }

  lemma NarrowsTransitive(a: OpenMandate, b: OpenMandate, c: OpenMandate)
    requires Narrows(a, b) && Narrows(b, c)
    ensures Narrows(a, c)
  {
    forall i | 0 <= i < |a.constraints| && !a.constraints[i].Delegation?
      ensures Matched(a.constraints[i], c.constraints)
    {
      assert Matched(a.constraints[i], b.constraints);
      var j :| 0 <= j < |b.constraints| && Strictens(a.constraints[i], b.constraints[j]);
      assert Matched(b.constraints[j], c.constraints);
      var k :| 0 <= k < |c.constraints| && Strictens(b.constraints[j], c.constraints[k]);
      StrictensTransitive(a.constraints[i], b.constraints[j], c.constraints[k]);
    }
  }

  predicate Chain(opens: seq<OpenMandate>) {
    forall i, j :: 0 <= i < |opens| && j == i + 1 && j < |opens| ==> Narrows(opens[i], opens[j])
  }

  /** The verifier's depth rule: how many more open mandates follow link `i`. */
  predicate DepthHolds(opens: seq<OpenMandate>) {
    forall i :: 0 <= i < |opens| ==> |opens| - 1 - i <= opens[i].maxDepth
  }

  lemma {:induction false} ChainDepthAt(opens: seq<OpenMandate>, i: nat)
    requires Chain(opens) && i < |opens| && |opens| - 1 - i <= U32_MAX
    ensures |opens| - 1 - i <= opens[i].maxDepth
    decreases |opens| - i
  {
    if i + 1 < |opens| {
      ChainDepthAt(opens, i + 1);
      assert Narrows(opens[i], opens[i + 1]);
    }
  }

  /** A chain that narrows step by step passes the depth rule. */
  lemma ChainDepth(opens: seq<OpenMandate>)
    requires Chain(opens) && |opens| <= U32_MAX + 1
    ensures DepthHolds(opens)
  {
    forall i | 0 <= i < |opens| ensures |opens| - 1 - i <= opens[i].maxDepth { ChainDepthAt(opens, i); }
  }

  /** A mandate narrows itself exactly when its depth is the largest 32-bit number. */
  lemma NarrowsItself(m: OpenMandate)
    ensures Narrows(m, m) <==> m.maxDepth == U32_MAX
  {
    forall i | 0 <= i < |m.constraints|
      ensures Matched(m.constraints[i], m.constraints)
    {
      StrictensReflexive(m.constraints[i]);
    }
  }

  /**
   The bound on the length is tight: repeating such a mandate narrows for ever, and passes the
   depth rule exactly up to 2^32 links.
   */
  lemma EndlessChain(m: OpenMandate, opens: seq<OpenMandate>)
    requires m.maxDepth == U32_MAX && forall i :: 0 <= i < |opens| ==> opens[i] == m
    ensures Chain(opens) && (DepthHolds(opens) <==> |opens| <= U32_MAX + 1)
  {
    NarrowsItself(m);
    if |opens| <= U32_MAX + 1 {
      ChainDepth(opens);
    } else {
      assert |opens| - 1 - 0 > opens[0].maxDepth;
    }
  }

  /** Whatever link comes later narrows every link before it. */
  lemma {:induction false} ChainNarrows(opens: seq<OpenMandate>, i: nat, j: nat)
    requires Chain(opens) && i < j < |opens|
    ensures Narrows(opens[i], opens[j])
    decreases j - i
  {
    assert Narrows(opens[i], opens[i + 1]);
    if i + 1 < j {
      ChainNarrows(opens, i + 1, j);
      NarrowsTransitive(opens[i], opens[i + 1], opens[j]);
    }
  }

  /** In a narrowing chain the last mandate alone decides, when counters agree. */
  lemma LastDecides(opens: seq<OpenMandate>, closed: Closed, env: Env)
    requires Chain(opens) && |opens| > 0
    requires forall i :: 0 <= i < |opens| ==>
               Stateless(opens[i]) || UsageOf(env, opens[i].key) == UsageOf(env, opens[|opens| - 1].key)
    ensures EvaluateChain(opens, closed, env).Ok? <==> Accepts(opens[|opens| - 1], closed, env).Ok?
  {
    EvaluateChainMeaning(opens, closed, env);
    var last := |opens| - 1;
    if Accepts(opens[last], closed, env).Ok? {
      forall k | 0 <= k < |opens| ensures Accepts(opens[k], closed, env).Ok? {
        if k < last {
          ChainNarrows(opens, k, last);
          NarrowsSound(opens[k], opens[last], closed, env);
        }
      }
    }
  }

  /** Whatever a sub-delegation claims, appending it never lets through what the chain before it rejects. */
  lemma AppendOnlyRestricts(opens: seq<OpenMandate>, more: seq<OpenMandate>, closed: Closed, env: Env)
    requires EvaluateChain(opens + more, closed, env).Ok?
    ensures EvaluateChain(opens, closed, env).Ok?
  {
    EvaluateChainMeaning(opens + more, closed, env);
    EvaluateChainMeaning(opens, closed, env);
    forall k | 0 <= k < |opens| ensures Accepts(opens[k], closed, env).Ok? { assert (opens + more)[k] == opens[k]; }
  }
}
