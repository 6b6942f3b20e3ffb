/** The issuance-time narrowing check as the code runs it (crates/authority/src/evaluate.rs `narrows`). */
module Narrowing {
  import opened Constraints
  import opened Mandates
  import TW = TimeWindows

  /** Time windows as the parser leaves them. */
  predicate WellRead(c: Constraint) {
    c.TimeWindows? ==> forall i :: 0 <= i < |c.windows| ==> TW.Wellformed(c.windows[i])
  }

  predicate AllWellRead(m: OpenMandate) {
    forall i :: 0 <= i < |m.constraints| ==> WellRead(m.constraints[i])
  }

  /** `covers`. */
  method CheckStrictens(p: Constraint, c: Constraint) returns (ok: bool)
    requires WellRead(p) && WellRead(c)
    ensures ok <==> Strictens(p, c)
  {
    if !(p.TimeWindows? && c.TimeWindows?) { return Strictens(p, c); }
    for i := 0 to |c.windows|
      invariant forall k :: 0 <= k < i ==> TW.CoveredBy(c.windows[k], p.windows)
    {
      var covered := TW.CheckCovered(c.windows[i], p.windows);
      if !covered { return false; }
    }
    ok := true;
  }

  method CheckMatched(p: Constraint, cs: seq<Constraint>) returns (ok: bool)
    requires WellRead(p) && forall i :: 0 <= i < |cs| ==> WellRead(cs[i])
    ensures ok <==> Matched(p, cs)
  {
    for j := 0 to |cs|
      invariant forall k :: 0 <= k < j ==> !Strictens(p, cs[k])
    {
      ok := CheckStrictens(p, cs[j]);
      if ok { return; }
    }
    ok := false;
  }

  /** `narrows`. */
  method CheckNarrows(parent: OpenMandate, child: OpenMandate) returns (ok: bool)
    requires AllWellRead(parent) && AllWellRead(child)
    ensures ok <==> Narrows(parent, child)
  {
    if parent.family != child.family || SaturatingSucc(child.maxDepth) > parent.maxDepth { return false; }
    if !Keeps(parent.presets, child.presets) { return false; }
    if HasCeiling(child) && !HasCeiling(parent) { return false; }
    for i := 0 to |parent.constraints|
      invariant forall k :: 0 <= k < i && !parent.constraints[k].Delegation? ==>
                  Matched(parent.constraints[k], child.constraints)
    {
      if !parent.constraints[i].Delegation? {
        var matched := CheckMatched(parent.constraints[i], child.constraints);
        if !matched { return false; }
      }
    }
    ok := true;
  }
}
