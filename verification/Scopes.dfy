/** v0 scopes: matching a request and narrowing a parent scope (crates/core/src/scope.rs). */
module Scopes {
  import opened Prelude
  import C = Constraints

  /** A 64-bit float, as far as ceilings look at it. */
  datatype Float = Finite(value: real) | Infinite(negative: bool) | NaN

  datatype Amount = Amount(value: Float, currency: string)

  datatype Counterparties = Counterparties(allow: Option<seq<string>>, deny: Option<seq<string>>)

  type Day = d: nat | d < 7

  /** `start` and `end` as split at the colon and read as unsigned 32-bit numbers; absent when that fails. */
  datatype TimeWindow = TimeWindow(
    days: seq<Day>,
    start: Option<(nat, nat)>,
    end: Option<(nat, nat)>,
    timezone: string)

  datatype Scope = Scope(
    actions: seq<string>,
    resources: Option<seq<string>>,
    maxAmount: Option<Amount>,
    counterparties: Option<Counterparties>,
    dataCategories: Option<seq<string>>,
    timeWindows: Option<seq<TimeWindow>>)

  datatype ActionRequest = ActionRequest(
    action: string,
    resource: Option<string>,
    amount: Option<Amount>,
    counterparty: Option<string>,
    dataCategories: Option<seq<string>>)

  type Minute = m: nat | m < 1440

  datatype Local = Local(day: Day, minute: Minute)

  /** The verifier's clock in a time zone; absent for an unknown zone. */
  type Clock = string -> Option<Local>

  predicate ValidAmount(a: Amount) {
    a.value.Finite? && a.value.value >= 0.0
  }

  predicate WithinCeiling(a: Amount, max: Amount) {
    ValidAmount(a) && ValidAmount(max) && a.currency == max.currency && a.value.value <= max.value.value
  }

  /** Minutes since midnight, in 32-bit arithmetic. */
  function MinuteOf(hm: (nat, nat)): nat {
    (hm.0 * 60 + hm.1) % 0x1_0000_0000
  }

  /** Is the window open at this local time? */
  predicate OpenAt(w: TimeWindow, local: Local) {
    && local.day in w.days && w.start.Some? && w.end.Some?
    && MinuteOf(w.start.value) <= local.minute <= MinuteOf(w.end.value)
  }

  predicate InWindow(clock: Clock, w: TimeWindow) {
    var local := clock(w.timezone);
    local.Some? && OpenAt(w, local.value)
  }

  function CounterpartiesOf(s: Scope): Counterparties {
    if s.counterparties.Some? then s.counterparties.value else Counterparties(None, None)
  }

  predicate InSome(clock: Clock, ws: seq<TimeWindow>) {
    exists i :: 0 <= i < |ws| && InWindow(clock, ws[i])
  }

  predicate AmountMatches(max: Option<Amount>, amount: Option<Amount>) {
    if max.Some? then amount.Some? && WithinCeiling(amount.value, max.value) else amount.None?
  }

  predicate CounterpartyOk(cps: Counterparties, cp: Option<string>) {
    && (cps.deny.Some? && cp.Some? ==> cp.value !in cps.deny.value)
    && (cps.allow.Some? ==> cp.Some? && cp.value in cps.allow.value)
  }

  /** Everything a scope asks of a request but the time. */
  predicate MatchesRequest(s: Scope, r: ActionRequest) {
    && r.action in s.actions
    && (s.resources.Some? ==> r.resource.Some? && r.resource.value in s.resources.value)
    && AmountMatches(s.maxAmount, r.amount)
    && (s.counterparties.Some? ==> CounterpartyOk(s.counterparties.value, r.counterparty))
    && (s.dataCategories.Some? && r.dataCategories.Some? ==>
          C.Subset(r.dataCategories.value, s.dataCategories.value))
  }

  predicate MatchesTime(s: Scope, clock: Clock) {
    s.timeWindows.Some? ==> InSome(clock, s.timeWindows.value)
  }

  predicate Matches(s: Scope, r: ActionRequest, clock: Clock) {
    MatchesRequest(s, r) && MatchesTime(s, clock)
  }

  /** Pairs of numbers in lexicographic order. */
  predicate NoLaterThan(a: (nat, nat), b: (nat, nat)) {
    a.0 < b.0 || (a.0 == b.0 && a.1 <= b.1)
  }

  predicate DaysWithin(inner: seq<Day>, outer: seq<Day>) {
    forall i :: 0 <= i < |inner| ==> inner[i] in outer
  }

  predicate ContainedIn(c: TimeWindow, p: TimeWindow) {
    && p.timezone == c.timezone && DaysWithin(c.days, p.days)
    && c.start.Some? && p.start.Some? && NoLaterThan(p.start.value, c.start.value)
    && c.end.Some? && p.end.Some? && NoLaterThan(c.end.value, p.end.value)
  }

  predicate ContainedInSome(c: TimeWindow, ps: seq<TimeWindow>) {
    exists i :: 0 <= i < |ps| && ContainedIn(c, ps[i])
  }

  predicate Narrows(p: Scope, c: Scope) {
    var pc, cc := CounterpartiesOf(p), CounterpartiesOf(c);
    && C.Subset(c.actions, p.actions)
    && (p.resources.Some? ==> c.resources.Some? && C.Subset(c.resources.value, p.resources.value))
    && (p.maxAmount.Some? ==> c.maxAmount.Some? && WithinCeiling(c.maxAmount.value, p.maxAmount.value))
    && (pc.allow.Some? ==> cc.allow.Some? && C.Subset(cc.allow.value, pc.allow.value))
    && (pc.deny.Some? ==> C.Subset(pc.deny.value, C.OrEmpty(cc.deny)))
    && (p.dataCategories.Some? ==> c.dataCategories.Some? && C.Subset(c.dataCategories.value, p.dataCategories.value))
    && (p.timeWindows.Some? ==>
          c.timeWindows.Some? && forall i :: 0 <= i < |c.timeWindows.value| ==>
                ContainedInSome(c.timeWindows.value[i], p.timeWindows.value))
  }

  // ---- what a scope allows

  /** No ceiling and no amount, or both in one currency, both finite, and the amount from 0 to the ceiling. */
  predicate AmountAllowed(max: Option<Amount>, amount: Option<Amount>) {
    || (max.None? && amount.None?)
    || (&& max.Some? && amount.Some? && max.value.value.Finite? && amount.value.value.Finite?
        && amount.value.currency == max.value.currency
        && 0.0 <= amount.value.value.value <= max.value.value.value)
  }

  /** A window of the zone's own weekday, between its first and its last minute. */
  predicate SomeWindow(ws: seq<TimeWindow>, clock: Clock) {
    exists w :: && w in ws && clock(w.timezone).Some? && clock(w.timezone).value.day in w.days
                && w.start.Some? && w.end.Some?
                && (w.start.value.0 * 60 + w.start.value.1) % 0x1_0000_0000 <= clock(w.timezone).value.minute
                && clock(w.timezone).value.minute <= (w.end.value.0 * 60 + w.end.value.1) % 0x1_0000_0000
  }

  /** Every list the scope has names what the request brings; no list, no restriction. */
  predicate Allows(s: Scope, r: ActionRequest, clock: Clock) {
    && r.action in s.actions
    && (s.resources.None? || (r.resource.Some? && r.resource.value in s.resources.value))
    && AmountAllowed(s.maxAmount, r.amount)
    && (s.counterparties.None? || s.counterparties.value.allow.None?
        || (r.counterparty.Some? && r.counterparty.value in s.counterparties.value.allow.value))
    && (s.counterparties.None? || s.counterparties.value.deny.None? || r.counterparty.None?
        || r.counterparty.value !in s.counterparties.value.deny.value)
    && (s.dataCategories.None? || r.dataCategories.None?
        || forall x :: x in r.dataCategories.value ==> x in s.dataCategories.value)
    && (s.timeWindows.None? || SomeWindow(s.timeWindows.value, clock))
  }

  lemma SubsetExact(inner: seq<string>, outer: seq<string>)
    ensures C.Subset(inner, outer) <==> forall x :: x in inner ==> x in outer
  {
  }

  lemma WindowExact(ws: seq<TimeWindow>, clock: Clock)
    ensures InSome(clock, ws) <==> SomeWindow(ws, clock)
  {
    if w :| && w in ws && clock(w.timezone).Some? && clock(w.timezone).value.day in w.days
            && w.start.Some? && w.end.Some?
            && (w.start.value.0 * 60 + w.start.value.1) % 0x1_0000_0000 <= clock(w.timezone).value.minute
            && clock(w.timezone).value.minute <= (w.end.value.0 * 60 + w.end.value.1) % 0x1_0000_0000
    {
      var i :| 0 <= i < |ws| && ws[i] == w;
      assert InWindow(clock, ws[i]);
    }
    if i :| 0 <= i < |ws| && InWindow(clock, ws[i]) { assert ws[i] in ws; }
  }

  /** A scope matches exactly what it allows. */
  lemma MatchesExact(s: Scope, r: ActionRequest, clock: Clock)
    ensures Matches(s, r, clock) <==> Allows(s, r, clock)
  {
    if s.dataCategories.Some? && r.dataCategories.Some? {
      SubsetExact(r.dataCategories.value, s.dataCategories.value);
    }
    if s.timeWindows.Some? { WindowExact(s.timeWindows.value, clock); }
  }

  /** A scope narrows itself exactly when its ceiling is an amount and its windows can be read. */
  lemma NarrowsItself(s: Scope)
    ensures Narrows(s, s) <==>
            && (s.maxAmount.Some? ==> s.maxAmount.value.value.Finite? && s.maxAmount.value.value.value >= 0.0)
            && (s.timeWindows.Some? ==>
                  forall i :: 0 <= i < |s.timeWindows.value| ==>
                    s.timeWindows.value[i].start.Some? && s.timeWindows.value[i].end.Some?)
  {
    if s.timeWindows.Some? {
      var ws := s.timeWindows.value;
      forall i | 0 <= i < |ws|
        ensures ContainedInSome(ws[i], ws) <==> ws[i].start.Some? && ws[i].end.Some?
      {
        if ws[i].start.Some? && ws[i].end.Some? { assert ContainedIn(ws[i], ws[i]); }
      }
    }
  }

  // ---- when containment of windows keeps what it promises

  /** The last minute of the day at which a window that ends at `m` is open. */
  function Clip(m: nat): nat {
    if m < 1440 then m else 1439
  }

  /** A window that no local time opens: no days, or no minute between start and end. */
  predicate NeverOpens(w: TimeWindow)
    requires w.start.Some? && w.end.Some?
  {
    w.days == [] || Clip(MinuteOf(w.end.value)) < MinuteOf(w.start.value)
  }

  /** The bounds that are compared at use, minutes since midnight, are in order too. */
  predicate MinutesNest(c: TimeWindow, p: TimeWindow)
    requires c.start.Some? && c.end.Some? && p.start.Some? && p.end.Some?
  {
    MinuteOf(p.start.value) <= MinuteOf(c.start.value) && Clip(MinuteOf(c.end.value)) <= MinuteOf(p.end.value)
  }

  predicate Keeps(c: TimeWindow, p: TimeWindow) {
    c.start.Some? && c.end.Some? && p.start.Some? && p.end.Some? && (NeverOpens(c) || MinutesNest(c, p))
  }

  function ClockIn(zone: string, local: Local): Clock {
    z => if z == zone then Some(local) else None
  }

  /**
   Containment as narrowing tests it is containment at every instant exactly when the child never
   opens or the minutes nest.
   */
  lemma ContainedExact(c: TimeWindow, p: TimeWindow)
    requires ContainedIn(c, p)
    ensures (forall clock :: InWindow(clock, c) ==> InWindow(clock, p)) <==> Keeps(c, p)
  {
    if Keeps(c, p) {
      forall clock | InWindow(clock, c) ensures InWindow(clock, p) { ContainedKeeps(c, p, clock); }
    } else if MinuteOf(p.start.value) > MinuteOf(c.start.value) {
      ContainedEscapes(c, p, MinuteOf(c.start.value));
    } else {
      ContainedEscapes(c, p, Clip(MinuteOf(c.end.value)));
    }
  }

  lemma ContainedKeeps(c: TimeWindow, p: TimeWindow, clock: Clock)
    requires ContainedIn(c, p) && Keeps(c, p) && InWindow(clock, c)
    ensures InWindow(clock, p)
  {
    var day := clock(c.timezone).value.day;
    var i :| 0 <= i < |c.days| && c.days[i] == day;
  }

  /** A minute inside the child and outside the parent is an instant the parent misses. */
  lemma ContainedEscapes(c: TimeWindow, p: TimeWindow, m: nat)
    requires ContainedIn(c, p) && !NeverOpens(c) && MinuteOf(c.start.value) <= m <= Clip(MinuteOf(c.end.value))
    requires !(MinuteOf(p.start.value) <= m <= MinuteOf(p.end.value))
    ensures exists clock :: InWindow(clock, c) && !InWindow(clock, p)
  {
    var clock := ClockIn(c.timezone, Local(c.days[0], m));
    assert InWindow(clock, c) && !InWindow(clock, p);
  }

  /** Minutes below sixty, and no wrap-around: every time of day, and every larger hour short of the 32-bit limit. */
  predicate InOrder(hm: Option<(nat, nat)>) {
    hm.Some? ==> hm.value.1 < 60 && hm.value.0 * 60 + hm.value.1 < 0x1_0000_0000
  }

  lemma OrdinaryTimesKeep(c: TimeWindow, p: TimeWindow)
    requires ContainedIn(c, p) && InOrder(c.start) && InOrder(c.end) && InOrder(p.start) && InOrder(p.end)
    ensures Keeps(c, p)
  {
    LexicographicMinutes(p.start.value, c.start.value);
    LexicographicMinutes(c.end.value, p.end.value);
  }

  lemma LexicographicMinutes(a: (nat, nat), b: (nat, nat))
    requires NoLaterThan(a, b) && InOrder(Some(a)) && InOrder(Some(b))
    ensures MinuteOf(a) <= MinuteOf(b)
  {
    if a.0 < b.0 { assert a.0 * 60 + 60 <= b.0 * 60; }
  }

  // ---- when narrowing is sound

  predicate OpenInSome(ws: seq<TimeWindow>, zone: string, local: Local) {
    exists k :: 0 <= k < |ws| && ws[k].timezone == zone && OpenAt(ws[k], local)
  }

  /** Minute by minute of a week, and zone by zone, a parent window is open whenever a child window is. */
  predicate WindowsCovered(ps: seq<TimeWindow>, cs: seq<TimeWindow>) {
    forall i, day: Day, minute: Minute | 0 <= i < |cs| && OpenAt(cs[i], Local(day, minute)) ::
      OpenInSome(ps, cs[i].timezone, Local(day, minute))
  }

  /** The windows of `p` are open whenever those of `c` are. */
  predicate ScopeCovered(p: Scope, c: Scope) {
    p.timeWindows.Some? ==> c.timeWindows.Some? && WindowsCovered(p.timeWindows.value, c.timeWindows.value)
  }

  lemma CoveredSound(ps: seq<TimeWindow>, cs: seq<TimeWindow>, clock: Clock)
    requires WindowsCovered(ps, cs) && InSome(clock, cs)
    ensures InSome(clock, ps)
  {
    var i :| 0 <= i < |cs| && InWindow(clock, cs[i]);
    var local := clock(cs[i].timezone).value;
    assert OpenAt(cs[i], Local(local.day, local.minute));
    assert OpenInSome(ps, cs[i].timezone, local);
    var k :| 0 <= k < |ps| && ps[k].timezone == cs[i].timezone && OpenAt(ps[k], local);
    assert InWindow(clock, ps[k]);
  }

  lemma CoveredNeeded(ps: seq<TimeWindow>, cs: seq<TimeWindow>)
    requires forall clock :: InSome(clock, cs) ==> InSome(clock, ps)
    ensures WindowsCovered(ps, cs)
  {
    forall i, day: Day, minute: Minute | 0 <= i < |cs| && OpenAt(cs[i], Local(day, minute))
      ensures OpenInSome(ps, cs[i].timezone, Local(day, minute))
    {
      var clock := ClockIn(cs[i].timezone, Local(day, minute));
      assert InWindow(clock, cs[i]);
      assert InSome(clock, cs);
      var k :| 0 <= k < |ps| && InWindow(clock, ps[k]);
    }
  }

  /** Some window opens at some time; a scope without windows is always open. */
  predicate Opens(s: Scope) {
    s.timeWindows.Some? ==>
      exists i, day: Day, minute: Minute ::
            0 <= i < |s.timeWindows.value| && OpenAt(s.timeWindows.value[i], Local(day, minute))
  }

  lemma OpensSome(s: Scope)
    ensures Opens(s) <==> exists clock :: MatchesTime(s, clock)
  {
    if s.timeWindows.None? {
      assert MatchesTime(s, (_: string) => None);
    } else {
      var ws := s.timeWindows.value;
      if Opens(s) {
        var i, day: Day, minute: Minute :| 0 <= i < |ws| && OpenAt(ws[i], Local(day, minute));
        var clock := ClockIn(ws[i].timezone, Local(day, minute));
        assert InWindow(clock, ws[i]);
        assert MatchesTime(s, clock);
      }
      if clock :| MatchesTime(s, clock) {
        var i :| 0 <= i < |ws| && InWindow(clock, ws[i]);
        var local := clock(ws[i].timezone).value;
        assert OpenAt(ws[i], Local(local.day, local.minute));
      }
    }
  }

  lemma CounterpartiesSound(p: Counterparties, c: Counterparties, cp: Option<string>)
    requires p.allow.Some? ==> c.allow.Some? && C.Subset(c.allow.value, p.allow.value)
    requires p.deny.Some? ==> C.Subset(p.deny.value, C.OrEmpty(c.deny))
    ensures CounterpartyOk(c, cp) ==> CounterpartyOk(p, cp)
  {
  }

  /**
   Time aside, what a narrower scope matches the wider one matches, unless the child brings a
   ceiling the parent lacks.
   */
  lemma RequestExact(p: Scope, c: Scope, r: ActionRequest)
    requires Narrows(p, c) && MatchesRequest(c, r)
    ensures MatchesRequest(p, r) <==> p.maxAmount.Some? || c.maxAmount.None?
  {
    CounterpartiesSound(CounterpartiesOf(p), CounterpartiesOf(c), r.counterparty);
  }

  lemma ScopeCoveredSound(p: Scope, c: Scope, clock: Clock)
    requires ScopeCovered(p, c) && MatchesTime(c, clock)
    ensures MatchesTime(p, clock)
  {
    if p.timeWindows.Some? { CoveredSound(p.timeWindows.value, c.timeWindows.value, clock); }
  }

  /** At one instant: with the windows covered, only the ceiling decides. */
  lemma NarrowsExact(p: Scope, c: Scope, r: ActionRequest, clock: Clock)
    requires Narrows(p, c) && Matches(c, r, clock) && ScopeCovered(p, c)
    ensures Matches(p, r, clock) <==> p.maxAmount.Some? || c.maxAmount.None?
  {
    RequestExact(p, c, r);
    ScopeCoveredSound(p, c, clock);
  }

  /**
   At every instant: a request the narrower scope would match in time is matched by the
   wider scope whenever the narrower one matches it, exactly when the narrower scope never
   opens, or its windows are covered and it brings no ceiling the wider one lacks.
   */
  lemma NarrowsSoundExactly(p: Scope, c: Scope, r: ActionRequest)
    requires Narrows(p, c) && MatchesRequest(c, r)
    ensures (forall clock :: Matches(c, r, clock) ==> Matches(p, r, clock)) <==>
            !Opens(c) || (ScopeCovered(p, c) && (p.maxAmount.Some? || c.maxAmount.None?))
  {
    RequestExact(p, c, r);
    OpensSome(c);
    if ScopeCovered(p, c) {
      forall clock | MatchesTime(c, clock) ensures MatchesTime(p, clock) { ScopeCoveredSound(p, c, clock); }
    }
    if Opens(c) && forall clock :: Matches(c, r, clock) ==> Matches(p, r, clock) {
      var clock :| MatchesTime(c, clock);
      assert Matches(c, r, clock);
      if p.timeWindows.Some? { SoundWindowsCover(p, c, r); }
    }
  }

  lemma SoundWindowsCover(p: Scope, c: Scope, r: ActionRequest)
    requires p.timeWindows.Some? && c.timeWindows.Some? && MatchesRequest(c, r)
    requires forall clock :: Matches(c, r, clock) ==> Matches(p, r, clock)
    ensures WindowsCovered(p.timeWindows.value, c.timeWindows.value)
  {
    forall clock | InSome(clock, c.timeWindows.value) ensures InSome(clock, p.timeWindows.value) {
      assert Matches(c, r, clock);
    }
    CoveredNeeded(p.timeWindows.value, c.timeWindows.value);
  }

  /** Every time of the scope that can be read is in order. */
  predicate OrdinaryTimes(s: Scope) {
    s.timeWindows.Some? ==>
      forall i :: 0 <= i < |s.timeWindows.value| ==>
                    InOrder(s.timeWindows.value[i].start) && InOrder(s.timeWindows.value[i].end)
  }

  /** With ordinary times narrowing covers the windows. */
  lemma OrdinaryTimesCover(p: Scope, c: Scope)
    requires Narrows(p, c) && OrdinaryTimes(p) && OrdinaryTimes(c)
    ensures ScopeCovered(p, c)
  {
    if p.timeWindows.Some? {
      var ps, cs := p.timeWindows.value, c.timeWindows.value;
      forall i, day: Day, minute: Minute | 0 <= i < |cs| && OpenAt(cs[i], Local(day, minute))
        ensures OpenInSome(ps, cs[i].timezone, Local(day, minute))
      {
        assert ContainedInSome(cs[i], ps);
        var k :| 0 <= k < |ps| && ContainedIn(cs[i], ps[k]);
        OrdinaryTimesKeep(cs[i], ps[k]);
        var clock := ClockIn(cs[i].timezone, Local(day, minute));
        assert InWindow(clock, cs[i]);
        ContainedKeeps(cs[i], ps[k], clock);
      }
    }
  }

  lemma CoveredReflexive(s: Scope)
    ensures ScopeCovered(s, s)
  {
  }

  lemma CoveredTransitive(a: Scope, b: Scope, c: Scope)
    requires ScopeCovered(a, b) && ScopeCovered(b, c) && (a.timeWindows.Some? ==> b.timeWindows.Some?)
    ensures ScopeCovered(a, c)
  {
    if a.timeWindows.Some? {
      var x, y, z := a.timeWindows.value, b.timeWindows.value, c.timeWindows.value;
      forall i, day: Day, minute: Minute | 0 <= i < |z| && OpenAt(z[i], Local(day, minute))
        ensures OpenInSome(x, z[i].timezone, Local(day, minute))
      {
        assert OpenInSome(y, z[i].timezone, Local(day, minute));
        var k :| 0 <= k < |y| && y[k].timezone == z[i].timezone && OpenAt(y[k], Local(day, minute));
        assert OpenInSome(x, y[k].timezone, Local(day, minute));
      }
    }
  }

  /** 9:120 comes before 10:00 when hours and minutes are compared in turn, and after it in minutes since midnight. */
  lemma OddTimesEscape(clock: Clock, tz: string)
    requires clock(tz) == Some(Local(0, 660))
    ensures exists p, c, r :: Narrows(p, c) && Matches(c, r, clock) && !Matches(p, r, clock)
  {
    var pw := TimeWindow([0], Some((8, 0)), Some((10, 0)), tz);
    var cw := TimeWindow([0], Some((8, 0)), Some((9, 120)), tz);
    var p := Scope(["read"], None, None, None, None, Some([pw]));
    var c := p.(timeWindows := Some([cw]));
    var r := ActionRequest("read", None, None, None, None);
    assert p.actions[0] == "read" && pw.days[0] == 0 && cw.days[0] == 0;
    assert MinuteOf((10, 0)) == 600 && MinuteOf((9, 120)) == 660;
    assert InWindow(clock, [cw][0]) && ContainedIn([cw][0], [pw][0]);
    assert ContainedInSome(cw, [pw]) && InSome(clock, [cw]);
    assert Narrows(p, c) && Matches(c, r, clock) && !Matches(p, r, clock);
  }
}
