/** Weekly time windows (crates/authority/src/time_window.rs). */
module TimeWindows {
  import opened Prelude

  const DAY: nat := 1440
  const WEEK: nat := 10080

  /** `days` with 0 = Monday; `start` inclusive, `end` exclusive, minutes of the local day. */
  datatype Window = Window(days: seq<nat>, start: nat, end: nat, zone: string)

  /** What parsing guarantees. */
  predicate Wellformed(w: Window) {
    && (forall i :: 0 <= i < |w.days| ==> w.days[i] < 7)
    && w.start < DAY && w.end <= DAY && w.start != w.end
  }

  type Interval = (nat, nat)

  /** Whether local minute-of-week `m` falls in the window opened on day `d`. */
  predicate OpenOn(w: Window, d: nat, m: nat) {
    if w.start < w.end then m / DAY == d && w.start <= m % DAY < w.end
    else (m / DAY == d && w.start <= m % DAY) || (m / DAY == (d + 1) % 7 && m % DAY < w.end)
  }

  predicate Covers(w: Window, m: nat) {
    exists i :: 0 <= i < |w.days| && OpenOn(w, w.days[i], m)
  }

  /** How long a window stays open once it has opened, past midnight if it ends before it starts. */
  function Length(w: Window): int {
    if w.start < w.end then w.end - w.start else DAY - w.start + w.end
  }

  /** Minutes, around the week, since the window of day `d` last opened. */
  function SinceOpening(w: Window, d: nat, m: nat): int {
    (m + WEEK - (d * DAY + w.start)) % WEEK
  }

  /** A window is open exactly for its length after it opens, into the next day and the next week if need be. */
  lemma OpenExact(w: Window, d: nat, m: nat)
    requires Wellformed(w) && d < 7 && m < WEEK
    ensures OpenOn(w, d, m) <==> SinceOpening(w, d, m) < Length(w)
  {
    var day, minute := m / DAY, m % DAY;
    assert m == day * DAY + minute && day < 7;
    var from := d * DAY + w.start;
    if m >= from {
      assert SinceOpening(w, d, m) == m - from;
    } else {
      assert SinceOpening(w, d, m) == m + WEEK - from;
    }
  }

  lemma CoversExact(w: Window, m: nat)
    requires Wellformed(w) && m < WEEK
    ensures Covers(w, m) <==> exists i :: 0 <= i < |w.days| && SinceOpening(w, w.days[i], m) < Length(w)
  {
    forall i | 0 <= i < |w.days| ensures OpenOn(w, w.days[i], m) <==> SinceOpening(w, w.days[i], m) < Length(w) {
      OpenExact(w, w.days[i], m);
    }
  }

  predicate Within(x: Interval, m: nat) {
    x.0 <= m < x.1
  }

  predicate InSome(s: seq<Interval>, m: nat) {
    exists i :: 0 <= i < |s| && Within(s[i], m)
  }

  predicate Proper(s: seq<Interval>) {
    forall i :: 0 <= i < |s| ==> s[i].0 < s[i].1 <= WEEK
  }

  lemma InSomeAppend(s: seq<Interval>, t: seq<Interval>, m: nat)
    ensures InSome(s + t, m) <==> InSome(s, m) || InSome(t, m)
  {
    if InSome(s, m) { var i :| 0 <= i < |s| && Within(s[i], m); assert Within((s + t)[i], m); }
    if InSome(t, m) { var i :| 0 <= i < |t| && Within(t[i], m); assert Within((s + t)[|s| + i], m); }
  }

  function DayIntervals(w: Window, d: nat): seq<Interval> {
    if w.start < w.end then [(d * DAY + w.start, d * DAY + w.end)]
    else
      [(d * DAY + w.start, d * DAY + DAY)] +
      if w.end > 0 then [((d + 1) % 7 * DAY, (d + 1) % 7 * DAY + w.end)] else []
  }

  lemma DayMinutes(d: nat, a: nat, b: nat, m: nat)
    requires a <= DAY && b <= DAY
    ensures Within((d * DAY + a, d * DAY + b), m) <==> m / DAY == d && a <= m % DAY < b
  {
  }

  lemma DayIntervalsExact(w: Window, d: nat, m: nat)
    requires Wellformed(w) && d < 7
    ensures Proper(DayIntervals(w, d)) && (InSome(DayIntervals(w, d), m) <==> OpenOn(w, d, m))
  {
    var s := DayIntervals(w, d);
    DayMinutes(d, w.start, w.end, m);
    DayMinutes(d, w.start, DAY, m);
    DayMinutes((d + 1) % 7, 0, w.end, m);
    assert InSome(s, m) <==> Within(s[0], m) || (|s| > 1 && Within(s[1], m));
  }

  /** The half-open intervals of a window cover exactly its minutes. */
  method Intervals(w: Window) returns (out: seq<Interval>)
    requires Wellformed(w)
    ensures Proper(out) && forall m: nat :: InSome(out, m) <==> Covers(w, m)
  {
    out := [];
    for i := 0 to |w.days|
      invariant Proper(out)
      invariant forall m: nat :: InSome(out, m) <==> exists k :: 0 <= k < i && OpenOn(w, w.days[k], m)
    {
      var d := w.days[i];
      var more := DayIntervals(w, d);
      DayIntervalsExact(w, d, 0);
      forall m: nat
        ensures InSome(out + more, m) <==> exists k :: 0 <= k < i + 1 && OpenOn(w, w.days[k], m)
      {
        InSomeAppend(out, more, m);
        DayIntervalsExact(w, d, m);
      }
      out := out + more;
    }
  }

  /** `local` is the verifier's clock as a minute of the week in the window's zone, if it can be represented. */
  method Contains(w: Window, local: Option<nat>) returns (b: bool)
    requires Wellformed(w)
    ensures b <==> local.Some? && Covers(w, local.value)
  {
    if local.None? {
      return false;
    }
    var s := Intervals(w);
    b := InSome(s, local.value);
  }

  // ---- sorting and merging

  predicate Ascending(s: seq<Interval>) {
    forall i, j :: 0 <= i < j < |s| ==> s[i].0 <= s[j].0
  }

  function InsertInterval(x: Interval, s: seq<Interval>): seq<Interval> {
    if s == [] || x.0 < s[0].0 || (x.0 == s[0].0 && x.1 <= s[0].1)
    then [x] + s
    else [s[0]] + InsertInterval(x, s[1..])
  }

  function SortIntervals(s: seq<Interval>): seq<Interval> {
    if s == [] then [] else InsertInterval(s[0], SortIntervals(s[1..]))
  }

  lemma {:induction false} InsertKeeps(x: Interval, s: seq<Interval>)
    ensures multiset(InsertInterval(x, s)) == multiset(s) + multiset{x}
  {
    if InsertInterval(x, s) != [x] + s {
      assert s == [s[0]] + s[1..];
      InsertKeeps(x, s[1..]);
    }
  }

  lemma ConsAscending(x: Interval, s: seq<Interval>)
    requires Ascending(s) && forall j :: 0 <= j < |s| ==> x.0 <= s[j].0
    ensures Ascending([x] + s)
  {
  }

  lemma {:induction false} InsertSorts(x: Interval, s: seq<Interval>)
    requires Ascending(s)
    ensures Ascending(InsertInterval(x, s))
  {
    if s == [] || x.0 < s[0].0 || (x.0 == s[0].0 && x.1 <= s[0].1) {
      ConsAscending(x, s);
    } else {
      InsertSorts(x, s[1..]);
      InsertKeeps(x, s[1..]);
      var t := InsertInterval(x, s[1..]);
      forall j | 0 <= j < |t| ensures s[0].0 <= t[j].0 {
        assert t[j] in multiset(t);
        if t[j] != x { assert t[j] in s[1..]; }
      }
      ConsAscending(s[0], t);
    }
  }

  lemma {:induction false} SortSorts(s: seq<Interval>)
    ensures Ascending(SortIntervals(s)) && multiset(SortIntervals(s)) == multiset(s)
  {
    if s != [] {
      assert s == [s[0]] + s[1..];
      SortSorts(s[1..]);
      InsertSorts(s[0], SortIntervals(s[1..]));
      InsertKeeps(s[0], SortIntervals(s[1..]));
    }
  }

  lemma SortKeeps(s: seq<Interval>, m: nat)
    ensures InSome(SortIntervals(s), m) <==> InSome(s, m)
  {
    var t := SortIntervals(s);
    SortSorts(s);
    if InSome(s, m) { var i :| 0 <= i < |s| && Within(s[i], m); assert s[i] in multiset(t); assert s[i] in t; }
    if InSome(t, m) { var i :| 0 <= i < |t| && Within(t[i], m); assert t[i] in multiset(s); assert t[i] in s; }
  }

  /** Disjoint, in order, and with a gap between neighbours. */
  predicate Gapped(u: seq<Interval>) {
    && (forall i :: 0 <= i < |u| ==> u[i].0 < u[i].1)
    && (forall i, j :: 0 <= i < j < |u| ==> u[i].1 < u[j].0)
  }

  lemma ExtendLast(u: seq<Interval>, x: Interval, m: nat)
    requires u != [] && u[|u| - 1].0 <= x.0 <= u[|u| - 1].1
    ensures var n := |u| - 1; var y := if u[n].1 >= x.1 then u[n].1 else x.1;
            InSome(u[n := (u[n].0, y)], m) <==> InSome(u, m) || Within(x, m)
  {
    var n := |u| - 1;
    var y := if u[n].1 >= x.1 then u[n].1 else x.1;
    var v := u[n := (u[n].0, y)];
    if InSome(v, m) {
      var i :| 0 <= i < |v| && Within(v[i], m);
      if i < n || Within(u[n], m) { assert Within(u[i], m); }
    }
    if InSome(u, m) { var i :| 0 <= i < |u| && Within(u[i], m); assert Within(v[i], m); }
    if Within(x, m) { assert Within(v[n], m); }
  }

  method Merge(s: seq<Interval>) returns (u: seq<Interval>)
    requires Ascending(s) && Proper(s)
    ensures Gapped(u) && forall m: nat :: InSome(u, m) <==> InSome(s, m)
  {
    u := [];
    for k := 0 to |s|
      invariant Gapped(u)
      invariant u != [] ==> k > 0 && u[|u| - 1].0 <= s[k - 1].0
      invariant forall m: nat :: InSome(u, m) <==> InSome(s[..k], m)
    {
      var x := s[k];
      assert s[..k + 1] == s[..k] + [x];
      ghost var before := u;
      if u != [] && x.0 <= u[|u| - 1].1 {
        var n := |u| - 1;
        u := u[n := (u[n].0, if u[n].1 >= x.1 then u[n].1 else x.1)];
        forall m: nat ensures InSome(u, m) <==> InSome(s[..k + 1], m) {
          ExtendLast(before, x, m);
          InSomeAppend(s[..k], [x], m);
          assert InSome([x], m) <==> Within([x][0], m);
        }
      } else {
        u := u + [x];
        forall m: nat ensures InSome(u, m) <==> InSome(s[..k + 1], m) {
          InSomeAppend(before, [x], m);
          InSomeAppend(s[..k], [x], m);
        }
      }
    }
    assert s[..|s|] == s;
  }

  predicate InOne(x: Interval, u: seq<Interval>) {
    exists i :: 0 <= i < |u| && u[i].0 <= x.0 && x.1 <= u[i].1
  }

  /** In a gapped union, being covered point by point is the same as lying inside one interval. */
  lemma GappedExact(u: seq<Interval>, x: Interval)
    requires Gapped(u) && x.0 < x.1
    ensures InOne(x, u) <==> forall m: nat :: Within(x, m) ==> InSome(u, m)
  {
    if i :| 0 <= i < |u| && u[i].0 <= x.0 && x.1 <= u[i].1 {
      forall m: nat | Within(x, m) ensures InSome(u, m) { assert Within(u[i], m); }
    }
    if forall m: nat :: Within(x, m) ==> InSome(u, m) {
      assert Within(x, x.0);
      var i :| 0 <= i < |u| && Within(u[i], x.0);
      assert !InSome(u, u[i].1);
      assert !Within(x, u[i].1);
    }
  }

  /** Every minute of `child` is a minute of some parent in the same zone. */
  predicate CoveredBy(child: Window, parents: seq<Window>) {
    forall m :: 0 <= m < WEEK && Covers(child, m) ==>
                  exists i :: 0 <= i < |parents| && parents[i].zone == child.zone && Covers(parents[i], m)
  }

  /** The intervals of all parents in `zone`. */
  method Collect(parents: seq<Window>, zone: string) returns (all: seq<Interval>)
    requires forall i :: 0 <= i < |parents| ==> Wellformed(parents[i])
    ensures Proper(all)
    ensures forall m: nat :: InSome(all, m) <==>
              exists i :: 0 <= i < |parents| && parents[i].zone == zone && Covers(parents[i], m)
  {
    all := [];
    for k := 0 to |parents|
      invariant Proper(all)
      invariant forall m: nat :: InSome(all, m) <==>
                  exists i :: 0 <= i < k && parents[i].zone == zone && Covers(parents[i], m)
    {
      if parents[k].zone == zone {
        var more := Intervals(parents[k]);
        forall m: nat
          ensures InSome(all + more, m) <==>
                    exists i :: 0 <= i < k + 1 && parents[i].zone == zone && Covers(parents[i], m)
        {
          InSomeAppend(all, more, m);
        }
        all := all + more;
      }
    }
  }

  lemma SortProper(s: seq<Interval>)
    requires Proper(s)
    ensures Proper(SortIntervals(s)) && Ascending(SortIntervals(s))
  {
    SortSorts(s);
    forall i | 0 <= i < |SortIntervals(s)| ensures SortIntervals(s)[i].0 < SortIntervals(s)[i].1 <= WEEK {
      assert SortIntervals(s)[i] in multiset(s);
    }
  }

  /** The interval test decides coverage exactly. */
  method CheckCovered(child: Window, parents: seq<Window>) returns (b: bool)
    requires Wellformed(child) && forall i :: 0 <= i < |parents| ==> Wellformed(parents[i])
    ensures b <==> CoveredBy(child, parents)
  {
    var all := Collect(parents, child.zone);
    SortProper(all);
    var union := Merge(SortIntervals(all));
    var own := Intervals(child);
    forall m: nat ensures InSome(union, m) <==> InSome(all, m) { SortKeeps(all, m); }
    b := forall i :: 0 <= i < |own| ==> InOne(own[i], union);
    PointwiseCovered(own, union);
    assert b <==> forall m: nat :: InSome(own, m) ==> InSome(union, m);
    CoversInWeek(child);
  }

  lemma CoversInWeek(w: Window)
    requires Wellformed(w)
    ensures forall m: nat :: Covers(w, m) ==> m < WEEK
  {
  }

  lemma PointwiseCovered(own: seq<Interval>, union: seq<Interval>)
    requires Proper(own) && Gapped(union)
    ensures (forall i :: 0 <= i < |own| ==> InOne(own[i], union)) <==>
              forall m: nat :: InSome(own, m) ==> InSome(union, m)
  {
    if forall i :: 0 <= i < |own| ==> InOne(own[i], union) {
      forall m: nat | InSome(own, m) ensures InSome(union, m) {
        var i :| 0 <= i < |own| && Within(own[i], m);
        GappedExact(union, own[i]);
      }
    }
    if forall m: nat :: InSome(own, m) ==> InSome(union, m) {
      forall i | 0 <= i < |own| ensures InOne(own[i], union) {
        forall m: nat | Within(own[i], m) ensures InSome(union, m) { assert InSome(own, m); }
        GappedExact(union, own[i]);
      }
    }
  }

  /** Coverage at issuance carries over to every instant: whenever the child is open, some parent is. */
  lemma CoveredContains(child: Window, parents: seq<Window>, local: string -> Option<nat>)
    requires CoveredBy(child, parents)
    requires local(child.zone).Some? && local(child.zone).value < WEEK && Covers(child, local(child.zone).value)
    ensures exists i :: 0 <= i < |parents| && local(parents[i].zone).Some?
              && Covers(parents[i], local(parents[i].zone).value)
  {
    var m := local(child.zone).value;
    var i :| 0 <= i < |parents| && parents[i].zone == child.zone && Covers(parents[i], m);
  }

  /** Coverage composes along a chain. */
  lemma CoveredTransitive(child: Window, middle: seq<Window>, parents: seq<Window>)
    requires CoveredBy(child, middle) && forall i :: 0 <= i < |middle| ==> CoveredBy(middle[i], parents)
    ensures CoveredBy(child, parents)
  {
    forall m | 0 <= m < WEEK && Covers(child, m)
      ensures exists i :: 0 <= i < |parents| && parents[i].zone == child.zone && Covers(parents[i], m)
    {
      var k :| 0 <= k < |middle| && middle[k].zone == child.zone && Covers(middle[k], m);
      assert CoveredBy(middle[k], parents);
    }
  }
}
