/** The App Attest counter protocol under concurrent requests (crates/issuer-service/src/service.rs). */
module DeviceCounter {
  // A read, a conditional advance and a conditional flag are separate atomic steps
  // on one device row.

  import opened Prelude

  type Digest = seq<int>

  datatype Status = Active | Flagged | Revoked

  /** The columns the protocol touches; the digest is null until the first accepted assertion. */
  datatype Row = Row(counter: nat, last: Option<Digest>, status: Status)

  const ENROLLED := Row(0, None, Active)

  /** A validly signed assertion. */
  datatype Assertion = Assertion(counter: nat, digest: Digest)

  predicate Advances(r: Row, a: Assertion) {
    r.status.Active? && r.counter < a.counter
  }

  /** `is distinct from`: a null digest differs from every digest. */
  predicate Conflicts(r: Row, a: Assertion) {
    r.status.Active? && r.counter == a.counter && r.last != Some(a.digest)
  }

  class Device {
    var row: Row

    constructor ()
      ensures row == ENROLLED
    {
      row := ENROLLED;
    }

    /** The conditional update that moves the counter; how many rows it changed. */
    method Advance(a: Assertion) returns (changed: nat)
      modifies this
      ensures changed == if Advances(old(row), a) then 1 else 0
      ensures row == if changed == 1 then Row(a.counter, Some(a.digest), Active) else old(row)
    {
      changed := 0;
      if row.status.Active? && row.counter < a.counter {
        row := row.(counter := a.counter, last := Some(a.digest));
        changed := 1;
      }
    }

    /** The conditional update that flags the device. */
    method Flag(a: Assertion) returns (changed: nat)
      modifies this
      ensures changed == if Conflicts(old(row), a) then 1 else 0
      ensures row == old(row).(status := if changed == 1 then Flagged else old(row).status)
    {
      changed := 0;
      if row.status.Active? && row.counter == a.counter && row.last != Some(a.digest) {
        row := row.(status := Flagged);
        changed := 1;
      }
    }
  }

  // ---- interleavings

  datatype Outcome = Verified | CounterConflict | Replay | NotActive

  /** Where a request is: read and signature checked; counter not advanced; not flagged either; answered. */
  datatype Phase =
    | Checked(a: Assertion)
    | Behind(a: Assertion)
    | Unflagged(a: Assertion)
    | Done(a: Assertion, outcome: Outcome)

  datatype State = State(row: Row, phases: map<nat, Phase>, verified: seq<Assertion>, conflicts: seq<Assertion>)

  const START := State(ENROLLED, map[], [], [])

  /** One atomic step: a request starts, or moves on; an administrator revokes. */
  datatype Step = Begin(id: nat, a: Assertion) | Move(id: nat) | Revoke

  function MoveOn(s: State, id: nat, p: Phase): State {
    match p
    case Checked(a) =>
      if Advances(s.row, a)
      then State(Row(a.counter, Some(a.digest), Active), s.phases[id := Done(a, Verified)], s.verified + [a],
            s.conflicts)
      else s.(phases := s.phases[id := Behind(a)])
    case Behind(a) =>
      if Conflicts(s.row, a)
      then State(s.row.(status := Flagged), s.phases[id := Done(a, CounterConflict)], s.verified, s.conflicts + [a])
      else s.(phases := s.phases[id := Unflagged(a)])
    case Unflagged(a) => s.(phases := s.phases[id := Done(a, if s.row.status.Active? then Replay else NotActive)])
    case Done(_, _) => s
  }

  function Next(s: State, step: Step): State {
    match step
    case Begin(id, a) =>
      if id in s.phases then s
      else s.(phases := s.phases[id := if s.row.status.Active? then Checked(a) else Done(a, NotActive)])
    case Move(id) => if id in s.phases then MoveOn(s, id, s.phases[id]) else s
    case Revoke => s.(row := s.row.(status := Revoked))
  }

  function After(run: seq<Step>): State {
    if run == [] then START else Next(After(run[..|run| - 1]), run[|run| - 1])
  }

  // ---- invariants of every interleaving

  predicate Increasing(s: seq<Assertion>) {
    forall i, j :: 0 <= i < j < |s| ==> s[i].counter < s[j].counter
  }

  /** The row shows the last accepted assertion, if any. */
  predicate RowShows(row: Row, verified: seq<Assertion>) {
    if verified == [] then row.counter == 0 && row.last.None?
    else row.counter == verified[|verified| - 1].counter && row.last == Some(verified[|verified| - 1].digest)
  }

  /** A conflict is proof: another digest was accepted under the counter, or the counter is 0 and nothing was. */
  predicate Evidence(a: Assertion, verified: seq<Assertion>) {
    || (verified == [] && a.counter == 0)
    || (verified != [] && verified[|verified| - 1].counter == a.counter
         && verified[|verified| - 1].digest != a.digest)
  }

  /** Requests in flight and conflicts only hold what was presented. */
  predicate Presented(s: State, seen: set<Assertion>) {
    && (forall id :: id in s.phases ==> s.phases[id].a in seen)
    && (forall i :: 0 <= i < |s.verified| ==> s.verified[i] in seen)
    && (forall i :: 0 <= i < |s.conflicts| ==> s.conflicts[i] in seen)
  }

  predicate Invariant(s: State) {
    && Increasing(s.verified) && RowShows(s.row, s.verified)
    && |s.conflicts| <= 1 && (s.row.status.Flagged? ==> |s.conflicts| == 1)
    && (|s.conflicts| == 1 ==> !s.row.status.Active? && Evidence(s.conflicts[0], s.verified))
    && (forall i :: 0 <= i < |s.verified| ==> s.verified[i].counter > 0)
  }

  lemma MoveKeeps(s: State, id: nat, p: Phase)
    requires Invariant(s)
    ensures Invariant(MoveOn(s, id, p))
  {
    match p
    case Checked(a) =>
      if Advances(s.row, a) { assert forall i :: 0 <= i < |s.verified| ==> s.verified[i].counter < a.counter; }
    case _ =>
  }

  lemma {:induction false} RunKeeps(run: seq<Step>)
    ensures Invariant(After(run))
  {
    if run != [] {
      var s, step := After(run[..|run| - 1]), run[|run| - 1];
      RunKeeps(run[..|run| - 1]);
      if step.Move? && step.id in s.phases { MoveKeeps(s, step.id, s.phases[step.id]); }
    }
  }

  /** Each counter value is accepted at most once, and in increasing order. */
  lemma AcceptedOnce(run: seq<Step>, i: nat, j: nat)
    requires i < j < |After(run).verified|
    ensures After(run).verified[i].counter < After(run).verified[j].counter
  {
    RunKeeps(run);
  }

  /** From one point of a run to a later one. */
  predicate Later(s: State, t: State) {
    && s.row.counter <= t.row.counter && s.verified <= t.verified && s.conflicts <= t.conflicts
    && (!s.row.status.Active? ==>
         !t.row.status.Active? && t.verified == s.verified && t.conflicts == s.conflicts
               && t.row.counter == s.row.counter)
  }

  lemma {:induction false} RunForward(run: seq<Step>, i: nat)
    requires i <= |run|
    ensures Later(After(run[..i]), After(run))
  {
    if i == |run| {
      assert run[..i] == run;
    } else {
      var before := run[..|run| - 1];
      assert before[..i] == run[..i];
      RunForward(before, i);
    }
  }

  /**
   The counter never decreases, nothing is accepted once the device is flagged or revoked, and what
   was accepted stays on record.
   */
  lemma NeverBack(run: seq<Step>, i: nat, j: nat)
    requires i <= j <= |run|
    ensures Later(After(run[..i]), After(run[..j]))
  {
    assert run[..j][..i] == run[..i];
    RunForward(run[..j], i);
  }

  // ---- honest devices

  function Assertions(run: seq<Step>): set<Assertion> {
    if run == [] then {}
    else Assertions(run[..|run| - 1]) + if run[|run| - 1].Begin? then {run[|run| - 1].a} else {}
  }

  lemma {:induction false} RunPresented(run: seq<Step>)
    ensures Presented(After(run), Assertions(run))
  {
    if run != [] {
      RunPresented(run[..|run| - 1]);
      var s := After(run[..|run| - 1]);
      var step := run[|run| - 1];
      assert Presented(s, Assertions(run));
      if step.Move? && step.id in s.phases { MovePresented(s, step.id, s.phases[step.id], Assertions(run)); }
    }
  }

  lemma MovePresented(s: State, id: nat, p: Phase, seen: set<Assertion>)
    requires Presented(s, seen) && p.a in seen
    ensures Presented(MoveOn(s, id, p), seen)
  {
  }

  /** A flag is backed by two different assertions with one counter, or by one with counter 0. */
  lemma FlagHasCause(run: seq<Step>)
    requires After(run).row.status.Flagged?
    ensures exists a :: a in Assertions(run)
              && (a.counter == 0 || exists b ::
                   b in Assertions(run) && b.counter == a.counter && b.digest != a.digest)
  {
    RunKeeps(run);
    RunPresented(run);
    var s := After(run);
    var a := s.conflicts[0];
    assert a in Assertions(run);
    if a.counter != 0 {
      var b := s.verified[|s.verified| - 1];
      assert b in Assertions(run) && b.counter == a.counter && b.digest != a.digest;
    }
  }

  /** A key that signs counters from 1 on, and never two digests under one of them. */
  ghost predicate Honest(seen: set<Assertion>) {
    && (forall a :: a in seen ==> a.counter >= 1)
    && (forall a, b :: a in seen && b in seen && a.counter == b.counter ==> a.digest == b.digest)
  }

  /** Whatever is replayed, in whatever order, an honest device is never flagged. */
  lemma HonestNeverFlagged(run: seq<Step>)
    requires Honest(Assertions(run))
    ensures !After(run).row.status.Flagged?
  {
    if After(run).row.status.Flagged? { FlagHasCause(run); }
  }

  /**
   The one conflict on record has counter 0 exactly when nothing was accepted; otherwise it is a second
   digest under the last accepted counter.
   */
  lemma ConflictExact(run: seq<Step>)
    requires After(run).row.status.Flagged?
    ensures var s := After(run);
            && |s.conflicts| == 1 && (s.conflicts[0].counter == 0 <==> s.verified == [])
            && (s.verified != [] ==>
                  && s.conflicts[0].counter == s.verified[|s.verified| - 1].counter
                  && s.conflicts[0].digest != s.verified[|s.verified| - 1].digest)
  {
    RunKeeps(run);
  }

  /** A request carried through without interruption. */
  function Alone(id: nat, a: Assertion): seq<Step> {
    [Begin(id, a), Move(id), Move(id)]
  }

  /**
   After any run that leaves the device active, an assertion carried through flags it exactly when it
   is such a conflict: the null digest of a device that never asserted counts as different.
   */
  lemma FlagsExactly(run: seq<Step>, id: nat, a: Assertion)
    requires After(run).row.status.Active? && id !in After(run).phases
    ensures After(run + Alone(id, a)).row.status.Flagged? <==> Evidence(a, After(run).verified)
  {
    var one, two, all := run + [Begin(id, a)], run + [Begin(id, a), Move(id)], run + Alone(id, a);
    assert all[..|all| - 1] == two && two[..|two| - 1] == one && one[..|one| - 1] == run;
    RunKeeps(run);
    assert After(one).phases[id] == Checked(a) && After(one).row == After(run).row;
    assert After(all) == Next(After(two), Move(id));
  }

  /** The counter of the last accepted assertion, 0 before the first. */
  function LastCounter(verified: seq<Assertion>): nat {
    if verified == [] then 0 else verified[|verified| - 1].counter
  }

  /** Four steps of one request, with nothing in between. */
  function Through(s: State, id: nat, a: Assertion): State {
    Next(Next(Next(Next(s, Begin(id, a)), Move(id)), Move(id)), Move(id))
  }

  lemma ThroughExact(s: State, id: nat, a: Assertion)
    requires Invariant(s) && s.row.status.Active? && id !in s.phases
    ensures var t := Through(s, id, a);
            && id in t.phases
            && t.phases[id] ==
               Done(a, if a.counter > LastCounter(s.verified) then Verified
                       else if Evidence(a, s.verified) then CounterConflict else Replay)
            && t.verified == (if a.counter > LastCounter(s.verified) then s.verified + [a] else s.verified)
            && (a.counter > LastCounter(s.verified) ==> t.row == Row(a.counter, Some(a.digest), Active))
  {
    var one := Next(s, Begin(id, a));
    assert one.phases[id] == Checked(a) && one.row == s.row && one.verified == s.verified;
    if a.counter > LastCounter(s.verified) {
      var two := Next(one, Move(id));
      assert two.phases[id] == Done(a, Verified);
      assert Through(s, id, a) == two;
    } else {
      var two := Next(one, Move(id));
      assert two.phases[id] == Behind(a) && two.row == s.row && two.verified == s.verified;
    }
  }

  lemma RunStep(run: seq<Step>, step: Step)
    ensures After(run + [step]) == Next(After(run), step)
  {
    assert (run + [step])[..|run|] == run;
  }

  lemma RunThrough(run: seq<Step>, id: nat, a: Assertion)
    ensures After(run + [Begin(id, a), Move(id), Move(id), Move(id)]) == Through(After(run), id, a)
  {
    RunStep(run, Begin(id, a));
    RunStep(run + [Begin(id, a)], Move(id));
    RunStep(run + [Begin(id, a)] + [Move(id)], Move(id));
    RunStep(run + [Begin(id, a)] + [Move(id)] + [Move(id)], Move(id));
    assert run + [Begin(id, a)] + [Move(id)] + [Move(id)] + [Move(id)] ==
           run + [Begin(id, a), Move(id), Move(id), Move(id)];
  }

  /**
   After any run that leaves the device active, an assertion carried through is verified exactly when its
   counter is larger than every counter accepted so far; otherwise it is a conflict or a replay.
   */
  lemma AnswersExactly(run: seq<Step>, id: nat, a: Assertion)
    requires After(run).row.status.Active? && id !in After(run).phases
    ensures var s, t := After(run), After(run + [Begin(id, a), Move(id), Move(id), Move(id)]);
            && id in t.phases
            && t.phases[id] ==
               Done(a, if a.counter > LastCounter(s.verified) then Verified
                       else if Evidence(a, s.verified) then CounterConflict else Replay)
            && t.verified == (if a.counter > LastCounter(s.verified) then s.verified + [a] else s.verified)
            && (a.counter > LastCounter(s.verified) ==> t.row == Row(a.counter, Some(a.digest), Active))
  {
    RunKeeps(run);
    ThroughExact(After(run), id, a);
    RunThrough(run, id, a);
  }

  /** The last accepted counter is the largest. */
  lemma LastIsLargest(run: seq<Step>, i: nat)
    requires i < |After(run).verified|
    ensures After(run).verified[i].counter <= LastCounter(After(run).verified)
  {
    RunKeeps(run);
  }

  // ---- answers

  predicate Won(s: State, id: nat) {
    id in s.phases && s.phases[id].Done? && s.phases[id].outcome.Verified?
  }

  /** A request answered "verified" is on record, and no other request won with its counter. */
  ghost predicate Answered(s: State) {
    && (forall id :: Won(s, id) ==> s.phases[id].a in s.verified)
    && (forall i, j :: Won(s, i) && Won(s, j) && i != j ==> s.phases[i].a.counter != s.phases[j].a.counter)
  }

  lemma MoveAnswers(s: State, id: nat)
    requires Invariant(s) && Answered(s) && id in s.phases
    ensures Answered(MoveOn(s, id, s.phases[id]))
  {
    var t := MoveOn(s, id, s.phases[id]);
    forall i | Won(t, i) ensures t.phases[i].a in t.verified && (i != id ==> Won(s, i)) {
      if i != id { assert Won(s, i); }
    }
    forall i, j | Won(t, i) && Won(t, j) && i != j ensures t.phases[i].a.counter != t.phases[j].a.counter {
      if i == id { Outruns(s, id, j); } else if j == id { Outruns(s, id, i); }
    }
  }

  /** A request that wins now has a counter no earlier winner had. */
  lemma Outruns(s: State, id: nat, other: nat)
    requires Invariant(s) && Answered(s) && id in s.phases && Won(s, other) && other != id
    requires Won(MoveOn(s, id, s.phases[id]), id)
    ensures s.phases[id].a.counter != s.phases[other].a.counter
  {
    if s.phases[id].Checked? {
      var k :| 0 <= k < |s.verified| && s.verified[k] == s.phases[other].a;
      assert s.verified[k].counter <= s.row.counter;
    } else {
      assert Won(s, id);
    }
  }

  /** Of concurrent requests with one counter at most one is answered "verified". */
  lemma {:induction false} OneWinner(run: seq<Step>)
    ensures Answered(After(run))
  {
    if run != [] {
      var s, step := After(run[..|run| - 1]), run[|run| - 1];
      OneWinner(run[..|run| - 1]);
      RunKeeps(run[..|run| - 1]);
      if step.Move? && step.id in s.phases {
        MoveAnswers(s, step.id);
      } else {
        assert forall id :: Won(Next(s, step), id) ==> Won(s, id);
      }
    }
  }
}
