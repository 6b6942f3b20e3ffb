/** Replay protection for nonces chosen by the agent (crates/authority/src/nonce.rs, verifier.rs). */
module Nonces {

  /** What is left once everything that expires at or before `now` is dropped. */
  function Retained(seen: map<string, int>, now: int): map<string, int> {
    map n | n in seen && seen[n] > now :: seen[n]
  }

  function Inserted(seen: map<string, int>, nonce: string, expires: int, now: int): map<string, int> {
    var kept := Retained(seen, now);
    if nonce in kept then kept else kept[nonce := expires]
  }

  class MemoryNonceStore {
    var seen: map<string, int>

    constructor ()
      ensures seen == map[]
    {
      seen := map[];
    }

    /** Records `nonce` until `expires` unless it is recorded and not yet expired. */
    method CheckAndInsert(nonce: string, expires: int, now: int) returns (ok: bool)
      modifies this
      ensures ok <==> !(nonce in old(seen) && old(seen)[nonce] > now)
      ensures seen == Inserted(old(seen), nonce, expires, now)
    {
      seen := map n | n in seen && seen[n] > now :: seen[n];
      if nonce in seen { return false; }
      seen := seen[nonce := expires];
      return true;
    }
  }

  // ---- runs

  /** A presentation at `now`; `reaches` when every check before the store passed. */
  datatype Attempt = Attempt(nonce: string, expires: int, now: int, reaches: bool)

  /** The store after a run. */
  function Store(run: seq<Attempt>): map<string, int> {
    if run == [] then map[]
    else
      var a, before := run[|run| - 1], Store(run[..|run| - 1]);
      if a.reaches then Inserted(before, a.nonce, a.expires, a.now) else before
  }

  predicate Accepted(run: seq<Attempt>, i: nat)
    requires i < |run|
  {
    var before := Store(run[..i]);
    run[i].reaches && !(run[i].nonce in before && before[run[i].nonce] > run[i].now)
  }

  predicate Monotone(run: seq<Attempt>) {
    forall i, j :: 0 <= i < j < |run| ==> run[i].now <= run[j].now
  }

  /** An accepted nonce stays recorded until it expires. */
  lemma {:induction false} Remembered(run: seq<Attempt>, i: nat, n: nat)
    requires Monotone(run) && i < n <= |run| && Accepted(run, i)
    requires run[n - 1].now < run[i].expires
    ensures var s := Store(run[..n]); run[i].nonce in s && s[run[i].nonce] == run[i].expires
  {
    assert run[..n][..n - 1] == run[..n - 1];
    if n - 1 > i { Remembered(run, i, n - 1); }
  }

  /** A nonce recorded with expiry `e` is never accepted again before `e`. */
  lemma NotAgainBefore(run: seq<Attempt>, i: nat, j: nat)
    requires Monotone(run) && i < j < |run| && Accepted(run, i) && Accepted(run, j) && run[i].nonce == run[j].nonce
    ensures run[j].now >= run[i].expires
  {
    if run[j].now < run[i].expires { Remembered(run, i, j); }
  }

  // ---- the verifier's use of the store

  datatype Policy = Policy(maxAge: nat, maxFuture: nat)

  /** `iat as i64`: truncation towards zero. */
  function Truncate(x: real): int {
    if x >= 0.0 then x.Floor else -((-x).Floor)
  }

  predicate Fresh(p: Policy, iat: real, now: int) {
    (now - p.maxAge) as real <= iat <= (now + p.maxFuture) as real
  }

  function Expiry(p: Policy, iat: real): int {
    Truncate(iat) + p.maxAge
  }

  /**
   `run` consists of presentations that only reach the store when fresh, with the expiry the
   verifier gives them.
   */
  predicate Verified(p: Policy, run: seq<Attempt>, iats: seq<real>) {
    && |iats| == |run| && Monotone(run)
    && forall i :: 0 <= i < |run| ==>
         run[i].expires == Expiry(p, iats[i]) && (run[i].reaches ==> Fresh(p, iats[i], run[i].now))
  }

  lemma TruncateBelow(x: real, n: int)
    requires x <= n as real
    ensures Truncate(x) <= n
  {
  }

  /** The store only holds nonces of a bounded recent window. */
  lemma {:induction false} Bounded(p: Policy, run: seq<Attempt>, iats: seq<real>, n: string)
    requires Verified(p, run, iats) && n in Store(run)
    ensures Store(run)[n] <= run[|run| - 1].now + p.maxAge + p.maxFuture
  {
    var k := |run| - 1;
    var a, before := run[k], run[..k];
    assert Verified(p, before, iats[..k]);
    if n in Store(before) {
      Bounded(p, before, iats[..k], n);
      assert before[k - 1] == run[k - 1];
    }
    if a.reaches { TruncateBelow(iats[k], a.now + p.maxFuture); }
  }

  /**
   The same key binding is accepted a second time only in the one second in which it is still fresh
   but already forgotten.
   */
  lemma ReplayOnlyAtExpiry(p: Policy, run: seq<Attempt>, iats: seq<real>, i: nat, j: nat)
    requires Verified(p, run, iats) && i < j < |run| && Accepted(run, i) && Accepted(run, j)
    requires run[i].nonce == run[j].nonce && iats[i] == iats[j]
    ensures run[j].now == Expiry(p, iats[i])
  {
    NotAgainBefore(run, i, j);
    assert Fresh(p, iats[j], run[j].now);
  }

  /** Between `i` and `j` the nonce reaches the store with no other expiry. */
  predicate OnlyThis(run: seq<Attempt>, i: nat, j: nat)
    requires i < j <= |run|
  {
    forall k :: i < k < j && run[k].reaches && run[k].nonce == run[i].nonce ==> run[k].expires == run[i].expires
  }

  /** What the store still holds of the nonce is the expiry it was recorded with. */
  lemma {:induction false} SameExpiry(run: seq<Attempt>, i: nat, n: nat)
    requires i < n <= |run| && Accepted(run, i) && OnlyThis(run, i, n)
    ensures run[i].nonce in Store(run[..n]) ==> Store(run[..n])[run[i].nonce] == run[i].expires
  {
    assert run[..n][..n - 1] == run[..n - 1];
    if n - 1 > i { SameExpiry(run, i, n - 1); }
  }

  /**
   In every run, once a key binding was accepted, presenting it again while it is fresh is
   accepted if and only if that is the second in which its nonce expires.
   */
  lemma ReplayExactlyAtExpiry(p: Policy, run: seq<Attempt>, iats: seq<real>, i: nat, j: nat)
    requires Verified(p, run, iats) && i < j < |run| && Accepted(run, i) && run[j].reaches
    requires run[i].nonce == run[j].nonce && iats[i] == iats[j] && OnlyThis(run, i, j)
    ensures Accepted(run, j) <==> run[j].now == Expiry(p, iats[i])
  {
    if Accepted(run, j) {
      ReplayOnlyAtExpiry(p, run, iats, i, j);
    } else {
      SameExpiry(run, i, j);
    }
  }

  /** The shortest such run: two presentations to an empty store. */
  lemma SecondPresentation(p: Policy, iat: real, nonce: string, now: int, later: int)
    requires Fresh(p, iat, now) && Fresh(p, iat, later) && now <= later
    ensures var run := [Attempt(nonce, Expiry(p, iat), now, true), Attempt(nonce, Expiry(p, iat), later, true)];
            Accepted(run, 0) && (Accepted(run, 1) <==> later == Expiry(p, iat))
  {
    var run := [Attempt(nonce, Expiry(p, iat), now, true), Attempt(nonce, Expiry(p, iat), later, true)];
    assert run[..0] == [];
    ReplayExactlyAtExpiry(p, run, [iat, iat], 0, 1);
  }
}
