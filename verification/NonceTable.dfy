/** The nonce table of the v0 verifier service, with pruning (crates/verifier-service/src/db.rs, main.rs). */
module NonceTable {
  // Freshness is the rule of crates/core/src/verifier.rs.

  type Row = (string, string)

  function Recorded(rows: map<Row, real>, key: Row, now: real): map<Row, real> {
    if key in rows then rows else rows[key := now]
  }

  function Pruned(rows: map<Row, real>, now: real, retention: real): map<Row, real> {
    map k | k in rows && rows[k] >= now - retention :: rows[k]
  }

  /** The answer handed to the verifier: replays what the table said, for that very pair only. */
  datatype Precomputed = Precomputed(key: Row, alreadySeen: bool) {
    function SeenAndRecord(agent: string, nonce: string): bool {
      (agent, nonce) != key || alreadySeen
    }
  }

  class Table {
    var rows: map<Row, real>

    constructor ()
      ensures rows == map[]
    {
      rows := map[];
    }

    /** `insert ... on conflict do nothing`. */
    method Precheck(agent: string, nonce: string, now: real) returns (store: Precomputed)
      modifies this
      ensures rows == Recorded(old(rows), (agent, nonce), now)
      ensures store == Precomputed((agent, nonce), (agent, nonce) in old(rows))
    {
      store := Precomputed((agent, nonce), (agent, nonce) in rows);
      if !store.alreadySeen { rows := rows[(agent, nonce) := now]; }
    }

    method Prune(now: real, retention: real)
      modifies this
      ensures rows == Pruned(old(rows), now, retention)
    {
      rows := map k | k in rows && !(rows[k] < now - retention) :: rows[k];
    }
  }

  // ---- runs

  datatype Config = Config(maxAge: real, maxSkew: real)

  /** Seconds kept beyond the freshness window. */
  const MARGIN: real := 60.0

  function Retention(c: Config): real {
    c.maxAge + c.maxSkew + MARGIN
  }

  /** A signed message; only one text carries this pair and issue time. */
  datatype Message = Message(agent: string, nonce: string, issuedAt: real)

  /** `Verify` finishes the request that arrived as event `arrival`; `ok` when every other check passes. */
  datatype Event =
    | Arrive(message: Message, now: real)
    | Verify(arrival: nat, now: real, ok: bool)
    | Prune(now: real)

  function Rows(c: Config, run: seq<Event>): map<Row, real> {
    if run == [] then map[]
    else
      var before := Rows(c, run[..|run| - 1]);
      match run[|run| - 1]
      case Arrive(m, now) => Recorded(before, (m.agent, m.nonce), now)
      case Verify(_, _, _) => before
      case Prune(now) => Pruned(before, now, Retention(c))
  }

  predicate Fresh(c: Config, m: Message, now: real) {
    m.issuedAt <= now + c.maxSkew && m.issuedAt >= now - c.maxAge
  }

  /** What the table answered when the request arrived. */
  function Answer(c: Config, run: seq<Event>, i: nat): Precomputed
    requires i < |run| && run[i].Arrive?
  {
    var m := run[i].message;
    Precomputed((m.agent, m.nonce), (m.agent, m.nonce) in Rows(c, run[..i]))
  }

  predicate Accepted(c: Config, run: seq<Event>, v: nat)
    requires v < |run|
  {
    && run[v].Verify? && run[v].ok && run[v].arrival < v && run[run[v].arrival].Arrive?
    && var m := run[run[v].arrival].message;
       Fresh(c, m, run[v].now) && !Answer(c, run, run[v].arrival).SeenAndRecord(m.agent, m.nonce)
  }

  predicate Monotone(run: seq<Event>) {
    forall i, j :: 0 <= i < j < |run| ==> run[i].now <= run[j].now
  }

  /** Each request is verified once, after it arrived and at most `MARGIN` later. */
  predicate Prompt(run: seq<Event>) {
    && (forall v :: 0 <= v < |run| && run[v].Verify? && run[v].arrival < v ==>
         run[v].now <= run[run[v].arrival].now + MARGIN)
    && (forall u, v :: 0 <= u < v < |run| && run[u].Verify? && run[v].Verify? ==> run[u].arrival != run[v].arrival)
  }

  /** A row outlives every message whose recording put it there. */
  lemma {:induction false} RowStays(c: Config, run: seq<Event>, i: nat, n: nat)
    requires Monotone(run) && i < n <= |run| && run[i].Arrive? && !Answer(c, run, i).alreadySeen
    requires run[n - 1].now <= run[i].now + Retention(c)
    ensures var k := (run[i].message.agent, run[i].message.nonce);
            k in Rows(c, run[..n]) && Rows(c, run[..n])[k] == run[i].now
  {
    assert run[..n][..n - 1] == run[..n - 1];
    if n - 1 > i { RowStays(c, run, i, n - 1); }
  }

  /**
   Of two recordings of one message that are both answered "new", the later comes too late for the
   message to be fresh.
   */
  lemma RecordedTwice(c: Config, run: seq<Event>, i: nat, j: nat, u: nat, v: nat)
    requires Monotone(run) && Prompt(run) && i < j && u < |run| && v < |run| && c.maxAge >= 0.0 && c.maxSkew >= 0.0
    requires Accepted(c, run, u) && Accepted(c, run, v) && run[u].arrival == i && run[v].arrival == j
    ensures run[i].message != run[j].message
  {
    if run[i].message == run[j].message {
      assert run[j].now <= run[i].now + Retention(c);
      RowStays(c, run, i, j);
    }
  }

  /** No schedule of prunes lets one signed message be accepted twice. */
  lemma AcceptedOnce(c: Config, run: seq<Event>, u: nat, v: nat)
    requires Monotone(run) && Prompt(run) && c.maxAge >= 0.0 && c.maxSkew >= 0.0
    requires u < v < |run| && Accepted(c, run, u) && Accepted(c, run, v)
    ensures run[run[u].arrival].message != run[run[v].arrival].message
  {
    if run[u].arrival < run[v].arrival {
      RecordedTwice(c, run, run[u].arrival, run[v].arrival, u, v);
    } else {
      RecordedTwice(c, run, run[v].arrival, run[u].arrival, v, u);
    }
  }

  /** The margin is needed: verified later than that, a message gets through twice. */
  lemma LateVerificationRepeats(c: Config, m: Message, delay: real)
    requires c.maxAge >= 0.0 && c.maxSkew >= 0.0 && delay > MARGIN
    requires m.issuedAt == delay + c.maxSkew
    ensures exists run: seq<Event> ::
              && Monotone(run) && |run| == 5 && run[1].Verify? && run[4].Verify?
              && run[1].arrival == 0 && run[4].arrival == 3 && run[0] == Arrive(m, 0.0) && run[1].now == delay
              && run[3].Arrive? && run[3].message == m && Accepted(c, run, 1) && Accepted(c, run, 4)
  {
    var t := delay + c.maxSkew + c.maxAge;
    var run := [Arrive(m, 0.0), Verify(0, delay, true), Prune(t), Arrive(m, t), Verify(3, t, true)];
    assert run[..0] == [];
    assert run[..1] == [run[0]] && run[..1][..0] == [];
    assert run[..2][..1] == run[..1] && run[..3][..2] == run[..2];
    var k := (m.agent, m.nonce);
    assert Rows(c, run[..1]) == map[k := 0.0];
    assert Rows(c, run[..2]) == map[k := 0.0];
    assert 0.0 < t - Retention(c);
    assert Rows(c, run[..3]) == map[];
    assert Accepted(c, run, 1) && Accepted(c, run, 4);
  }
}
