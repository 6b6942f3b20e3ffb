/** The per-address fixed-window rate limiter (crates/issuer-service/src/ratelimit.rs), over all runs. */
module RateLimiting {

  /** Sixty seconds, in the clock's nanoseconds. */
  const WINDOW: int := 60_000_000_000
  const MAX_TRACKED: nat := 50_000

  type Octet = n: nat | n < 256

  datatype Ip = V4(octets: seq<Octet>) | V6(octets: seq<Octet>)

  /** IPv6 clients are counted by their /64. */
  function Key(ip: Ip): Ip {
    match ip
    case V4(_) => ip
    case V6(o) => V6(if |o| <= 8 then o else o[..8] + seq(|o| - 8, _ => 0))
  }

  /** Two IPv6 addresses share a limit exactly when they share their first eight octets. */
  lemma KeyIsPrefix(a: Ip, b: Ip)
    requires a.V6? && b.V6? && |a.octets| == 16 && |b.octets| == 16
    ensures Key(a) == Key(b) <==> a.octets[..8] == b.octets[..8]
  {
    if Key(a) == Key(b) {
      assert Key(a).octets[..8] == a.octets[..8] && Key(b).octets[..8] == b.octets[..8];
    }
  }

  /** Start of the current window and requests allowed in it. */
  datatype Entry = Entry(start: int, count: nat)

  type Tracked = map<Ip, Entry>

  /** `Instant::duration_since`, which is never negative. */
  function Since(now: int, start: int): int {
    if now >= start then now - start else 0
  }

  function Live(m: Tracked, now: int): Tracked {
    map k | k in m && Since(now, m[k].start) < WINDOW :: m[k]
  }

  function Room(m: Tracked, now: int): Tracked {
    if |m| >= MAX_TRACKED then Live(m, now) else m
  }

  /** The entry a request is counted in. */
  function Current(m: Tracked, k: Ip, now: int): Entry {
    if k in m && Since(now, m[k].start) < WINDOW then m[k] else Entry(now, 0)
  }

  predicate Allows(limit: nat, m: Tracked, k: Ip, now: int) {
    |Room(m, now)| < MAX_TRACKED && Current(Room(m, now), k, now).count < limit
  }

  function Updated(limit: nat, m: Tracked, k: Ip, now: int): Tracked {
    var room := Room(m, now);
    var e := Current(room, k, now);
    if |room| >= MAX_TRACKED then room
    else if e.count >= limit then room[k := e]
    else room[k := Entry(e.start, e.count + 1)]
  }

  class RateLimiter {
    const limit: nat
    var state: Tracked

    constructor (limitPerMinute: nat)
      ensures limit == limitPerMinute && state == map[]
    {
      limit := limitPerMinute;
      state := map[];
    }

    method CheckAt(ip: Ip, now: int) returns (allowed: bool)
      modifies this
      ensures allowed == Allows(limit, old(state), Key(ip), now)
      ensures state == Updated(limit, old(state), Key(ip), now)
    {
      if |state| >= MAX_TRACKED {
        state := map k | k in state && Since(now, state[k].start) < WINDOW :: state[k];
        if |state| >= MAX_TRACKED { return false; }
      }
      var k := Key(ip);
      if k !in state { state := state[k := Entry(now, 0)]; }
      if Since(now, state[k].start) >= WINDOW { state := state[k := Entry(now, 0)]; }
      if state[k].count >= limit { return false; }
      state := state[k := Entry(state[k].start, state[k].count + 1)];
      return true;
    }
  }

  // ---- runs

  datatype Request = Request(ip: Ip, now: int)

  function After(limit: nat, run: seq<Request>): Tracked {
    if run == [] then map[]
    else Updated(limit, After(limit, run[..|run| - 1]), Key(run[|run| - 1].ip), run[|run| - 1].now)
  }

  /** Request `i` came from client `k` and was allowed. */
  predicate Passed(limit: nat, run: seq<Request>, k: Ip, i: nat)
    requires i < |run|
  {
    Key(run[i].ip) == k && Allows(limit, After(limit, run[..i]), k, run[i].now)
  }

  /** Start of the fixed window request `i` was counted in. */
  function StartOf(limit: nat, run: seq<Request>, k: Ip, i: nat): int
    requires i < |run|
  {
    Current(Room(After(limit, run[..i]), run[i].now), k, run[i].now).start
  }

  predicate Monotone(run: seq<Request>) {
    forall i, j :: 0 <= i < j < |run| ==> run[i].now <= run[j].now
  }

  // ---- the table stays small

  lemma {:induction false} TableBounded(limit: nat, run: seq<Request>)
    ensures |After(limit, run)| <= MAX_TRACKED
  {
    if run != [] {
      var m, k, now := After(limit, run[..|run| - 1]), Key(run[|run| - 1].ip), run[|run| - 1].now;
      TableBounded(limit, run[..|run| - 1]);
      LiveSmaller(m, now);
      var room := Room(m, now);
      PutSize(room, k, Current(room, k, now));
      PutSize(room, k, Entry(Current(room, k, now).start, Current(room, k, now).count + 1));
    }
  }

  lemma PutSize(m: Tracked, k: Ip, e: Entry)
    ensures |m[k := e]| <= |m| + 1
  {
    assert m[k := e].Keys == m.Keys + {k};
  }

  lemma LiveSmaller(m: Tracked, now: int)
    ensures |Live(m, now)| <= |m|
  {
    KeysWithin(Live(m, now).Keys, m.Keys);
  }

  lemma {:induction false} KeysWithin(a: set<Ip>, b: set<Ip>)
    requires a <= b
    ensures |a| <= |b|
  {
    if a != {} {
      var x :| x in a;
      KeysWithin(a - {x}, b - {x});
    }
  }

  // ---- counting

  /** Requests of `k` allowed among `run[lo..hi]`. */
  function Count(limit: nat, run: seq<Request>, k: Ip, lo: nat, hi: nat): nat
    requires lo <= hi <= |run|
    decreases hi
  {
    if lo == hi then 0 else Count(limit, run, k, lo, hi - 1) + if Passed(limit, run, k, hi - 1) then 1 else 0
  }

  /** Requests of `k` allowed in the fixed window that started at `w`, among the first `n`. */
  function InWindow(limit: nat, run: seq<Request>, k: Ip, w: int, n: nat): nat
    requires n <= |run|
  {
    if n == 0 then 0
    else
      InWindow(limit, run, k, w, n - 1)
      + if Passed(limit, run, k, n - 1) && StartOf(limit, run, k, n - 1) == w then 1 else 0
  }

  /**
   A window that is the one the table shows, or was over when that one started; over by `now` if
   the table shows none.
   */
  predicate Closed(m: Tracked, k: Ip, w: int, now: int) {
    if k in m then w == m[k].start || w + WINDOW <= m[k].start else w + WINDOW <= now
  }

  /** What holds of client `k` after the first `n` requests, at time `now`. */
  ghost predicate Tidy(limit: nat, run: seq<Request>, k: Ip, n: nat, now: int)
    requires n <= |run|
  {
    var m := After(limit, run[..n]);
    && (k in m ==> InWindow(limit, run, k, m[k].start, n) == m[k].count <= limit && m[k].start <= now)
    && (forall i :: 0 <= i < n && Passed(limit, run, k, i) ==> Closed(m, k, StartOf(limit, run, k, i), now))
  }

  /** No window counted so far starts at `w`, so none is counted in it yet. */
  lemma {:induction false} NoneInWindow(limit: nat, run: seq<Request>, k: Ip, w: int, n: nat)
    requires n <= |run| && forall i :: 0 <= i < n && Passed(limit, run, k, i) ==> StartOf(limit, run, k, i) != w
    ensures InWindow(limit, run, k, w, n) == 0
  {
    if n > 0 { NoneInWindow(limit, run, k, w, n - 1); }
  }

  /** Eviction never touches the window a request is counted in. */
  lemma CurrentRoom(m: Tracked, k: Ip, now: int)
    ensures Current(Room(m, now), k, now) == Current(m, k, now)
  {
  }

  /** The entry of a client after one more request. */
  lemma UpdatedEntry(limit: nat, m: Tracked, key: Ip, now: int, k: Ip)
    ensures var u := Updated(limit, m, key, now);
            && (k in u ==>
                  || (k in m && u[k] == m[k])
                  || (k == key && u[k].start == Current(m, k, now).start))
            && (k in m && k !in u ==> Since(now, m[k].start) >= WINDOW)
  {
    CurrentRoom(m, k, now);
  }

  lemma TidyLater(limit: nat, run: seq<Request>, k: Ip, n: nat, now: int, t: int)
    requires n <= |run| && Tidy(limit, run, k, n, now) && now <= t
    ensures Tidy(limit, run, k, n, t)
  {
  }

  /** When a request opens a new window, every earlier window of its client is over. */
  lemma AllOver(limit: nat, run: seq<Request>, k: Ip, n: nat, t: int, i: nat)
    requires n <= |run| && Tidy(limit, run, k, n, t) && i < n && Passed(limit, run, k, i)
    requires var m := After(limit, run[..n]); !(k in m && Since(t, m[k].start) < WINDOW)
    ensures StartOf(limit, run, k, i) + WINDOW <= t
  {
    assert Closed(After(limit, run[..n]), k, StartOf(limit, run, k, i), t);
  }

  lemma StepOther(limit: nat, run: seq<Request>, k: Ip, n: nat)
    requires n < |run| && Tidy(limit, run, k, n, run[n].now) && Key(run[n].ip) != k
    ensures Tidy(limit, run, k, n + 1, run[n].now)
  {
    var m, u, t := After(limit, run[..n]), After(limit, run[..n + 1]), run[n].now;
    assert run[..n + 1][..n] == run[..n];
    UpdatedEntry(limit, m, Key(run[n].ip), t, k);
    forall i | 0 <= i < n + 1 && Passed(limit, run, k, i) ensures Closed(u, k, StartOf(limit, run, k, i), t) {
      assert Closed(m, k, StartOf(limit, run, k, i), t);
    }
  }

  /** The table after a request of `k` itself, when there is room. */
  lemma OwnEntry(limit: nat, m: Tracked, k: Ip, t: int)
    requires |Room(m, t)| < MAX_TRACKED
    ensures var e, u := Current(m, k, t), Updated(limit, m, k, t);
            k in u && u[k] == if e.count >= limit then e else Entry(e.start, e.count + 1)
    ensures Allows(limit, m, k, t) <==> Current(m, k, t).count < limit
  {
    CurrentRoom(m, k, t);
  }

  lemma StepOwn(limit: nat, run: seq<Request>, k: Ip, n: nat)
    requires n < |run| && Tidy(limit, run, k, n, run[n].now) && Key(run[n].ip) == k
    requires |Room(After(limit, run[..n]), run[n].now)| < MAX_TRACKED
    ensures Tidy(limit, run, k, n + 1, run[n].now)
  {
    var m, u, t := After(limit, run[..n]), After(limit, run[..n + 1]), run[n].now;
    assert run[..n + 1][..n] == run[..n];
    OwnEntry(limit, m, k, t);
    CurrentRoom(m, k, t);
    if k in m && Since(t, m[k].start) < WINDOW {
      forall i | 0 <= i < n + 1 && Passed(limit, run, k, i) ensures Closed(u, k, StartOf(limit, run, k, i), t) {
        if i < n { assert Closed(m, k, StartOf(limit, run, k, i), t); }
      }
    } else {
      forall i | 0 <= i < n && Passed(limit, run, k, i)
        ensures StartOf(limit, run, k, i) + WINDOW <= t
      {
        AllOver(limit, run, k, n, t, i);
      }
      NoneInWindow(limit, run, k, t, n);
    }
  }

  lemma StepFull(limit: nat, run: seq<Request>, k: Ip, n: nat)
    requires n < |run| && Tidy(limit, run, k, n, run[n].now) && Key(run[n].ip) == k
    requires |Room(After(limit, run[..n]), run[n].now)| >= MAX_TRACKED
    ensures Tidy(limit, run, k, n + 1, run[n].now)
  {
    var m, u, t := After(limit, run[..n]), After(limit, run[..n + 1]), run[n].now;
    assert run[..n + 1][..n] == run[..n];
    forall i | 0 <= i < n + 1 && Passed(limit, run, k, i) ensures Closed(u, k, StartOf(limit, run, k, i), t) {
      assert Closed(m, k, StartOf(limit, run, k, i), t);
    }
  }

  lemma {:induction false} RunTidy(limit: nat, run: seq<Request>, k: Ip, n: nat)
    requires Monotone(run) && 0 < n <= |run|
    ensures Tidy(limit, run, k, n, run[n - 1].now)
  {
    var t := run[n - 1].now;
    if n > 1 {
      RunTidy(limit, run, k, n - 1);
      TidyLater(limit, run, k, n - 1, run[n - 2].now, t);
    }
    assert Tidy(limit, run, k, n - 1, t);
    if Key(run[n - 1].ip) != k {
      StepOther(limit, run, k, n - 1);
    } else if |Room(After(limit, run[..n - 1]), t)| < MAX_TRACKED {
      StepOwn(limit, run, k, n - 1);
    } else {
      StepFull(limit, run, k, n - 1);
    }
  }

  // ---- at most `limit` per fixed window

  lemma {:induction false} WindowBound(limit: nat, run: seq<Request>, k: Ip, w: int, n: nat)
    requires Monotone(run) && n <= |run|
    ensures InWindow(limit, run, k, w, n) <= limit
  {
    if n > 0 {
      WindowBound(limit, run, k, w, n - 1);
      if Passed(limit, run, k, n - 1) && StartOf(limit, run, k, n - 1) == w {
        RunTidy(limit, run, k, n);
        assert run[..n][..n - 1] == run[..n - 1];
        OwnEntry(limit, After(limit, run[..n - 1]), k, run[n - 1].now);
        CurrentRoom(After(limit, run[..n - 1]), k, run[n - 1].now);
      }
    }
  }

  // ---- at most twice `limit` in any interval

  /**
   A request falls inside the window it is counted in, and later windows of the client start after
   earlier ones end.
   */
  lemma WindowsApart(limit: nat, run: seq<Request>, k: Ip, i: nat, j: nat)
    requires Monotone(run) && i < j < |run| && Passed(limit, run, k, i) && Passed(limit, run, k, j)
    ensures run[i].now < StartOf(limit, run, k, i) + WINDOW && StartOf(limit, run, k, j) <= run[j].now
    ensures StartOf(limit, run, k, i) == StartOf(limit, run, k, j)
              || StartOf(limit, run, k, i) + WINDOW <= StartOf(limit, run, k, j)
  {
    var m, t := After(limit, run[..j]), run[j].now;
    RunTidy(limit, run, k, j);
    TidyLater(limit, run, k, j, run[j - 1].now, t);
    CurrentRoom(m, k, t);
    CurrentRoom(After(limit, run[..i]), k, run[i].now);
    if k in m && Since(t, m[k].start) < WINDOW {
      assert Closed(m, k, StartOf(limit, run, k, i), t);
    } else {
      AllOver(limit, run, k, j, t, i);
    }
  }

  /** If only the windows `v` and `w` occur in a range, their counts bound it. */
  lemma {:induction false} TwoWindows(limit: nat, run: seq<Request>, k: Ip, lo: nat, hi: nat, v: int, w: int)
    requires lo <= hi <= |run|
    requires forall m :: lo <= m < hi && Passed(limit, run, k, m) ==>
               StartOf(limit, run, k, m) == v || StartOf(limit, run, k, m) == w
    ensures Count(limit, run, k, lo, hi) <= InWindow(limit, run, k, v, hi) + InWindow(limit, run, k, w, hi)
    decreases hi
  {
    if lo < hi { TwoWindows(limit, run, k, lo, hi - 1, v, w); }
  }

  /** Between two requests at most `WINDOW` apart, only their own two windows occur. */
  lemma OnlyTwo(limit: nat, run: seq<Request>, k: Ip, i: nat, m: nat, j: nat)
    requires Monotone(run) && i <= m <= j < |run| && run[j].now - run[i].now <= WINDOW
    requires Passed(limit, run, k, i) && Passed(limit, run, k, m) && Passed(limit, run, k, j)
    ensures StartOf(limit, run, k, m) == StartOf(limit, run, k, i)
              || StartOf(limit, run, k, m) == StartOf(limit, run, k, j)
  {
    if i < m < j {
      WindowsApart(limit, run, k, i, m);
      WindowsApart(limit, run, k, m, j);
    }
  }

  lemma {:induction false} DropFirst(limit: nat, run: seq<Request>, k: Ip, lo: nat, hi: nat)
    requires lo < hi <= |run| && !Passed(limit, run, k, lo)
    ensures Count(limit, run, k, lo, hi) == Count(limit, run, k, lo + 1, hi)
    decreases hi
  {
    if lo + 1 < hi { DropFirst(limit, run, k, lo, hi - 1); }
  }

  /** In any interval of length `WINDOW` a client is allowed at most twice the limit. */
  lemma {:induction false} IntervalBound(limit: nat, run: seq<Request>, k: Ip, lo: nat, hi: nat)
    requires Monotone(run) && lo < hi <= |run| && run[hi - 1].now - run[lo].now <= WINDOW
    ensures Count(limit, run, k, lo, hi) <= 2 * limit
    decreases hi - lo
  {
    if !Passed(limit, run, k, hi - 1) {
      if lo + 1 < hi {
        IntervalBound(limit, run, k, lo, hi - 1);
      } else {
        assert Count(limit, run, k, lo, hi - 1) == 0;
      }
    } else if !Passed(limit, run, k, lo) {
      DropFirst(limit, run, k, lo, hi);
      IntervalBound(limit, run, k, lo + 1, hi);
    } else {
      var v, w := StartOf(limit, run, k, lo), StartOf(limit, run, k, hi - 1);
      forall m | lo <= m < hi && Passed(limit, run, k, m)
        ensures StartOf(limit, run, k, m) == v || StartOf(limit, run, k, m) == w
      {
        OnlyTwo(limit, run, k, lo, m, hi - 1);
      }
      TwoWindows(limit, run, k, lo, hi, v, w);
      WindowBound(limit, run, k, v, hi);
      WindowBound(limit, run, k, w, hi);
    }
  }

  // ---- and no fewer

  /** Fewer than fifty thousand clients are tracked, at least once windows of a minute that are over are dropped. */
  predicate HasRoom(m: Tracked, now: int) {
    |m| < 50_000 || |set k | k in m && now < m[k].start + 60_000_000_000| < 50_000
  }

  lemma RoomExact(m: Tracked, now: int)
    ensures |Room(m, now)| < MAX_TRACKED <==> HasRoom(m, now)
  {
    assert Live(m, now).Keys == set k | k in m && now < m[k].start + 60_000_000_000;
    LiveSmaller(m, now);
  }

  /** With room, a request is let through exactly when its window has not yet seen the limit. */
  lemma AllowedExact(limit: nat, run: seq<Request>, k: Ip, i: nat)
    requires Monotone(run) && i < |run| && Key(run[i].ip) == k
    ensures Passed(limit, run, k, i) <==>
            && HasRoom(After(limit, run[..i]), run[i].now)
            && InWindow(limit, run, k, StartOf(limit, run, k, i), i) < limit
  {
    var m, t := After(limit, run[..i]), run[i].now;
    RoomExact(m, t);
    CurrentRoom(m, k, t);
    if i > 0 {
      RunTidy(limit, run, k, i);
      TidyLater(limit, run, k, i, run[i - 1].now, t);
    }
    if !(k in m && Since(t, m[k].start) < WINDOW) {
      forall j | 0 <= j < i && Passed(limit, run, k, j) ensures StartOf(limit, run, k, j) != t {
        AllOver(limit, run, k, i, t, j);
      }
      NoneInWindow(limit, run, k, t, i);
    }
  }

  lemma {:induction false} InWindowRecent(limit: nat, run: seq<Request>, k: Ip, w: int, lo: nat, n: nat)
    requires lo <= n <= |run|
    requires forall j :: 0 <= j < lo && Passed(limit, run, k, j) ==> StartOf(limit, run, k, j) != w
    ensures InWindow(limit, run, k, w, n) <= Count(limit, run, k, lo, n)
    decreases n
  {
    if n == lo { NoneInWindow(limit, run, k, w, n); } else { InWindowRecent(limit, run, k, w, lo, n - 1); }
  }

  /** A window that request `i` is counted in has been open for less than a minute. */
  lemma CurrentIsOpen(limit: nat, run: seq<Request>, k: Ip, i: nat, j: nat)
    requires Monotone(run) && j < i < |run| && Passed(limit, run, k, j) && run[j].now + WINDOW <= run[i].now
    ensures StartOf(limit, run, k, j) != StartOf(limit, run, k, i)
  {
    var m, t := After(limit, run[..i]), run[i].now;
    CurrentRoom(m, k, t);
    CurrentRoom(After(limit, run[..j]), k, run[j].now);
    RunTidy(limit, run, k, i);
    TidyLater(limit, run, k, i, run[i - 1].now, t);
    StartBefore(limit, run, k, j);
    if !(k in m && Since(t, m[k].start) < WINDOW) { AllOver(limit, run, k, i, t, j); }
  }

  lemma StartBefore(limit: nat, run: seq<Request>, k: Ip, j: nat)
    requires Monotone(run) && j < |run|
    ensures StartOf(limit, run, k, j) <= run[j].now
  {
    var m, t := After(limit, run[..j]), run[j].now;
    CurrentRoom(m, k, t);
    if j > 0 {
      RunTidy(limit, run, k, j);
      TidyLater(limit, run, k, j, run[j - 1].now, t);
    }
  }

  /**
   A client that was let through fewer than `limit` times within the last minute is let through, as long
   as there is room. Requests before `lo` are a minute old or older.
   */
  lemma BelowLimitPasses(limit: nat, run: seq<Request>, k: Ip, lo: nat, i: nat)
    requires Monotone(run) && lo <= i < |run| && Key(run[i].ip) == k
    requires forall j :: 0 <= j < lo ==> run[j].now + WINDOW <= run[i].now
    requires HasRoom(After(limit, run[..i]), run[i].now) && Count(limit, run, k, lo, i) < limit
    ensures Passed(limit, run, k, i)
  {
    var w := StartOf(limit, run, k, i);
    forall j | 0 <= j < lo && Passed(limit, run, k, j) ensures StartOf(limit, run, k, j) != w {
      CurrentIsOpen(limit, run, k, i, j);
    }
    InWindowRecent(limit, run, k, w, lo, i);
    AllowedExact(limit, run, k, i);
  }
}
