/**
 The rate limiter: a fixed window counted by Redis, and an in-process sliding window used
 whenever Redis does not answer. Times are ticks of one clock that never runs backwards.
 */
module RateLimit {
  import opened Wrappers

  datatype Path = ViaRedis | ViaFallback

  datatype Attempt = Attempt(at: int, path: Path, admitted: bool)

  datatype Counter = Counter(count: nat, expiresAt: int)

  /** `AppliedButLost`: Redis executed the pipeline, but the reply never arrived. */
  datatype Redis = Answers | AppliedButLost | Unreachable

  /** Everything kept for one key, and the history of its calls. */
  datatype Limiter = Limiter(bucket: seq<int>, counter: Option<Counter>, log: seq<Attempt>)

  datatype Request = Request(now: int, redis: Redis)

  /** `INCR` then `EXPIRE ... NX`: the first increment of a missing or expired key sets the expiry. */
  function Incr(counter: Option<Counter>, now: int, window: int): Counter {
    if counter.Some? && now < counter.value.expiresAt then counter.value.(count := counter.value.count + 1)
    else Counter(1, now + window)
  }

  /** `while bucket and bucket[0] <= cutoff: bucket.popleft()` */
  function DropOld(bucket: seq<int>, cutoff: int): seq<int> {
    if bucket != [] && bucket[0] <= cutoff then DropOld(bucket[1..], cutoff) else bucket
  }

  function Call(l: Limiter, limit: nat, window: int, r: Request): Limiter {
    if r.redis.Answers? then
      var c := Incr(l.counter, r.now, window);
      Limiter(l.bucket, Some(c), l.log + [Attempt(r.now, ViaRedis, c.count <= limit)])
    else
      var counter := if r.redis.AppliedButLost? then Some(Incr(l.counter, r.now, window)) else l.counter;
      var bucket := DropOld(l.bucket, r.now - window) + [r.now];
      Limiter(bucket, counter, l.log + [Attempt(r.now, ViaFallback, |bucket| <= limit)])
  }

  function Run(l: Limiter, limit: nat, window: int, rs: seq<Request>): Limiter {
    if rs == [] then l else Call(Run(l, limit, window, rs[..|rs| - 1]), limit, window, rs[|rs| - 1])
  }

  function Fresh(): Limiter {
    Limiter([], None, [])
  }

  /** The clock never runs backwards. */
  ghost predicate Monotone(rs: seq<Request>) {
    forall i, j :: 0 <= i <= j < |rs| ==> rs[i].now <= rs[j].now
  }

  /** Calls admitted on the given path at a time in `(lo, hi]`. */
  function Admitted(log: seq<Attempt>, path: Path, lo: int, hi: int): nat {
    if log == [] then 0
    else
      var x := log[|log| - 1];
      Admitted(log[..|log| - 1], path, lo, hi) + if x.admitted && x.path == path && lo < x.at <= hi then 1 else 0
  }

  lemma AdmittedOneMore(log: seq<Attempt>, x: Attempt, path: Path, lo: int, hi: int)
    ensures Admitted(log + [x], path, lo, hi) ==
            Admitted(log, path, lo, hi) + if x.admitted && x.path == path && lo < x.at <= hi then 1 else 0
  {
    assert (log + [x])[..|log|] == log;
  }

  lemma {:induction false} AdmittedSplit(log: seq<Attempt>, path: Path, lo: int, mid: int, hi: int)
    requires lo <= mid <= hi
    ensures Admitted(log, path, lo, hi) == Admitted(log, path, lo, mid) + Admitted(log, path, mid, hi)
  {
    if log != [] {
      AdmittedSplit(log[..|log| - 1], path, lo, mid, hi);
    }
  }

  lemma {:induction false} AdmittedShrink(log: seq<Attempt>, path: Path, lo: int, hi: int, lo': int, hi': int)
    requires lo <= lo' && hi' <= hi
    ensures Admitted(log, path, lo', hi') <= Admitted(log, path, lo, hi)
  {
    if log != [] {
      AdmittedShrink(log[..|log| - 1], path, lo, hi, lo', hi');
    }
  }

  /** Nothing is logged after `now`. */
  ghost predicate Until(log: seq<Attempt>, now: int) {
    forall i :: 0 <= i < |log| ==> log[i].at <= now
  }

  lemma {:induction false} NothingLater(log: seq<Attempt>, path: Path, now: int, hi: int)
    requires Until(log, now)
    ensures Admitted(log, path, now, hi) == 0
  {
    if log != [] {
      NothingLater(log[..|log| - 1], path, now, hi);
    }
  }

  // ---------------------------------------------------------------------------------------
  // The fallback: a sliding window
  // ---------------------------------------------------------------------------------------

  /** Times of the fallback attempts, admitted or not, after `cutoff`, oldest first. */
  function Recent(log: seq<Attempt>, cutoff: int): seq<int> {
    if log == [] then []
    else
      var x := log[|log| - 1];
      Recent(log[..|log| - 1], cutoff) + if x.path.ViaFallback? && cutoff < x.at then [x.at] else []
  }

  lemma RecentOneMore(log: seq<Attempt>, x: Attempt, cutoff: int)
    ensures Recent(log + [x], cutoff) == Recent(log, cutoff) + if x.path.ViaFallback? && cutoff < x.at then [x.at] else []
  {
    assert (log + [x])[..|log|] == log;
  }

  lemma {:induction false} RecentIsSorted(log: seq<Attempt>, cutoff: int)
    requires forall i, j :: 0 <= i <= j < |log| ==> log[i].at <= log[j].at
    ensures forall i :: 0 <= i < |Recent(log, cutoff)| ==> cutoff < Recent(log, cutoff)[i] <= log[|log| - 1].at
    ensures forall i, j :: 0 <= i <= j < |Recent(log, cutoff)| ==> Recent(log, cutoff)[i] <= Recent(log, cutoff)[j]
  {
    if log != [] {
      RecentIsSorted(log[..|log| - 1], cutoff);
    }
  }

  lemma {:induction false} DropOldAppend(bucket: seq<int>, x: int, cutoff: int)
    requires forall i :: 0 <= i < |bucket| ==> bucket[i] <= x
    ensures DropOld(bucket + [x], cutoff) == DropOld(bucket, cutoff) + if cutoff < x then [x] else []
  {
    if bucket == [] {
      assert bucket + [x] == [x];
    } else if bucket[0] <= cutoff {
      assert (bucket + [x])[1..] == bucket[1..] + [x];
      DropOldAppend(bucket[1..], x, cutoff);
    }
  }

  /** Popping from the left of a window that reaches further back gives the shorter window. */
  lemma {:induction false} DropOldIsRecent(log: seq<Attempt>, far: int, near: int)
    requires far <= near && forall i, j :: 0 <= i <= j < |log| ==> log[i].at <= log[j].at
    ensures DropOld(Recent(log, far), near) == Recent(log, near)
  {
    if log != [] {
      var rest := log[..|log| - 1];
      DropOldIsRecent(rest, far, near);
      RecentIsSorted(rest, far);
      assert rest != [] ==> rest[|rest| - 1].at <= log[|log| - 1].at;
      DropOldAppend(Recent(rest, far), log[|log| - 1].at, near);
      assert Recent(rest, far) + [] == Recent(rest, far);
    }
  }

  lemma {:induction false} AdmittedAreRecent(log: seq<Attempt>, lo: int, hi: int)
    ensures Admitted(log, ViaFallback, lo, hi) <= |Recent(log, lo)|
  {
    if log != [] {
      AdmittedAreRecent(log[..|log| - 1], lo, hi);
    }
  }

  lemma {:induction false} RecentShrinks(log: seq<Attempt>, far: int, near: int)
    requires far <= near
    ensures |Recent(log, near)| <= |Recent(log, far)|
  {
    if log != [] {
      RecentShrinks(log[..|log| - 1], far, near);
    }
  }

  // ---------------------------------------------------------------------------------------
  // Redis: a fixed window
  // ---------------------------------------------------------------------------------------

  function Start(c: Counter, window: int): int {
    c.expiresAt - window
  }

  ghost predicate Before(log: seq<Attempt>, limit: int) {
    forall i :: 0 <= i < |log| && log[i].path.ViaRedis? ==> log[i].at < limit
  }

  function Less(n: nat): nat {
    if n == 0 then 0 else n - 1
  }

  /**
   The current window has admitted no more than it counted, one of them at its very start; the
   `window` ticks before it saw fewer than `limit`.
   */
  ghost predicate WindowsOk(log: seq<Attempt>, counter: Option<Counter>, limit: nat, window: int, now: int) {
    match counter
    case None => forall i :: 0 <= i < |log| ==> log[i].path.ViaFallback?
    case Some(c) =>
      var start := Start(c, window);
      var most := if c.count <= limit then c.count else limit;
      && 1 <= c.count && start <= now && Before(log, c.expiresAt)
      && Admitted(log, ViaRedis, start - 1, now) <= most
      && Admitted(log, ViaRedis, start, now) <= Less(most)
      && Admitted(log, ViaRedis, start - window, start - 1) <= Less(limit)
  }

  /** Time passes. */
  lemma LaterIsSame(log: seq<Attempt>, lo: int, now: int, later: int)
    requires Until(log, now) && now <= later
    ensures Admitted(log, ViaRedis, lo, later) == Admitted(log, ViaRedis, lo, now)
  {
    if lo <= now {
      AdmittedSplit(log, ViaRedis, lo, now, later);
      NothingLater(log, ViaRedis, now, later);
    } else {
      NothingInEmpty(log, lo, now);
      assert Until(log, lo);
      NothingLater(log, ViaRedis, lo, later);
    }
  }

  lemma {:induction false} NothingInEmpty(log: seq<Attempt>, lo: int, hi: int)
    requires hi <= lo
    ensures Admitted(log, ViaRedis, lo, hi) == 0
  {
    if log != [] {
      NothingInEmpty(log[..|log| - 1], lo, hi);
    }
  }

  lemma {:induction false} NothingBefore(log: seq<Attempt>, limit: int, lo: int, hi: int)
    requires Before(log, limit) && limit <= lo + 1
    ensures Admitted(log, ViaRedis, lo, hi) == 0
  {
    if log != [] {
      NothingBefore(log[..|log| - 1], limit, lo, hi);
    }
  }

  /** A window opened at `now` starts after everything the previous one admitted. */
  lemma NewWindow(log: seq<Attempt>, counter: Option<Counter>, limit: nat, window: int, before: int, now: int)
    requires Until(log, before) && before <= now && 0 < window
    requires WindowsOk(log, counter, limit, window, before)
    requires counter.None? || counter.value.expiresAt <= now
    ensures Before(log, now)
    ensures Admitted(log, ViaRedis, now - 1, now) == 0
    ensures Admitted(log, ViaRedis, now, now) == 0
    ensures Admitted(log, ViaRedis, now - window, now - 1) <= Less(limit)
  {
    NothingBefore(log, now, now - 1, now);
    NothingBefore(log, now, now, now);
    match counter {
      case None =>
        assert Before(log, now - window);
        NothingBefore(log, now - window, now - window, now - 1);
      case Some(c) =>
        LaterIsSame(log, Start(c, window), before, now);
        AdmittedShrink(log, ViaRedis, Start(c, window), now, now - window, now - 1);
    }
  }

  /** An increment whose reply is lost. */
  lemma LostKeepsWindows(log: seq<Attempt>, counter: Option<Counter>, limit: nat, window: int, before: int, now: int)
    requires Until(log, before) && before <= now && 0 < window
    requires WindowsOk(log, counter, limit, window, before)
    ensures WindowsOk(log, Some(Incr(counter, now, window)), limit, window, now)
  {
    if counter.Some? && now < counter.value.expiresAt {
      var start := Start(counter.value, window);
      LaterIsSame(log, start - 1, before, now);
      LaterIsSame(log, start, before, now);
    } else {
      NewWindow(log, counter, limit, window, before, now);
    }
  }

  lemma AnsweredKeepsWindows(log: seq<Attempt>, counter: Option<Counter>, limit: nat, window: int, before: int, now: int)
    requires Until(log, before) && before <= now && 0 < window
    requires WindowsOk(log, counter, limit, window, before)
    ensures
      var c := Incr(counter, now, window);
      WindowsOk(log + [Attempt(now, ViaRedis, c.count <= limit)], Some(c), limit, window, now)
  {
    if counter.Some? && now < counter.value.expiresAt {
      AnsweredInWindow(log, counter.value, limit, window, before, now);
    } else {
      NewWindow(log, counter, limit, window, before, now);
      AnsweredFirst(log, limit, window, now);
    }
  }

  lemma AnsweredInWindow(log: seq<Attempt>, c: Counter, limit: nat, window: int, before: int, now: int)
    requires Until(log, before) && before <= now < c.expiresAt && 0 < window
    requires WindowsOk(log, Some(c), limit, window, before)
    ensures
      var n := c.count + 1;
      WindowsOk(log + [Attempt(now, ViaRedis, n <= limit)], Some(c.(count := n)), limit, window, now)
  {
    var x, start := Attempt(now, ViaRedis, c.count + 1 <= limit), Start(c, window);
    AdmittedOneMore(log, x, ViaRedis, start - 1, now);
    AdmittedOneMore(log, x, ViaRedis, start, now);
    AdmittedOneMore(log, x, ViaRedis, start - window, start - 1);
    LaterIsSame(log, start - 1, before, now);
    LaterIsSame(log, start, before, now);
  }

  /** The call that opens a window. */
  lemma AnsweredFirst(log: seq<Attempt>, limit: nat, window: int, now: int)
    requires 0 < window && Before(log, now)
    requires Admitted(log, ViaRedis, now - 1, now) == 0 && Admitted(log, ViaRedis, now, now) == 0
    requires Admitted(log, ViaRedis, now - window, now - 1) <= Less(limit)
    ensures WindowsOk(log + [Attempt(now, ViaRedis, 1 <= limit)], Some(Counter(1, now + window)), limit, window, now)
  {
    var x := Attempt(now, ViaRedis, 1 <= limit);
    AdmittedOneMore(log, x, ViaRedis, now - 1, now);
    AdmittedOneMore(log, x, ViaRedis, now, now);
    AdmittedOneMore(log, x, ViaRedis, now - window, now - 1);
  }

  lemma FallbackKeepsWindows(log: seq<Attempt>, x: Attempt, counter: Option<Counter>, limit: nat, window: int, before: int, now: int)
    requires Until(log, before) && before <= now && x.path.ViaFallback?
    requires WindowsOk(log, counter, limit, window, before)
    ensures WindowsOk(log + [x], counter, limit, window, now)
  {
    if counter.Some? {
      var start := Start(counter.value, window);
      AdmittedOneMore(log, x, ViaRedis, start - 1, now);
      AdmittedOneMore(log, x, ViaRedis, start, now);
      AdmittedOneMore(log, x, ViaRedis, start - window, start - 1);
      LaterIsSame(log, start - 1, before, now);
      LaterIsSame(log, start, before, now);
    }
  }

  // ---------------------------------------------------------------------------------------
  // Every call keeps the invariant
  // ---------------------------------------------------------------------------------------

  ghost predicate Inv(l: Limiter, limit: nat, window: int, now: int) {
    && Until(l.log, now)
    && (forall i, j :: 0 <= i <= j < |l.log| ==> l.log[i].at <= l.log[j].at)
    && (exists cut :: cut <= now - window && l.bucket == Recent(l.log, cut))
    && WindowsOk(l.log, l.counter, limit, window, now)
  }

  /** After a fallback call the deque holds exactly the fallback attempts of the last window. */
  lemma FallbackBucket(l: Limiter, limit: nat, window: int, before: int, r: Request)
    requires Inv(l, limit, window, before) && before <= r.now && 0 < window && !r.redis.Answers?
    ensures Call(l, limit, window, r).bucket == Recent(Call(l, limit, window, r).log, r.now - window)
  {
    var cut :| cut <= before - window && l.bucket == Recent(l.log, cut);
    DropOldIsRecent(l.log, cut, r.now - window);
    var l' := Call(l, limit, window, r);
    RecentOneMore(l.log, l'.log[|l.log|], r.now - window);
    assert l'.log == l.log + [l'.log[|l.log|]];
  }

  lemma CallKeepsInv(l: Limiter, limit: nat, window: int, before: int, r: Request)
    requires Inv(l, limit, window, before) && before <= r.now && 0 < window
    ensures Inv(Call(l, limit, window, r), limit, window, r.now)
  {
    var l' := Call(l, limit, window, r);
    var x := l'.log[|l.log|];
    assert l'.log == l.log + [x];
    var cut :| cut <= before - window && l.bucket == Recent(l.log, cut);
    if r.redis.Answers? {
      AnsweredKeepsWindows(l.log, l.counter, limit, window, before, r.now);
      RecentOneMore(l.log, x, cut);
      assert l'.bucket == Recent(l'.log, cut);
    } else {
      FallbackBucket(l, limit, window, before, r);
      if r.redis.AppliedButLost? {
        LostKeepsWindows(l.log, l.counter, limit, window, before, r.now);
        FallbackKeepsWindows(l.log, x, l'.counter, limit, window, r.now, r.now);
      } else {
        FallbackKeepsWindows(l.log, x, l.counter, limit, window, before, r.now);
      }
    }
  }

  lemma FreshInv(limit: nat, window: int, now: int)
    ensures Inv(Fresh(), limit, window, now)
  {
    assert Fresh().bucket == Recent(Fresh().log, now - window);
  }

  lemma {:induction false} RunInv(limit: nat, window: int, rs: seq<Request>)
    requires Monotone(rs) && 0 < window && rs != []
    ensures Inv(Run(Fresh(), limit, window, rs), limit, window, rs[|rs| - 1].now)
  {
    var rest, r := rs[..|rs| - 1], rs[|rs| - 1];
    if rest == [] {
      FreshInv(limit, window, r.now);
      CallKeepsInv(Fresh(), limit, window, r.now, r);
    } else {
      RunInv(limit, window, rest);
      CallKeepsInv(Run(Fresh(), limit, window, rest), limit, window, rest[|rest| - 1].now, r);
    }
  }

  // ---------------------------------------------------------------------------------------
  // Main results
  // ---------------------------------------------------------------------------------------

  /** What a key may admit per window on each path. */
  function MostPerWindow(path: Path, limit: nat): nat {
    if limit == 0 then 0 else if path.ViaFallback? then limit else 2 * limit - 1
  }

  /** One more call: the interval either ends before it, or is covered by the two windows around it. */
  lemma LastCallWithin(l: Limiter, limit: nat, window: int, now: int, path: Path, lo: int)
    requires Inv(l, limit, window, now) && 0 < window && now - window <= lo < now
    requires path.ViaFallback? ==> l.log != [] && |Recent(l.log, now - window)| <= limit
    ensures Admitted(l.log, path, lo, lo + window) <= MostPerWindow(path, limit)
  {
    if path.ViaFallback? {
      AdmittedAreRecent(l.log, lo, lo + window);
      RecentShrinks(l.log, now - window, lo);
    } else {
      match l.counter {
        case None =>
          assert Before(l.log, lo);
          NothingBefore(l.log, lo, lo, lo + window);
        case Some(c) =>
          var start := Start(c, window);
          LaterIsSame(l.log, lo, now, lo + window);
          if start <= lo {
            AdmittedShrink(l.log, ViaRedis, start, now, lo, now);
            AdmittedShrink(l.log, ViaRedis, start - 1, now, lo, now);
          } else {
            AdmittedSplit(l.log, ViaRedis, lo, start - 1, now);
            AdmittedShrink(l.log, ViaRedis, start - window, start - 1, lo, start - 1);
          }
      }
    }
  }

  lemma CallAppends(l: Limiter, limit: nat, window: int, r: Request) returns (x: Attempt)
    ensures var l' := Call(l, limit, window, r);
      && l'.log == l.log + [x] && x.at == r.now
      && (x.path.ViaFallback? <==> !r.redis.Answers?)
      && (x.path.ViaFallback? && x.admitted ==> |l'.bucket| <= limit)
  {
    var l' := Call(l, limit, window, r);
    x := l'.log[|l.log|];
  }

  /** A run that ends with an admitted call, seen from that call. */
  lemma EndsAdmitted(limit: nat, window: int, rs: seq<Request>, path: Path, lo: int)
    requires Monotone(rs) && 0 < window && rs != []
    requires rs[|rs| - 1].now - window <= lo < rs[|rs| - 1].now
    requires path.ViaFallback? ==> !rs[|rs| - 1].redis.Answers? && |Run(Fresh(), limit, window, rs).bucket| <= limit
    ensures Admitted(Run(Fresh(), limit, window, rs).log, path, lo, lo + window) <= MostPerWindow(path, limit)
  {
    var l, r := Run(Fresh(), limit, window, rs), rs[|rs| - 1];
    RunInv(limit, window, rs);
    if path.ViaFallback? {
      LastBucket(limit, window, rs);
      var x := CallAppends(Run(Fresh(), limit, window, rs[..|rs| - 1]), limit, window, r);
      assert l.log != [];
    }
    LastCallWithin(l, limit, window, r.now, path, lo);
  }

  /** The per-key, per-path bound, for the window ending anywhere. */
  lemma {:induction false} WindowBound(limit: nat, window: int, rs: seq<Request>, path: Path, lo: int)
    requires Monotone(rs) && 0 < window
    ensures Admitted(Run(Fresh(), limit, window, rs).log, path, lo, lo + window) <= MostPerWindow(path, limit)
  {
    if rs != [] {
      var rest, r := rs[..|rs| - 1], rs[|rs| - 1];
      var l := Run(Fresh(), limit, window, rest);
      var x := CallAppends(l, limit, window, r);
      WindowBound(limit, window, rest, path, lo);
      AdmittedOneMore(l.log, x, path, lo, lo + window);
      if x.admitted && x.path == path && lo < x.at <= lo + window {
        EndsAdmitted(limit, window, rs, path, lo);
      }
    }
  }

  lemma LastBucket(limit: nat, window: int, rs: seq<Request>)
    requires Monotone(rs) && 0 < window && rs != [] && !rs[|rs| - 1].redis.Answers?
    ensures
      var l := Run(Fresh(), limit, window, rs);
      l.bucket == Recent(l.log, rs[|rs| - 1].now - window)
  {
    var rest, r := rs[..|rs| - 1], rs[|rs| - 1];
    if rest == [] {
      FreshInv(limit, window, r.now);
      FallbackBucket(Fresh(), limit, window, r.now, r);
    } else {
      RunInv(limit, window, rest);
      FallbackBucket(Run(Fresh(), limit, window, rest), limit, window, rest[|rest| - 1].now, r);
    }
  }

  /**
   What the last call of a run is told: the fallback admits it exactly when fewer than `limit`
   attempts, refused ones included, reached the fallback within the last window, and Redis exactly
   when the live counter is below `limit`.
   */
  lemma LastIsAdmittedIff(limit: nat, window: int, rs: seq<Request>)
    requires Monotone(rs) && 0 < window && rs != []
    ensures
      var r, l := rs[|rs| - 1], Run(Fresh(), limit, window, rs[..|rs| - 1]);
      var log := Run(Fresh(), limit, window, rs).log;
      var live := l.counter.Some? && r.now < l.counter.value.expiresAt;
      && |log| == |l.log| + 1 && log[..|l.log|] == l.log
      && log[|l.log|].at == r.now && (log[|l.log|].path == ViaRedis <==> r.redis.Answers?)
      && (!r.redis.Answers? ==> (log[|l.log|].admitted <==> |Recent(l.log, r.now - window)| < limit))
      && (r.redis.Answers? ==> (log[|l.log|].admitted <==> (if live then l.counter.value.count else 0) < limit))
  {
    var r, l := rs[|rs| - 1], Run(Fresh(), limit, window, rs[..|rs| - 1]);
    if !r.redis.Answers? {
      LastBucket(limit, window, rs);
      var x := Run(Fresh(), limit, window, rs).log[|l.log|];
      assert Run(Fresh(), limit, window, rs).log == l.log + [x];
      RecentOneMore(l.log, x, r.now - window);
    }
  }

  /**
   Main result. In any window of `window` ticks the fallback admits at most `limit` calls, Redis
   at most `2 * limit - 1`, and a run that switches freely between them, replies lost on the way
   included, at most `3 * limit - 1`.
   */
  lemma AdmittedPerWindow(limit: nat, window: int, rs: seq<Request>, lo: int)
    requires Monotone(rs) && 0 < window && 0 < limit
    ensures
      var log := Run(Fresh(), limit, window, rs).log;
      && Admitted(log, ViaFallback, lo, lo + window) <= limit
      && Admitted(log, ViaRedis, lo, lo + window) <= 2 * limit - 1
      && Admitted(log, ViaFallback, lo, lo + window) + Admitted(log, ViaRedis, lo, lo + window) <= 3 * limit - 1
  {
    WindowBound(limit, window, rs, ViaFallback, lo);
    WindowBound(limit, window, rs, ViaRedis, lo);
  }

  // ---------------------------------------------------------------------------------------
  // The bounds are attained
  // ---------------------------------------------------------------------------------------

  function Repeat<T>(x: T, n: nat): seq<T> {
    seq(n, i => x)
  }

  lemma {:induction false} RunTogether(l: Limiter, limit: nat, window: int, a: seq<Request>, b: seq<Request>)
    ensures Run(l, limit, window, a + b) == Run(Run(l, limit, window, a), limit, window, b)
  {
    if b == [] {
      assert a + b == a;
    } else {
      var n := |b| - 1;
      assert (a + b)[..|a| + n] == a + b[..n];
      RunTogether(l, limit, window, a, b[..n]);
    }
  }

  lemma RunOneMore(l: Limiter, limit: nat, window: int, r: Request, n: nat)
    ensures Run(l, limit, window, Repeat(r, n + 1)) == Call(Run(l, limit, window, Repeat(r, n)), limit, window, r)
  {
    assert Repeat(r, n + 1)[..n] == Repeat(r, n);
  }

  lemma LogOneMore(log: seq<Attempt>, x: Attempt, n: nat)
    ensures (log + Repeat(x, n)) + [x] == log + Repeat(x, n + 1)
  {
  }

  /** Calls answered inside a live window that has room for them. */
  lemma {:induction false} RedisBurst(l: Limiter, c: Counter, limit: nat, window: int, now: int, n: nat)
    requires l.counter == Some(c) && now < c.expiresAt && c.count + n <= limit
    ensures Run(l, limit, window, Repeat(Request(now, Answers), n)) ==
            Limiter(l.bucket, Some(c.(count := c.count + n)), l.log + Repeat(Attempt(now, ViaRedis, true), n))
  {
    if n == 0 {
      assert l.log + Repeat(Attempt(now, ViaRedis, true), 0) == l.log;
    } else {
      RedisBurst(l, c, limit, window, now, n - 1);
      RunOneMore(l, limit, window, Request(now, Answers), n - 1);
      LogOneMore(l.log, Attempt(now, ViaRedis, true), n - 1);
    }
  }

  /** Calls that open a window and stay within its limit. */
  lemma NewBurst(l: Limiter, limit: nat, window: int, now: int, n: nat)
    requires (l.counter.Some? ==> l.counter.value.expiresAt <= now) && 0 < window && 1 <= n <= limit
    ensures Run(l, limit, window, Repeat(Request(now, Answers), n)) ==
            Limiter(l.bucket, Some(Counter(n, now + window)), l.log + Repeat(Attempt(now, ViaRedis, true), n))
  {
    var r, x := Request(now, Answers), Attempt(now, ViaRedis, true);
    var first := Call(l, limit, window, r);
    assert first == Limiter(l.bucket, Some(Counter(1, now + window)), l.log + [x]);
    assert Repeat(r, n) == [r] + Repeat(r, n - 1);
    RunTogether(l, limit, window, [r], Repeat(r, n - 1));
    assert [r][..0] == [] && Run(l, limit, window, []) == l;
    assert Run(l, limit, window, [r]) == first;
    RedisBurst(first, first.counter.value, limit, window, now, n - 1);
    assert l.log + [x] + Repeat(x, n - 1) == l.log + Repeat(x, n);
  }

  /** Calls on an empty deque while Redis is down. */
  lemma {:induction false} FallbackBurst(l: Limiter, limit: nat, window: int, now: int, n: nat)
    requires l.bucket == [] && 0 < window && n <= limit
    ensures Run(l, limit, window, Repeat(Request(now, Unreachable), n)) ==
            Limiter(Repeat(now, n), l.counter, l.log + Repeat(Attempt(now, ViaFallback, true), n))
  {
    if n == 0 {
      assert l.log + Repeat(Attempt(now, ViaFallback, true), 0) == l.log;
    } else {
      FallbackBurst(l, limit, window, now, n - 1);
      RunOneMore(l, limit, window, Request(now, Unreachable), n - 1);
      LogOneMore(l.log, Attempt(now, ViaFallback, true), n - 1);
      assert DropOld(Repeat(now, n - 1), now - window) == Repeat(now, n - 1);
      assert Repeat(now, n - 1) + [now] == Repeat(now, n);
    }
  }

  lemma {:induction false} AdmittedRepeat(log: seq<Attempt>, x: Attempt, n: nat, path: Path, lo: int, hi: int)
    ensures Admitted(log + Repeat(x, n), path, lo, hi) ==
            Admitted(log, path, lo, hi) + if x.admitted && x.path == path && lo < x.at <= hi then n else 0
  {
    if n == 0 {
      assert log + Repeat(x, 0) == log;
    } else {
      AdmittedRepeat(log, x, n - 1, path, lo, hi);
      LogOneMore(log, x, n - 1);
      AdmittedOneMore(log + Repeat(x, n - 1), x, path, lo, hi);
    }
  }

  /** One call opens a window; it is filled just before it ends, then the next one, then the deque. */
  function Worst(limit: nat, window: int): seq<Request>
    requires 0 < limit
  {
    Repeat(Request(0, Answers), 1) + Repeat(Request(window - 1, Answers), limit - 1)
    + Repeat(Request(window, Answers), limit) + Repeat(Request(window, Unreachable), limit)
  }

  function WorstLog(limit: nat, window: int): seq<Attempt>
    requires 0 < limit
  {
    [] + Repeat(Attempt(0, ViaRedis, true), 1) + Repeat(Attempt(window - 1, ViaRedis, true), limit - 1)
    + Repeat(Attempt(window, ViaRedis, true), limit) + Repeat(Attempt(window, ViaFallback, true), limit)
  }

  lemma WorstRun(limit: nat, window: int)
    requires 0 < limit && 2 <= window
    ensures Run(Fresh(), limit, window, Worst(limit, window)).log == WorstLog(limit, window)
  {
    var a, b := Repeat(Request(0, Answers), 1), Repeat(Request(window - 1, Answers), limit - 1);
    var c, d := Repeat(Request(window, Answers), limit), Repeat(Request(window, Unreachable), limit);
    RunTogether(Fresh(), limit, window, a + b + c, d);
    RunTogether(Fresh(), limit, window, a + b, c);
    RunTogether(Fresh(), limit, window, a, b);
    NewBurst(Fresh(), limit, window, 0, 1);
    var l1 := Run(Fresh(), limit, window, a);
    RedisBurst(l1, Counter(1, window), limit, window, window - 1, limit - 1);
    var l2 := Run(l1, limit, window, b);
    NewBurst(l2, limit, window, window, limit);
    FallbackBurst(Run(l2, limit, window, c), limit, window, window, limit);
  }

  /** For every limit and every window of two ticks or more, one run attains all three bounds at once. */
  lemma BoundsAreAttained(limit: nat, window: int)
    requires 0 < limit && 2 <= window
    ensures Monotone(Worst(limit, window))
    ensures
      var log := Run(Fresh(), limit, window, Worst(limit, window)).log;
      && Admitted(log, ViaFallback, 0, window) == limit
      && Admitted(log, ViaRedis, 0, window) == 2 * limit - 1
  {
    WorstRun(limit, window);
    var x0, x1 := Attempt(0, ViaRedis, true), Attempt(window - 1, ViaRedis, true);
    var x2, x3 := Attempt(window, ViaRedis, true), Attempt(window, ViaFallback, true);
    forall path
      ensures Admitted(WorstLog(limit, window), path, 0, window) == if path.ViaFallback? then limit else 2 * limit - 1
    {
      AdmittedRepeat([], x0, 1, path, 0, window);
      AdmittedRepeat([] + Repeat(x0, 1), x1, limit - 1, path, 0, window);
      AdmittedRepeat([] + Repeat(x0, 1) + Repeat(x1, limit - 1), x2, limit, path, 0, window);
      AdmittedRepeat([] + Repeat(x0, 1) + Repeat(x1, limit - 1) + Repeat(x2, limit), x3, limit, path, 0, window);
    }
  }

  // ---------------------------------------------------------------------------------------
  // enforce_rate_limit
  // ---------------------------------------------------------------------------------------

  class RateLimiter {
    var fallback: map<string, seq<int>>
    var counters: map<string, Counter>
    ghost var history: map<string, seq<Attempt>>

    constructor ()
      ensures forall k :: Of(k) == Fresh()
    {
      fallback, counters, history := map[], map[], map[];
    }

    ghost function Of(key: string): Limiter
      reads this
    {
      Limiter(if key in fallback then fallback[key] else [],
              if key in counters then Some(counters[key]) else None,
              if key in history then history[key] else [])
    }

    /** The Redis pipeline; `None` when no reply arrives. */
    method SafeIncrement(key: string, window: int, now: int, redis: Redis) returns (count: Option<nat>)
      modifies this`counters
      ensures forall k :: k != key ==> Of(k) == old(Of(k))
      ensures Of(key) == old(Of(key)).(counter :=
                if redis.Unreachable? then old(Of(key)).counter else Some(Incr(old(Of(key)).counter, now, window)))
      ensures count == if redis.Answers? then Some(Of(key).counter.value.count) else None
    {
      if redis.Unreachable? {
        return None;
      }
      if key !in counters || counters[key].expiresAt <= now {
        counters := counters[key := Counter(0, now + window)];
      }
      counters := counters[key := counters[key].(count := counters[key].count + 1)];
      return if redis.Answers? then Some(counters[key].count) else None;
    }

    /** Admits the call or refuses it with 429. */
    method EnforceRateLimit(key: string, limit: nat, window: int, now: int, redis: Redis) returns (admitted: bool)
      modifies this
      ensures Of(key) == Call(old(Of(key)), limit, window, Request(now, redis))
      ensures forall k :: k != key ==> Of(k) == old(Of(k))
      ensures admitted == Of(key).log[|Of(key).log| - 1].admitted
    {
      ghost var log := Of(key).log;
      var count: nat;
      var redisCount := SafeIncrement(key, window, now, redis);
      if redisCount.Some? {
        count := redisCount.value;
      } else {
        var bucket := if key in fallback then fallback[key] else [];
        ghost var before := bucket;
        var cutoff := now - window;
        while bucket != [] && bucket[0] <= cutoff
          invariant DropOld(bucket, cutoff) == DropOld(before, cutoff)
        {
          bucket := bucket[1..];
        }
        bucket := bucket + [now];
        fallback := fallback[key := bucket];
        count := |bucket|;
      }
      admitted := !(count > limit);
      history := history[key := log + [Attempt(now, if redis.Answers? then ViaRedis else ViaFallback, admitted)]];
    }
  }
}
