/** The in-memory sliding-window rate limiter. */
module RateLimit {
  const WINDOW_SECONDS: real := 60.0
  const PREMIUM_LIMIT: nat := 30
  const FREE_LIMIT: nat := 5

  function MaxRequests(premium: bool): nat {
    if premium then PREMIUM_LIMIT else FREE_LIMIT
  }

  function KeyOf(identifier: string, endpoint: string): string {
    identifier + ":" + endpoint
  }

  ghost predicate Ascending(times: seq<real>) {
    forall i, j | 0 <= i < j < |times| :: times[i] <= times[j]
  }

  /** The times later than a bound; of an ascending list, a suffix. */
  function After(times: seq<real>, bound: real): seq<real> {
    if times == [] then []
    else if times[0] <= bound then After(times[1..], bound)
    else times
  }

  lemma {:induction false} AfterIsWindow(times: seq<real>, bound: real)
    requires Ascending(times)
    ensures Ascending(After(times, bound)) && |After(times, bound)| <= |times|
    ensures var from := |times| - |After(times, bound)|;
      && After(times, bound) == times[from..]
      && (forall i | 0 <= i < from :: times[i] <= bound)
      && (forall i | from <= i < |times| :: times[i] > bound)
  {
    if times != [] {
      if times[0] <= bound {
        AfterIsWindow(times[1..], bound);
        assert forall i | 1 <= i < |times| :: times[i] == times[1..][i - 1];
      } else {
        assert times[0..] == times;
        assert forall i | 0 <= i < |times| :: times[0] <= times[i];
      }
    }
  }

  /** Dropping what left an earlier window loses nothing of a later one. */
  lemma {:induction false} AfterAgain(times: seq<real>, early: real, late: real)
    requires Ascending(times) && early <= late
    ensures After(After(times, early), late) == After(times, late)
  {
    if times != [] {
      assert Ascending(times[1..]);
      if times[0] <= early {
        AfterAgain(times[1..], early, late);
      }
    }
  }

  /** What a queue is at every moment: the accepted times, sorted, that were still inside the window
      at the key's last clock reading. */
  ghost predicate Holds(queue: seq<real>, accepted: seq<real>, clock: real) {
    Ascending(accepted) && (forall t | t in accepted :: t <= clock) && queue == After(accepted, clock - WINDOW_SECONDS)
  }

  lemma HoldsMeans(queue: seq<real>, accepted: seq<real>, clock: real, now: real)
    requires Holds(queue, accepted, clock) && clock <= now
    ensures Ascending(accepted) && After(queue, now - WINDOW_SECONDS) == After(accepted, now - WINDOW_SECONDS)
    ensures Holds(After(queue, now - WINDOW_SECONDS), accepted, now)
  {
    AfterAgain(accepted, clock - WINDOW_SECONDS, now - WINDOW_SECONDS);
  }

  lemma HoldsAppend(queue: seq<real>, accepted: seq<real>, now: real)
    requires Holds(queue, accepted, now)
    ensures Holds(queue + [now], accepted + [now], now)
  {
    AfterAppend(accepted, now, now - WINDOW_SECONDS);
    assert forall t | t in accepted + [now] :: t in accepted || t == now;
    assert forall i | 0 <= i < |accepted| :: accepted[i] in accepted;
  }

  /** `RATE_LIMIT_WINDOWS` and, as ghosts, every accepted time of each key and its last clock
      reading. */
  class RateLimiter {
    var windows: map<string, seq<real>>
    ghost var accepted: map<string, seq<real>>
    ghost var clock: map<string, real>

    /** Each queue is sorted and holds exactly the accepted times still inside the window. */
    ghost predicate Valid()
      reads this
    {
      && windows.Keys == accepted.Keys == clock.Keys
      && forall key | key in windows :: Holds(windows[key], accepted[key], clock[key])
    }

    ghost function AcceptedBy(key: string): seq<real>
      reads this
    {
      if key in accepted then accepted[key] else []
    }

    constructor ()
      ensures Valid() && accepted == map[]
    {
      windows, accepted, clock := map[], map[], map[];
    }

    /** `check_rate_limit`: false stands for the 429 response. */
    method CheckRateLimit(identifier: string, premium: bool, endpoint: string, now: real) returns (allowed: bool)
      requires Valid()
      requires KeyOf(identifier, endpoint) in clock ==> clock[KeyOf(identifier, endpoint)] <= now
      modifies this
      ensures Valid()
      ensures
        var key := KeyOf(identifier, endpoint);
        var before := old(AcceptedBy(key));
        && allowed == (|After(before, now - 60.0)| < if premium then 30 else 5)
        && accepted == old(accepted)[key := if allowed then before + [now] else before]
        && clock == old(clock)[key := now]
    {
      hide Holds, After, Ascending;
      var key := KeyOf(identifier, endpoint);
      ghost var before := AcceptedBy(key);
      var queue := if key in windows then windows[key] else [];
      ghost var last := if key in clock then clock[key] else now;
      assert Holds(queue, before, last) by {
        if key !in windows { NothingHeld(now); }
      }
      HoldsMeans(queue, before, last, now);
      queue := Prune(queue, now - WINDOW_SECONDS);
      allowed := |queue| < MaxRequests(premium);
      if allowed {
        HoldsAppend(queue, before, now);
        queue := queue + [now];
      }
      windows := windows[key := queue];
      accepted := accepted[key := if allowed then before + [now] else before];
      clock := clock[key := now];
    }
  }

  lemma NothingHeld(clock: real)
    ensures Holds([], [], clock)
  {
  }

  method Prune(times: seq<real>, bound: real) returns (queue: seq<real>)
    ensures queue == After(times, bound)
  {
    queue := times;
    while queue != [] && queue[0] <= bound
      invariant After(queue, bound) == After(times, bound)
      decreases |queue|
    {
      queue := queue[1..];
    }
  }

  lemma {:induction false} AfterAppend(times: seq<real>, now: real, bound: real)
    requires Ascending(times) && now > bound
    ensures After(times + [now], bound) == After(times, bound) + [now]
  {
    if times != [] {
      assert (times + [now])[1..] == times[1..] + [now];
      AfterAppend(times[1..], now, bound);
    }
  }

  // ---------------------------------------------------------------- whole runs of one key

  /** One call: its clock reading and whether it was accepted. */
  datatype Call = Call(now: real, allowed: bool)

  function AcceptedIn(run: seq<Call>): seq<real> {
    if run == [] then []
    else
      var front, last := run[..|run| - 1], run[|run| - 1];
      if last.allowed then AcceptedIn(front) + [last.now] else AcceptedIn(front)
  }

  ghost predicate Decided(before: seq<Call>, call: Call, premium: bool) {
    call.allowed == (|After(AcceptedIn(before), call.now - WINDOW_SECONDS)| < MaxRequests(premium))
  }

  /** A run of calls on one key and tier with a clock that never goes back: each call is decided from
      the calls before it as `CheckRateLimit` decides it. */
  ghost predicate IsRun(run: seq<Call>, premium: bool) {
    run == [] || (
      var front, last := run[..|run| - 1], run[|run| - 1];
      && IsRun(front, premium)
      && (front == [] || front[|front| - 1].now <= last.now)
      && Decided(front, last, premium))
  }

  lemma EmptyRun(premium: bool)
    ensures IsRun([], premium) && AcceptedIn([]) == []
  {
  }

  lemma RunAppend(run: seq<Call>, call: Call, premium: bool)
    requires IsRun(run, premium) && (run != [] ==> run[|run| - 1].now <= call.now)
    requires call.allowed == (|After(AcceptedIn(run), call.now - WINDOW_SECONDS)| < MaxRequests(premium))
    ensures IsRun(run + [call], premium)
    ensures AcceptedIn(run + [call]) == if call.allowed then AcceptedIn(run) + [call.now] else AcceptedIn(run)
  {
    hide After;
    assert (run + [call])[..|run|] == run;
  }

  /** The calls a fresh limiter serves for one key are a run, and its queue ends as the accepted
      times of the run still inside the window. */
  method ServeKey(identifier: string, premium: bool, endpoint: string, nows: seq<real>)
      returns (run: seq<Call>, queue: seq<real>)
    requires forall i, j | 0 <= i < j < |nows| :: nows[i] <= nows[j]
    ensures |run| == |nows| && forall i | 0 <= i < |run| :: run[i].now == nows[i]
    ensures IsRun(run, premium)
    ensures queue == if nows == [] then [] else After(AcceptedIn(run), nows[|nows| - 1] - WINDOW_SECONDS)
  {
    hide After, Ascending, IsRun, AcceptedIn, Decided;
    EmptyRun(premium);
    var limiter := new RateLimiter();
    var key := KeyOf(identifier, endpoint);
    run := [];
    for k := 0 to |nows|
      invariant limiter.Valid() && fresh(limiter) && |run| == k
      invariant forall i | 0 <= i < k :: run[i].now == nows[i]
      invariant IsRun(run, premium) && limiter.AcceptedBy(key) == AcceptedIn(run)
      invariant if k == 0 then key !in limiter.clock else key in limiter.clock && limiter.clock[key] == nows[k - 1]
    {
      var allowed := limiter.CheckRateLimit(identifier, premium, endpoint, nows[k]);
      var call := Call(nows[k], allowed);
      RunAppend(run, call, premium);
      run := run + [call];
    }
    queue := if key in limiter.windows then limiter.windows[key] else [];
  }

  /** The accepted times in the half-open window of 60 seconds that starts at `from`. */
  function InWindow(times: seq<real>, from: real): nat {
    if times == [] then 0
    else InWindow(times[..|times| - 1], from) + if from <= times[|times| - 1] < from + WINDOW_SECONDS then 1 else 0
  }

  lemma {:induction false} AcceptedAscend(run: seq<Call>, premium: bool)
    requires IsRun(run, premium)
    ensures Ascending(AcceptedIn(run))
    ensures run != [] ==> forall t | t in AcceptedIn(run) :: t <= run[|run| - 1].now
    decreases |run|
  {
    hide Decided;
    if run != [] {
      var front, last := run[..|run| - 1], run[|run| - 1];
      AcceptedAscend(front, premium);
      var times := AcceptedIn(front);
      assert forall i | 0 <= i < |times| :: times[i] in times;
      assert forall t | t in times + [last.now] :: t in times || t == last.now;
    }
  }

  lemma {:induction false} AllBefore(times: seq<real>, bound: real, from: real)
    requires bound < from && forall i | 0 <= i < |times| :: times[i] <= bound
    ensures InWindow(times, from) == 0
    decreases |times|
  {
    if times != [] {
      AllBefore(times[..|times| - 1], bound, from);
    }
  }

  /** A window that starts after a bound counts no more than the queue cut at that bound holds. */
  lemma {:induction false} WindowWithinQueue(times: seq<real>, from: real, bound: real)
    requires Ascending(times) && bound < from
    ensures InWindow(times, from) <= |After(times, bound)|
    decreases |times|
  {
    if times != [] {
      var front, last := times[..|times| - 1], times[|times| - 1];
      if last > bound {
        WindowWithinQueue(front, from, bound);
        AfterAppend(front, last, bound);
        assert times == front + [last];
      } else {
        AllBefore(times, bound, from);
      }
    }
  }

  lemma InWindowAppend(times: seq<real>, now: real, from: real)
    ensures InWindow(times + [now], from)
         == InWindow(times, from) + if from <= now < from + WINDOW_SECONDS then 1 else 0
  {
    assert (times + [now])[..|times|] == times;
  }

  /** In every run, any 60-second window holds at most the tier's limit of accepted calls. */
  lemma {:induction false} WindowNeverOverLimit(run: seq<Call>, premium: bool, from: real)
    requires IsRun(run, premium)
    ensures InWindow(AcceptedIn(run), from) <= if premium then 30 else 5
    decreases |run|
  {
    hide InWindow, After, Ascending;
    if run == [] {
      assert InWindow([], from) == 0 by { NothingInWindow(from); }
    } else {
      var front, last := run[..|run| - 1], run[|run| - 1];
      WindowNeverOverLimit(front, premium, from);
      if last.allowed {
        var times := AcceptedIn(front);
        AcceptedAscend(front, premium);
        InWindowAppend(times, last.now, from);
        if from <= last.now < from + WINDOW_SECONDS {
          WindowWithinQueue(times, from, last.now - WINDOW_SECONDS);
        }
      }
    }
  }

  lemma NothingInWindow(from: real)
    ensures InWindow([], from) == 0
  {
  }
}
