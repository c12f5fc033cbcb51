/** The sliding-window rate limiter, against a definition that remembers the whole call history. */
module RateLimiting {
  import opened Base

  /** Times are clock ticks; `window` is the window length in ticks. */
  datatype Limits = Limits(maxRequests: nat, window: nat)

  datatype Call = Call(ip: string, now: nat)

  // ----- the reference: who is let through, by history alone

  /** Earlier calls of the same address that were let through less than one window before call k. */
  ghost function RecentlyAccepted(l: Limits, calls: seq<Call>, k: nat): set<nat>
    requires k < |calls|
    decreases k, 0
  {
    set j: nat | j < k && calls[j].ip == calls[k].ip && calls[k].now < calls[j].now + l.window && Accepts(l, calls, j)
  }

  ghost predicate Accepts(l: Limits, calls: seq<Call>, k: nat)
    requires k < |calls|
    decreases k, 1
  {
    |RecentlyAccepted(l, calls, k)| < l.maxRequests
  }

  ghost predicate ClockRuns(calls: seq<Call>) {
    forall i, j :: 0 <= i <= j < |calls| ==> calls[i].now <= calls[j].now
  }

  ghost function AcceptedDuring(l: Limits, calls: seq<Call>, ip: string, start: nat): set<nat> {
    set j: nat | j < |calls| && calls[j].ip == ip && start <= calls[j].now < start + l.window && Accepts(l, calls, j)
  }

  lemma {:induction false} Greatest(s: set<nat>) returns (k: nat)
    requires s != {}
    ensures k in s && forall j :: j in s ==> j <= k
    decreases |s|
  {
    var first :| first in s;
    k := first;
    if s != {first} {
      assert s - {first} != {};
      var rest := Greatest(s - {first});
      k := if rest > first then rest else first;
    }
    assert forall j :: j in s ==> j == first || j in s - {first};
  }

  /** No window, wherever it starts, lets more than maxRequests calls of one address through. */
  lemma NoWindowOverflows(l: Limits, calls: seq<Call>, ip: string, start: nat)
    ensures |AcceptedDuring(l, calls, ip, start)| <= l.maxRequests
  {
    var s := AcceptedDuring(l, calls, ip, start);
    if s != {} {
      var k := Greatest(s);
      assert s <= RecentlyAccepted(l, calls, k) + {k};
      SubsetSize(s, RecentlyAccepted(l, calls, k) + {k});
    }
  }

  /** A call is refused only when its window is full: exactly maxRequests calls of the address, at most a window back,
      were let through before it. */
  lemma RefusedOnlyWhenFull(l: Limits, calls: seq<Call>, k: nat)
    requires ClockRuns(calls) && k < |calls| && !Accepts(l, calls, k)
    ensures |RecentlyAccepted(l, calls, k)| == l.maxRequests
  {
    var recent := RecentlyAccepted(l, calls, k);
    var start := if calls[k].now < l.window then 0 else calls[k].now - l.window + 1;
    if l.window > 0 {
      NoWindowOverflows(l, calls, calls[k].ip, start);
      SubsetSize(recent, AcceptedDuring(l, calls, calls[k].ip, start));
    } else {
      assert recent == {};
    }
  }

  /** A verdict depends only on the calls up to it. */
  lemma {:induction false} AcceptsPrefix(l: Limits, calls: seq<Call>, more: seq<Call>, k: nat)
    requires k < |calls|
    ensures Accepts(l, calls + more, k) == Accepts(l, calls, k)
    decreases k
  {
    forall j: nat | j < k ensures Accepts(l, calls + more, j) == Accepts(l, calls, j) {
      AcceptsPrefix(l, calls, more, j);
    }
    assert RecentlyAccepted(l, calls + more, k) == RecentlyAccepted(l, calls, k);
  }

  // ----- the list the limiter keeps

  predicate Fresh(t: nat, now: nat, window: nat) {
    (if t <= now then now - t else 0) < window
  }

  function Retain(times: seq<nat>, now: nat, window: nat): seq<nat> {
    if times == [] then []
    else
      var rest := Retain(times[..|times| - 1], now, window);
      if Fresh(times[|times| - 1], now, window) then rest + [times[|times| - 1]] else rest
  }

  lemma RetainAppend(times: seq<nat>, t: nat, now: nat, window: nat)
    ensures Retain(times + [t], now, window)
            == if Fresh(t, now, window) then Retain(times, now, window) + [t] else Retain(times, now, window)
  {
    assert (times + [t])[..|times|] == times;
  }

  /** Dropping what is stale now and again later is the same as dropping once, later. */
  lemma {:induction false} RetainTwice(times: seq<nat>, now: nat, later: nat, window: nat)
    requires now <= later
    ensures Retain(Retain(times, now, window), later, window) == Retain(times, later, window)
  {
    if times != [] {
      var front, last := times[..|times| - 1], times[|times| - 1];
      RetainTwice(front, now, later, window);
      RetainAppend(Retain(front, now, window), last, later, window);
    }
  }

  /** The times at which calls of `ip` were let through, oldest first. */
  ghost function Log(l: Limits, calls: seq<Call>, n: nat, ip: string): seq<nat>
    requires n <= |calls|
  {
    if n == 0 then []
    else if calls[n - 1].ip == ip && Accepts(l, calls, n - 1) then Log(l, calls, n - 1, ip) + [calls[n - 1].now]
    else Log(l, calls, n - 1, ip)
  }

  ghost function Below(s: set<nat>, n: nat): set<nat> {
    set j | j in s && j < n
  }

  lemma BelowNext(s: set<nat>, n: nat)
    ensures |Below(s, n + 1)| == |Below(s, n)| + (if n in s then 1 else 0)
  {
    assert Below(s, n + 1) == Below(s, n) + (if n in s then {n} else {});
  }

  lemma RecentIff(l: Limits, calls: seq<Call>, n: nat, k: nat)
    requires n < k < |calls| && ClockRuns(calls)
    ensures n in RecentlyAccepted(l, calls, k) <==>
              calls[n].ip == calls[k].ip && Accepts(l, calls, n) && Fresh(calls[n].now, calls[k].now, l.window)
  {
    assert calls[n].now <= calls[k].now;
  }

  /** One more call on both sides of the count. */
  lemma CountsNext(recent: set<nat>, log: seq<nat>, n: nat, t: nat, now: nat, window: nat, logged: bool)
    requires |Retain(log, now, window)| == |Below(recent, n)|
    requires n in recent <==> logged && Fresh(t, now, window)
    ensures |Retain(if logged then log + [t] else log, now, window)| == |Below(recent, n + 1)|
  {
    BelowNext(recent, n);
    RetainAppend(log, t, now, window);
  }

  /** The fresh part of the log is as long as the set the reference counts. */
  lemma {:induction false} LogCounts(l: Limits, calls: seq<Call>, n: nat, k: nat)
    requires n <= k < |calls| && ClockRuns(calls)
    ensures |Retain(Log(l, calls, n, calls[k].ip), calls[k].now, l.window)| == |Below(RecentlyAccepted(l, calls, k), n)|
  {
    if n == 0 {
      assert Below(RecentlyAccepted(l, calls, k), 0) == {};
    } else {
      LogCounts(l, calls, n - 1, k);
      RecentIff(l, calls, n - 1, k);
      CountsNext(RecentlyAccepted(l, calls, k), Log(l, calls, n - 1, calls[k].ip), n - 1, calls[n - 1].now,
                 calls[k].now, l.window, calls[n - 1].ip == calls[k].ip && Accepts(l, calls, n - 1));
    }
  }

  lemma {:induction false} LogPrefix(l: Limits, calls: seq<Call>, more: seq<Call>, n: nat, ip: string)
    requires n <= |calls|
    ensures Log(l, calls + more, n, ip) == Log(l, calls, n, ip)
  {
    if n > 0 {
      LogPrefix(l, calls, more, n - 1, ip);
      AcceptsPrefix(l, calls, more, n - 1);
    }
  }

  /** From time `from` on, what is kept for an address is as good as its full log. */
  ghost predicate AsGood(l: Limits, calls: seq<Call>, ip: string, kept: seq<nat>, from: nat) {
    forall t: nat :: from <= t ==> Retain(kept, t, l.window) == Retain(Log(l, calls, |calls|, ip), t, l.window)
  }

  /** The verdict by the kept list is the verdict by history. */
  lemma VerdictAgrees(l: Limits, before: seq<Call>, call: Call, kept: seq<nat>)
    requires ClockRuns(before + [call]) && AsGood(l, before, call.ip, kept, call.now)
    ensures |Retain(kept, call.now, l.window)| < l.maxRequests <==> Accepts(l, before + [call], |before|)
  {
    var calls, n := before + [call], |before|;
    LogPrefix(l, before, [call], n, call.ip);
    LogCounts(l, calls, n, n);
    assert Below(RecentlyAccepted(l, calls, n), n) == RecentlyAccepted(l, calls, n);
  }

  function Kept(requests: map<string, seq<nat>>, ip: string): seq<nat> {
    if ip in requests then requests[ip] else []
  }

  /** The table after a call: the caller's list filtered, and extended if there was room. */
  function Recorded(l: Limits, requests: map<string, seq<nat>>, call: Call): map<string, seq<nat>> {
    var live := Retain(Kept(requests, call.ip), call.now, l.window);
    requests[call.ip := if |live| < l.maxRequests then live + [call.now] else live]
  }

  ghost function Clock(calls: seq<Call>): nat {
    if calls == [] then 0 else calls[|calls| - 1].now
  }

  ghost predicate Faithful(l: Limits, calls: seq<Call>, requests: map<string, seq<nat>>) {
    ClockRuns(calls) && forall ip :: AsGood(l, calls, ip, Kept(requests, ip), Clock(calls))
  }

  /** One call keeps every list as good as its log. */
  lemma RecordedIsFaithful(l: Limits, calls: seq<Call>, requests: map<string, seq<nat>>, call: Call)
    requires Faithful(l, calls, requests) && Clock(calls) <= call.now
    ensures Faithful(l, calls + [call], Recorded(l, requests, call))
    ensures |Retain(Kept(requests, call.ip), call.now, l.window)| < l.maxRequests
            <==> Accepts(l, calls + [call], |calls|)
  {
    var n, later := |calls|, Recorded(l, requests, call);
    assert AsGood(l, calls, call.ip, Kept(requests, call.ip), Clock(calls));
    VerdictAgrees(l, calls, call, Kept(requests, call.ip));
    forall ip ensures AsGood(l, calls + [call], ip, Kept(later, ip), call.now) {
      assert AsGood(l, calls, ip, Kept(requests, ip), Clock(calls));
      LogPrefix(l, calls, [call], n, ip);
      if ip == call.ip {
        OwnListAsGood(l, calls, call, Kept(requests, ip));
      }
    }
  }

  lemma OwnListAsGood(l: Limits, calls: seq<Call>, call: Call, kept: seq<nat>)
    requires AsGood(l, calls, call.ip, kept, call.now)
    requires |Retain(kept, call.now, l.window)| < l.maxRequests <==> Accepts(l, calls + [call], |calls|)
    ensures var live := Retain(kept, call.now, l.window);
            AsGood(l, calls + [call], call.ip, if |live| < l.maxRequests then live + [call.now] else live, call.now)
  {
    var n, live, log := |calls|, Retain(kept, call.now, l.window), Log(l, calls, |calls|, call.ip);
    LogPrefix(l, calls, [call], n, call.ip);
    var after := if |live| < l.maxRequests then live + [call.now] else live;
    forall t: nat | call.now <= t
      ensures Retain(after, t, l.window) == Retain(Log(l, calls + [call], n + 1, call.ip), t, l.window)
    {
      RetainTwice(kept, call.now, t, l.window);
      RetainAppend(live, call.now, t, l.window);
      RetainAppend(log, call.now, t, l.window);
    }
  }

  class RateLimiter {
    const limits: Limits
    var requests: map<string, seq<nat>>
    /** Every call so far. */
    ghost var history: seq<Call>

    ghost predicate Valid()
      reads this
    {
      Faithful(limits, history, requests)
    }

    constructor (maxRequests: nat, window: nat)
      ensures Valid() && history == [] && limits == Limits(maxRequests, window)
    {
      limits, requests, history := Limits(maxRequests, window), map[], [];
    }

    /** Lets a call through exactly when the reference does. */
    method Check(ip: string, now: nat) returns (ok: bool)
      requires Valid() && Clock(history) <= now
      modifies this
      ensures Valid() && history == old(history) + [Call(ip, now)]
      ensures ok == Accepts(limits, history, |history| - 1)
    {
      RecordedIsFaithful(limits, history, requests, Call(ip, now));
      var entry := RetainFresh(Kept(requests, ip), now);
      ok := |entry| < limits.maxRequests;
      if ok {
        entry := entry + [now];
      }
      requests := requests[ip := entry];
      history := history + [Call(ip, now)];
    }

    method RetainFresh(times: seq<nat>, now: nat) returns (kept: seq<nat>)
      ensures kept == Retain(times, now, limits.window)
    {
      kept := [];
      for i := 0 to |times|
        invariant kept == Retain(times[..i], now, limits.window)
      {
        assert times[..i + 1] == times[..i] + [times[i]];
        RetainAppend(times[..i], times[i], now, limits.window);
        if Fresh(times[i], now, limits.window) {
          kept := kept + [times[i]];
        }
      }
      assert times[..|times|] == times;
    }
  }
}
