/** The sliding-window rate limiter of internal/server/ratelimit.go. Times are integers
    (nanoseconds) of a clock that never goes back. */
module RateLimit {
  import opened Collections

  datatype Config = Config(window: int, max: nat)

  /** Limits as given, which may be nonsense. */
  datatype Policy = Policy(window: int, maxRequests: int)
  datatype Verdict = Verdict(allowed: bool, retryAfter: int)
  datatype Request = Request(key: string, at: int)

  const CLEANUP_INTERVAL := 60_000_000_000
  const DEFAULT_WINDOW := 60_000_000_000
  const DEFAULT_MAX := 5

  predicate Sound(c: Config) { c.window > 0 && c.max > 0 }

  /** NewRateLimiterWithPolicy replaces limits that are not positive. */
  function Normalize(p: Policy): (r: Config)
    ensures Sound(r)
  {
    Config(if p.window <= 0 then DEFAULT_WINDOW else p.window, if p.maxRequests <= 0 then DEFAULT_MAX else p.maxRequests)
  }

  /** The times later than the cutoff. */
  function After(times: seq<int>, cutoff: int): (r: seq<int>)
    ensures |r| <= |times|
  {
    if times == [] then []
    else
      var n := |times| - 1;
      if times[n] > cutoff then After(times[..n], cutoff) + [times[n]] else After(times[..n], cutoff)
  }

  // ---- The reference: a log of every accepted request ------------------------------------

  type Log = map<string, seq<int>>

  function Past(log: Log, key: string): seq<int> {
    if key in log then log[key] else []
  }

  /** Allowed while fewer than max accepted requests lie in the last window. */
  function Decide(c: Config, past: seq<int>, now: int): Verdict {
    var recent := After(past, now - c.window);
    if |recent| >= c.max && recent != [] then Verdict(false, recent[0] + c.window - now) else Verdict(true, 0)
  }

  function LogStep(c: Config, log: Log, r: Request): Log {
    if Decide(c, Past(log, r.key), r.at).allowed then log[r.key := Past(log, r.key) + [r.at]] else log
  }

  function LogRun(c: Config, reqs: seq<Request>): Log {
    if reqs == [] then map[]
    else LogStep(c, LogRun(c, reqs[..|reqs| - 1]), reqs[|reqs| - 1])
  }

  ghost predicate InOrder(reqs: seq<Request>) {
    forall i, j :: 0 <= i < j < |reqs| ==> reqs[i].at <= reqs[j].at
  }

  // ---- The limiter, on values ---------------------------------------------------------------

  /** entries holds the timestamps still kept; lastCleanup is None before the first one. */
  datatype Limiter = Limiter(entries: Log, lastCleanup: Option<int>)

  function PruneAll(entries: Log, cutoff: int): Log {
    map k | k in entries && After(entries[k], cutoff) != [] :: After(entries[k], cutoff)
  }

  function CleanupSpec(c: Config, l: Limiter, now: int): Limiter {
    if l.lastCleanup.Some? && now - l.lastCleanup.value < CLEANUP_INTERVAL then l
    else Limiter(PruneAll(l.entries, now - c.window), Some(now))
  }

  /** Allow after the cleanup: prune the key, then decide. */
  function Settle(c: Config, entries: Log, key: string, now: int): (Log, Verdict) {
    var kept := After(Past(entries, key), now - c.window);
    if |kept| >= c.max && kept != [] then
      var retry := kept[0] + c.window - now;
      (entries[key := kept], Verdict(false, if retry < 0 then 0 else retry))
    else
      (entries[key := kept + [now]], Verdict(true, 0))
  }

  function AllowSpec(c: Config, l: Limiter, key: string, now: int): (Limiter, Verdict) {
    var l' := CleanupSpec(c, l, now);
    var out := Settle(c, l'.entries, key, now);
    (Limiter(out.0, l'.lastCleanup), out.1)
  }

  function LimiterRun(c: Config, reqs: seq<Request>): Limiter {
    if reqs == [] then Limiter(map[], None)
    else
      var n := |reqs| - 1;
      AllowSpec(c, LimiterRun(c, reqs[..n]), reqs[n].key, reqs[n].at).0
  }

  // ---- Filtering ------------------------------------------------------------------------------

  lemma {:induction false} AfterAfter(times: seq<int>, a: int, b: int)
    requires a <= b
    ensures After(After(times, a), b) == After(times, b)
  {
    if times != [] {
      var n := |times| - 1;
      AfterAfter(times[..n], a, b);
      if times[n] > a {
        AfterAppend(After(times[..n], a), times[n], b);
      }
    }
  }

  lemma AfterAppend(times: seq<int>, t: int, cutoff: int)
    ensures After(times + [t], cutoff) == if t > cutoff then After(times, cutoff) + [t] else After(times, cutoff)
  {
    assert (times + [t])[..|times|] == times;
  }

  ghost predicate Sorted(s: seq<int>) {
    forall i, j :: 0 <= i < j < |s| ==> s[i] <= s[j]
  }

  /** In a sorted list the recent times are a suffix. */
  lemma {:induction false} AfterIsSuffix(s: seq<int>, cutoff: int) returns (d: nat)
    requires Sorted(s)
    ensures d <= |s| && After(s, cutoff) == s[d..]
    ensures forall i :: 0 <= i < d ==> s[i] <= cutoff
    ensures forall i :: d <= i < |s| ==> s[i] > cutoff
    ensures forall i :: 0 <= i < |s| && s[i] <= cutoff ==> i < d
  {
    d := 0;
    while d < |s| && s[d] <= cutoff
      invariant d <= |s| && forall i :: 0 <= i < d ==> s[i] <= cutoff
    {
      d := d + 1;
    }
    AfterCut(s, cutoff, d);
  }

  lemma {:induction false} AfterCut(s: seq<int>, cutoff: int, d: nat)
    requires d <= |s|
    requires forall i :: 0 <= i < d ==> s[i] <= cutoff
    requires forall i :: d <= i < |s| ==> s[i] > cutoff
    ensures After(s, cutoff) == s[d..]
  {
    if s != [] {
      var n := |s| - 1;
      if d <= n {
        AfterCut(s[..n], cutoff, d);
        assert s[d..] == s[..n][d..] + [s[n]];
      } else {
        AfterCut(s[..n], cutoff, n);
      }
    }
  }

  // ---- The limiter refines the log ----------------------------------------------------------

  /** Entries and log agree on everything still inside the window at time now. */
  ghost predicate Refines(c: Config, entries: Log, log: Log, now: int) {
    forall k :: SameRecent(Past(entries, k), Past(log, k), now - c.window)
  }

  ghost predicate SameRecent(e: seq<int>, p: seq<int>, cut: int) {
    After(e, cut) == After(p, cut)
  }

  lemma LaterAgree(e: seq<int>, p: seq<int>, cut: int, later: int)
    requires SameRecent(e, p, cut) && cut <= later
    ensures SameRecent(e, p, later)
  {
    AfterAfter(e, cut, later);
    AfterAfter(p, cut, later);
  }

  lemma RefinesLater(c: Config, entries: Log, log: Log, last: int, now: int)
    requires Refines(c, entries, log, last) && last <= now
    ensures Refines(c, entries, log, now)
  {
    forall k ensures SameRecent(Past(entries, k), Past(log, k), now - c.window) {
      LaterAgree(Past(entries, k), Past(log, k), last - c.window, now - c.window);
    }
  }

  lemma PruneRefines(c: Config, entries: Log, log: Log, now: int)
    requires Refines(c, entries, log, now)
    ensures Refines(c, PruneAll(entries, now - c.window), log, now)
  {
    var cut := now - c.window;
    var pruned := PruneAll(entries, cut);
    forall k ensures SameRecent(Past(pruned, k), Past(log, k), cut) {
      AfterAfter(Past(entries, k), cut, cut);
      assert SameRecent(Past(entries, k), Past(log, k), cut);
      assert Past(pruned, k) == After(Past(entries, k), cut);
    }
  }

  lemma AllowRefines(c: Config, l: Limiter, log: Log, last: int, r: Request)
    requires Sound(c) && Refines(c, l.entries, log, last) && last <= r.at
    ensures AllowSpec(c, l, r.key, r.at).1 == Decide(c, Past(log, r.key), r.at)
    ensures Refines(c, AllowSpec(c, l, r.key, r.at).0.entries, LogStep(c, log, r), r.at)
  {
    CleanupRefines(c, l, log, last, r.at);
    SettleRefines(c, CleanupSpec(c, l, r.at).entries, log, r);
  }

  lemma CleanupRefines(c: Config, l: Limiter, log: Log, last: int, now: int)
    requires Refines(c, l.entries, log, last) && last <= now
    ensures Refines(c, CleanupSpec(c, l, now).entries, log, now)
  {
    RefinesLater(c, l.entries, log, last, now);
    if l.lastCleanup.Some? && now - l.lastCleanup.value < CLEANUP_INTERVAL {
      assert CleanupSpec(c, l, now).entries == l.entries;
    } else {
      PruneRefines(c, l.entries, log, now);
      assert CleanupSpec(c, l, now).entries == PruneAll(l.entries, now - c.window);
    }
  }

  lemma SettleRefines(c: Config, entries: Log, log: Log, r: Request)
    requires Sound(c) && Refines(c, entries, log, r.at)
    ensures Settle(c, entries, r.key, r.at).1 == Decide(c, Past(log, r.key), r.at)
    ensures Refines(c, Settle(c, entries, r.key, r.at).0, LogStep(c, log, r), r.at)
  {
    var e, p := Past(entries, r.key), Past(log, r.key);
    var kept := After(e, r.at - c.window);
    assert SameRecent(e, p, r.at - c.window);
    SettleTo(c, entries, log, r);
    KeptAgrees(e, p, r.at - c.window);
    if Decide(c, p, r.at).allowed {
      AppendAgrees(kept, p, r.at, r.at - c.window);
      UpdateRefines(c, entries, log, r.key, kept + [r.at], p + [r.at], r.at);
    } else {
      UpdateEntryRefines(c, entries, log, r.key, kept, r.at);
    }
  }

  /** The decision of Settle and the entries it leaves, in terms of the log. */
  lemma SettleTo(c: Config, entries: Log, log: Log, r: Request)
    requires Sound(c) && SameRecent(Past(entries, r.key), Past(log, r.key), r.at - c.window)
    ensures Settle(c, entries, r.key, r.at).1 == Decide(c, Past(log, r.key), r.at)
    ensures var kept, allowed := After(Past(entries, r.key), r.at - c.window), Decide(c, Past(log, r.key), r.at).allowed;
            && Settle(c, entries, r.key, r.at).0 == entries[r.key := if allowed then kept + [r.at] else kept]
            && LogStep(c, log, r) == if allowed then log[r.key := Past(log, r.key) + [r.at]] else log
  {
    RecentIsRecent(Past(entries, r.key), r.at - c.window);
  }

  lemma UpdateRefines(c: Config, entries: Log, log: Log, key: string, e: seq<int>, p: seq<int>, now: int)
    requires Refines(c, entries, log, now) && SameRecent(e, p, now - c.window)
    ensures Refines(c, entries[key := e], log[key := p], now)
  {
    var entries', log' := entries[key := e], log[key := p];
    forall k ensures SameRecent(Past(entries', k), Past(log', k), now - c.window) {
      assert SameRecent(Past(entries, k), Past(log, k), now - c.window);
    }
  }

  lemma UpdateEntryRefines(c: Config, entries: Log, log: Log, key: string, e: seq<int>, now: int)
    requires Refines(c, entries, log, now) && SameRecent(e, Past(log, key), now - c.window)
    ensures Refines(c, entries[key := e], log, now)
  {
    var entries' := entries[key := e];
    forall k ensures SameRecent(Past(entries', k), Past(log, k), now - c.window) {
      assert SameRecent(Past(entries, k), Past(log, k), now - c.window);
    }
  }

  lemma KeptAgrees(e: seq<int>, p: seq<int>, cut: int)
    requires SameRecent(e, p, cut)
    ensures SameRecent(After(e, cut), p, cut)
  {
    AfterAfter(e, cut, cut);
  }

  lemma AppendAgrees(e: seq<int>, p: seq<int>, t: int, cut: int)
    requires SameRecent(e, p, cut)
    ensures SameRecent(e + [t], p + [t], cut)
  {
    AfterAppend(e, t, cut);
    AfterAppend(p, t, cut);
  }

  lemma {:induction false} RecentIsRecent(times: seq<int>, cutoff: int)
    ensures forall i :: 0 <= i < |After(times, cutoff)| ==> After(times, cutoff)[i] > cutoff
  {
    if times != [] {
      RecentIsRecent(times[..|times| - 1], cutoff);
    }
  }

  lemma {:induction false} RunRefines(c: Config, reqs: seq<Request>, last: int)
    requires Sound(c) && InOrder(reqs) && forall i :: 0 <= i < |reqs| ==> reqs[i].at <= last
    ensures Refines(c, LimiterRun(c, reqs).entries, LogRun(c, reqs), last)
  {
    if reqs != [] {
      var n := |reqs| - 1;
      RunRefines(c, reqs[..n], reqs[n].at);
      AllowRefines(c, LimiterRun(c, reqs[..n]), LogRun(c, reqs[..n]), reqs[n].at, reqs[n]);
      RefinesLater(c, LimiterRun(c, reqs).entries, LogRun(c, reqs), reqs[n].at, last);
    }
  }

  /** In every run the limiter decides exactly as the log of all accepted requests does. */
  lemma SameDecisions(c: Config, reqs: seq<Request>, r: Request)
    requires Sound(c) && InOrder(reqs + [r])
    ensures AllowSpec(c, LimiterRun(c, reqs), r.key, r.at).1 == Decide(c, Past(LogRun(c, reqs), r.key), r.at)
  {
    var all := reqs + [r];
    forall i | 0 <= i < |reqs| ensures reqs[i].at <= r.at {
      assert all[i] == reqs[i] && all[|reqs|] == r;
    }
    forall i, j | 0 <= i < j < |reqs| ensures reqs[i].at <= reqs[j].at {
      assert all[i] == reqs[i] && all[j] == reqs[j];
    }
    RunRefines(c, reqs, r.at);
    AllowRefines(c, LimiterRun(c, reqs), LogRun(c, reqs), r.at, r);
  }

  // ---- No window holds more than max acceptances -----------------------------------------------

  /** Accepted times are in order, and those max places apart are at least a window apart. */
  ghost predicate Spread(c: Config, s: seq<int>) {
    Sorted(s) && forall i, j :: 0 <= i < |s| && i + c.max <= j < |s| ==> s[j] - s[i] >= c.window
  }

  ghost predicate UpTo(s: seq<int>, t: int) {
    forall i :: 0 <= i < |s| ==> s[i] <= t
  }

  lemma AcceptKeepsSpread(c: Config, s: seq<int>, now: int)
    requires Sound(c) && Spread(c, s) && UpTo(s, now) && Decide(c, s, now).allowed
    ensures Spread(c, s + [now])
  {
    var d := AfterIsSuffix(s, now - c.window);
    var t := s + [now];
    forall i, j | 0 <= i < |t| && i + c.max <= j < |t| ensures t[j] - t[i] >= c.window {
      if j == |s| {
        assert i < d;
      } else {
        assert t[j] == s[j] && t[i] == s[i];
      }
    }
  }

  lemma {:induction false} LogIsSpread(c: Config, reqs: seq<Request>, key: string, last: int)
    requires Sound(c) && InOrder(reqs) && forall i :: 0 <= i < |reqs| ==> reqs[i].at <= last
    ensures Spread(c, Past(LogRun(c, reqs), key)) && UpTo(Past(LogRun(c, reqs), key), last)
  {
    if reqs != [] {
      var n := |reqs| - 1;
      LogIsSpread(c, reqs[..n], key, reqs[n].at);
      var log := LogRun(c, reqs[..n]);
      if reqs[n].key == key && Decide(c, Past(log, key), reqs[n].at).allowed {
        AcceptKeepsSpread(c, Past(log, key), reqs[n].at);
      }
    }
  }

  function CountIn(s: seq<int>, from: int, to: int): nat {
    if s == [] then 0
    else CountIn(s[..|s| - 1], from, to) + (if from < s[|s| - 1] <= to then 1 else 0)
  }

  lemma {:induction false} CountSplit(s: seq<int>, from: int, to: int, a: nat, b: nat)
    requires a <= b <= |s|
    requires forall i :: 0 <= i < a ==> s[i] <= from
    requires forall i :: b <= i < |s| ==> s[i] > to
    ensures CountIn(s, from, to) <= b - a
  {
    if s != [] {
      var n := |s| - 1;
      if b == |s| {
        if a == |s| { CountSplit(s[..n], from, to, n, n); }
        else { CountSplit(s[..n], from, to, a, n); }
      } else {
        CountSplit(s[..n], from, to, a, b);
      }
    }
  }

  lemma CloseTogether(c: Config, s: seq<int>, from: int, a: nat, b: nat)
    requires Spread(c, s) && a < b <= |s| && s[a] > from && s[b - 1] <= from + c.window
    ensures b - a <= c.max
  {
  }

  lemma FirstLater(s: seq<int>, cutoff: int) returns (d: nat)
    requires Sorted(s)
    ensures d <= |s| && (forall i :: 0 <= i < d ==> s[i] <= cutoff) && (forall i :: d <= i < |s| ==> s[i] > cutoff)
  {
    d := AfterIsSuffix(s, cutoff);
  }

  lemma SpreadBound(c: Config, s: seq<int>, from: int)
    requires Sound(c) && Spread(c, s)
    ensures CountIn(s, from, from + c.window) <= c.max
  {
    var a := FirstLater(s, from);
    var b := FirstLater(s, from + c.window);
    assert a > 0 ==> s[a - 1] <= from;
    if a < b { CloseTogether(c, s, from, a, b); }
    CountSplit(s, from, from + c.window, a, b);
  }

  /** Over any run, for any key, every stretch of time as long as the window, open at its
      start and closed at its end, contains at most max acceptances. */
  lemma WindowBound(c: Config, reqs: seq<Request>, key: string, from: int)
    requires Sound(c) && InOrder(reqs)
    ensures CountIn(Past(LogRun(c, reqs), key), from, from + c.window) <= c.max
  {
    LogIsSpread(c, reqs, key, if reqs == [] then 0 else reqs[|reqs| - 1].at);
    SpreadBound(c, Past(LogRun(c, reqs), key), from);
  }

  /** When the limiter itself let requests of the key through. */
  function Accepted(c: Config, reqs: seq<Request>, key: string): seq<int> {
    if reqs == [] then []
    else
      var n := |reqs| - 1;
      var before, r := Accepted(c, reqs[..n], key), reqs[n];
      if r.key == key && AllowSpec(c, LimiterRun(c, reqs[..n]), key, r.at).1.allowed then before + [r.at] else before
  }

  lemma {:induction false} AcceptedIsLogged(c: Config, reqs: seq<Request>, key: string)
    requires Sound(c) && InOrder(reqs)
    ensures Accepted(c, reqs, key) == Past(LogRun(c, reqs), key)
  {
    if reqs != [] {
      var n := |reqs| - 1;
      InOrderPrefix(reqs, n);
      AcceptedIsLogged(c, reqs[..n], key);
      assert reqs == reqs[..n] + [reqs[n]];
      SameDecisions(c, reqs[..n], reqs[n]);
    }
  }

  /** The same bound on the limiter's own verdicts. */
  lemma AllowedBound(c: Config, reqs: seq<Request>, key: string, from: int)
    requires Sound(c) && InOrder(reqs)
    ensures CountIn(Accepted(c, reqs, key), from, from + c.window) <= c.max
  {
    AcceptedIsLogged(c, reqs, key);
    WindowBound(c, reqs, key, from);
  }

  /** The max-th last of the accepted times, if there is one, decides. */
  ghost predicate DueAfter(c: Config, times: seq<int>, now: int, v: Verdict)
    requires Sound(c)
  {
    v == if |times| < c.max || times[|times| - c.max] <= now - c.window then Verdict(true, 0)
         else Verdict(false, times[|times| - c.max] + c.window - now)
  }

  /** The verdict in terms of the accepted times alone: a request goes through exactly when the
      max-th last acceptance of its key, if there is one, is at least a window ago; otherwise
      retryAfter is the time until it is. */
  lemma VerdictInFull(c: Config, reqs: seq<Request>, key: string, now: int, v: Verdict)
    requires Sound(c) && InOrder(reqs) && forall i :: 0 <= i < |reqs| ==> reqs[i].at <= now
    requires v == AllowSpec(c, LimiterRun(c, reqs), key, now).1
    ensures DueAfter(c, Accepted(c, reqs, key), now, v)
  {
    var times := Accepted(c, reqs, key);
    assert Spread(c, times) && UpTo(times, now) by {
      LogIsSpread(c, reqs, key, now);
      AcceptedIsLogged(c, reqs, key);
    }
    assert v == Decide(c, times, now) by {
      DecisionOnRun(c, reqs, key, now);
      AcceptedIsLogged(c, reqs, key);
    }
    DecidedByMaxthLast(c, times, now);
  }

  lemma DecidedByMaxthLast(c: Config, s: seq<int>, now: int)
    requires Sound(c) && Spread(c, s) && UpTo(s, now)
    ensures DueAfter(c, s, now, Decide(c, s, now))
  {
    var d := AfterIsSuffix(s, now - c.window);
    assert |After(s, now - c.window)| == |s| - d;
    if |s| - d >= c.max {
      assert s[d] > now - c.window;
      assert d + c.max >= |s|;
    }
  }

  /** Positive limits are taken as given; any other becomes a minute, or five requests. */
  lemma PolicyInFull(p: Policy)
    ensures p.window > 0 && p.maxRequests > 0 ==> Normalize(p) == Config(p.window, p.maxRequests)
    ensures p.window <= 0 ==> Normalize(p).window == 60 * 1_000_000_000
    ensures p.maxRequests <= 0 ==> Normalize(p).max == 5
    ensures p.window > 0 ==> Normalize(p).window == p.window
    ensures p.maxRequests > 0 ==> Normalize(p).max == p.maxRequests
  {
  }

  lemma {:induction false} AfterMembers(times: seq<int>, cutoff: int, t: int)
    ensures t in After(times, cutoff) <==> t in times && t > cutoff
  {
    if times != [] {
      var n := |times| - 1;
      AfterMembers(times[..n], cutoff, t);
      assert times == times[..n] + [times[n]];
    }
  }

  /** A cleanup waits a minute since the last one; then every key keeps just its times inside
      the window, and one without any goes. */
  lemma CleanupInFull(c: Config, l: Limiter, now: int, key: string)
    ensures var m := CleanupSpec(c, l, now);
            if l.lastCleanup.Some? && now < l.lastCleanup.value + 60 * 1_000_000_000 then m == l
            else
              && m.lastCleanup == Some(now)
              && (key in m.entries <==> key in l.entries && exists t :: t in l.entries[key] && t > now - c.window)
              && (key in m.entries ==> forall t :: t in m.entries[key] <==> t in l.entries[key] && t > now - c.window)
  {
    if key in l.entries {
      var kept := After(l.entries[key], now - c.window);
      forall t ensures t in kept <==> t in l.entries[key] && t > now - c.window {
        AfterMembers(l.entries[key], now - c.window, t);
      }
      if kept != [] { assert kept[0] in kept; }
    }
  }

  // ---- retryAfter is exact -----------------------------------------------------------------------

  lemma StillDenied(c: Config, s: seq<int>, now: int, later: int)
    requires Sound(c) && Sorted(s) && !Decide(c, s, now).allowed
    requires now <= later < now + Decide(c, s, now).retryAfter
    ensures Decide(c, s, later) == Verdict(false, now + Decide(c, s, now).retryAfter - later)
  {
    var d := AfterIsSuffix(s, now - c.window);
    AfterCut(s, later - c.window, d);
  }

  lemma FreeAtRetry(c: Config, s: seq<int>, now: int)
    requires Sound(c) && Spread(c, s) && UpTo(s, now) && !Decide(c, s, now).allowed
    ensures Decide(c, s, now).retryAfter > 0
    ensures Decide(c, s, now + Decide(c, s, now).retryAfter).allowed
  {
    var d := AfterIsSuffix(s, now - c.window);
    var d' := AfterIsSuffix(s, now + Decide(c, s, now).retryAfter - c.window);
    assert s[d] > now - c.window && s[|s| - 1] <= now;
    assert d < d';
  }

  lemma InOrderParts(reqs: seq<Request>, more: seq<Request>)
    requires InOrder(reqs + more)
    ensures InOrder(reqs) && InOrder(more)
    ensures forall i, j :: 0 <= i < |reqs| && 0 <= j < |more| ==> reqs[i].at <= more[j].at
  {
    var all := reqs + more;
    forall i, j | 0 <= i < j < |reqs| ensures reqs[i].at <= reqs[j].at { assert all[i] == reqs[i] && all[j] == reqs[j]; }
    forall i, j | 0 <= i < j < |more| ensures more[i].at <= more[j].at {
      assert all[|reqs| + i] == more[i] && all[|reqs| + j] == more[j];
    }
    forall i, j | 0 <= i < |reqs| && 0 <= j < |more| ensures reqs[i].at <= more[j].at {
      assert all[i] == reqs[i] && all[|reqs| + j] == more[j];
    }
  }

  /** Until the retry time no request for the key is accepted, so its log stands still. */
  lemma {:induction false} DeniedMeanwhile(c: Config, reqs: seq<Request>, key: string, now: int, more: seq<Request>)
    requires Sound(c) && InOrder(reqs + more) && forall i :: 0 <= i < |reqs| ==> reqs[i].at <= now
    requires !Decide(c, Past(LogRun(c, reqs), key), now).allowed
    requires forall i :: 0 <= i < |more| ==> now <= more[i].at
    requires forall i :: 0 <= i < |more| && more[i].key == key ==>
               more[i].at < now + Decide(c, Past(LogRun(c, reqs), key), now).retryAfter
    ensures Past(LogRun(c, reqs + more), key) == Past(LogRun(c, reqs), key)
  {
    if more == [] {
      assert reqs + more == reqs;
    } else {
      var n := |more| - 1;
      var all := reqs + more;
      assert all[..|all| - 1] == reqs + more[..n] && all[|all| - 1] == more[n];
      InOrderParts(reqs, more);
      InOrderPrefix(all, |all| - 1);
      DeniedMeanwhile(c, reqs, key, now, more[..n]);
      if more[n].key == key {
        LogIsSpread(c, reqs, key, now);
        StillDenied(c, Past(LogRun(c, reqs), key), now, more[n].at);
      }
    }
  }

  lemma InOrderPrefix(reqs: seq<Request>, n: nat)
    requires InOrder(reqs) && n <= |reqs|
    ensures InOrder(reqs[..n])
  {
  }

  lemma DecideAgain(c: Config, s: seq<int>, now: int, t: int)
    requires Sound(c) && Spread(c, s) && UpTo(s, now) && !Decide(c, s, now).allowed
    requires now <= t <= now + Decide(c, s, now).retryAfter
    ensures Decide(c, s, now).retryAfter > 0
    ensures Decide(c, s, t).allowed <==> t == now + Decide(c, s, now).retryAfter
  {
    FreeAtRetry(c, s, now);
    if t < now + Decide(c, s, now).retryAfter {
      StillDenied(c, s, now, t);
    }
  }

  lemma DecisionOnRun(c: Config, reqs: seq<Request>, key: string, now: int)
    requires Sound(c) && InOrder(reqs) && forall i :: 0 <= i < |reqs| ==> reqs[i].at <= now
    ensures AllowSpec(c, LimiterRun(c, reqs), key, now).1 == Decide(c, Past(LogRun(c, reqs), key), now)
  {
    var asked := reqs + [Request(key, now)];
    assert InOrder(asked);
    SameDecisions(c, reqs, Request(key, now));
  }

  /** After a denial with some retryAfter, and any traffic in between that leaves the key
      alone from the retry time on, a request for the key is allowed exactly from then. */
  lemma RetryExact(c: Config, reqs: seq<Request>, key: string, now: int, retry: int, more: seq<Request>, t: int)
    requires Sound(c) && InOrder(reqs + more)
    requires forall i :: 0 <= i < |reqs| ==> reqs[i].at <= now
    requires AllowSpec(c, LimiterRun(c, reqs), key, now).1 == Verdict(false, retry)
    requires forall i :: 0 <= i < |more| ==> now <= more[i].at <= t
    requires forall i :: 0 <= i < |more| && more[i].key == key ==> more[i].at < now + retry
    requires now <= t <= now + retry
    ensures retry > 0
    ensures AllowSpec(c, LimiterRun(c, reqs + more), key, t).1.allowed <==> t == now + retry
  {
    InOrderParts(reqs, more);
    DecisionOnRun(c, reqs, key, now);
    DecisionOnRun(c, reqs + more, key, t);
    LogIsSpread(c, reqs, key, now);
    DeniedMeanwhile(c, reqs, key, now, more);
    DecideAgain(c, Past(LogRun(c, reqs), key), now, t);
  }

  // ---- The limiter as an object -----------------------------------------------------------------

  /** valid := timestamps[:0] and append: later times move down over earlier ones in
      the same backing array. */
  method CompactInPlace(buf: array<int>, cutoff: int) returns (kept: nat)
    modifies buf
    ensures kept <= buf.Length && buf[..kept] == After(old(buf[..]), cutoff)
  {
    ghost var before := buf[..];
    kept := 0;
    for i := 0 to buf.Length
      invariant kept <= i
      invariant buf[..kept] == After(before[..i], cutoff)
      invariant buf[i..] == before[i..]
    {
      assert buf[i] == buf[i..][0] == before[i];
      assert before[..i + 1] == before[..i] + [before[i]];
      AfterAppend(before[..i], before[i], cutoff);
      assert buf[i + 1..] == before[i + 1..];
      if buf[i] > cutoff {
        buf[kept] := buf[i];
        kept := kept + 1;
      }
    }
    assert before[..buf.Length] == before;
  }

  method Prune(times: seq<int>, cutoff: int) returns (valid: seq<int>)
    ensures valid == After(times, cutoff)
  {
    var buf := new int[|times|](i requires 0 <= i < |times| => times[i]);
    assert buf[..] == times;
    var kept := CompactInPlace(buf, cutoff);
    valid := buf[..kept];
  }

  /** The table when the cleanup has yet to visit todo. */
  function PruneSome(entries: Log, cutoff: int, todo: set<string>): Log {
    map k | k in entries && (k in todo || After(entries[k], cutoff) != []) ::
      if k in todo then entries[k] else After(entries[k], cutoff)
  }

  lemma PruneSomeStep(entries: Log, cutoff: int, todo: set<string>, key: string)
    requires key in todo && key in entries
    ensures var now, next := PruneSome(entries, cutoff, todo), PruneSome(entries, cutoff, todo - {key});
            var valid := After(entries[key], cutoff);
            && key in now && now[key] == entries[key]
            && next == if valid == [] then now - {key} else now[key := valid]
  {
  }

  class RateLimiter {
    const cfg: Config
    var entries: Log
    var lastCleanup: Option<int>

    function View(): Limiter
      reads this
    {
      Limiter(entries, lastCleanup)
    }

    constructor (policy: Policy)
      ensures View() == Limiter(map[], None) && cfg == Normalize(policy)
      ensures policy.window > 0 && policy.maxRequests > 0 ==> cfg == Config(policy.window, policy.maxRequests)
    {
      cfg := Normalize(policy);
      entries, lastCleanup := map[], None;
    }

    /** Ranges over the table, compacting every slice and deleting empty entries. */
    method CleanupExpired(now: int)
      modifies this
      ensures View() == CleanupSpec(cfg, old(View()), now)
    {
      if lastCleanup.Some? && now - lastCleanup.value < CLEANUP_INTERVAL {
        return;
      }
      lastCleanup := Some(now);
      var cutoff := now - cfg.window;
      ghost var before := entries;
      var todo := entries.Keys;
      assert PruneSome(before, cutoff, todo) == before;
      while todo != {}
        invariant todo <= before.Keys && lastCleanup == Some(now)
        invariant entries == PruneSome(before, cutoff, todo)
      {
        var key :| key in todo;
        PruneSomeStep(before, cutoff, todo, key);
        var valid := Prune(entries[key], cutoff);
        if |valid| == 0 {
          entries := entries - {key};
        } else {
          entries := entries[key := valid];
        }
        todo := todo - {key};
      }
      assert PruneSome(before, cutoff, {}) == PruneAll(before, cutoff);
    }

    method Allow(key: string, now: int) returns (v: Verdict)
      requires Sound(cfg)
      modifies this
      ensures (View(), v) == AllowSpec(cfg, old(View()), key, now)
    {
      CleanupExpired(now);
      ghost var cleaned := entries;
      if key !in entries {
        entries := entries[key := []];
      }
      var valid := Prune(entries[key], now - cfg.window);
      entries := entries[key := valid];
      if |entries[key]| >= cfg.max {
        var oldest := entries[key][0];
        var retryAfter := oldest + cfg.window - now;
        if retryAfter < 0 {
          retryAfter := 0;
        }
        return Verdict(false, retryAfter);
      }
      entries := entries[key := entries[key] + [now]];
      assert entries == cleaned[key := valid + [now]];
      return Verdict(true, 0);
    }
  }
}
