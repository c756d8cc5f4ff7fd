/** The gateway's per-client rate limit (ingest.py): a sliding window over the full
    history of accepted requests, kept as one pruned deque per client ip. Times are
    reals read from a clock that does not run backwards. */
module RateLimit {

  type Ip = string

  /** One accepted request. */
  datatype Hit = Hit(ip: Ip, at: real)

  const RATE_WINDOW_SECONDS := 60.0
  const MAX_TRACKED_KEYS := 4096

  // ---- the specification: the whole history ------------------------------------

  /** Accepted requests of `ip` at most one window before `now`. */
  function InWindow(history: seq<Hit>, ip: Ip, now: real): nat
  {
    if history == [] then 0
    else
      var last := history[|history| - 1];
      InWindow(history[..|history| - 1], ip, now)
      + if last.ip == ip && now - last.at <= RATE_WINDOW_SECONDS then 1 else 0
  }

  predicate Limited(history: seq<Hit>, ip: Ip, now: real, limit: int) { InWindow(history, ip, now) >= limit }

  /** The accepted requests of `ip` at most 60 seconds before `now`, by their places. */
  function Recent(history: seq<Hit>, ip: Ip, now: real): set<int>
  {
    set i | 0 <= i < |history| && history[i].ip == ip && now - history[i].at <= 60.0
  }

  /** A client is limited exactly when `limit` or more of its accepted requests lie at
      most 60 seconds back. */
  lemma {:induction false} LimitedExactly(history: seq<Hit>, ip: Ip, now: real, limit: int)
    ensures InWindow(history, ip, now) == |Recent(history, ip, now)|
    ensures Limited(history, ip, now, limit) <==> |Recent(history, ip, now)| >= limit
    decreases |history|
  {
    if history == [] {
      assert Recent(history, ip, now) == {};
    } else {
      var n := |history| - 1;
      LimitedExactly(history[..n], ip, now, limit);
      RecentStep(history, ip, now);
      hide Recent;
    }
  }

  lemma RecentStep(history: seq<Hit>, ip: Ip, now: real)
    requires history != []
    ensures var n := |history| - 1;
            |Recent(history, ip, now)| == |Recent(history[..n], ip, now)|
                                          + if history[n].ip == ip && now - history[n].at <= 60.0 then 1 else 0
  {
    var n := |history| - 1;
    var before := Recent(history[..n], ip, now);
    assert n !in before;
    assert Recent(history, ip, now) ==
           if history[n].ip == ip && now - history[n].at <= 60.0 then before + {n} else before;
  }

  /** The accepted ones among a sequence of requests. */
  function Accepted(requests: seq<Hit>, limit: int): seq<Hit>
  {
    if requests == [] then []
    else
      var last := requests[|requests| - 1];
      var before := Accepted(requests[..|requests| - 1], limit);
      if Limited(before, last.ip, last.at, limit) then before else before + [last]
  }

  /** Accepted requests of `ip` between `from` and `to`, both included. */
  function Between(history: seq<Hit>, ip: Ip, from: real, to: real): nat
  {
    if history == [] then 0
    else
      var last := history[|history| - 1];
      Between(history[..|history| - 1], ip, from, to) + if last.ip == ip && from <= last.at <= to then 1 else 0
  }

  predicate Ascending(history: seq<Hit>) { forall i, j :: 0 <= i < j < |history| ==> history[i].at <= history[j].at }

  lemma {:induction false} BetweenWindow(history: seq<Hit>, ip: Ip, from: real, now: real)
    requires now <= from + RATE_WINDOW_SECONDS
    ensures Between(history, ip, from, from + RATE_WINDOW_SECONDS) <= InWindow(history, ip, now)
  {
    if history == [] {
    } else {
      BetweenWindow(history[..|history| - 1], ip, from, now);
    }
  }

  /** No closed window of 60 seconds, wherever it starts, holds more than `limit`
      accepted requests of one client. */
  lemma {:induction false} AnyWindowBounded(requests: seq<Hit>, limit: int, ip: Ip, from: real)
    requires Ascending(requests)
    ensures Between(Accepted(requests, limit), ip, from, from + RATE_WINDOW_SECONDS) <= if limit > 0 then limit else 0
    decreases |requests|
  {
    if requests == [] {
    } else {
      var last := requests[|requests| - 1];
      var before := Accepted(requests[..|requests| - 1], limit);
      AnyWindowBounded(requests[..|requests| - 1], limit, ip, from);
      if !Limited(before, last.ip, last.at, limit) {
        assert (before + [last])[..|before|] == before;
        if last.ip == ip && from <= last.at <= from + RATE_WINDOW_SECONDS {
          BetweenWindow(before, ip, from, last.at);
        }
      }
    }
  }

  // ---- one client's times ------------------------------------------------------

  function TimesOf(history: seq<Hit>, ip: Ip): seq<real>
  {
    if history == [] then []
    else
      var last := history[|history| - 1];
      TimesOf(history[..|history| - 1], ip) + if last.ip == ip then [last.at] else []
  }

  predicate Sorted(ts: seq<real>) { forall i, j :: 0 <= i < j < |ts| ==> ts[i] <= ts[j] }

  predicate Stale(t: real, now: real) { now - t > RATE_WINDOW_SECONDS }

  /** The window count is what is left after dropping a stale prefix. */
  lemma {:induction false} CountFresh(history: seq<Hit>, ip: Ip, now: real, k: nat)
    requires k <= |TimesOf(history, ip)|
    requires forall i :: 0 <= i < k ==> Stale(TimesOf(history, ip)[i], now)
    requires forall i :: k <= i < |TimesOf(history, ip)| ==> !Stale(TimesOf(history, ip)[i], now)
    ensures InWindow(history, ip, now) == |TimesOf(history, ip)| - k
    decreases |history|
  {
    if history == [] {
    } else {
      var h := history[..|history| - 1];
      var last := history[|history| - 1];
      var ts := TimesOf(h, ip);
      if last.ip == ip {
        assert TimesOf(history, ip) == ts + [last.at];
        assert TimesOf(history, ip)[|ts|] == last.at;
        assert forall i :: 0 <= i < |ts| ==> TimesOf(history, ip)[i] == ts[i];
        CountFresh(h, ip, now, if k > |ts| then |ts| else k);
      } else {
        assert TimesOf(history, ip) == ts;
        CountFresh(h, ip, now, k);
      }
    }
  }

  lemma {:induction false} TimesSorted(history: seq<Hit>, ip: Ip)
    requires Ascending(history)
    ensures Sorted(TimesOf(history, ip))
    ensures forall i :: 0 <= i < |TimesOf(history, ip)| ==>
              history != [] && TimesOf(history, ip)[i] <= history[|history| - 1].at
    decreases |history|
  {
    if history == [] {
    } else {
      TimesSorted(history[..|history| - 1], ip);
    }
  }

  lemma TimesAppend(history: seq<Hit>, hit: Hit, ip: Ip)
    ensures TimesOf(history + [hit], ip) == TimesOf(history, ip) + if hit.ip == ip then [hit.at] else []
  {
    assert (history + [hit])[..|history|] == history;
  }

  // ---- the implementation ------------------------------------------------------

  /** A deque that is a suffix of the client's times, missing only stale ones. */
  predicate Covers(window: seq<real>, times: seq<real>, clock: real)
  {
    && |window| <= |times| && times[|times| - |window|..] == window
    && forall i :: 0 <= i < |times| - |window| ==> Stale(times[i], clock)
  }

  function WindowIn(hits: map<Ip, seq<real>>, ip: Ip): seq<real>
  {
    if ip in hits then hits[ip] else []
  }

  /** The deques stand for the history. */
  ghost predicate Represents(hits: map<Ip, seq<real>>, history: seq<Hit>, clock: real)
  {
    && Ascending(history) && (history != [] ==> history[|history| - 1].at <= clock)
    && forall ip :: Covers(WindowIn(hits, ip), TimesOf(history, ip), clock)
  }

  predicate Expired(window: seq<real>, now: real) { window == [] || Stale(window[|window| - 1], now) }

  lemma Later(hits: map<Ip, seq<real>>, history: seq<Hit>, clock: real, now: real)
    requires Represents(hits, history, clock) && clock <= now
    ensures Represents(hits, history, now)
  {
    forall ip ensures Covers(WindowIn(hits, ip), TimesOf(history, ip), now) {
      assert Covers(WindowIn(hits, ip), TimesOf(history, ip), clock);
    }
  }

  /** Replacing one client's deque by another that covers its times. */
  lemma Replace(hits: map<Ip, seq<real>>, hits': map<Ip, seq<real>>, history: seq<Hit>, ip: Ip, now: real)
    requires Represents(hits, history, now)
    requires forall other :: other != ip ==> WindowIn(hits', other) == WindowIn(hits, other)
    requires Covers(WindowIn(hits', ip), TimesOf(history, ip), now)
    ensures Represents(hits', history, now)
  {
    hide Covers;
    forall other ensures Covers(WindowIn(hits', other), TimesOf(history, other), now) {
      if other != ip { assert Covers(WindowIn(hits, other), TimesOf(history, other), now); }
    }
  }

  lemma ForgetExpired(hits: map<Ip, seq<real>>, history: seq<Hit>, gone: Ip, now: real)
    requires Represents(hits, history, now) && gone in hits && Expired(hits[gone], now)
    ensures Represents(hits - {gone}, history, now)
  {
    TimesSorted(history, gone);
    var ts := TimesOf(history, gone);
    assert Covers(hits[gone], ts, now) by { assert WindowIn(hits, gone) == hits[gone]; }
    assert forall i :: 0 <= i < |ts| ==> Stale(ts[i], now);
    Replace(hits, hits - {gone}, history, gone, now);
  }

  lemma CoversAppend(window: seq<real>, times: seq<real>, t: real, now: real)
    requires Covers(window, times, now)
    ensures Covers(window + [t], times + [t], now)
  {
    var k := |times| - |window|;
    assert (times + [t])[k..] == times[k..] + [t];
  }

  lemma CoversPop(window: seq<real>, times: seq<real>, now: real)
    requires Covers(window, times, now) && window != [] && Stale(window[0], now)
    ensures Covers(window[1..], times, now)
  {
    var k := |times| - |window|;
    assert times[k..][0] == times[k];
    assert times[k + 1..] == times[k..][1..];
  }

  /** A deque without stale front entries has as many entries as the window. */
  lemma CoversCount(window: seq<real>, history: seq<Hit>, ip: Ip, now: real)
    requires Ascending(history) && Covers(window, TimesOf(history, ip), now)
    requires window == [] || !Stale(window[0], now)
    ensures |window| == InWindow(history, ip, now)
  {
    TimesSorted(history, ip);
    var ts := TimesOf(history, ip);
    var k := |ts| - |window|;
    hide TimesOf, InWindow;
    if window != [] { assert ts[k..][0] == ts[k]; }
    CountFresh(history, ip, now, k);
  }

  lemma Append(hits: map<Ip, seq<real>>, history: seq<Hit>, ip: Ip, now: real)
    requires Represents(hits, history, now)
    ensures Represents(hits[ip := WindowIn(hits, ip) + [now]], history + [Hit(ip, now)], now)
  {
    hide TimesOf, Covers;
    var hits' := hits[ip := WindowIn(hits, ip) + [now]];
    assert Ascending(history + [Hit(ip, now)]);
    forall other ensures Covers(WindowIn(hits', other), TimesOf(history + [Hit(ip, now)], other), now) {
      TimesAppend(history, Hit(ip, now), other);
      assert Covers(WindowIn(hits, other), TimesOf(history, other), now);
      if other == ip {
        CoversAppend(WindowIn(hits, ip), TimesOf(history, ip), now, now);
      } else {
        assert TimesOf(history + [Hit(ip, now)], other) == TimesOf(history, other);
      }
    }
  }

  class RateLimiter {
    const limit: int
    var hits: map<Ip, seq<real>>
    ghost var history: seq<Hit>
    ghost var clock: real

    ghost predicate Valid()
      reads this
    {
      Represents(hits, history, clock)
    }

    constructor (limit: int, now: real)
      ensures Valid() && history == [] && this.limit == limit && clock == now
    {
      this.limit, hits, history, clock := limit, map[], [], now;
    }

    /** Drop the clients whose last request is out of the window. */
    method PruneClients(now: real)
      requires Represents(hits, history, now)
      modifies this`hits
      ensures Represents(hits, history, now)
      ensures forall ip :: ip in hits <==> ip in old(hits) && !Expired(old(hits)[ip], now)
    {
      var stale := set ip | ip in hits && (hits[ip] == [] || now - hits[ip][|hits[ip]| - 1] > RATE_WINDOW_SECONDS);
      ghost var all := stale;
      while stale != {}
        invariant Represents(hits, history, now)
        invariant stale <= all <= old(hits).Keys && hits == old(hits) - (all - stale)
        invariant forall ip :: ip in all ==> Expired(old(hits)[ip], now)
        decreases stale
      {
        var gone :| gone in stale;
        ForgetExpired(hits, history, gone, now);
        hits := hits - {gone};
        stale := stale - {gone};
      }
    }

    /** `_rate_limited`: exactly the answer of the unpruned history, which other
        clients and pruning therefore never change. */
    method RateLimited(ip: Ip, now: real) returns (limited: bool)
      requires Valid() && clock <= now
      modifies this
      ensures Valid() && clock == now
      ensures limited == Limited(old(history), ip, now, limit)
      ensures limited <==> |Recent(old(history), ip, now)| >= limit
      ensures history == if limited then old(history) else old(history) + [Hit(ip, now)]
    {
      LimitedExactly(history, ip, now, limit);
      hide Recent;
      Later(hits, history, clock, now);
      if |hits| > MAX_TRACKED_KEYS { PruneClients(now); }
      clock := now;
      var window := Fresh(ip, now);
      ghost var before := hits;
      hits := hits[ip := window];
      Replace(before, hits, history, ip, now);
      if |window| >= limit { return true; }
      Append(hits, history, ip, now);
      hits := hits[ip := window + [now]];
      history := history + [Hit(ip, now)];
      return false;
    }

    /** The client's deque after dropping what is out of the window. */
    method Fresh(ip: Ip, now: real) returns (window: seq<real>)
      requires Represents(hits, history, now)
      ensures Covers(window, TimesOf(history, ip), now) && |window| == InWindow(history, ip, now)
    {
      hide TimesOf, Covers;
      window := if ip in hits then hits[ip] else [];
      ghost var ts := TimesOf(history, ip);
      assert window == WindowIn(hits, ip);
      while window != [] && now - window[0] > RATE_WINDOW_SECONDS
        invariant Covers(window, ts, now)
      {
        CoversPop(window, ts, now);
        window := window[1..];
      }
      CoversCount(window, history, ip, now);
    }
  }
}
