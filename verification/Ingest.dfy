/** The ingest handler (ingest.py): rate limit, then per event deduplication, emission
    and, while the fallback is active, a copy in the local log. The handler does not
    suspend, so one request is one step. */
module Ingest {
  import opened GatewayDedupe
  import RateLimit

  /** A validated event: its signature, the clock reading of its duplicate check, and
      what is emitted for it. */
  datatype Incoming = Incoming(sig: Signature, at: real, event: nat)

  function Presentations(es: seq<Incoming>): seq<Presentation>
  {
    if es == [] then [] else [Presentation(es[0].sig, es[0].at)] + Presentations(es[1..])
  }

  /** The events of a batch that pass the code's duplicate check. */
  function Kept(recent: Times, es: seq<Incoming>, lim: Limits): seq<nat>
    decreases es
  {
    if es == [] then []
    else
      (if Duplicate(recent, es[0].sig, es[0].at, lim) then [] else [es[0].event])
      + Kept(After(recent, es[0].sig, es[0].at, lim), es[1..], lim)
  }

  /** The events that an unbounded record of presentations would let through. */
  function IdealKept(ideal: Times, es: seq<Incoming>, lim: Limits): seq<nat>
    decreases es
  {
    if es == [] then []
    else
      (if IdealDuplicate(ideal, es[0].sig, es[0].at, lim) then [] else [es[0].event])
      + IdealKept(ideal[es[0].sig := es[0].at], es[1..], lim)
  }

  lemma {:induction false} SparseTake(ps: seq<Presentation>, n: nat, lim: Limits)
    requires n <= |ps| && Sparse(ps, lim) && Clocked(ps)
    ensures Sparse(ps[..n], lim) && Clocked(ps[..n])
    decreases |ps|
  {
    if n < |ps| {
      var before := ps[..|ps| - 1];
      SparseTake(before, n, lim);
      assert before[..n] == ps[..n];
    } else {
      assert ps[..n] == ps;
    }
  }

  /** After any earlier presentations, a batch is filtered exactly as by an unbounded
      record, as long as no window is denser than the bounded map. */
  lemma {:induction false} BatchFilteredIdeally(ps: seq<Presentation>, es: seq<Incoming>, lim: Limits)
    requires Clocked(ps + Presentations(es)) && Sparse(ps + Presentations(es), lim)
    ensures Kept(Run(ps, lim).recent, es, lim) == IdealKept(Run(ps, lim).ideal, es, lim)
    decreases es
  {
    if es == [] {
    } else {
      var p := Presentation(es[0].sig, es[0].at);
      var all := ps + Presentations(es);
      assert all == (ps + [p]) + Presentations(es[1..]);
      assert all[..|ps| + 1] == ps + [p];
      SparseTake(all, |ps| + 1, lim);
      SparseRunsExact(ps + [p], lim);
      RunStep(ps, p, lim);
      BatchFilteredIdeally(ps + [p], es[1..], lim);
      hide Run, Sparse, Clocked, Duplicate, IdealDuplicate, After;
      var r := Run(ps + [p], lim);
      assert r.answers[|r.answers| - 1] == r.expected[|r.expected| - 1];
    }
  }

  /** The emitted events are those an unbounded record of every presentation of every
      request so far would let through, if no window is denser than the map. */
  predicate FilteredIdeally(before: seq<Presentation>, es: seq<Incoming>, emitted: seq<nat>, lim: Limits)
  {
    var after := before + Presentations(es);
    Clocked(after) && Sparse(after, lim) ==> emitted == IdealKept(Run(before, lim).ideal, es, lim)
  }

  /** One request to `/ingest`. */
  method HandleIngest(limiter: RateLimit.RateLimiter, dedupe: Deduper, ip: RateLimit.Ip, now: real, es: seq<Incoming>,
                      fallbackActive: bool)
    returns (status: int, emitted: seq<nat>, mirrored: seq<nat>)
    requires limiter.Valid() && limiter.clock <= now && dedupe.Valid()
    modifies limiter, dedupe
    ensures limiter.Valid() && limiter.clock == now && dedupe.Valid()
    ensures status == if RateLimit.Limited(old(limiter.history), ip, now, limiter.limit) then 429 else 204
    ensures status == 429 ==>
              && limiter.history == old(limiter.history) && dedupe.history == old(dedupe.history)
              && dedupe.recent == old(dedupe.recent) && emitted == []
    ensures status == 204 ==>
              && limiter.history == old(limiter.history) + [RateLimit.Hit(ip, now)]
              && dedupe.history == old(dedupe.history) + Presentations(es)
    ensures status == 204 ==> emitted == Kept(old(dedupe.recent), es, dedupe.lim)
    ensures status == 204 ==> FilteredIdeally(old(dedupe.history), es, emitted, dedupe.lim)
    ensures mirrored == if fallbackActive then emitted else []
  {
    emitted, mirrored := [], [];
    var limited := limiter.RateLimited(ip, now);
    if limited {
      status := 429;
      return;
    }
    status := 204;
    emitted, mirrored := EmitAll(dedupe, es, fallbackActive);
    if Clocked(dedupe.history) && Sparse(dedupe.history, dedupe.lim) {
      BatchFilteredIdeally(old(dedupe.history), es, dedupe.lim);
    }
  }

  /** The event loop of the handler. */
  method EmitAll(dedupe: Deduper, es: seq<Incoming>, fallbackActive: bool)
    returns (emitted: seq<nat>, mirrored: seq<nat>)
    requires dedupe.Valid()
    modifies dedupe
    ensures dedupe.Valid() && dedupe.history == old(dedupe.history) + Presentations(es)
    ensures emitted == Kept(old(dedupe.recent), es, dedupe.lim)
    ensures mirrored == if fallbackActive then emitted else []
  {
    hide Duplicate, After, Run, Clocked;
    emitted, mirrored := [], [];
    assert es[0..] == es;
    for i := 0 to |es|
      invariant dedupe.Valid()
      invariant dedupe.history + Presentations(es[i..]) == old(dedupe.history) + Presentations(es)
      invariant emitted + Kept(dedupe.recent, es[i..], dedupe.lim) == Kept(old(dedupe.recent), es, dedupe.lim)
      invariant mirrored == if fallbackActive then emitted else []
    {
      ghost var before := dedupe.recent;
      ghost var p := Presentation(es[i].sig, es[i].at);
      assert es[i..][1..] == es[i + 1..];
      assert dedupe.history + ([p] + Presentations(es[i + 1..])) == (dedupe.history + [p]) + Presentations(es[i + 1..]);
      ghost var rest := Kept(After(before, es[i].sig, es[i].at, dedupe.lim), es[i + 1..], dedupe.lim);
      var duplicate := dedupe.IsDuplicate(es[i].sig, es[i].at);
      if duplicate {
        assert [] + rest == rest;
        continue;
      }
      assert emitted + ([es[i].event] + rest) == (emitted + [es[i].event]) + rest;
      emitted := emitted + [es[i].event];
      if fallbackActive { mirrored := mirrored + [es[i].event]; }
    }
  }
}
