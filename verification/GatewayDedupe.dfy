/** The gateway's short-window deduplication (ingest.py): a bounded map from event
    signatures to the time of their last presentation, against the unbounded map. */
module GatewayDedupe {
  import RateLimit

  /** A SHA-256 digest, as a number. */
  type Signature = nat

  type Times = map<Signature, real>

  datatype Limits = Limits(window: real, maxKeys: nat)

  // ---- specification: nothing is ever forgotten --------------------------------

  predicate IdealDuplicate(ideal: Times, s: Signature, now: real, lim: Limits)
  {
    s in ideal && now - ideal[s] < lim.window
  }

  // ---- what the code does ------------------------------------------------------

  /** Entries not yet older than the window. */
  function Live(recent: Times, now: real, lim: Limits): (r: Times)
    ensures forall s :: s in r <==> s in recent && recent[s] >= now - lim.window
    ensures forall s :: s in r ==> r[s] == recent[s]
  {
    map s | s in recent && recent[s] >= now - lim.window :: recent[s]
  }

  /** The map is full of live entries, so the code forgets everything. */
  predicate Overflows(recent: Times, now: real, lim: Limits)
  {
    |recent| > lim.maxKeys && |Live(recent, now, lim)| > lim.maxKeys
  }

  function Pruned(recent: Times, now: real, lim: Limits): Times
  {
    if |recent| <= lim.maxKeys then recent
    else if Overflows(recent, now, lim) then map[]
    else Live(recent, now, lim)
  }

  predicate Duplicate(recent: Times, s: Signature, now: real, lim: Limits)
  {
    IdealDuplicate(Pruned(recent, now, lim), s, now, lim)
  }

  function After(recent: Times, s: Signature, now: real, lim: Limits): Times
  {
    Pruned(recent, now, lim)[s := now]
  }

  // ---- one call ----------------------------------------------------------------

  /** The bounded map never holds anything the unbounded one does not. */
  predicate Within(recent: Times, ideal: Times)
  {
    forall s :: s in recent ==> s in ideal && ideal[s] == recent[s]
  }

  lemma CallWithin(recent: Times, ideal: Times, s: Signature, now: real, lim: Limits)
    requires Within(recent, ideal)
    ensures Within(After(recent, s, now, lim), ideal[s := now])
    ensures Duplicate(recent, s, now, lim) ==> IdealDuplicate(ideal, s, now, lim)
  {
  }

  /** The size bound: one more than the limit. */
  lemma CallBounded(recent: Times, s: Signature, now: real, lim: Limits)
    ensures |After(recent, s, now, lim)| <= lim.maxKeys + 1
  {
    var p := Pruned(recent, now, lim);
    assert p[s := now].Keys == p.Keys + {s};
    assert |p.Keys + {s}| <= |p.Keys| + 1;
  }

  // ---- runs --------------------------------------------------------------------

  datatype Presentation = Presentation(sig: Signature, at: real)

  datatype State = State(recent: Times, ideal: Times, answers: seq<bool>, expected: seq<bool>)

  function Run(ps: seq<Presentation>, lim: Limits): State
  {
    if ps == [] then State(map[], map[], [], [])
    else
      var b := Run(ps[..|ps| - 1], lim);
      var p := ps[|ps| - 1];
      State(After(b.recent, p.sig, p.at, lim), b.ideal[p.sig := p.at],
            b.answers + [Duplicate(b.recent, p.sig, p.at, lim)],
            b.expected + [IdealDuplicate(b.ideal, p.sig, p.at, lim)])
  }

  predicate Clocked(ps: seq<Presentation>) { forall i, j :: 0 <= i < j < |ps| ==> ps[i].at <= ps[j].at }

  /** Distinct signatures presented at `from` or later. */
  function Recently(ps: seq<Presentation>, from: real): set<Signature>
  {
    set p | p in ps && p.at >= from :: p.sig
  }

  /** No closed window that ends at a presentation holds more than `maxKeys`
      distinct signatures before it. */
  predicate Sparse(ps: seq<Presentation>, lim: Limits)
  {
    ps == [] ||
    (Sparse(ps[..|ps| - 1], lim) && |Recently(ps[..|ps| - 1], ps[|ps| - 1].at - lim.window)| <= lim.maxKeys)
  }

  lemma RunStep(ps: seq<Presentation>, p: Presentation, lim: Limits)
    ensures var b := Run(ps, lim);
            var r := Run(ps + [p], lim);
            && r.recent == After(b.recent, p.sig, p.at, lim) && r.ideal == b.ideal[p.sig := p.at]
            && r.answers == b.answers + [Duplicate(b.recent, p.sig, p.at, lim)]
            && r.expected == b.expected + [IdealDuplicate(b.ideal, p.sig, p.at, lim)]
  {
    assert (ps + [p])[..|ps + [p]| - 1] == ps;
  }

  /** In every run the bounded map is part of the ideal one and within its size
      bound, and no answer is a false positive. */
  lemma {:induction false} RunWithin(ps: seq<Presentation>, lim: Limits)
    ensures var r := Run(ps, lim);
            && Within(r.recent, r.ideal) && |r.recent| <= lim.maxKeys + 1
            && |r.answers| == |ps| && |r.expected| == |ps|
            && forall i :: 0 <= i < |ps| && r.answers[i] ==> r.expected[i]
  {
    if ps == [] {
    } else {
      hide Within, Duplicate, After, IdealDuplicate, Run;
      var before := ps[..|ps| - 1];
      var b := Run(before, lim);
      var p := ps[|ps| - 1];
      RunWithin(before, lim);
      assert ps == before + [p];
      RunStep(before, p, lim);
      CallWithin(b.recent, b.ideal, p.sig, p.at, lim);
      CallBounded(b.recent, p.sig, p.at, lim);
      StillImplied(b.answers, b.expected,
                   Duplicate(b.recent, p.sig, p.at, lim), IdealDuplicate(b.ideal, p.sig, p.at, lim));
    }
  }

  lemma StillImplied(a: seq<bool>, b: seq<bool>, x: bool, y: bool)
    requires |a| == |b| && (x ==> y) && forall i :: 0 <= i < |a| && a[i] ==> b[i]
    ensures forall i :: 0 <= i < |a| + 1 && (a + [x])[i] ==> (b + [y])[i]
  {
  }

  /** The ideal map holds true presentation times. */
  lemma {:induction false} RunTimes(ps: seq<Presentation>, lim: Limits)
    ensures forall s :: s in Run(ps, lim).ideal ==> Presentation(s, Run(ps, lim).ideal[s]) in ps
  {
    if ps == [] {
    } else {
      var before := ps[..|ps| - 1];
      RunTimes(before, lim);
      assert ps == before + [ps[|ps| - 1]];
      RunStep(before, ps[|ps| - 1], lim);
      hide Run;
    }
  }

  /** An overflow needs more than `maxKeys` distinct signatures in the window. */
  lemma OverflowIsDense(ps: seq<Presentation>, now: real, lim: Limits)
    ensures Overflows(Run(ps, lim).recent, now, lim) ==> |Recently(ps, now - lim.window)| > lim.maxKeys
  {
    RunWithin(ps, lim);
    RunTimes(ps, lim);
    var r := Run(ps, lim);
    var live := Live(r.recent, now, lim);
    forall s | s in live ensures s in Recently(ps, now - lim.window) {
      assert Presentation(s, r.ideal[s]) in ps;
    }
    assert live.Keys <= Recently(ps, now - lim.window);
    SubsetSize(live.Keys, Recently(ps, now - lim.window));
  }

  lemma {:induction false} SubsetSize(a: set<Signature>, b: set<Signature>)
    requires a <= b
    ensures |a| <= |b|
    decreases a
  {
    if a != {} {
      var x :| x in a;
      SubsetSize(a - {x}, b - {x});
    }
  }

  // ---- exactly when a duplicate slips through ------------------------------------

  /** The map overflows at call `j` of the run. */
  predicate OverflowAt(ps: seq<Presentation>, j: nat, lim: Limits)
    requires j < |ps|
  {
    Overflows(Run(ps[..j], lim).recent, ps[j].at, lim)
  }

  /** `s` is not presented from call `j` up to, but not at, call `i`. */
  predicate Unseen(ps: seq<Presentation>, s: Signature, j: nat, i: nat)
    requires i <= |ps|
  {
    forall k :: j <= k < i ==> ps[k].sig != s
  }

  /** The map overflowed at call `i` or before, since the last earlier presentation of
      the signature that call `i` presents. */
  predicate ForgottenAt(ps: seq<Presentation>, i: nat, lim: Limits)
    requires i < |ps|
  {
    exists j :: 0 <= j <= i && OverflowAt(ps, j, lim) && Unseen(ps, ps[i].sig, j, i)
  }

  /** The same, before any further call, going back from the end of the run. */
  predicate Forgotten(ps: seq<Presentation>, s: Signature, lim: Limits)
  {
    && ps != []
    && ps[|ps| - 1].sig != s
    && (OverflowAt(ps, |ps| - 1, lim) || Forgotten(ps[..|ps| - 1], s, lim))
  }

  lemma OverflowEarlier(ps: seq<Presentation>, n: nat, j: nat, lim: Limits)
    requires j < n <= |ps|
    ensures OverflowAt(ps[..n], j, lim) == OverflowAt(ps, j, lim)
  {
    assert ps[..n][..j] == ps[..j];
  }

  /** The map overflowed at call `j`, and `s` was not presented from then up to call `i`. */
  predicate LostAt(ps: seq<Presentation>, s: Signature, j: nat, i: nat, lim: Limits)
    requires i <= |ps|
  {
    j < |ps| && OverflowAt(ps, j, lim) && Unseen(ps, s, j, i)
  }

  lemma ForgottenStep(ps: seq<Presentation>, s: Signature, n: nat, lim: Limits)
    requires n < |ps|
    ensures Forgotten(ps[..n + 1], s, lim) <==>
              ps[n].sig != s && (OverflowAt(ps, n, lim) || Forgotten(ps[..n], s, lim))
  {
    assert ps[..n + 1][..n] == ps[..n];
    OverflowEarlier(ps, n + 1, n, lim);
    hide OverflowAt;
  }

  lemma LostStep(ps: seq<Presentation>, s: Signature, j: nat, n: nat, lim: Limits)
    requires j <= n < |ps|
    ensures LostAt(ps, s, j, n + 1, lim) <==> ps[n].sig != s && LostAt(ps, s, j, n, lim)
    ensures LostAt(ps, s, n, n, lim) <==> OverflowAt(ps, n, lim)
  {
    hide OverflowAt;
  }

  /** The recursive form says that there is such a call. */
  lemma {:induction false} ForgottenSince(ps: seq<Presentation>, s: Signature, i: nat, lim: Limits)
    requires i <= |ps|
    ensures Forgotten(ps[..i], s, lim) <==> exists j :: 0 <= j < i && LostAt(ps, s, j, i, lim)
    decreases i
  {
    hide LostAt, OverflowAt;
    if i == 0 {
    } else {
      var n := i - 1;
      ForgottenSince(ps, s, n, lim);
      ForgottenStep(ps, s, n, lim);
      hide Forgotten;
      forall j | 0 <= j <= n
        ensures LostAt(ps, s, j, i, lim) <==> ps[n].sig != s && LostAt(ps, s, j, n, lim)
        ensures LostAt(ps, s, n, n, lim) <==> OverflowAt(ps, n, lim)
      {
        LostStep(ps, s, j, n, lim);
      }
      assert LostAt(ps, s, n, i, lim) <==> ps[n].sig != s && OverflowAt(ps, n, lim);
      if j :| 0 <= j < n && LostAt(ps, s, j, n, lim) {
        assert LostAt(ps, s, j, i, lim) <==> ps[n].sig != s;
      }
    }
  }

  /** Of the signatures that are still in their window, the map lacks exactly those
      forgotten in an overflow. */
  lemma {:induction false} HoldsUnlessForgotten(ps: seq<Presentation>, s: Signature, now: real, lim: Limits)
    requires Clocked(ps) && (ps != [] ==> ps[|ps| - 1].at <= now)
    ensures var r := Run(ps, lim);
            s in r.ideal && now - r.ideal[s] <= lim.window ==> (s in r.recent <==> !Forgotten(ps, s, lim))
    decreases |ps|
  {
    if ps == [] {
    } else {
      var n := |ps| - 1;
      var before := ps[..n];
      assert Clocked(before) && (n > 0 ==> before[n - 1].at <= ps[n].at);
      HoldsUnlessForgotten(before, s, now, lim);
      assert ps == before + [ps[n]];
      RunStep(before, ps[n], lim);
      RunWithin(before, lim);
      var b := Run(before, lim);
      hide Run, Clocked, Overflows;
      if s != ps[n].sig {
        assert OverflowAt(ps, n, lim) == Overflows(b.recent, ps[n].at, lim);
      }
    }
  }

  /** The answers at call `i` are those of the state before it. */
  lemma {:induction false} AnswerAt(ps: seq<Presentation>, i: nat, lim: Limits)
    requires i < |ps|
    ensures var b := Run(ps[..i], lim);
            var r := Run(ps, lim);
            && |r.answers| == |r.expected| == |ps|
            && r.answers[i] == Duplicate(b.recent, ps[i].sig, ps[i].at, lim)
            && r.expected[i] == IdealDuplicate(b.ideal, ps[i].sig, ps[i].at, lim)
    decreases |ps|
  {
    hide Run, Duplicate, IdealDuplicate, After, Within;
    var n := |ps| - 1;
    var before := ps[..n];
    RunWithin(before, lim);
    assert ps == before + [ps[n]];
    RunStep(before, ps[n], lim);
    if i < n {
      AnswerAt(before, i, lim);
      assert before[..i] == ps[..i];
    }
  }

  /** The unbounded record calls a presentation a duplicate exactly when the same
      signature was presented less than one window earlier. */
  lemma ExpectedExactly(ps: seq<Presentation>, i: nat, lim: Limits)
    requires Clocked(ps) && i < |ps|
    ensures |Run(ps, lim).expected| == |ps|
    ensures Run(ps, lim).expected[i] <==>
              exists l :: 0 <= l < i && ps[l].sig == ps[i].sig && ps[i].at - ps[l].at < lim.window
  {
    AnswerAt(ps, i, lim);
    RunTimes(ps[..i], lim);
    var ideal := Run(ps[..i], lim).ideal;
    forall l | 0 <= l < i ensures ps[l].sig in ideal && ps[l].at <= ideal[ps[l].sig] {
      assert ps[..i][l] == ps[l];
      LatestTime(ps[..i], l, lim);
    }
    hide Run, Duplicate;
    if ps[i].sig in ideal {
      assert Presentation(ps[i].sig, ideal[ps[i].sig]) in ps[..i];
      var l :| 0 <= l < i && ps[..i][l] == Presentation(ps[i].sig, ideal[ps[i].sig]);
      assert ps[l].sig == ps[i].sig;
    }
  }

  lemma {:induction false} LatestTime(ps: seq<Presentation>, l: nat, lim: Limits)
    requires Clocked(ps) && l < |ps|
    ensures var ideal := Run(ps, lim).ideal; ps[l].sig in ideal && ps[l].at <= ideal[ps[l].sig]
    decreases |ps|
  {
    var n := |ps| - 1;
    assert ps == ps[..n] + [ps[n]];
    RunStep(ps[..n], ps[n], lim);
    if l < n { LatestTime(ps[..n], l, lim); }
    hide Run;
  }

  /** Over every run: an answer differs from that of the unbounded record exactly when
      it should have been "duplicate" and the map overflowed at some call since the
      last presentation of this signature, this call included. */
  lemma SlipsExactly(ps: seq<Presentation>, i: nat, lim: Limits)
    requires Clocked(ps) && i < |ps|
    ensures var r := Run(ps, lim);
            && |r.answers| == |r.expected| == |ps|
            && (r.answers[i] != r.expected[i] <==> r.expected[i] && ForgottenAt(ps, i, lim))
  {
    var s, now := ps[i].sig, ps[i].at;
    var before := ps[..i];
    AnswerAt(ps, i, lim);
    HoldsUnlessForgotten(before, s, now, lim);
    RunWithin(before, lim);
    ForgottenUpTo(ps, i, lim);
    var b := Run(before, lim);
    assert OverflowAt(ps, i, lim) == Overflows(b.recent, now, lim);
    hide Run, OverflowAt, Overflows, ForgottenAt, Forgotten;
  }

  /** The last signature was presented before, less than one window earlier. */
  predicate PresentedWithin(ps: seq<Presentation>, lim: Limits)
    requires ps != []
  {
    var p := ps[|ps| - 1];
    exists l :: 0 <= l < |ps| - 1 && ps[l].sig == p.sig && p.at - ps[l].at < lim.window
  }

  lemma LastAnswer(ps: seq<Presentation>, lim: Limits)
    requires Clocked(ps) && ps != []
    ensures var n := |ps| - 1;
            Duplicate(Run(ps[..n], lim).recent, ps[n].sig, ps[n].at, lim) <==>
              PresentedWithin(ps, lim) && !ForgottenAt(ps, n, lim)
  {
    AnswerAt(ps, |ps| - 1, lim);
    RunWithin(ps, lim);
    ExpectedExactly(ps, |ps| - 1, lim);
    SlipsExactly(ps, |ps| - 1, lim);
  }

  /** What one more presentation changes and answers. */
  lemma Presented(ps: seq<Presentation>, s: Signature, now: real, lim: Limits)
    ensures var b := Run(ps, lim).recent;
            var all := ps + [Presentation(s, now)];
            && Run(all, lim).recent == After(b, s, now, lim)
            && (Clocked(all) ==>
                  (Duplicate(b, s, now, lim) <==> PresentedWithin(all, lim) && !ForgottenAt(all, |ps|, lim)))
  {
    var all := ps + [Presentation(s, now)];
    RunStep(ps, Presentation(s, now), lim);
    assert all[..|ps|] == ps;
    if Clocked(all) { LastAnswer(all, lim); }
    hide Run, Clocked, PresentedWithin, ForgottenAt, Duplicate, After;
  }

  lemma ForgottenUpTo(ps: seq<Presentation>, i: nat, lim: Limits)
    requires i < |ps|
    ensures ForgottenAt(ps, i, lim) <==> OverflowAt(ps, i, lim) || Forgotten(ps[..i], ps[i].sig, lim)
  {
    var s := ps[i].sig;
    ForgottenSince(ps, s, i, lim);
    hide OverflowAt, Forgotten;
    assert Unseen(ps, s, i, i);
    if Forgotten(ps[..i], s, lim) {
      var j :| 0 <= j < i && LostAt(ps, s, j, i, lim);
      assert OverflowAt(ps, j, lim) && Unseen(ps, s, j, i);
    }
    if ForgottenAt(ps, i, lim) && !OverflowAt(ps, i, lim) {
      var j :| 0 <= j <= i && OverflowAt(ps, j, lim) && Unseen(ps, s, j, i);
      assert LostAt(ps, s, j, i, lim);
    }
  }

  /** The signatures last presented at most one window before call `i` and not forgotten
      since. */
  function Held(ps: seq<Presentation>, i: nat, lim: Limits): set<Signature>
    requires i < |ps|
  {
    var ideal := Run(ps[..i], lim).ideal;
    set s | s in ideal && ps[i].at - ideal[s] <= lim.window && !Forgotten(ps[..i], s, lim)
  }

  /** The map overflows at call `i` exactly when there are more of these than it may hold. */
  lemma OverflowExactly(ps: seq<Presentation>, i: nat, lim: Limits)
    requires Clocked(ps) && i < |ps|
    ensures OverflowAt(ps, i, lim) <==> |Held(ps, i, lim)| > lim.maxKeys
  {
    var r := Run(ps[..i], lim);
    var now := ps[i].at;
    RunWithin(ps[..i], lim);
    LiveEnough(r.recent, now, lim);
    assert OverflowAt(ps, i, lim) == Overflows(r.recent, now, lim);
    var live := Live(r.recent, now, lim);
    var held := Held(ps, i, lim);
    hide Run, Forgotten, Overflows, Clocked;
    forall s ensures s in live.Keys <==> s in held {
      HoldsUnlessForgotten(ps[..i], s, now, lim);
    }
    assert live.Keys == held;
  }

  /** More live entries than fit are also more entries than fit. */
  lemma LiveEnough(recent: Times, now: real, lim: Limits)
    ensures Overflows(recent, now, lim) <==> |Live(recent, now, lim).Keys| > lim.maxKeys
  {
    var live := Live(recent, now, lim);
    hide Live;
    SubsetSize(live.Keys, recent.Keys);
    assert |live| == |live.Keys| && |recent| == |recent.Keys|;
  }

  // ---- runs without overflow -----------------------------------------------------

  lemma {:induction false} SparseAt(ps: seq<Presentation>, j: nat, lim: Limits)
    requires Sparse(ps, lim) && j < |ps|
    ensures |Recently(ps[..j], ps[j].at - lim.window)| <= lim.maxKeys
    decreases |ps|
  {
    if j < |ps| - 1 {
      SparseAt(ps[..|ps| - 1], j, lim);
      assert ps[..|ps| - 1][..j] == ps[..j];
    }
  }

  /** While no window is denser than the map, it never overflows, and every answer of
      the run is the unbounded record's. */
  lemma SparseRunsExact(ps: seq<Presentation>, lim: Limits)
    requires Clocked(ps) && Sparse(ps, lim)
    ensures forall j :: 0 <= j < |ps| ==> !OverflowAt(ps, j, lim)
    ensures Run(ps, lim).answers == Run(ps, lim).expected
  {
    hide Overflows, Recently, Sparse, Clocked;
    forall j | 0 <= j < |ps| ensures !OverflowAt(ps, j, lim) {
      SparseAt(ps, j, lim);
      OverflowIsDense(ps[..j], ps[j].at, lim);
    }
    hide OverflowAt, Run;
    RunWithin(ps, lim);
    forall i | 0 <= i < |ps| ensures Run(ps, lim).answers[i] == Run(ps, lim).expected[i] {
      SlipsExactly(ps, i, lim);
    }
  }

  // ---- a run that is too dense ---------------------------------------------------

  /** Signatures `0 .. n`, all at one instant. */
  function Burst(n: nat): seq<Presentation>
  {
    if n == 0 then [] else Burst(n - 1) + [Presentation(n - 1, 0.0)]
  }

  /** The map and the ideal map are both the signatures `0 .. n`, all at time 0. */
  ghost predicate HoldsBurst(r: State, n: nat)
  {
    && r.ideal == r.recent && |r.recent| == n
    && forall s: Signature :: (s in r.recent <==> s < n) && (s in r.recent ==> r.recent[s] == 0.0)
  }

  lemma BurstStep(r: State, r': State, n: nat, lim: Limits)
    requires HoldsBurst(r, n) && n <= lim.maxKeys
    requires r'.recent == After(r.recent, n, 0.0, lim) && r'.ideal == r.ideal[n := 0.0]
    ensures HoldsBurst(r', n + 1)
  {
    hide Live, Overflows;
    assert r'.recent == r.recent[n := 0.0];
  }

  lemma BurstEmpty(lim: Limits)
    ensures HoldsBurst(Run([], lim), 0)
  {
  }

  lemma {:induction false} BurstFills(n: nat, lim: Limits)
    requires n <= lim.maxKeys + 1
    ensures HoldsBurst(Run(Burst(n), lim), n)
  {
    hide Run, Duplicate, IdealDuplicate, After, HoldsBurst;
    if n == 0 {
      BurstEmpty(lim);
    } else {
      BurstFills(n - 1, lim);
      RunStep(Burst(n - 1), Presentation(n - 1, 0.0), lim);
      BurstStep(Run(Burst(n - 1), lim), Run(Burst(n), lim), n - 1, lim);
    }
  }

  /** One signature more than fits, at one instant, then `other`. */
  function Dense(lim: Limits, other: Signature): seq<Presentation>
  {
    Burst(lim.maxKeys + 1) + [Presentation(other, 0.0)]
  }

  lemma {:induction false} BurstElement(n: nat, k: nat)
    requires k < n
    ensures |Burst(n)| == n && Burst(n)[k] == Presentation(k, 0.0)
  {
    if k < n - 1 { BurstElement(n - 1, k); } else if n > 1 { BurstElement(n - 1, 0); }
  }

  lemma DenseOverflows(lim: Limits, other: Signature)
    requires lim.window > 0.0
    ensures |Dense(lim, other)| == lim.maxKeys + 2 && OverflowAt(Dense(lim, other), lim.maxKeys + 1, lim)
  {
    var n := lim.maxKeys + 1;
    BurstElement(n, 0);
    BurstFills(n, lim);
    assert Dense(lim, other)[..n] == Burst(n);
    var recent := Run(Burst(n), lim).recent;
    hide Run, Burst;
    assert Live(recent, 0.0, lim) == recent;
  }

  lemma DenseClocked(ps: seq<Presentation>, n: nat)
    requires |ps| >= n && ps[..n] == Burst(n) && forall k :: n <= k < |ps| ==> ps[k].at == 0.0
    ensures Clocked(ps)
  {
    forall k | 0 <= k < |ps| ensures ps[k].at == 0.0 {
      if k < n {
        BurstElement(n, k);
        assert ps[..n][k] == ps[k];
      }
    }
  }

  /** For every size limit and positive window a duplicate slips through: right away,
      if the first signature is the one presented next, and later, if another one was. */
  lemma DenseRunSlips(lim: Limits, other: Signature)
    requires lim.window > 0.0
    ensures var ps := if other == 0 then Dense(lim, 0) else Dense(lim, other) + [Presentation(0, 0.0)];
            var r := Run(ps, lim);
            && |r.answers| == |r.expected| == |ps|
            && r.expected[|ps| - 1] && !r.answers[|ps| - 1]
  {
    var n := lim.maxKeys + 1;
    DenseOverflows(lim, other);
    BurstElement(n, 0);
    var ps := if other == 0 then Dense(lim, 0) else Dense(lim, other) + [Presentation(0, 0.0)];
    var i := |ps| - 1;
    assert ps[..n] == Burst(n) && ps[..n + 1] == Dense(lim, other) && ps[0] == Burst(n)[0];
    DenseClocked(ps, n);
    OverflowEarlier(ps, n + 1, n, lim);
    hide Run, Burst, OverflowAt, Clocked;
    assert Unseen(ps, 0, n, i);
    assert ForgottenAt(ps, i, lim);
    assert ps[0].sig == ps[i].sig && ps[i].at - ps[0].at < lim.window;
    ExpectedExactly(ps, i, lim);
    SlipsExactly(ps, i, lim);
  }

  // ---- the object ----------------------------------------------------------------

  class Deduper {
    const lim: Limits
    var recent: Times
    /** Every presentation so far. */
    ghost var history: seq<Presentation>

    ghost predicate Valid()
      reads this
    {
      recent == Run(history, lim).recent
    }

    constructor (window: real)
      ensures Valid() && history == [] && lim == Limits(window, 4096)
    {
      lim, recent, history := Limits(window, RateLimit.MAX_TRACKED_KEYS), map[], [];
    }

    /** Drop the entries older than the window. */
    method Expire(now: real)
      modifies this`recent
      ensures recent == Live(old(recent), now, lim)
    {
      var cutoff := now - lim.window;
      var expired := set k | k in recent && recent[k] < cutoff;
      ghost var all := expired;
      while expired != {}
        invariant expired <= all <= old(recent).Keys && recent == old(recent) - (all - expired)
        decreases expired
      {
        var k :| k in expired;
        recent := recent - {k};
        expired := expired - {k};
      }
    }

    /** `_is_duplicate`: yes exactly when the signature was presented less than one
        window ago and the map has not overflowed since, this call included. */
    method IsDuplicate(s: Signature, now: real) returns (duplicate: bool)
      requires Valid()
      modifies this
      ensures Valid() && history == old(history) + [Presentation(s, now)]
      ensures duplicate == Duplicate(old(recent), s, now, lim)
      ensures recent == After(old(recent), s, now, lim)
      ensures Clocked(history) ==>
                (duplicate <==> PresentedWithin(history, lim) && !ForgottenAt(history, |history| - 1, lim))
    {
      Presented(history, s, now, lim);
      hide Run, Clocked, PresentedWithin, ForgottenAt;
      if |recent| > lim.maxKeys {
        Expire(now);
        if |recent| > lim.maxKeys {
          recent := map[];
        }
      }
      duplicate := s in recent && now - recent[s] < lim.window;
      recent := recent[s := now];
      history := history + [Presentation(s, now)];
    }
  }
}
