/** Short-window deduplication of the React client (client.ts): a map from
    signatures to the time they were last accepted, in insertion order, with at most
    200 entries. A JavaScript `Map` is a sequence of entries with distinct keys. */
module ClientDedupe {
  import opened Wrappers
  import opened Utf16

  const DEDUPE_MAX_ENTRIES := 200

  type Entry = (Text, int)
  type Recent = seq<Entry>

  function Find(r: Recent, sig: Text): Option<int>
  {
    if r == [] then None else if r[0].0 == sig then Some(r[0].1) else Find(r[1..], sig)
  }

  /** `Map.delete` */
  function Delete(r: Recent, sig: Text): Recent
  {
    if r == [] then [] else (if r[0].0 == sig then [] else [r[0]]) + Delete(r[1..], sig)
  }

  /** Entries younger than the window. */
  function Unexpired(r: Recent, now: int, window: int): Recent
  {
    if r == [] then [] else (if now - r[0].1 >= window then [] else [r[0]]) + Unexpired(r[1..], now, window)
  }

  function Newest(r: Recent): Recent
  {
    if |r| > DEDUPE_MAX_ENTRIES then r[|r| - DEDUPE_MAX_ENTRIES..] else r
  }

  function Suppressed(r: Recent, sig: Text, now: int, window: int): bool
  {
    Find(r, sig).Some? && now - Find(r, sig).value < window
  }

  function Accept(r: Recent, sig: Text, now: int, window: int): Recent
  {
    var added := Delete(r, sig) + [(sig, now)];
    if |added| > DEDUPE_MAX_ENTRIES then Newest(Unexpired(added, now, window)) else added
  }

  // ---- the map against the history of acceptances ------------------------------

  /** The map, every acceptance so far, and the signatures a full map has evicted
      since they were last accepted. */
  datatype State = State(recent: Recent, history: seq<Entry>, evicted: set<Text>)

  const INIT := State([], [], {})

  function Keys(r: Recent): set<Text> { set e | e in r :: e.0 }

  function Present(s: State, sig: Text, now: int, window: int): State
  {
    if Suppressed(s.recent, sig, now, window) then s
    else
      var added := Delete(s.recent, sig) + [(sig, now)];
      var live := if |added| > DEDUPE_MAX_ENTRIES then Unexpired(added, now, window) else added;
      State(Accept(s.recent, sig, now, window), s.history + [(sig, now)],
            (s.evicted - {sig}) + (Keys(live) - Keys(Newest(live))))
  }

  predicate Distinct(r: Recent) { forall i, j :: 0 <= i < j < |r| ==> r[i].0 != r[j].0 }

  predicate Ascending(r: seq<Entry>) { forall i, j :: 0 <= i < j < |r| ==> r[i].1 <= r[j].1 }

  predicate UpTo(r: seq<Entry>, now: int) { forall e :: e in r ==> e.1 <= now }

  /** `t` is the time `sig` was last accepted. */
  predicate LastAccepted(history: seq<Entry>, sig: Text, t: int)
  {
    (sig, t) in history && forall e :: e in history && e.0 == sig ==> e.1 <= t
  }

  /** The map is bounded and ordered by age, holds only latest acceptances, misses one
      only if it has expired or was evicted, and holds no evicted signature. */
  predicate Faithful(s: State, now: int, window: int)
  {
    && |s.recent| <= DEDUPE_MAX_ENTRIES && Distinct(s.recent) && Ascending(s.recent)
    && UpTo(s.history, now) && Ascending(s.history)
    && (forall e :: e in s.recent ==> LastAccepted(s.history, e.0, e.1))
    && (forall e :: e in s.history && LastAccepted(s.history, e.0, e.1) ==>
          e in s.recent || e.0 in s.evicted || now - e.1 >= window)
    && Keys(s.recent) !! s.evicted
  }

  // ---- map operations ----------------------------------------------------------

  lemma {:induction false} FindCorrect(r: Recent, sig: Text)
    ensures Find(r, sig).Some? ==> (sig, Find(r, sig).value) in r
    ensures Find(r, sig).None? ==> sig !in Keys(r)
    ensures forall t :: Distinct(r) && (sig, t) in r ==> Find(r, sig) == Some(t)
  {
    if r == [] {
    } else {
      FindCorrect(r[1..], sig);
      assert r == [r[0]] + r[1..];
      assert Keys(r) == {r[0].0} + Keys(r[1..]);
      if r[0].0 == sig {
        assert r[0] == (sig, r[0].1);
      }
    }
  }

  predicate KeepsOrder(small: Recent, large: Recent)
  {
    && (Distinct(large) ==> Distinct(small))
    && (Ascending(large) ==> Ascending(small))
    && (forall e :: e in small ==> e in large)
    && |small| <= |large|
  }

  /** Distinct keys and ascending times, one entry at a time. */
  lemma ConsDistinct(head: Entry, tail: Recent)
    ensures Distinct([head] + tail) <==> Distinct(tail) && forall e :: e in tail ==> e.0 != head.0
  {
    var l := [head] + tail;
    assert forall i :: 0 < i < |l| ==> l[i] == tail[i - 1];
    if Distinct(l) {
      forall i, j | 0 <= i < j < |tail| ensures tail[i].0 != tail[j].0 { assert l[i + 1].0 != l[j + 1].0; }
      forall e | e in tail ensures e.0 != head.0 {
        var i :| 0 <= i < |tail| && tail[i] == e;
        assert l[0].0 != l[i + 1].0;
      }
    }
  }

  lemma ConsAscending(head: Entry, tail: Recent)
    ensures Ascending([head] + tail) <==> Ascending(tail) && forall e :: e in tail ==> head.1 <= e.1
  {
    var l := [head] + tail;
    assert forall i :: 0 < i < |l| ==> l[i] == tail[i - 1];
    if Ascending(l) {
      forall i, j | 0 <= i < j < |tail| ensures tail[i].1 <= tail[j].1 { assert l[i + 1].1 <= l[j + 1].1; }
      forall e | e in tail ensures head.1 <= e.1 {
        var i :| 0 <= i < |tail| && tail[i] == e;
        assert l[0].1 <= l[i + 1].1;
      }
    }
  }

  /** Keeping or dropping the head of a list whose tail kept its order. */
  lemma HeadKeeps(head: Entry, small: Recent, large: Recent)
    requires KeepsOrder(small, large)
    ensures KeepsOrder([head] + small, [head] + large) && KeepsOrder(small, [head] + large)
  {
    ConsDistinct(head, small);
    ConsDistinct(head, large);
    ConsAscending(head, small);
    ConsAscending(head, large);
    hide Distinct, Ascending;
  }

  lemma {:induction false} DeleteMembers(r: Recent, sig: Text)
    ensures forall e :: e in Delete(r, sig) <==> e in r && e.0 != sig
  {
    if r == [] {
    } else {
      DeleteMembers(r[1..], sig);
      assert r == [r[0]] + r[1..];
    }
  }

  lemma NothingKeeps()
    ensures KeepsOrder([], [])
  {
  }

  lemma {:induction false} DeleteKeeps(r: Recent, sig: Text)
    ensures KeepsOrder(Delete(r, sig), r)
  {
    hide KeepsOrder;
    if r == [] {
      NothingKeeps();
    } else {
      DeleteKeeps(r[1..], sig);
      var small := Delete(r[1..], sig);
      HeadKeeps(r[0], small, r[1..]);
      assert [] + small == small && [r[0]] + r[1..] == r;
    }
  }

  lemma {:induction false} UnexpiredMembers(r: Recent, now: int, window: int)
    ensures forall e :: e in Unexpired(r, now, window) <==> e in r && now - e.1 < window
  {
    if r == [] {
    } else {
      UnexpiredMembers(r[1..], now, window);
      assert r == [r[0]] + r[1..];
    }
  }

  lemma {:induction false} UnexpiredKeeps(r: Recent, now: int, window: int)
    ensures KeepsOrder(Unexpired(r, now, window), r)
  {
    hide KeepsOrder;
    if r == [] {
      NothingKeeps();
    } else {
      UnexpiredKeeps(r[1..], now, window);
      var small := Unexpired(r[1..], now, window);
      HeadKeeps(r[0], small, r[1..]);
      assert [] + small == small && [r[0]] + r[1..] == r;
    }
  }

  /** One turn of the pruning loop, which stands at index `i`. */
  lemma PruneTurn(r: Recent, i: nat, now: int, window: int)
    requires i < |r|
    ensures var done := r[..i] + Unexpired(r[i..], now, window);
            && (now - r[i].1 >= window ==>
                  var r' := r[..i] + r[i + 1..];
                  r'[..i] == r[..i] && r'[i..] == r[i + 1..] && done == r'[..i] + Unexpired(r'[i..], now, window))
            && (now - r[i].1 < window ==> done == r[..i + 1] + Unexpired(r[i + 1..], now, window))
  {
    assert r[i..][1..] == r[i + 1..];
    var r' := r[..i] + r[i + 1..];
    assert r'[i..] == r[i + 1..] && r'[..i] == r[..i];
    assert r[..i + 1] == r[..i] + [r[i]];
  }

  lemma PruneEnd(r: Recent, now: int, window: int)
    ensures r[..|r|] + Unexpired(r[|r|..], now, window) == r
  {
  }

  lemma NewestKeeps(r: Recent)
    ensures KeepsOrder(Newest(r), r) && |Newest(r)| <= DEDUPE_MAX_ENTRIES
    ensures forall e :: e in r ==> e in Newest(r) || e.0 in Keys(r) - Keys(Newest(r)) || !Distinct(r)
  {
    var n := |r| - |Newest(r)|;
    assert r == r[..n] + Newest(r);
    assert forall e :: e in Newest(r) ==> e in r;
  }

  // ---- presentations -----------------------------------------------------------

  /** `signature` added as the newest entry. */
  lemma AddKeeps(r: Recent, sig: Text, now: int)
    requires Distinct(r) && Ascending(r) && forall e :: e in r ==> e.1 <= now
    ensures var added := Delete(r, sig) + [(sig, now)];
            && Distinct(added) && Ascending(added) && |added| <= |r| + 1
            && forall e :: e in added <==> (e in r && e.0 != sig) || e == (sig, now)
  {
    DeleteKeeps(r, sig);
    DeleteMembers(r, sig);
    var d := Delete(r, sig);
    assert forall e :: e in d ==> e.0 != sig && e.1 <= now;
    assert forall i :: 0 <= i < |d| ==> d[i] in d;
  }

  /** The entries left once an accepted presentation has pruned the map. */
  lemma AcceptKeeps(r: Recent, sig: Text, now: int, window: int)
    requires Distinct(r) && Ascending(r) && forall e :: e in r ==> e.1 <= now
    ensures var added := Delete(r, sig) + [(sig, now)];
            var live := if |added| > DEDUPE_MAX_ENTRIES then Unexpired(added, now, window) else added;
            var kept := Accept(r, sig, now, window);
            && kept == Newest(live) && |kept| <= DEDUPE_MAX_ENTRIES && Distinct(kept) && Ascending(kept)
            && (forall e :: e in kept ==> (e in r && e.0 != sig) || e == (sig, now))
            && (forall e :: (e in r && e.0 != sig) || e == (sig, now) ==>
                  e in kept || e.0 in Keys(live) - Keys(kept) || now - e.1 >= window)
  {
    AddKeeps(r, sig, now);
    var added := Delete(r, sig) + [(sig, now)];
    UnexpiredKeeps(added, now, window);
    UnexpiredMembers(added, now, window);
    var live := if |added| > DEDUPE_MAX_ENTRIES then Unexpired(added, now, window) else added;
    NewestKeeps(live);
    hide Distinct, Ascending, Newest, Unexpired, Delete, Keys;
  }

  lemma PresentFaithful(s: State, sig: Text, before: int, now: int, window: int)
    requires before <= now && Faithful(s, before, window)
    ensures Faithful(Present(s, sig, now, window), now, window)
  {
    if !Suppressed(s.recent, sig, now, window) {
      var r := Present(s, sig, now, window);
      AcceptKeeps(s.recent, sig, now, window);
      HistoryStep(s, sig, before, now);
      EvictedApart(s, sig, now, window);
      hide Distinct, Ascending, Newest, Unexpired, Delete, Keys, LastAccepted, Accept;
      forall e | e in r.recent
        ensures LastAccepted(r.history, e.0, e.1)
      {
        assert e == (e.0, e.1);
      }
      forall e | e in r.history && LastAccepted(r.history, e.0, e.1)
        ensures e in r.recent || e.0 in r.evicted || now - e.1 >= window
      {
        assert e == (e.0, e.1);
      }
    }
  }

  lemma EvictedApart(s: State, sig: Text, now: int, window: int)
    requires Keys(s.recent) !! s.evicted && !Suppressed(s.recent, sig, now, window)
    requires forall e :: e in Accept(s.recent, sig, now, window) ==> (e in s.recent && e.0 != sig) || e == (sig, now)
    ensures var r := Present(s, sig, now, window); Keys(r.recent) !! r.evicted
  {
    hide Delete, Unexpired, Suppressed;
    var kept := Accept(s.recent, sig, now, window);
    forall k | k in Keys(kept) ensures k in Keys(s.recent) || k == sig {
      var e :| e in kept && e.0 == k;
    }
  }

  /** A new acceptance is the latest of its signature and disturbs no other. */
  lemma HistoryStep(s: State, sig: Text, before: int, now: int)
    requires before <= now && UpTo(s.history, before) && Ascending(s.history)
    ensures var h := s.history + [(sig, now)];
            && UpTo(h, now) && Ascending(h) && LastAccepted(h, sig, now)
            && (forall x, t :: x != sig ==> (LastAccepted(h, x, t) <==> LastAccepted(s.history, x, t)))
            && (forall t :: LastAccepted(h, sig, t) ==> t == now)
  {
    var h := s.history + [(sig, now)];
    assert forall e :: e in h <==> e in s.history || e == (sig, now);
    assert forall i :: 0 <= i < |s.history| ==> s.history[i] in s.history;
  }

  /** Presentations with a clock that does not run backwards. */
  predicate Clocked(ps: seq<Entry>, start: int)
  {
    Ascending(ps) && forall p :: p in ps ==> start <= p.1
  }

  function Presented(s: State, ps: seq<Entry>, window: int): State
    decreases ps
  {
    if ps == [] then s else Presented(Present(s, ps[0].0, ps[0].1, window), ps[1..], window)
  }

  lemma {:induction false} RunFaithful(s: State, ps: seq<Entry>, start: int, window: int)
    requires Clocked(ps, start) && Faithful(s, start, window)
    ensures Faithful(Presented(s, ps, window), if ps == [] then start else ps[|ps| - 1].1, window)
    decreases ps
  {
    hide Faithful, Present;
    if ps == [] {
    } else {
      assert ps[0] in ps;
      PresentFaithful(s, ps[0].0, start, ps[0].1, window);
      assert forall p :: p in ps[1..] ==> p in ps;
      assert Clocked(ps[1..], ps[0].1);
      RunFaithful(Present(s, ps[0].0, ps[0].1, window), ps[1..], ps[0].1, window);
    }
  }

  /** After any run an event is suppressed exactly when its signature was accepted less
      than one window ago and a full map has not evicted it since. */
  lemma SuppressionExact(ps: seq<Entry>, sig: Text, now: int, window: int)
    requires Clocked(ps + [(sig, now)], 0)
    ensures var s := Presented(INIT, ps, window);
            && |s.recent| <= 200 && Ascending(s.recent)
            && (Suppressed(s.recent, sig, now, window) <==>
                  sig !in s.evicted && exists e :: e in s.history && e.0 == sig && now - e.1 < window)
  {
    var all := ps + [(sig, now)];
    assert forall i :: 0 <= i < |ps| ==> all[i] == ps[i];
    assert forall p :: p in ps ==> p in all;
    assert all[|ps|] in all && Clocked(ps, 0);
    RunFaithful(INIT, ps, 0, window);
    var s := Presented(INIT, ps, window);
    FindCorrect(s.recent, sig);
    if Suppressed(s.recent, sig, now, window) {
      var e := (sig, Find(s.recent, sig).value);
      assert e in s.recent && LastAccepted(s.history, e.0, e.1);
      assert sig in Keys(s.recent);
    } else if sig !in s.evicted {
      forall e | e in s.history && e.0 == sig ensures now - e.1 >= window {
        var t := LastOf(s.history, e);
        if (sig, t) in s.recent {
          assert Find(s.recent, sig) == Some(t);
        } else {
          assert (sig, t) in s.history;
        }
      }
    }
  }

  lemma {:induction false} LastOf(history: seq<Entry>, e: Entry) returns (t: int)
    requires e in history && Ascending(history)
    ensures LastAccepted(history, e.0, t) && e.1 <= t
    decreases history
  {
    var last := history[|history| - 1];
    assert forall x :: x in history ==> x.1 <= last.1;
    if last.0 == e.0 {
      t := last.1;
      assert last == (e.0, t);
    } else {
      var prefix := history[..|history| - 1];
      assert history == prefix + [last];
      t := LastOf(prefix, e);
    }
  }

  /** What the size bound removes is at most as new as everything that stays. */
  lemma NewestAreNewest(live: Recent, e: Entry)
    requires Ascending(live) && e in live && e !in Newest(live)
    ensures |Newest(live)| == DEDUPE_MAX_ENTRIES && forall k :: k in Newest(live) ==> e.1 <= k.1
  {
    var kept := Newest(live);
    var n := |live| - |kept|;
    assert live == live[..n] + kept;
    hide Newest;
    var i :| 0 <= i < n && live[i] == e;
    forall k | k in kept ensures e.1 <= k.1 {
      var j :| 0 <= j < |kept| && kept[j] == k;
      assert live[n + j] == k;
    }
  }

  /** An unexpired entry disappears only when 200 entries at least as new stay. */
  lemma EvictsOldest(r: Recent, sig: Text, now: int, window: int, e: Entry)
    requires Distinct(r) && Ascending(r) && forall x :: x in r ==> x.1 <= now
    requires e in r && e.0 != sig && now - e.1 < window && e !in Accept(r, sig, now, window)
    ensures |Accept(r, sig, now, window)| == 200
    ensures forall k :: k in Accept(r, sig, now, window) ==> e.1 <= k.1
  {
    AddKeeps(r, sig, now);
    var added := Delete(r, sig) + [(sig, now)];
    UnexpiredKeeps(added, now, window);
    UnexpiredMembers(added, now, window);
    hide Distinct, Ascending, Delete;
    assert e in added && |added| > DEDUPE_MAX_ENTRIES;
    NewestAreNewest(Unexpired(added, now, window), e);
  }
}
