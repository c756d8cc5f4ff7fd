/** The stack health monitor (stack.py): each sweep updates every probed component
    and appends one record per health change to the local log. A probe's outcome is
    an input; the log is append-only. */
module Stack {
  import opened Wrappers

  type Component = string

  datatype Health = Health(component: Component, healthy: bool, detail: string)

  type Components = map<Component, Health>

  datatype Record = Record(
    component: Component, healthy: bool, detail: string, previousDetail: Option<string>, fallbackActive: bool)

  datatype Transition = Transition(result: Health, previous: Option<Health>)

  /** Unobserved components count as healthy. */
  predicate Up(cs: Components, c: Component) { c in cs ==> cs[c].healthy }

  /** `fallback_active` */
  predicate FallbackActive(cs: Components, triggers: seq<Component>)
  {
    exists t :: t in triggers && t in cs && !cs[t].healthy
  }

  // ---- one sweep ---------------------------------------------------------------

  /** What the log notes: each flip of a known component, and one first seen down. */
  predicate Changed(previous: Option<Health>, result: Health)
  {
    if previous.Some? then previous.value.healthy != result.healthy else !result.healthy
  }

  function Previous(cs: Components, r: Health): Option<Health>
  {
    if r.component in cs then Some(cs[r.component]) else None
  }

  function Observed(cs: Components, results: seq<Health>): Components
    decreases results
  {
    if results == [] then cs else Observed(cs[results[0].component := results[0]], results[1..])
  }

  function Transitions(cs: Components, results: seq<Health>): seq<Transition>
    decreases results
  {
    if results == [] then []
    else
      var p := Previous(cs, results[0]);
      (if Changed(p, results[0]) then [Transition(results[0], p)] else [])
      + Transitions(cs[results[0].component := results[0]], results[1..])
  }

  function Records(ts: seq<Transition>, active: bool): seq<Record>
  {
    if ts == [] then []
    else
      var t := ts[0];
      [Record(t.result.component, t.result.healthy, t.result.detail,
              if t.previous.Some? then Some(t.previous.value.detail) else None, active)]
      + Records(ts[1..], active)
  }

  datatype State = State(components: Components, log: seq<Record>)

  const INIT := State(map[], [])

  function Sweep(s: State, results: seq<Health>, triggers: seq<Component>): State
  {
    var cs := Observed(s.components, results);
    State(cs, s.log + Records(Transitions(s.components, results), FallbackActive(cs, triggers)))
  }

  function Run(sweeps: seq<seq<Health>>, triggers: seq<Component>): State
  {
    if sweeps == [] then INIT else Sweep(Run(sweeps[..|sweeps| - 1], triggers), sweeps[|sweeps| - 1], triggers)
  }

  // ---- replay ------------------------------------------------------------------

  /** The health of `c` according to the log alone, from an all-healthy start. */
  function Replay(log: seq<Record>, c: Component): bool
  {
    if log == [] then true
    else if log[|log| - 1].component == c then log[|log| - 1].healthy
    else Replay(log[..|log| - 1], c)
  }

  /** The recorded states of one component. */
  function StatesOf(log: seq<Record>, c: Component): seq<bool>
  {
    if log == [] then []
    else
      StatesOf(log[..|log| - 1], c) + if log[|log| - 1].component == c then [log[|log| - 1].healthy] else []
  }

  /** Unhealthy first, then strictly alternating. */
  predicate Alternates(states: seq<bool>)
  {
    forall k :: 0 <= k < |states| ==> (states[k] <==> k % 2 == 1)
  }

  /** Replaying the log gives the current health of every component. */
  ghost predicate Consistent(cs: Components, log: seq<Record>)
  {
    forall c ::
      && Replay(log, c) == Up(cs, c)
      && Alternates(StatesOf(log, c)) && Replay(log, c) == (|StatesOf(log, c)| % 2 == 0)
  }

  lemma AppendRecord(log: seq<Record>, r: Record, c: Component)
    ensures Replay(log + [r], c) == if r.component == c then r.healthy else Replay(log, c)
    ensures StatesOf(log + [r], c) == StatesOf(log, c) + if r.component == c then [r.healthy] else []
  {
    assert (log + [r])[..|log|] == log;
  }

  lemma FlipConsistent(cs: Components, log: seq<Record>, h: Health, r: Record)
    requires Consistent(cs, log) && Changed(Previous(cs, h), h)
    requires r.component == h.component && r.healthy == h.healthy
    ensures Consistent(cs[h.component := h], log + [r])
  {
    hide Replay, StatesOf;
    forall c
      ensures Replay(log + [r], c) == Up(cs[h.component := h], c)
      ensures Alternates(StatesOf(log + [r], c))
      ensures Replay(log + [r], c) == (|StatesOf(log + [r], c)| % 2 == 0)
    {
      AppendRecord(log, r, c);
      assert Replay(log, c) == Up(cs, c) && Alternates(StatesOf(log, c));
      assert StatesOf(log, c) + [] == StatesOf(log, c);
    }
  }

  lemma SameConsistent(cs: Components, log: seq<Record>, h: Health)
    requires Consistent(cs, log) && !Changed(Previous(cs, h), h)
    ensures Consistent(cs[h.component := h], log)
  {
    hide Replay, StatesOf, Alternates;
    forall c ensures Replay(log, c) == Up(cs[h.component := h], c) {
      assert Replay(log, c) == Up(cs, c);
    }
  }

  lemma {:induction false} SweepConsistent(cs: Components, log: seq<Record>, results: seq<Health>, active: bool)
    requires Consistent(cs, log)
    ensures Consistent(Observed(cs, results), log + Records(Transitions(cs, results), active))
    decreases results
  {
    hide Consistent;
    if results == [] {
      assert log + [] == log;
    } else {
      var h := results[0];
      var next := cs[h.component := h];
      var ts := Transitions(next, results[1..]);
      if Changed(Previous(cs, h), h) {
        var r := Records([Transition(h, Previous(cs, h))], active)[0];
        FlipConsistent(cs, log, h, r);
        SweepConsistent(next, log + [r], results[1..], active);
        assert ([Transition(h, Previous(cs, h))] + ts)[1..] == ts;
        assert (log + [r]) + Records(ts, active) == log + ([r] + Records(ts, active));
      } else {
        SameConsistent(cs, log, h);
        SweepConsistent(next, log, results[1..], active);
        assert [] + ts == ts;
      }
    }
  }

  // ---- the recorded fallback state -----------------------------------------------

  lemma {:induction false} RecordsActive(ts: seq<Transition>, active: bool)
    ensures |Records(ts, active)| == |ts| && forall r :: r in Records(ts, active) ==> r.fallbackActive == active
  {
    if ts == [] {
    } else {
      RecordsActive(ts[1..], active);
    }
  }

  /** A sweep that records nothing changes no component's health. */
  lemma {:induction false} QuietSweep(cs: Components, results: seq<Health>)
    requires Transitions(cs, results) == []
    ensures forall c :: Up(Observed(cs, results), c) == Up(cs, c)
    decreases results
  {
    if results == [] {
    } else {
      QuietSweep(cs[results[0].component := results[0]], results[1..]);
    }
  }

  /** The newest record tells whether the fallback is active now. */
  predicate LogTellsFallback(s: State, triggers: seq<Component>)
  {
    FallbackActive(s.components, triggers) == (s.log != [] && s.log[|s.log| - 1].fallbackActive)
  }

  lemma SweepTellsFallback(s: State, results: seq<Health>, triggers: seq<Component>)
    requires LogTellsFallback(s, triggers)
    ensures LogTellsFallback(Sweep(s, results, triggers), triggers)
  {
    var cs := Observed(s.components, results);
    var ts := Transitions(s.components, results);
    RecordsActive(ts, FallbackActive(cs, triggers));
    if ts == [] {
      QuietSweep(s.components, results);
      hide Observed;
      assert forall t :: t in triggers ==> Up(cs, t) == Up(s.components, t);
    }
  }

  /** After any run of sweeps the log alone gives the health of every component and
      the fallback state, and each component's records alternate, unhealthy first. */
  lemma {:induction false} LogReplays(sweeps: seq<seq<Health>>, triggers: seq<Component>)
    ensures var s := Run(sweeps, triggers); Consistent(s.components, s.log) && LogTellsFallback(s, triggers)
  {
    if sweeps == [] {
    } else {
      var last := |sweeps| - 1;
      LogReplays(sweeps[..last], triggers);
      var s := Run(sweeps[..last], triggers);
      hide Consistent, LogTellsFallback;
      var fallback := FallbackActive(Observed(s.components, sweeps[last]), triggers);
      SweepConsistent(s.components, s.log, sweeps[last], fallback);
      SweepTellsFallback(s, sweeps[last], triggers);
    }
  }

  /** The fallback is active exactly when the log says that a trigger component is down. */
  lemma FallbackFromLog(s: State, triggers: seq<Component>)
    requires Consistent(s.components, s.log)
    ensures FallbackActive(s.components, triggers) <==> exists t :: t in triggers && !Replay(s.log, t)
  {
    hide Replay, StatesOf;
    assert forall t :: Replay(s.log, t) == Up(s.components, t);
  }

  // ---- what a sweep records ------------------------------------------------------

  predicate OncePerComponent(results: seq<Health>)
  {
    forall i, j :: 0 <= i < j < |results| ==> results[i].component != results[j].component
  }

  /** The sweep leaves exactly the new results for the probed components. */
  lemma {:induction false} ObservedExactly(cs: Components, results: seq<Health>, c: Component)
    requires OncePerComponent(results)
    ensures var next := Observed(cs, results);
            && (forall h :: h in results && h.component == c ==> c in next && next[c] == h)
            && ((forall h :: h in results ==> h.component != c) ==>
                  (c in next <==> c in cs) && (c in cs ==> next[c] == cs[c]))
    decreases results
  {
    if results == [] {
    } else {
      ObservedExactly(cs[results[0].component := results[0]], results[1..], c);
      assert forall h :: h in results[1..] ==> h in results;
      assert forall h :: h in results ==> h == results[0] || h in results[1..];
      assert forall h :: h in results[1..] ==> h.component != results[0].component;
    }
  }

  /** Result `h` flips what was known: a known component's health changed, or an unknown
      one is down. */
  predicate Flips(cs: Components, h: Health)
  {
    if h.component in cs then cs[h.component].healthy != h.healthy else !h.healthy
  }

  /** The record of result `h`: its own detail and, if there was one, the previous one. */
  predicate Notes(cs: Components, h: Health, r: Record)
  {
    && r.component == h.component && r.healthy == h.healthy && r.detail == h.detail
    && r.previousDetail == if h.component in cs then Some(cs[h.component].detail) else None
  }

  /** The results that flip, in order. */
  function Flipping(cs: Components, results: seq<Health>): seq<Health>
  {
    if results == [] then [] else (if Flips(cs, results[0]) then [results[0]] else []) + Flipping(cs, results[1..])
  }

  /** What flips among the other components does not depend on `h`. */
  lemma {:induction false} FlippingLater(cs: Components, h: Health, results: seq<Health>)
    requires forall g :: g in results ==> g.component != h.component
    ensures Flipping(cs[h.component := h], results) == Flipping(cs, results)
    ensures forall g :: g in Flipping(cs, results) ==> g in results
  {
    if results == [] {
    } else {
      assert forall g :: g in results[1..] ==> g in results;
      FlippingLater(cs, h, results[1..]);
      assert results[0] in results;
    }
  }

  /** `rs` notes the results `fs` one by one, all with the same fallback state. */
  predicate NotesAll(cs: Components, fs: seq<Health>, rs: seq<Record>, active: bool)
  {
    |rs| == |fs| && forall i :: 0 <= i < |rs| ==> Notes(cs, fs[i], rs[i]) && rs[i].fallbackActive == active
  }

  lemma NotesLater(cs: Components, h: Health, fs: seq<Health>, rs: seq<Record>, active: bool)
    requires NotesAll(cs[h.component := h], fs, rs, active) && forall g :: g in fs ==> g.component != h.component
    ensures NotesAll(cs, fs, rs, active)
  {
    assert forall i :: 0 <= i < |fs| ==> fs[i] in fs;
  }

  lemma NotesCons(cs: Components, h: Health, fs: seq<Health>, r: Record, rs: seq<Record>, active: bool)
    requires NotesAll(cs, fs, rs, active) && Notes(cs, h, r) && r.fallbackActive == active
    ensures NotesAll(cs, [h] + fs, [r] + rs, active)
  {
    hide Notes;
  }

  lemma FirstRecord(cs: Components, h: Health, ts: seq<Transition>, active: bool)
    ensures var rs := Records([Transition(h, Previous(cs, h))] + ts, active);
            rs != [] && Notes(cs, h, rs[0]) && rs[0].fallbackActive == active && rs == [rs[0]] + Records(ts, active)
  {
    assert ([Transition(h, Previous(cs, h))] + ts)[1..] == ts;
  }

  /** A sweep appends one record for every result that flips, in order, and no other; all
      of them carry the same fallback state. */
  lemma {:induction false} SweepNotes(cs: Components, results: seq<Health>, active: bool)
    requires OncePerComponent(results)
    ensures NotesAll(cs, Flipping(cs, results), Records(Transitions(cs, results), active), active)
    decreases results
  {
    if results == [] {
    } else {
      hide NotesAll, Notes, Records;
      var h := results[0];
      var ts := Transitions(cs[h.component := h], results[1..]);
      var fs := Flipping(cs, results[1..]);
      SweepNotes(cs[h.component := h], results[1..], active);
      assert forall g :: g in results[1..] ==> g.component != h.component;
      FlippingLater(cs, h, results[1..]);
      NotesLater(cs, h, fs, Records(ts, active), active);
      if Flips(cs, h) {
        FirstRecord(cs, h, ts, active);
        NotesCons(cs, h, fs, Records([Transition(h, Previous(cs, h))] + ts, active)[0], Records(ts, active), active);
      } else {
        assert [] + ts == ts && [] + fs == fs;
      }
    }
  }

  // ---- the loops of a sweep, one turn at a time ------------------------------------

  lemma SweepStep(cs: Components, results: seq<Health>, i: nat, done: seq<Transition>)
    requires i < |results|
    ensures var h := results[i];
            var next := cs[h.component := h];
            var p := Previous(cs, h);
            && Observed(next, results[i + 1..]) == Observed(cs, results[i..])
            && done + Transitions(cs, results[i..])
               == (if Changed(p, h) then done + [Transition(h, p)] else done) + Transitions(next, results[i + 1..])
  {
    assert results[i..][1..] == results[i + 1..];
  }

  lemma SweepEnd(cs: Components, results: seq<Health>, done: seq<Transition>)
    ensures Observed(cs, results[|results|..]) == cs && done + Transitions(cs, results[|results|..]) == done
  {
  }

  lemma RecordsStep(log: seq<Record>, ts: seq<Transition>, i: nat, active: bool)
    requires i <= |ts|
    ensures i < |ts| ==>
              (log + Records([ts[i]], active)) + Records(ts[i + 1..], active) == log + Records(ts[i..], active)
    ensures i == |ts| ==> log + Records(ts[i..], active) == log
  {
    if i < |ts| {
      assert ts[i..][1..] == ts[i + 1..];
      assert Records([ts[i]], active) == [Records([ts[i]], active)[0]];
    }
  }

  // ---- the object ----------------------------------------------------------------

  /** The summary of `snapshot`. */
  datatype Status = Unknown | Ok | Degraded

  class StackMonitor {
    const triggers: seq<Component>
    var components: Components
    var log: seq<Record>

    /** The log alone gives every component's health and the fallback state. */
    ghost predicate Valid()
      reads this
    {
      Consistent(components, log) && LogTellsFallback(State(components, log), triggers)
    }

    constructor (triggers: seq<Component>)
      ensures Valid() && State(components, log) == INIT && this.triggers == triggers
    {
      this.triggers, components, log := triggers, map[], [];
    }

    method RecordTransition(t: Transition)
      modifies this`log
      ensures log == old(log) + Records([t], FallbackActive(components, triggers))
    {
      var active := FallbackActive(components, triggers);
      log := log + [Record(t.result.component, t.result.healthy, t.result.detail,
                           if t.previous.Some? then Some(t.previous.value.detail) else None, active)];
    }

    /** `check_once`, once all probes have answered. Every record of the sweep
        carries the fallback state of the fully updated map. */
    method CheckOnce(results: seq<Health>)
      requires Valid()
      modifies this
      ensures Valid()
      ensures State(components, log) == Sweep(old(State(components, log)), results, triggers)
      ensures forall i :: |old(log)| <= i < |log| ==> log[i].fallbackActive == FallbackActive(components, triggers)
    {
      hide Observed, Transitions, Records, FallbackActive, Consistent, LogTellsFallback;
      ghost var before := State(components, log);
      var transitions: seq<Transition> := [];
      ghost var start := components;
      assert results[0..] == results;
      for i := 0 to |results|
        invariant log == old(log)
        invariant Observed(components, results[i..]) == Observed(start, results)
        invariant transitions + Transitions(components, results[i..]) == Transitions(start, results)
      {
        var result := results[i];
        var previous := if result.component in components then Some(components[result.component]) else None;
        SweepStep(components, results, i, transitions);
        components := components[result.component := result];
        if (if previous.Some? then previous.value.healthy != result.healthy else !result.healthy) {
          transitions := transitions + [Transition(result, previous)];
        }
      }
      SweepEnd(components, results, transitions);
      ghost var active := FallbackActive(components, triggers);
      assert transitions[0..] == transitions;
      for i := 0 to |transitions|
        invariant components == Observed(start, results)
        invariant log + Records(transitions[i..], active) == old(log) + Records(transitions, active)
      {
        RecordsStep(log, transitions, i, active);
        RecordTransition(transitions[i]);
      }
      RecordsStep(log, transitions, |transitions|, active);
      RecordsActive(transitions, active);
      SweepConsistent(before.components, before.log, results, active);
      SweepTellsFallback(before, results, triggers);
    }

    /** `snapshot`: degraded exactly when the log says some known component is down,
        and the fallback is active exactly when the newest record says so. */
    method Snapshot() returns (status: Status, fallbackActive: bool)
      requires Valid()
      ensures status.Unknown? <==> components == map[]
      ensures status.Degraded? <==> exists c :: c in components && !Replay(log, c)
      ensures fallbackActive == FallbackActive(components, triggers)
      ensures fallbackActive <==> log != [] && log[|log| - 1].fallbackActive
      ensures fallbackActive <==> exists t :: t in triggers && !Replay(log, t)
    {
      FallbackFromLog(State(components, log), triggers);
      assert forall c :: c in components ==> Replay(log, c) == Up(components, c);
      if components == map[] {
        status := Unknown;
      } else if forall c :: c in components ==> components[c].healthy {
        status := Ok;
      } else {
        status := Degraded;
      }
      fallbackActive := FallbackActive(components, triggers);
    }
  }
}
