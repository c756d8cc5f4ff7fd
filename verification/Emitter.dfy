/** The emitter's routing table (emit.py): one provider and logger per client app,
    bounded, with overflow apps recorded under the fallback service. */
module Emitter {
  import opened Wrappers

  const MAX_APP_SERVICES: nat := 32

  /** The service a record is filed under: the shared fallback, or one app's own. */
  datatype Service = Fallback | App(name: string) {
    /** `service.name` */
    function Name(): string { if Fallback? then "frontend" else "frontend/" + name }
  }

  /** The services have distinct names. */
  lemma NamesDistinct(a: Service, b: Service)
    requires a.Name() == b.Name()
    ensures a == b
  {
    if a.App? && b.App? {
      assert a.name == a.Name()[9..] && b.name == b.Name()[9..];
    }
  }

  /** A logger, told apart by the service it was made for and a serial number. */
  datatype Logger = Logger(service: Service, serial: nat)

  datatype Table = Table(providers: map<Service, nat>, loggers: map<Service, Logger>, made: nat)

  const EMPTY := Table(map[], map[], 0)

  /** `app` may be absent or empty. */
  function ServiceOf(app: Option<string>): Service
  {
    if app.Some? && app.value != "" then App(app.value) else Fallback
  }

  function Route(t: Table, app: Option<string>): Service
  {
    if ServiceOf(app) !in t.loggers && |t.loggers| >= MAX_APP_SERVICES then Fallback else ServiceOf(app)
  }

  /** A request for the logger of `app`; `created` is false when making a new
      provider throws, and then the event is dropped. */
  datatype Request = Request(app: Option<string>, created: bool)

  function After(t: Table, r: Request): Table
  {
    var service := Route(t, r.app);
    if service in t.loggers || !r.created then t
    else Table(t.providers[service := t.made], t.loggers[service := Logger(service, t.made)], t.made + 1)
  }

  function Answer(t: Table, r: Request): Option<Logger>
  {
    var service := Route(t, r.app);
    if service in After(t, r).loggers then Some(After(t, r).loggers[service]) else None
  }

  function Run(t: Table, requests: seq<Request>): Table
    decreases requests
  {
    if requests == [] then t else Run(After(t, requests[0]), requests[1..])
  }

  // ---- bounds ------------------------------------------------------------------

  /** At most 32 app services, besides which only the fallback can exist. */
  predicate Sized(keys: set<Service>) { |keys - {Fallback}| <= MAX_APP_SERVICES }

  /** Providers and loggers are kept under the same keys, each logger for its own. */
  predicate Paired(t: Table)
  {
    && t.providers.Keys == t.loggers.Keys
    && forall s :: s in t.loggers ==> t.loggers[s].service == s && t.loggers[s].serial == t.providers[s] < t.made
  }

  predicate Bounded(t: Table) { Paired(t) && Sized(t.loggers.Keys) }

  lemma AddKey(keys: set<Service>, s: Service)
    ensures |keys + {s}| == |keys| + if s in keys then 0 else 1
  {
    if s in keys { assert keys + {s} == keys; }
  }

  /** The size bound spelled out: 33 in all, the extra one only ever the fallback. */
  lemma SizedTotal(keys: set<Service>)
    requires Sized(keys)
    ensures |keys| <= MAX_APP_SERVICES + 1
    ensures |keys| == MAX_APP_SERVICES + 1 ==> Fallback in keys
  {
    if Fallback in keys {
      assert keys == (keys - {Fallback}) + {Fallback};
    } else {
      assert keys == keys - {Fallback};
    }
  }

  lemma SizedAdd(keys: set<Service>, s: Service)
    requires Sized(keys) && (s == Fallback || |keys| < MAX_APP_SERVICES)
    ensures Sized(keys + {s})
  {
    if s == Fallback {
      assert (keys + {s}) - {Fallback} == keys - {Fallback};
    } else {
      assert (keys + {s}) - {Fallback} <= (keys - {Fallback}) + {s};
      assert (keys + {s}) - {Fallback} == (keys - {Fallback}) + {s};
      Fewer(keys);
      AddKey(keys - {Fallback}, s);
    }
  }

  lemma Fewer(keys: set<Service>)
    ensures |keys - {Fallback}| <= |keys|
  {
    if Fallback in keys { assert keys == (keys - {Fallback}) + {Fallback}; } else { assert keys == keys - {Fallback}; }
  }

  lemma StepKeys(t: Table, r: Request)
    ensures After(t, r) == t || After(t, r).loggers.Keys == t.loggers.Keys + {Route(t, r.app)}
    ensures After(t, r) != t ==> Route(t, r.app) == Fallback || |t.loggers.Keys| < MAX_APP_SERVICES
  {
    assert |t.loggers.Keys| == |t.loggers|;
  }

  lemma StepPaired(t: Table, r: Request)
    requires Paired(t)
    ensures Paired(After(t, r))
  {
    hide Route;
  }

  lemma StepBounded(t: Table, r: Request)
    requires Bounded(t)
    ensures Bounded(After(t, r))
  {
    StepPaired(t, r);
    StepKeys(t, r);
    hide Paired, Sized, After, Route;
    if After(t, r) != t { SizedAdd(t.loggers.Keys, Route(t, r.app)); }
  }

  /** The documented bound of 32 is exceeded by exactly one step: a table of 32 app
      services without the fallback, asked for one more app. */
  lemma ExceedsExactly(t: Table, r: Request)
    requires Bounded(t) && |t.loggers| <= MAX_APP_SERVICES
    ensures |After(t, r).loggers| > MAX_APP_SERVICES <==>
              && |t.loggers| == MAX_APP_SERVICES && r.created
              && ServiceOf(r.app) !in t.loggers && Fallback !in t.loggers
  {
    StepKeys(t, r);
    AddKey(t.loggers.Keys, Route(t, r.app));
    assert |t.loggers.Keys| == |t.loggers| && |After(t, r).loggers.Keys| == |After(t, r).loggers|;
  }

  // ---- stability ---------------------------------------------------------------

  /** `app` is answered with logger `l` from now on. */
  predicate Settled(t: Table, app: Option<string>, l: Logger)
  {
    Route(t, app) in t.loggers && t.loggers[Route(t, app)] == l
  }

  lemma StepSettled(t: Table, r: Request, app: Option<string>, l: Logger)
    requires Settled(t, app, l)
    ensures Settled(After(t, r), app, l)
  {
    var service := Route(t, r.app);
    AddKey(t.loggers.Keys, service);
    assert After(t, r) != t ==> After(t, r).loggers.Keys == t.loggers.Keys + {service};
  }

  lemma {:induction false} RunSettled(t: Table, requests: seq<Request>, app: Option<string>, l: Logger)
    requires Settled(t, app, l)
    ensures Settled(Run(t, requests), app, l)
    decreases requests
  {
    hide After, Settled;
    if requests == [] {
    } else {
      StepSettled(t, requests[0], app, l);
      RunSettled(After(t, requests[0]), requests[1..], app, l);
    }
  }

  lemma {:induction false} RunBounded(t: Table, requests: seq<Request>)
    requires Bounded(t)
    ensures Bounded(Run(t, requests))
    decreases requests
  {
    hide After, Bounded;
    if requests == [] {
    } else {
      StepBounded(t, requests[0]);
      RunBounded(After(t, requests[0]), requests[1..]);
    }
  }

  lemma AnsweredSettles(t: Table, r: Request)
    requires Answer(t, r).Some?
    ensures Settled(After(t, r), r.app, Answer(t, r).value)
  {
    var service := Route(t, r.app);
    AddKey(t.loggers.Keys, service);
    assert After(t, r) != t ==> After(t, r).loggers.Keys == t.loggers.Keys + {service};
  }

  // ---- which service an app gets -----------------------------------------------

  /** The services requested while their providers could be made. */
  function Services(requests: seq<Request>): set<Service>
  {
    set r | r in requests && r.created :: ServiceOf(r.app)
  }

  /** Request `j` asks for `s` while fewer than 32 different services came before it. */
  predicate EarlyAt(requests: seq<Request>, j: nat, s: Service)
    requires j < |requests|
  {
    requests[j].created && ServiceOf(requests[j].app) == s && |Services(requests[..j])| < 32
  }

  /** `s` is among the first 32 different services requested. */
  predicate Early(requests: seq<Request>, s: Service)
  {
    exists j :: 0 <= j < |requests| && EarlyAt(requests, j, s)
  }

  /** The same, request by request. */
  function FirstServices(requests: seq<Request>): (f: set<Service>)
    ensures |f| <= MAX_APP_SERVICES
  {
    if requests == [] then {}
    else
      var n := |requests| - 1;
      var before := FirstServices(requests[..n]);
      if |before| < MAX_APP_SERVICES && requests[n].created then
        AddKey(before, ServiceOf(requests[n].app));
        before + {ServiceOf(requests[n].app)}
      else before
  }

  lemma ServicesStep(requests: seq<Request>)
    requires requests != []
    ensures var n := |requests| - 1;
            var before := Services(requests[..n]);
            Services(requests) == if requests[n].created then before + {ServiceOf(requests[n].app)} else before
  {
    var n := |requests| - 1;
    assert requests == requests[..n] + [requests[n]];
  }

  /** Until 32 different services have come, the first ones are all of them. */
  lemma {:induction false} FirstAreAll(requests: seq<Request>)
    ensures FirstServices(requests) <= Services(requests)
    ensures |FirstServices(requests)| < MAX_APP_SERVICES ==> FirstServices(requests) == Services(requests)
    ensures |FirstServices(requests)| < MAX_APP_SERVICES <==> |Services(requests)| < MAX_APP_SERVICES
    decreases |requests|
  {
    if requests == [] {
      assert Services(requests) == {};
    } else {
      FirstAreAll(requests[..|requests| - 1]);
      ServicesStep(requests);
    }
    SubsetSize(FirstServices(requests), Services(requests));
  }

  lemma {:induction false} SubsetSize(a: set<Service>, b: set<Service>)
    requires a <= b
    ensures |a| <= |b|
    decreases a
  {
    if a == {} {
    } else {
      var x :| x in a;
      SubsetSize(a - {x}, b - {x});
    }
  }

  lemma EarlyStep(requests: seq<Request>, s: Service)
    requires requests != []
    ensures var n := |requests| - 1;
            Early(requests, s) <==> Early(requests[..n], s) || EarlyAt(requests, n, s)
  {
    hide Services;
    var n := |requests| - 1;
    forall j | 0 <= j < n ensures EarlyAt(requests[..n], j, s) == EarlyAt(requests, j, s) {
      assert requests[..n][..j] == requests[..j];
    }
    hide EarlyAt;
    if j :| 0 <= j < n && EarlyAt(requests[..n], j, s) {
      assert EarlyAt(requests, j, s);
    }
  }

  lemma {:induction false} FirstAreEarly(requests: seq<Request>, s: Service)
    ensures s in FirstServices(requests) <==> Early(requests, s)
    decreases |requests|
  {
    if requests == [] {
    } else {
      hide Services, Early;
      FirstAreEarly(requests[..|requests| - 1], s);
      FirstAreAll(requests[..|requests| - 1]);
      EarlyStep(requests, s);
    }
  }

  /** The table holds the first 32 services, and the fallback once another was requested. */
  predicate HoldsFirst(t: Table, requests: seq<Request>)
  {
    var f := FirstServices(requests);
    t.loggers.Keys == if f == Services(requests) then f else f + {Fallback}
  }

  lemma NothingHeld()
    ensures Paired(Run(EMPTY, [])) && HoldsFirst(Run(EMPTY, []), [])
  {
    assert Services([]) == {};
  }

  lemma {:induction false} RunHoldsFirst(requests: seq<Request>)
    ensures Paired(Run(EMPTY, requests)) && HoldsFirst(Run(EMPTY, requests), requests)
    decreases |requests|
  {
    hide Run, Paired, After, HoldsFirst;
    if requests == [] {
      NothingHeld();
    } else {
      var n := |requests| - 1;
      RunHoldsFirst(requests[..n]);
      assert requests == requests[..n] + [requests[n]];
      RunConcat(EMPTY, requests[..n], requests[n]);
      StepPaired(Run(EMPTY, requests[..n]), requests[n]);
      StepHoldsFirst(Run(EMPTY, requests[..n]), requests);
    }
  }

  /** What one request does to a table that holds `f`, and perhaps the fallback. */
  lemma TableStep(t: Table, f: set<Service>, more: bool, r: Request)
    requires t.loggers.Keys == if more then f + {Fallback} else f
    requires |f| <= MAX_APP_SERVICES && (more ==> |f| == MAX_APP_SERVICES)
    ensures var s := ServiceOf(r.app);
            var keys := After(t, r).loggers.Keys;
            && (!r.created || s in f ==> keys == t.loggers.Keys)
            && (r.created && s !in f ==>
                  keys == if |f| < MAX_APP_SERVICES then f + {s} else f + {Fallback})
  {
    AddKey(f, Fallback);
    assert |t.loggers.Keys| == |t.loggers|;
  }

  /** The same step on the sets alone. */
  lemma SetsStep(keys: set<Service>, keys': set<Service>, f: set<Service>, all: set<Service>, s: Service)
    requires f <= all && |f| <= MAX_APP_SERVICES && (|f| < MAX_APP_SERVICES ==> f == all)
    requires keys == if f == all then f else f + {Fallback}
    requires s in f ==> keys' == keys
    requires s !in f ==> keys' == if |f| < MAX_APP_SERVICES then f + {s} else f + {Fallback}
    ensures var f' := if |f| < MAX_APP_SERVICES then f + {s} else f;
            keys' == if f' == all + {s} then f' else f' + {Fallback}
  {
    if s in f {
      assert f + {s} == f && all + {s} == all;
    } else if |f| >= MAX_APP_SERVICES {
      assert s in all + {s};
    }
  }

  lemma StepHoldsFirst(t: Table, requests: seq<Request>)
    requires requests != [] && HoldsFirst(t, requests[..|requests| - 1])
    ensures HoldsFirst(After(t, requests[|requests| - 1]), requests)
  {
    var n := |requests| - 1;
    var r := requests[n];
    var t' := After(t, r);
    var f, all := FirstServices(requests[..n]), Services(requests[..n]);
    FirstAreAll(requests[..n]);
    ServicesStep(requests);
    TableStep(t, f, f != all, r);
    FirstStep(requests);
    hide Services, FirstServices, After;
    if r.created {
      SetsStep(t.loggers.Keys, t'.loggers.Keys, f, all, ServiceOf(r.app));
    }
  }

  lemma FirstStep(requests: seq<Request>)
    requires requests != []
    ensures var r := requests[|requests| - 1];
            var f := FirstServices(requests[..|requests| - 1]);
            FirstServices(requests) == if |f| < MAX_APP_SERVICES && r.created then f + {ServiceOf(r.app)} else f
  {
  }

  /** An app is answered with its own service exactly when that is among the first 32
      different services requested, this request included, and with the fallback
      otherwise; it goes unanswered only when a provider could not be made. */
  lemma RoutedExactly(requests: seq<Request>, i: nat)
    requires i < |requests|
    ensures var r := requests[i];
            var a := Answer(Run(EMPTY, requests[..i]), r);
            && (a.None? ==> !r.created)
            && (a.Some? ==>
                  a.value.service == if Early(requests[..i + 1], ServiceOf(r.app)) then ServiceOf(r.app) else Fallback)
  {
    var all := requests[..i + 1];
    var r := requests[i];
    assert all[..i] == requests[..i] && all[i] == r;
    RunHoldsFirst(requests[..i]);
    FirstAreEarly(all, ServiceOf(r.app));
    FirstAreAll(requests[..i]);
    StepPaired(Run(EMPTY, requests[..i]), r);
    hide Run, Services, Early;
    RoutedByTable(Run(EMPTY, requests[..i]), FirstServices(requests[..i]), r);
  }

  /** By name: without an app the service is `frontend`; an app gets `frontend/` and its
      name if it was early enough, and `frontend` otherwise. */
  lemma RoutedByName(requests: seq<Request>, i: nat)
    requires i < |requests|
    ensures var r := requests[i];
            var a := Answer(Run(EMPTY, requests[..i]), r);
            a.Some? ==>
              a.value.service.Name() ==
                if r.app.Some? && r.app.value != "" && Early(requests[..i + 1], App(r.app.value))
                then "frontend/" + r.app.value else "frontend"
  {
    hide Run, Answer, Early;
    RoutedExactly(requests, i);
  }

  lemma RoutedByTable(t: Table, f: set<Service>, r: Request)
    requires Paired(t) && Paired(After(t, r)) && |f| <= MAX_APP_SERVICES
    requires t.loggers.Keys == f || (t.loggers.Keys == f + {Fallback} && |f| == MAX_APP_SERVICES)
    ensures var s := ServiceOf(r.app);
            var a := Answer(t, r);
            && (a.None? ==> !r.created)
            && (a.Some? ==>
                  a.value.service == if s in f || (|f| < MAX_APP_SERVICES && r.created) then s else Fallback)
  {
    AddKey(f, Fallback);
    assert |t.loggers.Keys| == |t.loggers|;
  }

  /** Between shutdowns an app that was once answered is always answered with the
      same logger, whatever other apps ask in between: that of its own service, if it
      was among the first 32 requested, and else that of the fallback. */
  lemma StableRouting(before: seq<Request>, app: Option<string>, created: bool, between: seq<Request>, again: bool)
    requires Answer(Run(EMPTY, before), Request(app, created)).Some?
    ensures var t := Run(EMPTY, before);
            var first := Answer(t, Request(app, created));
            var later := Run(After(t, Request(app, created)), between);
            && Answer(later, Request(app, again)) == first
            && After(later, Request(app, again)) == later
            && (first.value.service ==
                  if Early(before + [Request(app, created)], ServiceOf(app)) then ServiceOf(app) else Fallback)
            && Bounded(later)
  {
    var t := Run(EMPTY, before);
    var t' := After(t, Request(app, created));
    var l := Answer(t, Request(app, created)).value;
    var all := before + [Request(app, created)];
    assert all[..|before|] == before && all[..|before| + 1] == all;
    hide Run, After, Answer, Early, Bounded, Settled;
    RunBounded(EMPTY, before);
    StepBounded(t, Request(app, created));
    RunBounded(t', between);
    RoutedExactly(all, |before|);
    AnsweredSettles(t, Request(app, created));
    RunSettled(t', between, app, l);
    SettledAnswers(Run(t', between), app, again, l);
  }

  lemma SettledAnswers(t: Table, app: Option<string>, created: bool, l: Logger)
    requires Settled(t, app, l)
    ensures Answer(t, Request(app, created)) == Some(l) && After(t, Request(app, created)) == t
  {
  }

  // ---- a run of 33 loggers -------------------------------------------------------

  function AppName(n: nat): string { if n == 0 then "a" else "a" + AppName(n - 1) }

  /** One request for each of `n` different apps. */
  function Apps(n: nat): seq<Request>
  {
    if n == 0 then [] else Apps(n - 1) + [Request(Some(AppName(n - 1)), true)]
  }

  lemma {:induction false} NameLength(n: nat)
    ensures |AppName(n)| == n + 1
  {
    if n == 0 {
    } else {
      NameLength(n - 1);
    }
  }

  lemma {:induction false} RunConcat(t: Table, a: seq<Request>, r: Request)
    ensures Run(t, a + [r]) == After(Run(t, a), r)
    decreases a
  {
    hide After;
    if a == [] {
      assert a + [r] == [r] && [r][1..] == [];
      assert Run(t, [r]) == Run(After(t, r), []);
    } else {
      assert (a + [r])[1..] == a[1..] + [r];
      RunConcat(After(t, a[0]), a[1..], r);
    }
  }

  /** `n` app services, of apps with names of at most `n` letters, and no fallback. */
  predicate HoldsApps(t: Table, n: nat)
  {
    |t.loggers| == n && forall s :: s in t.loggers ==> s.App? && |s.name| <= n
  }

  lemma AppsStep(t: Table, n: nat, name: string)
    requires n < MAX_APP_SERVICES && HoldsApps(t, n) && |name| == n + 1
    ensures HoldsApps(After(t, Request(Some(name), true)), n + 1)
  {
    var t' := After(t, Request(Some(name), true));
    AddKey(t.loggers.Keys, App(name));
    assert t'.loggers.Keys == t.loggers.Keys + {App(name)};
  }

  lemma {:induction false} AppsFill(n: nat)
    requires n <= MAX_APP_SERVICES
    ensures HoldsApps(Run(EMPTY, Apps(n)), n)
  {
    if n == 0 {
    } else {
      AppsFill(n - 1);
      RunConcat(EMPTY, Apps(n - 1), Request(Some(AppName(n - 1)), true));
      NameLength(n - 1);
      hide Run, After, HoldsApps;
      AppsStep(Run(EMPTY, Apps(n - 1)), n - 1, AppName(n - 1));
    }
  }

  /** Thirty-three different apps give thirty-three loggers, one more than documented. */
  lemma OneMoreThanDocumented()
    ensures |Run(EMPTY, Apps(MAX_APP_SERVICES) + [Request(Some(AppName(MAX_APP_SERVICES)), true)]).loggers| == 33
  {
    hide Run, Apps, AppName;
    AppsFill(MAX_APP_SERVICES);
    NameLength(MAX_APP_SERVICES);
    RunConcat(EMPTY, Apps(MAX_APP_SERVICES), Request(Some(AppName(MAX_APP_SERVICES)), true));
    Overflow(Run(EMPTY, Apps(MAX_APP_SERVICES)), AppName(MAX_APP_SERVICES));
  }

  lemma Overflow(t: Table, name: string)
    requires HoldsApps(t, MAX_APP_SERVICES) && |name| == MAX_APP_SERVICES + 1
    ensures |After(t, Request(Some(name), true)).loggers| == 33
  {
    AddKey(t.loggers.Keys, Fallback);
    assert After(t, Request(Some(name), true)).loggers.Keys == t.loggers.Keys + {Fallback};
  }

  // ---- the object ----------------------------------------------------------------

  class Emitter {
    var providers: map<Service, nat>
    var loggers: map<Service, Logger>
    var made: nat

    constructor ()
      ensures Table(providers, loggers, made) == EMPTY
    {
      providers, loggers, made := map[], map[], 0;
    }

    /** `_logger_for`; `created` says whether the provider can be made, and without
        one nothing is stored. */
    method LoggerFor(app: Option<string>, created: bool) returns (logger: Option<Logger>)
      modifies this
      ensures Table(providers, loggers, made) == After(old(Table(providers, loggers, made)), Request(app, created))
      ensures logger == Answer(old(Table(providers, loggers, made)), Request(app, created))
    {
      var service := ServiceOf(app);
      if service !in loggers && |loggers| >= MAX_APP_SERVICES { service := Fallback; }
      if service in loggers { return Some(loggers[service]); }
      if !created { return None; }
      var newLogger := Logger(service, made);
      providers := providers[service := made];
      loggers := loggers[service := newLogger];
      made := made + 1;
      return Some(newLogger);
    }

    /** `shutdown`: every provider is shut down once and the table is empty again. */
    method Shutdown() returns (stopped: set<Service>)
      modifies this
      ensures Table(providers, loggers, made) == Table(map[], map[], old(made))
      ensures stopped == old(providers).Keys
    {
      stopped := {};
      var left := providers.Keys;
      while left != {}
        invariant providers == old(providers) && made == old(made)
        invariant left <= providers.Keys && stopped == providers.Keys - left
        decreases left
      {
        var s :| s in left;
        stopped := stopped + {s};
        left := left - {s};
      }
      providers, loggers := map[], map[];
    }
  }
}
