/** The routing loop of `ServeHTTP` and the proxy cache of `proxyForRoute` (main.go), with any number of
    requests in flight. The cache is keyed by the address of the loop variable of a request, so a key is a
    request, and what it points at is whatever that request's loop last stored there. */
module RouteTable {
  import opened Common
  import opened Strings

  datatype Route = Route(handler: string, path: string, target: Option<string>)

  /** A reverse proxy, by the target that it was built from. */
  datatype Proxy = Proxy(target: string)

  datatype Outcome = Unmatched | Handled | BadConfiguration | Proxied(proxy: Proxy)

  /** A request, by what it does next. */
  datatype Stage =
    | AtRoute(i: nat)
    | InHandler(i: nat)
    | LookingUp
    | Parsing
    | Inserting(proxy: Proxy)
    | Serving(proxy: Proxy)
    | Finished(outcome: Outcome)

  /** `refused` are the routes whose handler has been tried and has left the request to later ones; it is a history
      variable, which no step depends on. */
  datatype Request = Request(path: string, stage: Stage, route: Route, refused: set<nat>)

  datatype State = State(reqs: map<nat, Request>, proxies: map<nat, Proxy>)

  const INIT := State(map[], map[])

  datatype Action =
    | Arrive(r: nat, path: string, route: Route)
    | Loop(r: nat)
    | Return(r: nat, done: bool)
    | Look(r: nat)
    | Parse(r: nat)
    | Insert(r: nat)
    | Serve(r: nat)

  /** What `serveMonitor` answers is decided by the path. */
  predicate MonitorServes(q: Request) {
    q.path == q.route.path || q.path == q.route.path + ".json"
  }

  /** One turn of the routing loop: the loop variable is set, then the route is tried. */
  function LoopStep(routes: seq<Route>, q: Request, i: nat): Request {
    if i >= |routes| then q.(stage := Finished(Unmatched))
    else
      var route := routes[i];
      var q' := q.(route := route);
      if !HasPrefix(q.path, route.path) then q'.(stage := AtRoute(i + 1))
      else if route.handler == "api/v1" || route.handler == "monitor" then q'.(stage := InHandler(i))
      else if route.handler == "file" && route.target.Some? then q'.(stage := InHandler(i))
      else if route.handler == "proxy" && route.target.Some? then q'.(stage := LookingUp)
      else q'.(stage := AtRoute(i + 1))
  }

  /** A step of one request; `parses` says which targets `url.Parse` accepts. */
  function RequestStep(routes: seq<Route>, parses: string -> bool, s: State, a: Action, q: Request): Option<Request> {
    match a
    case Loop(_) => if q.stage.AtRoute? then Some(LoopStep(routes, q, q.stage.i)) else None
    case Return(_, done) =>
      if q.stage.InHandler? && (q.route.handler == "monitor" ==> done == MonitorServes(q))
      then Some(if done then q.(stage := Finished(Handled))
                else q.(stage := AtRoute(q.stage.i + 1), refused := q.refused + {q.stage.i}))
      else None
    case Look(r) =>
      if q.stage.LookingUp? then Some(q.(stage := if r in s.proxies then Serving(s.proxies[r]) else Parsing)) else None
    case Parse(_) =>
      if q.stage.Parsing? && q.route.target.Some? then
        Some(q.(stage := if parses(q.route.target.value) then Inserting(Proxy(q.route.target.value))
                         else Finished(BadConfiguration)))
      else None
    case Insert(_) => if q.stage.Inserting? then Some(q.(stage := Serving(q.stage.proxy))) else None
    case Serve(_) => if q.stage.Serving? then Some(q.(stage := Finished(Proxied(q.stage.proxy)))) else None
    case Arrive(_, _, _) => None
  }

  function Step(routes: seq<Route>, parses: string -> bool, s: State, a: Action): Option<State> {
    if a.Arrive? then
      if a.r in s.reqs then None else Some(s.(reqs := s.reqs[a.r := Request(a.path, AtRoute(0), a.route, {})]))
    else if a.r !in s.reqs then None
    else
      match RequestStep(routes, parses, s, a, s.reqs[a.r])
      case None => None
      case Some(q) =>
        Some(State(s.reqs[a.r := q], if a.Insert? then s.proxies[a.r := s.reqs[a.r].stage.proxy] else s.proxies))
  }

  function Run(routes: seq<Route>, parses: string -> bool, actions: seq<Action>): Option<State> {
    if actions == [] then Some(INIT)
    else
      match Run(routes, parses, actions[..|actions| - 1])
      case None => None
      case Some(s) => Step(routes, parses, s, actions[|actions| - 1])
  }

  // ------------------------------------------------------------------- invariant

  /** The request has left the loop with a proxy route in its variable. */
  predicate Committed(q: Request) {
    q.stage.LookingUp? || q.stage.Parsing? || q.stage.Inserting? || q.stage.Serving?
    || (q.stage.Finished? && q.stage.outcome.Proxied?)
  }

  /** The proxy that a request holds, if any. */
  function ProxyOf(q: Request): Option<Proxy> {
    match q.stage
    case Inserting(p) => Some(p)
    case Serving(p) => Some(p)
    case Finished(Proxied(p)) => Some(p)
    case _ => None
  }

  /** A route that would send a request for this path to a proxy. */
  predicate Eligible(route: Route, path: string) {
    route.handler == "proxy" && route.target.Some? && HasPrefix(path, route.path)
  }

  predicate NoneBefore(routes: seq<Route>, path: string, i: nat) {
    forall j :: 0 <= j < i && j < |routes| ==> !Eligible(routes[j], path)
  }

  /** The request's route is the first eligible one of the configuration. */
  predicate FirstProxy(routes: seq<Route>, q: Request) {
    exists i :: 0 <= i < |routes| && routes[i] == q.route && Eligible(q.route, q.path) && NoneBefore(routes, q.path, i)
  }

  /** While it is in the loop, a request has passed no eligible route. */
  predicate NonePassed(routes: seq<Route>, q: Request) {
    match q.stage
    case AtRoute(i) => NoneBefore(routes, q.path, i)
    case InHandler(i) => NoneBefore(routes, q.path, i + 1)
    case Finished(Unmatched) => NoneBefore(routes, q.path, |routes|)
    case _ => true
  }

  /** The cache holds the proxy of a request once it is inserted, and nothing else. */
  predicate PastInsert(q: Request) {
    q.stage.Serving? || (q.stage.Finished? && q.stage.outcome.Proxied?)
  }

  /** One request and its entry in the cache, if it has one. */
  predicate Good(routes: seq<Route>, q: Request, cached: Option<Proxy>) {
    && NonePassed(routes, q)
    && (Committed(q) ==> FirstProxy(routes, q))
    && (ProxyOf(q).Some? ==> q.route.target == Some(ProxyOf(q).value.target))
    && (cached.Some? <==> PastInsert(q))
    && (cached.Some? ==> cached == ProxyOf(q))
  }

  function Cached(s: State, r: nat): Option<Proxy> {
    if r in s.proxies then Some(s.proxies[r]) else None
  }

  ghost predicate Inv(routes: seq<Route>, s: State) {
    && s.proxies.Keys <= s.reqs.Keys
    && forall r :: r in s.reqs ==> Good(routes, s.reqs[r], Cached(s, r))
  }

  lemma RequestKeeps(routes: seq<Route>, parses: string -> bool, s: State, a: Action, q: Request, q': Request)
    requires RequestStep(routes, parses, s, a, q) == Some(q') && Good(routes, q, Cached(s, a.r))
    ensures Good(routes, q', if a.Insert? then Some(q.stage.proxy) else Cached(s, a.r))
  {
  }

  lemma NewcomerGood(routes: seq<Route>, q: Request)
    requires q.stage == AtRoute(0)
    ensures Good(routes, q, None)
  {
  }

  lemma InvStep(routes: seq<Route>, parses: string -> bool, s: State, a: Action, s': State)
    requires Inv(routes, s) && Step(routes, parses, s, a) == Some(s')
    ensures Inv(routes, s')
  {
    hide RequestStep, Good;
    if a.Arrive? {
      NewcomerGood(routes, s'.reqs[a.r]);
      assert forall r :: r in s.reqs ==> Cached(s', r) == Cached(s, r) && s'.reqs[r] == s.reqs[r];
    } else {
      RequestKeeps(routes, parses, s, a, s.reqs[a.r], s'.reqs[a.r]);
      assert forall r :: r in s.reqs && r != a.r ==> Cached(s', r) == Cached(s, r) && s'.reqs[r] == s.reqs[r];
    }
  }

  lemma {:induction false} EveryRun(routes: seq<Route>, parses: string -> bool, actions: seq<Action>, s: State)
    requires Run(routes, parses, actions) == Some(s)
    ensures Inv(routes, s)
  {
    if actions != [] {
      var before := Run(routes, parses, actions[..|actions| - 1]).value;
      EveryRun(routes, parses, actions[..|actions| - 1], before);
      InvStep(routes, parses, before, actions[|actions| - 1], s);
    }
  }

  // ------------------------------------------------------------------- guarantees

  /** Under any interleaving of the two lock sections, every cached proxy was built from the target of the
      route that its key points at. A request is served by the proxy of the first eligible route, and is
      reported as unmatched only if there is none. */
  lemma ProxyMatchesRoute(routes: seq<Route>, parses: string -> bool, actions: seq<Action>, s: State, r: nat)
    requires Run(routes, parses, actions) == Some(s)
    ensures r in s.proxies ==> r in s.reqs && s.reqs[r].route.target == Some(s.proxies[r].target)
    ensures r in s.reqs && ProxyOf(s.reqs[r]).Some? ==>
              FirstProxy(routes, s.reqs[r]) && s.reqs[r].route.target == Some(ProxyOf(s.reqs[r]).value.target)
    ensures r in s.reqs && s.reqs[r].stage == Finished(Unmatched) ==> NoneBefore(routes, s.reqs[r].path, |routes|)
  {
    EveryRun(routes, parses, actions, s);
  }

  lemma KeyKept(routes: seq<Route>, parses: string -> bool, s: State, a: Action, s': State, r: nat)
    requires Inv(routes, s) && Step(routes, parses, s, a) == Some(s') && r in s.proxies
    ensures r in s'.proxies && s'.proxies[r] == s.proxies[r]
    ensures r in s.reqs && r in s'.reqs && s'.reqs[r].route == s.reqs[r].route
  {
  }

  lemma CachedForRequest(routes: seq<Route>, s: State, r: nat)
    requires Inv(routes, s) && r in s.proxies
    ensures r in s.reqs
  {
  }

  /** That rests on `serveProxy` ending the loop: once a key is in the cache, neither the route it points
      at nor its proxy changes in any continuation. */
  lemma {:induction false} KeyNeverChanges(routes: seq<Route>, parses: string -> bool, actions: seq<Action>, s: State,
                                           more: seq<Action>, s': State, r: nat)
    requires Run(routes, parses, actions) == Some(s) && Run(routes, parses, actions + more) == Some(s')
    requires r in s.proxies
    ensures r in s'.proxies && s'.proxies[r] == s.proxies[r]
    ensures r in s.reqs && r in s'.reqs && s'.reqs[r].route == s.reqs[r].route
  {
    hide Step, Inv;
    if more == [] {
      assert actions + more == actions;
      EveryRun(routes, parses, actions, s);
      CachedForRequest(routes, s, r);
    } else {
      var init, all := more[..|more| - 1], actions + more;
      assert all[..|all| - 1] == actions + init;
      var t := Run(routes, parses, actions + init).value;
      KeyNeverChanges(routes, parses, actions, s, init, t, r);
      EveryRun(routes, parses, actions + init, t);
      KeyKept(routes, parses, t, more[|more| - 1], s', r);
    }
  }

  /** A key is the loop variable of one request, so a lookup never finds anything: every proxied request
      builds a new proxy, and the cache holds one proxy for each of them. */
  lemma CacheNeverHits(routes: seq<Route>, parses: string -> bool, actions: seq<Action>, s: State, r: nat)
    requires Run(routes, parses, actions) == Some(s)
    ensures r in s.reqs && s.reqs[r].stage.LookingUp? ==> r !in s.proxies
    ensures s.proxies.Keys == set r' | r' in s.reqs && PastInsert(s.reqs[r'])
  {
    EveryRun(routes, parses, actions, s);
  }

  // ------------------------------------------------------------ which route serves

  /** A route whose handler is tried for this path. */
  predicate Tried(route: Route, path: string) {
    && HasPrefix(path, route.path)
    && (route.handler == "api/v1" || route.handler == "monitor" || (route.handler == "file" && route.target.Some?))
  }

  /** A route that takes the request: a proxy, or a handler that did not leave it to later ones. */
  predicate Takes(routes: seq<Route>, q: Request, j: nat) {
    j < |routes| && (Eligible(routes[j], q.path) || (Tried(routes[j], q.path) && j !in q.refused))
  }

  predicate NoneTakes(routes: seq<Route>, q: Request, i: nat) {
    forall j :: 0 <= j < i && j < |routes| ==> !Takes(routes, q, j)
  }

  /** Route `i` is in the loop variable, and it is the first that may take the request. */
  predicate Reached(routes: seq<Route>, q: Request, i: nat) {
    i < |routes| && q.route == routes[i] && NoneTakes(routes, q, i)
  }

  ghost predicate ReachedProxy(routes: seq<Route>, q: Request) {
    exists i: nat :: Reached(routes, q, i) && Eligible(routes[i], q.path)
  }

  ghost predicate ReachedHandler(routes: seq<Route>, q: Request) {
    exists i: nat :: Reached(routes, q, i) && Tried(routes[i], q.path) && i !in q.refused
  }

  /** Only handlers that were tried can refuse, and `serveMonitor` refuses exactly by the path. */
  predicate Refused(routes: seq<Route>, q: Request, bound: nat) {
    forall j :: j in q.refused ==>
      && j < bound && j < |routes| && Tried(routes[j], q.path)
      && (routes[j].handler == "monitor" ==> q.path != routes[j].path && q.path != routes[j].path + ".json")
  }

  ghost predicate Decided(routes: seq<Route>, parses: string -> bool, q: Request) {
    match q.stage
    case AtRoute(i) => NoneTakes(routes, q, i) && Refused(routes, q, i)
    case InHandler(i) => Reached(routes, q, i) && Tried(routes[i], q.path) && Refused(routes, q, i)
    case LookingUp => ReachedProxy(routes, q) && Refused(routes, q, |routes|)
    case Parsing => ReachedProxy(routes, q) && Refused(routes, q, |routes|)
    case Inserting(p) => ReachedProxy(routes, q) && Refused(routes, q, |routes|) && parses(p.target)
    case Serving(p) => ReachedProxy(routes, q) && Refused(routes, q, |routes|) && parses(p.target)
    case Finished(o) =>
      && Refused(routes, q, |routes|)
      && match o
         case Unmatched => NoneTakes(routes, q, |routes|)
         case Handled => ReachedHandler(routes, q) && (q.route.handler == "monitor" ==> MonitorServes(q))
         case BadConfiguration => ReachedProxy(routes, q) && q.route.target.Some? && !parses(q.route.target.value)
         case Proxied(p) => ReachedProxy(routes, q) && parses(p.target)
  }

  lemma LoopDecides(routes: seq<Route>, parses: string -> bool, q: Request, i: nat)
    requires q.stage == AtRoute(i) && Decided(routes, parses, q)
    ensures Decided(routes, parses, LoopStep(routes, q, i))
  {
    var q' := LoopStep(routes, q, i);
    assert forall j: nat :: Takes(routes, q', j) <==> Takes(routes, q, j);
    if i < |routes| {
      assert Reached(routes, q', i);
    }
  }

  lemma ReturnDecides(routes: seq<Route>, parses: string -> bool, q: Request, i: nat, done: bool)
    requires q.stage == InHandler(i) && Decided(routes, parses, q)
    requires q.route.handler == "monitor" ==> done == MonitorServes(q)
    ensures Decided(routes, parses, if done then q.(stage := Finished(Handled))
                                    else q.(stage := AtRoute(i + 1), refused := q.refused + {i}))
  {
    if done {
      var q' := q.(stage := Finished(Handled));
      assert forall j: nat :: Takes(routes, q', j) <==> Takes(routes, q, j);
      assert Reached(routes, q', i) && i !in q'.refused;
    } else {
      var q' := q.(stage := AtRoute(i + 1), refused := q.refused + {i});
      assert forall j: nat :: j < i ==> (Takes(routes, q', j) <==> Takes(routes, q, j));
      assert !Eligible(routes[i], q.path);
    }
  }

  /** From the lookup on only the stage changes. */
  lemma ProxyDecides(routes: seq<Route>, parses: string -> bool, q: Request, stage: Stage)
    requires ReachedProxy(routes, q) && Refused(routes, q, |routes|)
    ensures ReachedProxy(routes, q.(stage := stage)) && Refused(routes, q.(stage := stage), |routes|)
  {
    var i: nat :| Reached(routes, q, i) && Eligible(routes[i], q.path);
    var q' := q.(stage := stage);
    assert forall j: nat :: Takes(routes, q', j) <==> Takes(routes, q, j);
    assert Reached(routes, q', i);
  }

  lemma StepDecides(routes: seq<Route>, parses: string -> bool, s: State, a: Action, q: Request, q': Request)
    requires RequestStep(routes, parses, s, a, q) == Some(q') && Decided(routes, parses, q)
    requires Good(routes, q, Cached(s, a.r))
    ensures Decided(routes, parses, q')
  {
    hide LoopStep, ReachedProxy, ReachedHandler, Refused, Reached, NoneTakes, Tried;
    match a
    case Loop(_) => LoopDecides(routes, parses, q, q.stage.i);
    case Return(_, done) => ReturnDecides(routes, parses, q, q.stage.i, done);
    case _ => ProxyDecides(routes, parses, q, q'.stage);
  }

  lemma {:induction false} EveryRequestDecided(routes: seq<Route>, parses: string -> bool, actions: seq<Action>, s: State)
    requires Run(routes, parses, actions) == Some(s)
    ensures forall r :: r in s.reqs ==> Decided(routes, parses, s.reqs[r])
  {
    if actions != [] {
      hide Decided, RequestStep, Inv;
      var init, a := actions[..|actions| - 1], actions[|actions| - 1];
      var before := Run(routes, parses, init).value;
      EveryRequestDecided(routes, parses, init, before);
      EveryRun(routes, parses, init, before);
      if a.Arrive? {
        assert Decided(routes, parses, s.reqs[a.r]) by {
          NewcomerDecided(routes, parses, s.reqs[a.r]);
        }
      } else {
        InvGivesGood(routes, before, a.r);
        StepDecides(routes, parses, before, a, before.reqs[a.r], s.reqs[a.r]);
      }
    }
  }

  lemma NewcomerDecided(routes: seq<Route>, parses: string -> bool, q: Request)
    requires q.stage == AtRoute(0) && q.refused == {}
    ensures Decided(routes, parses, q)
  {
  }

  lemma InvGivesGood(routes: seq<Route>, s: State, r: nat)
    requires Inv(routes, s) && r in s.reqs
    ensures Good(routes, s.reqs[r], Cached(s, r))
  {
  }

  /** The first route that takes a request decides its outcome, and is in its loop variable: a handler handles it, a proxy
      route serves it by a proxy for its target, or reports the target if it does not parse. A request is
      unmatched exactly if no route takes it. */
  lemma FirstTakerDecides(routes: seq<Route>, parses: string -> bool, actions: seq<Action>, s: State, r: nat)
    requires Run(routes, parses, actions) == Some(s) && r in s.reqs && s.reqs[r].stage.Finished?
    ensures var q, o := s.reqs[r], s.reqs[r].stage.outcome;
            && (o.Unmatched? <==> forall j :: 0 <= j < |routes| ==> !Takes(routes, q, j))
            && forall i: nat :: Takes(routes, q, i) && (forall j :: 0 <= j < i ==> !Takes(routes, q, j)) ==>
                 && q.route == routes[i]
                 && (o == Handled <==> Tried(routes[i], q.path))
                 && (o == BadConfiguration <==> routes[i].handler == "proxy" && !parses(routes[i].target.value))
                 && (o.Proxied? <==> routes[i].handler == "proxy" && parses(routes[i].target.value))
                 && (o.Proxied? ==> o.proxy.target == routes[i].target.value)
  {
    EveryRequestDecided(routes, parses, actions, s);
    ProxyMatchesRoute(routes, parses, actions, s, r);
    var q := s.reqs[r];
    if i: nat :| Reached(routes, q, i) && Takes(routes, q, i) {
      OnlyFirst(routes, q, i);
    }
  }

  lemma OnlyFirst(routes: seq<Route>, q: Request, i: nat)
    requires Reached(routes, q, i) && Takes(routes, q, i)
    ensures forall k: nat :: Takes(routes, q, k) && (forall j :: 0 <= j < k ==> !Takes(routes, q, j)) ==> k == i
  {
  }

  /** A handler is passed over only if it was tried and refused; `serveMonitor` refuses every path but its own. */
  lemma RefusalsJustified(routes: seq<Route>, parses: string -> bool, actions: seq<Action>, s: State, r: nat, j: nat)
    requires Run(routes, parses, actions) == Some(s) && r in s.reqs && j in s.reqs[r].refused
    ensures j < |routes| && Tried(routes[j], s.reqs[r].path)
    ensures routes[j].handler == "monitor" ==>
              s.reqs[r].path != routes[j].path && s.reqs[r].path != routes[j].path + ".json"
  {
    EveryRequestDecided(routes, parses, actions, s);
  }

  /** The own steps that a request still has to make, at most. */
  function StepsLeft(routes: seq<Route>, q: Request): nat {
    match q.stage
    case AtRoute(i) => 6 + if i < |routes| then 2 * (|routes| - i) else 0
    case InHandler(i) => 5 + if i < |routes| then 2 * (|routes| - i) else 0
    case LookingUp => 4
    case Parsing => 3
    case Inserting(_) => 2
    case Serving(_) => 1
    case Finished(_) => 0
  }

  /** The next step of a request; `serveMonitor` decides by the path, and so may any other handler. */
  function NextStep(q: Request, r: nat): Action {
    match q.stage
    case AtRoute(_) => Loop(r)
    case InHandler(_) => Return(r, MonitorServes(q))
    case LookingUp => Look(r)
    case Parsing => Parse(r)
    case Inserting(_) => Insert(r)
    case _ => Serve(r)
  }

  lemma NextStepEnabled(routes: seq<Route>, parses: string -> bool, s: State, r: nat)
    requires Inv(routes, s) && r in s.reqs && !s.reqs[r].stage.Finished?
    ensures Step(routes, parses, s, NextStep(s.reqs[r], r)).Some?
  {
    hide NonePassed, MonitorServes;
    InvGivesGood(routes, s, r);
    hide Inv, LoopStep;
    assert s.reqs[r].stage.Parsing? ==> s.reqs[r].route.target.Some?;
  }

  lemma StepShortens(routes: seq<Route>, parses: string -> bool, s: State, a: Action, q: Request, q': Request)
    requires RequestStep(routes, parses, s, a, q) == Some(q')
    requires q.stage.InHandler? ==> q.stage.i < |routes|
    ensures StepsLeft(routes, q') < StepsLeft(routes, q)
  {
    hide MonitorServes, HasPrefix;
  }

  lemma StepAdvances(routes: seq<Route>, parses: string -> bool, s: State, a: Action, s': State, r: nat)
    requires Step(routes, parses, s, a) == Some(s') && r in s.reqs
    requires s.reqs[r].stage.InHandler? ==> s.reqs[r].stage.i < |routes|
    ensures r in s'.reqs
    ensures if a.r == r then StepsLeft(routes, s'.reqs[r]) < StepsLeft(routes, s.reqs[r]) else s'.reqs[r] == s.reqs[r]
  {
    hide RequestStep, StepsLeft;
    if a.r == r {
      StepShortens(routes, parses, s, a, s.reqs[r], s'.reqs[r]);
    }
  }

  lemma HandlerInRange(routes: seq<Route>, parses: string -> bool, q: Request)
    requires Decided(routes, parses, q)
    ensures q.stage.InHandler? ==> q.stage.i < |routes|
  {
  }

  /** A request can arrive at any time, and starts at the first route. */
  lemma ArrivalStarts(routes: seq<Route>, parses: string -> bool, s: State, r: nat, path: string, route: Route)
    requires r !in s.reqs
    ensures Step(routes, parses, s, Arrive(r, path, route))
         == Some(s.(reqs := s.reqs[r := Request(path, AtRoute(0), route, {})]))
  {
  }

  /** Every request ends: as long as it has not, it has a step whatever the others do, and each of its steps
      brings it nearer to its end. Steps of others do not touch it. */
  lemma RequestAdvances(routes: seq<Route>, parses: string -> bool, actions: seq<Action>, s: State, r: nat)
    requires Run(routes, parses, actions) == Some(s) && r in s.reqs
    ensures !s.reqs[r].stage.Finished? ==> Step(routes, parses, s, NextStep(s.reqs[r], r)).Some?
    ensures forall a: Action, s' :: Step(routes, parses, s, a) == Some(s') ==>
              r in s'.reqs && if a.r == r then StepsLeft(routes, s'.reqs[r]) < StepsLeft(routes, s.reqs[r])
                              else s'.reqs[r] == s.reqs[r]
  {
    hide Inv, Decided, Step, StepsLeft, NextStep, Run;
    EveryRun(routes, parses, actions, s);
    EveryRequestDecided(routes, parses, actions, s);
    HandlerInRange(routes, parses, s.reqs[r]);
    if !s.reqs[r].stage.Finished? {
      NextStepEnabled(routes, parses, s, r);
    }
    forall a: Action, s' | Step(routes, parses, s, a) == Some(s')
      ensures r in s'.reqs
      ensures if a.r == r then StepsLeft(routes, s'.reqs[r]) < StepsLeft(routes, s.reqs[r]) else s'.reqs[r] == s.reqs[r]
    {
      StepAdvances(routes, parses, s, a, s', r);
    }
  }
}
