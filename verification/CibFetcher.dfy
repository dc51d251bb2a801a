/** The fetcher goroutine and the subscription callback of `AsyncCib.Start` (main.go), on top of the
    publish protocol. go-pacemaker is an environment of which three things are assumed: a failed
    `Subscribe` gives no callbacks, callbacks run one at a time, and no update follows a lost-connection
    event until the next successful `Subscribe`. */
module CibFetcher {
  import opened Common
  import opened CibProtocol

  /** The two goroutines that call `notifyNewCib`. */
  const FETCHER: nat := 0
  const CALLBACK: nat := 1

  /** The fetcher, by what it does next; subscriptions are numbered, and each has its own waiter channel. */
  datatype Fetcher = Opening | Querying | Publishing | Subscribing | Subscribed(gen: nat) | Waiting(gen: nat)

  /** The callback: at rest, inside `notifyNewCib`, or blocked sending on the waiter of its subscription. */
  datatype Callback = Quiet | Updating | Losing(gen: nat)

  /** `live`: a subscription exists and no lost-connection event followed it. */
  datatype System = System(core: State, fetcher: Fetcher, callback: Callback, live: bool, gen: nat)

  const START := System(INIT, Opening, Quiet, false, 0)

  datatype Event =
    | OpenFails
    | OpenSucceeds
    | QueryFails
    | QuerySucceeds(doc: Doc)
    | QueryPublished
    | SubscribeFails
    | SubscribeSucceeds
    | FetcherWaits
    | Update(doc: Doc)
    | UpdatePublished
    | Lost(gen: nat)
    | LostDelivered
    | Core(action: Action)

  /** One step of the publish protocol. */
  function CoreStep(y: System, a: Action): Option<System> {
    match Step(y.core, a)
    case None => None
    case Some(core) => Some(y.(core := core))
  }

  /** The loop of `cibFetcher`. A connection that was opened is never given up, so the outer loop
      is left for good after the first successful `OpenCib`. */
  function FetcherStep(y: System, e: Event): Option<System> {
    match e
    case OpenFails => if y.fetcher.Opening? then Some(y) else None
    case OpenSucceeds => if y.fetcher.Opening? then Some(y.(fetcher := Querying)) else None
    case QueryFails => if y.fetcher.Querying? then Some(y.(fetcher := Subscribing)) else None
    case QuerySucceeds(d) =>
      if y.fetcher.Querying? then CoreStep(y.(fetcher := Publishing), Publish(FETCHER, d)) else None
    case QueryPublished =>
      if y.fetcher.Publishing? && FETCHER !in y.core.pubs then Some(y.(fetcher := Subscribing)) else None
    case SubscribeFails => if y.fetcher.Subscribing? then Some(y.(fetcher := Querying)) else None
    case SubscribeSucceeds =>
      if y.fetcher.Subscribing? then Some(y.(fetcher := Subscribed(y.gen + 1), gen := y.gen + 1, live := true))
      else None
    case FetcherWaits => if y.fetcher.Subscribed? then Some(y.(fetcher := Waiting(y.fetcher.gen))) else None
    case _ => None
  }

  /** Events of go-pacemaker. A lost-connection event may be repeated, and may reach the callback of an
      older subscription, whose waiter nobody reads any more. */
  function CallbackStep(y: System, e: Event): Option<System> {
    match e
    case Update(d) =>
      if y.callback.Quiet? && y.live then CoreStep(y.(callback := Updating), Publish(CALLBACK, d)) else None
    case UpdatePublished =>
      if y.callback.Updating? && CALLBACK !in y.core.pubs then Some(y.(callback := Quiet)) else None
    case Lost(g) =>
      if y.callback.Quiet? && 0 < g <= y.gen then Some(y.(callback := Losing(g), live := false)) else None
    case LostDelivered =>
      if y.callback.Losing? && y.fetcher == Waiting(y.callback.gen)
      then Some(y.(callback := Quiet, fetcher := Querying)) else None
    case _ => None
  }

  function Next(y: System, e: Event): Option<System> {
    match e
    case Core(a) =>
      if a.Publish? then None else CoreStep(y, a)
    case Update(_) => CallbackStep(y, e)
    case UpdatePublished => CallbackStep(y, e)
    case Lost(_) => CallbackStep(y, e)
    case LostDelivered => CallbackStep(y, e)
    case _ => FetcherStep(y, e)
  }

  function Trace(y0: System, events: seq<Event>): Option<System> {
    if events == [] then Some(y0)
    else
      match Trace(y0, events[..|events| - 1])
      case None => None
      case Some(y) => Next(y, events[|events| - 1])
  }

  // ------------------------------------------------------------------- invariants

  /** Who may be publishing, and when updates may come. */
  ghost predicate Turns(y: System) {
    && (forall p :: p in y.core.pubs ==> (p == FETCHER && y.fetcher.Publishing?) || (p == CALLBACK && y.callback.Updating?))
    && (y.callback.Updating? ==> y.live)
    && (y.live ==> y.fetcher.Subscribed? || y.fetcher.Waiting?)
    && (y.fetcher.Subscribed? || y.fetcher.Waiting? ==> y.fetcher.gen == y.gen)
    && (y.callback.Losing? ==> y.callback.gen < y.gen || (y.callback.gen == y.gen && !y.live))
  }

  predicate Solo(s: State) {
    forall p, q :: p in s.pubs && q in s.pubs ==> p == q
  }

  /** A publisher that has stored is the last one to have stored, and no answer is older than what the
      request had read. */
  ghost predicate Fresh(s: State) {
    && (forall p :: p in s.pubs && Stored(s.pubs[p]) ==> s.pubs[p].pos == |s.history|)
    && (forall c :: c in s.reqs && s.reqs[c].Done? && s.reqs[c].outcome.Replied? ==>
          s.reqs[c].seen.pos <= s.reqs[c].outcome.pos)
  }

  /** An owed request that got a reply got it from the publisher that owed it. */
  ghost predicate OwnReply(s: State) {
    forall p, c :: p in s.pubs && Looping(s.pubs[p]) && c in s.pubs[p].owed && GotReply(s, c) ==>
      s.reqs[c].outcome.pos == s.pubs[p].pos
  }

  lemma TurnsStep(y: System, e: Event, y': System)
    requires Turns(y) && Next(y, e) == Some(y')
    ensures Turns(y')
  {
    if e.Core? {
      PublishersOnlyLeave(y.core, e.action, y'.core);
    } else {
      hide Step;
      assert e.QuerySucceeds? || e.Update? || y'.core == y.core;
    }
  }

  lemma PublishersOnlyLeave(s: State, a: Action, s': State)
    requires !a.Publish? && Step(s, a) == Some(s')
    ensures s'.pubs.Keys <= s.pubs.Keys
  {
  }

  lemma TurnsGiveSolo(y: System)
    requires Turns(y)
    ensures Solo(y.core)
  {
  }

  lemma FreshStep(s: State, a: Action, s': State)
    requires Solo(s) && AnswerInv(s) && Fresh(s) && Step(s, a) == Some(s')
    ensures Fresh(s')
  {
  }

  lemma OwnReplyStep(s: State, a: Action, s': State)
    requires Solo(s) && OwnReply(s) && Step(s, a) == Some(s')
    ensures OwnReply(s')
  {
  }

  /** In every reachable state at most one `notifyNewCib` is active, and the invariants of the
      protocol hold together with freshness. */
  lemma {:induction false} EveryTrace(events: seq<Event>, y: System)
    requires Trace(START, events) == Some(y)
    ensures Inv(y.core) && Turns(y) && Solo(y.core) && Fresh(y.core) && OwnReply(y.core)
  {
    if events == [] {
      EveryRun([], INIT);
    } else {
      hide Next, Inv, Turns, Solo, Fresh, OwnReply;
      var init, e := events[..|events| - 1], events[|events| - 1];
      var before := Trace(START, init).value;
      EveryTrace(init, before);
      TurnsStep(before, e, y);
      TurnsGiveSolo(y);
      CoreKept(before, e, y);
    }
  }

  /** The step of the publish protocol that an event makes, if any. */
  function ActionOf(e: Event): Option<Action> {
    match e
    case Core(a) => Some(a)
    case Update(d) => Some(Publish(CALLBACK, d))
    case QuerySucceeds(d) => Some(Publish(FETCHER, d))
    case _ => None
  }

  lemma CoreKept(y: System, e: Event, y': System)
    requires Inv(y.core) && Solo(y.core) && Fresh(y.core) && OwnReply(y.core) && Next(y, e) == Some(y')
    ensures Inv(y'.core) && Fresh(y'.core) && OwnReply(y'.core)
  {
    hide Step, Inv, Solo, Fresh, OwnReply;
    match ActionOf(e) {
      case None =>
        assert y'.core == y.core;
      case Some(a) =>
        assert Step(y.core, a) == Some(y'.core);
        InvStep(y.core, a, y'.core);
        InvGivesAnswers(y.core);
        FreshStep(y.core, a, y'.core);
        OwnReplyStep(y.core, a, y'.core);
    }
  }

  lemma InvGivesAnswers(s: State)
    requires Inv(s)
    ensures AnswerInv(s)
  {
  }

  /** At most one `notifyNewCib` is active at any time. */
  lemma OnePublisherAtATime(events: seq<Event>, y: System, p: nat, q: nat)
    requires Trace(START, events) == Some(y) && p in y.core.pubs && q in y.core.pubs
    ensures p == q
  {
    EveryTrace(events, y);
  }

  /** Each `/monitor` answer is a version no older, in store order, than the one that the request had
      read: either that one itself, or a stored one that came with the reply. */
  lemma AnswersAreFresh(events: seq<Event>, y: System, c: nat)
    requires Trace(START, events) == Some(y) && c in y.core.reqs && y.core.reqs[c].Done?
    ensures var r := y.core.reqs[c];
            match r.outcome
            case Replied(pos) =>
              && 0 < pos <= |y.core.history| && r.seen.pos <= pos
              && r.answer == y.core.history[pos - 1].version
            case _ => r.answer == r.seen.value
  {
    EveryTrace(events, y);
  }

  /** With one publisher, when a publication ends, every request that was offering when its draining began
      has timed out or been answered with the very version that was published. */
  lemma DrainFinishesAll(events: seq<Event>, y: System, e: Event, y': System, p: nat)
    requires Trace(START, events) == Some(y) && Next(y, e) == Some(y') && p in y.core.pubs && p !in y'.core.pubs
    ensures y.core.pubs[p].Draining?
    ensures forall c :: c in y.core.pubs[p].owed ==>
              && c in y.core.reqs && y.core.reqs[c].Done?
              && (y.core.reqs[c].outcome.TimedOut? || y.core.reqs[c].answer == y.core.pubs[p].doc.version)
  {
    EveryTrace(events, y);
    assert e.Core?;
    LastStepLeaves(y.core, e.action, y'.core, p);
    DrainedOut(y.core, p);
  }

  lemma LastStepLeaves(s: State, a: Action, s': State, p: nat)
    requires Step(s, a) == Some(s') && p in s.pubs && p !in s'.pubs
    ensures s.pubs[p].Draining? && Offers(s) == {}
  {
  }

  lemma DrainedOut(s: State, p: nat)
    requires Inv(s) && Solo(s) && OwnReply(s) && p in s.pubs && s.pubs[p].Draining? && Offers(s) == {}
    ensures forall c :: c in s.pubs[p].owed ==>
              c in s.reqs && s.reqs[c].Done? && (s.reqs[c].outcome.TimedOut? || s.reqs[c].answer == s.pubs[p].doc.version)
  {
    hide Step;
    assert forall c :: c in s.reqs && s.reqs[c].Offering? ==> c in Offers(s);
  }

  /** With one publisher, at most one document can have been stored since a request began to offer, and
      only while its publication is still running. */
  lemma AtMostOneMissed(events: seq<Event>, y: System, c: nat)
    requires Trace(START, events) == Some(y) && c in y.core.reqs && y.core.reqs[c].Offering?
    ensures var offered := y.core.reqs[c].offered;
            |y.core.history| == offered || (|y.core.history| == offered + 1 && StillRunning(y.core, offered + 1))
  {
    EveryTrace(events, y);
    OneRunning(y.core, c);
  }

  lemma OneRunning(s: State, c: nat)
    requires Solo(s) && OfferInv(s) && c in s.reqs && s.reqs[c].Offering?
    ensures |s.history| <= s.reqs[c].offered + 1
  {
    hide Step, Solo, StillRunning;
    if |s.history| > s.reqs[c].offered + 1 {
      SamePosition(s, |s.history|, |s.history| - 1);
    }
  }

  lemma SamePosition(s: State, i: nat, j: nat)
    requires Solo(s) && StillRunning(s, i) && StillRunning(s, j)
    ensures i == j
  {
  }

  // ------------------------------------------------------------ the order of events

  /** The events of the fetcher's own loop. */
  predicate IsFetcherEvent(e: Event) {
    !e.Update? && !e.UpdatePublished? && !e.Lost? && !e.Core?
  }

  /** The last event of the fetcher's loop; before any, it is as if opening had failed. */
  function LastEvent(events: seq<Event>): Event {
    if events == [] then OpenFails
    else if IsFetcherEvent(events[|events| - 1]) then events[|events| - 1]
    else LastEvent(events[..|events| - 1])
  }

  /** What the loop does after an event: it opens the CIB until that succeeds; then it queries, publishes what it
      gets, and subscribes, whether or not the query succeeded; if subscribing failed it starts over with a
      query, otherwise it waits, and starts over when a loss is delivered. */
  predicate Follows(last: Event, e: Event) {
    match e
    case OpenFails => last.OpenFails?
    case OpenSucceeds => last.OpenFails?
    case QueryFails => last.OpenSucceeds? || last.SubscribeFails? || last.LostDelivered?
    case QuerySucceeds(_) => last.OpenSucceeds? || last.SubscribeFails? || last.LostDelivered?
    case QueryPublished => last.QuerySucceeds?
    case SubscribeFails => last.QueryFails? || last.QueryPublished?
    case SubscribeSucceeds => last.QueryFails? || last.QueryPublished?
    case FetcherWaits => last.SubscribeSucceeds?
    case LostDelivered => last.FetcherWaits?
    case _ => false
  }

  /** Where the loop is after an event. */
  predicate StageAfter(last: Event, f: Fetcher) {
    match f
    case Opening => last.OpenFails?
    case Querying => last.OpenSucceeds? || last.SubscribeFails? || last.LostDelivered?
    case Publishing => last.QuerySucceeds?
    case Subscribing => last.QueryFails? || last.QueryPublished?
    case Subscribed(_) => last.SubscribeSucceeds?
    case Waiting(_) => last.FetcherWaits?
  }

  /** The number of subscriptions so far. */
  function Subscriptions(events: seq<Event>): nat {
    if events == [] then 0
    else Subscriptions(events[..|events| - 1]) + if events[|events| - 1].SubscribeSucceeds? then 1 else 0
  }

  lemma {:induction false} StageKept(events: seq<Event>, y: System)
    requires Trace(START, events) == Some(y)
    ensures StageAfter(LastEvent(events), y.fetcher) && y.gen == Subscriptions(events)
  {
    if events != [] {
      hide Step;
      var init, e := events[..|events| - 1], events[|events| - 1];
      StageKept(init, Trace(START, init).value);
    }
  }

  /** In every trace the next event of the fetcher is exactly one that follows its last one. A publication must have
      ended before the fetcher goes on, and only the loss of the newest subscription is delivered. */
  lemma LoopOrderExactly(events: seq<Event>, y: System, e: Event)
    requires Trace(START, events) == Some(y) && IsFetcherEvent(e)
    ensures Next(y, e).Some? <==>
            && Follows(LastEvent(events), e)
            && (e.QueryPublished? ==> FETCHER !in y.core.pubs)
            && (e.LostDelivered? ==> y.callback == Losing(Subscriptions(events)))
  {
    StageKept(events, y);
    EveryTrace(events, y);
    hide Inv, Fresh, OwnReply;
  }

  predicate IsQuery(e: Event) {
    e.QueryFails? || e.QuerySucceeds?
  }

  predicate IsSubscribe(e: Event) {
    e.SubscribeFails? || e.SubscribeSucceeds?
  }

  /** If nothing has been subscribed since some query, the fetcher has not got beyond subscribing. */
  lemma {:induction false} NotPastSubscribing(events: seq<Event>, y: System, i: nat)
    requires Trace(START, events) == Some(y) && i < |events| && IsQuery(events[i])
    requires forall k :: i < k < |events| ==> !IsSubscribe(events[k])
    ensures y.fetcher.Publishing? || y.fetcher.Subscribing?
  {
    hide Step;
    var init, e := events[..|events| - 1], events[|events| - 1];
    if i < |init| {
      NotPastSubscribing(init, Trace(START, init).value, i);
    }
  }

  /** Between any two queries there is an attempt to subscribe. */
  lemma QueriesAlternate(events: seq<Event>, i: nat, j: nat)
    requires Trace(START, events).Some? && i < j < |events| && IsQuery(events[i]) && IsQuery(events[j])
    ensures exists k :: i < k < j && IsSubscribe(events[k])
  {
    hide Step;
    TracePrefix(events, j + 1);
    TracePrefix(events, j);
    assert events[..j + 1][..j] == events[..j];
    if forall k :: i < k < j ==> !IsSubscribe(events[k]) {
      NotPastSubscribing(events[..j], Trace(START, events[..j]).value, i);
      assert false;
    }
  }

  lemma {:induction false} TracePrefix(events: seq<Event>, n: nat)
    requires Trace(START, events).Some? && n <= |events|
    ensures Trace(START, events[..n]).Some?
  {
    if n == |events| {
      assert events[..n] == events;
    } else {
      var init := events[..|events| - 1];
      TracePrefix(init, n);
      assert init[..n] == events[..n];
    }
  }

  /** What an event publishes: a query or an update starts the publication of its document, and nothing else does. */
  lemma EventPublishes(events: seq<Event>, y: System, e: Event, y': System, p: nat)
    requires Trace(START, events) == Some(y) && Next(y, e) == Some(y')
    ensures p !in y.core.pubs && p in y'.core.pubs <==>
            (p == 0 && e.QuerySucceeds?) || (p == 1 && e.Update?)
    ensures e.QuerySucceeds? ==> y'.core == y.core.(pubs := y.core.pubs[0 := Locking(e.doc)])
    ensures e.Update? ==> y'.core == y.core.(pubs := y.core.pubs[1 := Locking(e.doc)])
  {
    EveryTrace(events, y);
    hide Inv, Fresh, OwnReply;
    if e.Core? {
      PublishersOnlyLeave(y.core, e.action, y'.core);
    }
  }

  /** Once a query has been published, a subscription can succeed, and from then on updates come through, unless the
      callback is still blocked on the loss of an older subscription. */
  lemma SubscriptionFollows(events: seq<Event>, y: System, y': System, d: Doc)
    requires Trace(START, events) == Some(y) && Next(y, QueryPublished) == Some(y')
    ensures Next(y', SubscribeSucceeds).Some?
    ensures var y2 := Next(y', SubscribeSucceeds).value;
            Next(y2, Update(d)).Some? <==> y.callback.Quiet?
  {
    EveryTrace(events, y);
    hide Inv, Fresh, OwnReply;
  }

  predicate IsCallbackEvent(e: Event) {
    e.Update? || e.UpdatePublished? || e.Lost? || e.LostDelivered?
  }

  /** The last event of the callback; before any, it is as if an update had been published. */
  function LastCallback(events: seq<Event>): Event {
    if events == [] then UpdatePublished
    else if IsCallbackEvent(events[|events| - 1]) then events[|events| - 1]
    else LastCallback(events[..|events| - 1])
  }

  /** The callback has returned. */
  predicate AtRest(last: Event) {
    last.UpdatePublished? || last.LostDelivered?
  }

  lemma {:induction false} CallbackKept(events: seq<Event>, y: System)
    requires Trace(START, events) == Some(y)
    ensures y.live == Live(events)
    ensures match y.callback
            case Quiet => AtRest(LastCallback(events))
            case Updating => LastCallback(events).Update?
            case Losing(g) => LastCallback(events) == Lost(g)
  {
    if events != [] {
      hide Step;
      var init, e := events[..|events| - 1], events[|events| - 1];
      CallbackKept(init, Trace(START, init).value);
    }
  }

  /** Callbacks run one at a time. An update can come exactly if no loss was reported since the last subscription; a
      loss may concern any subscription so far; a callback ends with its publication, or when its loss is
      received. */
  lemma CallbackOrderExactly(events: seq<Event>, y: System, e: Event)
    requires Trace(START, events) == Some(y) && IsCallbackEvent(e)
    ensures Next(y, e).Some? <==>
            var last := LastCallback(events);
            match e
            case Update(_) => AtRest(last) && Live(events)
            case UpdatePublished => last.Update? && CALLBACK !in y.core.pubs
            case Lost(g) => AtRest(last) && 0 < g <= Subscriptions(events)
            case _ => last == Lost(Subscriptions(events)) && LastEvent(events).FetcherWaits?
  {
    CallbackKept(events, y);
    StageKept(events, y);
    EveryTrace(events, y);
    hide Inv, Fresh, OwnReply, Step;
    NothingBlocksPublish(y);
  }

  lemma NothingBlocksPublish(y: System)
    requires Turns(y)
    ensures y.callback.Quiet? ==> forall d :: Step(y.core, Publish(CALLBACK, d)).Some?
  {
  }

  predicate Live(events: seq<Event>) {
    if events == [] then false
    else
      match events[|events| - 1]
      case SubscribeSucceeds => true
      case Lost(_) => false
      case _ => Live(events[..|events| - 1])
  }

  /** A publication by one of the two goroutines, with nobody waiting. */
  lemma PublishQuietly(events: seq<Event>, y: System, p: nat, d: Doc)
    returns (events': seq<Event>, y': System)
    requires Trace(START, events) == Some(y) && y.core.lock.Free? && y.core.reqs == map[]
    requires y.core.pubs == map[p := Locking(d)]
    ensures Trace(START, events') == Some(y')
    ensures y' == y.(core := y.core.(text := d.text, version := Some(d.version), pubs := map[], history := y.core.history + [d]))
  {
    hide Trace;
    events', y' := Continue(START, events, y, Core(Store(p)));
    events', y' := Continue(START, events', y', Core(Store(p)));
    events', y' := Continue(START, events', y', Core(Store(p)));
    events', y' := Continue(START, events', y', Core(Store(p)));
    events', y' := Continue(START, events', y', Core(Leave(p)));
    assert y'.core.pubs == map[];
  }

  /** The ordinary course: the first document comes from the query, the next ones from updates, and a loss that is
      received makes the fetcher query again. */
  lemma FeedWorks(d1: Doc, d2: Doc, d3: Doc) returns (events: seq<Event>, y: System)
    ensures Trace(START, events) == Some(y)
    ensures y.core.history == [d1, d2, d3] && y.core.text == d3.text && y.core.version == Some(d3.version)
    ensures y.fetcher == Waiting(2) && y.callback == Quiet
  {
    hide Trace;
    events, y := NoEvents();
    events, y := Continue(START, events, y, OpenSucceeds);
    events, y := Cycle(events, y, d1);
    events, y := Continue(START, events, y, Update(d2));
    events, y := PublishQuietly(events, y, CALLBACK, d2);
    events, y := Continue(START, events, y, UpdatePublished);
    events, y := Continue(START, events, y, Lost(1));
    events, y := Continue(START, events, y, LostDelivered);
    events, y := Cycle(events, y, d3);
  }

  /** One turn of the fetcher's loop, from the query to the wait. */
  lemma Cycle(events: seq<Event>, y: System, d: Doc) returns (events': seq<Event>, y': System)
    requires Trace(START, events) == Some(y) && y.fetcher.Querying?
    requires y.core.lock.Free? && y.core.reqs == map[] && y.core.pubs == map[]
    ensures Trace(START, events') == Some(y')
    ensures y' == y.(core := y.core.(text := d.text, version := Some(d.version), history := y.core.history + [d]),
                     fetcher := Waiting(y.gen + 1), gen := y.gen + 1, live := true)
  {
    hide Trace;
    events', y' := Continue(START, events, y, QuerySucceeds(d));
    events', y' := PublishQuietly(events', y', FETCHER, d);
    events', y' := Continue(START, events', y', QueryPublished);
    events', y' := Continue(START, events', y', SubscribeSucceeds);
    events', y' := Continue(START, events', y', FetcherWaits);
  }

  // -------------------------------------------------------------- lost connections

  /** The callback reports a loss on a waiter that the fetcher does not receive from, now or next. */
  predicate Stuck(y: System) {
    && y.callback.Losing?
    && !(y.callback.gen == y.gen && (y.fetcher.Subscribed? || y.fetcher.Waiting?))
  }

  predicate Deliverable(y: System, more: seq<Event>) {
    Trace(y, more).Some? && Next(Trace(y, more).value, LostDelivered).Some?
  }

  /** A reported loss is received, now or once the fetcher has reached its wait, if and only if it was
      reported on the current subscription and the fetcher has not left that subscription. */
  lemma LossHeardExactly(events: seq<Event>, y: System)
    requires Trace(START, events) == Some(y) && y.callback.Losing?
    ensures (exists more :: Deliverable(y, more)) <==> !Stuck(y)
    ensures !Stuck(y) ==> Deliverable(y, if y.fetcher.Waiting? then [] else [FetcherWaits])
  {
    hide Next;
    EveryTrace(events, y);
    if Stuck(y) {
      forall more | Trace(y, more).Some? ensures !Deliverable(y, more) {
        StuckForever(y, more, Trace(y, more).value);
      }
    } else {
      WaitThenDeliver(y);
    }
  }

  lemma WaitThenDeliver(y: System)
    requires Turns(y) && y.callback.Losing? && !Stuck(y)
    ensures Deliverable(y, if y.fetcher.Waiting? then [] else [FetcherWaits])
  {
    assert [FetcherWaits][..0] == [];
  }

  lemma StuckStep(y: System, e: Event, y': System)
    requires Turns(y) && Stuck(y) && Next(y, e) == Some(y')
    ensures y'.callback == y.callback && Stuck(y') && Turns(y')
    ensures !e.Update? && !e.LostDelivered?
  {
    TurnsStep(y, e, y');
    hide Step;
  }

  lemma {:induction false} StuckForever(y: System, more: seq<Event>, y': System)
    requires Turns(y) && Stuck(y) && Trace(y, more) == Some(y')
    ensures y'.callback == y.callback && Stuck(y') && Turns(y')
    ensures Next(y', LostDelivered).None? && forall d :: Next(y', Update(d)).None?
  {
    if more != [] {
      var init := more[..|more| - 1];
      var before := Trace(y, init).value;
      StuckForever(y, init, before);
      StuckStep(before, more[|more| - 1], y');
    }
  }

  /** Otherwise the callback stays blocked in every continuation: the loss is never received and no update
      is ever published again, whatever the fetcher does. */
  lemma BlockedForGood(events: seq<Event>, y: System, more: seq<Event>, y': System)
    requires Trace(START, events) == Some(y) && Stuck(y) && Trace(y, more) == Some(y')
    ensures y'.callback == y.callback && CALLBACK !in y'.core.pubs
    ensures forall d :: Next(y', Update(d)).None?
  {
    EveryTrace(events, y);
    StuckForever(y, more, y');
  }

  predicate Deaf(y: System) {
    Stuck(y) && (y.fetcher.Subscribed? || y.fetcher.Waiting?)
  }

  lemma DeafStep(y: System, e: Event, y': System)
    requires Turns(y) && Deaf(y) && Next(y, e) == Some(y')
    ensures Deaf(y') && y'.core.pubs == map[]
    ensures y'.core.history == y.core.history && y'.core.text == y.core.text && y'.core.version == y.core.version
  {
    StuckStep(y, e, y');
    assert y.core.pubs == map[] && y'.core.pubs == map[];
    if e.Core? {
      NobodyStores(y.core, e.action, y'.core);
    } else {
      hide Step;
    }
  }

  lemma NobodyStores(s: State, a: Action, s': State)
    requires s.pubs == map[] && Step(s, a) == Some(s') && s'.pubs == map[]
    ensures s'.history == s.history && s'.text == s.text && s'.version == s.version
  {
  }

  /** If moreover the fetcher has subscribed again, it waits for good as well, and nothing is ever published
      again: every later read returns the last document stored. */
  lemma {:induction false} FeedIsDead(events: seq<Event>, y: System, more: seq<Event>, y': System)
    requires Trace(START, events) == Some(y) && Deaf(y) && Trace(y, more) == Some(y')
    ensures Deaf(y') && y'.core.pubs == map[]
    ensures y'.core.history == y.core.history && y'.core.text == y.core.text && y'.core.version == y.core.version
  {
    EveryTrace(events, y);
    if more == [] {
      assert y.core.pubs == map[];
    } else {
      var init := more[..|more| - 1];
      var before := Trace(y, init).value;
      FeedIsDead(events, y, init, before);
      StuckForever(y, init, before);
      DeafStep(before, more[|more| - 1], y');
    }
  }

  lemma Continue(y0: System, events: seq<Event>, y: System, e: Event)
    returns (events': seq<Event>, y': System)
    requires Trace(y0, events) == Some(y) && Next(y, e).Some?
    ensures Trace(y0, events') == Some(y') && Next(y, e) == Some(y')
  {
    events', y' := events + [e], Next(y, e).value;
    assert events'[..|events|] == events;
  }

  lemma NoEvents() returns (events: seq<Event>, y: System)
    ensures y == START && Trace(START, events) == Some(y)
  {
    events, y := [], START;
  }

  /** Such a state is reached when the loss of one subscription is reported twice. */
  lemma RepeatedLossBlocks() returns (events: seq<Event>, y: System)
    ensures Trace(START, events) == Some(y)
    ensures Deaf(y) && y.callback == Losing(1) && y.fetcher == Waiting(2)
  {
    hide Trace;
    events, y := OneLoss();
    events, y := Continue(START, events, y, Lost(1));
    events, y := Continue(START, events, y, QueryFails);
    events, y := Continue(START, events, y, SubscribeSucceeds);
    events, y := Continue(START, events, y, FetcherWaits);
  }

  lemma OneLoss() returns (events: seq<Event>, y: System)
    ensures Trace(START, events) == Some(y) && y.fetcher.Querying? && y.callback.Quiet? && y.gen == 1
  {
    hide Trace;
    events, y := NoEvents();
    events, y := Continue(START, events, y, OpenSucceeds);
    events, y := Continue(START, events, y, QueryFails);
    events, y := Continue(START, events, y, SubscribeSucceeds);
    events, y := Continue(START, events, y, FetcherWaits);
    events, y := Continue(START, events, y, Lost(1));
    events, y := Continue(START, events, y, LostDelivered);
  }
}
