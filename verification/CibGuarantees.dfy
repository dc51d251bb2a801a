/** What the publish and long-poll protocol guarantees in every run, whatever the number of publishers. */
module CibGuarantees {
  import opened Common
  import opened CibProtocol

  /** While nobody is in a critical section, text and version are both initial or both come from
      the last stored document. */
  lemma ConsistentWhenFree(actions: seq<Action>, s: State)
    requires Run(INIT, actions) == Some(s) && s.lock.Free?
    ensures if s.history == [] then s.text == "" && s.version == None
            else var d := s.history[|s.history| - 1]; s.text == d.text && s.version == Some(d.version)
  {
    EveryRun(actions, s);
  }

  /** Reads never go back: a later `Get` or `Version`, by any client, returns the document of the
      same or a later position in store order. */
  lemma ReadsNeverGoBack(actions: seq<Action>, s: State, i: nat, j: nat)
    requires Run(INIT, actions) == Some(s) && i < j < |s.log|
    ensures s.log[i].seen.pos <= s.log[j].seen.pos <= |s.history|
    ensures s.log[j].seen.value == ValueAt(s.history, s.log[j].kind, s.log[j].seen.pos)
  {
    EveryRun(actions, s);
  }

  /** A request that handed its channel over gets at most one reply; one that timed out, or that
      did not have to wait, gets none. */
  lemma AtMostOneReply(actions: seq<Action>, s: State, c: nat)
    requires Run(INIT, actions) == Some(s)
    ensures multiset(s.replies)[c] == if GotReply(s, c) then 1 else 0
  {
    EveryRun(actions, s);
    if GotReply(s, c) {
      var i :| 0 <= i < |s.replies| && s.replies[i] == c;
      OccursOnce(s.replies, i);
    } else {
      assert c !in s.replies;
    }
  }

  lemma OccursOnce(xs: seq<nat>, i: nat)
    requires i < |xs| && forall j, k :: 0 <= j < k < |xs| ==> xs[j] != xs[k]
    ensures multiset(xs)[xs[i]] == 1
  {
    assert xs == xs[..i] + [xs[i]] + xs[i + 1..];
    assert xs[i] !in xs[..i] && xs[i] !in xs[i + 1..];
  }

  /** `Get` returns the text, and `/monitor` reads the version, of the document stored last when it read;
      `/monitor` answers at once exactly if there is a version and it differs from the client's. */
  lemma RequestsAnswered(actions: seq<Action>, s: State, c: nat)
    requires Run(INIT, actions) == Some(s) && c in s.reqs && s.reqs[c].Done?
    ensures var r := s.reqs[c];
            && r.seen.pos <= |s.history| && r.seen.value == ValueAt(s.history, r.kind, r.seen.pos)
            && (r.outcome.Immediate? <==> News(r.kind, r.seen.value))
            && (!r.outcome.Replied? ==> r.answer == r.seen.value)
  {
    EveryRun(actions, s);
  }

  lemma DoneStep(s: State, a: Action, s': State, c: nat)
    requires Step(s, a) == Some(s') && c in s.reqs && s.reqs[c].Done?
    ensures c in s'.reqs && s'.reqs[c] == s.reqs[c]
  {
  }

  /** A finished request never changes again: its answer is final in every continuation. */
  lemma {:induction false} DoneIsFinal(s: State, more: seq<Action>, s': State, c: nat)
    requires Run(s, more) == Some(s') && c in s.reqs && s.reqs[c].Done?
    ensures c in s'.reqs && s'.reqs[c] == s.reqs[c]
  {
    if more != [] {
      var init := more[..|more| - 1];
      DoneIsFinal(s, init, Run(s, init).value, c);
      DoneStep(Run(s, init).value, more[|more| - 1], s', c);
    }
  }

  /** A publisher that holds a reply channel can always deliver: the request is committed to receiving
      from it, and nothing else can answer that request. */
  lemma ReplyAlwaysEnabled(actions: seq<Action>, s: State, p: nat)
    requires Run(INIT, actions) == Some(s) && p in s.pubs && s.pubs[p].Replying?
    ensures Step(s, Reply(p)).Some?
    ensures forall q :: q in s.pubs && s.pubs[q].Replying? && s.pubs[q].client == s.pubs[p].client ==> q == p
  {
    EveryRun(actions, s);
  }

  // ---------------------------------------------------------------- nobody is stuck

  /** At most one goroutine is between `Lock` and `Unlock`. */
  lemma MutualExclusion(actions: seq<Action>, s: State)
    requires Run(INIT, actions) == Some(s)
    ensures forall p, q :: p in s.pubs && q in s.pubs && InPublisherSection(s.pubs[p]) && InPublisherSection(s.pubs[q]) ==> p == q
    ensures forall c, d :: c in s.reqs && d in s.reqs && InRequestSection(s.reqs[c]) && InRequestSection(s.reqs[d]) ==> c == d
    ensures forall p, c :: p in s.pubs && c in s.reqs ==> !(InPublisherSection(s.pubs[p]) && InRequestSection(s.reqs[c]))
  {
    hide StoreInv, PositionInv, PairInv, ReplyInv, ReadInv, OwedInv, AnswerInv, SeenInv, OfferInv;
    EveryRun(actions, s);
  }

  predicate InPublisherSection(q: Publisher) {
    q.StoringText? || q.StoringVersion? || q.Unlocking?
  }

  predicate InRequestSection(r: Request) {
    r.Reading? || r.Releasing?
  }

  /** The holder of the mutex is never blocked, so it always gets to its unlock. */
  lemma HolderMoves(actions: seq<Action>, s: State)
    requires Run(INIT, actions) == Some(s)
    ensures s.lock.ByRequest? ==> Step(s, Proceed(s.lock.c)).Some?
    ensures s.lock.ByPublisher? ==> Step(s, Store(s.lock.p)).Some?
  {
    hide StoreInv, PositionInv, PairInv, ReplyInv, ReadInv, OwedInv, AnswerInv, SeenInv, OfferInv;
    EveryRun(actions, s);
  }

  /** The steps that a holder still has to make before the mutex is free. */
  function StepsToUnlock(s: State): nat {
    match s.lock
    case Free => 0
    case ByRequest(c) => if c in s.reqs && s.reqs[c].Reading? then 2 else 1
    case ByPublisher(p) =>
      if p in s.pubs && s.pubs[p].StoringText? then 3 else if p in s.pubs && s.pubs[p].StoringVersion? then 2 else 1
  }

  /** Each step of the holder brings the unlock nearer, and no step of anyone else delays it. */
  lemma HolderUnlocks(actions: seq<Action>, s: State, a: Action, s': State)
    requires Run(INIT, actions) == Some(s) && !s.lock.Free? && Step(s, a) == Some(s')
    ensures StepsToUnlock(s') == StepsToUnlock(s)
                                 - if a == (if s.lock.ByRequest? then Proceed(s.lock.c) else Store(s.lock.p)) then 1 else 0
    ensures !s'.lock.Free? ==> s'.lock == s.lock
  {
    hide StoreInv, PositionInv, PairInv, ReplyInv, ReadInv, OwedInv, AnswerInv, SeenInv, OfferInv;
    EveryRun(actions, s);
  }

  /** No goroutine is blocked for a reason other than the mutex: whoever does not wait for it has a step, also
      while it waits on a channel. */
  lemma NobodyStuck(actions: seq<Action>, s: State)
    requires Run(INIT, actions) == Some(s)
    ensures forall c :: c in s.reqs && !s.reqs[c].Done? && !(s.reqs[c].Wanting? && !s.lock.Free?) ==>
              if s.reqs[c].Offering? then Step(s, Timeout(c)).Some?
              else if s.reqs[c].Awaiting? then Step(s, Reply(s.reqs[c].publisher)).Some?
              else Step(s, Proceed(c)).Some?
    ensures forall p :: p in s.pubs && !(s.pubs[p].Locking? && !s.lock.Free?) ==>
              Step(s, Store(p)).Some? || Step(s, Reply(p)).Some? || Step(s, Leave(p)).Some?
              || (Offers(s) != {} && forall c :: c in Offers(s) ==> Step(s, Receive(p, c)).Some?)
  {
    hide StoreInv, PositionInv, ReplyInv, ReadInv, OwedInv, AnswerInv, SeenInv, OfferInv, Run;
    EveryRun(actions, s);
  }

  /** A request stays what it is: its kind, with the epoch of the client, and what it has read. */
  lemma {:induction false} RequestKept(s: State, more: seq<Action>, s': State, c: nat)
    requires Run(s, more) == Some(s') && c in s.reqs
    ensures c in s'.reqs && KindOf(s'.reqs[c]) == KindOf(s.reqs[c])
    ensures HasSeen(s.reqs[c]) ==> HasSeen(s'.reqs[c]) && s'.reqs[c].seen == s.reqs[c].seen
  {
    if more != [] {
      hide Step;
      var init := more[..|more| - 1];
      RequestKept(s, init, Run(s, init).value, c);
      RequestKeptStep(Run(s, init).value, more[|more| - 1], s', c);
    }
  }

  lemma RequestKeptStep(s: State, a: Action, s': State, c: nat)
    requires Step(s, a) == Some(s') && c in s.reqs
    ensures c in s'.reqs && KindOf(s'.reqs[c]) == KindOf(s.reqs[c])
    ensures HasSeen(s.reqs[c]) ==> HasSeen(s'.reqs[c]) && s'.reqs[c].seen == s.reqs[c].seen
  {
  }

  // -------------------------------------------------------------------- draining

  /** When a publication ends, by whatever step, it was draining and every request that was offering when its
      loop began has been answered, has timed out, or is in the hands of another publisher that can answer
      it now. */
  lemma DrainServesAll(actions: seq<Action>, s: State, a: Action, s': State, p: nat)
    requires Run(INIT, actions) == Some(s) && Step(s, a) == Some(s') && p in s.pubs && p !in s'.pubs
    ensures s.pubs[p].Draining? && s'.reqs == s.reqs
    ensures forall c :: c in s.pubs[p].owed ==>
              c in s.reqs && ((s.reqs[c].Done? && !s.reqs[c].outcome.Immediate?) || HeldByOther(s, p, c))
  {
    hide LockInv, StoreInv, PositionInv, ReplyInv, ReadInv, AnswerInv, SeenInv, OfferInv;
    EveryRun(actions, s);
    assert a == Leave(p) && Offers(s) == {};
    assert forall c :: c in s.reqs && s.reqs[c].Offering? ==> c in Offers(s);
  }

  predicate HeldByOther(s: State, p: nat, c: nat) {
    c in s.reqs && s.reqs[c].Awaiting? && s.reqs[c].publisher != p && Step(s, Reply(s.reqs[c].publisher)).Some?
  }

  predicate InLoop(s: State, p: nat) {
    p in s.pubs && Looping(s.pubs[p])
  }

  /** The work left for a publisher in its loop. */
  function Rank(s: State, p: nat): nat
    requires InLoop(s, p)
  {
    2 * |Offers(s)| + if s.pubs[p].Replying? then 1 else 0
  }

  predicate OwnStep(a: Action, p: nat) {
    (a.Receive? || a.Reply?) && a.p == p
  }

  /** A publisher in its loop is never blocked. */
  lemma LoopNeverBlocked(actions: seq<Action>, s: State, p: nat)
    requires Run(INIT, actions) == Some(s) && InLoop(s, p)
    ensures Step(s, Reply(p)).Some? || Step(s, Leave(p)).Some? || exists c :: Step(s, Receive(p, c)).Some?
  {
    EveryRun(actions, s);
    if s.pubs[p].Draining? && Offers(s) != {} {
      var c :| c in Offers(s);
      assert Step(s, Receive(p, c)).Some?;
    }
  }

  lemma OffersShrink(s: State, s': State, c: nat)
    requires Offers(s') <= Offers(s) && c in Offers(s) && c !in Offers(s')
    ensures |Offers(s')| < |Offers(s)|
  {
    SubsetSize(Offers(s'), Offers(s) - {c});
  }

  /** The number of offering requests is a measure: if nobody new starts offering, no step of anyone
      increases the work left, and every step of the publisher's own decreases it. */
  lemma RankDecreases(s: State, a: Action, s': State, p: nat)
    requires Step(s, a) == Some(s') && InLoop(s, p) && InLoop(s', p) && Offers(s') <= Offers(s)
    ensures if OwnStep(a, p) then Rank(s', p) < Rank(s, p) else Rank(s', p) <= Rank(s, p)
  {
    if a.Receive? && a.p == p {
      OffersShrink(s, s', a.c);
    } else {
      SubsetSize(Offers(s'), Offers(s));
      assert s'.pubs[p].Replying? ==> s.pubs[p].Replying?;
    }
  }

  /** A run from `s` in which `p` stays in its loop and nobody new starts offering. */
  ghost predicate NoArrivals(s: State, actions: seq<Action>, p: nat) {
    && Run(s, actions).Some? && InLoop(Run(s, actions).value, p)
    && (actions != [] ==>
          var init := actions[..|actions| - 1];
          && NoArrivals(s, init, p)
          && Offers(Run(s, actions).value) <= Offers(Run(s, init).value))
  }

  function OwnSteps(actions: seq<Action>, p: nat): nat {
    if actions == [] then 0
    else OwnSteps(actions[..|actions| - 1], p) + if OwnStep(actions[|actions| - 1], p) then 1 else 0
  }

  /** So with no new arrivals the loop ends: however the other goroutines are scheduled, it makes at
      most `Rank` more receives and replies. */
  lemma {:induction false} DrainBounded(s: State, actions: seq<Action>, p: nat)
    requires InLoop(s, p) && NoArrivals(s, actions, p)
    ensures OwnSteps(actions, p) + Rank(Run(s, actions).value, p) <= Rank(s, p)
  {
    if actions != [] {
      var init := actions[..|actions| - 1];
      DrainBounded(s, init, p);
      RankDecreases(Run(s, init).value, actions[|actions| - 1], Run(s, actions).value, p);
    }
  }

  // ------------------------------------------------------------------ timed out

  /** A request times out without a reply and keeps what it read. If no publication is running by then, that is
      the newest version if and only if nothing was stored between its read and its offer: while it was
      offering, no publication can have come and gone. */
  lemma TimedOutCurrentExactly(actions: seq<Action>, s: State, c: nat)
    requires Run(INIT, actions) == Some(s) && c in s.reqs && s.reqs[c].Offering? && s.pubs == map[]
    ensures |s.history| == s.reqs[c].offered
    ensures Step(s, Timeout(c)).Some?
    ensures var r := Step(s, Timeout(c)).value.reqs[c];
            && r.Done? && r.seen.pos <= |s.history|
            && r.answer == r.seen.value == ValueAt(s.history, r.kind, r.seen.pos)
            && (r.seen.pos == |s.history| <==> s.reqs[c].offered == s.reqs[c].seen.pos)
            && (r.seen.pos == |s.history| ==> r.answer == Epoch(s.version))
  {
    hide LockInv, PositionInv, PairInv, ReplyInv, ReadInv, OwedInv, AnswerInv;
    EveryRun(actions, s);
    assert !StillRunning(s, |s.history|);
    assert s.history[..|s.history|] == s.history;
    NobodyStoring(s);
  }

  lemma NobodyStoring(s: State)
    requires StoreInv(s) && s.pubs == map[]
    ensures s.version == VersionOf(s.history)
  {
  }

  /** While publications are running, everything stored since a request began to offer belongs to one of them,
      and none of these can end before the request is served or times out. */
  lemma StoredSinceOffer(actions: seq<Action>, s: State, c: nat, pos: nat)
    requires Run(INIT, actions) == Some(s) && c in s.reqs && s.reqs[c].Offering?
    requires s.reqs[c].offered < pos <= |s.history|
    ensures exists p :: PublishedAt(s, p, pos) && Step(s, Leave(p)).None?
  {
    hide LockInv, StoreInv, PairInv, ReplyInv, ReadInv, OwedInv, AnswerInv, SeenInv, Run;
    EveryRun(actions, s);
    assert StillRunning(s, pos);
    var p :| p in s.pubs && Stored(s.pubs[p]) && s.pubs[p].pos == pos;
    assert PublishedAt(s, p, pos);
    assert c in Offers(s);
  }

  predicate PublishedAt(s: State, p: nat, pos: nat) {
    && p in s.pubs && Stored(s.pubs[p]) && s.pubs[p].pos == pos
    && 0 < pos <= |s.history| && s.pubs[p].doc == s.history[pos - 1]
  }

  // ------------------------------------------------------------- runs that exist

  lemma Extend(s0: State, actions: seq<Action>, s: State, a: Action)
    returns (actions': seq<Action>, s': State)
    requires Run(s0, actions) == Some(s) && Step(s, a).Some?
    ensures Run(s0, actions') == Some(s') && Step(s, a) == Some(s')
    ensures actions' == actions + [a]
  {
    actions', s' := actions + [a], Step(s, a).value;
    assert actions'[..|actions|] == actions;
  }

  lemma RunFrom(s0: State) returns (actions: seq<Action>, s: State)
    ensures actions == [] && s == s0 && Run(s0, actions) == Some(s)
  {
    actions, s := [], s0;
  }

  lemma {:induction false} RunsJoin(s0: State, first: seq<Action>, s: State, second: seq<Action>)
    requires Run(s0, first) == Some(s)
    ensures Run(s0, first + second) == Run(s, second)
  {
    if second == [] {
      assert first + second == first;
    } else {
      var init := second[..|second| - 1];
      RunsJoin(s0, first, s, init);
      assert (first + second)[..|first + second| - 1] == first + init;
    }
  }

  /** A publisher runs up to its loop. */
  lemma RunToLoop(s0: State, actions: seq<Action>, s: State, p: nat, d: Doc)
    returns (actions': seq<Action>, s': State)
    requires Run(s0, actions) == Some(s) && s.lock.Free? && p !in s.pubs
    ensures Run(s0, actions') == Some(s')
    ensures s' == s.(text := d.text, version := Some(d.version), history := s.history + [d],
                     pubs := s.pubs[p := Draining(d, |s.history| + 1, Offers(s))])
  {
    hide Run;
    actions', s' := Extend(s0, actions, s, Publish(p, d));
    actions', s' := Extend(s0, actions', s', Store(p));
    actions', s' := Extend(s0, actions', s', Store(p));
    actions', s' := Extend(s0, actions', s', Store(p));
    actions', s' := Extend(s0, actions', s', Store(p));
  }

  /** A request runs up to its decision whether to wait. */
  lemma RunToChoice(s0: State, actions: seq<Action>, s: State, c: nat, epoch: string)
    returns (actions': seq<Action>, s': State)
    requires Run(s0, actions) == Some(s) && s.lock.Free? && c !in s.reqs
    ensures Run(s0, actions') == Some(s')
    ensures var seen := Seen(Epoch(s.version), |s.history|);
            s' == s.(reqs := s.reqs[c := Choosing(epoch, seen)],
                     log := s.log + [ReadEvent(c, Monitor(epoch), seen)])
  {
    hide Run;
    actions', s' := Extend(s0, actions, s, Arrive(c, Monitor(epoch)));
    actions', s' := Extend(s0, actions', s', Proceed(c));
    actions', s' := Extend(s0, actions', s', Proceed(c));
    actions', s' := Extend(s0, actions', s', Proceed(c));
  }

  /** With the lock free, a `Get` returns the stored text by three steps of its own and leaves all else as it was. */
  lemma GetCompletes(s0: State, actions: seq<Action>, s: State, c: nat)
    returns (actions': seq<Action>, s': State)
    requires Run(s0, actions) == Some(s) && s.lock.Free? && c !in s.reqs
    ensures actions' == actions + [Arrive(c, Get)] + [Proceed(c)] + [Proceed(c)] + [Proceed(c)]
    ensures Run(s0, actions') == Some(s')
    ensures var seen := Seen(s.text, |s.history|);
            s' == s.(reqs := s.reqs[c := Done(Get, Immediate, s.text, seen)], log := s.log + [ReadEvent(c, Get, seen)])
  {
    hide Run;
    actions', s' := Extend(s0, actions, s, Arrive(c, Get));
    actions', s' := Extend(s0, actions', s', Proceed(c));
    actions', s' := Extend(s0, actions', s', Proceed(c));
    actions', s' := Extend(s0, actions', s', Proceed(c));
  }

  /** With the lock free, a `/monitor` request whose epoch is not the stored version gets that version at once; one
      that has it already, or that finds none stored, offers its channel. */
  lemma MonitorDecides(s0: State, actions: seq<Action>, s: State, c: nat, epoch: string)
    returns (actions': seq<Action>, s': State)
    requires Run(s0, actions) == Some(s) && s.lock.Free? && c !in s.reqs
    ensures Run(s0, actions') == Some(s') && s'.lock.Free? && s'.pubs == s.pubs && c in s'.reqs
    ensures s'.text == s.text && s'.version == s.version && s'.history == s.history
    ensures s'.reqs[c] == match s.version
              case None => Offering(epoch, Seen("", |s.history|), |s.history|)
              case Some(v) =>
                if v == "" || v == epoch then Offering(epoch, Seen(v, |s.history|), |s.history|)
                else Done(Monitor(epoch), Immediate, v, Seen(v, |s.history|))
  {
    hide Run;
    actions', s' := RunToChoice(s0, actions, s, c, epoch);
    actions', s' := Extend(s0, actions', s', Proceed(c));
  }

  /** All requests, with those that are offering answered by a publication. */
  function Answered(s: State, pos: nat, version: string): map<nat, Request> {
    map c | c in s.reqs :: if s.reqs[c].Offering? then Done(Monitor(s.reqs[c].epoch), Replied(pos), version, s.reqs[c].seen)
                           else s.reqs[c]
  }

  /** A draining publisher that runs alone answers every request that is offering, and ends. */
  lemma DrainAlone(s0: State, actions: seq<Action>, s: State, p: nat)
    returns (actions': seq<Action>, s': State)
    requires Run(s0, actions) == Some(s) && p in s.pubs && s.pubs[p].Draining?
    ensures Run(s0, actions') == Some(s')
    ensures s'.reqs == Answered(s, s.pubs[p].pos, s.pubs[p].doc.version)
    ensures s' == s.(pubs := s.pubs - {p}, reqs := s'.reqs, replies := s'.replies)
    decreases |Offers(s)|
  {
    hide Run;
    if Offers(s) == {} {
      assert forall c :: c in s.reqs && s.reqs[c].Offering? ==> c in Offers(s);
      actions', s' := Extend(s0, actions, s, Leave(p));
    } else {
      var c :| c in Offers(s);
      var t: State;
      actions', t := Extend(s0, actions, s, Receive(p, c));
      actions', t := Extend(s0, actions', t, Reply(p));
      AnsweredOne(s, t, s.pubs[p].pos, s.pubs[p].doc.version, c);
      actions', s' := DrainAlone(s0, actions', t, p);
      assert t.pubs - {p} == s.pubs - {p};
    }
  }

  lemma AnsweredOne(s: State, t: State, pos: nat, version: string, c: nat)
    requires c in Offers(s)
    requires t.reqs == s.reqs[c := Done(Monitor(s.reqs[c].epoch), Replied(pos), version, s.reqs[c].seen)]
    ensures |Offers(t)| < |Offers(s)| && Answered(t, pos, version) == Answered(s, pos, version)
  {
    assert Offers(t) == Offers(s) - {c};
  }

  /** A whole publication that runs alone: it stores its document, answers with its version every request that is
      offering, leaves all other requests as they are, and ends with the lock free. */
  lemma PublicationCompletes(s0: State, actions: seq<Action>, s: State, p: nat, d: Doc)
    returns (actions': seq<Action>, s': State)
    requires Run(s0, actions) == Some(s) && s.lock.Free? && p !in s.pubs
    ensures Run(s0, actions') == Some(s') && s'.lock.Free? && s'.pubs == s.pubs
    ensures s'.text == d.text && s'.version == Some(d.version) && s'.history == s.history + [d]
    ensures s'.reqs == Answered(s, |s'.history|, d.version)
  {
    hide Run;
    actions', s' := RunToLoop(s0, actions, s, p, d);
    assert s'.pubs - {p} == s.pubs;
    actions', s' := DrainAlone(s0, actions', s', p);
  }

  // -------------------------------------------------------------- what is not promised

  /** Overlapping publishers can answer with an older version than the request has read, so the
      freshness of answers rests on there being one publisher at a time. */
  lemma OverlapCanGoBack(d1: Doc, d2: Doc) returns (actions: seq<Action>, s: State)
    ensures Run(INIT, actions) == Some(s)
    ensures 0 in s.reqs && s.reqs[0].Done? && s.reqs[0].outcome == Replied(1) && s.reqs[0].seen.pos == 2
    ensures s.reqs[0].answer == d1.version && s.reqs[0].seen.value == d2.version
  {
    hide Run;
    actions, s := RunFrom(INIT);
    actions, s := RunToLoop(INIT, actions, s, 0, d1);
    actions, s := RunToLoop(INIT, actions, s, 1, d2);
    actions, s := RunToChoice(INIT, actions, s, 0, d2.version);
    actions, s := Extend(INIT, actions, s, Proceed(0));
    actions, s := Extend(INIT, actions, s, Receive(0, 0));
    actions, s := Extend(INIT, actions, s, Reply(0));
  }

  /** A document has been stored since the publisher's own, and it is still in its loop. */
  predicate Overtaken(s: State, p: nat) {
    InLoop(s, p) && s.pubs[p].pos < |s.history|
  }

  /** A continuation that stores nothing answers `c` with an older version than `c` has read. */
  predicate AnswersBehind(s: State, more: seq<Action>, c: nat) {
    && Run(s, more).Some?
    && var s' := Run(s, more).value;
       && s'.history == s.history && GotReply(s', c) && s'.reqs[c].outcome.pos < s'.reqs[c].seen.pos
  }

  /** Exactly when freshness is lost: with the lock free, a request that is still to arrive can be answered
      with an older version than it will read, without anything new being stored, if and only if some
      publisher in its loop has been overtaken. */
  lemma StaleAnswerExactly(actions: seq<Action>, s: State, c: nat)
    requires Run(INIT, actions) == Some(s) && s.lock.Free? && c !in s.reqs
    ensures (exists more :: AnswersBehind(s, more, c)) <==> (exists p :: Overtaken(s, p))
  {
    hide Step, Overtaken;
    if more :| AnswersBehind(s, more, c) {
      var _ := OvertakenAnswered(actions, s, more, c);
    }
    if p :| Overtaken(s, p) {
      var more := OvertakenAnswers(actions, s, p, c);
    }
  }

  lemma OvertakenAnswers(actions: seq<Action>, s: State, p: nat, c: nat) returns (more: seq<Action>)
    requires Run(INIT, actions) == Some(s) && s.lock.Free? && c !in s.reqs && Overtaken(s, p)
    ensures AnswersBehind(s, more, c)
  {
    hide Run;
    var s' := s;
    more, s' := RunFrom(s);
    if s.pubs[p].Replying? {
      ReplyAlwaysEnabled(actions, s, p);
      more, s' := Extend(s, more, s', Reply(p));
    }
    more, s' := AnswerFrom(s, more, s', p, c);
  }

  /** A draining publisher serves a newcomer that already has the stored version. */
  lemma AnswerFrom(s0: State, actions: seq<Action>, s: State, p: nat, c: nat)
    returns (actions': seq<Action>, s': State)
    requires Run(s0, actions) == Some(s) && s.lock.Free? && c !in s.reqs && p in s.pubs && s.pubs[p].Draining?
    ensures Run(s0, actions') == Some(s') && s'.history == s.history && GotReply(s', c)
    ensures s'.reqs[c].outcome.pos == s.pubs[p].pos && s'.reqs[c].seen.pos == |s.history|
  {
    hide Run;
    actions', s' := RunToChoice(s0, actions, s, c, Epoch(s.version));
    actions', s' := Extend(s0, actions', s', Proceed(c));
    actions', s' := Extend(s0, actions', s', Receive(p, c));
    actions', s' := Extend(s0, actions', s', Reply(p));
  }

  /** As long as nothing is stored, the publishers that have stored, and those that answer newcomers,
      are the ones that were in their loop before. */
  ghost predicate SameLoops(s: State, s': State) {
    && (forall p :: p in s'.pubs && Stored(s'.pubs[p]) ==> InLoop(s, p) && s'.pubs[p].pos == s.pubs[p].pos)
    && (forall c :: GotReply(s', c) && c !in s.reqs ==> LoopAt(s, s'.reqs[c].outcome.pos))
  }

  ghost predicate LoopAt(s: State, pos: nat) {
    exists p :: InLoop(s, p) && s.pubs[p].pos == pos
  }

  lemma SameLoopsStep(s: State, t: State, a: Action, t': State)
    requires SameLoops(s, t) && Step(t, a) == Some(t') && t'.history == t.history
    ensures SameLoops(s, t')
  {
    StoredBefore(t, a, t');
    RepliedNow(t, a, t');
    hide Step;
    if a.Reply? && a.p in t.pubs {
      assert InLoop(s, a.p) ==> LoopAt(s, s.pubs[a.p].pos);
    }
  }

  lemma StoredBefore(t: State, a: Action, t': State)
    requires Step(t, a) == Some(t') && t'.history == t.history
    ensures forall p :: p in t'.pubs && Stored(t'.pubs[p]) ==>
              p in t.pubs && Stored(t.pubs[p]) && t.pubs[p].pos == t'.pubs[p].pos
  {
  }

  lemma RepliedNow(t: State, a: Action, t': State)
    requires Step(t, a) == Some(t')
    ensures forall c :: GotReply(t', c) ==>
              (GotReply(t, c) && t'.reqs[c] == t.reqs[c])
              || (a.Reply? && a.p in t.pubs && Stored(t.pubs[a.p]) && t'.reqs[c].outcome.pos == t.pubs[a.p].pos)
  {
  }

  lemma {:induction false} LoopsKept(s: State, more: seq<Action>, s': State)
    requires LockInv(s) && s.lock.Free? && Run(s, more) == Some(s')
    ensures |s.history| <= |s'.history|
    ensures s'.history == s.history ==> SameLoops(s, s')
  {
    if more != [] {
      hide Step, LockInv, SameLoops;
      var init := more[..|more| - 1];
      var t := Run(s, init).value;
      LoopsKept(s, init, t);
      var a := more[|more| - 1];
      StoreOnlyAppends(t, a, s');
      if s'.history == s.history {
        assert t.history == s'.history[..|t.history|];
        assert |t.history| == |s.history|;
        assert t.history == s.history;
        SameLoopsStep(s, t, a, s');
      }
    }
  }

  lemma OvertakenAnswered(actions: seq<Action>, s: State, more: seq<Action>, c: nat) returns (p: nat)
    requires Run(INIT, actions) == Some(s) && s.lock.Free? && c !in s.reqs && AnswersBehind(s, more, c)
    ensures Overtaken(s, p)
  {
    var s' := Run(s, more).value;
    EveryRun(actions, s);
    RunsJoin(INIT, actions, s, more);
    EveryRun(actions + more, s');
    LoopsKept(s, more, s');
    assert LoopAt(s, s'.reqs[c].outcome.pos);
    p :| InLoop(s, p) && s.pubs[p].pos == s'.reqs[c].outcome.pos;
    assert HasSeen(s'.reqs[c]);
  }

  /** A request that times out can be behind: a document published between its read and its offer is
      neither read nor announced to it. */
  lemma TimedOutCanBeStale(d: Doc) returns (actions: seq<Action>, s: State)
    ensures Run(INIT, actions) == Some(s)
    ensures 0 in s.reqs && s.reqs[0] == Done(Monitor(""), TimedOut, "", Seen("", 0)) && s.version == Some(d.version)
  {
    hide Run;
    actions, s := RunFrom(INIT);
    actions, s := RunToChoice(INIT, actions, s, 0, "");
    actions, s := RunToLoop(INIT, actions, s, 0, d);
    assert Offers(s) == {};
    actions, s := Extend(INIT, actions, s, Leave(0));
    actions, s := Extend(INIT, actions, s, Proceed(0));
    actions, s := Extend(INIT, actions, s, Timeout(0));
  }
}
