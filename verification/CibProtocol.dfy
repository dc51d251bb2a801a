/** The publish and long-poll protocol of `AsyncCib` (main.go) as a step system: any number of calls of
    `notifyNewCib`, any number of requests, one mutex and one unbuffered channel of reply channels.

    A step is one atomic action of one goroutine; a rendezvous on a channel is one step of both sides.
    Publish positions, the read log, the reply log and the sets of owed requests are history variables:
    no step depends on them. */
module CibProtocol {
  import opened Common

  /** A CIB document: its text and the string form of its version. */
  datatype Doc = Doc(text: string, version: string)

  /** A running `notifyNewCib`, by what it does next. `pos` counts the documents stored up to and
      including its own; `owed` are the requests that offered a channel when the draining began. */
  datatype Publisher =
    | Locking(doc: Doc)
    | StoringText(doc: Doc)
    | StoringVersion(doc: Doc, pos: nat)
    | Unlocking(doc: Doc, pos: nat)
    | Draining(doc: Doc, pos: nat, owed: set<nat>)
    | Replying(doc: Doc, pos: nat, owed: set<nat>, client: nat)

  /** `Get`, or `/monitor` with the epoch that the client already has. */
  datatype Kind = Get | Monitor(epoch: string)

  /** A value read under the lock, and how many documents had been stored by then. */
  datatype Seen = Seen(value: string, pos: nat)

  datatype Outcome = Immediate | TimedOut | Replied(pos: nat)

  /** A request, by what it does next. `offered` counts the documents stored when it began to offer. */
  datatype Request =
    | Wanting(kind: Kind)
    | Reading(kind: Kind)
    | Releasing(kind: Kind, seen: Seen)
    | Choosing(epoch: string, seen: Seen)
    | Offering(epoch: string, seen: Seen, offered: nat)
    | Awaiting(epoch: string, seen: Seen, publisher: nat)
    | Done(kind: Kind, outcome: Outcome, answer: string, seen: Seen)

  datatype Holder = Free | ByPublisher(p: nat) | ByRequest(c: nat)

  datatype ReadEvent = ReadEvent(client: nat, kind: Kind, seen: Seen)

  datatype State = State(
    lock: Holder, text: string, version: Option<string>,
    pubs: map<nat, Publisher>, reqs: map<nat, Request>,
    history: seq<Doc>, log: seq<ReadEvent>, replies: seq<nat>)

  const INIT := State(Free, "", None, map[], map[], [], [], [])

  datatype Action =
    | Publish(p: nat, doc: Doc)
    | Store(p: nat)
    | Receive(p: nat, c: nat)
    | Reply(p: nat)
    | Leave(p: nat)
    | Arrive(c: nat, kind: Kind)
    | Proceed(c: nat)
    | Timeout(c: nat)

  // ------------------------------------------------------------------------ steps

  function TextOf(history: seq<Doc>): string {
    if history == [] then "" else history[|history| - 1].text
  }

  function VersionOf(history: seq<Doc>): Option<string> {
    if history == [] then None else Some(history[|history| - 1].version)
  }

  /** `ver.String()`, or the empty string when there is no version yet (main.go:260-264). */
  function Epoch(version: Option<string>): string {
    match version
    case None => ""
    case Some(v) => v
  }

  /** The requests that are blocked offering their reply channel. */
  function Offers(s: State): set<nat> {
    set c | c in s.reqs && s.reqs[c].Offering?
  }

  /** The critical section of `notifyNewCib`, one assignment at a time. */
  function StoreStep(s: State, p: nat): Option<State>
    requires p in s.pubs
  {
    match s.pubs[p]
    case Locking(d) =>
      if s.lock.Free? then Some(s.(lock := ByPublisher(p), pubs := s.pubs[p := StoringText(d)])) else None
    case StoringText(d) =>
      Some(s.(text := d.text, history := s.history + [d],
              pubs := s.pubs[p := StoringVersion(d, |s.history| + 1)]))
    case StoringVersion(d, pos) =>
      Some(s.(version := Some(d.version), pubs := s.pubs[p := Unlocking(d, pos)]))
    case Unlocking(d, pos) =>
      Some(s.(lock := Free, pubs := s.pubs[p := Draining(d, pos, Offers(s))]))
    case _ => None
  }

  /** `case clientchan := <-acib.notifier` meets `case acib.notifier <- requestChan`. */
  function ReceiveStep(s: State, p: nat, c: nat): Option<State> {
    if p in s.pubs && s.pubs[p].Draining? && c in s.reqs && s.reqs[c].Offering? then
      var d := s.pubs[p];
      Some(s.(pubs := s.pubs[p := Replying(d.doc, d.pos, d.owed, c)],
              reqs := s.reqs[c := Awaiting(s.reqs[c].epoch, s.reqs[c].seen, p)]))
    else None
  }

  /** `clientchan <- version.String()` meets `<-requestChan`. */
  function ReplyStep(s: State, p: nat): Option<State> {
    if p in s.pubs && s.pubs[p].Replying? && s.pubs[p].client in s.reqs
       && s.reqs[s.pubs[p].client].Awaiting? && s.reqs[s.pubs[p].client].publisher == p
    then
      var r := s.pubs[p];
      var q := s.reqs[r.client];
      Some(s.(pubs := s.pubs[p := Draining(r.doc, r.pos, r.owed)],
              reqs := s.reqs[r.client := Done(Monitor(q.epoch), Replied(r.pos), r.doc.version, q.seen)],
              replies := s.replies + [r.client]))
    else None
  }

  /** `default`: taken only when no request is offering. */
  function LeaveStep(s: State, p: nat): Option<State> {
    if p in s.pubs && s.pubs[p].Draining? && Offers(s) == {} then Some(s.(pubs := s.pubs - {p})) else None
  }

  /** `Get`, `Version` and the decision in `serveMonitor` whether to wait. */
  function ProceedStep(s: State, c: nat): Option<State>
    requires c in s.reqs
  {
    match s.reqs[c]
    case Wanting(k) =>
      if s.lock.Free? then Some(s.(lock := ByRequest(c), reqs := s.reqs[c := Reading(k)])) else None
    case Reading(k) =>
      var seen := Seen(if k.Get? then s.text else Epoch(s.version), |s.history|);
      Some(s.(reqs := s.reqs[c := Releasing(k, seen)], log := s.log + [ReadEvent(c, k, seen)]))
    case Releasing(k, seen) =>
      Some(s.(lock := Free,
              reqs := s.reqs[c := if k.Get? then Done(k, Immediate, seen.value, seen) else Choosing(k.epoch, seen)]))
    case Choosing(epoch, seen) =>
      Some(s.(reqs := s.reqs[c := if seen.value == "" || seen.value == epoch then Offering(epoch, seen, |s.history|)
                                  else Done(Monitor(epoch), Immediate, seen.value, seen)]))
    case _ => None
  }

  function TimeoutStep(s: State, c: nat): Option<State> {
    if c in s.reqs && s.reqs[c].Offering? then
      var r := s.reqs[c];
      Some(s.(reqs := s.reqs[c := Done(Monitor(r.epoch), TimedOut, r.seen.value, r.seen)]))
    else None
  }

  function Step(s: State, a: Action): Option<State> {
    match a
    case Publish(p, d) => if p in s.pubs then None else Some(s.(pubs := s.pubs[p := Locking(d)]))
    case Store(p) => if p in s.pubs then StoreStep(s, p) else None
    case Receive(p, c) => ReceiveStep(s, p, c)
    case Reply(p) => ReplyStep(s, p)
    case Leave(p) => LeaveStep(s, p)
    case Arrive(c, k) => if c in s.reqs then None else Some(s.(reqs := s.reqs[c := Wanting(k)]))
    case Proceed(c) => if c in s.reqs then ProceedStep(s, c) else None
    case Timeout(c) => TimeoutStep(s, c)
  }

  /** The state after a sequence of actions, if each of them was enabled. */
  function Run(s: State, actions: seq<Action>): Option<State> {
    if actions == [] then Some(s)
    else
      match Run(s, actions[..|actions| - 1])
      case None => None
      case Some(s') => Step(s', actions[|actions| - 1])
  }

  // ------------------------------------------------------------------- invariants

  predicate PublisherHolds(q: Publisher) {
    q.StoringText? || q.StoringVersion? || q.Unlocking?
  }

  predicate RequestHolds(r: Request) {
    r.Reading? || r.Releasing?
  }

  /** The mutex: whoever is inside a critical section is the recorded holder. */
  ghost predicate LockInv(s: State) {
    && (forall p :: p in s.pubs ==> (PublisherHolds(s.pubs[p]) <==> s.lock == ByPublisher(p)))
    && (forall c :: c in s.reqs ==> (RequestHolds(s.reqs[c]) <==> s.lock == ByRequest(c)))
    && (s.lock.ByPublisher? ==> s.lock.p in s.pubs)
    && (s.lock.ByRequest? ==> s.lock.c in s.reqs)
  }

  /** One publisher is between its two assignments. */
  predicate HalfStored(s: State) {
    s.lock.ByPublisher? && s.lock.p in s.pubs && s.pubs[s.lock.p].StoringVersion?
  }

  /** Text and version belong to the last stored document, except between the two assignments. */
  ghost predicate StoreInv(s: State) {
    && s.text == TextOf(s.history)
    && (if HalfStored(s) then
          var q := s.pubs[s.lock.p];
          q.pos == |s.history| > 0 && s.version == VersionOf(s.history[..q.pos - 1])
        else s.version == VersionOf(s.history))
  }

  predicate Stored(q: Publisher) {
    !q.Locking? && !q.StoringText?
  }

  /** Every publisher that has stored knows the position of its own document. */
  ghost predicate PositionInv(s: State) {
    forall p :: p in s.pubs && Stored(s.pubs[p]) ==>
      0 < s.pubs[p].pos <= |s.history| && s.history[s.pubs[p].pos - 1] == s.pubs[p].doc
  }

  /** A publisher that holds a reply channel and the request that waits on it know each other. */
  ghost predicate PairInv(s: State) {
    && (forall p :: p in s.pubs && s.pubs[p].Replying? ==>
          var c := s.pubs[p].client; c in s.reqs && s.reqs[c].Awaiting? && s.reqs[c].publisher == p)
    && (forall c :: c in s.reqs && s.reqs[c].Awaiting? ==>
          var p := s.reqs[c].publisher; p in s.pubs && s.pubs[p].Replying? && s.pubs[p].client == c)
  }

  predicate GotReply(s: State, c: nat) {
    c in s.reqs && s.reqs[c].Done? && s.reqs[c].outcome.Replied?
  }

  /** The reply log holds each answered request once, and nothing else. */
  ghost predicate ReplyInv(s: State) {
    && (forall i, j :: 0 <= i < j < |s.replies| ==> s.replies[i] != s.replies[j])
    && (forall i :: 0 <= i < |s.replies| ==> GotReply(s, s.replies[i]))
    && (forall c :: GotReply(s, c) ==> c in s.replies)
  }

  /** What a read at a given position must return. */
  function ValueAt(history: seq<Doc>, kind: Kind, pos: nat): string
    requires pos <= |history|
  {
    if kind.Get? then TextOf(history[..pos]) else Epoch(VersionOf(history[..pos]))
  }

  /** Every read returned the document of its position, and positions never go back. */
  ghost predicate ReadInv(s: State) {
    && (forall i :: 0 <= i < |s.log| ==>
          var e := s.log[i]; e.seen.pos <= |s.history| && e.seen.value == ValueAt(s.history, e.kind, e.seen.pos))
    && (forall i, j :: 0 <= i < j < |s.log| ==> s.log[i].seen.pos <= s.log[j].seen.pos)
  }

  /** A request that was offering when a draining began is still offering, was handed over, or is done waiting. */
  predicate Served(r: Request) {
    r.Offering? || r.Awaiting? || (r.Done? && !r.outcome.Immediate?)
  }

  predicate Looping(q: Publisher) {
    q.Draining? || q.Replying?
  }

  ghost predicate OwedInv(s: State) {
    forall p :: p in s.pubs && Looping(s.pubs[p]) ==>
      forall c :: c in s.pubs[p].owed ==> c in s.reqs && Served(s.reqs[c])
  }

  predicate HasSeen(r: Request) {
    !r.Wanting? && !r.Reading?
  }

  /** What a request has seen is no later than what is stored, and its answer is what it saw or the
      version of the document whose publisher replied. */
  ghost predicate AnswerInv(s: State) {
    forall c :: c in s.reqs && HasSeen(s.reqs[c]) ==>
      var r := s.reqs[c];
      && r.seen.pos <= |s.history|
      && (r.Done? ==> match r.outcome
                      case Replied(pos) => 0 < pos <= |s.history| && r.answer == s.history[pos - 1].version
                      case _ => r.answer == r.seen.value)
  }

  function KindOf(r: Request): Kind {
    match r
    case Wanting(k) => k
    case Reading(k) => k
    case Releasing(k, _) => k
    case Choosing(epoch, _) => Monitor(epoch)
    case Offering(epoch, _, _) => Monitor(epoch)
    case Awaiting(epoch, _, _) => Monitor(epoch)
    case Done(k, _, _, _) => k
  }

  /** There was nothing to wait for: the request is no `/monitor`, or the version it read is news to it. */
  predicate News(kind: Kind, value: string) {
    kind.Monitor? ==> value != "" && value != kind.epoch
  }

  /** A request holds the value of the document at its position, and it waits exactly when that is no news. */
  ghost predicate SeenInv(s: State) {
    forall c :: c in s.reqs && HasSeen(s.reqs[c]) ==>
      var r := s.reqs[c];
      && r.seen.pos <= |s.history| && r.seen.value == ValueAt(s.history, KindOf(r), r.seen.pos)
      && (Served(r) ==> !News(KindOf(r), r.seen.value))
      && (r.Done? && r.outcome.Immediate? ==> News(r.kind, r.seen.value))
  }

  /** The publisher of a document is still running. */
  ghost predicate StillRunning(s: State, pos: nat) {
    exists p :: p in s.pubs && Stored(s.pubs[p]) && s.pubs[p].pos == pos
  }

  /** While a request offers, no publisher that has stored since can end. */
  ghost predicate OfferInv(s: State) {
    forall c :: c in s.reqs && s.reqs[c].Offering? ==>
      && s.reqs[c].seen.pos <= s.reqs[c].offered <= |s.history|
      && forall pos :: s.reqs[c].offered < pos <= |s.history| ==> StillRunning(s, pos)
  }

  ghost predicate Inv(s: State) {
    && LockInv(s) && StoreInv(s) && PositionInv(s) && PairInv(s)
    && ReplyInv(s) && ReadInv(s) && OwedInv(s) && AnswerInv(s) && SeenInv(s) && OfferInv(s)
  }

  lemma LockStep(s: State, a: Action, s': State)
    requires LockInv(s) && Step(s, a) == Some(s')
    ensures LockInv(s')
  {
  }

  lemma StoreStepKeeps(s: State, a: Action, s': State)
    requires LockInv(s) && StoreInv(s) && PositionInv(s) && Step(s, a) == Some(s')
    ensures StoreInv(s')
  {
    if a.Store? && s.pubs[a.p].StoringText? {
      assert s'.history[..|s.history|] == s.history;
    }
  }

  lemma StorePosition(s: State, p: nat, s': State)
    requires PositionInv(s) && p in s.pubs && StoreStep(s, p) == Some(s')
    ensures PositionInv(s')
  {
    assert s.history <= s'.history;
    assert forall q :: q != p && q in s.pubs ==> s'.pubs[q] == s.pubs[q];
  }

  lemma PositionStep(s: State, a: Action, s': State)
    requires LockInv(s) && PositionInv(s) && Step(s, a) == Some(s')
    ensures PositionInv(s')
  {
    if a.Store? {
      StorePosition(s, a.p, s');
    } else {
      hide StoreStep;
      assert s'.history == s.history;
    }
  }

  lemma PairStep(s: State, a: Action, s': State)
    requires PairInv(s) && Step(s, a) == Some(s')
    ensures PairInv(s')
  {
    match a
    case Publish(_, _) => assert PairInv(s');
    case Store(_) => assert PairInv(s');
    case Receive(_, _) => assert PairInv(s');
    case Reply(_) => assert PairInv(s');
    case Leave(_) => assert PairInv(s');
    case Arrive(_, _) => assert PairInv(s');
    case Proceed(_) => assert PairInv(s');
    case Timeout(_) => assert PairInv(s');
  }

  lemma ReplyStepKeeps(s: State, a: Action, s': State)
    requires PairInv(s) && ReplyInv(s) && Step(s, a) == Some(s')
    ensures ReplyInv(s')
  {
    if !a.Reply? {
      assert s'.replies == s.replies;
      assert forall c :: GotReply(s', c) <==> GotReply(s, c);
    } else {
      var c := s.pubs[a.p].client;
      assert s'.replies == s.replies + [c] && !GotReply(s, c) && GotReply(s', c);
      assert forall d :: d != c ==> (GotReply(s', d) <==> GotReply(s, d));
    }
  }

  lemma ReadStep(s: State, a: Action, s': State)
    requires LockInv(s) && StoreInv(s) && ReadInv(s) && Step(s, a) == Some(s')
    ensures ReadInv(s')
  {
    if a.Store? && s.pubs[a.p].StoringText? {
      LongerHistory(s.history, s.pubs[a.p].doc);
      assert s'.log == s.log;
    } else if a.Proceed? && s.reqs[a.c].Reading? {
      assert s.history[..|s.history|] == s.history;
      assert !HalfStored(s);
      assert s'.history == s.history;
    } else {
      assert s'.log == s.log && s'.history == s.history;
    }
  }

  /** What was read at a position does not depend on later documents. */
  lemma LongerHistory(history: seq<Doc>, d: Doc)
    ensures forall kind, pos: nat :: pos <= |history| ==>
              ValueAt(history + [d], kind, pos) == ValueAt(history, kind, pos)
  {
    forall kind, pos: nat | pos <= |history|
      ensures ValueAt(history + [d], kind, pos) == ValueAt(history, kind, pos)
    {
      assert (history + [d])[..pos] == history[..pos];
    }
  }

  lemma OwedStep(s: State, a: Action, s': State)
    requires OwedInv(s) && Step(s, a) == Some(s')
    ensures OwedInv(s')
  {
  }

  lemma AnswerStep(s: State, a: Action, s': State)
    requires PositionInv(s) && AnswerInv(s) && Step(s, a) == Some(s')
    ensures AnswerInv(s')
  {
    hide StoreStep;
    assert s.history <= s'.history by {
      StoreOnlyAppends(s, a, s');
    }
    if a.Store? {
      assert s'.reqs == s.reqs by {
        StoreOnlyAppends(s, a, s');
      }
    }
  }

  lemma SeenStep(s: State, a: Action, s': State)
    requires LockInv(s) && StoreInv(s) && SeenInv(s) && Step(s, a) == Some(s')
    ensures SeenInv(s')
  {
    hide ValueAt;
    if a.Store? {
      hide StoreStep;
      HistoryAfterStore(s, a.p, s');
    } else if a.Proceed? && s.reqs[a.c].Reading? {
      ReadingSees(s, s.reqs[a.c].kind, a.c);
    }
  }

  lemma HistoryAfterStore(s: State, p: nat, s': State)
    requires p in s.pubs && StoreStep(s, p) == Some(s')
    ensures s'.reqs == s.reqs && |s.history| <= |s'.history|
    ensures forall kind, pos: nat :: pos <= |s.history| ==>
              ValueAt(s'.history, kind, pos) == ValueAt(s.history, kind, pos)
  {
    if s.pubs[p].StoringText? {
      LongerHistory(s.history, s.pubs[p].doc);
    }
  }

  lemma ReadingSees(s: State, kind: Kind, c: nat)
    requires LockInv(s) && StoreInv(s) && c in s.reqs && s.reqs[c].Reading?
    ensures ValueAt(s.history, kind, |s.history|) == if kind.Get? then s.text else Epoch(s.version)
  {
    assert !HalfStored(s);
    assert s.history[..|s.history|] == s.history;
  }

  /** Publishers that have stored stay, with their position, while anyone is offering. */
  lemma RunningKept(s: State, a: Action, s': State, pos: nat)
    requires Step(s, a) == Some(s') && StillRunning(s, pos) && Offers(s) != {}
    ensures StillRunning(s', pos)
  {
    var p :| p in s.pubs && Stored(s.pubs[p]) && s.pubs[p].pos == pos;
    assert p in s'.pubs && Stored(s'.pubs[p]) && s'.pubs[p].pos == pos;
  }

  /** A document that is new in the history belongs to the publisher that just stored it. */
  lemma NewlyStored(s: State, a: Action, s': State)
    requires Step(s, a) == Some(s')
    ensures s'.history == s.history || (|s'.history| == |s.history| + 1 && StillRunning(s', |s'.history|))
    ensures forall c :: c in s'.reqs && s'.reqs[c].Offering? ==>
              (c in s.reqs && s'.reqs[c] == s.reqs[c])
              || (c in s.reqs && s.reqs[c].Choosing? && s'.reqs[c].seen == s.reqs[c].seen
                  && s'.reqs[c].offered == |s.history| == |s'.history|)
  {
    if a.Store? && s.pubs[a.p].StoringText? {
      assert a.p in s'.pubs && Stored(s'.pubs[a.p]) && s'.pubs[a.p].pos == |s'.history|;
    }
  }

  lemma OfferStep(s: State, a: Action, s': State)
    requires SeenInv(s) && OfferInv(s) && Step(s, a) == Some(s')
    ensures OfferInv(s')
  {
    NewlyStored(s, a, s');
    hide Step, StillRunning;
    forall c, pos | c in s'.reqs && s'.reqs[c].Offering? && s'.reqs[c].offered < pos <= |s'.history|
      ensures StillRunning(s', pos)
    {
      if pos <= |s.history| {
        assert c in Offers(s);
        RunningKept(s, a, s', pos);
      }
    }
  }

  lemma StoreOnlyAppends(s: State, a: Action, s': State)
    requires Step(s, a) == Some(s')
    ensures s.history <= s'.history
    ensures a.Store? ==> s'.reqs == s.reqs
  {
  }

  // ------------------------------------------------------------------- every run

  /** The invariants hold in every reachable state, for any number of overlapping publishers and requests. */
  lemma {:induction false} EveryRun(actions: seq<Action>, s: State)
    requires Run(INIT, actions) == Some(s)
    ensures Inv(s)
  {
    if actions != [] {
      var before := Run(INIT, actions[..|actions| - 1]).value;
      EveryRun(actions[..|actions| - 1], before);
      InvStep(before, actions[|actions| - 1], s);
    }
  }

  lemma InvStep(s: State, a: Action, s': State)
    requires Inv(s) && Step(s, a) == Some(s')
    ensures Inv(s')
  {
    hide Step, LockInv, StoreInv, PositionInv, PairInv, ReplyInv, ReadInv, OwedInv, AnswerInv, SeenInv, OfferInv;
    LockStep(s, a, s');
    StoreStepKeeps(s, a, s');
    PositionStep(s, a, s');
    PairStep(s, a, s');
    ReplyStepKeeps(s, a, s');
    ReadStep(s, a, s');
    OwedStep(s, a, s');
    AnswerStep(s, a, s');
    SeenStep(s, a, s');
    OfferStep(s, a, s');
  }
}
