/** `copyResponse` and `maxLatencyWriter` (reverseproxy.go): one goroutine copies the body, another
    flushes on a ticker, a mutex keeps `Write` and `Flush` apart and an unbuffered channel ends the loop. */
module LatencyWriter {
  import opened Common

  /** The copying goroutine, by what it does next. */
  datatype Copier =
    | Reading
    | WantsLock(chunk: string)
    | Writing(chunk: string)
    | Unlocking(complete: bool)
    | Stopping
    | Returned

  /** The flush loop, by what it does next. */
  datatype Flusher = Selecting | FlushWantsLock | Flushing | FlushUnlocking | Exited

  datatype Holder = Free | ByCopier | ByFlusher

  /** `flushed` is how much of the destination the last flush covered; `failed` records that a read or
      a write ended the copy early. */
  datatype State = State(
    copier: Copier, flusher: Flusher, lock: Holder,
    src: string, dst: string, flushed: nat, failed: bool)

  datatype Action =
    | Read(n: nat) | Eof | ReadFails | LockForWrite | Write(k: nat) | UnlockAfterWrite | Stop
    | Tick | LockForFlush | Flush | UnlockAfterFlush

  function Init(src: string): State {
    State(Reading, Selecting, Free, src, "", 0, false)
  }

  /** The copier: `io.CopyBuffer` over the wrapped writer, then `stop`. A short write ends the copy. */
  function CopierStep(s: State, a: Action): Option<State> {
    match a
    case Read(n) =>
      if s.copier.Reading? && 0 < n <= |s.src|
      then Some(s.(copier := WantsLock(s.src[..n]), src := s.src[n..])) else None
    case Eof => if s.copier.Reading? && s.src == "" then Some(s.(copier := Stopping)) else None
    case ReadFails => if s.copier.Reading? then Some(s.(copier := Stopping, failed := true)) else None
    case LockForWrite =>
      if s.copier.WantsLock? && s.lock.Free?
      then Some(s.(copier := Writing(s.copier.chunk), lock := ByCopier)) else None
    case Write(k) =>
      if s.copier.Writing? && k <= |s.copier.chunk|
      then Some(s.(copier := Unlocking(k == |s.copier.chunk|), dst := s.dst + s.copier.chunk[..k],
                   failed := s.failed || k < |s.copier.chunk|))
      else None
    case UnlockAfterWrite =>
      if s.copier.Unlocking?
      then Some(s.(copier := if s.copier.complete then Reading else Stopping, lock := Free)) else None
    case _ => None
  }

  /** The flush loop. The ticker may fire at any time, also while `stop` is waiting. */
  function FlusherStep(s: State, a: Action): Option<State> {
    match a
    case Tick => if s.flusher.Selecting? then Some(s.(flusher := FlushWantsLock)) else None
    case LockForFlush =>
      if s.flusher.FlushWantsLock? && s.lock.Free?
      then Some(s.(flusher := Flushing, lock := ByFlusher)) else None
    case Flush =>
      if s.flusher.Flushing? then Some(s.(flusher := FlushUnlocking, flushed := |s.dst|)) else None
    case UnlockAfterFlush =>
      if s.flusher.FlushUnlocking? then Some(s.(flusher := Selecting, lock := Free)) else None
    case _ => None
  }

  predicate IsFlusherAction(a: Action) {
    a.Tick? || a.LockForFlush? || a.Flush? || a.UnlockAfterFlush?
  }

  function Step(s: State, a: Action): Option<State> {
    if a.Stop? then
      // m.done <- true meets <-m.done
      if s.copier.Stopping? && s.flusher.Selecting?
      then Some(s.(copier := Returned, flusher := Exited)) else None
    else if IsFlusherAction(a) then FlusherStep(s, a)
    else CopierStep(s, a)
  }

  function Run(s: State, actions: seq<Action>): Option<State> {
    if actions == [] then Some(s)
    else
      match Run(s, actions[..|actions| - 1])
      case None => None
      case Some(s') => Step(s', actions[|actions| - 1])
  }

  // -------------------------------------------------------------------- invariant

  /** Bytes read but not yet written. */
  function Pending(s: State): string {
    if s.copier.WantsLock? || s.copier.Writing? then s.copier.chunk else ""
  }

  ghost predicate Inv(s: State, src: string) {
    && (s.copier.Writing? || s.copier.Unlocking? <==> s.lock.ByCopier?)
    && (s.flusher.Flushing? || s.flusher.FlushUnlocking? <==> s.lock.ByFlusher?)
    && (s.copier.Returned? <==> s.flusher.Exited?)
    && s.flushed <= |s.dst|
    && (s.copier.Unlocking? ==> s.copier.complete == !s.failed)
    && (s.failed ==> s.copier.Unlocking? || s.copier.Stopping? || s.copier.Returned?)
    && (!s.failed ==> s.dst + Pending(s) + s.src == src)
    && (!s.failed && (s.copier.Stopping? || s.copier.Returned?) ==> s.src == "")
    && s.dst <= src
  }

  lemma InvStep(s: State, a: Action, s': State, src: string)
    requires Inv(s, src) && Step(s, a) == Some(s')
    ensures Inv(s', src)
  {
    match a
    case Read(n) => assert s.src == s.src[..n] + s.src[n..];
    case Write(k) => WritePrefix(s.dst, s.copier.chunk, s.src, k, src, s.failed);
    case _ =>
  }

  lemma WritePrefix(dst: string, chunk: string, rest: string, k: nat, src: string, failed: bool)
    requires k <= |chunk| && (!failed ==> dst + chunk + rest == src)
    ensures !failed ==> dst + chunk[..k] <= src && (k == |chunk| ==> dst + chunk[..k] + "" + rest == src)
  {
    assert chunk[..|chunk|] == chunk;
  }

  lemma {:induction false} EveryRun(src: string, actions: seq<Action>, s: State)
    requires Run(Init(src), actions) == Some(s)
    ensures Inv(s, src)
  {
    if actions != [] {
      var before := Run(Init(src), actions[..|actions| - 1]).value;
      EveryRun(src, actions[..|actions| - 1], before);
      InvStep(before, actions[|actions| - 1], s, src);
    }
  }

  // ------------------------------------------------------------------- guarantees

  /** `Write` and `Flush` on the destination never overlap. */
  lemma NeverOverlap(src: string, actions: seq<Action>, s: State)
    requires Run(Init(src), actions) == Some(s)
    ensures !(s.copier.Writing? && s.flusher.Flushing?)
  {
    EveryRun(src, actions, s);
  }

  /** What reached the destination is always the beginning of the source, and all of it once the copy
      has returned without a failure. */
  lemma BytesInOrder(src: string, actions: seq<Action>, s: State)
    requires Run(Init(src), actions) == Some(s)
    ensures s.dst <= src
    ensures s.copier.Returned? && !s.failed ==> s.dst == src
  {
    EveryRun(src, actions, s);
  }

  /** Once `stop` has returned nothing happens any more: in particular there is no further flush, however
      the run goes on. */
  lemma {:induction false} NothingAfterStop(src: string, actions: seq<Action>, s: State, more: seq<Action>)
    requires Run(Init(src), actions) == Some(s) && s.copier.Returned?
    ensures Run(s, more).Some? ==> more == []
  {
    if more != [] {
      var init := more[..|more| - 1];
      NothingAfterStop(src, actions, s, init);
      EveryRun(src, actions, s);
      assert Step(s, more[|more| - 1]).None?;
      assert Run(s, init).Some? ==> Run(s, init) == Some(s);
    }
  }

  /** A flush covers everything written by then, and touches nothing else. */
  lemma FlushCovers(src: string, actions: seq<Action>, s: State)
    requires Run(Init(src), actions) == Some(s) && Step(s, Flush).Some?
    ensures Step(s, Flush).value == s.(flusher := FlushUnlocking, flushed := |s.dst|)
  {
  }

  lemma Extend(s0: State, actions: seq<Action>, s: State, a: Action) returns (actions': seq<Action>, s': State)
    requires Run(s0, actions) == Some(s) && Step(s, a).Some?
    ensures Run(s0, actions') == Some(s') && Step(s, a) == Some(s')
    ensures actions' == actions + [a]
  {
    actions', s' := actions + [a], Step(s, a).value;
    assert actions'[..|actions|] == actions;
  }

  /** A tick that finds the lock free leads to a flush of everything written, and back to the select. */
  lemma TickFlushes(s0: State, actions: seq<Action>, s: State) returns (actions': seq<Action>, s': State)
    requires Run(s0, actions) == Some(s) && s.flusher.Selecting? && s.lock.Free?
    ensures actions' == actions + [Tick] + [LockForFlush] + [Flush] + [UnlockAfterFlush]
    ensures Run(s0, actions') == Some(s') && s' == s.(flushed := |s.dst|)
  {
    hide Run;
    actions', s' := Extend(s0, actions, s, Tick);
    actions', s' := Extend(s0, actions', s', LockForFlush);
    actions', s' := Extend(s0, actions', s', Flush);
    actions', s' := Extend(s0, actions', s', UnlockAfterFlush);
  }

  /** One turn of the copy loop: some chunk is read and written, or only its beginning, which ends the copy. */
  lemma CopyTurn(s0: State, actions: seq<Action>, s: State, n: nat, k: nat) returns (actions': seq<Action>, s': State)
    requires Run(s0, actions) == Some(s) && s.copier.Reading? && s.lock.Free? && 0 < n <= |s.src| && k <= n
    ensures Run(s0, actions') == Some(s')
    ensures s' == s.(copier := if k == n then Reading else Stopping, src := s.src[n..], dst := s.dst + s.src[..k],
                     failed := s.failed || k < n)
  {
    hide Run;
    actions', s' := Extend(s0, actions, s, Read(n));
    actions', s' := Extend(s0, actions', s', LockForWrite);
    actions', s' := Extend(s0, actions', s', Write(k));
    assert s.src[..n][..k] == s.src[..k];
    actions', s' := Extend(s0, actions', s', UnlockAfterWrite);
  }

  /** Every source can be copied in full, in chunks of any size, and the copy returns. */
  lemma CopyCompletes(src: string, size: nat, actions: seq<Action>, s: State) returns (actions': seq<Action>, s': State)
    requires size > 0 && Run(Init(src), actions) == Some(s)
    requires s.copier.Reading? && s.lock.Free? && s.flusher.Selecting? && !s.failed
    ensures Run(Init(src), actions') == Some(s')
    ensures s'.copier.Returned? && s'.flusher.Exited? && !s'.failed && s'.dst == src
    decreases |s.src|
  {
    if s.src == "" {
      hide Run;
      actions', s' := Extend(Init(src), actions, s, Eof);
      actions', s' := Extend(Init(src), actions', s', Stop);
      EveryRun(src, actions', s');
    } else {
      hide Run, Step;
      var n := if size <= |s.src| then size else |s.src|;
      actions', s' := CopyTurn(Init(src), actions, s, n, n);
      actions', s' := CopyCompletes(src, size, actions', s');
    }
  }

  /** The steps that the copier still has to make, at most. */
  function StepsLeft(s: State): nat {
    4 * |s.src| + match s.copier
                  case WantsLock(_) => 5
                  case Writing(_) => 4
                  case Unlocking(_) => 3
                  case Reading => 2
                  case Stopping => 1
                  case Returned => 0
  }

  /** The copy ends: each step of the copier brings it nearer to its return, and no step of the flush loop delays it. A
      read may fail at any time, and then nothing more is read. */
  lemma CopyAdvances(s: State, a: Action, s': State)
    requires Step(s, a) == Some(s')
    ensures if IsFlusherAction(a) then StepsLeft(s') == StepsLeft(s) else StepsLeft(s') < StepsLeft(s)
  {
  }

  lemma ReadFailureEnds(s: State)
    requires s.copier.Reading?
    ensures Step(s, ReadFails) == Some(s.(copier := Stopping, failed := true))
  {
  }

  /** Whoever holds the mutex has a step, so the other side always gets it. */
  lemma HolderMoves(src: string, actions: seq<Action>, s: State)
    requires Run(Init(src), actions) == Some(s)
    ensures s.lock.ByCopier? ==> Step(s, UnlockAfterWrite).Some? || forall k: nat :: k <= |Pending(s)| ==> Step(s, Write(k)).Some?
    ensures s.lock.ByFlusher? ==> Step(s, UnlockAfterFlush).Some? || Step(s, Flush).Some?
  {
    EveryRun(src, actions, s);
  }

  /** No reachable state is stuck before the copy has returned, even if nothing fails and no tick comes. */
  lemma NoDeadlock(src: string, actions: seq<Action>, s: State)
    requires Run(Init(src), actions) == Some(s) && !s.copier.Returned?
    ensures exists a: Action :: !a.ReadFails? && !a.Tick? && Step(s, a).Some?
  {
    EveryRun(src, actions, s);
    var a := match s.copier
      case Reading => if s.src == "" then Eof else Read(1)
      case WantsLock(_) => if s.lock.Free? then LockForWrite
                           else if s.flusher.Flushing? then Flush else UnlockAfterFlush
      case Writing(chunk) => Write(|chunk|)
      case Unlocking(_) => UnlockAfterWrite
      case Stopping => if s.flusher.Selecting? then Stop else if s.flusher.FlushWantsLock? then LockForFlush
                       else if s.flusher.Flushing? then Flush else UnlockAfterFlush
      case Returned => Stop;
    assert Step(s, a).Some?;
  }

  /** The steps of the flush loop that lead back to its select. */
  function WayBack(f: Flusher): seq<Action> {
    match f
    case FlushWantsLock => [LockForFlush, Flush, UnlockAfterFlush]
    case Flushing => [Flush, UnlockAfterFlush]
    case FlushUnlocking => [UnlockAfterFlush]
    case _ => []
  }

  /** A waiting `stop` is never waiting forever: the flush loop alone, in at most three steps, comes back
      to the select where the rendezvous is enabled. */
  lemma StopGetsThrough(src: string, actions: seq<Action>, s: State)
    requires Run(Init(src), actions) == Some(s) && s.copier.Stopping?
    ensures |WayBack(s.flusher)| <= 3
    ensures var s' := Run(s, WayBack(s.flusher)); s'.Some? && Step(s'.value, Stop).Some?
  {
    EveryRun(src, actions, s);
    RunThree(s, LockForFlush, Flush, UnlockAfterFlush);
    RunThree(s, Flush, UnlockAfterFlush, Stop);
    RunThree(s, UnlockAfterFlush, Stop, Stop);
  }

  lemma RunThree(s: State, a: Action, b: Action, c: Action)
    ensures Run(s, [a]) == Step(s, a)
    ensures Step(s, a).Some? ==> Run(s, [a, b]) == Step(Step(s, a).value, b)
    ensures Step(s, a).Some? && Step(Step(s, a).value, b).Some? ==>
              Run(s, [a, b, c]) == Step(Step(Step(s, a).value, b).value, c)
  {
    hide Step;
    assert [a][..0] == [] && [a, b][..1] == [a] && [a, b, c][..2] == [a, b];
  }
}
