/** The websocket part of the reverse proxy (reverseproxy.go): the transport reads the handshake through
    a connection that remembers what it read, the proxy replays those bytes to the client and then
    copies in both directions. */
module WebsocketTunnel {
  import opened Common

  // -------------------------------------------------------- connections and copying

  const BUFFER_SIZE := 32 * 1024

  /** One end of a connection: what is still to be read from it, and what was written to it. */
  class Conn {
    var unread: Bytes
    var written: Bytes

    constructor (incoming: Bytes)
      ensures unread == incoming && written == []
    {
      unread, written := incoming, [];
    }

    /** A read delivers some non-empty beginning of what is left; 0 means the end. */
    method Read(b: array<Byte>) returns (n: nat)
      requires b.Length > 0
      modifies this`unread, b
      ensures n <= b.Length && (n == 0 <==> old(unread) == [])
      ensures b[..n] + unread == old(unread)
    {
      if unread == [] {
        return 0;
      }
      n :| 0 < n <= b.Length && n <= |unread|;
      forall i | 0 <= i < n {
        b[i] := unread[i];
      }
      assert b[..n] == unread[..n];
      unread := unread[n..];
    }

    method Write(data: Bytes)
      modifies this`written
      ensures written == old(written) + data
    {
      written := written + data;
    }
  }

  class ConnHijackerTransport {
    var replay: Bytes

    constructor ()
      ensures replay == []
    {
      replay := [];
    }
  }

  class HijackedConn {
    const conn: Conn
    const hj: ConnHijackerTransport

    constructor (conn: Conn, hj: ConnHijackerTransport)
      ensures this.conn == conn && this.hj == hj
    {
      this.conn, this.hj := conn, hj;
    }

    /** `hijackedConn.Read`: what was replayed so far and what is left are always the whole stream. It makes
        the handshake step of the tunnel. */
    method Read(b: array<Byte>) returns (n: nat)
      requires b.Length > 0
      modifies conn`unread, hj, b
      ensures n <= b.Length && (n == 0 <==> old(conn.unread) == [])
      ensures hj.replay == old(hj.replay) + b[..n]
      ensures hj.replay + conn.unread == old(hj.replay) + old(conn.unread)
      ensures n > 0 ==> forall s: State :: s.phase.RoundTrip? && s.replay == old(hj.replay) && s.backUnread == old(conn.unread) ==>
                HandshakeStep(s, TransportRead(n)) == Some(s.(replay := hj.replay, backUnread := conn.unread))
    {
      n := conn.Read(b);
      assert b[..n] == old(conn.unread)[..n] && conn.unread == old(conn.unread)[n..];
      hj.replay := hj.replay + b[..n];
    }
  }

  /** The state `s` with one direction, from the backend or to it, replaced. */
  function WithFlow(s: State, back: bool, unread: Bytes, chunk: Bytes, written: Bytes): State {
    if back then s.(backUnread := unread, backChunk := chunk, toClient := written)
    else s.(frontUnread := unread, frontChunk := chunk, toBackend := written)
  }

  /** One direction, copied to its end. The end of the client's stream closes the tunnel. */
  function Copied(s: State, back: bool, written: Bytes): State {
    var t := WithFlow(s, back, [], [], written);
    if back then t.(backDone := true) else t.(front := Finished, phase := Closed)
  }

  /** The direction can be copied, and nothing of it is in the copier's hands. */
  predicate ReadyToCopy(s: State, back: bool, unread: Bytes, written: Bytes) {
    s.phase.Open? && (if back then !s.backDone else s.front.Copying?) && s == WithFlow(s, back, unread, [], written)
  }

  /** One turn of the copy loop: a read and a write. */
  lemma CopyTurn(s: State, actions: seq<Action>, back: bool, chunk: Bytes, unread: Bytes, written: Bytes)
    returns (actions': seq<Action>)
    requires s.phase.Open? && (if back then !s.backDone else s.front.Copying?) && chunk != []
    requires Run(s, actions) == Some(WithFlow(s, back, chunk + unread, [], written))
    ensures Run(s, actions') == Some(WithFlow(s, back, unread, [], written + chunk))
  {
    hide Run;
    var t := WithFlow(s, back, chunk + unread, [], written);
    assert (chunk + unread)[..|chunk|] == chunk && (chunk + unread)[|chunk|..] == unread;
    assert chunk[..|chunk|] == chunk && chunk[|chunk|..] == [];
    actions', t := Extend(s, actions, t, if back then BackRead(|chunk|) else FrontRead(|chunk|));
    actions', t := Extend(s, actions', t, if back then BackWrite(|chunk|) else FrontWrite(|chunk|));
  }

  lemma CopyEnd(s: State, actions: seq<Action>, back: bool, written: Bytes) returns (actions': seq<Action>)
    requires s.phase.Open? && (if back then !s.backDone else s.front.Copying?)
    requires Run(s, actions) == Some(WithFlow(s, back, [], [], written))
    ensures Run(s, actions') == Some(Copied(s, back, written))
  {
    hide Run;
    var t := WithFlow(s, back, [], [], written);
    actions', t := Extend(s, actions, t, if back then BackEof else FrontEof);
  }

  /** `pooledIoCopy`: moves everything that is left, in order. It makes the steps of its direction of the
      tunnel: `actions` takes any state `s` of the tunnel with these two connections to the end of the copy. */
  method PooledIoCopy(dst: Conn, src: Conn, ghost s: State, ghost back: bool) returns (ghost actions: seq<Action>)
    requires dst != src && ReadyToCopy(s, back, src.unread, dst.written)
    modifies dst`written, src`unread
    ensures src.unread == []
    ensures dst.written == old(dst.written) + old(src.unread)
    ensures Run(s, actions) == Some(Copied(s, back, dst.written))
  {
    hide Step, Run, WithFlow, Copied;
    var buf := new Byte[BUFFER_SIZE];
    ghost var t;
    actions, t := RunFrom(s);
    var n := src.Read(buf);
    while n > 0
      invariant 0 <= n <= buf.Length
      invariant n == 0 ==> src.unread == []
      invariant dst.written + buf[..n] + src.unread == old(dst.written) + old(src.unread)
      invariant Run(s, actions) == Some(WithFlow(s, back, buf[..n] + src.unread, [], dst.written))
      decreases |src.unread| + n
    {
      actions := CopyTurn(s, actions, back, buf[..n], src.unread, dst.written);
      dst.Write(buf[..n]);
      n := src.Read(buf);
    }
    assert buf[..n] + src.unread == [];
    actions := CopyEnd(s, actions, back, dst.written);
  }

  // ----------------------------------------------------------- the tunnel, step by step

  datatype Phase = RoundTrip | Replaying | Open | Closed
  datatype Front = Peeking | Copying | Finished

  /** Both directions of the tunnel. `back*` is the backend's stream on its way to the client; `front*` is
      the client's stream, whose first bytes may sit in the server's read buffer after `Hijack`. */
  datatype State = State(
    phase: Phase, replay: Bytes, backUnread: Bytes, backChunk: Bytes, toClient: Bytes, backDone: bool,
    front: Front, buffered: Bytes, frontUnread: Bytes, frontChunk: Bytes, toBackend: Bytes)

  datatype Action =
    | TransportRead(n: nat)
    | Hijack(buffered: nat)
    | WriteReplay
    | BackRead(n: nat) | BackWrite(n: nat) | BackEof
    | FrontPeek | FrontRead(n: nat) | FrontWrite(n: nat) | FrontEof

  function Init(back: Bytes, client: Bytes): State {
    State(RoundTrip, [], back, [], [], false, Peeking, [], client, [], [])
  }

  /** Up to the replay: the handshake is read by the transport, and nothing else is running. */
  function HandshakeStep(s: State, a: Action): Option<State> {
    match a
    case TransportRead(n) =>
      if s.phase.RoundTrip? && 0 < n <= |s.backUnread|
      then Some(s.(replay := s.replay + s.backUnread[..n], backUnread := s.backUnread[n..])) else None
    case Hijack(n) =>
      if s.phase.RoundTrip? && n <= |s.frontUnread|
      then Some(s.(phase := Replaying, buffered := s.frontUnread[..n], frontUnread := s.frontUnread[n..])) else None
    case WriteReplay =>
      if s.phase.Replaying? then Some(s.(phase := Open, toClient := s.toClient + s.replay)) else None
    case _ => None
  }

  /** The goroutine that copies from the backend. A write of a chunk may take several steps, and the connections
      may be closed in between; then it fails. */
  function BackStep(s: State, a: Action): Option<State> {
    if !s.phase.Open? || s.backDone then None
    else
      match a
      case BackRead(n) =>
        if s.backChunk == [] && 0 < n <= |s.backUnread|
        then Some(s.(backChunk := s.backUnread[..n], backUnread := s.backUnread[n..])) else None
      case BackWrite(n) =>
        if 0 < n <= |s.backChunk|
        then Some(s.(toClient := s.toClient + s.backChunk[..n], backChunk := s.backChunk[n..])) else None
      case BackEof =>
        if s.backChunk == [] && s.backUnread == [] then Some(s.(backDone := true)) else None
      case _ => None
  }

  /** The serving goroutine: buffered bytes first, then the copy; its end closes both connections. */
  function FrontStep(s: State, a: Action): Option<State> {
    if !s.phase.Open? then None
    else
      match a
      case FrontPeek =>
        if s.front.Peeking? then Some(s.(front := Copying, toBackend := s.toBackend + s.buffered)) else None
      case FrontRead(n) =>
        if s.front.Copying? && s.frontChunk == [] && 0 < n <= |s.frontUnread|
        then Some(s.(frontChunk := s.frontUnread[..n], frontUnread := s.frontUnread[n..])) else None
      case FrontWrite(n) =>
        if s.front.Copying? && 0 < n <= |s.frontChunk|
        then Some(s.(toBackend := s.toBackend + s.frontChunk[..n], frontChunk := s.frontChunk[n..])) else None
      case FrontEof =>
        if s.front.Copying? && s.frontChunk == [] && s.frontUnread == []
        then Some(s.(front := Finished, phase := Closed)) else None
      case _ => None
  }

  function Step(s: State, a: Action): Option<State> {
    if a.TransportRead? || a.Hijack? || a.WriteReplay? then HandshakeStep(s, a)
    else if a.BackRead? || a.BackWrite? || a.BackEof? then BackStep(s, a)
    else FrontStep(s, a)
  }

  function Run(s: State, actions: seq<Action>): Option<State> {
    if actions == [] then Some(s)
    else
      match Run(s, actions[..|actions| - 1])
      case None => None
      case Some(s') => Step(s', actions[|actions| - 1])
  }

  lemma RunFrom(s0: State) returns (actions: seq<Action>, s: State)
    ensures actions == [] && s == s0 && Run(s0, actions) == Some(s)
  {
    actions, s := [], s0;
  }

  lemma Extend(s0: State, actions: seq<Action>, s: State, a: Action) returns (actions': seq<Action>, s': State)
    requires Run(s0, actions) == Some(s) && Step(s, a).Some?
    ensures Run(s0, actions') == Some(s') && Step(s, a) == Some(s')
  {
    actions', s' := actions + [a], Step(s, a).value;
    assert actions'[..|actions|] == actions;
  }

  // -------------------------------------------------------------------- conservation

  predicate Replayed(s: State) {
    s.phase.Open? || s.phase.Closed?
  }

  /** Every byte is in exactly one place, in order, in both directions. */
  ghost predicate Inv(s: State, back: Bytes, client: Bytes) {
    && (if Replayed(s) then s.toClient + s.backChunk + s.backUnread == back
        else s.toClient == [] && s.backChunk == [] && s.replay + s.backUnread == back)
    && (s.backDone ==> Replayed(s) && s.backChunk == [] && s.backUnread == [])
    && (if s.front.Peeking? then s.toBackend == [] && s.frontChunk == [] && s.buffered + s.frontUnread == client
        else Replayed(s) && s.toBackend + s.frontChunk + s.frontUnread == client)
    && (s.front.Finished? ==> s.frontChunk == [] && s.frontUnread == [])
    && (s.phase.RoundTrip? ==> s.buffered == [])
    && (s.phase.Closed? <==> s.front.Finished?)
  }

  /** Moving the first bytes of what is left into the hands of a reader. */
  lemma Taken(before: Bytes, left: Bytes, n: nat)
    requires n <= |left|
    ensures before + left[..n] + left[n..] == before + left
    ensures before + [] + left == before + left
  {
  }

  lemma HandshakeKeeps(s: State, a: Action, s': State, back: Bytes, client: Bytes)
    requires Inv(s, back, client) && HandshakeStep(s, a) == Some(s')
    ensures Inv(s', back, client)
  {
    match a
    case TransportRead(n) => Taken(s.replay, s.backUnread, n);
    case Hijack(n) => Taken([], s.frontUnread, n);
    case WriteReplay => Taken(s.replay, s.backUnread, 0);
    case _ =>
  }

  lemma BackKeeps(s: State, a: Action, s': State, back: Bytes, client: Bytes)
    requires Inv(s, back, client) && BackStep(s, a) == Some(s')
    ensures Inv(s', back, client)
  {
    match a
    case BackRead(n) => Taken(s.toClient, s.backUnread, n);
    case BackWrite(n) => Taken(s.toClient, s.backChunk, n);
    case _ =>
  }

  lemma FrontKeeps(s: State, a: Action, s': State, back: Bytes, client: Bytes)
    requires Inv(s, back, client) && FrontStep(s, a) == Some(s')
    ensures Inv(s', back, client)
  {
    match a
    case FrontRead(n) => Taken(s.toBackend, s.frontUnread, n);
    case FrontWrite(n) => Taken(s.toBackend, s.frontChunk, n);
    case FrontPeek => Taken(s.buffered, s.frontUnread, 0);
    case _ =>
  }

  lemma InvStep(s: State, a: Action, s': State, back: Bytes, client: Bytes)
    requires Inv(s, back, client) && Step(s, a) == Some(s')
    ensures Inv(s', back, client)
  {
    hide Inv, HandshakeStep, BackStep, FrontStep;
    if HandshakeStep(s, a) == Some(s') {
      HandshakeKeeps(s, a, s', back, client);
    } else if BackStep(s, a) == Some(s') {
      BackKeeps(s, a, s', back, client);
    } else {
      FrontKeeps(s, a, s', back, client);
    }
  }

  lemma {:induction false} InvKept(back: Bytes, client: Bytes, s: State, more: seq<Action>, s': State)
    requires Inv(s, back, client) && Run(s, more) == Some(s')
    ensures Inv(s', back, client)
  {
    if more != [] {
      hide Inv, Step;
      var init := more[..|more| - 1];
      InvKept(back, client, s, init, Run(s, init).value);
      InvStep(Run(s, init).value, more[|more| - 1], s', back, client);
    }
  }

  lemma EveryRun(back: Bytes, client: Bytes, actions: seq<Action>, s: State)
    requires Run(Init(back, client), actions) == Some(s)
    ensures Inv(s, back, client)
  {
    InvKept(back, client, Init(back, client), actions, s);
  }

  /** The tunnel loses, duplicates and reorders nothing: at any moment, in every interleaving, each side
      has received a beginning of the other side's stream, and what it has not received is still in the
      proxy's hands or unread. Before the replay, the replay buffer is exactly what was read. */
  lemma NothingLost(back: Bytes, client: Bytes, actions: seq<Action>, s: State)
    requires Run(Init(back, client), actions) == Some(s)
    ensures s.toClient <= back && s.toBackend <= client
    ensures !Replayed(s) ==> s.replay + s.backUnread == back
    ensures Replayed(s) ==> s.toClient + s.backChunk + s.backUnread == back
    ensures s.backDone ==> s.toClient == back
    ensures s.front.Finished? || s.phase.Closed? ==> s.toBackend == client
  {
    EveryRun(back, client, actions, s);
  }

  /** No reachable state is stuck before the close: the proxy has a step, in whatever state both directions are. */
  lemma NoDeadlock(back: Bytes, client: Bytes, actions: seq<Action>, s: State)
    requires Run(Init(back, client), actions) == Some(s) && !s.phase.Closed?
    ensures exists a :: Step(s, a).Some?
    ensures s.phase.Open? && !s.backDone ==> exists a :: BackStep(s, a).Some?
    ensures s.phase.Open? ==> exists a :: FrontStep(s, a).Some?
  {
    EveryRun(back, client, actions, s);
    if s.phase.Open? {
      var b := if s.backChunk != [] then BackWrite(|s.backChunk|) else if s.backUnread != [] then BackRead(1) else BackEof;
      assert !s.backDone ==> BackStep(s, b).Some?;
      var f := if s.front.Peeking? then FrontPeek else if s.frontChunk != [] then FrontWrite(|s.frontChunk|)
               else if s.frontUnread != [] then FrontRead(1) else FrontEof;
      assert FrontStep(s, f).Some? && Step(s, f).Some?;
    } else {
      var h := if s.phase.RoundTrip? then Hijack(0) else WriteReplay;
      assert Step(s, h).Some?;
    }
  }

  /** The work left: bytes to be read and to be written, and the turns of the protocol. */
  function WorkLeft(s: State): nat {
    2 * |s.backUnread| + |s.backChunk| + (if s.backDone then 0 else 1)
    + 2 * |s.frontUnread| + |s.frontChunk|
    + (match s.phase case RoundTrip => 3 case Replaying => 2 case Open => 1 case Closed => 0)
    + (if s.front.Peeking? then 1 else 0)
  }

  lemma StepAdvances(s: State, a: Action, s': State)
    requires Step(s, a) == Some(s')
    ensures WorkLeft(s') < WorkLeft(s)
  {
  }

  /** Every run ends: each step makes progress, so there are no more of them than twice the bytes of both streams,
      plus five. */
  lemma {:induction false} RunsEnd(back: Bytes, client: Bytes, actions: seq<Action>, s: State)
    requires Run(Init(back, client), actions) == Some(s)
    ensures |actions| + WorkLeft(s) <= 2 * |back| + 2 * |client| + 5
  {
    if actions != [] {
      hide Step, WorkLeft;
      var init := actions[..|actions| - 1];
      var before := Run(Init(back, client), init).value;
      RunsEnd(back, client, init, before);
      StepAdvances(before, actions[|actions| - 1], s);
    }
  }

  /** In the ordinary course everything arrives: the transport may have read any beginning of the backend's stream, and the
      server's read buffer may hold any beginning of the client's. */
  lemma AllDelivered(back: Bytes, client: Bytes, read: nat, buffered: nat) returns (actions: seq<Action>, s: State)
    requires read <= |back| && buffered <= |client|
    ensures Run(Init(back, client), actions) == Some(s)
    ensures s.phase.Closed? && s.replay == back[..read] && s.buffered == client[..buffered]
    ensures s.backDone && s.toClient == back && s.toBackend == client
  {
    hide Run, Inv;
    var init := Init(back, client);
    actions, s := RunFrom(init);
    if read > 0 {
      actions, s := Extend(init, actions, s, TransportRead(read));
      assert [] + back[..read] == back[..read];
    }
    actions, s := Extend(init, actions, s, Hijack(buffered));
    actions, s := Extend(init, actions, s, WriteReplay);
    actions, s := DeliverUpTo(init, actions, s, |back|);
    NothingLost(back, client, actions, s);
    assert |s.backChunk| == 0 && |s.backUnread| == 0;
    actions, s := Extend(init, actions, s, BackEof);
    actions, s := EndFront(init, actions, s);
    NothingLost(back, client, actions, s);
  }

  // ----------------------------------------------------------------------- the close

  /** When the client's side ends, both connections are closed: the client has got the whole backend
      stream exactly if the other direction had nothing left at that moment. */
  lemma CloseCutsExactly(back: Bytes, client: Bytes, actions: seq<Action>, s: State)
    requires Run(Init(back, client), actions) == Some(s) && Step(s, FrontEof).Some?
    ensures var s' := Step(s, FrontEof).value;
            && (s'.toClient == back <==> s.backChunk == [] && s.backUnread == [])
            && forall a :: Step(s', a).None?
  {
    EveryRun(back, client, actions, s);
  }

  /** A continuation that ends with the connections closed and `n` bytes delivered to the client. */
  predicate EndsAt(s: State, more: seq<Action>, n: nat) {
    Run(s, more).Some? && Run(s, more).value.phase.Closed? && |Run(s, more).value.toClient| == n
  }

  /** Once the tunnel is open, the client's end can cut the backend's stream after any length that is not yet
      passed, also inside a chunk that is being written. */
  lemma CutLengthsExactly(back: Bytes, client: Bytes, actions: seq<Action>, s: State, n: nat)
    requires Run(Init(back, client), actions) == Some(s) && s.phase.Open?
    ensures (exists more :: EndsAt(s, more, n)) <==> |s.toClient| <= n <= |back|
  {
    EveryRun(back, client, actions, s);
    if more :| EndsAt(s, more, n) {
      CutLength(back, client, s, more, n);
    }
    if |s.toClient| <= n <= |back| {
      var more, _ := CutFrom(back, client, s, n);
    }
  }

  /** So a run can end with any beginning of the backend's stream, although the backend has closed nothing. */
  lemma CutAnywhere(back: Bytes, client: Bytes, n: nat) returns (actions: seq<Action>, s: State)
    requires n <= |back|
    ensures Run(Init(back, client), actions) == Some(s)
    ensures s.phase.Closed? && s.toClient == back[..n] && s.toBackend == client && !s.backDone
  {
    hide Run, Inv;
    var init := Init(back, client);
    actions, s := RunFrom(init);
    actions, s := Extend(init, actions, s, Hijack(0));
    actions, s := Extend(init, actions, s, WriteReplay);
    EveryRun(back, client, actions, s);
    actions, s := DeliverUpTo(init, actions, s, n);
    actions, s := EndFront(init, actions, s);
    NothingLost(back, client, actions, s);
  }

  /** The backend's copier delivers up to some length. */
  lemma DeliverUpTo(s0: State, actions: seq<Action>, s: State, n: nat) returns (actions': seq<Action>, s': State)
    requires Run(s0, actions) == Some(s) && s.phase.Open?
    requires s.backDone ==> s.backChunk == [] && s.backUnread == []
    requires |s.toClient| <= n <= |s.toClient| + |s.backChunk| + |s.backUnread|
    ensures Run(s0, actions') == Some(s') && |s'.toClient| == n
    ensures s' == s.(toClient := s'.toClient, backChunk := s'.backChunk, backUnread := s'.backUnread)
  {
    hide Run;
    actions', s' := actions, s;
    if |s'.toClient| < n && s'.backChunk != [] {
      var k := n - |s'.toClient|;
      actions', s' := Extend(s0, actions', s', BackWrite(if k < |s'.backChunk| then k else |s'.backChunk|));
    }
    if |s'.toClient| < n {
      var k := n - |s'.toClient|;
      actions', s' := Extend(s0, actions', s', BackRead(k));
      actions', s' := Extend(s0, actions', s', BackWrite(k));
    }
  }

  /** The client's direction runs to its end by itself and closes the tunnel. */
  lemma EndFront(s0: State, actions: seq<Action>, s: State) returns (actions': seq<Action>, s': State)
    requires Run(s0, actions) == Some(s) && s.phase.Open? && !s.front.Finished?
    requires s.front.Peeking? ==> s.frontChunk == []
    ensures Run(s0, actions') == Some(s') && s'.phase.Closed?
    ensures s'.toClient == s.toClient && s'.backDone == s.backDone && s'.replay == s.replay && s'.buffered == s.buffered
  {
    hide Run;
    actions', s' := actions, s;
    if s'.front.Peeking? {
      actions', s' := Extend(s0, actions', s', FrontPeek);
    }
    if s'.frontChunk != [] {
      actions', s' := Extend(s0, actions', s', FrontWrite(|s'.frontChunk|));
    }
    if s'.frontUnread != [] {
      actions', s' := Extend(s0, actions', s', FrontRead(|s'.frontUnread|));
      actions', s' := Extend(s0, actions', s', FrontWrite(|s'.frontChunk|));
    }
    actions', s' := Extend(s0, actions', s', FrontEof);
  }

  lemma CutFrom(back: Bytes, client: Bytes, s: State, n: nat) returns (more: seq<Action>, s': State)
    requires Inv(s, back, client) && s.phase.Open? && |s.toClient| <= n <= |back|
    ensures EndsAt(s, more, n)
  {
    hide Run;
    assert |back| == |s.toClient| + |s.backChunk| + |s.backUnread|;
    more, s' := RunFrom(s);
    more, s' := DeliverUpTo(s, more, s', n);
    more, s' := EndFront(s, more, s');
  }

  lemma DeliveredGrows(s: State, a: Action, s': State)
    requires Step(s, a) == Some(s')
    ensures |s.toClient| <= |s'.toClient|
  {
  }

  lemma {:induction false} DeliveredKept(s: State, more: seq<Action>, s': State)
    requires Run(s, more) == Some(s')
    ensures |s.toClient| <= |s'.toClient|
  {
    if more != [] {
      var init := more[..|more| - 1];
      DeliveredKept(s, init, Run(s, init).value);
      DeliveredGrows(Run(s, init).value, more[|more| - 1], s');
    }
  }

  lemma CutLength(back: Bytes, client: Bytes, s: State, more: seq<Action>, n: nat)
    requires Inv(s, back, client) && s.phase.Open? && EndsAt(s, more, n)
    ensures |s.toClient| <= n <= |back|
  {
    hide Run;
    var s' := Run(s, more).value;
    DeliveredKept(s, more, s');
    InvKept(back, client, s, more, s');
    assert |back| == |s'.toClient| + |s'.backChunk| + |s'.backUnread|;
  }
}
