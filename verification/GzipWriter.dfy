/** `GzipResponseWriter` (gziphandler.go): buffer the body until it is worth compressing.

    The compressor is a tagged stream that carries its plain text, so that "the client can decode
    this" is a statement about the bytes that reached the wire and the header that went before them. */
module GzipWriter {
  import opened Common

  const MIN_SIZE := 512
  const ENCODING := "Content-Encoding"
  const LENGTH := "Content-Length"
  const TYPE := "Content-Type"

  // ------------------------------------------------------ the underlying writer

  datatype Chunk = Plain(data: Bytes) | GzipHead | GzipData(data: Bytes) | GzipTail

  datatype Commit = Commit(code: int, header: Fields)

  /** What the underlying `http.ResponseWriter` holds: the header map, the status line and header
      that were sent, the body, the codes it was told to send, and whether the connection is lost. */
  datatype Wire = Wire(header: Fields, sent: Option<Commit>, body: seq<Chunk>, codes: seq<int>, broken: bool) {
    /** The first code, explicit or implied, takes a snapshot of the header. */
    function Send(code: int): Wire {
      if sent.None? then this.(sent := Some(Commit(code, header))) else this
    }

    function WithHeader(code: int): Wire {
      Send(code).(codes := codes + [code])
    }

    function Put(c: Chunk): Wire {
      if broken then Send(200) else Send(200).(body := body + [c])
    }
  }

  class ResponseWriter {
    var wire: Wire

    constructor (header: Fields)
      ensures wire == Wire(header, None, [], [], false)
    {
      wire := Wire(header, None, [], [], false);
    }

    method WriteHeader(code: int)
      modifies this
      ensures wire == old(wire).WithHeader(code)
    {
      wire := wire.WithHeader(code);
    }

    method Write(c: Chunk) returns (ok: bool)
      modifies this
      ensures wire == old(wire).Put(c)
      ensures ok == !wire.broken
    {
      wire := wire.Put(c);
      ok := !wire.broken;
    }

    method Flush()
      modifies this
      ensures wire == old(wire).Send(200)
    {
      wire := wire.Send(200);
    }
  }

  // ---------------------------------------------------------- the state machine

  /** The state of the wrapper: `gzip` stands for `writer != nil`. A nil buffer and an empty one
      are the same, because appending nothing to a nil slice leaves it nil. */
  datatype State = State(wire: Wire, gzip: bool, code: int, buf: Bytes)

  /** What a handler does with the wrapper, and the loss of the connection. */
  datatype Op =
    | SetHeader(key: string, values: seq<string>)
    | DelHeader(key: string)
    | WriteHeader(code: int)
    | Write(data: Bytes)
    | Flush
    | Break

  /** A response gets a content type with its first write, unless it has one. */
  function Sniffed(h: Fields, b: Bytes, sniff: Bytes -> string): (r: Fields)
    ensures TYPE in r && (TYPE in h ==> r == h)
    ensures forall k :: k != TYPE ==> (k in r <==> k in h) && (k in h ==> r[k] == h[k])
  {
    if TYPE in h then h else h[TYPE := [sniff(b)]]
  }

  /** The header of a compressed response. */
  function Compressed(h: Fields): Fields {
    h[ENCODING := ["gzip"]] - {LENGTH}
  }

  function Started(s: State): State {
    var w0 := s.wire.(header := Compressed(s.wire.header));
    var w1 := if s.code != 0 then w0.WithHeader(s.code) else w0;
    State(w1.Put(GzipHead).Put(GzipData(s.buf)), true, s.code, [])
  }

  function Written(s: State, b: Bytes, sniff: Bytes -> string): State {
    var s0 := s.(wire := s.wire.(header := Sniffed(s.wire.header, b, sniff)));
    if s0.gzip then s0.(wire := s0.wire.Put(GzipData(b)))
    else
      var s1 := s0.(buf := s0.buf + b);
      if Get(s1.wire.header, ENCODING) == "" && |s1.buf| >= MIN_SIZE then Started(s1) else s1
  }

  function Closed(s: State): State {
    if s.gzip then s.(wire := s.wire.Put(GzipTail))
    else
      var w := if s.code != 0 then s.wire.WithHeader(s.code) else s.wire;
      s.(wire := if s.buf != [] then w.Put(Plain(s.buf)) else w)
  }

  function Flushed(s: State): State {
    s.(wire := s.wire.Send(200))
  }

  class GzipResponseWriter {
    const rw: ResponseWriter
    var writer: bool
    var code: int
    var buf: Bytes

    constructor (rw: ResponseWriter)
      ensures this.rw == rw && GetState() == State(rw.wire, false, 0, [])
    {
      this.rw := rw;
      writer, code, buf := false, 0, [];
    }

    function GetState(): State
      reads this, rw
    {
      State(rw.wire, writer, code, buf)
    }

    /** `Write`; the bytes accepted and whether there was no error. */
    method Write(b: Bytes, sniff: Bytes -> string) returns (n: nat, ok: bool)
      modifies this, rw
      ensures GetState() == Written(old(GetState()), b, sniff)
      ensures n == if ok then |b| else 0
      ensures ok == !(rw.wire.broken && writer)
    {
      rw.wire := rw.wire.(header := Sniffed(rw.wire.header, b, sniff));
      if writer {
        ok := rw.Write(GzipData(b));
        return if ok then |b| else 0, ok;
      }
      buf := buf + b;
      if Get(rw.wire.header, ENCODING) == "" && |buf| >= MIN_SIZE {
        ok := StartGzip();
        if !ok {
          return 0, false;
        }
      }
      return |b|, true;
    }

    /** `startGzip`. */
    method StartGzip() returns (ok: bool)
      requires !writer
      modifies this, rw
      ensures GetState() == Started(old(GetState()))
      ensures ok == !rw.wire.broken
    {
      rw.wire := rw.wire.(header := Compressed(rw.wire.header));
      if code != 0 {
        rw.WriteHeader(code);
      }
      writer := true;
      var _ := rw.Write(GzipHead);
      ok := rw.Write(GzipData(buf));
      buf := [];
    }

    /** `WriteHeader`: only remembers the code. */
    method WriteHeader(code: int)
      modifies this
      ensures GetState() == old(GetState()).(code := code)
    {
      this.code := code;
    }

    /** `Flush`. */
    method Flush()
      modifies rw
      ensures GetState() == Flushed(old(GetState()))
    {
      rw.Flush();
    }

    /** `Close`. */
    method Close() returns (ok: bool)
      modifies rw
      ensures GetState() == Closed(old(GetState()))
      ensures ok == !(rw.wire.broken && (writer || buf != []))
    {
      ok := true;
      if !writer {
        if code != 0 {
          rw.WriteHeader(code);
        }
        if buf != [] {
          ok := rw.Write(Plain(buf));
        }
        return;
      }
      ok := rw.Write(GzipTail);
    }
  }

  // ------------------------------------------------------------------ whole runs

  function Step(s: State, op: Op, sniff: Bytes -> string): State {
    match op
    case SetHeader(k, vs) => s.(wire := s.wire.(header := s.wire.header[k := vs]))
    case DelHeader(k) => s.(wire := s.wire.(header := s.wire.header - {k}))
    case WriteHeader(code) => s.(code := code)
    case Write(b) => Written(s, b, sniff)
    case Flush => Flushed(s)
    case Break => s.(wire := s.wire.(broken := true))
  }

  /** The state after a handler has made these calls on a fresh wrapper. */
  function Run(h: Fields, ops: seq<Op>, sniff: Bytes -> string): State {
    if ops == [] then State(Wire(h, None, [], [], false), false, 0, [])
    else Step(Run(h, ops[..|ops| - 1], sniff), ops[|ops| - 1], sniff)
  }

  /** The response: `Close`, and then the server sends a header if nothing was sent. */
  function Response(h: Fields, ops: seq<Op>, sniff: Bytes -> string): Wire {
    Closed(Run(h, ops, sniff)).wire.Send(200)
  }

  // --------------------------------------------- what the handler did, on its own

  /** All the bytes written. */
  function Total(ops: seq<Op>): Bytes {
    if ops == [] then []
    else
      var last := ops[|ops| - 1];
      Total(ops[..|ops| - 1]) + if last.Write? then last.data else []
  }

  /** The last recorded status code, or 0. */
  function LastCode(ops: seq<Op>): int {
    if ops == [] then 0
    else
      var last := ops[|ops| - 1];
      if last.WriteHeader? then last.code else LastCode(ops[..|ops| - 1])
  }

  /** The header as the handler left it, with a sniffed type where it wrote without setting one. */
  function OwnHeader(h: Fields, ops: seq<Op>, sniff: Bytes -> string): Fields {
    if ops == [] then h
    else
      var before := OwnHeader(h, ops[..|ops| - 1], sniff);
      match ops[|ops| - 1]
      case SetHeader(k, vs) => before[k := vs]
      case DelHeader(k) => before - {k}
      case Write(b) => Sniffed(before, b, sniff)
      case _ => before
  }

  /** The last call makes the body worth compressing: a write that finds no encoding set and at
      least 512 bytes so far. */
  predicate Triggers(h: Fields, ops: seq<Op>, sniff: Bytes -> string) {
    && ops != [] && ops[|ops| - 1].Write?
    && Get(OwnHeader(h, ops, sniff), ENCODING) == ""
    && |Total(ops)| >= MIN_SIZE
  }

  /** The first `k` calls end with the one that decides for compression. */
  ghost predicate Decision(h: Fields, ops: seq<Op>, sniff: Bytes -> string, k: nat) {
    && k <= |ops| && Triggers(h, ops[..k], sniff)
    && forall j :: 0 <= j < k ==> !Triggers(h, ops[..j], sniff)
  }

  ghost predicate NoDecision(h: Fields, ops: seq<Op>, sniff: Bytes -> string) {
    forall j :: 0 <= j <= |ops| ==> !Triggers(h, ops[..j], sniff)
  }

  predicate Without(ops: seq<Op>, op: Op) {
    forall i :: 0 <= i < |ops| ==> ops[i] != op
  }

  /** The codes sent on: the recorded one, if any. */
  function Codes(code: int): seq<int> {
    if code != 0 then [code] else []
  }

  function Status(code: int): int {
    if code != 0 then code else 200
  }

  // --------------------------------------------------- before and after deciding

  /** What an early `Flush` has already sent: 200 and the header as it was then. */
  function EarlySent(h: Fields, ops: seq<Op>, sniff: Bytes -> string): Option<Commit> {
    if ops == [] then None
    else
      var before := EarlySent(h, ops[..|ops| - 1], sniff);
      if before.Some? || !ops[|ops| - 1].Flush? then before
      else Some(Commit(200, OwnHeader(h, ops, sniff)))
  }

  lemma {:induction false} EarlySentExactly(h: Fields, ops: seq<Op>, sniff: Bytes -> string)
    ensures EarlySent(h, ops, sniff).None? <==> Without(ops, Flush)
  {
    if ops != [] {
      EarlySentExactly(h, ops[..|ops| - 1], sniff);
    }
  }

  lemma NoDecisionInit(h: Fields, ops: seq<Op>, sniff: Bytes -> string)
    requires ops != [] && NoDecision(h, ops, sniff)
    ensures NoDecision(h, ops[..|ops| - 1], sniff)
    ensures !Triggers(h, ops, sniff)
  {
    hide Triggers;
    var init := ops[..|ops| - 1];
    assert ops[..|ops|] == ops;
    forall j | 0 <= j <= |init| ensures !Triggers(h, init[..j], sniff) {
      assert init[..j] == ops[..j];
    }
  }

  /** Until the decision, nothing but an early flush reaches the wire: the state is the handler's
      own header, last code and bytes. */
  lemma {:induction false} Undecided(h: Fields, ops: seq<Op>, sniff: Bytes -> string)
    requires NoDecision(h, ops, sniff)
    ensures Run(h, ops, sniff)
         == State(Wire(OwnHeader(h, ops, sniff), EarlySent(h, ops, sniff), [], [], !Without(ops, Break)),
                  false, LastCode(ops), Total(ops))
  {
    if ops != [] {
      hide NoDecision;
      NoDecisionInit(h, ops, sniff);
      Undecided(h, ops[..|ops| - 1], sniff);
    }
  }

  /** The plain text inside the chunks. */
  function Text(body: seq<Chunk>): Bytes {
    if body == [] then []
    else
      var last := body[|body| - 1];
      Text(body[..|body| - 1]) + if last.Plain? || last.GzipData? then last.data else []
  }

  /** A compressed stream that is still open. */
  predicate OpenStream(body: seq<Chunk>) {
    && body != [] && body[0] == GzipHead
    && forall i :: 0 < i < |body| ==> body[i].GzipData?
  }

  /** What the decision sends: the recorded code with the compressed header, unless a flush came first. */
  function DecidedSent(h: Fields, ops: seq<Op>, sniff: Bytes -> string): Commit {
    match EarlySent(h, ops, sniff)
    case Some(c) => c
    case None => Commit(Status(LastCode(ops)), Compressed(OwnHeader(h, ops, sniff)))
  }

  /** The state after deciding at the end of `upto`, with `ops` the calls so far. */
  ghost predicate Streaming(s: State, h: Fields, upto: seq<Op>, ops: seq<Op>, sniff: Bytes -> string) {
    && s.gzip
    && s.wire.codes == Codes(LastCode(upto))
    && s.wire.sent == Some(DecidedSent(h, upto, sniff))
    && (s.wire.broken <==> !Without(ops, Break))
    && (Without(ops, Break) ==> OpenStream(s.wire.body) && Text(s.wire.body) == Total(ops))
  }

  lemma TextAppend(body: seq<Chunk>, c: Chunk)
    ensures Text(body + [c]) == Text(body) + if c.Plain? || c.GzipData? then c.data else []
  {
    assert (body + [c])[..|body|] == body;
  }

  /** Starting the compressor on a state that has sent at most an early flush. */
  lemma StartedWire(s: State)
    requires s.wire.body == [] && s.wire.codes == []
    ensures var s' := Started(s);
            && s'.gzip && s'.wire.codes == Codes(s.code) && s'.wire.broken == s.wire.broken
            && s'.wire.sent == Some(match s.wire.sent
                                    case Some(c) => c
                                    case None => Commit(Status(s.code), Compressed(s.wire.header)))
            && (!s.wire.broken ==> OpenStream(s'.wire.body) && Text(s'.wire.body) == s.buf)
  {
    hide Text;
    FirstChunks(s.buf);
    assert [] + [GzipHead] + [GzipData(s.buf)] == [GzipHead, GzipData(s.buf)];
  }

  lemma FirstChunks(b: Bytes)
    ensures Text([GzipHead, GzipData(b)]) == b
  {
    TextAppend([GzipHead], GzipData(b));
    TextAppend([], GzipHead);
    assert [GzipHead] + [GzipData(b)] == [GzipHead, GzipData(b)];
  }

  /** A write changes neither the last code nor what a flush has sent. */
  lemma WriteKeeps(h: Fields, ops: seq<Op>, sniff: Bytes -> string)
    requires ops != [] && ops[|ops| - 1].Write?
    ensures var init := ops[..|ops| - 1];
            && LastCode(ops) == LastCode(init) && EarlySent(h, ops, sniff) == EarlySent(h, init, sniff)
            && (Without(ops, Break) <==> Without(init, Break))
  {
  }

  lemma DecisionIsFirst(h: Fields, ops: seq<Op>, sniff: Bytes -> string)
    requires Decision(h, ops, sniff, |ops|)
    ensures Triggers(h, ops, sniff) && ops != [] && NoDecision(h, ops[..|ops| - 1], sniff)
  {
    assert ops[..|ops|] == ops;
    assert Triggers(h, ops, sniff);
    hide Triggers;
    var init := ops[..|ops| - 1];
    assert forall j :: 0 <= j <= |init| ==> init[..j] == ops[..j];
  }

  /** The deciding write. */
  lemma DecisionStep(h: Fields, ops: seq<Op>, sniff: Bytes -> string)
    requires Decision(h, ops, sniff, |ops|)
    ensures Streaming(Run(h, ops, sniff), h, ops, ops, sniff)
  {
    DecisionIsFirst(h, ops, sniff);
    hide Decision, NoDecision;
    var init := ops[..|ops| - 1];
    Undecided(h, init, sniff);
    WriteKeeps(h, ops, sniff);
    var before := Run(h, init, sniff);
    var s := before.(wire := before.wire.(header := OwnHeader(h, ops, sniff)), buf := Total(ops));
    var b := ops[|ops| - 1].data;
    assert OwnHeader(h, ops, sniff) == Sniffed(before.wire.header, b, sniff);
    assert Total(ops) == before.buf + b;
    assert Run(h, ops, sniff) == Written(before, b, sniff) == Started(s);
    StartedWire(s);
    hide Started, EarlySent, LastCode, Compressed, Without;
  }

  lemma WithoutAppend(ops: seq<Op>, op: Op, x: Op)
    ensures Without(ops + [op], x) <==> Without(ops, x) && op != x
  {
    var all := ops + [op];
    assert all[|ops|] == op;
    assert forall i :: 0 <= i < |ops| ==> all[i] == ops[i];
  }

  /** After the decision, every call keeps the stream going. */
  lemma StreamingStep(s: State, h: Fields, upto: seq<Op>, ops: seq<Op>, op: Op, sniff: Bytes -> string)
    requires Streaming(s, h, upto, ops, sniff)
    ensures Streaming(Step(s, op, sniff), h, upto, ops + [op], sniff)
  {
    hide Codes, LastCode, DecidedSent;
    assert (ops + [op])[..|ops|] == ops;
    WithoutAppend(ops, op, Break);
    if op.Write? {
      TextAppend(s.wire.body, GzipData(op.data));
    }
  }

  lemma {:induction false} Decided(h: Fields, ops: seq<Op>, sniff: Bytes -> string, k: nat)
    requires Decision(h, ops, sniff, k)
    ensures Streaming(Run(h, ops, sniff), h, ops[..k], ops, sniff)
  {
    hide Triggers, Streaming;
    if k == |ops| {
      assert ops[..k] == ops;
      DecisionStep(h, ops, sniff);
    } else {
      var init := ops[..|ops| - 1];
      assert forall j :: 0 <= j <= |init| ==> init[..j] == ops[..j];
      Decided(h, init, sniff, k);
      assert ops == init + [ops[|ops| - 1]];
      StreamingStep(Run(h, init, sniff), h, ops[..k], init, ops[|ops| - 1], sniff);
    }
  }

  // ------------------------------------------------------------- whole responses

  /** A complete compressed stream. */
  predicate ClosedStream(body: seq<Chunk>) {
    body != [] && body[|body| - 1] == GzipTail && OpenStream(body[..|body| - 1])
  }

  /** Without a decision the body goes out as it was written, in one piece. */
  lemma PlainResponse(h: Fields, ops: seq<Op>, sniff: Bytes -> string)
    requires NoDecision(h, ops, sniff)
    ensures var w := Response(h, ops, sniff);
            && w.codes == Codes(LastCode(ops))
            && w.sent == Some(match EarlySent(h, ops, sniff)
                              case Some(c) => c
                              case None => Commit(Status(LastCode(ops)), OwnHeader(h, ops, sniff)))
            && (Without(ops, Break) ==> w.body == if Total(ops) == [] then [] else [Plain(Total(ops))])
  {
    Undecided(h, ops, sniff);
    hide Run, NoDecision, EarlySent, OwnHeader, LastCode, Total;
  }

  /** With a decision the body goes out as one compressed stream of everything written, before and
      after the decision. */
  lemma CompressedResponse(h: Fields, ops: seq<Op>, sniff: Bytes -> string, k: nat)
    requires Decision(h, ops, sniff, k)
    ensures var w := Response(h, ops, sniff);
            && w.codes == Codes(LastCode(ops[..k]))
            && w.sent == Some(DecidedSent(h, ops[..k], sniff))
            && (Without(ops, Break) ==> ClosedStream(w.body) && Text(w.body) == Total(ops))
  {
    Decided(h, ops, sniff, k);
    hide Run, Decision, DecidedSent, LastCode, Total;
    var s := Run(h, ops, sniff);
    TextAppend(s.wire.body, GzipTail);
    assert (s.wire.body + [GzipTail])[..|s.wire.body|] == s.wire.body;
  }

  /** The first of some failing prefixes. */
  lemma {:induction false} FirstDecision(h: Fields, ops: seq<Op>, sniff: Bytes -> string, n: nat) returns (k: nat)
    requires n <= |ops|
    requires !forall j :: 0 <= j <= n ==> !Triggers(h, ops[..j], sniff)
    ensures k <= n && Decision(h, ops, sniff, k)
  {
    hide Triggers;
    if n > 0 && exists j :: 0 <= j <= n - 1 && Triggers(h, ops[..j], sniff) {
      k := FirstDecision(h, ops, sniff, n - 1);
    } else {
      k := n;
    }
  }

  /** In every run, with or without flushes and failures, at most one status code is passed on,
      and it is the last one recorded before the mode was decided. */
  lemma OneStatusCode(h: Fields, ops: seq<Op>, sniff: Bytes -> string)
    ensures var w := Response(h, ops, sniff);
            && |w.codes| <= 1
            && (NoDecision(h, ops, sniff) ==> w.codes == Codes(LastCode(ops)))
            && (forall k: nat :: Decision(h, ops, sniff, k) ==> w.codes == Codes(LastCode(ops[..k])))
  {
    hide Response, Triggers, LastCode;
    forall k: nat | Decision(h, ops, sniff, k)
      ensures Response(h, ops, sniff).codes == Codes(LastCode(ops[..k]))
    {
      CompressedResponse(h, ops, sniff, k);
    }
    if NoDecision(h, ops, sniff) {
      PlainResponse(h, ops, sniff);
    } else {
      var k := FirstDecision(h, ops, sniff, |ops|);
    }
  }

  /** The handler's status reaches the client if and only if nothing was flushed before it was passed on, or it
      is 200 anyway: a flush sends 200 at once, whatever code was recorded. */
  lemma StatusKeptExactly(h: Fields, ops: seq<Op>, sniff: Bytes -> string)
    ensures var w := Response(h, ops, sniff);
            && w.sent.Some?
            && (NoDecision(h, ops, sniff) ==>
                  (w.sent.value.code == Status(LastCode(ops)) <==>
                   Without(ops, Flush) || Status(LastCode(ops)) == 200))
            && (forall k: nat :: Decision(h, ops, sniff, k) ==>
                  (w.sent.value.code == Status(LastCode(ops[..k])) <==>
                   Without(ops[..k], Flush) || Status(LastCode(ops[..k])) == 200))
  {
    hide Response, Triggers, LastCode, Without, EarlySent;
    forall k: nat | Decision(h, ops, sniff, k)
      ensures var w := Response(h, ops, sniff);
              w.sent.Some? && (w.sent.value.code == Status(LastCode(ops[..k])) <==>
                               Without(ops[..k], Flush) || Status(LastCode(ops[..k])) == 200)
    {
      CompressedResponse(h, ops, sniff, k);
      EarlySentExactly(h, ops[..k], sniff);
      EarlySentCode(h, ops[..k], sniff);
    }
    if NoDecision(h, ops, sniff) {
      PlainResponse(h, ops, sniff);
      EarlySentExactly(h, ops, sniff);
      EarlySentCode(h, ops, sniff);
    } else {
      var k := FirstDecision(h, ops, sniff, |ops|);
    }
  }

  lemma {:induction false} EarlySentCode(h: Fields, ops: seq<Op>, sniff: Bytes -> string)
    ensures EarlySent(h, ops, sniff).Some? ==> EarlySent(h, ops, sniff).value.code == 200
  {
    if ops != [] {
      EarlySentCode(h, ops[..|ops| - 1], sniff);
    }
  }

  /** The failing side: a recorded code followed by a flush, which is how the reverse proxy starts a response with
      announced trailers. */
  lemma FlushHidesStatus(h: Fields, code: int, sniff: Bytes -> string)
    requires code != 0
    ensures Response(h, [WriteHeader(code), Flush], sniff).sent == Some(Commit(200, h))
  {
    var ops := [WriteHeader(code), Flush];
    assert ops[..1] == [WriteHeader(code)] && [WriteHeader(code)][..0] == [];
    assert Run(h, [WriteHeader(code)], sniff) == State(Wire(h, None, [], [], false), false, code, []);
  }

  /** Compression with nothing flushed early announces itself and drops the length. */
  lemma CompressedHeader(h: Fields, ops: seq<Op>, sniff: Bytes -> string, k: nat)
    requires Decision(h, ops, sniff, k) && Without(ops[..k], Flush)
    ensures var sent := Response(h, ops, sniff).sent;
            && sent.Some? && sent.value.code == Status(LastCode(ops[..k]))
            && Get(sent.value.header, "Content-Encoding") == "gzip" && "Content-Length" !in sent.value.header
            && forall key :: key != "Content-Encoding" && key != "Content-Length" && key in OwnHeader(h, ops[..k], sniff) ==>
                 key in sent.value.header && sent.value.header[key] == OwnHeader(h, ops[..k], sniff)[key]
  {
    hide Response, Triggers, OwnHeader, LastCode, Without;
    CompressedResponse(h, ops, sniff, k);
    EarlySentExactly(h, ops[..k], sniff);
  }

  /** Nobody but the first write touches the content type. */
  predicate TypeUntouched(h: Fields, ops: seq<Op>, p: nat) {
    && "Content-Type" !in h && p < |ops| && ops[p].Write?
    && (forall i :: 0 <= i < p ==> !ops[i].Write?)
    && (forall i :: 0 <= i < |ops| && (ops[i].SetHeader? || ops[i].DelHeader?) ==> ops[i].key != "Content-Type")
  }

  lemma {:induction false} TypeOfFirstWrite(h: Fields, ops: seq<Op>, sniff: Bytes -> string, p: nat, n: nat)
    requires TypeUntouched(h, ops, p) && n <= |ops|
    ensures var own := OwnHeader(h, ops[..n], sniff);
            if n <= p then "Content-Type" !in own else "Content-Type" in own && own["Content-Type"] == [sniff(ops[p].data)]
  {
    if n > 0 {
      assert ops[..n][..n - 1] == ops[..n - 1];
      TypeOfFirstWrite(h, ops, sniff, p, n - 1);
    }
  }

  /** A handler that sets no content type gets the one sniffed from its first write, compressed or not. */
  lemma SniffedTypeSent(h: Fields, ops: seq<Op>, sniff: Bytes -> string, p: nat)
    requires TypeUntouched(h, ops, p) && Without(ops, Flush)
    ensures var sent := Response(h, ops, sniff).sent;
            sent.Some? && "Content-Type" in sent.value.header
            && sent.value.header["Content-Type"] == [sniff(ops[p].data)]
  {
    hide Response, OwnHeader, LastCode, EarlySent;
    if NoDecision(h, ops, sniff) {
      hide Triggers;
      PlainResponse(h, ops, sniff);
      EarlySentExactly(h, ops, sniff);
      TypeOfFirstWrite(h, ops, sniff, p, |ops|);
      assert ops[..|ops|] == ops;
    } else {
      var k := FirstDecision(h, ops, sniff, |ops|);
      assert ops[..k][k - 1] == ops[k - 1];
      assert k > p;
      hide Triggers;
      CompressedResponse(h, ops, sniff, k);
      EarlySentExactly(h, ops[..k], sniff);
      TypeOfFirstWrite(h, ops, sniff, p, k);
    }
  }

  // ---------------------------------------------------- what the client can decode

  /** The body as the client understands it: a response labelled gzip is a compressed stream, and
      any other response is read as it is. */
  function Decoded(w: Wire): Option<Bytes> {
    if w.sent.Some? && Get(w.sent.value.header, ENCODING) == "gzip" then
      if ClosedStream(w.body) then Some(Text(w.body)) else None
    else if forall i :: 0 <= i < |w.body| ==> w.body[i].Plain? then Some(Text(w.body))
    else None
  }

  /** The handler leaves Content-Encoding alone (removing it is harmless). */
  predicate NoEncoding(h: Fields, ops: seq<Op>) {
    Get(h, ENCODING) == "" && forall i :: 0 <= i < |ops| ==> !(ops[i].SetHeader? && ops[i].key == ENCODING)
  }

  /** A flush before 512 bytes have been written. */
  predicate EarlyFlush(ops: seq<Op>) {
    exists i :: 0 <= i < |ops| && ops[i] == Flush && |Total(ops[..i])| < 512
  }

  lemma {:induction false} StaysUnencoded(h: Fields, ops: seq<Op>, sniff: Bytes -> string)
    requires NoEncoding(h, ops)
    ensures Get(OwnHeader(h, ops, sniff), ENCODING) == ""
  {
    if ops != [] {
      StaysUnencoded(h, ops[..|ops| - 1], sniff);
    }
  }

  lemma {:induction false} TotalGrows(ops: seq<Op>, i: nat)
    requires i <= |ops|
    ensures |Total(ops[..i])| <= |Total(ops)|
  {
    if i == |ops| {
      assert ops[..i] == ops;
    } else {
      assert ops[..|ops| - 1][..i] == ops[..i];
      TotalGrows(ops[..|ops| - 1], i);
    }
  }

  lemma TotalGrowsBetween(ops: seq<Op>, i: nat, j: nat)
    requires i <= j <= |ops|
    ensures |Total(ops[..i])| <= |Total(ops[..j])|
  {
    assert ops[..j][..i] == ops[..i];
    TotalGrows(ops[..j], i);
  }

  /** When the handler sets no encoding, the decision is made by the write that reaches 512 bytes. */
  lemma ThresholdExactly(h: Fields, ops: seq<Op>, sniff: Bytes -> string)
    requires NoEncoding(h, ops)
    ensures NoDecision(h, ops, sniff) <==> |Total(ops)| < 512
    ensures forall k: nat :: Decision(h, ops, sniff, k) ==>
              0 < k && |Total(ops[..k - 1])| < 512 <= |Total(ops[..k])|
  {
    if |Total(ops)| < 512 {
      forall j | 0 <= j <= |ops| ensures !Triggers(h, ops[..j], sniff) {
        TotalGrows(ops, j);
      }
    } else {
      var k := Crossing(ops);
      StaysUnencoded(h, ops[..k], sniff);
      assert Triggers(h, ops[..k], sniff) by {
        hide OwnHeader;
        assert ops[..k][..k - 1] == ops[..k - 1];
      }
    }
    forall k: nat | Decision(h, ops, sniff, k)
      ensures 0 < k && |Total(ops[..k - 1])| < 512 <= |Total(ops[..k])|
    {
      DecisionCrosses(h, ops, sniff, k);
    }
  }

  lemma {:induction false} Crossing(ops: seq<Op>) returns (k: nat)
    requires |Total(ops)| >= 512
    ensures 0 < k <= |ops| && |Total(ops[..k - 1])| < 512 <= |Total(ops[..k])| && ops[k - 1].Write?
  {
    var init := ops[..|ops| - 1];
    if |Total(init)| < 512 {
      k := |ops|;
      assert ops[..k] == ops;
    } else {
      k := Crossing(init);
      assert init[..k] == ops[..k] && init[..k - 1] == ops[..k - 1];
    }
  }

  lemma EarlierTrigger(h: Fields, ops: seq<Op>, sniff: Bytes -> string, n: nat) returns (j: nat)
    requires NoEncoding(h, ops) && n <= |ops| && |Total(ops[..n])| >= 512
    ensures j <= n && Triggers(h, ops[..j], sniff)
  {
    j := Crossing(ops[..n]);
    assert ops[..n][..j] == ops[..j];
    StaysUnencoded(h, ops[..j], sniff);
  }

  lemma DecisionCrosses(h: Fields, ops: seq<Op>, sniff: Bytes -> string, k: nat)
    requires NoEncoding(h, ops) && Decision(h, ops, sniff, k)
    ensures 0 < k && |Total(ops[..k - 1])| < 512 <= |Total(ops[..k])|
  {
    if |Total(ops[..k - 1])| >= 512 {
      var j := EarlierTrigger(h, ops, sniff, k - 1);
    }
  }

  /** The flushes before the decision are exactly the early ones. */
  lemma EarlyFlushExactly(h: Fields, ops: seq<Op>, sniff: Bytes -> string, k: nat)
    requires NoEncoding(h, ops) && Decision(h, ops, sniff, k)
    ensures Without(ops[..k], Flush) <==> !EarlyFlush(ops)
  {
    DecisionCrosses(h, ops, sniff, k);
    hide Decision, NoEncoding, Total;
    forall i | 0 <= i < |ops| && ops[i] == Flush
      ensures i < k <==> |Total(ops[..i])| < 512
    {
      if i < k - 1 {
        TotalGrowsBetween(ops, i, k - 1);
      } else if i >= k {
        TotalGrowsBetween(ops, k, i);
      }
    }
  }

  /** The central promise, with its exact condition. When the handler sets no encoding and the
      connection holds, the body is compressed exactly when it has at least 512 bytes, however it was
      chunked, and the client decodes exactly the concatenation of the chunks if and only if the body is
      not both that long and flushed before it got there. */
  lemma BodyPreservedExactly(h: Fields, ops: seq<Op>, sniff: Bytes -> string)
    requires NoEncoding(h, ops) && Without(ops, Break)
    ensures var w := Response(h, ops, sniff);
            && (ClosedStream(w.body) <==> |Total(ops)| >= 512)
            && (Decoded(w) == Some(Total(ops)) <==> !(|Total(ops)| >= 512 && EarlyFlush(ops)))
  {
    ThresholdExactly(h, ops, sniff);
    if |Total(ops)| < 512 {
      ShortBody(h, ops, sniff);
    } else {
      var k := FirstDecision(h, ops, sniff, |ops|);
      LongBody(h, ops, sniff, k);
    }
  }

  lemma ShortBody(h: Fields, ops: seq<Op>, sniff: Bytes -> string)
    requires NoEncoding(h, ops) && Without(ops, Break) && NoDecision(h, ops, sniff)
    ensures var w := Response(h, ops, sniff);
            !ClosedStream(w.body) && Decoded(w) == Some(Total(ops))
  {
    hide Response, NoDecision, Without;
    PlainResponse(h, ops, sniff);
    StaysUnencoded(h, ops, sniff);
    EarlySentUnencoded(h, ops, sniff);
    TextAppend([], Plain(Total(ops)));
    assert [] + [Plain(Total(ops))] == [Plain(Total(ops))];
    assert Text([Plain(Total(ops))]) == Total(ops);
    hide OwnHeader, EarlySent, Total;
  }

  lemma {:induction false} EarlySentUnencoded(h: Fields, ops: seq<Op>, sniff: Bytes -> string)
    requires NoEncoding(h, ops)
    ensures var sent := EarlySent(h, ops, sniff);
            sent.Some? ==> Get(sent.value.header, ENCODING) == ""
  {
    if ops != [] {
      EarlySentUnencoded(h, ops[..|ops| - 1], sniff);
      StaysUnencoded(h, ops, sniff);
    }
  }

  lemma LongBody(h: Fields, ops: seq<Op>, sniff: Bytes -> string, k: nat)
    requires NoEncoding(h, ops) && Without(ops, Break) && Decision(h, ops, sniff, k)
    ensures var w := Response(h, ops, sniff);
            ClosedStream(w.body) && (Decoded(w) == Some(Total(ops)) <==> !EarlyFlush(ops))
  {
    hide Response, Triggers, Total, OwnHeader, Without, EarlyFlush;
    CompressedResponse(h, ops, sniff, k);
    EarlyFlushExactly(h, ops, sniff, k);
    EarlySentExactly(h, ops[..k], sniff);
    EarlySentUnencoded(h, ops[..k], sniff);
    if EarlyFlush(ops) {
      var w := Response(h, ops, sniff);
      assert w.body[0] == GzipHead;
    } else {
      CompressedHeader(h, ops, sniff, k);
    }
  }

  /** The failing family is not empty: a flush followed by a long write. */
  lemma EarlyFlushCorrupts(h: Fields, data: Bytes, sniff: Bytes -> string)
    requires Get(h, ENCODING) == "" && |data| >= 512
    ensures Decoded(Response(h, [Flush, Write(data)], sniff)) != Some(data)
  {
    var ops := [Flush, Write(data)];
    assert ops[..1] == [Flush] && [Flush][..0] == [];
    assert Total(ops) == data;
    assert ops[0] == Flush && Total(ops[..0]) == [];
    BodyPreservedExactly(h, ops, sniff);
  }

  /** Chunking is invisible: two handlers that write the same bytes get the same decoded body and
      the same choice of encoding, provided neither flushes early. */
  lemma ChunkingIrrelevant(h: Fields, ops: seq<Op>, ops': seq<Op>, sniff: Bytes -> string)
    requires NoEncoding(h, ops) && Without(ops, Break) && !EarlyFlush(ops)
    requires NoEncoding(h, ops') && Without(ops', Break) && !EarlyFlush(ops')
    requires Total(ops) == Total(ops')
    ensures var w, w' := Response(h, ops, sniff), Response(h, ops', sniff);
            Decoded(w) == Decoded(w') && (ClosedStream(w.body) <==> ClosedStream(w'.body))
  {
    hide Response;
    BodyPreservedExactly(h, ops, sniff);
    BodyPreservedExactly(h, ops', sniff);
  }

  /** An encoding that the handler sets before its first write, and then leaves alone, stays. */
  predicate PresetEncoding(ops: seq<Op>, p: nat, values: seq<string>) {
    && p < |ops| && ops[p] == SetHeader(ENCODING, values) && values != [] && values[0] != ""
    && (forall i :: 0 <= i < p ==> !ops[i].Write?)
    && (forall i :: p < i < |ops| ==> !((ops[i].SetHeader? || ops[i].DelHeader?) && ops[i].key == ENCODING))
  }

  lemma {:induction false} PresetStays(h: Fields, ops: seq<Op>, sniff: Bytes -> string, p: nat, values: seq<string>)
    requires PresetEncoding(ops, p, values)
    ensures var own := OwnHeader(h, ops, sniff); ENCODING in own && own[ENCODING] == values
  {
    if p < |ops| - 1 {
      PresetStays(h, ops[..|ops| - 1], sniff, p, values);
    }
  }

  /** Such a body goes out verbatim, whatever its length and wherever it is flushed; with no flush at
      all, the encoding is announced as the handler set it. */
  lemma PresetVerbatim(h: Fields, ops: seq<Op>, sniff: Bytes -> string, p: nat, values: seq<string>)
    requires PresetEncoding(ops, p, values) && Without(ops, Break)
    ensures var w := Response(h, ops, sniff);
            && w.body == (if Total(ops) == [] then [] else [Plain(Total(ops))])
            && (Without(ops, Flush) ==> w.sent.Some? && ENCODING in w.sent.value.header
                                        && w.sent.value.header[ENCODING] == values)
  {
    forall j | 0 <= j <= |ops| ensures !Triggers(h, ops[..j], sniff) {
      if p < j {
        PresetStays(h, ops[..j], sniff, p, values);
      }
    }
    hide Triggers, Response, Total;
    PlainResponse(h, ops, sniff);
    PresetStays(h, ops, sniff, p, values);
    EarlySentExactly(h, ops, sniff);
  }
}
