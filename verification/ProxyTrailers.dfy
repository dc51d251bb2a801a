/** Trailers of a proxied response (reverseproxy.go): they are announced before the body, stored after it, and
    net/http sends them if the response is chunked. */
module ProxyTrailers {
  import opened Common
  import opened Strings
  import opened ProxyHeaders

  const TRAILER_PREFIX := "Trailer:"

  function Values(h: Fields, k: string): seq<string> {
    if k in h then h[k] else []
  }

  // ------------------------------------------------------------ net/http's writer

  /** How much of a body net/http holds back before it sends the header. */
  const NET_BUFFER := 2048

  /** The request, as far as it decides about chunking: whether it is HTTP/1.1, whether its response may have a body
      (it is no HEAD request, and the status code allows one), and whether the gzip wrapper is in between. */
  datatype Client = Client(http11: bool, bodied: bool, gzip: bool)

  datatype Framing = Undecided | Chunked | Unchunked

  /** The response can be chunked at all: nothing tells its length. */
  predicate CanChunk(client: Client, h: Fields) {
    client.http11 && client.bodied && Get(h, "Content-Length") == ""
  }

  /** The header itself says that trailers will follow. */
  predicate Declares(h: Fields) {
    Values(h, "Trailer") != [] || exists k :: k in h && HasPrefix(k, TRAILER_PREFIX)
  }

  /** net/http's `http.ResponseWriter` for HTTP/1. `WriteHeader`, or else the first write or flush, takes a snapshot of
      the header. It goes out with a flush or when the body outgrows the buffer. If neither has happened when the
      handler is done, the length of the body is known and is sent instead of chunks, unless the header declares
      trailers. The gzip wrapper only records what it is told by `WriteHeader`. */
  class Responder {
    const client: Client
    const header: Header
    var snapshot: Option<Fields>
    var written: nat
    var framing: Framing

    constructor (client: Client, header: Header)
      ensures this.client == client && this.header == header
      ensures snapshot == None && written == 0 && framing == Undecided
    {
      this.client, this.header := client, header;
      snapshot, written, framing := None, 0, Undecided;
    }

    function Taken(): Fields
      reads this, header
    {
      if snapshot.Some? then snapshot.value else header.fields
    }

    method WriteHeader()
      modifies this`snapshot
      ensures snapshot == if client.gzip then old(snapshot) else Some(old(Taken()))
    {
      if !client.gzip {
        snapshot := Some(Taken());
      }
    }

    method Flush()
      modifies this`snapshot, this`framing
      ensures snapshot == Some(old(Taken()))
      ensures framing == if old(framing) != Undecided then old(framing)
                         else if CanChunk(client, old(Taken())) then Chunked else Unchunked
    {
      snapshot := Some(Taken());
      if framing == Undecided {
        framing := if CanChunk(client, snapshot.value) then Chunked else Unchunked;
      }
    }

    method Write(n: nat)
      modifies this`snapshot, this`framing, this`written
      ensures snapshot == Some(old(Taken())) && written == old(written) + n
      ensures framing == if old(framing) != Undecided || written <= NET_BUFFER then old(framing)
                         else if CanChunk(client, old(Taken())) then Chunked else Unchunked
    {
      snapshot := Some(Taken());
      written := written + n;
      if written > NET_BUFFER {
        Flush();
      }
    }

    /** The gzip wrapper, if any, hands over what it has held back, and the handler is done. */
    method Finish(rest: nat)
      modifies this`snapshot, this`framing, this`written
      ensures snapshot == Some(old(Taken()))
      ensures framing == if old(framing) != Undecided then old(framing)
                         else if CanChunk(client, old(Taken())) && (old(written) + rest > NET_BUFFER || Declares(old(Taken())))
                         then Chunked else Unchunked
    {
      hide CanChunk, Declares;
      Write(rest);
      if framing == Undecided {
        framing := if CanChunk(client, snapshot.value) && Declares(snapshot.value) then Chunked else Unchunked;
      }
    }
  }

  // --------------------------------------------------------- announcing and storing

  /** The announcement before the body: one Trailer field that lists each known key once. */
  method AnnounceTrailers(rw: Header, trailer: Fields) returns (count: nat)
    modifies rw
    ensures count == |trailer|
    ensures count == 0 ==> rw.fields == old(rw.fields)
    ensures count > 0 ==>
              && "Trailer" in rw.fields && rw.fields == old(rw.fields)["Trailer" := rw.fields["Trailer"]]
              && multiset(rw.fields["Trailer"]) == multiset(trailer.Keys)
  {
    count := |trailer|;
    if count > 0 {
      var vv: seq<string> := [];
      var keys := trailer.Keys;
      while keys != {}
        invariant keys <= trailer.Keys
        invariant multiset(vv) + multiset(keys) == multiset(trailer.Keys)
      {
        var k :| k in keys;
        vv := vv + [k];
        keys := keys - {k};
      }
      rw.fields := rw.fields["Trailer" := vv];
    }
  }

  function StoredName(k: string, force: bool): string {
    if force then TRAILER_PREFIX + k else k
  }

  /** No two trailers are stored under the same name. */
  lemma StoredNamesDiffer(k: string, k': string, force: bool)
    requires StoredName(k, force) == StoredName(k', force)
    ensures k == k'
  {
    if force {
      assert k == (TRAILER_PREFIX + k)[8..] && k' == (TRAILER_PREFIX + k')[8..];
    }
  }

  /** Every trailer is stored under its name, and nothing else changes. */
  ghost predicate TrailersStored(before: Fields, after: Fields, trailer: Fields, force: bool) {
    && (forall k :: k in trailer ==> StoredName(k, force) in after && after[StoredName(k, force)] == trailer[k])
    && (forall name :: (forall k :: k in trailer ==> StoredName(k, force) != name) ==>
          (name in after <==> name in before) && (name in after ==> after[name] == before[name]))
  }

  /** `shallowCopyTrailers`, in any order of the keys. */
  method ShallowCopyTrailers(rw: Header, trailer: Fields, force: bool)
    modifies rw
    ensures TrailersStored(old(rw.fields), rw.fields, trailer, force)
  {
    hide StoredName;
    var keys := trailer.Keys;
    ghost var done: Fields := map[];
    while keys != {}
      invariant keys !! done.Keys && keys + done.Keys == trailer.Keys
      invariant forall k :: k in done ==> done[k] == trailer[k]
      invariant TrailersStored(old(rw.fields), rw.fields, done, force)
    {
      var k :| k in keys;
      StoreOne(old(rw.fields), rw.fields, done, force, k, trailer[k]);
      rw.fields := rw.fields[StoredName(k, force) := trailer[k]];
      keys, done := keys - {k}, done[k := trailer[k]];
    }
    assert done == trailer;
  }

  lemma StoreOne(before: Fields, after: Fields, done: Fields, force: bool, k: string, values: seq<string>)
    requires TrailersStored(before, after, done, force) && k !in done
    ensures TrailersStored(before, after[StoredName(k, force) := values], done[k := values], force)
  {
    hide StoredName;
    var after', done' := after[StoredName(k, force) := values], done[k := values];
    forall x | x in done'
      ensures StoredName(x, force) in after' && after'[StoredName(x, force)] == done'[x]
    {
      if StoredName(x, force) == StoredName(k, force) {
        StoredNamesDiffer(x, k, force);
      }
    }
    forall name | forall x :: x in done' ==> StoredName(x, force) != name
      ensures (name in after' <==> name in before) && (name in after' ==> after'[name] == before[name])
    {
      assert k in done';
      assert forall x :: x in done ==> x in done';
    }
  }

  /** If keys are only ever added, the length comparison is true exactly when unannounced keys arrived. */
  lemma LengthTest(announced: Fields, final: Fields)
    requires announced.Keys <= final.Keys
    ensures |final| != |announced| <==> exists k :: k in final && k !in announced
  {
    SubsetSize(announced.Keys, final.Keys);
    assert |final| == |final.Keys| && |announced| == |announced.Keys|;
    var more := final.Keys - announced.Keys;
    if more == {} {
      assert final.Keys == announced.Keys + more;
    } else {
      var k :| k in more;
      assert k in final && k !in announced;
    }
  }

  // ------------------------------------------------------------------ the response

  /** What reaches net/http while the body is copied: some bytes, or a flush by the flush loop. */
  datatype BodyEvent = Wrote(n: nat) | Ticked

  function Length(events: seq<BodyEvent>): nat {
    if events == [] then 0
    else Length(events[..|events| - 1]) + match events[|events| - 1] case Wrote(n) => n case Ticked => 0
  }

  /** The header has gone out: forced by an announced trailer, by the flush loop, or by the length of the body. */
  predicate SentEarly(announced: nat, events: seq<BodyEvent>) {
    announced > 0 || Ticked in events || Length(events) > NET_BUFFER
  }

  /** The header is taken before the trailers are stored, unless the gzip wrapper has passed on nothing by then. */
  function HeaderTaken(client: Client, announced: nat, events: seq<BodyEvent>, before: Fields, after: Fields): Fields {
    if client.gzip && announced == 0 && events == [] then after else before
  }

  /** Whether the response is chunked. The trailers change its header from `before` to `after`, and `rest` is what the gzip
      wrapper hands over in the end. */
  predicate IsChunked(client: Client, announced: nat, events: seq<BodyEvent>, rest: nat, before: Fields, after: Fields) {
    var h := HeaderTaken(client, announced, events, before, after);
    CanChunk(client, h) && (SentEarly(announced, events) || Length(events) + rest > NET_BUFFER || Declares(h))
  }

  /** One more event while the body is copied. */
  lemma EarlyStep(announced: nat, events: seq<BodyEvent>, n: nat)
    requires n < |events|
    ensures SentEarly(announced, events[..n + 1]) <==>
            SentEarly(announced, events[..n]) || events[n].Ticked? || Length(events[..n + 1]) > NET_BUFFER
    ensures Length(events[..n + 1]) == Length(events[..n]) + match events[n] case Wrote(m) => m case Ticked => 0
  {
    assert events[..n + 1] == events[..n] + [events[n]];
    assert events[..n + 1][..n] == events[..n];
  }

  lemma NoEvents()
    ensures Length([]) == 0
  {
  }

  /** The part of `ServeHTTP` from the announcement to the end of the response. The backend has announced
      `announced` and has sent `final` when its body is closed; `before` is the header when the body is copied. */
  method ServeTrailers(rw: Responder, announced: Fields, events: seq<BodyEvent>, final: Fields, rest: nat)
    returns (ghost before: Fields)
    requires rw.snapshot == None && rw.written == 0 && rw.framing == Undecided
    requires rest > 0 ==> rw.client.gzip
    modifies rw, rw.header
    ensures announced == map[] ==> before == old(rw.header.fields)
    ensures announced != map[] ==>
              && "Trailer" in before && before == old(rw.header.fields)["Trailer" := before["Trailer"]]
              && multiset(before["Trailer"]) == multiset(announced.Keys)
    ensures TrailersStored(before, rw.header.fields, final, |final| != |announced|)
    ensures rw.snapshot == Some(HeaderTaken(rw.client, |announced|, events, before, rw.header.fields))
    ensures rw.framing == if IsChunked(rw.client, |announced|, events, rest, before, rw.header.fields)
                          then Chunked else Unchunked
  {
    hide CanChunk, Declares, TrailersStored, Length;
    var count := AnnounceTrailers(rw.header, announced);
    before := rw.header.fields;
    rw.WriteHeader();
    if count > 0 {
      rw.Flush();
    }
    NoEvents();
    for n := 0 to |events|
      invariant rw.header.fields == before && rw.written == Length(events[..n])
      invariant rw.snapshot == if rw.client.gzip && count == 0 && n == 0 then None else Some(before)
      invariant rw.framing == if !SentEarly(count, events[..n]) then Undecided
                              else if CanChunk(rw.client, before) then Chunked else Unchunked
    {
      EarlyStep(count, events, n);
      match events[n] {
        case Wrote(m) => rw.Write(m);
        case Ticked => rw.Flush();
      }
    }
    assert events[..|events|] == events;
    ShallowCopyTrailers(rw.header, final, |final| != count);
    rw.Finish(rest);
  }

  // ----------------------------------------------------------------------- delivery

  /** The trailer values that net/http sends for a key in a chunked response: those stored under the prefixed name,
      and those stored under the plain name if the key was announced. */
  function Sent(h: Fields, announced: set<string>, k: string): seq<string> {
    Values(h, TRAILER_PREFIX + k) + if k in announced then Values(h, k) else []
  }

  /** The client gets exactly the backend's trailers. Only a chunked response has any. */
  ghost predicate AllDelivered(chunked: bool, after: Fields, announced: Fields, final: Fields) {
    forall k :: (if chunked then Sent(after, announced.Keys, k) else []) == Values(final, k)
  }

  /** A Trailer field comes from the announcement only, because the backend's own is hop-by-hop. */
  lemma NoOtherTrailerField(rw: Fields, res: Fields)
    requires "Trailer" !in rw
    ensures Values(Forwarded(rw, res), "Trailer") == []
  {
    hide Forwarded;
    ForwardedFields(rw, res, "Trailer");
    assert HOP_HEADERS[8] == "Trailer";
    hide HOP_HEADERS;
  }

  /** Exactly when that is so. A trailer with values needs a chunked response; and if unannounced trailers arrived,
      no announced one may also be a field of the response header. */
  lemma TrailersDeliveredExactly(client: Client, events: seq<BodyEvent>, rest: nat, before: Fields, after: Fields,
                                 announced: Fields, final: Fields)
    requires announced.Keys <= final.Keys && (announced == map[] ==> Values(before, "Trailer") == [])
    requires forall k :: k in before || k in final ==> !HasPrefix(k, TRAILER_PREFIX)
    requires TrailersStored(before, after, final, |final| != |announced|)
    ensures var chunked := IsChunked(client, |announced|, events, rest, before, after);
            AllDelivered(chunked, after, announced, final) <==>
            if chunked then |final| != |announced| ==> forall k :: k in announced ==> Values(before, k) == []
            else forall k :: Values(final, k) == []
  {
    hide TrailersStored, HasPrefix, IsChunked, AllDelivered, Values;
    DeliveredExactly(IsChunked(client, |announced|, events, rest, before, after), before, after, announced, final);
  }

  /** An announced trailer forces chunking, unless the response cannot be chunked at all. */
  lemma AnnouncedForcesChunking(client: Client, announced: nat, events: seq<BodyEvent>, rest: nat, before: Fields, after: Fields)
    requires announced > 0
    ensures IsChunked(client, announced, events, rest, before, after) <==> CanChunk(client, before)
  {
  }

  lemma DeliveredExactly(chunked: bool, before: Fields, after: Fields, announced: Fields, final: Fields)
    requires announced.Keys <= final.Keys
    requires forall k :: k in before || k in final ==> !HasPrefix(k, TRAILER_PREFIX)
    requires TrailersStored(before, after, final, |final| != |announced|)
    ensures AllDelivered(chunked, after, announced, final) <==>
            if chunked then |final| != |announced| ==> forall k :: k in announced ==> Values(before, k) == []
            else forall k :: Values(final, k) == []
  {
    hide TrailersStored, HasPrefix, Sent;
    if |final| == |announced| {
      SubsetSize(announced.Keys, final.Keys);
      forall k ensures Sent(after, announced.Keys, k) == Values(final, k) {
        PlainDelivery(before, after, final, k);
      }
    } else {
      forall k
        ensures Sent(after, announced.Keys, k) == Values(final, k) + if k in announced then Values(before, k) else []
      {
        ForcedDelivery(before, after, announced, final, k);
      }
    }
  }

  /** So if all trailers are announced, they arrive if and only if the response can be chunked, or none of them has a
      value. */
  lemma AnnouncedArriveExactly(client: Client, events: seq<BodyEvent>, rest: nat, before: Fields, after: Fields, final: Fields)
    requires final != map[]
    requires forall k :: k in before || k in final ==> !HasPrefix(k, TRAILER_PREFIX)
    requires TrailersStored(before, after, final, false)
    ensures AllDelivered(IsChunked(client, |final|, events, rest, before, after), after, final, final) <==>
            CanChunk(client, before) || forall k :: Values(final, k) == []
  {
    hide TrailersStored, HasPrefix, CanChunk, Declares, Length, AllDelivered;
    TrailersDeliveredExactly(client, events, rest, before, after, final, final);
    AnnouncedForcesChunking(client, |final|, events, rest, before, after);
  }

  /** Trailers that come without any announcement arrive if and only if the response can be chunked and something
      other than an announcement makes it so: a tick, a long body, or a gzip wrapper that has held back the
      whole body. */
  lemma UnannouncedArriveExactly(client: Client, events: seq<BodyEvent>, rest: nat, before: Fields, after: Fields,
                                 final: Fields, k: string)
    requires Values(final, k) != [] && Values(before, "Trailer") == []
    requires forall k :: k in before || k in final ==> !HasPrefix(k, TRAILER_PREFIX)
    requires TrailersStored(before, after, final, true)
    ensures AllDelivered(IsChunked(client, 0, events, rest, before, after), after, map[], final) <==>
            && CanChunk(client, before)
            && (Ticked in events || Length(events) + rest > NET_BUFFER || (client.gzip && events == []))
  {
    ForcedHeader(before, after, final, k);
    TrailersDeliveredExactly(client, events, rest, before, after, map[], final);
    hide TrailersStored, AllDelivered, Get, HasPrefix, Length;
    assert !Declares(before);
  }

  /** Storing trailers under prefixed names leaves the fields that decide about chunking, and declares them. */
  lemma ForcedHeader(before: Fields, after: Fields, final: Fields, k: string)
    requires TrailersStored(before, after, final, true) && k in final
    ensures Get(after, "Content-Length") == Get(before, "Content-Length") && Declares(after)
  {
    assert StoredName(k, true) in after && HasPrefix(StoredName(k, true), TRAILER_PREFIX);
    assert forall x :: x in final ==> StoredName(x, true)[0] == 'T';
    assert "Content-Length"[0] == 'C';
  }

  /** A client of HTTP/1.0, a response without a body, or one whose length the header tells, gets no trailers at all. */
  lemma UnchunkableGetsNone(client: Client, announced: nat, events: seq<BodyEvent>, rest: nat, before: Fields, after: Fields)
    requires !client.http11 || !client.bodied
             || (Get(before, "Content-Length") != "" && Get(after, "Content-Length") != "")
    ensures !IsChunked(client, announced, events, rest, before, after)
  {
  }

  /** The names under which trailers are stored. */
  lemma StoredNamesInFull(before: Fields, after: Fields, trailer: Fields, k: string)
    requires k in trailer
    ensures TrailersStored(before, after, trailer, true) ==> "Trailer:" + k in after && after["Trailer:" + k] == trailer[k]
    ensures TrailersStored(before, after, trailer, false) ==> k in after && after[k] == trailer[k]
  {
    assert StoredName(k, true) == "Trailer:" + k;
    assert StoredName(k, false) == k;
  }

  /** The failing side: an unannounced trailer behind a body that fits the buffer and ends before the first tick, for a
      client without gzip. */
  lemma ShortBodyLosesTrailer(client: Client, n: nat, after: Fields)
    requires !client.gzip && n <= NET_BUFFER
    requires TrailersStored(map[], after, map["X-T" := ["v"]], true)
    ensures !IsChunked(client, 0, [Wrote(n)], 0, map[], after)
    ensures !AllDelivered(false, after, map[], map["X-T" := ["v"]])
  {
    hide TrailersStored;
    assert [Wrote(n)][..0] == [];
    assert Length([Wrote(n)]) == n;
    assert Values(map["X-T" := ["v"]], "X-T") == ["v"];
  }

  lemma PlainDelivery(before: Fields, after: Fields, final: Fields, k: string)
    requires forall k :: k in before || k in final ==> !HasPrefix(k, TRAILER_PREFIX)
    requires TrailersStored(before, after, final, false)
    ensures Sent(after, final.Keys, k) == Values(final, k)
  {
    assert HasPrefix(TRAILER_PREFIX + k, TRAILER_PREFIX);
    assert TRAILER_PREFIX + k !in after;
  }

  lemma ForcedDelivery(before: Fields, after: Fields, announced: Fields, final: Fields, k: string)
    requires announced.Keys <= final.Keys
    requires forall k :: k in before || k in final ==> !HasPrefix(k, TRAILER_PREFIX)
    requires TrailersStored(before, after, final, true)
    ensures Sent(after, announced.Keys, k)
         == Values(final, k) + if k in announced then Values(before, k) else []
  {
    assert HasPrefix(TRAILER_PREFIX + k, TRAILER_PREFIX);
    if k in final {
      assert StoredName(k, true) == TRAILER_PREFIX + k;
    } else {
      forall x | x in final ensures StoredName(x, true) != TRAILER_PREFIX + k {
        if StoredName(x, true) == StoredName(k, true) {
          StoredNamesDiffer(x, k, true);
        }
      }
    }
    if k in announced {
      assert forall x :: x in final ==> HasPrefix(StoredName(x, true), TRAILER_PREFIX);
      assert forall x :: x in final ==> StoredName(x, true) != k;
    }
  }
}
