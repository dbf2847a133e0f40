/** The DNS-over-HTTPS resolver's query path: doQuery and the effects of sendRequest (proxy/doh/doh.go). */
module DohResolvers {
  import opened Bytes
  import opened DnsMessage
  import opened DnsRoundTrip
  import opened Padding
  import opened Servfails
  import opened IpSets
  import opened IpMaps
  import opened Hangovers
  import opened Queries

  /** client.Do and io.ReadAll: no response, a body that breaks off, or a response with its final hostname. */
  datatype Reply =
    | Failed
    | Broken(part: seq<byte>)
    | Response(hostname: string, code: nat, body: seq<byte>)

  /** One request: the server of the connection that was used, if there was one, and what came of it. */
  datatype Exchange = Exchange(server: Option<Address>, reply: Reply)

  const STATUS_OK := 200

  /** The HTTP client.  `exchanges` is what the requests still to come lead to; without a network they all fail. */
  class HttpClient {
    var requests: seq<seq<byte>>
    var exchanges: seq<Exchange>
    /** How many connections have been closed because their request failed. */
    var discarded: nat

    constructor (exchanges: seq<Exchange>)
      ensures requests == [] && this.exchanges == exchanges && discarded == 0
    {
      requests, this.exchanges, discarded := [], exchanges, 0;
    }

    method Do(body: seq<byte>) returns (x: Exchange)
      modifies this`requests, this`exchanges
      ensures x == NextExchange(old(exchanges)) && exchanges == LaterExchanges(old(exchanges))
      ensures requests == old(requests) + [body]
    {
      x := NextExchange(exchanges);
      requests, exchanges := requests + [body], LaterExchanges(exchanges);
    }

    method Discard()
      modifies this`discarded
      ensures discarded == old(discarded) + 1
    {
      discarded := discarded + 1;
    }
  }

  function NextExchange(exchanges: seq<Exchange>): Exchange {
    if exchanges == [] then Exchange(None, Failed) else exchanges[0]
  }

  function LaterExchanges(exchanges: seq<Exchange>): seq<Exchange> {
    if exchanges == [] then [] else exchanges[1..]
  }

  /** How far a query got, and when the hangover was checked. */
  datatype Trace =
    | TooShort
    | Rejected(at: nat)
    | PaddingFailed(at: nat)
    | RequestFailed(at: nat)  // http.NewRequestWithContext returned an error
    | Sent(at: nat, x: Exchange)

  /** The error of sendRequest. */
  function RequestError(x: Exchange): Option<Status> {
    match x.reply
    case Failed => Some(SendFailed)
    case Broken(_) => Some(BadResponse)
    case Response(_, code, _) => if code == STATUS_OK then None else Some(HTTPError)
  }

  /** The body as far as it was read. */
  function ReplyBody(x: Exchange): seq<byte> {
    match x.reply
    case Failed => []
    case Broken(part) => part
    case Response(_, _, body) => body
  }

  /** The host whose addresses are meant: after a redirect another one than was asked for. */
  function HostOf(hostname: string, x: Exchange): string {
    if x.reply.Response? then x.reply.hostname else hostname
  }

  /** The upstream response is usable: no error, and the ID that was sent. */
  predicate Accepted(x: Exchange) {
    RequestError(x).None? && |ReplyBody(x)| >= 2 && GetUint16(ReplyBody(x)) == 0
  }

  /** The error of a query that was sent. */
  function ErrorIn(x: Exchange): Option<Status> {
    if Accepted(x) then None else if RequestError(x).Some? then RequestError(x) else Some(BadResponse)
  }

  function ErrorOf(trace: Trace): Option<Status> {
    match trace
    case TooShort => Some(BadQuery)
    case Rejected(_) => Some(HTTPError)
    case PaddingFailed(_) => Some(InternalError)
    case RequestFailed(_) => Some(InternalError)
    case Sent(_, x) => ErrorIn(x)
  }

  /** The response to a query, in terms of the query as the caller passed it: unpadded and with its ID. */
  function ResponseTo(query: seq<byte>, trace: Trace): Option<seq<byte>> {
    match trace
    case TooShort => None
    case Rejected(_) => Servfail(query)
    case PaddingFailed(_) => None
    case RequestFailed(_) => None
    case Sent(_, x) =>
      if Accepted(x) && |query| >= 2 then Some(WithId(ReplyBody(x), GetUint16(query))) else Servfail(query)
  }

  /** The caller's buffer when doQuery returns. */
  function BufferAfter(query: seq<byte>, trace: Trace): seq<byte> {
    if trace.RequestFailed? && AlreadyPadded(query) && |query| >= 2 then WithId(query, 0) else query
  }

  // ----- What that means for the stub resolver -----

  /** How far a query gets. */
  function TraceFor(query: seq<byte>, clock: Clock, expiration: nat, constructs: bool, exchanges: seq<Exchange>)
    : (trace: Trace)
    ensures TraceOf(query, trace)
  {
    var now := NextReading(clock).now;
    if |query| < 2 then TooShort
    else if InHangover(now, expiration) then Trace.Rejected(now)
    else if Padded(query).None? then PaddingFailed(now)
    else if !constructs then RequestFailed(now)
    else Sent(now, NextExchange(exchanges))
  }

  /** The clock is read for the check, and again when the hangover begins. */
  function ClockAfter(clock: Clock, trace: Trace): Clock {
    if trace.TooShort? then clock else if Arms(trace) then NextReading(NextReading(clock)) else NextReading(clock)
  }

  /** The connection of a request that failed is closed. */
  predicate Discards(x: Exchange) {
    x.server.Some? && RequestError(x).Some?
  }

  /** The trace belongs to this query. */
  predicate TraceOf(query: seq<byte>, trace: Trace) {
    && (trace.TooShort? <==> |query| < 2)
    && (trace.RequestFailed? || trace.Sent? ==> Padded(query).Some?)
  }

  /** Every response, answer or SERVFAIL, carries the ID of the query. */
  lemma ResponseCarriesId(query: seq<byte>, trace: Trace)
    requires TraceOf(query, trace) && ResponseTo(query, trace).Some?
    ensures var r := ResponseTo(query, trace).value;
            |query| >= 2 && |r| >= 2 && GetUint16(r) == GetUint16(query)
  {
    hide Servfail;
    if trace.Sent? && Accepted(trace.x) {
      WithIdReads(ReplyBody(trace.x), GetUint16(query));
    } else {
      ServfailAnswers(query);
    }
  }

  /** Success means that the server answered with status 200 and ID 0; only the ID of its answer is changed. */
  lemma SuccessIsFaithful(query: seq<byte>, trace: Trace)
    requires TraceOf(query, trace)
    ensures ErrorOf(trace).None? <==>
              && trace.Sent? && trace.x.reply.Response? && trace.x.reply.code == STATUS_OK
              && |trace.x.reply.body| >= 2 && GetUint16(trace.x.reply.body) == 0
    ensures ErrorOf(trace).None? ==>
              && ResponseTo(query, trace).Some? && |ResponseTo(query, trace).value| == |trace.x.reply.body|
              && ResponseTo(query, trace).value[2..] == trace.x.reply.body[2..]
  {
    hide Servfail, Padded;
    if trace.Sent? && Accepted(trace.x) {
      WithIdReads(ReplyBody(trace.x), GetUint16(query));
    }
  }

  /**
   * Which errors come without a response: those found before anything is sent, other than a hangover,
   * and a hangover that meets a query for which there is no SERVFAIL.  All other errors, before and
   * after padding, are answered alike.
   */
  lemma ErrorWithoutResponse(query: seq<byte>, trace: Trace)
    requires TraceOf(query, trace) && ErrorOf(trace).Some?
    ensures ResponseTo(query, trace).None? <==>
              || trace.TooShort? || trace.PaddingFailed? || trace.RequestFailed?
              || (trace.Rejected? && Unpack(query).None?)
    ensures ResponseTo(query, trace).Some? ==> ResponseTo(query, trace) == Servfail(query)
  {
    hide Unpack, Servfail;
    ServfailAnswers(query);
    PaddedUnpacks(query);
  }

  /** A malformed query that comes during a hangover gets an error and no response. */
  lemma MalformedQueryInHangover() returns (query: seq<byte>)
    ensures |query| >= 2 && TraceOf(query, Trace.Rejected(0)) && ErrorOf(Trace.Rejected(0)).Some?
    ensures ResponseTo(query, Trace.Rejected(0)).None?
  {
    query := [0, 1];
  }

  /** The query failed for a reason that begins a hangover. */
  predicate Arms(trace: Trace) {
    trace.Sent? && ErrorOf(trace).Some? && ErrorOf(trace) != Some(SendFailed)
  }

  /**
   * The hangover begins if and only if the server was reached and what it sent back is not an answer:
   * a body that breaks off, another status than 200, or another ID than was sent.
   */
  lemma InvalidReplyArms(query: seq<byte>, trace: Trace)
    requires TraceOf(query, trace)
    ensures Arms(trace) <==>
              && trace.Sent? && !trace.x.reply.Failed?
              && (trace.x.reply.Broken? || trace.x.reply.code != STATUS_OK
                  || |trace.x.reply.body| < 2 || GetUint16(trace.x.reply.body) != 0)
  {
    hide Padded;
  }

  /** What doQuery does to the clock and the expiration are the steps of one query in the hangover's protocol. */
  lemma QueryIsRun(s: State, id: nat, query: seq<byte>, clock: Clock, constructs: bool, exchanges: seq<Exchange>)
    requires |query| >= 2 && s.now == clock.now && id !in s.active
    ensures var trace := TraceFor(query, clock, s.expiration, constructs, exchanges);
            var steps := QuerySteps(id, clock, s.expiration, Arms(trace));
            && Possible(s, steps)
            && var t := Run(s, steps);
            && t.now == ClockAfter(clock, trace).now
            && t.expiration == (if Arms(trace) then Expiration(t.now) else s.expiration)
  {
    hide Padded, QuerySteps, Possible, Run;
    QueryRuns(s, id, clock, Arms(TraceFor(query, clock, s.expiration, constructs, exchanges)));
  }

  /** What is sent upstream has ID 0 and is the padded query otherwise. */
  lemma UpstreamIdIsZero(query: seq<byte>)
    requires Padded(query).Some?
    ensures |Padded(query).value| >= 2
    ensures var sent := WithId(Padded(query).value, 0);
            GetUint16(sent) == 0 && sent[2..] == Padded(query).value[2..]
            && WithId(sent, GetUint16(query)) == Padded(query).value
  {
    hide Padded;
    PaddedKeepsId(query);
    WithIdReads(Padded(query).value, 0);
    IdRestored(Padded(query).value);
  }

  /** The caller gets its buffer back unchanged, except exactly when this happens. */
  lemma BufferRestored(query: seq<byte>, trace: Trace)
    requires TraceOf(query, trace)
    ensures BufferAfter(query, trace) == query <==>
              !(trace.RequestFailed? && AlreadyPadded(query) && GetUint16(query) != 0)
  {
    hide AlreadyPadded, Padded, WithId;
    if |query| >= 2 {
      ZeroedIsSame(query);
    }
  }

  /** It does happen: a query with ID 1 that is padded already comes back without its ID. */
  lemma RequestFailureLosesId() returns (query: seq<byte>)
    ensures TraceOf(query, RequestFailed(0)) && AlreadyPadded(query) && GetUint16(query) == 1
    ensures BufferAfter(query, RequestFailed(0)) != query
  {
    hide Unpack, Pack, HasPadding, BufferAfter;
    PaddedQueryPacks();
    query := Pack(PADDED_QUERY).value;
    UnpackInvertsPack(PADDED_QUERY);
    PackedId(PADDED_QUERY);
    BufferRestored(query, RequestFailed(0));
  }

  // ----- What it means for the addresses -----

  /** An address works if its server answered, and does not if the request failed; anything else says nothing. */
  function SetAfter(s: Set, x: Exchange): Set {
    if x.server.None? then s
    else if Accepted(x) then Confirming(s, x.server.value)
    else if RequestError(x).Some? then Disconfirming(s, x.server.value)
    else s
  }

  /** Only the set of the host that was used changes, and without interference exactly so. */
  ghost predicate AddressesAfter(before: map<string, Set>, after: map<string, Set>, hostname: string, x: Exchange,
                                 others: bool) {
    var host := HostOf(hostname, x);
    && OthersKept(before, after, host)
    && (host in before && (!others || !Accepted(x)) ==> after[host] == SetAfter(before[host], x))
    && (SetAfterMatters(x) ==>
          host in after && (Equal(x.server.value, after[host].confirmed) <==> Accepted(x)))
    && (!SetAfterMatters(x) ==> after == before)
  }

  /** There is something to confirm or to disconfirm. */
  predicate SetAfterMatters(x: Exchange) {
    x.server.Some? && (Accepted(x) || RequestError(x).Some?)
  }

  lemma NothingToRecord(view: map<string, Set>, hostname: string, x: Exchange, others: bool)
    requires !SetAfterMatters(x)
    ensures AddressesAfter(view, view, hostname, x, others)
  {
  }

  lemma ServerFailed(before: map<string, Set>, after: map<string, Set>, hostname: string, x: Exchange, others: bool)
    requires x.server.Some? && RequestError(x).Some? && OthersKept(before, after, HostOf(hostname, x))
    requires HostOf(hostname, x) in after && !Equal(x.server.value, after[HostOf(hostname, x)].confirmed)
    requires HostOf(hostname, x) in before ==>
               after[HostOf(hostname, x)] == Disconfirming(before[HostOf(hostname, x)], x.server.value)
    ensures AddressesAfter(before, after, hostname, x, others)
  {
    hide Equal;
  }

  lemma ServerWorks(before: map<string, Set>, after: map<string, Set>, hostname: string, x: Exchange, others: bool)
    requires x.server.Some? && Accepted(x) && OthersKept(before, after, HostOf(hostname, x))
    requires HostOf(hostname, x) in after && Equal(x.server.value, after[HostOf(hostname, x)].confirmed)
    requires !others && HostOf(hostname, x) in before ==>
               after[HostOf(hostname, x)] == Confirming(before[HostOf(hostname, x)], x.server.value)
    ensures AddressesAfter(before, after, hostname, x, others)
  {
    hide Equal;
  }

  class DohResolver {
    const hostname: string
    const ips: IpMap
    const client: HttpClient
    var hangoverExpiration: nat
    var clock: Clock

    ghost predicate Valid()
      reads this, ips, ips.m.Values
    {
      ips.Valid()
    }

    constructor (hostname: string, ips: IpMap, client: HttpClient, clock: Clock)
      requires ips.Valid()
      ensures Valid() && this.hostname == hostname && this.ips == ips && this.client == client
      ensures hangoverExpiration == 0 && this.clock == clock
    {
      this.hostname, this.ips, this.client, this.clock, hangoverExpiration := hostname, ips, client, clock, 0;
    }

    method Now() returns (t: nat)
      modifies this`clock
      ensures clock == NextReading(old(clock)) && t == clock.now
    {
      clock := NextReading(clock);
      t := clock.now;
    }

    method BeginHangover()
      modifies this`hangoverExpiration, this`clock
      ensures clock == NextReading(old(clock)) && hangoverExpiration == Expiration(clock.now)
    {
      var t := Now();
      hangoverExpiration := t + HANGOVER_DURATION;
    }

    /**
     * sendRequest.  If it fails after the client had a connection, that is closed and the address of
     * the server disconfirmed.
     */
    method SendRequest(body: seq<byte>, others: bool)
      returns (response: array?<byte>, host: string, server: Option<Address>, qerr: Option<Status>)
      requires Valid()
      modifies client, ips, ips.m.Values
      ensures Valid() && EntriesKept(old(ips.m), ips.m)
      ensures client.requests == old(client.requests) + [body]
      ensures client.exchanges == LaterExchanges(old(client.exchanges))
      ensures var x := NextExchange(old(client.exchanges));
              && qerr == RequestError(x) && server == x.server && host == HostOf(hostname, x)
              && (response == null <==> x.reply.Failed?)
              && (response != null ==> fresh(response) && response[..] == ReplyBody(x))
      ensures client.discarded == old(client.discarded) + (if qerr.Some? && server.Some? then 1 else 0)
      // Only the address of a server that failed is disconfirmed.
      ensures qerr.Some? ==>
                AddressesAfter(old(ips.View()), ips.View(), hostname, NextExchange(old(client.exchanges)), others)
      ensures qerr.None? ==> ips.m == old(ips.m) && ips.View() == old(ips.View())
    {
      hide Equal, AddressesAfter, OthersKept, IpMap.Valid, IpMap.View, Disconfirming;
      var x := client.Do(body);
      host, server, response, qerr := hostname, x.server, null, None;
      match x.reply {
        case Failed => qerr := Some(SendFailed);
        case Broken(part) =>
          response := NewArray(part);
          qerr := Some(BadResponse);
        case Response(final, code, whole) =>
          response := NewArray(whole);
          host := final;
          if code != STATUS_OK {
            qerr := Some(HTTPError);
          }
      }
      ghost var view := ips.View();
      if qerr.Some? && server.Some? {
        ips.Disconfirm(host, server.value, others);
        ServerFailed(view, ips.View(), hostname, x, others);
        client.Discard();
      } else if qerr.Some? {
        NothingToRecord(view, hostname, x, others);
      }
    }

    /** doQuery from the request on: `p` is the padded query without its ID, which comes back here. */
    method SendQuery(p: array<byte>, id: uint16, others: bool)
      returns (response: array?<byte>, server: Option<Address>, qerr: Option<Status>)
      requires Valid() && p.Length >= 2
      modifies this`hangoverExpiration, this`clock, client, p, ips, ips.m.Values
      ensures Valid() && EntriesKept(old(ips.m), ips.m)
      ensures client.requests == old(client.requests) + [old(p[..])]
      ensures client.exchanges == LaterExchanges(old(client.exchanges))
      ensures p[..] == WithId(old(p[..]), id)
      ensures response != null ==> fresh(response)
      ensures var x := NextExchange(old(client.exchanges));
              && qerr == ErrorIn(x) && server == x.server
              && client.discarded == old(client.discarded) + (if Discards(x) then 1 else 0)
              && (qerr.None? ==> response != null && response[..] == WithId(ReplyBody(x), id))
              && AddressesAfter(old(ips.View()), ips.View(), hostname, x, others)
      ensures qerr.Some? ==> (response == null <==> Servfail(p[..]).None?)
      ensures qerr.Some? && response != null ==> response[..] == Servfail(p[..]).value
      ensures clock == if qerr.Some? && qerr != Some(SendFailed) then NextReading(old(clock)) else old(clock)
      ensures hangoverExpiration
              == if qerr.Some? && qerr != Some(SendFailed) then Expiration(clock.now) else old(hangoverExpiration)
    {
      hide Servfail, WithId, Equal, GetUint16, WellFormed, IpMap.Valid, IpMap.View, AddressesAfter, OthersKept,
           Confirming, Disconfirming;
      ghost var x, view := NextExchange(client.exchanges), ips.View();
      var host;
      response, host, server, qerr := SendRequest(p[..], others);
      PutId(p, id);
      if qerr.None? {
        qerr := CheckResponse(response, id);
      }
      if qerr.Some? {
        if qerr.value != SendFailed {
          BeginHangover();
        }
        response := TryServfail(p);
        if RequestError(x).None? {
          NothingToRecord(view, hostname, x, others);
        }
      } else if server.Some? {
        ips.Confirm(host, server.value, others);
        ServerWorks(view, ips.View(), hostname, x, others);
      } else {
        NothingToRecord(view, hostname, x, others);
      }
    }

    /**
     * doQuery.  `constructs` tells whether http.NewRequestWithContext succeeds.  `trace` says how far the
     * query got; everything else is stated about the query as the caller passed it.
     */
    method DoQuery(q: array<byte>, constructs: bool, others: bool)
      returns (response: array?<byte>, server: Option<Address>, qerr: Option<Status>, ghost trace: Trace)
      requires Valid()
      modifies this`hangoverExpiration, this`clock, client, q, ips, ips.m.Values
      ensures Valid() && EntriesKept(old(ips.m), ips.m)
      // How far it gets depends on the query, the clock, the constructor of the request and the HTTP client.
      ensures trace == TraceFor(old(q[..]), old(clock), old(hangoverExpiration), constructs, old(client.exchanges))
      // What is sent: the padded query with ID 0, or nothing.
      ensures client.requests
              == old(client.requests) + (if trace.Sent? then [WithId(Padded(old(q[..])).value, 0)] else [])
      ensures client.exchanges == if trace.Sent? then LaterExchanges(old(client.exchanges)) else old(client.exchanges)
      // What is answered.
      ensures qerr == ErrorOf(trace)
      ensures response == null <==> ResponseTo(old(q[..]), trace).None?
      ensures response != null ==> response[..] == ResponseTo(old(q[..]), trace).value
      // The caller's buffer is as before unless the request could not be constructed from a query padded by the caller.
      ensures q[..] == BufferAfter(old(q[..]), trace)
      // The hangover begins with an answer that is an error, but not with a failure to send.
      ensures clock == ClockAfter(old(clock), trace)
      ensures hangoverExpiration == if Arms(trace) then Expiration(clock.now) else old(hangoverExpiration)
      // What becomes of the server's address and connection.
      ensures server == if trace.Sent? then trace.x.server else None
      ensures trace.Sent? ==> AddressesAfter(old(ips.View()), ips.View(), hostname, trace.x, others)
      ensures !trace.Sent? ==> ips.m == old(ips.m) && ips.View() == old(ips.View())
      ensures client.discarded == old(client.discarded) + (if trace.Sent? && Discards(trace.x) then 1 else 0)
    {
      hide Padded, Servfail, AlreadyPadded, WithId, Equal, AddressesAfter, IpMap.Valid, IpMap.View, OthersKept, Unpack,
           OnlyPaddingAdded, Accepted, RequestError, ReplyBody, HostOf;
      ghost var query := q[..];
      response, server, qerr := null, None, None;
      if q.Length < 2 {
        qerr, trace := Some(BadQuery), TooShort;
        return;
      }
      var t := Now();
      if t < hangoverExpiration {
        response := TryServfail(q);
        qerr, trace := Some(HTTPError), Trace.Rejected(t);
        return;
      }
      var p := AddEdnsPadding(q);
      if p == null {
        qerr, trace := Some(InternalError), PaddingFailed(t);
        return;
      }
      ghost var padded := p[..];
      PaddedKeepsId(query);
      ServfailErasesPadding(query);
      IdRestored(padded);
      var id := GetUint16(p[..]);
      PutId(p, 0);
      if !constructs {
        qerr, trace := Some(InternalError), RequestFailed(t);
        return;
      }
      trace := Sent(t, NextExchange(client.exchanges));
      response, server, qerr := SendQuery(p, id, others);
      assert p[..] == padded;
    }
  }

  /** A run in which the caller's buffer comes back without its ID. */
  method QueryWhoseRequestFails(r: DohResolver, q: array<byte>)
    requires r.Valid() && r.hangoverExpiration == 0 && AlreadyPadded(q[..]) && |q[..]| >= 2 && GetUint16(q[..]) != 0
    modifies r`hangoverExpiration, r`clock, r.client, q, r.ips, r.ips.m.Values
    ensures q[..] == WithId(old(q[..]), 0) != old(q[..])
  {
    hide AlreadyPadded, Padded, WithId, AddressesAfter, IpMap.Valid, IpMap.View, Servfail;
    ghost var query := q[..];
    AlreadyPaddedIsPadded(query);
    var response, server, qerr;
    ghost var trace;
    response, server, qerr, trace := r.DoQuery(q, false, false);
    ZeroedIsSame(query);
  }

  lemma AlreadyPaddedIsPadded(query: seq<byte>)
    requires AlreadyPadded(query)
    ensures Padded(query) == Some(query)
  {
    hide Unpack, HasPadding;
  }
}
