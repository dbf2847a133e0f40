/** The DNS-over-TLS resolver: its construction and doQuery (proxy/dot/dot.go). */
module DotResolvers {
  import opened Bytes
  import opened DnsMessage
  import opened DnsRoundTrip
  import opened Padding
  import opened Servfails
  import opened Framing
  import opened FramedStreams
  import opened IpSets
  import opened IpMaps
  import opened Dials
  import opened Hangovers
  import opened Queries

  // ----- What a connection makes of a message -----

  /** The deadlines could be set and the handshake succeeded. */
  predicate Connects(link: Link) {
    link.deadline && link.handshake && link.writeDeadline
  }

  /** dnsOverTCPWrite gives the message to the connection. */
  predicate WasWritten(link: Option<Link>, msg: seq<byte>) {
    link.Some? && Connects(link.value) && Fits(msg)
  }

  /** The message has been sent, and the reply is read. */
  predicate Awaited(link: Option<Link>, msg: seq<byte>) {
    WasWritten(link, msg) && WholeWrite([link.value.write], 2 + |msg|) && link.value.readDeadline
  }

  /** The message that the server sends back, if one can be read. */
  function Reply(link: Link): Option<seq<byte>> {
    ReadMessage(link.reply, link.schedule)
  }

  predicate Answered(link: Option<Link>, msg: seq<byte>) {
    Awaited(link, msg) && Reply(link.value).Some?
  }

  /** The answer has the ID that was sent. */
  predicate Accepted(link: Option<Link>, msg: seq<byte>) {
    Answered(link, msg) && |Reply(link.value).value| >= 2 && GetUint16(Reply(link.value).value) == 0
  }

  function ErrorIn(link: Option<Link>, msg: seq<byte>): Option<Status> {
    if Accepted(link, msg) then None
    else if Awaited(link, msg) then Some(BadResponse)
    else if link.Some? && Connects(link.value) && !Fits(msg) then Some(BadQuery)
    else Some(SendFailed)
  }

  // ----- How far a query gets -----

  /** `Dialled` holds the connection that was obtained, or None. */
  datatype Trace =
    | TooShort
    | Rejected(at: nat)
    | PaddingFailed(at: nat)
    | Dialled(at: nat, link: Option<Link>)

  function TraceFor(query: seq<byte>, clock: Clock, expiration: nat, link: Option<Link>): (trace: Trace)
    ensures TraceOf(query, trace)
  {
    var now := NextReading(clock).now;
    if |query| < 2 then TooShort
    else if InHangover(now, expiration) then Trace.Rejected(now)
    else if Padded(query).None? then PaddingFailed(now)
    else Dialled(now, link)
  }

  /** The trace belongs to this query. */
  predicate TraceOf(query: seq<byte>, trace: Trace) {
    && (trace.TooShort? <==> |query| < 2)
    && (trace.Dialled? ==> Padded(query).Some? && |Padded(query).value| >= 2)
  }

  /** What is sent for the query: padded, and without its ID. */
  function Sent(query: seq<byte>): (msg: seq<byte>)
    requires Padded(query).Some? && |Padded(query).value| >= 2
    ensures |msg| == |Padded(query).value|
  {
    WithId(Padded(query).value, 0)
  }

  function ErrorOf(query: seq<byte>, trace: Trace): Option<Status>
    requires TraceOf(query, trace)
  {
    match trace
    case TooShort => Some(BadQuery)
    case Rejected(_) => Some(HTTPError)
    case PaddingFailed(_) => Some(InternalError)
    case Dialled(_, link) => ErrorIn(link, Sent(query))
  }

  function ResponseTo(query: seq<byte>, trace: Trace): Option<seq<byte>>
    requires TraceOf(query, trace)
  {
    match trace
    case TooShort => None
    case Rejected(_) => Servfail(query)
    case PaddingFailed(_) => None
    case Dialled(_, link) =>
      if Accepted(link, Sent(query)) then Some(WithId(Reply(link.value).value, GetUint16(query)))
      else if Answered(link, Sent(query)) then Servfail(query)
      else None
  }

  /** The query failed for a reason that begins a hangover: a reply was read and is refused. */
  predicate Arms(query: seq<byte>, trace: Trace)
    requires TraceOf(query, trace)
  {
    trace.Dialled? && Answered(trace.link, Sent(query)) && !Accepted(trace.link, Sent(query))
  }

  /** The clock is read for the check, and again when the hangover begins. */
  function ClockAfter(clock: Clock, query: seq<byte>, trace: Trace): Clock
    requires TraceOf(query, trace)
  {
    if trace.TooShort? then clock
    else if Arms(query, trace) then NextReading(NextReading(clock))
    else NextReading(clock)
  }

  // ----- What that means for the stub resolver -----

  lemma ResponseCarriesId(query: seq<byte>, trace: Trace)
    requires TraceOf(query, trace) && ResponseTo(query, trace).Some?
    ensures var r := ResponseTo(query, trace).value;
            |query| >= 2 && |r| >= 2 && GetUint16(r) == GetUint16(query)
  {
    hide Servfail, Padded, Sent, ReadMessage;
    if trace.Dialled? && Accepted(trace.link, Sent(query)) {
      WithIdReads(Reply(trace.link.value).value, GetUint16(query));
    } else {
      ServfailAnswers(query);
    }
  }

  /**
   * Success means that the first frame the server sent has ID 0, and only the ID of it is changed.  A
   * message that was read is only ever refused for its ID: the test of its length cannot fail.
   */
  lemma SuccessIsFaithful(query: seq<byte>, trace: Trace)
    requires TraceOf(query, trace)
    ensures ErrorOf(query, trace).None? ==>
              && trace.Dialled? && Awaited(trace.link, Sent(query)) && HasFrame(trace.link.value.reply)
              && var answer := FirstMessage(trace.link.value.reply);
              && |answer| >= 2 && GetUint16(answer) == 0
              && ResponseTo(query, trace).Some? && |ResponseTo(query, trace).value| == |answer|
              && ResponseTo(query, trace).value[2..] == answer[2..]
    ensures trace.Dialled? && Answered(trace.link, Sent(query)) ==>
              && |Reply(trace.link.value).value| >= 2
              && (ErrorOf(query, trace).None? <==> GetUint16(Reply(trace.link.value).value) == 0)
  {
    hide Servfail, Padded, Sent, ReadMessage;
    if trace.Dialled? && Awaited(trace.link, Sent(query)) {
      var link := trace.link.value;
      MessageIsFirstFrame(link.reply, link.schedule);
      if Accepted(trace.link, Sent(query)) {
        WithIdReads(FirstMessage(link.reply), GetUint16(query));
      }
    }
  }

  /**
   * Which errors come without a response: all before a reply has been read, and a hangover that meets a
   * query for which there is no SERVFAIL.
   */
  lemma ErrorWithoutResponse(query: seq<byte>, trace: Trace)
    requires TraceOf(query, trace) && ErrorOf(query, trace).Some?
    ensures ResponseTo(query, trace).None? <==>
              || trace.TooShort? || trace.PaddingFailed? || (trace.Rejected? && Unpack(query).None?)
              || (trace.Dialled? && !Answered(trace.link, Sent(query)))
    ensures ResponseTo(query, trace).Some? ==> ResponseTo(query, trace) == Servfail(query)
  {
    hide Unpack, Servfail, Padded, Sent, Reply;
    ServfailAnswers(query);
    PaddedUnpacks(query);
  }

  /** A malformed query that comes during a hangover gets an error and no response. */
  lemma MalformedQueryInHangover() returns (query: seq<byte>)
    ensures |query| >= 2 && TraceOf(query, Trace.Rejected(0)) && ErrorOf(query, Trace.Rejected(0)).Some?
    ensures ResponseTo(query, Trace.Rejected(0)).None?
  {
    query := [0, 1];
  }

  /**
   * For a query that was sent and whose reply was awaited: anything but a message with ID 0 is a bad
   * response, and it begins a hangover if and only if a message could be read.
   */
  lemma InvalidReplyArms(query: seq<byte>, at: nat, link: Link)
    requires TraceOf(query, Dialled(at, Some(link))) && Awaited(Some(link), Sent(query))
    ensures var message := ReadMessage(link.reply, link.schedule);
            && (ErrorOf(query, Dialled(at, Some(link))) == Some(BadResponse) <==>
                  message.None? || |message.value| < 2 || GetUint16(message.value) != 0)
            && (Arms(query, Dialled(at, Some(link))) <==>
                  message.Some? && |message.value| >= 2 && GetUint16(message.value) != 0)
  {
    hide Padded, Sent, ReadMessage, Awaited;
    MessageIsFirstFrame(link.reply, link.schedule);
  }

  /**
   * In terms of what the server sends: a hangover begins only if that starts with a frame of at least two
   * octets whose ID is not 0; and on a connection that keeps delivering such a frame does begin one.
   */
  lemma RefusedFrameArms(query: seq<byte>, at: nat, link: Link)
    requires TraceOf(query, Dialled(at, Some(link))) && Awaited(Some(link), Sent(query))
    ensures Arms(query, Dialled(at, Some(link))) ==> RefusedFrame(link.reply)
    ensures RefusedFrame(link.reply) && Healthy(link.schedule) && |link.schedule| >= 2 + GetUint16(link.reply) ==>
              Arms(query, Dialled(at, Some(link)))
  {
    hide Padded, Sent, ReadMessage, Awaited;
    MessageIsFirstFrame(link.reply, link.schedule);
  }

  predicate RefusedFrame(stream: seq<byte>) {
    HasFrame(stream) && |FirstMessage(stream)| >= 2 && GetUint16(FirstMessage(stream)) != 0
  }

  /** No other query begins one. */
  lemma OnlyRepliesArm(query: seq<byte>, trace: Trace)
    requires TraceOf(query, trace) && Arms(query, trace)
    ensures trace.Dialled? && Awaited(trace.link, Sent(query)) && ErrorOf(query, trace) == Some(BadResponse)
  {
    hide Padded, Sent, Awaited;
  }

  lemma ConfirmedKnown(s: Set)
    requires WellFormed(s.ips, s.confirmed)
    ensures s.confirmed != NIL ==> Contains(s.ips, s.confirmed)
  {
  }

  /** What doQuery does to the clock and the expiration are the steps of one query in the hangover's protocol. */
  lemma QueryIsRun(s: State, id: nat, query: seq<byte>, clock: Clock, link: Option<Link>)
    requires |query| >= 2 && s.now == clock.now && id !in s.active
    ensures var trace := TraceFor(query, clock, s.expiration, link);
            var steps := QuerySteps(id, clock, s.expiration, Arms(query, trace));
            && Possible(s, steps)
            && var t := Run(s, steps);
            && t.now == ClockAfter(clock, query, trace).now
            && t.expiration == (if Arms(query, trace) then Expiration(t.now) else s.expiration)
  {
    hide Padded, QuerySteps, Possible, Run, Answered, Accepted;
    QueryRuns(s, id, clock, Arms(query, TraceFor(query, clock, s.expiration, link)));
  }

  lemma NotNil(ips: seq<IP>, i: nat)
    requires NoneNil(ips) && i < |ips|
    ensures ips[i] != NIL
  {
  }

  /** What becomes of a connection, if there is one. */
  ghost function LinkOf(conn: Connection?): Option<Link> {
    if conn == null then None else Some(conn.link)
  }

  /** What was said on the connection: the message in one frame, or nothing; in the end it is closed. */
  ghost predicate Conversation(conn: Connection?, msg: seq<byte>)
    reads if conn == null then {} else {conn.stream}
  {
    conn != null ==>
      && conn.stream.closed
      && conn.stream.writes == (if WasWritten(Some(conn.link), msg) then [Frame(msg)] else [])
  }

  /** The remote address of a connection whose handshake succeeded. */
  ghost function ServerOf(conn: Connection?): Option<IP> {
    if conn != null && conn.link.deadline && conn.link.handshake then Some(conn.peer) else None
  }

  lemma NoServer()
    ensures ServerOf(null) == None
  {
  }

  /** A server that answered is confirmed; otherwise the set is as the dials left it. */
  ghost predicate KnownAfter(before: Set, after: Set, links: seq<Option<Link>>, server: Option<IP>,
                             qerr: Option<Status>, others: bool) {
    && (qerr.None? && server.Some? ==> Equal(server.value, after.confirmed))
    && (!others ==>
          var dialled := Set(before.ips, StaysConfirmed(before.confirmed, links));
          after == (if qerr.None? && server.Some? then Confirming(dialled, server.value) else dialled))
  }

  lemma NothingSaid(msg: seq<byte>)
    ensures Conversation(null, msg) && ErrorIn(None, msg) == Some(SendFailed) && !Answered(None, msg)
  {
  }

  class DotResolver {
    const hostname: string
    const ips: IpMap
    const dialer: Dialer
    var hangoverExpiration: nat
    var clock: Clock

    /** The server has an address; no operation takes addresses away. */
    ghost predicate Valid()
      reads this, ips, ips.m.Values
    {
      ips.Valid() && hostname in ips.m && ips.m[hostname].ips != []
    }

    constructor (hostname: string, ips: IpMap, dialer: Dialer, clock: Clock)
      requires ips.Valid() && hostname in ips.m && ips.m[hostname].ips != []
      ensures Valid() && this.hostname == hostname && this.ips == ips && this.dialer == dialer
      ensures hangoverExpiration == 0 && this.clock == clock
    {
      this.hostname, this.ips, this.dialer, this.clock, hangoverExpiration := hostname, ips, dialer, clock, 0;
    }

    method Now() returns (t: nat)
      modifies this`clock
      ensures clock == NextReading(old(clock)) && t == clock.now
    {
      clock := NextReading(clock);
      t := clock.now;
    }

    method BeginHangover()
      modifies this`hangoverExpiration, this`clock
      ensures clock == NextReading(old(clock)) && hangoverExpiration == Expiration(clock.now)
    {
      var t := Now();
      hangoverExpiration := t + HANGOVER_DURATION;
    }

    /** The set of the server's addresses. */
    ghost function Known(): Set
      requires Valid()
      reads this, ips, ips.m.Values
    {
      ips.m[hostname].Value()
    }

    /**
     * Which addresses were dialled, and with what result: the confirmed one first, none twice, up to the
     * first success.  A failure means that every address known at the beginning was dialled, in one form or
     * another; and without interference only known addresses are.
     */
    ghost predicate DialsMade(attempts: seq<IP>, conn: Connection?, dialled: seq<IP>, links: seq<Option<Link>>,
                              connections: seq<Connection>, known: Set, others: bool)
      reads dialer
    {
      && Distinct(attempts) && attempts != []
      && (known.confirmed != NIL ==> attempts[0] == known.confirmed)
      && DialledOver(dialer, dialled, links, connections, attempts, conn)
      && (conn == null ==> forall ip :: ip in known.ips ==> Contains(attempts, ip))
      && (!others ==> forall a :: a in attempts ==> Contains(known.ips, a))
    }

    /** dialPlainTCP: because the set of addresses is not empty, there is a connection or an error. */
    method DialPlainTcp(others: bool) returns (conn: Connection?, failed: bool, ghost attempts: seq<IP>)
      requires Valid()
      modifies dialer, ips, ips.m[hostname]
      ensures ips.m == old(ips.m)
      ensures Valid() && (failed <==> conn == null)
      ensures DialsMade(attempts, conn, old(dialer.dialled), old(dialer.links), old(dialer.connections), old(Known()),
                        others)
      ensures Reached(attempts, old(dialer.links)) == LinkOf(conn)
      ensures conn != null ==> fresh(conn) && fresh(conn.stream) && conn.Untouched() && conn.peer != NIL
      ensures !others ==> Known() == Set(old(Known().ips), StaysConfirmed(old(Known().confirmed), old(dialer.links)))
    {
      hide Attempts, Distinct, NoneNil, Tries, Reached, Contains, Equal, WellFormed;
      ghost var known, links := Known(), dialer.links;
      var s := ips.Get(hostname, others);
      ghost var snapshot;
      conn, failed, snapshot := DialFallback(dialer, s, others);
      attempts := Attempts(known.confirmed, snapshot);
      AttemptsComplete(known.confirmed, snapshot);
      AttemptsNoneNil(known.confirmed, snapshot);
      ConfirmedKnown(known);
      if !others {
        AttemptsKnown(known.confirmed, snapshot, known.ips);
      }
      if known.confirmed == NIL || LinkAt(links, 0).None? {
        assert known.ips[0] in snapshot;
      } else {
        FirstSucceeds(attempts, links);
      }
      if conn != null {
        NotNil(attempts, Tries(attempts, links) - 1);
      }
    }

    /** From the deadlines to the reading of the reply; the connection is closed on every path. */
    method Transact(conn: Connection, p: array<byte>)
      returns (response: array?<byte>, server: Option<IP>, qerr: Option<Status>)
      requires conn.Untouched()
      modifies conn.stream
      ensures Conversation(conn, p[..])
      ensures response != null ==> fresh(response)
      ensures response != null <==> Answered(Some(conn.link), p[..])
      ensures response != null ==> response[..] == Reply(conn.link).value
      ensures qerr == if response != null then None else ErrorIn(Some(conn.link), p[..])
      ensures server == ServerOf(conn)
    {
      hide Fits, WholeWrite, ReadMessage;
      response, server := null, None;
      if !conn.link.deadline || !conn.link.handshake {
        conn.stream.Close();
        return null, None, Some(SendFailed);
      }
      server := Some(conn.peer);
      if !conn.link.writeDeadline {
        conn.stream.Close();
        qerr := Some(SendFailed);
        return;
      }
      var e := DnsOverTcpWrite(conn.stream, p);
      if e != WriteResult.Written {
        conn.stream.Close();
        qerr := Some(if e.Oversize? then BadQuery else SendFailed);
        return;
      }
      if !conn.link.readDeadline {
        conn.stream.Close();
        qerr := Some(SendFailed);
        return;
      }
      response := DnsOverTcpRead(conn.stream);
      conn.stream.Close();
      qerr := if response == null then Some(BadResponse) else None;
    }

    /** Records a working address. */
    method Confirm(server: IP, others: bool)
      requires Valid() && server != NIL
      modifies ips, ips.m[hostname]
      ensures Valid() && ips.m == old(ips.m) && Equal(server, Known().confirmed)
      ensures !others ==> Known() == Confirming(old(Known()), server)
    {
      hide Equal, Confirming;
      var s := ips.Get(hostname, others);
      s.Confirm(server, others);
    }

    /** doQuery from the dialling on: `p` is the padded query without its ID, which comes back here. */
    method SendQuery(p: array<byte>, id: uint16, others: bool)
      returns (response: array?<byte>, server: Option<IP>, qerr: Option<Status>,
               ghost conn: Connection?, ghost attempts: seq<IP>)
      requires Valid() && p.Length >= 2
      modifies this`hangoverExpiration, this`clock, p, dialer, ips, ips.m[hostname]
      ensures Valid() && ips.m == old(ips.m)
      ensures p[..] == WithId(old(p[..]), id)
      ensures DialsMade(attempts, conn, old(dialer.dialled), old(dialer.links), old(dialer.connections), old(Known()),
                        others)
      ensures Conversation(conn, old(p[..]))
      ensures var link := Reached(attempts, old(dialer.links));
              && qerr == ErrorIn(link, old(p[..]))
              && server == ServerOf(conn)
              && (!Answered(link, old(p[..])) ==> response == null)
              && (qerr.None? ==> response != null && response[..] == WithId(Reply(link.value).value, id))
              && (Answered(link, old(p[..])) && qerr.Some? ==> (response == null <==> Servfail(p[..]).None?))
              && (Answered(link, old(p[..])) && qerr.Some? && response != null ==>
                    response[..] == Servfail(p[..]).value)
              && var arms := Answered(link, old(p[..])) && qerr.Some?;
              && clock == (if arms then NextReading(old(clock)) else old(clock))
              && hangoverExpiration == (if arms then Expiration(clock.now) else old(hangoverExpiration))
      ensures KnownAfter(old(Known()), Known(), old(dialer.links), server, qerr, others)
    {
      hide Servfail, WithId, Equal, WellFormed, GetUint16, IpMap.Valid, Fits, Reply, Awaited, DialsMade, Conversation,
           Reached, Confirming;
      ghost var msg := p[..];
      conn, attempts, response := null, [], null;
      var failed, c;
      c, failed, attempts := DialPlainTcp(others);
      conn := c;
      if failed {
        NothingSaid(msg);
        PutId(p, id);
        server, qerr := None, Some(SendFailed);
        return;
      }
      response, server, qerr := Transact(c, p);
      PutId(p, id);
      if qerr.Some? {
        return;
      }
      qerr := CheckResponse(response, id);
      if qerr.Some? {
        if qerr.value != SendFailed {
          BeginHangover();
        }
        response := TryServfail(p);
      } else if server.Some? {
        Confirm(server.value, others);
      }
    }

    /**
     * doQuery.  `conn` is the connection that was opened, if any, and `attempts` what would be dialled if
     * every dial failed; everything else is stated about the query as the caller passed it.
     */
    method DoQuery(q: array<byte>, others: bool)
      returns (response: array?<byte>, server: Option<IP>, qerr: Option<Status>, ghost trace: Trace,
               ghost conn: Connection?, ghost attempts: seq<IP>)
      requires Valid()
      modifies this`hangoverExpiration, this`clock, q, dialer, ips, ips.m[hostname]
      ensures Valid() && ips.m == old(ips.m)
      // How far it gets depends on the query, the clock and the network.
      ensures trace == TraceFor(old(q[..]), old(clock), old(hangoverExpiration), Reached(attempts, old(dialer.links)))
      // What is dialled, and what is sent: the padded query with ID 0 in one frame, or nothing.
      ensures trace.Dialled? ==>
                && DialsMade(attempts, conn, old(dialer.dialled), old(dialer.links), old(dialer.connections),
                             old(Known()), others)
                && Conversation(conn, Sent(old(q[..])))
                && KnownAfter(old(Known()), Known(), old(dialer.links), server, qerr, others)
      ensures !trace.Dialled? ==> conn == null && unchanged(dialer) && Known() == old(Known())
      ensures server == ServerOf(conn)
      // What is answered.
      ensures qerr == ErrorOf(old(q[..]), trace)
      ensures response == null <==> ResponseTo(old(q[..]), trace).None?
      ensures response != null ==> response[..] == ResponseTo(old(q[..]), trace).value
      // The caller's buffer is as before on every path.
      ensures q[..] == old(q[..])
      // The hangover begins only with an answer that is refused.
      ensures clock == ClockAfter(old(clock), old(q[..]), trace)
      ensures hangoverExpiration == if Arms(old(q[..]), trace) then Expiration(clock.now) else old(hangoverExpiration)
    {
      hide Padded, Servfail, WithId, Equal, WellFormed, GetUint16, IpMap.Valid, Reply, Awaited, DialsMade, Conversation,
           Reached, Confirming, KnownAfter, ServerOf, Unpack, OnlyPaddingAdded;
      ghost var query := q[..];
      response, server, qerr, conn, attempts := null, None, None, null, [];
      NoServer();
      if q.Length < 2 {
        qerr, trace := Some(BadQuery), TooShort;
        return;
      }
      var t := Now();
      if t < hangoverExpiration {
        response := TryServfail(q);
        qerr, trace := Some(HTTPError), Trace.Rejected(t);
        return;
      }
      var p := AddEdnsPadding(q);
      if p == null {
        qerr, trace := Some(InternalError), PaddingFailed(t);
        return;
      }
      ghost var padded := p[..];
      PaddedKeepsId(query);
      ServfailErasesPadding(query);
      IdRestored(padded);
      var id := GetUint16(p[..]);
      PutId(p, 0);
      ghost var links := dialer.links;
      response, server, qerr, conn, attempts := SendQuery(p, id, others);
      trace := Dialled(t, Reached(attempts, links));
      assert p[..] == padded;
    }
  }

  /** The addresses of the host and of all given names, each once. */
  function AllKnown(lookup: string -> seq<Address>, hostname: string, addrs: seq<string>): seq<IP>
    decreases |addrs|
  {
    if addrs == [] then AddedAll([], lookup(hostname))
    else AddedAll(AllKnown(lookup, hostname, addrs[..|addrs| - 1]), lookup(addrs[|addrs| - 1]))
  }

  lemma NotEmptied(ips: seq<IP>, more: seq<Address>)
    requires WellFormed(ips, NIL)
    ensures WellFormed(AddedAll(ips, more), NIL) && (AddedAll(ips, more) == [] <==> ips == [] && more == [])
  {
    AddressesNotNil(more);
    AddedAllKeeps(ips, NIL, more);
    if more != [] {
      assert Contains(AddedAll(ips, more), more[0]);
    }
  }

  /** There is an address unless every lookup came back empty. */
  lemma {:induction false} KnownEmpty(lookup: string -> seq<Address>, hostname: string, addrs: seq<string>)
    ensures WellFormed(AllKnown(lookup, hostname, addrs), NIL)
    ensures AllKnown(lookup, hostname, addrs) == [] <==>
              lookup(hostname) == [] && forall a :: a in addrs ==> lookup(a) == []
    decreases |addrs|
  {
    if addrs == [] {
      NotEmptied([], lookup(hostname));
    } else {
      var front, last := addrs[..|addrs| - 1], addrs[|addrs| - 1];
      KnownEmpty(lookup, hostname, front);
      NotEmptied(AllKnown(lookup, hostname, front), lookup(last));
      assert addrs == front + [last];
    }
  }

  /** `ip` is an address of the host or of a given name. */
  predicate Given(lookup: string -> seq<Address>, hostname: string, addrs: seq<string>, ip: IP) {
    ip in lookup(hostname) || exists a :: a in addrs && ip in lookup(a)
  }

  /** The set holds what the lookups gave and nothing else, the addresses of the host first. */
  lemma {:induction false} KnownExactly(lookup: string -> seq<Address>, hostname: string, addrs: seq<string>)
    ensures AddedAll([], lookup(hostname)) <= AllKnown(lookup, hostname, addrs)
    ensures forall ip :: ip in AllKnown(lookup, hostname, addrs) ==> Given(lookup, hostname, addrs, ip)
    ensures forall ip :: Given(lookup, hostname, addrs, ip) ==> Contains(AllKnown(lookup, hostname, addrs), ip)
    decreases |addrs|
  {
    hide Contains;
    KnownEmpty(lookup, hostname, addrs);
    var all := AllKnown(lookup, hostname, addrs);
    if addrs == [] {
      AddressesNotNil(lookup(hostname));
      AddedAllKeeps([], NIL, lookup(hostname));
    } else {
      var front, last := addrs[..|addrs| - 1], addrs[|addrs| - 1];
      var before := AllKnown(lookup, hostname, front);
      KnownExactly(lookup, hostname, front);
      KnownEmpty(lookup, hostname, front);
      AddressesNotNil(lookup(last));
      AddedAllKeeps(before, NIL, lookup(last));
      assert addrs == front + [last];
      forall ip | ip in all ensures Given(lookup, hostname, addrs, ip) {
        if ip in before {
          GivenBefore(lookup, hostname, front, last, ip);
        }
      }
      forall ip | Given(lookup, hostname, addrs, ip) ensures Contains(all, ip) {
        if Given(lookup, hostname, front, ip) {
          StillContains(before, all, ip);
        } else {
          var i :| 0 <= i < |lookup(last)| && lookup(last)[i] == ip;
        }
      }
    }
  }

  lemma GivenBefore(lookup: string -> seq<Address>, hostname: string, front: seq<string>, last: string, ip: IP)
    requires Given(lookup, hostname, front, ip)
    ensures Given(lookup, hostname, front + [last], ip)
  {
    if ip !in lookup(hostname) {
      var a :| a in front && ip in lookup(a);
      assert a in front + [last];
    }
  }

  /** NewResolver, the URL being parsed already; without any address there is no resolver. */
  method NewResolver(hostname: string, addrs: seq<string>, lookup: string -> seq<Address>, dialer: Dialer, clock: Clock)
    returns (t: DotResolver?)
    ensures t == null <==> lookup(hostname) == [] && forall a :: a in addrs ==> lookup(a) == []
    ensures t != null ==>
              && fresh(t) && fresh(t.ips) && t.Valid() && t.hostname == hostname && t.dialer == dialer
              && t.clock == clock && t.hangoverExpiration == 0 && t.ips.lookup == lookup
              && fresh(t.ips.m[hostname]) && t.Known() == Set(AllKnown(lookup, hostname, addrs), NIL)
  {
    hide Contains, AddedAll;
    var ips := new IpMap(lookup);
    var s := ips.Get(hostname, false);
    for i := 0 to |addrs|
      invariant fresh(s) && fresh(ips) && ips.Valid() && hostname in ips.m && ips.m == map[hostname := s]
      invariant s.ips == AllKnown(lookup, hostname, addrs[..i]) && s.confirmed == NIL
    {
      assert addrs[..i + 1][..i] == addrs[..i];
      AddressesNotNil(lookup(addrs[i]));
      s.Add(lookup(addrs[i]));
    }
    assert addrs[..|addrs|] == addrs;
    KnownEmpty(lookup, hostname, addrs);
    var empty := s.Empty();
    if empty {
      return null;
    }
    t := new DotResolver(hostname, ips, dialer, clock);
  }

  // ----- Runs -----

  lemma PaddedQueryStays() returns (query: seq<byte>)
    ensures Pack(PADDED_QUERY) == Some(query) && Padded(query) == Some(query) && 2 <= |query| <= MAX_UINT16
  {
    hide Unpack, Pack, HasPadding;
    PaddedQueryLen();
    PaddedQueryPacks();
    UnpackInvertsPack(PADDED_QUERY);
    query := Pack(PADDED_QUERY).value;
  }

  /** A new resolver with one address asks one query over `link`. */
  method AskOnce(link: Link) returns (qerr: Option<Status>, expiration: nat, ghost query: seq<byte>)
    ensures TraceOf(query, Dialled(0, Some(link))) && |Sent(query)| == 27
    ensures qerr == ErrorOf(query, Dialled(0, Some(link)))
    ensures expiration == if Arms(query, Dialled(0, Some(link))) then HANGOVER_DURATION else 0
  {
    hide Padded, Pack, Reached, Awaited, Reply, DialledOver;
    query := PaddedQueryStays();
    PaddedQueryLen();
    var q := NewArray(Pack(PADDED_QUERY).value);
    var dialer := new Dialer([Some(link)]);
    var t := NewResolver("dns.example", [], name => [[192, 0, 2, 1]], dialer, Clock(0, []));
    var response, server;
    ghost var trace, conn, attempts;
    response, server, qerr, trace, conn, attempts := t.DoQuery(q, false);
    FirstSucceeds(attempts, [Some(link)]);
    expiration := t.hangoverExpiration;
  }

  /** A connection on which everything works. */
  function Working(reply: seq<byte>): Link {
    Link(true, true, true, Chunk(100, false), true, reply, [Chunk(4, false), Chunk(4, false)])
  }

  lemma WorkingAwaited(reply: seq<byte>, msg: seq<byte>)
    requires |msg| == 27
    ensures Awaited(Some(Working(reply)), msg)
  {
  }

  lemma OneOctetUnread()
    ensures ReadMessage([0, 1, 5], [Chunk(4, false), Chunk(4, false)]).None?
  {
  }

  lemma TwoOctetsRead()
    ensures ReadMessage([0, 2, 0, 1], [Chunk(4, false), Chunk(4, false)]) == Some([0, 1])
  {
    var stream: seq<byte> := [0, 2, 0, 1];
    assert stream[2..] == [0, 1] && stream[2..][..2] == [0, 1];
  }

  /**
   * A server that announces a message of one octet: the query was sent and its reply is invalid, and no
   * hangover begins.
   */
  method UnreadReplyDoesNotArm() returns (qerr: Option<Status>, expiration: nat)
    ensures qerr == Some(BadResponse) && expiration == 0
  {
    hide Sent, Padded, Awaited, ReadMessage, ErrorOf, Arms;
    var link := Working([0, 1, 5]);
    ghost var query;
    qerr, expiration, query := AskOnce(link);
    WorkingAwaited([0, 1, 5], Sent(query));
    OneOctetUnread();
    InvalidReplyArms(query, 0, link);
  }

  /** A server that answers with another ID: a hangover begins. */
  method RefusedReplyArms() returns (qerr: Option<Status>, expiration: nat)
    ensures qerr == Some(BadResponse) && expiration == HANGOVER_DURATION
  {
    hide Sent, Padded, Awaited, ReadMessage, ErrorOf, Arms;
    var link := Working([0, 2, 0, 1]);
    ghost var query;
    qerr, expiration, query := AskOnce(link);
    WorkingAwaited([0, 2, 0, 1], Sent(query));
    TwoOctetsRead();
    InvalidReplyArms(query, 0, link);
  }
}
