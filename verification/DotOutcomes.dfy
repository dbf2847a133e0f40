/** What doQuery of DNS-over-TLS (proxy/dot/dot.go) does, in terms of what the caller passes and the network does. */
module DotOutcomes {
  import opened Bytes
  import opened DnsMessage
  import opened Padding
  import opened Servfails
  import opened Framing
  import opened FramedStreams
  import opened IpSets
  import opened Dials
  import opened Hangovers
  import opened Queries
  import opened DotResolvers

  /**
   * The gate.  A query of less than two octets is refused; in a hangover any other gets HTTPError and its
   * SERVFAIL, whether it can be padded or not; after it a server is dialled exactly if the query can be
   * padded, and otherwise it is an internal error without a response.
   */
  lemma QueryGate(query: seq<byte>, clock: Clock, expiration: nat, link: Option<Link>)
    ensures var trace := TraceFor(query, clock, expiration, link);
            var now := NextReading(clock).now;
            && (|query| < 2 ==> ErrorOf(query, trace) == Some(BadQuery) && ResponseTo(query, trace).None?)
            && (|query| >= 2 && now < expiration ==>
                  ErrorOf(query, trace) == Some(HTTPError) && ResponseTo(query, trace) == Servfail(query))
            && (trace.Dialled? <==> |query| >= 2 && expiration <= now && Padded(query).Some?)
            && (trace.Dialled? ==> trace.link == link)
            && (|query| >= 2 && expiration <= now && Padded(query).None? ==>
                  ErrorOf(query, trace) == Some(InternalError) && ResponseTo(query, trace).None?)
            && (!trace.Dialled? ==> !Arms(query, trace))
            && ClockAfter(clock, query, trace)
               == (if |query| < 2 then clock
                   else if Arms(query, trace) then NextReading(NextReading(clock))
                   else NextReading(clock))
  {
    hide Padded, Servfail, Sent;
  }

  /** What is sent: two zero octets and the rest of the padded query. */
  lemma SentOctets(query: seq<byte>)
    requires Padded(query).Some? && |Padded(query).value| >= 2
    ensures IdIsZero(Sent(query)) && |Sent(query)| == |Padded(query).value|
            && Sent(query)[2..] == Padded(query).value[2..]
  {
    hide Padded, WithId;
    WithIdOctets(Padded(query).value, 0);
  }

  /** There is a connection, both of its first deadlines can be set, and the handshake succeeds. */
  predicate Ready(link: Option<Link>) {
    link.Some? && link.value.deadline && link.value.handshake && link.value.writeDeadline
  }

  /** The length octets and the message are accepted whole and without an error, and the reply's deadline can be set. */
  predicate Asked(link: Option<Link>, size: nat) {
    && Ready(link) && size <= 65535
    && !link.value.write.err && link.value.write.n >= 2 + size
    && link.value.readDeadline
  }

  /** The outcome of a query that was dialled for, when no message is read: no response, and no hangover. */
  lemma NoReplyOutcome(query: seq<byte>, at: nat, link: Option<Link>)
    requires TraceOf(query, Dialled(at, link))
    requires Asked(link, |Padded(query).value|) ==> ReadMessage(link.value.reply, link.value.schedule).None?
    ensures var trace, size := Dialled(at, link), |Padded(query).value|;
            && ResponseTo(query, trace).None? && !Arms(query, trace)
            && (ErrorOf(query, trace) == Some(BadResponse) <==> Asked(link, size))
            && (ErrorOf(query, trace) == Some(BadQuery) <==> Ready(link) && size > 65535)
            && (ErrorOf(query, trace) == Some(SendFailed) <==> !Asked(link, size) && !(Ready(link) && size > 65535))
  {
    hide Unpack, Padded, Sent, ReadMessage;
  }

  /** And when one is read: only its ID decides, and a wrong one begins a hangover. */
  lemma ReplyOutcome(query: seq<byte>, at: nat, link: Option<Link>)
    requires TraceOf(query, Dialled(at, link))
    requires Asked(link, |Padded(query).value|) && ReadMessage(link.value.reply, link.value.schedule).Some?
    ensures var trace := Dialled(at, link);
            var message := ReadMessage(link.value.reply, link.value.schedule).value;
            && |message| >= 2
            && (ErrorOf(query, trace) == None <==> IdIsZero(message))
            && (ErrorOf(query, trace) == Some(BadResponse) <==> !IdIsZero(message))
            && (Arms(query, trace) <==> !IdIsZero(message))
            && (IdIsZero(message) ==>
                  ResponseTo(query, trace).Some? && IsAnswer(ResponseTo(query, trace).value, query, message))
            && (!IdIsZero(message) ==> ResponseTo(query, trace) == Servfail(query) && Servfail(query).Some?)
  {
    hide Unpack, Padded, Sent, ReadMessage, Servfail, WithId;
    MessageIsFirstFrame(link.value.reply, link.value.schedule);
    PaddedUnpacks(query);
    ServfailAnswers(query);
    var message := ReadMessage(link.value.reply, link.value.schedule).value;
    BigEndian(message);
    BigEndian(query);
    WithIdOctets(message, GetUint16(query));
  }

  /** The octets on the connection: the message behind its length, or nothing if it is too long or nobody listens. */
  lemma WireOctets(conn: Connection, msg: seq<byte>)
    requires Conversation(conn, msg)
    ensures conn.stream.closed
    ensures if Ready(Some(conn.link)) && |msg| <= 65535 then
              conn.stream.writes == [[|msg| / 256, |msg| % 256] + msg]
            else conn.stream.writes == []
    // The server counts as reached once the handshake has succeeded.
    ensures ServerOf(conn) == Some(conn.peer) <==> conn.link.deadline && conn.link.handshake
  {
  }

  /**
   * What becomes of the addresses, without interference: the confirmed one is forgotten exactly if its dial, the
   * first, fails; the server is confirmed if and only if its answer is good.
   */
  lemma AddressOutcome(before: Set, after: Set, links: seq<Option<Link>>, server: Option<IP>, qerr: Option<Status>)
    requires KnownAfter(before, after, links, server, qerr, false)
    ensures var kept := if links != [] && links[0].Some? then before.confirmed else [];
            && (qerr.Some? || server.None? ==> after == Set(before.ips, kept))
            && (qerr.None? && server.Some? ==>
                  && Equal(server.value, after.confirmed)
                  && (after.confirmed == kept || after.confirmed == server.value)
                  && (Contains(before.ips, server.value) ==> after.ips == before.ips)
                  && (after.ips == before.ips || after.ips == before.ips + [server.value]))
  {
    hide Equal, Contains;
  }
}
