/** What doQuery of DNS-over-HTTPS (proxy/doh/doh.go) does, in terms of what the caller passes and the network does. */
module DohOutcomes {
  import opened Bytes
  import opened DnsMessage
  import opened Padding
  import opened Servfails
  import opened IpSets
  import opened Hangovers
  import opened Queries
  import opened DohResolvers

  /**
   * The gate.  A query of less than two octets is refused; in a hangover any other gets HTTPError and its
   * SERVFAIL, whether it can be padded or not; after it a query is sent exactly if it can be padded and its
   * request be constructed, and is an internal error without a response otherwise.
   */
  lemma QueryGate(query: seq<byte>, clock: Clock, expiration: nat, constructs: bool, exchanges: seq<Exchange>)
    ensures var trace := TraceFor(query, clock, expiration, constructs, exchanges);
            var now := NextReading(clock).now;
            && (|query| < 2 ==> ErrorOf(trace) == Some(BadQuery) && ResponseTo(query, trace).None?)
            && (|query| >= 2 && now < expiration ==>
                  ErrorOf(trace) == Some(HTTPError) && ResponseTo(query, trace) == Servfail(query))
            && (trace.Sent? <==> |query| >= 2 && expiration <= now && Padded(query).Some? && constructs)
            && (trace.Sent? ==> trace.x == (if exchanges == [] then Exchange(None, Failed) else exchanges[0]))
            && (|query| >= 2 && expiration <= now && !(Padded(query).Some? && constructs) ==>
                  ErrorOf(trace) == Some(InternalError) && ResponseTo(query, trace).None?)
            && (!trace.Sent? ==> !Arms(trace))
            && ClockAfter(clock, trace)
               == (if |query| < 2 then clock
                   else if Arms(trace) then NextReading(NextReading(clock))
                   else NextReading(clock))
  {
    hide Padded, Servfail;
  }

  /**
   * A query that was sent: which error each reply is, what the caller gets, whether a hangover begins, and
   * whether the connection is closed.
   */
  lemma ReplyOutcome(query: seq<byte>, at: nat, x: Exchange)
    requires TraceOf(query, Sent(at, x))
    ensures var trace, reply := Sent(at, x), x.reply;
            var complete := reply.Response? && reply.code == 200;
            && (ErrorOf(trace) == Some(SendFailed) <==> reply.Failed?)
            && (ErrorOf(trace) == Some(HTTPError) <==> reply.Response? && reply.code != 200)
            && (ErrorOf(trace) == Some(BadResponse) <==> reply.Broken? || (complete && !IdIsZero(reply.body)))
            && (ErrorOf(trace) == None <==> complete && IdIsZero(reply.body))
            && (ErrorOf(trace) == None ==>
                  ResponseTo(query, trace).Some? && IsAnswer(ResponseTo(query, trace).value, query, reply.body))
            && (ErrorOf(trace) != None ==> ResponseTo(query, trace) == Servfail(query) && Servfail(query).Some?)
            && (Arms(trace) <==> !reply.Failed? && !(complete && IdIsZero(reply.body)))
            && (Discards(x) <==> x.server.Some? && !complete)
  {
    hide Unpack, Padded, Servfail, WithId;
    PaddedUnpacks(query);
    ServfailAnswers(query);
    var reply := x.reply;
    if reply.Response? && |reply.body| >= 2 {
      BigEndian(reply.body);
      WithIdOctets(reply.body, GetUint16(query));
      BigEndian(query);
    }
  }

  /** The query on its way: two zero octets and the rest of the padded query. */
  lemma SentOctets(query: seq<byte>)
    requires Padded(query).Some? && |Padded(query).value| >= 2
    ensures var sent := WithId(Padded(query).value, 0);
            IdIsZero(sent) && |sent| == |Padded(query).value| && sent[2..] == Padded(query).value[2..]
  {
    hide Padded, WithId;
    WithIdOctets(Padded(query).value, 0);
  }

  /** The caller's buffer: its ID is zeroed only if no request could be constructed from a query padded already. */
  lemma BufferOctets(query: seq<byte>, trace: Trace)
    requires TraceOf(query, trace)
    ensures var after := BufferAfter(query, trace);
            if trace.RequestFailed? && AlreadyPadded(query) then
              |query| >= 2 && |after| == |query| && IdIsZero(after) && after[2..] == query[2..]
            else after == query
  {
    hide Padded, AlreadyPadded, WithId;
    if |query| >= 2 {
      WithIdOctets(query, 0);
    }
  }

  /** The host that answered last, after any redirects, or the resolver's own if there was no whole response. */
  function Answering(hostname: string, x: Exchange): string {
    match x.reply
    case Failed => hostname
    case Broken(_) => hostname
    case Response(final, _, _) => final
  }

  /**
   * What becomes of the address that was used: confirmed for the host that answered if the answer is good,
   * disconfirmed if there was none with status 200; if the ID is wrong nothing is learned.  No other host changes.
   */
  lemma AddressOutcome(before: map<string, Set>, after: map<string, Set>, hostname: string, x: Exchange, others: bool)
    requires AddressesAfter(before, after, hostname, x, others) && x.server.Some?
    ensures var host := Answering(hostname, x);
            var complete := x.reply.Response? && x.reply.code == 200;
            && (forall h :: h in before ==> h in after && (h != host ==> after[h] == before[h]))
            && (complete && IdIsZero(x.reply.body) ==>
                  host in after && Equal(x.server.value, after[host].confirmed))
            && (!complete ==> host in after && !Equal(x.server.value, after[host].confirmed))
            && (complete && !IdIsZero(x.reply.body) ==> after == before)
            && (host in before && !complete ==>
                  && after[host].ips == before[host].ips
                  && after[host].confirmed
                     == (if Equal(x.server.value, before[host].confirmed) then [] else before[host].confirmed))
            && (host in before && !others ==>
                  after[host].ips == before[host].ips || after[host].ips == before[host].ips + [x.server.value])
  {
    hide Equal, Contains;
    if x.reply.Response? && |x.reply.body| >= 2 {
      BigEndian(x.reply.body);
    }
  }

  /** Without a connection nothing is learned. */
  lemma NoServerNoChange(before: map<string, Set>, after: map<string, Set>, hostname: string, x: Exchange, others: bool)
    requires AddressesAfter(before, after, hostname, x, others) && x.server.None?
    ensures after == before
  {
  }
}
