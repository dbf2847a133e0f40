/** Trying the addresses of a server one after the other: dial of proxy/doh/doh.go, dialPlainTCP of proxy/dot/dot.go. */
module Dials {
  import opened Bytes
  import opened IpSets
  import opened FramedStreams

  /**
   * What will become of a connection: whether its deadlines can be set and the TLS handshake succeeds,
   * what happens to the one Write, and what the server sends.
   */
  datatype Link = Link(
    deadline: bool, handshake: bool, writeDeadline: bool, write: Chunk, readDeadline: bool,
    reply: seq<byte>, schedule: seq<Chunk>)

  /** Dial `i` from now on: the connection it opens, or None if it fails.  Without a network every dial fails. */
  function LinkAt(links: seq<Option<Link>>, i: nat): Option<Link> {
    if i < |links| then links[i] else None
  }

  function LinksFrom(links: seq<Option<Link>>, k: nat): seq<Option<Link>> {
    if k <= |links| then links[k..] else []
  }

  /** A TCP connection to `peer`, which is its RemoteAddr. */
  class Connection {
    const peer: IP
    const link: Link
    const stream: Stream

    constructor (peer: IP, link: Link)
      ensures this.peer == peer && this.link == link && fresh(stream)
      ensures Untouched()
    {
      this.peer, this.link := peer, link;
      stream := new Stream(link.reply, link.schedule, [link.write]);
    }

    /** Nothing was read or written yet. */
    ghost predicate Untouched()
      reads stream
    {
      && stream.incoming == link.reply && stream.schedule == link.schedule && stream.accepts == [link.write]
      && stream.writes == [] && !stream.closed
    }
  }

  class Dialer {
    /** Every address that was dialled, in order. */
    var dialled: seq<IP>
    /** What the dials still to come lead to. */
    var links: seq<Option<Link>>
    /** The connections opened so far. */
    var connections: seq<Connection>

    constructor (links: seq<Option<Link>>)
      ensures dialled == [] && this.links == links && connections == []
    {
      dialled, this.links, connections := [], links, [];
    }

    /** split.DialWithSplitRetry. */
    method Dial(ip: IP) returns (conn: Connection?)
      modifies this
      ensures dialled == old(dialled) + [ip] && links == LinksFrom(old(links), 1)
      ensures conn == null <==> LinkAt(old(links), 0).None?
      ensures conn == null ==> connections == old(connections)
      ensures conn != null ==>
                && fresh(conn) && fresh(conn.stream) && conn.Untouched() && connections == old(connections) + [conn]
                && conn.peer == ip && conn.link == LinkAt(old(links), 0).value
    {
      var link := LinkAt(links, 0);
      dialled, links := dialled + [ip], LinksFrom(links, 1);
      conn := null;
      if link.Some? {
        conn := new Connection(ip, link.value);
        connections := connections + [conn];
      }
    }
  }

  /** The addresses of `ips` other than `confirmed`. */
  function Unconfirmed(ips: seq<IP>, confirmed: IP): seq<IP>
    decreases |ips|
  {
    if ips == [] then []
    else
      var front, last := Unconfirmed(ips[..|ips| - 1], confirmed), ips[|ips| - 1];
      if Equal(last, confirmed) then front else front + [last]
  }

  /** What is dialled if every attempt fails: the confirmed address and then the others of the snapshot. */
  function Attempts(confirmed: IP, snapshot: seq<IP>): seq<IP> {
    (if confirmed != NIL then [confirmed] else []) + Unconfirmed(snapshot, confirmed)
  }

  ghost predicate AreUnconfirmed(u: seq<IP>, ips: seq<IP>, confirmed: IP) {
    && Distinct(u)
    && (forall i :: 0 <= i < |u| ==> u[i] in ips && !Equal(u[i], confirmed))
    && (forall ip :: ip in ips && !Equal(ip, confirmed) ==> ip in u)
  }

  lemma OneMoreUnconfirmed(u: seq<IP>, front: seq<IP>, last: IP, confirmed: IP)
    requires Distinct(front + [last]) && AreUnconfirmed(u, front, confirmed) && !Equal(last, confirmed)
    ensures AreUnconfirmed(u + [last], front + [last], confirmed)
  {
    hide Equal;
    var ips := front + [last];
    forall i | 0 <= i < |u| ensures !Equal(u[i], last) {
      var j :| 0 <= j < |front| && front[j] == u[i];
      assert !Equal(ips[j], ips[|front|]);
    }
  }

  lemma {:induction false} UnconfirmedMembers(ips: seq<IP>, confirmed: IP)
    requires Distinct(ips)
    ensures AreUnconfirmed(Unconfirmed(ips, confirmed), ips, confirmed)
    decreases |ips|
  {
    hide Equal;
    if ips == [] {
    } else {
      var front, last := ips[..|ips| - 1], ips[|ips| - 1];
      assert ips == front + [last];
      UnconfirmedMembers(front, confirmed);
      if !Equal(last, confirmed) {
        OneMoreUnconfirmed(Unconfirmed(front, confirmed), front, last, confirmed);
      }
    }
  }

  lemma SelfEqual(ip: IP)
    ensures Equal(ip, ip)
  {
  }

  /** Every address of the snapshot is among the attempts. */
  lemma Attempted(confirmed: IP, snapshot: seq<IP>, ip: IP)
    requires Distinct(snapshot) && NoneNil(snapshot) && ip in snapshot
    ensures Contains(Attempts(confirmed, snapshot), ip)
  {
    hide Equal, Distinct;
    UnconfirmedMembers(snapshot, confirmed);
    OnlyNilEqualsNil(ip);
    var u, all := Unconfirmed(snapshot, confirmed), Attempts(confirmed, snapshot);
    if Equal(ip, confirmed) {
      EqualSymmetric(ip, confirmed);
      assert Equal(all[0], ip);
    } else {
      var k :| 0 <= k < |u| && u[k] == ip;
      SelfEqual(ip);
      assert Equal(all[|all| - |u| + k], ip);
    }
  }

  lemma AttemptsDistinct(confirmed: IP, snapshot: seq<IP>)
    requires Distinct(snapshot)
    ensures Distinct(Attempts(confirmed, snapshot))
  {
    hide Equal;
    UnconfirmedMembers(snapshot, confirmed);
    var u := Unconfirmed(snapshot, confirmed);
    forall i | 0 <= i < |u| ensures !Equal(confirmed, u[i]) {
      EqualSymmetric(confirmed, u[i]);
    }
  }

  lemma AttemptsNoneNil(confirmed: IP, snapshot: seq<IP>)
    requires Distinct(snapshot) && NoneNil(snapshot)
    ensures NoneNil(Attempts(confirmed, snapshot))
    ensures confirmed != NIL ==> Attempts(confirmed, snapshot) != [] && Attempts(confirmed, snapshot)[0] == confirmed
  {
    hide Equal, Distinct;
    UnconfirmedMembers(snapshot, confirmed);
  }

  /** Only addresses that are known are attempted. */
  lemma AttemptsKnown(confirmed: IP, snapshot: seq<IP>, ips: seq<IP>)
    requires Distinct(snapshot) && (confirmed != NIL ==> Contains(ips, confirmed))
    requires forall ip :: ip in snapshot ==> ip in ips
    ensures forall a :: a in Attempts(confirmed, snapshot) ==> Contains(ips, a)
  {
    hide Equal, Distinct;
    UnconfirmedMembers(snapshot, confirmed);
    var u := Unconfirmed(snapshot, confirmed);
    forall a | a in Attempts(confirmed, snapshot) ensures Contains(ips, a) {
      if a in u {
        var j :| 0 <= j < |ips| && ips[j] == a;
        SelfEqual(a);
        assert Equal(ips[j], a);
      }
    }
  }

  /** No address twice, every address of the snapshot, and nothing at all only if there is no address. */
  lemma AttemptsComplete(confirmed: IP, snapshot: seq<IP>)
    requires Distinct(snapshot) && NoneNil(snapshot)
    ensures Distinct(Attempts(confirmed, snapshot))
    ensures forall ip :: ip in snapshot ==> Contains(Attempts(confirmed, snapshot), ip)
    ensures Attempts(confirmed, snapshot) == [] <==> confirmed == NIL && snapshot == []
  {
    hide Equal, Distinct;
    AttemptsDistinct(confirmed, snapshot);
    forall ip | ip in snapshot ensures Contains(Attempts(confirmed, snapshot), ip) {
      Attempted(confirmed, snapshot, ip);
    }
    if snapshot != [] {
      Attempted(confirmed, snapshot, snapshot[0]);
    }
  }

  // ----- Up to the first success -----

  /** How many of `all` are dialled: those up to the first that succeeds. */
  function Tries(all: seq<IP>, links: seq<Option<Link>>): (k: nat)
    ensures k <= |all|
    decreases |all|
  {
    if all == [] then 0
    else if LinkAt(links, 0).Some? then 1
    else 1 + Tries(all[1..], LinksFrom(links, 1))
  }

  /** The connection that is obtained. */
  function Reached(all: seq<IP>, links: seq<Option<Link>>): Option<Link> {
    var k := Tries(all, links);
    if k == 0 then None else LinkAt(links, k - 1)
  }

  predicate AllFail(links: seq<Option<Link>>, n: nat) {
    forall i :: 0 <= i < n ==> LinkAt(links, i).None?
  }

  /** `n` dials have failed; either that were all, or the next one succeeds. */
  lemma {:induction false} TriesAfter(all: seq<IP>, links: seq<Option<Link>>, n: nat)
    requires n <= |all| && AllFail(links, n) && (n < |all| ==> LinkAt(links, n).Some?)
    ensures Tries(all, links) == Min(n + 1, |all|)
    ensures Reached(all, links) == if n < |all| then LinkAt(links, n) else None
    decreases n
  {
    if n == 0 {
    } else {
      var later := LinksFrom(links, 1);
      forall i | 0 <= i < n - 1 ensures LinkAt(later, i).None? {
        assert LinkAt(links, i + 1).None?;
      }
      TriesAfter(all[1..], later, n - 1);
    }
  }

  lemma FirstSucceeds(all: seq<IP>, links: seq<Option<Link>>)
    requires all != [] && LinkAt(links, 0).Some?
    ensures Tries(all, links) == 1 && Reached(all, links) == LinkAt(links, 0)
  {
  }

  /** Every dial but the last fails, and the last one succeeds unless there is no other address left. */
  lemma {:induction false} OnlyTheLastSucceeds(all: seq<IP>, links: seq<Option<Link>>)
    ensures var k := Tries(all, links);
            && (forall i :: 0 <= i < k - 1 ==> LinkAt(links, i).None?)
            && (Reached(all, links).None? ==> k == |all| && AllFail(links, k))
            && (k == 0 <==> all == [])
    decreases |all|
  {
    if all == [] || LinkAt(links, 0).Some? {
    } else {
      var later := LinksFrom(links, 1);
      OnlyTheLastSucceeds(all[1..], later);
      var k := Tries(all, links);
      forall i | 0 < i < k ensures LinkAt(links, i) == LinkAt(later, i - 1) {
      }
    }
  }

  /** The attempts up to address `i` of the snapshot are the first of all attempts. */
  lemma {:induction false} AttemptsSoFar(confirmed: IP, snapshot: seq<IP>, i: nat)
    requires i <= |snapshot|
    ensures var n := |Attempts(confirmed, snapshot[..i])|;
            && n <= |Attempts(confirmed, snapshot)|
            && Attempts(confirmed, snapshot)[..n] == Attempts(confirmed, snapshot[..i])
    decreases |snapshot|
  {
    if i == |snapshot| {
      assert snapshot[..i] == snapshot;
    } else {
      var front := snapshot[..|snapshot| - 1];
      AttemptsSoFar(confirmed, front, i);
      assert front[..i] == snapshot[..i];
    }
  }

  lemma NextAttempt(confirmed: IP, snapshot: seq<IP>, i: nat)
    requires i < |snapshot|
    ensures Attempts(confirmed, snapshot[..i + 1])
            == Attempts(confirmed, snapshot[..i]) + (if Equal(snapshot[i], confirmed) then [] else [snapshot[i]])
    ensures !Equal(snapshot[i], confirmed) ==>
              var n := |Attempts(confirmed, snapshot[..i])|;
              && n < |Attempts(confirmed, snapshot)|
              && Attempts(confirmed, snapshot)[..n + 1] == Attempts(confirmed, snapshot[..i]) + [snapshot[i]]
  {
    assert snapshot[..i + 1][..i] == snapshot[..i];
    AttemptsSoFar(confirmed, snapshot, i + 1);
  }

  /** The attempts of `snapshot` before index `i` were made, and failed. */
  ghost predicate FailedBefore(d: Dialer, dialled: seq<IP>, links: seq<Option<Link>>, attempts: seq<IP>)
    reads d
  {
    && d.dialled == dialled + attempts && d.links == LinksFrom(links, |attempts|)
    && AllFail(links, |attempts|)
  }

  /** What a dial over `all` leaves behind. */
  ghost predicate DialledOver(d: Dialer, dialled: seq<IP>, links: seq<Option<Link>>, connections: seq<Connection>,
                              all: seq<IP>, conn: Connection?)
    reads d
  {
    var k := Tries(all, links);
    && d.dialled == dialled + all[..k] && d.links == LinksFrom(links, k)
    && (conn == null <==> Reached(all, links).None?)
    && (conn == null ==> d.connections == connections)
    && (conn != null ==>
          k > 0 && conn.peer == all[k - 1] && conn.link == Reached(all, links).value
          && d.connections == connections + [conn])
  }

  /** Whether the address that was confirmed stays so: exactly if its own dial succeeds. */
  function StaysConfirmed(confirmed: IP, links: seq<Option<Link>>): IP {
    if LinkAt(links, 0).Some? then confirmed else NIL
  }

  lemma ConfirmedReached(confirmed: IP, links: seq<Option<Link>>)
    requires confirmed != NIL && LinkAt(links, 0).Some?
    ensures Tries(Attempts(confirmed, []), links) == 1 && Reached(Attempts(confirmed, []), links) == LinkAt(links, 0)
    ensures Attempts(confirmed, []) == [confirmed]
  {
  }

  lemma NoneFailed(links: seq<Option<Link>>, confirmed: IP, snapshot: seq<IP>)
    ensures AllFail(links, 0) && LinksFrom(links, 0) == links
    ensures Attempts(confirmed, snapshot[..0]) == if confirmed == NIL then [] else [confirmed]
  {
    assert snapshot[..0] == [];
  }

  lemma OneMoreFails(links: seq<Option<Link>>, n: nat)
    requires AllFail(links, n) && LinkAt(LinksFrom(links, n), 0).None?
    ensures AllFail(links, n + 1)
  {
    assert LinkAt(links, n).None?;
  }

  lemma FromFrom(links: seq<Option<Link>>, n: nat)
    ensures LinksFrom(LinksFrom(links, n), 1) == LinksFrom(links, n + 1)
    ensures LinkAt(LinksFrom(links, n), 0) == LinkAt(links, n)
  {
  }

  /** `n` dials have failed, and the next one gave `conn`. */
  lemma DialledUntil(d: Dialer, dialled: seq<IP>, links: seq<Option<Link>>, connections: seq<Connection>,
                     all: seq<IP>, n: nat, conn: Connection)
    requires n < |all| && AllFail(links, n) && LinkAt(links, n) == Some(conn.link) && conn.peer == all[n]
    requires d.dialled == dialled + all[..n + 1] && d.links == LinksFrom(links, n + 1)
    requires d.connections == connections + [conn]
    ensures DialledOver(d, dialled, links, connections, all, conn)
  {
    hide AllFail, Tries, Reached;
    TriesAfter(all, links, n);
  }

  lemma DialledAll(d: Dialer, dialled: seq<IP>, links: seq<Option<Link>>, connections: seq<Connection>, all: seq<IP>)
    requires FailedBefore(d, dialled, links, all) && d.connections == connections
    ensures DialledOver(d, dialled, links, connections, all, null)
  {
    hide AllFail, Tries, Reached;
    TriesAfter(all, links, |all|);
    assert all[..|all|] == all;
  }

  /** One address of the snapshot, which is not dialled twice. */
  method DialNext(d: Dialer, ip: IP, confirmed: IP, ghost snapshot: seq<IP>, ghost i: nat, ghost dialled: seq<IP>,
                  ghost links: seq<Option<Link>>)
    returns (conn: Connection?, skipped: bool)
    requires i < |snapshot| && ip == snapshot[i]
    requires FailedBefore(d, dialled, links, Attempts(confirmed, snapshot[..i]))
    modifies d
    ensures (skipped <==> Equal(ip, confirmed)) && (skipped ==> conn == null)
    ensures conn == null ==>
              && FailedBefore(d, dialled, links, Attempts(confirmed, snapshot[..i + 1]))
              && d.connections == old(d.connections)
              && (!skipped ==> Attempts(confirmed, snapshot[..i + 1]) != [])
              && (skipped ==> Attempts(confirmed, snapshot[..i + 1]) == Attempts(confirmed, snapshot[..i]))
    ensures conn != null ==>
              && fresh(conn) && fresh(conn.stream) && conn.Untouched()
              && DialledOver(d, dialled, links, old(d.connections), Attempts(confirmed, snapshot), conn)
  {
    hide Attempts, Equal, AllFail, DialledOver;
    ghost var n := |Attempts(confirmed, snapshot[..i])|;
    NextAttempt(confirmed, snapshot, i);
    conn, skipped := null, Equal(ip, confirmed);
    if skipped {
      return;
    }
    FromFrom(links, n);
    conn := d.Dial(ip);
    if conn != null {
      DialledUntil(d, dialled, links, old(d.connections), Attempts(confirmed, snapshot), n, conn);
    } else {
      OneMoreFails(links, n);
    }
  }

  /** The loop over all addresses, when the confirmed one has failed if there was one. */
  method DialRest(d: Dialer, ips: IPSet, confirmed: IP, ghost dialled: seq<IP>, ghost links: seq<Option<Link>>,
                  others: bool)
    returns (conn: Connection?, failed: bool, ghost snapshot: seq<IP>)
    requires ips.Valid() && (!others ==> ips.confirmed == NIL)
    requires FailedBefore(d, dialled, links, if confirmed == NIL then [] else [confirmed])
    modifies d, ips
    ensures ips.Valid() && old(ips.ips) <= ips.ips && (!others ==> ips.ips == old(ips.ips) && ips.confirmed == NIL)
    ensures Distinct(snapshot) && NoneNil(snapshot) && multiset(snapshot) == multiset(old(ips.ips))
    ensures DialledOver(d, dialled, links, old(d.connections), Attempts(confirmed, snapshot), conn)
    ensures conn != null ==> fresh(conn) && fresh(conn.stream) && conn.Untouched()
    ensures failed <==> conn == null && Attempts(confirmed, snapshot) != []
  {
    hide Attempts, Equal, WellFormed, Distinct, NoneNil, DialledOver, FailedBefore;
    var c := ips.GetAll();
    conn, failed, snapshot := null, confirmed != NIL, c[..];
    NoneFailed(links, confirmed, snapshot);
    for i := 0 to c.Length
      invariant ips.Valid() && old(ips.ips) <= ips.ips && c[..] == snapshot
      invariant FailedBefore(d, dialled, links, Attempts(confirmed, snapshot[..i]))
                && d.connections == old(d.connections)
      invariant conn == null && (failed <==> Attempts(confirmed, snapshot[..i]) != [])
      invariant !others ==> ips.ips == old(ips.ips) && ips.confirmed == NIL
    {
      var skipped;
      conn, skipped := DialNext(d, c[i], confirmed, snapshot, i, dialled, links);
      if skipped {
        continue;
      }
      if conn != null {
        failed := false;
        return;
      }
      failed := true;
      ips.Interfere(others);
    }
    assert snapshot[..c.Length] == snapshot;
    DialledAll(d, dialled, links, old(d.connections), Attempts(confirmed, snapshot));
  }

  /**
   * `others` tells whether other goroutines use the set meanwhile.  `snapshot` is what GetAll
   * returned; it is not taken when the confirmed address works.
   */
  method DialFallback(d: Dialer, ips: IPSet, others: bool)
    returns (conn: Connection?, failed: bool, ghost snapshot: seq<IP>)
    requires ips.Valid()
    modifies d, ips
    ensures ips.Valid() && old(ips.ips) <= ips.ips
    ensures Distinct(snapshot) && NoneNil(snapshot)
    // The attempts are those of Attempts, in its order, up to the first that succeeds.
    ensures var all := Attempts(old(ips.confirmed), snapshot);
            DialledOver(d, old(d.dialled), old(d.links), old(d.connections), all, conn)
    ensures conn != null ==> fresh(conn) && fresh(conn.stream) && conn.Untouched()
    // The snapshot holds every address known at the beginning unless the confirmed one works.
    ensures old(ips.confirmed) != NIL && LinkAt(old(d.links), 0).Some? ==> snapshot == []
    ensures old(ips.confirmed) == NIL || LinkAt(old(d.links), 0).None? ==>
              && (forall ip :: ip in old(ips.ips) ==> ip in snapshot)
              && (!others ==> multiset(snapshot) == multiset(old(ips.ips)))
    ensures forall ip :: ip in snapshot ==> ip in ips.ips
    // Neither a connection nor an error exactly when there was nothing to dial.
    ensures failed <==> conn == null && Attempts(old(ips.confirmed), snapshot) != []
    // A confirmed address is no longer confirmed exactly if its own dial failed.
    ensures !others ==>
              && ips.ips == old(ips.ips)
              && ips.confirmed == (if old(d.links) != [] && old(d.links)[0].Some? then old(ips.confirmed) else [])
  {
    hide Attempts, Equal, WellFormed, Distinct, NoneNil, Tries, Reached, AllFail;
    ghost var links := d.links;
    var confirmed := ips.confirmed;
    NoneFailed(links, confirmed, []);
    if confirmed != NIL {
      conn := d.Dial(confirmed);
      if conn != null {
        ConfirmedReached(confirmed, links);
        NoAddresses();
        return conn, false, [];
      }
      OneMoreFails(links, 0);
      ips.Interfere(others);
      ips.Disconfirm(confirmed);
      SelfEqual(confirmed);
      ips.Interfere(others);
    }
    ghost var known := ips.ips;
    conn, failed, snapshot := DialRest(d, ips, confirmed, old(d.dialled), links, others);
    SameMembers(snapshot, known);
  }

  lemma SameMembers(a: seq<IP>, b: seq<IP>)
    requires multiset(a) == multiset(b)
    ensures forall ip :: ip in a <==> ip in b
  {
    forall ip ensures ip in a <==> ip in b {
      assert ip in a <==> ip in multiset(a);
      assert ip in b <==> ip in multiset(b);
    }
  }

  lemma NoAddresses()
    ensures Distinct([]) && NoneNil([])
  {
  }
}
