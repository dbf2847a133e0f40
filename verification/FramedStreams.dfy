/** Reading and writing frames over a connection that delivers octets in arbitrary chunks. */
module FramedStreams {
  import opened Bytes
  import opened Framing

  /** What one Read or Write does: it moves at most `n` octets, and perhaps returns an error. */
  datatype Chunk = Chunk(n: nat, err: bool)

  /** A schedule that is used up stands for a connection that is gone. */
  function NextChunk(schedule: seq<Chunk>): Chunk {
    if schedule == [] then Chunk(0, true) else schedule[0]
  }

  function LaterChunks(schedule: seq<Chunk>): seq<Chunk> {
    if schedule == [] then [] else schedule[1..]
  }

  /** How many octets a Read with room for `asked` takes off the stream. */
  function Taken(stream: seq<byte>, schedule: seq<Chunk>, asked: nat): nat {
    Min(NextChunk(schedule).n, Min(asked, |stream|))
  }

  /** A Write of `len` octets is accepted whole and without an error. */
  predicate WholeWrite(accepts: seq<Chunk>, len: nat) {
    !NextChunk(accepts).err && NextChunk(accepts).n >= len
  }

  /** A connection. */
  class Stream {
    /** Everything the peer still sends. */
    var incoming: seq<byte>
    /** How the network cuts it into chunks, and when it fails. */
    var schedule: seq<Chunk>
    /** How many Reads have returned an error. */
    var errors: nat
    /** What becomes of the Writes still to come. */
    var accepts: seq<Chunk>
    /** The buffer given to each Write, in order. */
    var writes: seq<seq<byte>>
    /** Every octet accepted, in order. */
    var sent: seq<byte>
    var closed: bool

    constructor (incoming: seq<byte>, schedule: seq<Chunk>, accepts: seq<Chunk>)
      ensures this.incoming == incoming && this.schedule == schedule && this.accepts == accepts
      ensures errors == 0 && writes == [] && sent == [] && !closed
    {
      this.incoming, this.schedule, this.accepts := incoming, schedule, accepts;
      errors, writes, sent, closed := 0, [], [], false;
    }

    /** Read(buf[from..]): the octets that arrived next, perhaps none, perhaps with an error. */
    method Read(buf: array<byte>, from: nat) returns (n: nat, err: bool)
      requires from <= buf.Length
      modifies this`incoming, this`schedule, this`errors, buf
      ensures n == Taken(old(incoming), old(schedule), buf.Length - from) && err == NextChunk(old(schedule)).err
      ensures buf[..from] == old(buf[..from]) && buf[from..from + n] == old(incoming)[..n]
      ensures incoming == old(incoming)[n..] && schedule == LaterChunks(old(schedule))
      ensures errors == old(errors) + (if err then 1 else 0)
    {
      n, err := Taken(incoming, schedule, buf.Length - from), NextChunk(schedule).err;
      forall i | 0 <= i < n {
        buf[from + i] := incoming[i];
      }
      incoming, schedule := incoming[n..], LaterChunks(schedule);
      errors := errors + if err then 1 else 0;
    }

    /** Write(b): a short count always comes with an error. */
    method Write(b: seq<byte>) returns (n: nat, err: bool)
      modifies this`accepts, this`writes, this`sent
      ensures n == Min(NextChunk(old(accepts)).n, |b|) && (err <==> !WholeWrite(old(accepts), |b|))
      ensures accepts == LaterChunks(old(accepts)) && writes == old(writes) + [b] && sent == old(sent) + b[..n]
    {
      n, err := Min(NextChunk(accepts).n, |b|), !WholeWrite(accepts, |b|);
      accepts, writes, sent := LaterChunks(accepts), writes + [b], sent + b[..n];
    }

    method Close()
      modifies this`closed
      ensures closed
    {
      closed := true;
    }
  }

  // ----- Reading a message -----

  /** io.ReadFull: how many octets it reads, and the schedule that is left. */
  datatype FullRead = FullRead(n: nat, later: seq<Chunk>)

  function Full(stream: seq<byte>, schedule: seq<Chunk>, want: nat): (r: FullRead)
    ensures r.n <= want && r.n <= |stream|
    decreases |schedule|, want
  {
    var n := Taken(stream, schedule, want);
    if want == 0 then FullRead(0, schedule)
    else if n == want || NextChunk(schedule).err then FullRead(n, LaterChunks(schedule))
    else
      var more := Full(stream[n..], LaterChunks(schedule), want - n);
      FullRead(n + more.n, more.later)
  }

  /** `n` octets of a read with the overall outcome `all` have been read; `left` arrives on `chunks`. */
  ghost predicate SoFar(all: FullRead, want: nat, n: nat, err: bool, left: seq<byte>, chunks: seq<Chunk>) {
    if err || n >= want then all == FullRead(n, chunks)
    else
      var more := Full(left, chunks, want - n);
      all == FullRead(n + more.n, more.later)
  }

  lemma FullBegins(stream: seq<byte>, schedule: seq<Chunk>, want: nat)
    ensures SoFar(Full(stream, schedule, want), want, 0, false, stream, schedule)
  {
  }

  lemma FullGoesOn(all: FullRead, want: nat, n: nat, left: seq<byte>, chunks: seq<Chunk>)
    requires n < want && SoFar(all, want, n, false, left, chunks)
    ensures var nn := Taken(left, chunks, want - n);
            && nn <= want - n && nn <= |left|
            && SoFar(all, want, n + nn, NextChunk(chunks).err, left[nn..], LaterChunks(chunks))
    ensures NextChunk(chunks).err || |LaterChunks(chunks)| < |chunks|
    ensures |LaterChunks(chunks)| <= |chunks|
  {
    assert Full(left, chunks, want - n).n <= want - n;
  }

  lemma FullEnds(all: FullRead, want: nat, n: nat, err: bool, left: seq<byte>, chunks: seq<Chunk>)
    requires n >= want || err
    requires SoFar(all, want, n, err, left, chunks)
    ensures all == FullRead(n, chunks)
  {
  }

  lemma Continues(stream: seq<byte>, n: nat, nn: nat)
    requires n + nn <= |stream|
    ensures stream[..n + nn] == stream[..n] + stream[n..][..nn] && stream[n..][nn..] == stream[n + nn..]
  {
  }

  /** What a schedule can deliver before the first error, or together with it. */
  function Deliverable(schedule: seq<Chunk>): nat {
    if schedule == [] then 0
    else schedule[0].n + (if schedule[0].err then 0 else Deliverable(schedule[1..]))
  }

  /** A full read gets all it wants, unless the stream ends or an error comes first. */
  lemma {:induction false} FullExactly(stream: seq<byte>, schedule: seq<Chunk>, want: nat)
    ensures Full(stream, schedule, want).n == Min(want, Min(|stream|, Deliverable(schedule)))
    decreases |schedule|
  {
    var n := Taken(stream, schedule, want);
    if want > 0 && n < want && !NextChunk(schedule).err {
      FullExactly(stream[n..], LaterChunks(schedule), want - n);
    }
  }

  method ReadFull(r: Stream, buf: array<byte>) returns (n: nat, err: bool)
    modifies r`incoming, r`schedule, r`errors, buf
    ensures n == Full(old(r.incoming), old(r.schedule), buf.Length).n
    ensures r.schedule == Full(old(r.incoming), old(r.schedule), buf.Length).later
    ensures buf[..n] == old(r.incoming)[..n] && r.incoming == old(r.incoming)[n..]
    ensures err <==> n < buf.Length
    ensures old(r.errors) <= r.errors && (err ==> old(r.errors) < r.errors)
  {
    hide Full, Taken, NextChunk, LaterChunks, SoFar;
    n, err := 0, false;
    ghost var all := Full(r.incoming, r.schedule, buf.Length);
    FullBegins(r.incoming, r.schedule, buf.Length);
    while n < buf.Length && !err
      invariant n <= buf.Length && n <= |old(r.incoming)|
      invariant buf[..n] == old(r.incoming)[..n] && r.incoming == old(r.incoming)[n..]
      invariant old(r.errors) <= r.errors && (err ==> old(r.errors) < r.errors)
      invariant SoFar(all, buf.Length, n, err, r.incoming, r.schedule)
      decreases |r.schedule|, !err
    {
      var nn;
      FullGoesOn(all, buf.Length, n, r.incoming, r.schedule);
      nn, err := r.Read(buf, n);
      assert buf[..n + nn] == buf[..n] + buf[n..n + nn];
      Continues(old(r.incoming), n, nn);
      n := n + nn;
    }
    FullEnds(all, buf.Length, n, err, r.incoming, r.schedule);
    if n >= buf.Length {
      err := false;
    }
  }

  /** What dnsOverTCPRead makes of a stream that arrives on a schedule. */
  function ReadMessage(stream: seq<byte>, schedule: seq<Chunk>): Option<seq<byte>> {
    var length := Full(stream, schedule, 2);
    if length.n < 2 || GetUint16(stream) < 2 then None
    else
      var body := Full(stream[2..], length.later, GetUint16(stream));
      if body.n < GetUint16(stream) then None else Some(stream[2..][..body.n])
  }

  /** What one successful dnsOverTCPRead takes off the stream. */
  predicate ReadOne(before: seq<byte>, msg: seq<byte>, after: seq<byte>) {
    2 <= |msg| <= MAX_UINT16 && before == Frame(msg) + after
  }

  method DnsOverTcpRead(r: Stream) returns (out: array?<byte>)
    modifies r`incoming, r`schedule, r`errors
    ensures out == null <==> ReadMessage(old(r.incoming), old(r.schedule)).None?
    ensures out != null ==> fresh(out) && out[..] == ReadMessage(old(r.incoming), old(r.schedule)).value
    ensures out != null ==> ReadOne(old(r.incoming), out[..], r.incoming)
    // It gives up only when this read meets an error, or when the announced length is too small for a message.
    ensures out == null ==> old(r.errors) < r.errors || (|old(r.incoming)| >= 2 && GetUint16(old(r.incoming)) < 2)
  {
    hide Full;
    ghost var stream := r.incoming;
    var rlenBuf := new byte[2];
    var _, err := ReadFull(r, rlenBuf);
    if err {
      return null;
    }
    assert rlenBuf[..] == rlenBuf[..2] == stream[..2];
    var rlen := GetUint16(rlenBuf[..]);
    assert rlen == GetUint16(stream);
    if rlen < 2 || rlen > MAX_UINT16 {
      return null;
    }
    out := new byte[rlen];
    var _, bodyErr := ReadFull(r, out);
    if bodyErr {
      return null;
    }
    assert out[..] == out[..rlen] == stream[2..][..rlen];
    MessageTaken(stream, rlen);
  }

  lemma MessageTaken(stream: seq<byte>, rlen: nat)
    requires |stream| >= 2 + rlen && GetUint16(stream) == rlen >= 2
    ensures ReadOne(stream, stream[2..][..rlen], stream[2..][rlen..])
  {
    PutGetUint16(stream[..2]);
    assert GetUint16(stream[..2]) == rlen;
    assert stream == stream[..2] + stream[2..][..rlen] + stream[2..][rlen..];
  }

  /** A read that does not deliver nothing and does not fail. */
  predicate Healthy(schedule: seq<Chunk>) {
    forall i :: 0 <= i < |schedule| ==> schedule[i].n > 0 && !schedule[i].err
  }

  lemma {:induction false} FullWhenHealthy(stream: seq<byte>, schedule: seq<Chunk>, want: nat)
    requires Healthy(schedule) && want <= |stream| && want <= |schedule|
    ensures var r := Full(stream, schedule, want);
            r.n == want && Healthy(r.later) && |r.later| >= |schedule| - want
    decreases want
  {
    if want == 0 {
    } else {
      var n := Taken(stream, schedule, want);
      assert n >= 1 && Healthy(LaterChunks(schedule));
      if n < want {
        FullWhenHealthy(stream[n..], LaterChunks(schedule), want - n);
      }
    }
  }

  /**
   * What is read is the first frame of the stream, however it is cut into chunks; and on a connection
   * that keeps delivering, it is read whenever its length is at least two.
   */
  lemma MessageIsFirstFrame(stream: seq<byte>, schedule: seq<Chunk>)
    ensures ReadMessage(stream, schedule).Some? ==>
              && HasFrame(stream) && |FirstMessage(stream)| >= 2
              && ReadMessage(stream, schedule).value == FirstMessage(stream)
    ensures HasFrame(stream) && GetUint16(stream) >= 2 && Healthy(schedule) && |schedule| >= 2 + GetUint16(stream) ==>
              ReadMessage(stream, schedule) == Some(FirstMessage(stream))
  {
    hide Full;
    if |stream| >= 2 {
      var rlen: nat := GetUint16(stream);
      if |stream| >= 2 + rlen {
        assert stream[2..][..rlen] == FirstMessage(stream);
        if Healthy(schedule) && |schedule| >= 2 + rlen {
          FullWhenHealthy(stream, schedule, 2);
          FullWhenHealthy(stream[2..], Full(stream, schedule, 2).later, rlen);
        }
      }
    }
  }

  datatype WriteResult = Written | Oversize | Broken

  /** The frame is written with a single Write, so that frames of different writers do not mix. */
  method DnsOverTcpWrite(w: Stream, msg: array<byte>) returns (r: WriteResult)
    modifies w`accepts, w`writes, w`sent
    ensures r == if !Fits(msg[..]) then Oversize
                 else if WholeWrite(old(w.accepts), 2 + msg.Length) then Written else Broken
    ensures w.writes == old(w.writes) + (if Fits(msg[..]) then [Frame(msg[..])] else [])
    ensures r.Oversize? ==> w.sent == old(w.sent) && w.accepts == old(w.accepts)
    ensures !r.Oversize? ==> exists n :: 0 <= n <= |Frame(msg[..])| && w.sent == old(w.sent) + Frame(msg[..])[..n]
    ensures r.Written? ==> w.sent == old(w.sent) + Frame(msg[..])
  {
    var qlen := msg.Length;
    if qlen > MAX_UINT16 {
      return Oversize;
    }
    var buf := new byte[qlen + 2];
    buf[0], buf[1] := qlen / 0x100, qlen % 0x100;
    forall i | 0 <= i < qlen {
      buf[i + 2] := msg[i];
    }
    assert buf[..] == Frame(msg[..]);
    var n, err := w.Write(buf[..]);
    assert n == |Frame(msg[..])| ==> Frame(msg[..])[..n] == Frame(msg[..]);
    r := if err then Broken else Written;
  }

  /** Successive reads, the stream before each of them and after the last. */
  ghost predicate SuccessiveReads(streams: seq<seq<byte>>, outs: seq<seq<byte>>) {
    && |streams| == |outs| + 1
    && forall i :: 0 <= i < |outs| ==> ReadOne(streams[i], outs[i], streams[i + 1])
  }

  /**
   * The round trip: after frames written back to back, the messages read are the messages written,
   * in order and whole, however the stream was cut into chunks.
   */
  lemma {:induction false} ReadsRecoverWrites(msgs: seq<seq<byte>>, z: seq<byte>, streams: seq<seq<byte>>,
                                              outs: seq<seq<byte>>)
    requires AllFit(msgs) && SuccessiveReads(streams, outs)
    requires streams[0] == Frames(msgs) + z && |outs| <= |msgs|
    ensures outs == msgs[..|outs|] && streams[|outs|] == Frames(msgs[|outs|..]) + z
    decreases |outs|
  {
    if outs != [] {
      var tail := Frames(msgs[1..]) + z;
      assert ReadOne(streams[0], outs[0], streams[1]);
      assert streams[0] == Frame(msgs[0]) + tail;
      FrameInjective(outs[0], streams[1], msgs[0], tail);
      LaterReads(streams, outs);
      ReadsRecoverWrites(msgs[1..], z, streams[1..], outs[1..]);
      assert msgs[1..][|outs| - 1..] == msgs[|outs|..];
      assert outs == [outs[0]] + outs[1..] && msgs[..|outs|] == [msgs[0]] + msgs[1..][..|outs| - 1];
    } else {
      assert msgs[0..] == msgs;
    }
  }

  lemma LaterReads(streams: seq<seq<byte>>, outs: seq<seq<byte>>)
    requires SuccessiveReads(streams, outs) && outs != []
    ensures SuccessiveReads(streams[1..], outs[1..])
  {
    forall i | 0 <= i < |outs| - 1 ensures ReadOne(streams[1..][i], outs[1..][i], streams[1..][i + 1]) {
      assert ReadOne(streams[i + 1], outs[i + 1], streams[i + 2]);
    }
  }

  /** While a written message of at least two octets is left, a read fails only when the connection does. */
  lemma NextReadAnnounced(msgs: seq<seq<byte>>, z: seq<byte>)
    requires AllFit(msgs) && msgs != []
    ensures var s := Frames(msgs) + z; |s| >= 2 && GetUint16(s) == |msgs[0]|
  {
    assert Frames(msgs) + z == Frame(msgs[0]) + (Frames(msgs[1..]) + z);
    FrameFirst(msgs[0], Frames(msgs[1..]) + z);
  }

  // ----- Accept -----

  /** The queries for which Accept starts a goroutine. */
  function Dispatched(stream: seq<byte>, schedule: seq<Chunk>): seq<seq<byte>>
    decreases |schedule|
  {
    if Taken(stream, schedule, 2) < 2 || NextChunk(schedule).err then []
    else
      var qlen, body, later := GetUint16(stream), stream[2..], LaterChunks(schedule);
      if Taken(body, later, qlen) != qlen || NextChunk(later).err then []
      else [body[..qlen]] + Dispatched(body[qlen..], LaterChunks(later))
  }

  /** `done` has been dispatched; `left` and `chunks` are what the loop goes on with. */
  ghost predicate Going(stream: seq<byte>, schedule: seq<Chunk>, done: seq<seq<byte>>, left: seq<byte>,
                        chunks: seq<Chunk>) {
    && AllFit(done) && stream == Frames(done) + left
    && Dispatched(stream, schedule) == done + Dispatched(left, chunks)
  }

  lemma GoingAtFirst(stream: seq<byte>, schedule: seq<Chunk>)
    ensures Going(stream, schedule, [], stream, schedule)
  {
    NoFrames();
    assert stream == [] + stream;
  }

  /** The length and the body of a query have been read. */
  lemma GoesOn(stream: seq<byte>, schedule: seq<Chunk>, done: seq<seq<byte>>, left: seq<byte>, chunks: seq<Chunk>,
               q: seq<byte>)
    requires Going(stream, schedule, done, left, chunks)
    requires Taken(left, chunks, 2) == 2 && !NextChunk(chunks).err && GetUint16(left[..2]) == |q|
    requires Taken(left[2..], LaterChunks(chunks), |q|) == |q| && !NextChunk(LaterChunks(chunks)).err
             && q == left[2..][..|q|]
    ensures Going(stream, schedule, done + [q], left[2..][|q|..], LaterChunks(LaterChunks(chunks)))
  {
    hide Frames;
    assert GetUint16(left) == |q|;
    QueryTaken(stream, done, left, q);
    var more := Dispatched(left[2..][|q|..], LaterChunks(LaterChunks(chunks)));
    assert Dispatched(left, chunks) == [q] + more;
    assert done + ([q] + more) == done + [q] + more;
  }

  lemma StopsAtLength(stream: seq<byte>, schedule: seq<Chunk>, done: seq<seq<byte>>, left: seq<byte>,
                      chunks: seq<Chunk>, n: nat)
    requires Going(stream, schedule, done, left, chunks) && n == Taken(left, chunks, 2)
    requires n < 2 || NextChunk(chunks).err
    ensures done == Dispatched(stream, schedule) && left == left[..n] + left[n..]
  {
    hide Frames;
  }

  lemma StopsAtBody(stream: seq<byte>, schedule: seq<Chunk>, done: seq<seq<byte>>, left: seq<byte>, chunks: seq<Chunk>,
                    qlen: nat, n: nat)
    requires Going(stream, schedule, done, left, chunks)
    requires Taken(left, chunks, 2) == 2 && !NextChunk(chunks).err && GetUint16(left[..2]) == qlen
    requires n == Taken(left[2..], LaterChunks(chunks), qlen) && (n != qlen || NextChunk(LaterChunks(chunks)).err)
    ensures done == Dispatched(stream, schedule)
    ensures GetUint16(left[..2 + n]) == qlen && left == left[..2 + n] + left[2..][n..]
  {
    hide Frames;
    assert GetUint16(left) == qlen;
  }

  /**
   * Accept's loop.  `dispatched` are the queries for which a goroutine was started, in order, and
   * `lost` is what was read after the last of them.
   */
  method Accept(c: Stream) returns (dispatched: seq<seq<byte>>, ghost lost: seq<byte>)
    modifies c`incoming, c`schedule, c`errors, c`closed
    ensures dispatched == Dispatched(old(c.incoming), old(c.schedule))
    ensures dispatched <= Unframe(old(c.incoming)).msgs
    ensures AllFit(dispatched) && old(c.incoming) == Frames(dispatched) + (lost + c.incoming)
    // What is lost is at most one frame, and that only to an error.
    ensures HasFrame(lost) ==> old(c.errors) < c.errors && |lost| == 2 + GetUint16(lost)
    ensures c.closed
  {
    hide Frames, Dispatched, Unframe;
    dispatched, lost := [], [];
    ghost var stream, schedule := c.incoming, c.schedule;
    ghost var left, chunks := stream, schedule;
    GoingAtFirst(stream, schedule);
    AcceptDispatches(stream, schedule, 0);
    var qlbuf := new byte[2];
    while true
      invariant Going(stream, schedule, dispatched, left, chunks)
      invariant left == c.incoming && chunks == c.schedule && old(c.errors) <= c.errors
      decreases |c.schedule|
    {
      var n, err := c.Read(qlbuf, 0);
      if n == 0 || err || n < 2 {
        StopsAtLength(stream, schedule, dispatched, left, chunks, n);
        lost := left[..n];
        break;
      }
      assert qlbuf[..] == qlbuf[0..n] == left[..2];
      var qlen := GetUint16(qlbuf[..]);
      var q := new byte[qlen];
      n, err := c.Read(q, 0);
      if err || n != qlen {
        StopsAtBody(stream, schedule, dispatched, left, chunks, qlen, n);
        lost := left[..2 + n];
        break;
      }
      assert q[..] == q[0..n];
      GoesOn(stream, schedule, dispatched, left, chunks, q[..]);
      dispatched := dispatched + [q[..]];
      left, chunks := c.incoming, c.schedule;
    }
    c.Close();
  }

  /** Two octets of length and that many of body are one frame. */
  lemma QueryTaken(stream: seq<byte>, done: seq<seq<byte>>, left: seq<byte>, q: seq<byte>)
    requires AllFit(done) && stream == Frames(done) + left
    requires |left| >= 2 && GetUint16(left[..2]) == |q| && |left| >= 2 + |q| && q == left[2..][..|q|]
    ensures AllFit(done + [q]) && stream == Frames(done + [q]) + left[2..][|q|..]
  {
    PutGetUint16(left[..2]);
    FramesAppend(done, q);
    assert left == Frame(q) + left[2..][|q|..];
  }

  /** A Read that asked for `asked` octets gets them all, without an error. */
  predicate InOneRead(c: Chunk, asked: nat) {
    !c.err && c.n >= asked
  }

  /** Each of these messages arrives in one read for its length and one for its body. */
  predicate WholeReads(msgs: seq<seq<byte>>, schedule: seq<Chunk>)
    decreases |msgs|
  {
    || msgs == []
    || (|schedule| >= 2 && InOneRead(schedule[0], 2) && InOneRead(schedule[1], |msgs[0]|)
        && WholeReads(msgs[1..], schedule[2..]))
  }

  /** Message `i` is read with chunks 2i and 2i + 1, which deliver two octets and all of it, without an error. */
  lemma {:induction false} WholeReadsExactly(msgs: seq<seq<byte>>, schedule: seq<Chunk>)
    ensures WholeReads(msgs, schedule) <==>
              && |schedule| >= 2 * |msgs|
              && (forall i :: 0 <= i < |msgs| ==> ReadsWhole(schedule, i, |msgs[i]|))
    decreases |msgs|
  {
    if msgs != [] && |schedule| >= 2 {
      WholeReadsExactly(msgs[1..], schedule[2..]);
      assert forall i :: 0 <= i < |msgs| - 1 ==>
          (ReadsWhole(schedule[2..], i, |msgs[1..][i]|) <==> ReadsWhole(schedule, i + 1, |msgs[i + 1]|));
      if ReadsWhole(schedule, 0, |msgs[0]|) && WholeReads(msgs[1..], schedule[2..]) {
        forall i | 0 < i < |msgs| ensures ReadsWhole(schedule, i, |msgs[i]|) {
          assert ReadsWhole(schedule[2..], i - 1, |msgs[1..][i - 1]|);
        }
      }
    }
  }

  predicate ReadsWhole(schedule: seq<Chunk>, i: nat, size: nat) {
    && 2 * i + 1 < |schedule|
    && !schedule[2 * i].err && schedule[2 * i].n >= 2
    && !schedule[2 * i + 1].err && schedule[2 * i + 1].n >= size
  }

  /** The first frame of a stream is dispatched exactly if it arrives whole. */
  lemma FirstDispatched(stream: seq<byte>, schedule: seq<Chunk>)
    requires HasFrame(stream)
    ensures |schedule| >= 2 && InOneRead(schedule[0], 2) && InOneRead(schedule[1], GetUint16(stream)) ==>
              Dispatched(stream, schedule)
              == [FirstMessage(stream)] + Dispatched(stream[2 + GetUint16(stream)..], schedule[2..])
    ensures !(|schedule| >= 2 && InOneRead(schedule[0], 2) && InOneRead(schedule[1], GetUint16(stream))) ==>
              Dispatched(stream, schedule) == []
  {
    var qlen := GetUint16(stream);
    assert stream[2..][..qlen] == FirstMessage(stream);
    assert stream[2..][qlen..] == stream[2 + qlen..];
    if |schedule| >= 2 {
      assert LaterChunks(LaterChunks(schedule)) == schedule[2..];
    }
  }

  lemma NoneDispatched(stream: seq<byte>, schedule: seq<Chunk>)
    requires !HasFrame(stream)
    ensures Dispatched(stream, schedule) == []
  {
  }

  /**
   * Accept never misframes, and drops a frame only for how it arrives: the queries dispatched are the
   * frames of the stream, in order, up to the first whose length or body does not come in one read.
   */
  lemma {:induction false} AcceptDispatches(stream: seq<byte>, schedule: seq<Chunk>, k: nat)
    requires k <= |Unframe(stream).msgs|
    ensures Dispatched(stream, schedule) <= Unframe(stream).msgs
    ensures |Dispatched(stream, schedule)| >= k <==> WholeReads(Unframe(stream).msgs[..k], schedule)
    decreases |stream|
  {
    hide Dispatched;
    var msgs := Unframe(stream).msgs;
    if !HasFrame(stream) {
      NoneDispatched(stream, schedule);
      NoReadsNeeded(schedule);
    } else {
      FirstDispatched(stream, schedule);
      var rest, later := stream[2 + GetUint16(stream)..], if |schedule| >= 2 then schedule[2..] else [];
      AcceptDispatches(rest, later, if k == 0 then 0 else k - 1);
      if k == 0 {
        NoReadsNeeded(schedule);
      } else {
        assert msgs[..k][1..] == Unframe(rest).msgs[..k - 1];
      }
    }
  }

  lemma NoReadsNeeded(schedule: seq<Chunk>)
    ensures WholeReads([], schedule)
  {
  }

  /** Every frame is dispatched exactly when each arrives in one read for its length and one for its body. */
  lemma AcceptDispatchesAll(stream: seq<byte>, schedule: seq<Chunk>)
    ensures Dispatched(stream, schedule) == Unframe(stream).msgs <==> WholeReads(Unframe(stream).msgs, schedule)
  {
    hide Dispatched, Unframe, WholeReads;
    var msgs := Unframe(stream).msgs;
    AcceptDispatches(stream, schedule, |msgs|);
    assert msgs[..|msgs|] == msgs;
  }

  /** A well-framed query of one octet whose length arrives in two reads is not dispatched. */
  method ChunkedQueryIsDropped() returns (stream: seq<byte>, dispatched: seq<seq<byte>>)
    ensures Unframe(stream) == Unframed([[7]], []) && dispatched == []
  {
    stream := [0, 1, 7];
    FrameFirst([7], []);
    assert Frame([7]) + [] == stream;
    UnframeStep([7], []);
    var c := new Stream(stream, [Chunk(1, false), Chunk(2, false)], []);
    ghost var lost;
    dispatched, lost := Accept(c);
  }
}
