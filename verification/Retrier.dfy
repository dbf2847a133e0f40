/**
 * The retrying connection of transport/split/retrier.go as an object.  Every method takes the steps
 * of the protocol in RetryProtocol one by one, so an object is always in a state that some run
 * reaches, and what is proved about all runs holds of it.  Calls here do not overlap; runs in which
 * they do are those of the protocol.
 */
module Retriers {
  import opened Bytes
  import opened TcpConns
  import opened TlsSplit
  import opened RetryProtocol
  import opened RetryInvariant
  import opened RetryTheorems

  method CopyOf(b: seq<byte>) returns (a: array<byte>)
    ensures fresh(a) && a[..] == b
  {
    a := new byte[|b|](i requires 0 <= i < |b| => b[i]);
    assert a[..] == b;
  }

  method NewConn() returns (c: TcpConn)
    ensures fresh(c) && c.writes == [] && c.errors == 0 && Snapshot(c) == FRESH
  {
    c := new TcpConn();
  }

  function Snapshot(c: TcpConn): Conn
    reads c
  {
    Conn(c.sent, c.readShut, c.writeShut, c.closed, c.readDeadline, c.writeDeadline, c.received)
  }

  lemma Unfolded(c: TcpConn)
    ensures Snapshot(c) == Conn(c.sent, c.readShut, c.writeShut, c.closed, c.readDeadline, c.writeDeadline, c.received)
  {
  }

  // ----- One call without interference, as a run of the protocol -----

  predicate Idle(s: State) {
    && s.mutex == Free && s.reader == RIdle && s.closers == map[] && s.setters == map[]
    && s.cur < |s.conns|
  }

  /** A call that ends where it began, with the current connection and hello as given. */
  predicate Moved(s: State, t: State, c: Conn, hello: seq<byte>) {
    && s.cur < |s.conns| && t.cur == s.cur && |t.conns| == |s.conns| && t.conns[t.cur] == c
    && (forall i :: 0 <= i < |s.conns| && i != s.cur ==> t.conns[i] == s.conns[i])
    && t.hello == hello && t.flag == s.flag
    && t.readCloseFlag == s.readCloseFlag && t.writeCloseFlag == s.writeCloseFlag
    && t.readDeadline == s.readDeadline && t.writeDeadline == s.writeDeadline
    && t.mutex == s.mutex && t.reader == s.reader && t.closers == s.closers && t.setters == s.setters
  }

  lemma CloserCall(s: State, half: Half) returns (t: State)
    requires Reachable(s) && Idle(s)
    ensures Reachable(t)
    ensures var stored := if half.ReadHalf? then s.(readCloseFlag := true) else s.(writeCloseFlag := true);
            t == stored.With(s.Conn().Shut(half))
  {
    hide Reachable;
    t := ReachableThen(s, Step.ByCloser(0, CallClose(half)));
    t := ReachableThen(t, Step.ByCloser(0, Go));
    t := ReachableThen(t, Step.ByCloser(0, Go));
    t := ReachableThen(t, Step.ByCloser(0, Go));
    assert t.closers == map[];
  }

  /** A setter up to the lock. */
  lemma SetterLocks(s: State, half: Half, d: Deadline) returns (t: State)
    requires Reachable(s) && Idle(s) && !d.Provisional?
    ensures Reachable(t) && t == s.(mutex := Owner.BySetter(0), setters := map[0 := SStore(half, d)])
  {
    hide Reachable;
    t := ReachableThen(s, Step.BySetter(0, CallSetDeadline(half, d)));
    t := ReachableThen(t, Step.BySetter(0, Go));
    assert t.setters == map[0 := SStore(half, d)];
  }

  lemma ReadSetterCall(s: State, d: Deadline) returns (t: State)
    requires Reachable(s) && Idle(s) && !d.Provisional?
    ensures Reachable(t)
    ensures t == if s.flag then s.(readDeadline := d, past := s.past.(lastRead := d)).With(s.Conn().SetReadDeadline(d))
                 else s.(readDeadline := d)
  {
    hide Reachable;
    t := SetterLocks(s, ReadHalf, d);
    t := ReachableThen(t, Step.BySetter(0, Go));
    t := ReachableThen(t, Step.BySetter(0, Go));
    t := ReachableThen(t, Step.BySetter(0, Go));
    assert t.setters == map[];
  }

  lemma WriteSetterCall(s: State, d: Deadline) returns (t: State)
    requires Reachable(s) && Idle(s) && !d.Provisional?
    ensures Reachable(t)
    ensures t == s.(writeDeadline := d).With(s.Conn().SetWriteDeadline(d))
  {
    hide Reachable;
    t := SetterLocks(s, WriteHalf, d);
    t := ReachableThen(t, Step.BySetter(0, Go));
    t := ReachableThen(t, Step.BySetter(0, Go));
    t := ReachableThen(t, Step.BySetter(0, Go));
    assert t.setters == map[];
  }

  /** Write before completion, up to the write to the connection. */
  lemma BeginProvisional(s: State, b: seq<byte>) returns (t: State)
    requires Reachable(s) && Idle(s) && s.writer == IDLE && !s.flag
    ensures Reachable(t) && t == s.(mutex := Owner.ByWriter, writer := Writer(WProvisional, b, 0, false, 0))
  {
    hide Reachable;
    t := ReachableThen(s, Step.ByWriter(CallWrite(b)));
    t := ReachableThen(t, Step.ByWriter(Go));
    t := ReachableThen(t, Step.ByWriter(Go));
    t := ReachableThen(t, Step.ByWriter(Go));
  }

  /** The provisional write, and what was accepted joining hello. */
  lemma SentProvisionally(s: State, b: seq<byte>, n: nat, failed: bool) returns (t: State)
    requires Reachable(s) && s.cur < |s.conns| && s.writer == Writer(WProvisional, b, 0, false, 0)
    requires s.Conn().MayAccept(b, n, failed)
    ensures Reachable(t) && n <= |b|
    ensures t == s.With(s.Conn().Accept(b, n)).(hello := s.hello + b[..n], past := t.past,
                                                writer := Writer(WSetDeadline, b, n, failed, 0))
  {
    hide Reachable;
    t := ReachableThen(s, Step.ByWriter(Accepts(n, failed)));
    t := ReachableThen(t, Step.ByWriter(Go));
  }

  /** Write before completion; with an error it waits for completion, holding nothing. */
  lemma ProvisionalCall(s: State, b: seq<byte>, n: nat, failed: bool, at: int) returns (t: State)
    requires Reachable(s) && Idle(s) && s.writer == IDLE && !s.flag && s.Conn().MayAccept(b, n, failed)
    ensures Reachable(t) && n <= |b|
    ensures Moved(s, t, s.Conn().Accept(b, n).SetReadDeadline(Provisional(at)), s.hello + b[..n])
    ensures t.writer == if failed then Writer(WAwaitFlag, b, n, true, 0) else IDLE
  {
    hide Reachable;
    t := BeginProvisional(s, b);
    t := SentProvisionally(t, b, n, failed);
    t := ReachableThen(t, Step.ByWriter(RetryDeadline(at)));
    t := ReachableThen(t, Step.ByWriter(Go));
  }

  /** Write after completion. */
  lemma FinalCall(s: State, b: seq<byte>, n: nat, failed: bool) returns (t: State)
    requires Reachable(s) && Idle(s) && s.writer == IDLE && s.flag && s.Conn().MayAccept(b, n, failed)
    ensures Reachable(t) && n <= |b| && t == s.With(s.Conn().Accept(b, n)).(past := t.past)
  {
    hide Reachable;
    t := ReachableThen(s, Step.ByWriter(CallWrite(b)));
    t := ReachableThen(t, Step.ByWriter(Go));
    t := ReachableThen(t, Step.ByWriter(Go));
    t := ReachableThen(t, Step.ByWriter(Accepts(n, failed)));
  }

  /** The flag is closed, and the writer that waited for it has loaded the connection. */
  lemma WakeUp(s: State) returns (t: State)
    requires Reachable(s) && Idle(s) && s.writer.pc.WAwaitFlag? && s.flag && s.writer.n <= |s.writer.b|
    ensures Reachable(t) && t == s.(writer := s.writer.(pc := WResume, conn := s.cur))
  {
    hide Reachable;
    WriterConnKnown(s);
    t := ReachableThen(s, Step.ByWriter(Go));
    t := ReachableThen(t, Step.ByWriter(Go));
    t := ReachableThen(t, Step.ByWriter(Go));
    t := ReachableThen(t, Step.ByWriter(Go));
  }

  /** The rest of a Write that waited. */
  lemma ResumedCall(s: State, m: nat, failed: bool) returns (t: State)
    requires Reachable(s) && Idle(s) && s.writer.pc.WAwaitFlag? && s.flag && s.writer.n <= |s.writer.b|
    requires s.Conn().MayAccept(s.writer.b[s.writer.n..], m, failed)
    ensures Reachable(t) && m <= |s.writer.b[s.writer.n..]|
    ensures Moved(s, t, s.Conn().Accept(s.writer.b[s.writer.n..], m), s.hello) && t.writer == IDLE
  {
    hide Reachable;
    var w := s.writer;
    t := WakeUp(s);
    t := ReachableThen(t, Step.ByWriter(Accepts(m, failed)));
    if w.n == |w.b| {
      assert s.Conn().sent + w.b[w.n..][..0] == s.Conn().sent;
    }
  }

  lemma WriterConnKnown(s: State)
    requires Reachable(s)
    ensures s.writer.conn < |s.conns|
  {
    hide Carried, HalfCloses, Deadlines, Locks, HelloContents;
    ReachableInv(s);
  }

  lemma ReachableInv(s: State)
    requires Reachable(s)
    ensures Inv(s)
  {
    var steps :| Possible(INITIAL, steps) && Run(INITIAL, steps) == s;
    InitialInv();
    RunKeeps(INITIAL, steps);
  }

  /** Read up to the lock. */
  lemma BeginRead(s: State, data: seq<byte>, failed: bool) returns (t: State)
    requires Reachable(s) && Idle(s) && !s.flag && (failed <==> data == [])
    ensures Reachable(t)
            && t == Received(s, data).(mutex := Owner.ByReader, reader := if failed then RCloseOld else RCloseFlag)
  {
    hide Reachable, Received;
    t := ReachableThen(s, Step.ByReader(Go));
    t := ReachableThen(t, Step.ByReader(ReadResult(data, failed)));
    ReceivedOtherwise(s, RRead, data);
    t := ReachableThen(t, Step.ByReader(Go));
    t := ReachableThen(t, Step.ByReader(Go));
  }

  /** Receiving leaves alone what the next steps look at. */
  lemma ReceivedOtherwise(s: State, pc: ReaderPc, data: seq<byte>)
    requires s.cur < |s.conns|
    ensures var r := Received(s, data);
            && r.cur == s.cur && |r.conns| == |s.conns| && r.flag == s.flag && r.mutex == s.mutex
            && r.closers == s.closers && r.setters == s.setters
            && Received(s.(reader := pc), data) == r.(reader := pc)
  {
  }

  /** Read after completion, also when nothing comes. */
  lemma LateRead(s: State, data: seq<byte>, failed: bool) returns (t: State)
    requires Reachable(s) && Idle(s) && (failed ==> data == []) && (s.flag || (data == [] && !failed))
    ensures Reachable(t) && t == Received(s, data)
  {
    hide Reachable, Received;
    t := ReachableThen(s, Step.ByReader(Go));
    t := ReachableThen(t, Step.ByReader(ReadResult(data, failed)));
    ReceivedOtherwise(s, RRead, data);
    ReceivedOtherwise(s, RIdle, data);
    if data != [] || failed {
      t := ReachableThen(t, Step.ByReader(Go));
    }
  }

  /** The read that ends retry. */
  lemma AgainRead(s: State, data: seq<byte>, failed: bool) returns (t: State)
    requires Reachable(s) && s.reader == RReadAgain && s.cur < |s.conns| && (failed ==> data == [])
    ensures Reachable(t) && t == Received(s, data).(reader := RCloseFlag)
  {
    hide Reachable, Received;
    t := ReachableThen(s, Step.ByReader(ReadResult(data, failed)));
  }

  /** The retry is over, or was not needed. */
  lemma FinishRead(s: State) returns (t: State)
    requires Reachable(s) && s.reader == RCloseFlag && !s.flag && s.cur < |s.conns|
    ensures Reachable(t)
    ensures t == s.With(s.Conn().SetReadDeadline(Unset)).(
                   flag := true, hello := [], mutex := Free, reader := RIdle, past := t.past)
  {
    hide Reachable;
    t := ReachableThen(s, Step.ByReader(Go));
    t := ReachableThen(t, Step.ByReader(Go));
    t := ReachableThen(t, Step.ByReader(Go));
    t := ReachableThen(t, Step.ByReader(Go));
  }

  lemma CloseOldCall(s: State) returns (t: State)
    requires Reachable(s) && s.reader == RCloseOld && s.cur < |s.conns|
    ensures Reachable(t) && t == s.With(s.Conn().Close()).(reader := RDial, past := t.past)
  {
    hide Reachable;
    t := ReachableThen(s, Step.ByReader(Go));
  }

  lemma DialCall(s: State, ok: bool) returns (t: State)
    requires Reachable(s) && s.reader == RDial && s.cur < |s.conns|
    ensures Reachable(t) && t == Redialled(s, ok)
  {
    hide Reachable;
    t := ReachableThen(s, Step.ByReader(DialResult(ok)));
  }

  /** The state in which splitHello ends: `sent` is on the new connection. */
  function AfterReplay(s: State, sent: seq<byte>, failed: bool, scratch: seq<byte>, past: History): State
    requires s.cur < |s.conns|
  {
    var reader := if failed then RCloseFlag else RTestReadClosed;
    s.With(FRESH.(sent := sent)).(hello := scratch, reader := reader, past := past)
  }

  predicate ReadyToReplay(s: State, splitLen: nat, scratch: seq<byte>) {
    && s.reader == RReplayFirst && s.cur < |s.conns| && s.Conn() == FRESH && s.past.original == s.hello
    && PossibleSplit(|s.hello|, splitLen) && splitLen <= |s.hello| && |scratch| == |s.hello|
  }

  /** splitHello ends with its first write, which is its only one for a hello of at most one octet. */
  lemma ReplayOneWrite(s: State, splitLen: nat, n: nat, failed: bool, scratch: seq<byte>) returns (t: State)
    requires Reachable(s) && ReadyToReplay(s, splitLen, scratch) && (|s.hello| <= 1 || failed)
    requires n <= |FirstWrite(s.hello, splitLen)| && (!failed ==> n == |FirstWrite(s.hello, splitLen)|)
    ensures Reachable(t) && n <= |Resent(s.hello, splitLen)|
    ensures t == AfterReplay(s, Resent(s.hello, splitLen)[..n], failed, scratch, t.past)
  {
    hide Reachable, First, Second, PossibleSplit, FirstWrite, Resent;
    FirstWriteIsPrefix(s.hello, splitLen, n);
    assert [] + FirstWrite(s.hello, splitLen)[..n] == Resent(s.hello, splitLen)[..n];
    t := ReachableThen(s, Step.ByReader(Split(splitLen, n, failed, scratch)));
  }

  lemma ReplayTwoWrites(s: State, splitLen: nat, m: nat, failed: bool, scratch: seq<byte>) returns (t: State)
    requires Reachable(s) && ReadyToReplay(s, splitLen, scratch) && |s.hello| > 1
    requires m <= |Second(s.hello, splitLen)| && (!failed ==> m == |Second(s.hello, splitLen)|)
    ensures Reachable(t)
    ensures t == AfterReplay(s, First(s.hello, splitLen) + Second(s.hello, splitLen)[..m], failed, scratch, t.past)
  {
    hide Reachable, First, Second, PossibleSplit;
    var first := First(s.hello, splitLen);
    assert [] + first[..|first|] == first;
    t := ReachableThen(s, Step.ByReader(Split(splitLen, |first|, false, scratch)));
    t := ReachableThen(t, Step.ByReader(Accepts(m, failed)));
  }

  /** What splitHello leaves when it has used `hello` as scratch space and a new connection for its writes. */
  predicate ReplayOutcome(hello: seq<byte>, splitLen: nat, n: nat, failed: bool, scratch: seq<byte>,
                          writes: seq<seq<byte>>) {
    && PossibleSplit(|hello|, splitLen) && splitLen <= |hello| && |scratch| == |hello|
    && n <= |Resent(hello, splitLen)| && (!failed ==> n == |Resent(hello, splitLen)|)
    && (|hello| > 1 ==> TwoWrites([], writes, First(hello, splitLen), Second(hello, splitLen), n, failed))
  }

  /** splitHello on a fresh connection, as one or two steps. */
  lemma ReplayCall(s: State, splitLen: nat, n: nat, failed: bool, scratch: seq<byte>, writes: seq<seq<byte>>)
    returns (t: State)
    requires Reachable(s) && s.reader == RReplayFirst && s.cur < |s.conns| && s.Conn() == FRESH
             && s.past.original == s.hello
    requires ReplayOutcome(s.hello, splitLen, n, failed, scratch, writes)
    ensures Reachable(t) && t == AfterReplay(s, Resent(s.hello, splitLen)[..n], failed, scratch, t.past)
  {
    hide Reachable, First, Second, PossibleSplit, AfterReplay;
    var first := First(s.hello, splitLen);
    if |s.hello| <= 1 {
      FirstWriteIsPrefix(s.hello, splitLen, 0);
      t := ReplayOneWrite(s, splitLen, n, failed, scratch);
    } else if |first| <= n && |writes| == 2 {
      ResentPrefix(s.hello, splitLen, n);
      assert Resent(s.hello, splitLen)[..n] == first + Second(s.hello, splitLen)[..n - |first|];
      t := ReplayTwoWrites(s, splitLen, n - |first|, failed, scratch);
    } else {
      t := ReplayOneWrite(s, splitLen, n, failed, scratch);
    }
  }

  lemma OutcomeBounds(hello: seq<byte>, splitLen: nat, n: nat, failed: bool, scratch: seq<byte>, writes: seq<seq<byte>>)
    requires ReplayOutcome(hello, splitLen, n, failed, scratch, writes)
    ensures splitLen <= |hello| && n <= |Resent(hello, splitLen)| && (!failed ==> n == |Resent(hello, splitLen)|)
  {
  }

  /** The half-closes and deadlines of the caller. */
  lemma CopySettings(s: State) returns (t: State)
    requires Reachable(s) && s.reader == RTestReadClosed && s.cur < |s.conns| && !s.Conn().closed
    ensures Reachable(t)
    ensures var c := s.Conn();
            t == s.With(c.(readShut := c.readShut || s.readCloseFlag, writeShut := c.writeShut || s.writeCloseFlag,
                           readDeadline := s.readDeadline, writeDeadline := s.writeDeadline)).(reader := RReadAgain)
  {
    hide Reachable;
    t := CopyHalfCloses(s);
    t := ReachableThen(t, Step.ByReader(Go));
    t := ReachableThen(t, Step.ByReader(Go));
  }

  lemma CopyHalfCloses(s: State) returns (t: State)
    requires Reachable(s) && s.reader == RTestReadClosed && s.cur < |s.conns| && !s.Conn().closed
    ensures Reachable(t)
    ensures var c := s.Conn();
            t == s.With(c.(readShut := c.readShut || s.readCloseFlag, writeShut := c.writeShut || s.writeCloseFlag)).(
                   reader := RApplyReadDeadline)
  {
    hide Reachable;
    assert s.conns[s.cur := s.Conn()] == s.conns;
    t := ReachableThen(s, Step.ByReader(Go));
    if s.readCloseFlag {
      t := ReachableThen(t, Step.ByReader(Go));
    }
    t := ReachableThen(t, Step.ByReader(Go));
    if s.writeCloseFlag {
      t := ReachableThen(t, Step.ByReader(Go));
    }
  }

  // ----- ReadFrom -----

  function Joined(chunks: seq<seq<byte>>): seq<byte>
    decreases |chunks|
  {
    if chunks == [] then [] else Joined(chunks[..|chunks| - 1]) + chunks[|chunks| - 1]
  }

  lemma {:induction false} JoinedPrefix(chunks: seq<seq<byte>>, i: nat)
    requires i <= |chunks|
    ensures Joined(chunks[..i]) <= Joined(chunks)
    decreases |chunks|
  {
    if i == |chunks| {
      assert chunks[..i] == chunks;
    } else {
      JoinedPrefix(chunks[..|chunks| - 1], i);
      assert chunks[..|chunks| - 1][..i] == chunks[..i];
    }
  }

  /** `n` octets of chunk `i` behind all chunks before it. */
  lemma ChunkTaken(chunks: seq<seq<byte>>, i: nat, n: nat)
    requires i < |chunks| && n <= |chunks[i]|
    ensures var before := |Joined(chunks[..i])|;
            && before + n <= |Joined(chunks)|
            && Joined(chunks)[..before] + chunks[i][..n] == Joined(chunks)[..before + n]
            && |Joined(chunks[..i + 1])| == before + |chunks[i]|
  {
    assert chunks[..i + 1][..i] == chunks[..i];
    JoinedPrefix(chunks, i + 1);
    var all, front := Joined(chunks), Joined(chunks[..i]);
    assert all[..|front| + |chunks[i]|] == front + chunks[i];
    assert all[..|front| + n] == all[..|front| + |chunks[i]|][..|front| + n];
  }

  /** The first `bytes` octets of `all` have been added. */
  predicate Added(before: seq<byte>, after: seq<byte>, all: seq<byte>, bytes: nat) {
    bytes <= |all| && after == before + all[..bytes]
  }

  lemma ChunkAdded(before: seq<byte>, now: seq<byte>, chunks: seq<seq<byte>>, i: nat, n: nat)
    requires i < |chunks| && n <= |chunks[i]| && Added(before, now, Joined(chunks), |Joined(chunks[..i])|)
    ensures Added(before, now + chunks[i][..n], Joined(chunks), |Joined(chunks[..i])| + n)
  {
    hide Joined;
    ChunkTaken(chunks, i, n);
  }

  lemma NothingAdded(before: seq<byte>, chunks: seq<seq<byte>>)
    ensures Added(before, before, Joined(chunks), 0) && Joined(chunks[..0]) == []
  {
  }

  lemma {:induction false} JoinedSplit(chunks: seq<seq<byte>>, i: nat)
    requires i <= |chunks|
    ensures Joined(chunks) == Joined(chunks[..i]) + Joined(chunks[i..])
    decreases |chunks|
  {
    if i == |chunks| {
      assert chunks[..i] == chunks && Joined(chunks[i..]) == [];
    } else {
      var front := chunks[..|chunks| - 1];
      JoinedSplit(front, i);
      assert front[..i] == chunks[..i] && chunks[i..][..|chunks| - 1 - i] == front[i..];
    }
  }

  /** What follows the first `n` octets of chunk `at`. */
  lemma RestOfChunk(chunks: seq<seq<byte>>, at: nat, n: nat)
    requires at < |chunks| && n <= |chunks[at]|
    ensures var before := |Joined(chunks[..at])|;
            && before + n <= |Joined(chunks)|
            && Joined(chunks)[before + n..] == chunks[at][n..] + Joined(chunks[at + 1..])
  {
    hide Joined;
    JoinedSplit(chunks, at);
    var rest := chunks[at..];
    JoinedSplit(rest, 1);
    assert rest[..1] == [chunks[at]] && rest[1..] == chunks[at + 1..];
    OneChunk(chunks[at]);
    DropBoth(Joined(chunks[..at]), chunks[at], Joined(chunks[at + 1..]), n);
  }

  lemma OneChunk(chunk: seq<byte>)
    ensures Joined([chunk]) == chunk
  {
  }

  lemma DropBoth(a: seq<byte>, b: seq<byte>, c: seq<byte>, n: nat)
    requires n <= |b|
    ensures (a + (b + c))[|a| + n..] == b[n..] + c
  {
  }

  lemma FirstPart(before: seq<byte>, now: seq<byte>, part: seq<byte>, n: nat, rest: seq<byte>)
    requires n <= |part| && now == before + part[..n]
    ensures Added(before, now, part + rest, n)
  {
    assert (part + rest)[..n] == part[..n];
  }

  lemma SecondPart(before: seq<byte>, middle: seq<byte>, now: seq<byte>, part: seq<byte>, rest: seq<byte>, n: nat)
    requires middle == before + part && Added(middle, now, rest, n)
    ensures Added(before, now, part + rest, |part| + n)
  {
    assert (part + rest)[..|part| + n] == part + rest[..n];
  }

  lemma BeginBulk(s: State) returns (t: State)
    requires Reachable(s) && Idle(s) && s.writer == IDLE && s.flag
    ensures Reachable(t) && t == s.(writer := Writer(WBulk, [], 0, false, s.cur))
  {
    hide Reachable;
    t := ReachableThen(s, Step.ByWriter(CallReadFrom));
    t := ReachableThen(t, Step.ByWriter(Go));
    t := ReachableThen(t, Step.ByWriter(Go));
  }

  lemma BulkChunk(s: State, b: seq<byte>, n: nat) returns (t: State)
    requires Reachable(s) && Idle(s) && s.writer == Writer(WBulk, [], 0, false, s.cur)
    requires s.Conn().MayAccept(b, n, n < |b|)
    ensures Reachable(t) && n <= |b| && t == s.With(s.Conn().Accept(b, n)).(past := t.past)
  {
    hide Reachable;
    t := ReachableThen(s, Step.ByWriter(Chunk(b, n)));
  }

  lemma EndBulk(s: State) returns (t: State)
    requires Reachable(s) && Idle(s) && s.writer == Writer(WBulk, [], 0, false, s.cur)
    ensures Reachable(t) && t == s.(writer := IDLE)
  {
    hide Reachable;
    t := ReachableThen(s, Step.ByWriter(Eof));
  }

  lemma NotReplacedYet(s: State)
    requires Reachable(s) && !s.flag && s.reader == RIdle
    ensures |s.conns| == 1 && !s.conns[0].closed
  {
    hide WriterKnows, HelloContents, Carried, HalfCloses, Deadlines, Locks, Download;
    ReachableInv(s);
  }

  class Retrier {
    var conn: TcpConn
    var readDeadline: Deadline
    var writeDeadline: Deadline
    var hello: seq<byte>
    /** retryCompleteFlag is closed. */
    var completed: bool
    var readCloseFlag: bool
    var writeCloseFlag: bool
    /** Whether the dial of retry, of which there is at most one, succeeds. */
    const reachable: bool
    /** The provisional connection, once there is another. */
    ghost var replaced: TcpConn?
    /** The protocol state. */
    ghost var model: State

    ghost function Repr(): set<object?>
      reads this
    {
      {this, conn, replaced}
    }

    /** The fields are those of the protocol state. */
    ghost predicate Matches()
      reads Repr()
    {
      && replaced != conn
      && |model.conns| == (if replaced == null then 1 else 2) && model.cur == |model.conns| - 1
      && model.Conn() == Snapshot(conn) && (replaced != null ==> model.conns[0] == Snapshot(replaced))
      && model.hello == hello && model.flag == completed
      && model.readCloseFlag == readCloseFlag && model.writeCloseFlag == writeCloseFlag
      && model.readDeadline == readDeadline && model.writeDeadline == writeDeadline
      && Reachable(model)
    }

    /** Between calls; the writer may be waiting for completion within one. */
    ghost predicate Valid()
      reads Repr()
    {
      && Matches()
      && model.mutex == Free && model.reader == RIdle && model.closers == map[] && model.setters == map[]
      && (model.writer == IDLE || model.writer.pc.WAwaitFlag?)
    }

    constructor (conn: TcpConn, reachable: bool)
      requires Snapshot(conn) == FRESH
      ensures Valid() && this.conn == conn && this.reachable == reachable && !completed && hello == []
              && model == INITIAL
    {
      this.reachable := reachable;
      this.conn, hello, completed, readCloseFlag, writeCloseFlag := conn, [], false, false, false;
      readDeadline, writeDeadline, replaced, model := Unset, Unset, null, INITIAL;
      new;
      InitialReachable();
    }

    // ----- Closing and deadlines -----

    method CloseRead() returns (failed: bool)
      requires Valid()
      modifies this`readCloseFlag, this`model, conn`readShut
      ensures Valid() && readCloseFlag && (conn.closed || conn.readShut) && failed == (conn.closed || conn.reset)
    {
      hide Reachable, Snapshot;
      readCloseFlag := true;
      failed := ShutRead();
      model := CloserCall(model, ReadHalf);
    }

    method ShutRead() returns (failed: bool)
      modifies conn`readShut
      ensures Snapshot(conn) == old(Snapshot(conn)).Shut(ReadHalf)
      ensures (conn.closed || conn.readShut) && failed == (conn.closed || conn.reset)
    {
      failed := conn.CloseRead();
    }

    method CloseWrite() returns (failed: bool)
      requires Valid()
      modifies this`writeCloseFlag, this`model, conn`writeShut
      ensures Valid() && writeCloseFlag && (conn.closed || conn.writeShut) && failed == (conn.closed || conn.reset)
    {
      hide Reachable, Snapshot;
      writeCloseFlag := true;
      failed := ShutWrite();
      model := CloserCall(model, WriteHalf);
    }

    method ShutWrite() returns (failed: bool)
      modifies conn`writeShut
      ensures Snapshot(conn) == old(Snapshot(conn)).Shut(WriteHalf)
      ensures (conn.closed || conn.writeShut) && failed == (conn.closed || conn.reset)
    {
      failed := conn.CloseWrite();
    }

    /** Close shuts both halves down; when the first cannot be, the second is left as it is. */
    method Close() returns (failed: bool)
      requires Valid()
      modifies this`readCloseFlag, this`writeCloseFlag, this`model, conn`readShut, conn`writeShut
      ensures Valid() && failed == (conn.closed || conn.reset)
      ensures writeCloseFlag && (conn.closed || conn.writeShut)
      ensures if failed then readCloseFlag == old(readCloseFlag) && conn.readShut == old(conn.readShut)
              else readCloseFlag && conn.readShut
    {
      hide Matches;
      failed := CloseWrite();
      if failed {
        return;
      }
      failed := CloseRead();
    }

    /** Before completion the deadline is only remembered. */
    method SetReadDeadline(d: Deadline)
      requires Valid() && !d.Provisional?
      modifies this`readDeadline, this`model, conn`readDeadline
      ensures Valid() && readDeadline == d
      ensures conn.readDeadline == if completed && !conn.closed then d else old(conn.readDeadline)
    {
      hide Reachable;
      RememberReadDeadline(d);
      model := ReadSetterCall(model, d);
    }

    method RememberReadDeadline(d: Deadline)
      modifies this`readDeadline, conn`readDeadline
      ensures readDeadline == d
      ensures Snapshot(conn) == if completed then old(Snapshot(conn)).SetReadDeadline(d) else old(Snapshot(conn))
    {
      readDeadline := d;
      if completed {
        conn.SetReadDeadline(d);
      }
    }

    method SetWriteDeadline(d: Deadline)
      requires Valid() && !d.Provisional?
      modifies this`writeDeadline, this`model, conn`writeDeadline
      ensures Valid() && writeDeadline == d && (conn.closed || conn.writeDeadline == d)
    {
      hide Reachable;
      writeDeadline := d;
      conn.SetWriteDeadline(d);
      model := WriteSetterCall(model, d);
    }

    // ----- Writing -----

    /** The write to the provisional connection. */
    method WriteProvisional(b: seq<byte>) returns (n: nat, failed: bool)
      requires Valid() && model.writer == IDLE && !completed
      modifies this`hello, this`model, conn`sent, conn`writes, conn`errors, conn`readDeadline
      ensures Valid() && n <= |b| && (n < |b| ==> failed) && conn.errors == old(conn.errors) + (if failed then 1 else 0)
      ensures conn.sent == old(conn.sent) + b[..n] && hello == old(hello) + b[..n]
      ensures model.writer == if failed then Writer(WAwaitFlag, b, n, true, 0) else IDLE
      ensures conn.readDeadline.Provisional?
    {
      hide Reachable, Snapshot;
      ghost var at;
      Unfolded(conn);
      NotReplacedYet(model);
      n, failed, at := SendProvisionally(b);
      model := ProvisionalCall(model, b, n, failed, at);
    }

    /** The critical section of a provisional Write: send, remember, and set the retry timeout. */
    method SendProvisionally(b: seq<byte>) returns (n: nat, failed: bool, ghost at: int)
      modifies this`hello, conn`sent, conn`writes, conn`errors, conn`readDeadline
      ensures old(Snapshot(conn)).MayAccept(b, n, failed) && conn.sent == old(conn.sent) + b[..n]
      ensures conn.errors == old(conn.errors) + (if failed then 1 else 0)
      ensures Snapshot(conn) == old(Snapshot(conn)).Accept(b, n).SetReadDeadline(Provisional(at))
              && hello == old(hello) + b[..n] && (!conn.closed ==> conn.readDeadline == Provisional(at))
    {
      n, failed := conn.Write(b);
      hello := hello + b[..n];
      var deadline: int := *;
      conn.SetReadDeadline(Provisional(deadline));
      at := deadline;
    }

    /**
     * Write.  Before completion what was accepted is remembered for a replay, and an error only
     * makes the call wait (`waits`); Resume is what happens after the wait.
     */
    method Write(b: seq<byte>) returns (n: nat, failed: bool, waits: bool)
      requires Valid() && model.writer == IDLE
      modifies this`hello, this`model, conn`sent, conn`writes, conn`errors, conn`readDeadline
      ensures Valid() && n <= |b| && (n < |b| ==> failed) && conn.errors == old(conn.errors) + (if failed then 1 else 0)
      ensures conn.sent == old(conn.sent) + b[..n]
      ensures hello == if completed then old(hello) else old(hello) + b[..n]
      ensures waits <==> !completed && failed
      // The retry timeout begins anew with every write before completion, also with one that fails.
      ensures if completed then conn.readDeadline == old(conn.readDeadline) else conn.readDeadline.Provisional?
      ensures model.writer == if waits then Writer(WAwaitFlag, b, n, true, 0) else IDLE
    {
      hide Reachable;
      waits := false;
      if !completed {
        n, failed := WriteProvisional(b);
        waits := failed;
      } else {
        n, failed := conn.Write(b);
        model := FinalCall(model, b, n, failed);
      }
    }

    /** The rest of a Write of which `n0` octets had been accepted when it began to wait. */
    method Resume(b: seq<byte>, n0: nat) returns (n: nat, failed: bool)
      requires Valid() && completed && model.writer == Writer(WAwaitFlag, b, n0, true, 0) && n0 <= |b|
      modifies this`model, conn`sent, conn`writes, conn`errors
      ensures Valid() && model.writer == IDLE
      ensures n0 <= n <= |b| && (n < |b| ==> failed) && conn.sent == old(conn.sent) + b[n0..n]
      // The old error stays when nothing is left to write.
      ensures failed <==> n0 == |b| || old(conn.errors) < conn.errors
    {
      hide Reachable;
      var buf, m := b[n0..], 0;
      failed := true;
      if |buf| > 0 {
        m, failed := conn.Write(buf);
      }
      n := n0 + m;
      assert b[n0..n] == buf[..m];
      assert conn.sent == old(conn.sent) + buf[..m];
      model := ResumedCall(model, m, failed);
    }

    /**
     * ReadFrom.  `chunks` is what the source delivers before it ends.  Until completion each chunk goes
     * through Write; afterwards the rest is copied to the connection.  `waits` is as for Write: then `n`
     * octets of chunk `at` have been accepted, and ResumeReadFrom is what happens after the wait.
     */
    method ReadFrom(chunks: seq<seq<byte>>) returns (bytes: nat, failed: bool, waits: bool, ghost at: nat, ghost n: nat)
      requires Valid() && model.writer == IDLE
      modifies this`hello, this`model, conn`sent, conn`writes, conn`errors, conn`readDeadline
      ensures Valid() && Added(old(conn.sent), conn.sent, Joined(chunks), bytes)
      ensures if completed then hello == old(hello) else Added(old(hello), hello, Joined(chunks), bytes)
      ensures (!failed ==> bytes == |Joined(chunks)|) && conn.errors == old(conn.errors) + (if failed then 1 else 0)
      ensures waits <==> failed && !completed
      ensures !waits ==> model.writer == IDLE
      ensures waits ==>
                && at < |chunks| && n <= |chunks[at]| && bytes == |Joined(chunks[..at])| + n
                && model.writer == Writer(WAwaitFlag, chunks[at], n, true, 0)
    {
      hide Reachable, Matches, Joined, Added;
      bytes, failed, waits, at, n := 0, false, false, 0, 0;
      var i := 0;
      NothingAdded(conn.sent, chunks);
      NothingAdded(hello, chunks);
      while !completed && i < |chunks|
        invariant 0 <= i <= |chunks| && Valid() && model.writer == IDLE && !failed && !waits
        invariant conn.errors == old(conn.errors)
        invariant bytes == |Joined(chunks[..i])| && Added(old(conn.sent), conn.sent, Joined(chunks), bytes)
        invariant if completed then hello == old(hello) else Added(old(hello), hello, Joined(chunks), bytes)
        invariant completed ==> i == 0 && conn.sent == old(conn.sent)
      {
        var m;
        ghost var sent, remembered := conn.sent, hello;
        m, failed, waits := Write(chunks[i]);
        ChunkAdded(old(conn.sent), sent, chunks, i, m);
        ChunkAdded(old(hello), remembered, chunks, i, m);
        ChunkTaken(chunks, i, m);
        bytes := bytes + m;
        if failed {
          at, n := i, m;
          return;
        }
        i := i + 1;
      }
      if completed {
        bytes, failed := CopyRest(chunks);
      } else {
        assert chunks[..i] == chunks;
      }
    }

    /** The rest of a ReadFrom that waited with `n0` octets of chunk `at` accepted. */
    method ResumeReadFrom(chunks: seq<seq<byte>>, at: nat, n0: nat) returns (bytes: nat, failed: bool)
      requires Valid() && completed && at < |chunks| && n0 <= |chunks[at]|
      requires model.writer == Writer(WAwaitFlag, chunks[at], n0, true, 0)
      modifies this`model, conn`sent, conn`writes, conn`errors
      ensures Valid() && model.writer == IDLE
      // What goes out is what the source delivered behind the octets accepted before.
      ensures |Joined(chunks[..at])| + n0 <= |Joined(chunks)|
      ensures Added(old(conn.sent), conn.sent, Joined(chunks)[|Joined(chunks[..at])| + n0..], bytes)
      ensures !failed ==> bytes == |Joined(chunks)| - |Joined(chunks[..at])| - n0
    {
      hide Reachable, Matches, Joined, Added;
      var n;
      RestOfChunk(chunks, at, n0);
      n, failed := Resume(chunks[at], n0);
      bytes := n - n0;
      ghost var sent := conn.sent;
      FirstPart(old(conn.sent), sent, chunks[at][n0..], bytes, Joined(chunks[at + 1..]));
      if failed {
        return;
      }
      var more;
      more, failed := CopyRest(chunks[at + 1..]);
      bytes := bytes + more;
      SecondPart(old(conn.sent), sent, conn.sent, chunks[at][n0..], Joined(chunks[at + 1..]), more);
    }

    /** r.conn.ReadFrom. */
    method CopyRest(chunks: seq<seq<byte>>) returns (bytes: nat, failed: bool)
      requires Valid() && model.writer == IDLE && completed
      modifies this`model, conn`sent, conn`writes, conn`errors
      ensures Valid() && model.writer == IDLE && Added(old(conn.sent), conn.sent, Joined(chunks), bytes)
      ensures (!failed ==> bytes == |Joined(chunks)|) && conn.errors == old(conn.errors) + (if failed then 1 else 0)
    {
      hide Reachable, Joined, Added;
      bytes, failed := 0, false;
      model := BeginBulk(model);
      var i := 0;
      NothingAdded(conn.sent, chunks);
      while i < |chunks| && !failed
        invariant 0 <= i <= |chunks| && Copying() && conn.errors == old(conn.errors) + (if failed then 1 else 0)
        invariant Added(old(conn.sent), conn.sent, Joined(chunks), bytes)
                  && (!failed ==> bytes == |Joined(chunks[..i])|)
      {
        var n;
        ghost var sent := conn.sent;
        n, failed := CopyChunk(chunks[i]);
        ChunkAdded(old(conn.sent), sent, chunks, i, n);
        ChunkTaken(chunks, i, n);
        bytes := bytes + n;
        i := i + 1;
      }
      if !failed {
        assert chunks[..i] == chunks;
      }
      model := EndBulk(model);
    }

    /** The writer is inside r.conn.ReadFrom. */
    ghost predicate Copying()
      reads Repr()
    {
      Matches() && Idle(model) && completed && model.writer == Writer(WBulk, [], 0, false, model.cur)
    }

    /** One buffer of io.Copy; it stops at the first error. */
    method CopyChunk(b: seq<byte>) returns (n: nat, failed: bool)
      requires Copying()
      modifies this`model, conn`sent, conn`writes, conn`errors
      ensures Copying() && n <= |b| && (n < |b| ==> failed) && conn.sent == old(conn.sent) + b[..n]
      ensures conn.errors == old(conn.errors) + (if failed then 1 else 0)
    {
      hide Reachable;
      n, failed := conn.Write(b);
      model := BulkChunk(model, b, n);
    }

    // ----- Reading -----

    /** The middle of Read, when the reader holds the mutex. */
    ghost predicate Reading(pc: ReaderPc)
      reads Repr()
    {
      && Matches() && !completed
      && model.mutex == Owner.ByReader && model.reader == pc && model.closers == map[] && model.setters == map[]
      && (model.writer == IDLE || model.writer.pc.WAwaitFlag?)
    }

    method CloseOld()
      requires Reading(RCloseOld) && replaced == null
      modifies this`model, conn`closed, conn`readDeadline, conn`writeDeadline
      ensures Reading(RDial) && model.writer == old(model.writer) && conn.closed
    {
      hide Reachable;
      conn.Close();
      model := CloseOldCall(model);
    }

    /** The closed connection is replaced if the dial succeeds. */
    method Dial() returns (ok: bool)
      requires Reading(RDial) && replaced == null
      modifies this`conn, this`replaced, this`model
      ensures Reading(if ok then RReplayFirst else RCloseFlag) && model.writer == old(model.writer) && ok == reachable
      ensures if ok
              then
                && replaced == old(conn) && fresh(conn) && conn.writes == [] && conn.errors == 0
                && Snapshot(conn) == FRESH
                && model.past.original == hello
              else replaced == null && conn == old(conn)
    {
      hide Reachable, Snapshot;
      ok := reachable;
      if ok {
        var newConn := NewConn();
        replaced, conn := conn, newConn;
      }
      model := DialCall(model, ok);
    }

    /** hello is the scratch space of splitHello. */
    method SendHello() returns (failed: bool, splitLen: nat, n: nat)
      requires Reading(RReplayFirst) && conn.writes == [] && Snapshot(conn) == FRESH && model.past.original == hello
      modifies this`hello, this`model, conn`sent, conn`writes, conn`errors
      ensures Reading(if failed then RCloseFlag else RTestReadClosed) && model.writer == old(model.writer)
      ensures splitLen <= |old(hello)| && n <= |Resent(old(hello), splitLen)|
      ensures Snapshot(conn) == FRESH.(sent := Resent(old(hello), splitLen)[..n])
      ensures (!failed ==> n == |Resent(old(hello), splitLen)|) && (failed <==> old(conn.errors) < conn.errors)
    {
      hide Reachable, Resent, ReplayOutcome;
      ghost var was := hello;
      failed, splitLen, n := SplitInPlace();
      OutcomeBounds(was, splitLen, n, failed, hello, conn.writes);
      model := ReplayCall(model, splitLen, n, failed, hello, conn.writes);
    }

    method SplitInPlace() returns (failed: bool, splitLen: nat, n: nat)
      requires conn.writes == [] && Snapshot(conn) == FRESH
      modifies this`hello, conn`sent, conn`writes, conn`errors
      ensures ReplayOutcome(old(hello), splitLen, n, failed, hello, conn.writes)
      ensures failed <==> old(conn.errors) < conn.errors
      ensures Snapshot(conn) == FRESH.(sent := Resent(old(hello), splitLen)[..n])
    {
      hide First, Second, Resent, PossibleSplit, TwoWrites, SplitsRecord;
      var buf := CopyOf(hello);
      ghost var was := hello;
      n, splitLen, failed := SplitHello(buf, conn);
      assert conn.sent == Resent(was, splitLen)[..n];
      hello := buf[..];
    }

    /** Half-closes are idempotent, so copying them does no harm; deadlines are set again. */
    method CopyCallerSettings()
      requires Reading(RTestReadClosed) && !conn.readShut && !conn.writeShut && !conn.closed
      modifies this`model, conn`readShut, conn`writeShut, conn`readDeadline, conn`writeDeadline
      ensures Reading(RReadAgain) && model.writer == old(model.writer)
      ensures conn.readShut == readCloseFlag && conn.writeShut == writeCloseFlag
      ensures conn.readDeadline == readDeadline && conn.writeDeadline == writeDeadline
    {
      hide Reachable;
      ApplySettings();
      model := CopySettings(model);
    }

    method ApplySettings()
      requires !conn.closed
      modifies conn`readShut, conn`writeShut, conn`readDeadline, conn`writeDeadline
      ensures Snapshot(conn) == old(Snapshot(conn)).(readShut := old(conn.readShut) || readCloseFlag,
                                                     writeShut := old(conn.writeShut) || writeCloseFlag,
                                                     readDeadline := readDeadline, writeDeadline := writeDeadline)
    {
      if readCloseFlag {
        var _ := conn.CloseRead();
      }
      if writeCloseFlag {
        var _ := conn.CloseWrite();
      }
      conn.SetReadDeadline(readDeadline);
      conn.SetWriteDeadline(writeDeadline);
    }

    method Receive() returns (data: seq<byte>, failed: bool)
      modifies conn`received, conn`errors
      ensures Snapshot(conn) == old(Snapshot(conn)).Receive(data)
      ensures (failed ==> data == []) && conn.received == old(conn.received) + data
      ensures failed <==> old(conn.errors) < conn.errors
    {
      data, failed := conn.Read();
    }

    /** The first read of the new connection. */
    method ReadAgain() returns (data: seq<byte>, failed: bool)
      requires Reading(RReadAgain)
      modifies this`model, conn`received, conn`errors
      ensures Reading(RCloseFlag) && model.writer == old(model.writer)
      ensures (failed ==> data == []) && conn.received == old(conn.received) + data
      ensures failed <==> old(conn.errors) < conn.errors
    {
      hide Reachable, Snapshot;
      data, failed := Receive();
      model := AgainRead(model, data, failed);
    }

    /**
     * retry.  `n` octets of the hello, sent again in segments of `splitLen` octets and the rest, were
     * accepted by the new connection; `replayed` tells that it was all of it.
     */
    method Retry() returns (data: seq<byte>, failed: bool, ghost splitLen: nat, ghost n: nat, ghost replayed: bool)
      requires Reading(RCloseOld) && replaced == null
      modifies this`conn, this`replaced, this`hello, this`model, conn`closed, conn`readDeadline, conn`writeDeadline
      ensures Reading(RCloseFlag) && model.writer == old(model.writer) && old(conn).closed
      ensures if replaced == null then conn == old(conn) && failed else replaced == old(conn) && fresh(conn)
      ensures (failed ==> data == []) && (replaced != null ==> conn.received == data)
      ensures replaced != null ==>
                && splitLen <= |old(hello)| && n <= |Resent(old(hello), splitLen)|
                && conn.sent == Resent(old(hello), splitLen)[..n]
      // It fails if the dial, the replay or the first read does.
      ensures (!replayed ==> failed) && (replaced != null <==> reachable)
      ensures failed <==> !reachable || conn.errors > 0
      // The settings of the caller are carried over only if nothing of the replay is missing.
      ensures replayed ==>
                && replaced != null && n == |Resent(old(hello), splitLen)|
                && conn.readShut == readCloseFlag && conn.writeShut == writeCloseFlag
                && conn.readDeadline == readDeadline && conn.writeDeadline == writeDeadline
    {
      hide Reachable, Resent, Matches, Reading, Snapshot;
      data, failed, splitLen, n, replayed := [], true, 0, 0, false;
      CloseOld();
      var ok := Dial();
      if !ok {
        return;
      }
      data, failed, splitLen, n, replayed := Replay();
    }

    /** The part of retry that has a new connection. */
    method Replay() returns (data: seq<byte>, failed: bool, ghost splitLen: nat, ghost n: nat, ghost replayed: bool)
      requires Reading(RReplayFirst) && conn.writes == [] && conn.errors == 0 && Snapshot(conn) == FRESH
      requires model.past.original == hello
      modifies this`hello, this`model, conn
      ensures Reading(RCloseFlag) && model.writer == old(model.writer)
      ensures (failed ==> data == []) && conn.received == data
      ensures splitLen <= |old(hello)| && n <= |Resent(old(hello), splitLen)|
      ensures conn.sent == Resent(old(hello), splitLen)[..n]
      ensures (!replayed ==> failed) && (failed <==> conn.errors > 0)
      ensures replayed ==>
                && n == |Resent(old(hello), splitLen)|
                && conn.readShut == readCloseFlag && conn.writeShut == writeCloseFlag
                && conn.readDeadline == readDeadline && conn.writeDeadline == writeDeadline
    {
      hide Reachable, Resent, Matches, Reading, Snapshot;
      data, replayed := [], false;
      var count, split;
      failed, split, count := SendHello();
      splitLen, n := split, count;
      Unfolded(conn);
      if failed {
        return;
      }
      CopyCallerSettings();
      replayed := true;
      data, failed := ReadAgain();
    }

    /** The read of the provisional connection; unless it brings nothing at all, the mutex is locked. */
    method ReadProvisional() returns (data: seq<byte>, failed: bool)
      requires Valid() && !completed
      modifies this`model, conn`received, conn`errors
      ensures conn.received == old(conn.received) + data && model.writer == old(model.writer) && (failed ==> data == [])
      ensures if data == [] && !failed then Valid() else Reading(if failed then RCloseOld else RCloseFlag)
      ensures replaced == null && !conn.closed && (failed <==> old(conn.errors) < conn.errors)
    {
      hide Reachable, Snapshot;
      Unfolded(conn);
      NotReplacedYet(model);
      data, failed := Receive();
      if data == [] && !failed {
        model := LateRead(model, data, failed);
      } else {
        model := BeginRead(model, data, failed);
      }
    }

    method ReadFinal() returns (data: seq<byte>, failed: bool)
      requires Valid() && completed
      modifies this`model, conn`received, conn`errors
      ensures Valid() && model.writer == old(model.writer)
      ensures (failed ==> data == []) && conn.received == old(conn.received) + data
      ensures failed <==> old(conn.errors) < conn.errors
    {
      hide Reachable, Snapshot;
      data, failed := Receive();
      model := LateRead(model, data, failed);
    }

    /** The end of Read's critical section: the flag is closed, and the provisional deadline and the hello go. */
    method Complete()
      requires Reading(RCloseFlag)
      modifies this`hello, this`completed, this`model, conn`readDeadline
      ensures Valid() && completed && hello == [] && model.writer == old(model.writer)
      ensures conn.closed || conn.readDeadline == Unset
    {
      hide Reachable;
      completed := true;
      conn.SetReadDeadline(Unset);
      hello := [];
      model := FinishRead(model);
    }

    /**
     * Read.  Whatever is read, or an error, ends the provisional phase, and an error makes it retry.
     * `splitLen` and `replayed` are those of retry.
     */
    method Read() returns (data: seq<byte>, failed: bool, ghost splitLen: nat, ghost replayed: bool)
      requires Valid()
      modifies this`conn, this`replaced, this`hello, this`completed, this`model
      modifies conn`closed, conn`readDeadline, conn`writeDeadline, conn`received, conn`errors
      ensures Valid() && model.writer == old(model.writer) && (failed ==> data == [])
      // What is read comes from the connection that stays, and behind nothing from another.
      ensures conn.received == (if conn == old(conn) then old(conn.received) else []) + data
      ensures old(completed) ==>
                completed && conn == old(conn) && unchanged(`hello) && unchanged(conn`closed, conn`readDeadline)
      ensures !completed ==>
                && data == [] && !failed && conn == old(conn)
                && unchanged(`hello) && unchanged(conn`closed, conn`readDeadline)
      ensures completed && !old(completed) ==> hello == [] && (conn.closed || conn.readDeadline == Unset)
      ensures conn != old(conn) ==> fresh(conn) && old(conn).closed
      // Before completion it retries exactly if the read fails; then the connection is closed, and replaced if the dial
      // succeeds.
      ensures !old(completed) ==>
                && (old(conn).closed <==> old(conn.errors) < old(conn).errors)
                && (conn != old(conn) <==> old(conn).closed && reachable)
      // It fails if the final read, the dial, or the replay and first read on the new connection do.
      ensures failed <==> if old(completed) then old(conn.errors) < conn.errors
                          else old(conn).closed && (!reachable || conn.errors > 0)
      // A complete replay: the hello, possibly refragmented, and the caller's half-closes and write deadline.
      ensures !replayed && conn != old(conn) ==> failed
      ensures replayed ==>
                && conn != old(conn) && splitLen <= |old(hello)| && conn.sent == Resent(old(hello), splitLen)
                && conn.readShut == readCloseFlag && conn.writeShut == writeCloseFlag
                && conn.writeDeadline == writeDeadline
    {
      hide Reachable, Resent, Matches, Reading, Snapshot;
      splitLen, replayed := 0, false;
      if completed {
        data, failed := ReadFinal();
        return;
      }
      data, failed := ReadProvisional();
      if data == [] && !failed {
        return;
      }
      if failed {
        ghost var n;
        data, failed, splitLen, n, replayed := Retry();
        assert replayed ==> Resent(old(hello), splitLen)[..n] == Resent(old(hello), splitLen);
      }
      Complete();
    }

    /** What is proved of every run holds of the object: unless a replay was cut short, nothing accepted is lost. */
    lemma CarriesUpload()
      requires Valid() && (model.past.replay.NoRetry? || model.past.replay.Replayed?)
      ensures replaced == null ==> conn.sent == model.past.accepted
      ensures replaced != null ==>
                && model.past.splitLen <= |model.past.original| && model.past.original <= model.past.accepted
                && conn.sent
                == Resent(model.past.original, model.past.splitLen) + model.past.accepted[|model.past.original|..]
    {
      var steps :| Possible(INITIAL, steps) && Run(INITIAL, steps) == model;
      ExactlyOnceUpload(steps);
    }
  }
}
