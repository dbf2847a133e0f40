/** What callers and servers of the retrying connection can rely on, over every run. */
module RetryTheorems {
  import opened Bytes
  import opened TcpConns
  import opened TlsRecords
  import opened TlsSplit
  import opened RetryProtocol
  import opened RetryInvariant

  /** What the writer's calls put on the connection after the replay began. */
  function Later(s: State): seq<byte> {
    if |s.past.original| <= |s.past.accepted| then s.past.accepted[|s.past.original|..] else []
  }

  /** The current connection carries exactly the upload, its first part possibly refragmented. */
  predicate UploadIntact(s: State) {
    && s.cur < |s.conns|
    && if |s.conns| == 1 then s.Conn().sent == s.past.accepted
       else
         && s.past.splitLen <= |s.past.original|
         && s.past.accepted == s.past.original + Later(s)
         && s.Conn().sent == Resent(s.past.original, s.past.splitLen) + Later(s)
  }

  /**
   * Exactly-once upload.  The octets counted by finished calls, and by the running one so far, are
   * the accepted octets, in order; and the current connection carries exactly those, unless the
   * replay failed before the whole hello was accepted again.  After a failed dial it is the old
   * connection, closed.
   */
  lemma ExactlyOnceUpload(steps: seq<Step>)
    requires Possible(INITIAL, steps)
    ensures var s := Run(INITIAL, steps);
            && s.past.accepted == s.past.reported + s.writer.Progress()
            && (s.past.replay.NoRetry? || s.past.replay.Replayed? ==> UploadIntact(s))
            && (s.past.replay.Dialling? || s.past.replay.DialFailed? ==> UploadIntact(s) && s.Conn().closed)
            && (s.past.replay.ReplayFailed? ==>
                  && s.past.splitLen <= |s.past.original|
                  && (UploadIntact(s) <==> s.past.replayed == |Resent(s.past.original, s.past.splitLen)|))
  {
    InitialInv();
    RunKeeps(INITIAL, steps);
    var s := Run(INITIAL, steps);
    if |s.conns| == 2 {
      var all := Resent(s.past.original, s.past.splitLen);
      assert s.past.accepted == s.past.original + Later(s);
      assert |s.Conn().sent| == s.past.replayed + |Later(s)|;
      if s.past.replayed == |all| {
        assert all[..|all|] == all;
      }
    }
  }

  /**
   * What the server reads.  Unless the replay failed, whatever may still follow, the TLS records on
   * the current connection are those of the uninterrupted upload, the first one possibly in two fragments.
   */
  lemma ServerReadsTheUpload(steps: seq<Step>, z: seq<byte>)
    requires Possible(INITIAL, steps)
    ensures var s := Run(INITIAL, steps);
            && s.cur < |s.conns|
            && (s.past.replay.NoRetry? || s.past.replay.Replayed? ==>
                  || s.Conn().sent == s.past.accepted
                  || (CanCoalesce(Deframe(s.Conn().sent + z))
                      && CoalesceFirstTwo(Deframe(s.Conn().sent + z)) == Deframe(s.past.accepted + z)))
  {
    InitialInv();
    RunKeeps(INITIAL, steps);
    ExactlyOnceUpload(steps);
    var s := Run(INITIAL, steps);
    if s.past.replay.Replayed? {
      IntactMeansTheSame(s.past.original, s.past.splitLen, Later(s), s.Conn().sent, s.past.accepted, z);
    }
  }

  lemma IntactMeansTheSame(hello: seq<byte>, splitLen: nat, later: seq<byte>, sent: seq<byte>, accepted: seq<byte>,
                           z: seq<byte>)
    requires splitLen <= |hello| && sent == Resent(hello, splitLen) + later && accepted == hello + later
    ensures if SplitsRecord(hello, splitLen)
            then CanCoalesce(Deframe(sent + z)) && CoalesceFirstTwo(Deframe(sent + z)) == Deframe(accepted + z)
            else sent == accepted
  {
    if SplitsRecord(hello, splitLen) {
      Assoc(Resent(hello, splitLen), later, z);
      Assoc(hello, later, z);
      RefragmentationPreservesMeaning(hello, splitLen, later + z);
    } else {
      PlainResent(hello, splitLen);
    }
  }

  lemma Assoc(a: seq<byte>, b: seq<byte>, c: seq<byte>)
    ensures (a + b) + c == a + (b + c)
  {
  }

  /** The flag is closed at most once, one extra dial happens, and the waits of the two threads are harmless. */
  lemma RetrySafety(steps: seq<Step>)
    requires Possible(INITIAL, steps)
    ensures var s := Run(INITIAL, steps);
            && s.past.flagCloses == (if s.flag then 1 else 0)
            && (s.reader.RCloseFlag? ==> !s.flag)
            && s.past.dials <= 1 && |s.conns| <= 1 + s.past.dials
            && (s.flag && s.mutex.Free? ==> s.hello == [])
            && (s.writer.pc.WAwaitFlag? ==> !s.mutex.ByWriter?)
            // The connection used without the mutex is the final one.
            && (s.writer.pc.WResume? || s.writer.pc.WFinal? || s.writer.pc.WBulk? ==> s.flag && s.writer.conn == s.cur)
  {
    InitialInv();
    RunKeeps(INITIAL, steps);
  }

  predicate StepOf(owner: Owner, step: Step) {
    match owner
    case Free => step.ByReader?
    case ByReader => step.ByReader?
    case ByWriter => step.ByWriter?
    case ByCloser(id) => step.ByCloser? && step.id == id
    case BySetter(id) => step.BySetter? && step.id == id
  }

  /**
   * No lock cycle.  The owner of the mutex never waits for anything but the network, and when nobody
   * owns it the reader, who alone can close the flag, has a step.
   */
  lemma NoLockCycle(steps: seq<Step>) returns (step: Step)
    requires Possible(INITIAL, steps)
    ensures var s := Run(INITIAL, steps); Enabled(s, step) && StepOf(s.mutex, step)
  {
    InitialInv();
    RunKeeps(INITIAL, steps);
    var s := Run(INITIAL, steps);
    if s.mutex.Free? || s.mutex.ByReader? {
      var c := ReaderCanStep(s);
      step := Step.ByReader(c);
    } else if s.mutex.ByWriter? {
      var c := if s.writer.pc.WProvisional? then Accepts(0, true)
               else if s.writer.pc.WSetDeadline? then RetryDeadline(0) else Go;
      step := Step.ByWriter(c);
    } else if s.mutex.ByCloser? {
      step := Step.ByCloser(s.mutex.id, Go);
    } else {
      step := Step.BySetter(s.mutex.id, Go);
    }
  }

  lemma ReaderCanStep(s: State) returns (c: Choice)
    requires Inv(s) && (s.mutex.Free? || s.mutex.ByReader?)
    ensures Enabled(s, Step.ByReader(c))
  {
    var half := |s.hello| / 2;
    var splitLen := if |s.hello| <= 1 then 0 else Min(MIN_SPLIT, half);
    assert PossibleSplit(|s.hello|, splitLen);
    c :=
      match s.reader
      case RRead => ReadResult([], false)
      case RReadAgain => ReadResult([], false)
      case RDial => DialResult(true)
      case RReplayFirst => Split(splitLen, 0, true, s.hello)
      case RReplaySecond => Accepts(0, true)
      case _ => Go;
  }

  /** What stays as it is once the flag is closed, and what only grows. */
  predicate Settled(s: State, t: State)
    requires s.cur < |s.conns|
  {
    && t.flag && t.cur == s.cur && |t.conns| == |s.conns|
    && t.past.dials == s.past.dials && t.past.flagCloses == s.past.flagCloses
    && s.Conn().sent <= t.Conn().sent && s.past.accepted <= t.past.accepted
  }

  lemma OutsideSettled(s: State, c: Choice)
    requires ReaderEnabled(s, c) && s.flag && !ReaderHolds(s.reader) && !s.reader.RLock?
    ensures Settled(s, ReaderAfter(s, c))
  {
  }

  lemma FinishedSettled(s: State, c: Choice)
    requires ReaderEnabled(s, c) && s.flag && Finished(s.reader)
    ensures Settled(s, ReaderAfter(s, c))
  {
  }

  /** The writer's steps that are not writes to a connection. */
  lemma MoveSettled(s: State, c: Choice)
    requires WriterEnabled(s, c) && s.flag && !BeforeCompletion(s.writer.pc)
    requires !s.writer.pc.WResume? && !s.writer.pc.WFinal? && !s.writer.pc.WBulk?
    ensures Settled(s, WriterAfter(s, c))
  {
    var t := WriterAfter(s, c);
    assert t == s.(writer := t.writer, mutex := t.mutex);
  }

  lemma WriterSettled(s: State, c: Choice)
    requires WriterEnabled(s, c) && s.flag && !BeforeCompletion(s.writer.pc)
    requires HasLoaded(s.writer.pc) ==> s.writer.conn == s.cur
    ensures Settled(s, WriterAfter(s, c))
  {
    var w := s.writer;
    match w.pc
    case WResume => WroteSettled(s, w.b[w.n..], if c.Accepts? then c.n else 0);
    case WFinal => WroteSettled(s, w.b, c.n);
    case WBulk =>
      if c.Chunk? {
        WroteSettled(s, c.b, c.n);
      }
    case _ => MoveSettled(s, c);
  }

  lemma WroteSettled(s: State, b: seq<byte>, n: nat)
    requires s.cur < |s.conns| && s.flag && n <= |b|
    ensures Settled(s, Wrote(s, s.cur, b, n))
  {
  }

  lemma CloserSettled(s: State, id: nat, c: Choice)
    requires Phases(s) && s.flag && CloserEnabled(s, id, c)
    ensures Settled(s, CloserAfter(s, id, c))
  {
  }

  lemma SetterSettled(s: State, id: nat, c: Choice)
    requires Phases(s) && s.flag && SetterEnabled(s, id, c)
    ensures Settled(s, SetterAfter(s, id, c))
  {
  }

  lemma StepSettled(s: State, step: Step)
    requires Inv(s) && s.flag && Enabled(s, step)
    ensures Settled(s, After(s, step))
  {
    match step
    case ByReader(c) =>
      if ReaderHolds(s.reader) {
        FinishedSettled(s, c);
      } else {
        OutsideSettled(s, c);
      }
    case ByWriter(c) => WriterSettled(s, c);
    case ByCloser(id, c) => CloserSettled(s, id, c);
    case BySetter(id, c) => SetterSettled(s, id, c);
  }

  lemma {:induction false} RunSettled(s: State, steps: seq<Step>)
    requires Inv(s) && s.flag && Possible(s, steps)
    ensures Settled(s, Run(s, steps))
    decreases |steps|
  {
    if steps == [] {
    } else {
      StepSettled(s, steps[0]);
      StepKeeps(s, steps[0]);
      RunSettled(After(s, steps[0]), steps[1..]);
    }
  }

  /**
   * `conn` never changes once the flag is closed, so the uses without the mutex are sound: the
   * connection keeps its place, nobody dials again, and what it has accepted only grows.
   */
  lemma ConnFinalAfterCompletion(before: seq<Step>, later: seq<Step>)
    requires Possible(INITIAL, before) && Possible(Run(INITIAL, before), later)
    requires Run(INITIAL, before).flag
    ensures Run(INITIAL, before).cur < |Run(INITIAL, before).conns|
    ensures Settled(Run(INITIAL, before), Run(Run(INITIAL, before), later))
  {
    InitialInv();
    RunKeeps(INITIAL, before);
    RunSettled(Run(INITIAL, before), later);
  }

  /**
   * Half-closes survive the replacement of the connection: with no closer on its way and no failed
   * replay, the current connection has exactly the halves closed that the caller closed.  On a
   * retried connection the write half is closed only behind the whole hello.
   */
  lemma HalfCloseSurvives(steps: seq<Step>, half: Half)
    requires Possible(INITIAL, steps)
    ensures var s := Run(INITIAL, steps);
            && s.cur < |s.conns|
            && (s.mutex.Free? && !Pending(s.closers, half) && !s.past.replay.ReplayFailed? && !s.Conn().closed ==>
                  (s.Conn().IsShut(half) <==> CloseFlagOf(s, half)))
            && (s.cur == 1 && s.Conn().writeShut && !s.past.replay.ReplayFailed? ==>
                  && s.past.splitLen <= |s.past.original|
                  && Resent(s.past.original, s.past.splitLen) <= s.Conn().sent)
  {
    InitialInv();
    RunKeeps(INITIAL, steps);
    ExactlyOnceUpload(steps);
  }

  /** The retry timeout never outlives completion, and the caller's write deadline is in force. */
  lemma DeadlinesInForce(steps: seq<Step>)
    requires Possible(INITIAL, steps)
    ensures var s := Run(INITIAL, steps);
            && s.cur < |s.conns|
            && (s.flag && s.mutex.Free? ==>
                  && !s.Conn().readDeadline.Provisional?
                  && (s.Conn().closed || s.Conn().readDeadline == s.past.lastRead))
            && (s.mutex.Free? && !s.past.replay.ReplayFailed? ==>
                  s.Conn().closed || s.Conn().writeDeadline == s.writeDeadline)
  {
    InitialInv();
    RunKeeps(INITIAL, steps);
  }

  /**
   * The download comes from one connection: what Read has delivered is what the current connection
   * received, and nothing was received from a connection that was replaced.
   */
  lemma DeliveredFromOneConnection(steps: seq<Step>)
    requires Possible(INITIAL, steps)
    ensures var s := Run(INITIAL, steps);
            && s.cur < |s.conns| && s.past.delivered == s.Conn().received
            && forall i :: 0 <= i < |s.conns| && i != s.cur ==> s.conns[i].received == []
  {
    hide Locks, WriterKnows, Upload, HalfCloses, Deadlines;
    InitialInv();
    RunKeeps(INITIAL, steps);
  }

  // ----- A failed replay corrupts the upload -----

  /** `t` is reached from the beginning by some run. */
  ghost predicate Reachable(t: State) {
    exists steps :: Possible(INITIAL, steps) && Run(INITIAL, steps) == t
  }

  lemma {:induction false} RunThen(s: State, steps: seq<Step>, step: Step)
    requires Possible(s, steps) && Enabled(Run(s, steps), step)
    ensures Possible(s, steps + [step]) && Run(s, steps + [step]) == After(Run(s, steps), step)
    decreases |steps|
  {
    if steps == [] {
      assert Possible(After(s, step), []);
      assert (steps + [step])[1..] == [];
    } else {
      RunThen(After(s, steps[0]), steps[1..], step);
      assert (steps + [step])[1..] == steps[1..] + [step];
    }
  }

  lemma ReachableThen(s: State, step: Step) returns (t: State)
    requires Reachable(s) && Enabled(s, step)
    ensures t == After(s, step) && Reachable(t)
  {
    var steps :| Possible(INITIAL, steps) && Run(INITIAL, steps) == s;
    RunThen(INITIAL, steps, step);
    t := After(s, step);
  }

  const HELLO: seq<byte> := [1, 2, 3, 4]

  lemma InitialReachable()
    ensures Reachable(INITIAL)
  {
    assert Possible(INITIAL, []) && Run(INITIAL, []) == INITIAL;
  }

  /** Write(HELLO), up to the point where the provisional connection has accepted all of it. */
  lemma AfterFirstAccept() returns (s: State)
    ensures Reachable(s)
    ensures s.reader.RIdle? && s.hello == [] && s.cur == 0 && s.conns == [FRESH.(sent := HELLO)]
    ensures s.writer == Writer(WAppend, HELLO, 4, false, 0) && s.mutex.ByWriter? && !s.flag
    ensures s.past.accepted == HELLO && s.past.reported == []
  {
    hide Reachable;
    InitialReachable();
    s := ReachableThen(INITIAL, Step.ByWriter(CallWrite(HELLO)));
    s := ReachableThen(s, Step.ByWriter(Go));
    s := ReachableThen(s, Step.ByWriter(Go));
    s := ReachableThen(s, Step.ByWriter(Go));
    assert [] + HELLO[..4] == HELLO;
    s := ReachableThen(s, Step.ByWriter(Accepts(4, false)));
    assert s.conns[0].sent == [] + HELLO[..4];
  }

  /** The call returns. */
  lemma AfterFirstWrite() returns (s: State)
    ensures Reachable(s)
    ensures s.reader.RIdle? && s.hello == HELLO && s.cur == 0
    ensures s.conns == [FRESH.(sent := HELLO, readDeadline := Provisional(0))]
    ensures s.writer == IDLE && s.mutex == Free && !s.flag && s.past.accepted == s.past.reported == HELLO
  {
    hide Reachable;
    s := AfterFirstAccept();
    assert [] + HELLO[..4] == HELLO;
    s := ReachableThen(s, Step.ByWriter(Go));
    s := ReachableThen(s, Step.ByWriter(RetryDeadline(0)));
    s := ReachableThen(s, Step.ByWriter(Go));
  }

  /** The read fails and the server is dialled again. */
  lemma AfterRedial() returns (s: State)
    ensures Reachable(s)
    ensures s.reader.RReplayFirst? && s.hello == HELLO && s.cur == 1 && |s.conns| == 2 && s.conns[1] == FRESH
    ensures s.writer == IDLE && s.mutex.ByReader? && !s.flag && s.past.accepted == s.past.reported == HELLO
  {
    hide Reachable;
    s := AfterFirstWrite();
    s := ReachableThen(s, Step.ByReader(Go));
    s := ReachableThen(s, Step.ByReader(ReadResult([], true)));
    s := ReachableThen(s, Step.ByReader(Go));
    s := ReachableThen(s, Step.ByReader(Go));
    s := ReachableThen(s, Step.ByReader(Go));
    s := ReachableThen(s, Step.ByReader(DialResult(true)));
  }

  /** One octet of the replay is accepted. */
  lemma AfterPartialReplay() returns (s: State)
    ensures Reachable(s)
    ensures s.reader.RCloseFlag? && !s.flag && s.cur == 1 && |s.conns| == 2 && s.conns[1] == FRESH.(sent := [1])
    ensures s.writer == IDLE && s.mutex.ByReader? && s.past.replay.ReplayFailed?
    ensures s.past.accepted == s.past.reported == HELLO
  {
    hide Reachable;
    s := AfterRedial();
    assert 2 == Min(MIN_SPLIT, |HELLO| / 2) && First(HELLO, 2) == [1, 2];
    s := ReachableThen(s, Step.ByReader(Split(2, 1, true, HELLO)));
  }

  /** Read returns. */
  lemma AfterFailedReplay() returns (s: State)
    ensures Reachable(s)
    ensures s.flag && s.cur == 1 && |s.conns| == 2 && s.conns[1] == FRESH.(sent := [1])
    ensures s.writer == IDLE && s.mutex == Free && s.past.accepted == s.past.reported == HELLO
  {
    hide Reachable;
    s := AfterPartialReplay();
    s := ReachableThen(s, Step.ByReader(Go));
    s := ReachableThen(s, Step.ByReader(Go));
    s := ReachableThen(s, Step.ByReader(Go));
    s := ReachableThen(s, Step.ByReader(Go));
  }

  /**
   * After a replay that is cut short the new connection stays in use: four octets were reported as
   * written and one of them replayed, yet the next Write is accepted behind the gap.
   */
  lemma FailedReplayCorrupts() returns (s: State)
    ensures Reachable(s) && s.writer.pc.WIdle? && s.cur == 1 && |s.conns| == 2
    ensures s.past.reported == [1, 2, 3, 4, 5] && s.conns[1].sent == [1, 5] && !UploadIntact(s)
  {
    hide Reachable;
    s := AfterFailedReplay();
    s := ReachableThen(s, Step.ByWriter(CallWrite([5])));
    s := ReachableThen(s, Step.ByWriter(Go));
    s := ReachableThen(s, Step.ByWriter(Go));
    s := ReachableThen(s, Step.ByWriter(Accepts(1, false)));
  }
}
