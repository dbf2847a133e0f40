/** When the retrying connection retries, and which timers are set until then, over every run. */
module RetryOutcomes {
  import opened Bytes
  import opened TcpConns
  import opened TlsSplit
  import opened RetryProtocol
  import opened RetryInvariant
  import opened RetryTheorems

  /** The provisional phase ends, without another dial, only because something was received. */
  predicate Answered(s: State) {
    s.past.dials == 0 && (s.flag || Completing(s.reader)) ==> s.past.delivered != []
  }

  /** Between the calls of the writer the retry timeout runs as soon as there is something to replay. */
  predicate Timed(s: State) {
    && s.cur < |s.conns|
    && (!s.flag && s.hello != [] && !s.mutex.ByReader? && !s.writer.pc.WSetDeadline? ==>
          s.Conn().readDeadline.Provisional?)
  }

  /** When the new connection is read, the caller's deadlines are in force. */
  predicate Copied(s: State) {
    && s.cur < |s.conns|
    && (s.reader.RApplyWriteDeadline? || s.reader.RReadAgain? ==> s.Conn().readDeadline == s.readDeadline)
    && (s.reader.RReadAgain? ==> s.Conn().writeDeadline == s.writeDeadline)
  }

  predicate Outcomes(s: State) {
    Answered(s) && Timed(s) && Copied(s)
  }

  /** What Phases and Locks say about the reader, as far as it matters here. */
  predicate ReaderPlace(s: State) {
    && (s.mutex.ByReader? <==> ReaderHolds(s.reader))
    && (Finished(s.reader) ==> s.flag)
    && (Replaying(s.reader) || CopyingState(s.reader) ==> s.past.dials > 0 && s.cur < |s.conns| && !s.Conn().closed)
  }

  // ----- Steps of the reader -----

  lemma MoveOutcomes(s: State, c: Choice)
    requires ReaderPlace(s) && Outcomes(s) && ReaderEnabled(s, c)
    requires s.reader.RIdle? || s.reader.RTestFlag? || s.reader.RLock? || s.reader.RUnlock?
             || s.reader.RTestReadClosed? || s.reader.RTestWriteClosed?
    ensures Outcomes(ReaderAfter(s, c))
  {
    hide Redialled, FirstWritten, SecondWritten, Received;
    var t := ReaderAfter(s, c);
    assert t == s.(reader := t.reader, mutex := t.mutex);
  }

  lemma EndOutcomes(s: State, c: Choice)
    requires ReaderPlace(s) && Outcomes(s) && ReaderEnabled(s, c)
    requires s.reader.RCloseFlag? || s.reader.RUnsetDeadline? || s.reader.RClearHello?
    ensures Outcomes(ReaderAfter(s, c))
  {
    hide Redialled, FirstWritten, SecondWritten, Received;
  }

  lemma ReadOutcomes(s: State, c: Choice)
    requires ReaderPlace(s) && Outcomes(s) && ReaderEnabled(s, c)
    requires s.reader.RRead? || s.reader.RReadAgain?
    ensures Outcomes(ReaderAfter(s, c))
  {
    hide Redialled, FirstWritten, SecondWritten;
  }

  lemma RetryStepOutcomes(s: State, c: Choice)
    requires ReaderPlace(s) && Outcomes(s) && ReaderEnabled(s, c)
    requires s.reader.RCloseOld? || s.reader.RDial?
    ensures Outcomes(ReaderAfter(s, c))
  {
    hide FirstWritten, SecondWritten, Received;
  }

  lemma FirstWriteOutcomes(s: State, c: Choice)
    requires ReaderPlace(s) && Outcomes(s) && ReaderEnabled(s, c)
    requires s.reader.RReplayFirst?
    ensures Outcomes(ReaderAfter(s, c))
  {
    hide Redialled, Received, SecondWritten, PossibleSplit, FirstWrite, Second;
  }

  lemma SecondWriteOutcomes(s: State, c: Choice)
    requires ReaderPlace(s) && Outcomes(s) && ReaderEnabled(s, c)
    requires s.reader.RReplaySecond?
    ensures Outcomes(ReaderAfter(s, c))
  {
    hide Redialled, Received, FirstWritten, PossibleSplit, FirstWrite, Second;
  }

  lemma CopyOutcomes(s: State, c: Choice)
    requires ReaderPlace(s) && Outcomes(s) && ReaderEnabled(s, c)
    requires s.reader.RShutRead? || s.reader.RShutWrite?
             || s.reader.RApplyReadDeadline? || s.reader.RApplyWriteDeadline?
    ensures Outcomes(ReaderAfter(s, c))
  {
    hide Redialled, FirstWritten, SecondWritten, Received;
  }

  lemma ReaderOutcomes(s: State, c: Choice)
    requires ReaderPlace(s) && Outcomes(s) && ReaderEnabled(s, c)
    ensures Outcomes(ReaderAfter(s, c))
  {
    hide ReaderPlace, Outcomes, ReaderEnabled, ReaderAfter;
    if s.reader.RCloseFlag? || s.reader.RUnsetDeadline? || s.reader.RClearHello? {
      EndOutcomes(s, c);
    } else if s.reader.RRead? || s.reader.RReadAgain? {
      ReadOutcomes(s, c);
    } else if s.reader.RCloseOld? || s.reader.RDial? {
      RetryStepOutcomes(s, c);
    } else if s.reader.RReplayFirst? {
      FirstWriteOutcomes(s, c);
    } else if s.reader.RReplaySecond? {
      SecondWriteOutcomes(s, c);
    } else if s.reader.RShutRead? || s.reader.RShutWrite?
              || s.reader.RApplyReadDeadline? || s.reader.RApplyWriteDeadline? {
      CopyOutcomes(s, c);
    } else {
      MoveOutcomes(s, c);
    }
  }

  // ----- Steps of the others -----

  /** The writer does not hold the mutex together with the reader, and writes provisionally to an open connection. */
  predicate WriterPlace(s: State) {
    && (WriterHolds(s.writer.pc) ==> !s.mutex.ByReader? && !ReaderHolds(s.reader))
    && (BeforeCompletion(s.writer.pc) ==> s.cur < |s.conns| && !s.Conn().closed)
  }

  predicate Sends(pc: WriterPc) {
    pc.WProvisional? || pc.WResume? || pc.WFinal? || pc.WBulk?
  }

  predicate LocksOrUnlocks(pc: WriterPc) {
    pc.WLock? || pc.WUnlockUnattempted? || pc.WRelock? || pc.WUnlockAgain?
  }

  lemma WriterMoveOutcomes(s: State, c: Choice)
    requires WriterPlace(s) && Outcomes(s) && WriterEnabled(s, c) && !LocksOrUnlocks(s.writer.pc)
    requires !Sends(s.writer.pc) && !s.writer.pc.WAppend? && !s.writer.pc.WSetDeadline? && !s.writer.pc.WUnlock?
    ensures Outcomes(WriterAfter(s, c))
  {
    hide Wrote, Returned;
    var t := WriterAfter(s, c);
    assert t == s.(writer := t.writer);
  }

  lemma WriterLockOutcomes(s: State, c: Choice)
    requires WriterPlace(s) && Outcomes(s) && WriterEnabled(s, c) && LocksOrUnlocks(s.writer.pc)
    ensures Outcomes(WriterAfter(s, c))
  {
    hide Wrote, Returned;
    var t := WriterAfter(s, c);
    assert t == s.(writer := t.writer, mutex := t.mutex);
  }

  lemma RememberOutcomes(s: State, c: Choice)
    requires WriterPlace(s) && Outcomes(s) && WriterEnabled(s, c)
    requires s.writer.pc.WAppend? || s.writer.pc.WSetDeadline? || s.writer.pc.WUnlock?
    ensures Outcomes(WriterAfter(s, c))
  {
    hide Wrote;
  }

  lemma WroteOutcomes(s: State, i: nat, b: seq<byte>, n: nat)
    requires Outcomes(s) && i < |s.conns| && n <= |b| && !s.writer.pc.WSetDeadline?
    ensures Outcomes(Wrote(s, i, b, n)) && Wrote(s, i, b, n).writer == s.writer
  {
  }

  /** The writer's locals and its count do not matter. */
  lemma WriterLocals(s: State, w: Writer, past: History)
    requires Outcomes(s) && !s.writer.pc.WSetDeadline? && !w.pc.WSetDeadline?
    requires past == s.past.(reported := past.reported)
    ensures Outcomes(s.(writer := w, past := past))
  {
  }

  lemma SendOutcomes(s: State, c: Choice)
    requires Outcomes(s) && WriterEnabled(s, c) && Sends(s.writer.pc)
    ensures Outcomes(WriterAfter(s, c))
  {
    hide Outcomes, Wrote;
    var t, w := WriterAfter(s, c), s.writer;
    if w.pc.WProvisional? {
      WroteOutcomes(s, s.cur, w.b, c.n);
      WriterLocals(Wrote(s, s.cur, w.b, c.n), t.writer, t.past);
    } else if w.pc.WFinal? {
      WroteOutcomes(s, w.conn, w.b, c.n);
      WriterLocals(Wrote(s, w.conn, w.b, c.n), t.writer, t.past);
    } else if w.pc.WResume? && w.n < |w.b| {
      WroteOutcomes(s, w.conn, w.b[w.n..], c.n);
      WriterLocals(Wrote(s, w.conn, w.b[w.n..], c.n), t.writer, t.past);
    } else if w.pc.WBulk? && c.Chunk? {
      WroteOutcomes(s, w.conn, c.b, c.n);
      WriterLocals(Wrote(s, w.conn, c.b, c.n), t.writer, t.past);
    } else {
      WriterLocals(s, t.writer, t.past);
    }
  }

  lemma WriterOutcomes(s: State, c: Choice)
    requires WriterPlace(s) && Outcomes(s) && WriterEnabled(s, c)
    ensures Outcomes(WriterAfter(s, c))
  {
    hide WriterPlace, Outcomes, WriterEnabled, WriterAfter;
    if Sends(s.writer.pc) {
      SendOutcomes(s, c);
    } else if s.writer.pc.WAppend? || s.writer.pc.WSetDeadline? || s.writer.pc.WUnlock? {
      RememberOutcomes(s, c);
    } else if LocksOrUnlocks(s.writer.pc) {
      WriterLockOutcomes(s, c);
    } else {
      WriterMoveOutcomes(s, c);
    }
  }

  lemma CloserOutcomes(s: State, id: nat, c: Choice)
    requires Outcomes(s) && CloserEnabled(s, id, c) && (id in s.closers && !s.closers[id].CLock? ==> !s.mutex.ByReader?)
    ensures Outcomes(CloserAfter(s, id, c))
  {
    hide Outcomes;
    var t := CloserAfter(s, id, c);
    if id in s.closers && s.closers[id].CShut? {
      ShutOutcomes(s, s.closers[id].half, t.closers);
    } else {
      FlagsOutcomes(s, t);
    }
  }

  lemma ShutOutcomes(s: State, half: Half, closers: map<nat, CloserPc>)
    requires Outcomes(s) && s.cur < |s.conns|
    ensures Outcomes(s.With(s.Conn().Shut(half)).(closers := closers))
  {
  }

  /** Raised flags, the program points of closers and setters, and a mutex that is not the reader's do not matter. */
  lemma FlagsOutcomes(s: State, t: State)
    requires Outcomes(s) && (s.mutex.ByReader? <==> t.mutex.ByReader?)
    requires t == s.(readCloseFlag := t.readCloseFlag, writeCloseFlag := t.writeCloseFlag, closers := t.closers,
                     setters := t.setters, mutex := t.mutex)
    ensures Outcomes(t)
  {
  }

  lemma SetterOutcomes(s: State, id: nat, c: Choice)
    requires Outcomes(s) && SetterEnabled(s, id, c)
    requires id in s.setters && !s.setters[id].SLock? ==> !s.mutex.ByReader? && !ReaderHolds(s.reader)
    ensures Outcomes(SetterAfter(s, id, c))
  {
    hide Outcomes;
    var t := SetterAfter(s, id, c);
    if id in s.setters && s.setters[id].SStore? {
      StoredOutcomes(s, t);
    } else if id in s.setters && s.setters[id].SApply? {
      AppliedOutcomes(s, id, c);
    } else {
      FlagsOutcomes(s, t);
    }
  }

  lemma StoredOutcomes(s: State, t: State)
    requires Outcomes(s) && !ReaderHolds(s.reader)
    requires t == s.(readDeadline := t.readDeadline, writeDeadline := t.writeDeadline, setters := t.setters)
    ensures Outcomes(t)
  {
  }

  lemma AppliedOutcomes(s: State, id: nat, c: Choice)
    requires Outcomes(s) && SetterEnabled(s, id, c) && id in s.setters && s.setters[id].SApply?
    requires !ReaderHolds(s.reader)
    ensures Outcomes(SetterAfter(s, id, c))
  {
  }

  lemma Places(s: State)
    requires Locks(s) && Phases(s) && WriterKnows(s)
    ensures ReaderPlace(s) && WriterPlace(s)
    ensures forall id :: id in s.closers && !s.closers[id].CLock? ==> !s.mutex.ByReader?
    ensures forall id :: id in s.setters && !s.setters[id].SLock? ==> !s.mutex.ByReader? && !ReaderHolds(s.reader)
  {
  }

  lemma StepOutcomes(s: State, step: Step)
    requires Inv(s) && Outcomes(s) && Enabled(s, step)
    ensures Outcomes(After(s, step))
  {
    hide Outcomes, Locks, Phases, WriterKnows, Upload, HalfCloses, Deadlines, Download, ReaderEnabled, WriterEnabled,
         CloserEnabled, SetterEnabled, ReaderAfter, WriterAfter, CloserAfter, SetterAfter, ReaderPlace, WriterPlace;
    Places(s);
    match step
    case ByReader(c) => ReaderOutcomes(s, c);
    case ByWriter(c) => WriterOutcomes(s, c);
    case ByCloser(id, c) => CloserOutcomes(s, id, c);
    case BySetter(id, c) => SetterOutcomes(s, id, c);
  }

  lemma {:induction false} RunOutcomes(s: State, steps: seq<Step>)
    requires Inv(s) && Outcomes(s) && Possible(s, steps)
    ensures Outcomes(Run(s, steps))
    decreases |steps|
  {
    hide Inv, Enabled, After, Outcomes;
    if steps == [] {
    } else {
      StepOutcomes(s, steps[0]);
      StepKeeps(s, steps[0]);
      RunOutcomes(After(s, steps[0]), steps[1..]);
    }
  }

  /**
   * Retried unless answered: in every run the provisional phase ends without a second dial only if the
   * first connection delivered something, and the server is dialled again only if it delivered nothing.
   */
  lemma RetriedUnlessAnswered(steps: seq<Step>)
    requires Possible(INITIAL, steps)
    ensures var s := Run(INITIAL, steps);
            && |s.conns| >= 1 && s.past.dials <= 1
            && (s.flag && s.past.dials == 0 ==> s.conns[0].received != [])
            && (s.reader.RDial? || |s.conns| == 2 ==> s.conns[0].received == [])
  {
    hide Locks, WriterKnows, Upload, HalfCloses, Deadlines;
    InitialInv();
    RunKeeps(INITIAL, steps);
    RunOutcomes(INITIAL, steps);
  }

  /**
   * The timers of the provisional phase: with something to replay and no call at work on it, the retry timeout
   * runs; and the caller's deadlines are in force when a retry reads the new connection.
   */
  lemma TimersSet(steps: seq<Step>)
    requires Possible(INITIAL, steps)
    ensures var s := Run(INITIAL, steps);
            && s.cur < |s.conns|
            && (!s.flag && s.mutex.Free? && s.hello != [] ==>
                  s.Conn().readDeadline.Provisional? && !s.Conn().closed)
            && (s.reader.RReadAgain? ==>
                  s.Conn().readDeadline == s.readDeadline && s.Conn().writeDeadline == s.writeDeadline)
  {
    hide WriterKnows, Upload, HalfCloses, Deadlines, Download;
    InitialInv();
    RunKeeps(INITIAL, steps);
    RunOutcomes(INITIAL, steps);
  }
}
