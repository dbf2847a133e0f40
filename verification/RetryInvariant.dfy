/** What every step of the retrying connection keeps. */
module RetryInvariant {
  import opened Bytes
  import opened TcpConns
  import opened TlsSplit
  import opened RetryProtocol

  // ----- The mutex -----

  predicate ReaderHolds(pc: ReaderPc) {
    !(pc.RIdle? || pc.RRead? || pc.RTestFlag? || pc.RLock?)
  }

  predicate WriterHolds(pc: WriterPc) {
    || pc.WRetest? || pc.WProvisional? || pc.WAppend? || pc.WSetDeadline? || pc.WUnlock?
    || pc.WUnlockUnattempted? || pc.WLoadConn? || pc.WUnlockAgain?
  }

  ghost predicate CloserLocks(mutex: Owner, closers: map<nat, CloserPc>) {
    && (mutex.ByCloser? ==> mutex.id in closers && !closers[mutex.id].CLock?)
    && (forall id :: id in closers && !closers[id].CLock? ==> mutex == Owner.ByCloser(id))
  }

  ghost predicate SetterLocks(mutex: Owner, setters: map<nat, SetterPc>) {
    && (mutex.BySetter? ==> mutex.id in setters && !setters[mutex.id].SLock?)
    && (forall id :: id in setters && !setters[id].SLock? ==> mutex == Owner.BySetter(id))
  }

  ghost predicate LocksOf(mutex: Owner, reader: bool, writer: bool, closers: map<nat, CloserPc>,
                          setters: map<nat, SetterPc>) {
    && (mutex.ByReader? <==> reader)
    && (mutex.ByWriter? <==> writer)
    && CloserLocks(mutex, closers)
    && SetterLocks(mutex, setters)
  }

  /** Whoever is between Lock and Unlock owns the mutex, and nobody else does. */
  ghost predicate Locks(s: State) {
    LocksOf(s.mutex, ReaderHolds(s.reader), WriterHolds(s.writer.pc), s.closers, s.setters)
  }

  // ----- The phases of a retry -----

  predicate Replaying(pc: ReaderPc) {
    pc.RReplayFirst? || pc.RReplaySecond?
  }

  predicate CopyingState(pc: ReaderPc) {
    || pc.RTestReadClosed? || pc.RShutRead? || pc.RTestWriteClosed? || pc.RShutWrite?
    || pc.RApplyReadDeadline? || pc.RApplyWriteDeadline? || pc.RReadAgain?
  }

  predicate Finished(pc: ReaderPc) {
    pc.RUnsetDeadline? || pc.RClearHello? || pc.RUnlock?
  }

  /** The reader's program point, the flag, the number of connections and the dial count agree. */
  predicate Phases(s: State) {
    var replay := s.past.replay;
    && 1 <= |s.conns| <= 2 && s.cur == |s.conns| - 1
    && (|s.conns| == 2 <==> replay.InProgress? || replay.ReplayFailed? || replay.Replayed?)
    && s.past.dials == (if replay.NoRetry? || replay.Dialling? then 0 else 1)
    && s.past.flagCloses == (if s.flag then 1 else 0)
    && (s.conns[0].closed <==> !replay.NoRetry?)
    && (|s.conns| == 2 ==> !s.conns[1].closed)
    && (replay.InProgress? <==> Replaying(s.reader))
    && (replay.Dialling? <==> s.reader.RDial?)
    && (CopyingState(s.reader) ==> replay.Replayed?)
    && (s.reader.RLock? || s.reader.RCloseOld? ==> replay.NoRetry?)
    && (s.flag ==> !s.reader.RLock? && (ReaderHolds(s.reader) ==> Finished(s.reader)))
    && (Finished(s.reader) ==> s.flag)
    && (!s.flag && !ReaderHolds(s.reader) ==> replay.NoRetry?)
  }

  // ----- What the writer knows -----

  /** The writer is in a provisional write, which only happens before completion. */
  predicate BeforeCompletion(pc: WriterPc) {
    pc.WProvisional? || pc.WAppend? || pc.WSetDeadline? || pc.WUnlock?
  }

  predicate AfterCompletion(pc: WriterPc) {
    || pc.WUnlockUnattempted? || pc.WRelock? || pc.WLoadConn? || pc.WUnlockAgain? || pc.WResume?
    || pc.WLoadFinal? || pc.WFinal? || pc.WLoadForBulk? || pc.WBulk?
  }

  /** The connection the writer has loaded, also when it no longer holds the mutex. */
  predicate HasLoaded(pc: WriterPc) {
    pc.WUnlockAgain? || pc.WResume? || pc.WFinal? || pc.WBulk?
  }

  predicate NothingAccepted(pc: WriterPc) {
    || pc.WIdle? || pc.WTestFlag? || pc.WLock? || pc.WRetest? || pc.WProvisional? || pc.WUnlockUnattempted?
    || pc.WLoadFinal? || pc.WFinal? || pc.WTestForBulk? || pc.WLoadForBulk? || pc.WBulk?
  }

  predicate WriterKnows(s: State) {
    var w := s.writer;
    && w.n <= |w.b|
    && (BeforeCompletion(w.pc) ==> !s.flag)
    && (AfterCompletion(w.pc) ==> s.flag)
    && w.conn < |s.conns|
    && (HasLoaded(w.pc) ==> w.conn == s.cur)
    && (NothingAccepted(w.pc) ==> w.n == 0)
    && s.past.accepted == s.past.reported + w.Progress()
  }

  // ----- The upload -----

  /** Octets accepted by the provisional connection that are not yet in `hello`. */
  function NotYetAppended(w: Writer): seq<byte> {
    if w.pc.WAppend? then w.Progress() else []
  }

  predicate HelloContents(s: State) {
    && (!s.flag && (|s.conns| == 1 || s.reader.RReplayFirst?) ==>
          s.hello + NotYetAppended(s.writer) == s.past.accepted)
    && (s.flag && !s.reader.RUnsetDeadline? && !s.reader.RClearHello? ==> s.hello == [])
  }

  /** The replay followed by what was accepted after it. */
  predicate Carried(s: State) {
    var h := s.past;
    if |s.conns| < 2 then
      |s.conns| == 1 && s.conns[0].sent == h.accepted
    else
      && h.original <= h.accepted
      && s.conns[0].sent == h.original
      && h.splitLen <= |h.original|
      && h.replayed <= |Resent(h.original, h.splitLen)|
      && s.conns[1].sent == Resent(h.original, h.splitLen)[..h.replayed] + h.accepted[|h.original|..]
      && (!s.flag ==> h.accepted == h.original)
      && (s.reader.RReplayFirst? ==> h.replayed == 0)
      && (s.reader.RReplaySecond? ==> h.replayed == |First(h.original, h.splitLen)|)
      && (!s.reader.RReplayFirst? ==> PossibleSplit(|h.original|, h.splitLen))
      && (h.replay.Replayed? ==> h.replayed == |Resent(h.original, h.splitLen)|)
  }

  predicate Upload(s: State) {
    HelloContents(s) && Carried(s)
  }

  // ----- Half-closes -----

  predicate CloseFlagOf(s: State, half: Half) {
    if half.ReadHalf? then s.readCloseFlag else s.writeCloseFlag
  }

  predicate IsPending(closers: map<nat, CloserPc>, id: nat, half: Half) {
    id in closers && (closers[id] == CLock(half) || closers[id] == CShut(half))
  }

  /** Some closer has raised the flag and not yet closed the half. */
  ghost predicate Pending(closers: map<nat, CloserPc>, half: Half) {
    exists id :: IsPending(closers, id, half)
  }

  /** The retry has yet to copy the half-close to the new connection. */
  predicate WillCopy(pc: ReaderPc, half: Half) {
    || Replaying(pc) || pc.RTestReadClosed? || pc.RShutRead?
    || (half.WriteHalf? && (pc.RTestWriteClosed? || pc.RShutWrite?))
  }

  ghost predicate HalfClosed(s: State, half: Half)
    requires s.cur < |s.conns|
  {
    && (CloseFlagOf(s, half) && !Pending(s.closers, half) && !s.past.replay.ReplayFailed?
        && !WillCopy(s.reader, half) ==>
          s.Conn().IsShut(half))
    && (s.Conn().IsShut(half) && !s.Conn().closed ==> CloseFlagOf(s, half))
    && (Pending(s.closers, half) ==> CloseFlagOf(s, half))
    && (half.ReadHalf? && s.reader.RShutRead? ==> CloseFlagOf(s, half))
    && (half.WriteHalf? && s.reader.RShutWrite? ==> CloseFlagOf(s, half))
  }

  ghost predicate HalfCloses(s: State) {
    && s.cur < |s.conns|
    && HalfClosed(s, ReadHalf) && HalfClosed(s, WriteHalf)
    && (Replaying(s.reader) ==> !s.Conn().writeShut)
  }

  // ----- Deadlines -----

  predicate BeforeWriteDeadline(pc: ReaderPc) {
    Replaying(pc) || (CopyingState(pc) && !pc.RReadAgain?)
  }

  ghost predicate CallerDeadlines(setters: map<nat, SetterPc>) {
    forall id :: id in setters && !setters[id].SUnlock? ==> !setters[id].d.Provisional?
  }

  /** The setter that owns the mutex has stored its deadline and not yet applied it. */
  predicate Applying(s: State, half: Half) {
    && s.mutex.BySetter? && s.mutex.id in s.setters
    && s.setters[s.mutex.id].SApply? && s.setters[s.mutex.id].half == half
  }

  predicate ReadDeadlines(s: State) {
    && s.cur < |s.conns|
    && !s.readDeadline.Provisional? && !s.past.lastRead.Provisional?
    && (s.flag && !s.reader.RUnsetDeadline? ==> s.Conn().closed || s.Conn().readDeadline == s.past.lastRead)
    && (s.Conn().closed ==> s.Conn().readDeadline.Unset?)
  }

  predicate WriteDeadlines(s: State) {
    && s.cur < |s.conns|
    && !s.writeDeadline.Provisional?
    && (Applying(s, WriteHalf) ==> s.setters[s.mutex.id].d == s.writeDeadline)
    && (!s.past.replay.ReplayFailed? && !BeforeWriteDeadline(s.reader) && !Applying(s, WriteHalf) ==>
          s.Conn().closed || s.Conn().writeDeadline == s.writeDeadline)
  }

  ghost predicate Deadlines(s: State) {
    CallerDeadlines(s.setters) && ReadDeadlines(s) && WriteDeadlines(s)
  }

  // ----- The download -----

  /** Octets have been read and the provisional phase is not over: no retry can follow. */
  predicate Completing(pc: ReaderPc) {
    (pc.RTestFlag? && !pc.failed) || (pc.RLock? && !pc.failed) || pc.RCloseFlag?
  }

  /** Read has delivered what the current connection received, and nothing of a connection that was replaced. */
  predicate Download(s: State) {
    && s.cur < |s.conns| && s.past.delivered == s.Conn().received
    && (|s.conns| == 2 ==> s.conns[0].received == [])
    && (s.past.delivered != [] ==> s.flag || Completing(s.reader))
  }

  ghost predicate Inv(s: State) {
    Locks(s) && Phases(s) && WriterKnows(s) && Upload(s) && HalfCloses(s) && Deadlines(s) && Download(s)
  }

  lemma InitialInv()
    ensures Inv(INITIAL)
  {
  }

  // ----- What steps leave alone -----

  /** The same connections, with the same octets accepted. */
  predicate SameOctets(s: State, t: State) {
    && t.cur == s.cur && |t.conns| == |s.conns|
    && (forall i :: 0 <= i < |s.conns| ==> t.conns[i].sent == s.conns[i].sent)
    && t.past.accepted == s.past.accepted && t.past.original == s.past.original
    && t.past.splitLen == s.past.splitLen && t.past.replayed == s.past.replayed
    && (|s.conns| >= 2 ==> t.past.replay == s.past.replay)
  }

  lemma CarriedFrame(s: State, t: State)
    requires Carried(s) && SameOctets(s, t) && (s.flag ==> t.flag)
    requires t.reader == s.reader || (!Replaying(s.reader) && !Replaying(t.reader))
    ensures Carried(t)
  {
    hide First, Second, Resent, SplitsRecord, PossibleSplit;
  }

  /** Half-closes and the points at which they are copied. */
  predicate SameHalves(s: State, t: State) {
    && t.cur == s.cur && s.cur < |s.conns| && s.cur < |t.conns|
    && t.Conn().readShut == s.Conn().readShut && t.Conn().writeShut == s.Conn().writeShut
    && t.Conn().closed == s.Conn().closed
    && t.readCloseFlag == s.readCloseFlag && t.writeCloseFlag == s.writeCloseFlag
    && t.closers == s.closers && t.past.replay == s.past.replay
  }

  predicate CopyingHalves(pc: ReaderPc) {
    pc.RTestReadClosed? || pc.RShutRead? || pc.RTestWriteClosed? || pc.RShutWrite?
  }

  lemma HalfClosesFrame(s: State, t: State)
    requires HalfCloses(s) && SameHalves(s, t)
    requires || t.reader == s.reader
             || (!CopyingHalves(s.reader) && !CopyingHalves(t.reader) && !Replaying(s.reader) && !Replaying(t.reader))
    ensures HalfCloses(t)
  {
    hide Pending;
  }

  predicate SameDeadlines(s: State, t: State) {
    && t.cur == s.cur && s.cur < |s.conns| && s.cur < |t.conns|
    && t.Conn().readDeadline == s.Conn().readDeadline && t.Conn().writeDeadline == s.Conn().writeDeadline
    && t.Conn().closed == s.Conn().closed
    && t.readDeadline == s.readDeadline && t.writeDeadline == s.writeDeadline
    && t.setters == s.setters && t.past.replay == s.past.replay && t.past.lastRead == s.past.lastRead
  }

  /** Whoever moves, no setter is about to apply a deadline unless it was before. */
  predicate SameApplying(s: State, t: State) {
    t.mutex == s.mutex || (!s.mutex.BySetter? && !t.mutex.BySetter?)
  }

  lemma DeadlinesFrame(s: State, t: State)
    requires Deadlines(s) && SameDeadlines(s, t) && SameApplying(s, t)
    requires t.flag && !t.reader.RUnsetDeadline? ==> s.flag && !s.reader.RUnsetDeadline?
    requires BeforeWriteDeadline(s.reader) ==> BeforeWriteDeadline(t.reader)
    ensures Deadlines(t)
  {
    hide CallerDeadlines;
  }

  /** What no closer or setter touches: everything but half-closes, deadlines and the mutex. */
  predicate SameUpload(s: State, t: State) {
    && t.reader == s.reader && t.writer == s.writer && t.flag == s.flag && t.hello == s.hello
    && t.cur == s.cur && |t.conns| == |s.conns| && t.past == s.past.(lastRead := t.past.lastRead)
    && (forall i :: 0 <= i < |s.conns| ==>
          t.conns[i].sent == s.conns[i].sent && t.conns[i].closed == s.conns[i].closed
          && t.conns[i].received == s.conns[i].received)
  }

  lemma SameUploadKeeps(s: State, t: State)
    requires SameUpload(s, t) && Phases(s) && WriterKnows(s) && Upload(s) && Download(s)
    ensures Phases(t) && WriterKnows(t) && Upload(t) && Download(t)
  {
    hide Carried;
    CarriedFrame(s, t);
  }

  /** As long as no closer or setter owns the mutex, none is inside it. */
  lemma NoneInside(mutex: Owner, next: Owner, closers: map<nat, CloserPc>, setters: map<nat, SetterPc>)
    requires CloserLocks(mutex, closers) && SetterLocks(mutex, setters) && !mutex.ByCloser? && !mutex.BySetter?
    requires !next.ByCloser? && !next.BySetter?
    ensures CloserLocks(next, closers) && SetterLocks(next, setters)
  {
  }

  /** The mutex passes between the reader, the writer and nobody. */
  lemma LocksPass(s: State, t: State)
    requires Locks(s) && !s.mutex.ByCloser? && !s.mutex.BySetter? && t.closers == s.closers && t.setters == s.setters
    requires t.mutex == (if ReaderHolds(t.reader) then Owner.ByReader
                         else if WriterHolds(t.writer.pc) then Owner.ByWriter
                         else Free)
    requires !ReaderHolds(t.reader) || !WriterHolds(t.writer.pc)
    ensures Locks(t)
  {
    NoneInside(s.mutex, t.mutex, s.closers, s.setters);
  }

  // ----- Steps of the reader -----

  /** Between two points outside the mutex, with nothing else changed but perhaps octets received. */
  lemma OutsideMoves(s: State, t: State)
    requires Inv(s) && !ReaderHolds(s.reader) && !ReaderHolds(t.reader) && !s.reader.RLock?
    requires t == s.(reader := t.reader) && (t.reader.RLock? ==> !s.flag)
    requires s.past.delivered != [] ==> s.flag || Completing(t.reader)
    ensures Inv(t)
  {
    hide Carried, HalfCloses, Deadlines, LocksOf;
    CarriedFrame(s, t);
    HalfClosesFrame(s, t);
    DeadlinesFrame(s, t);
  }

  /** Octets arrive at the current connection; only the download looks at them. */
  lemma ReceiveMoves(s: State, data: seq<byte>)
    requires Inv(s) && s.cur < |s.conns|
    ensures var t := Received(s, data);
            && Locks(t) && Phases(t) && WriterKnows(t) && Upload(t) && HalfCloses(t) && Deadlines(t)
            && t.past.delivered == t.Conn().received && (|t.conns| == 2 ==> t.conns[0].received == [])
  {
    hide Carried, HalfCloses, Deadlines, LocksOf;
    var t := Received(s, data);
    CarriedFrame(s, t);
    HalfClosesFrame(s, t);
    DeadlinesFrame(s, t);
  }

  lemma CallReadKeeps(s: State, c: Choice)
    requires Inv(s) && ReaderEnabled(s, c)
    requires s.reader.RIdle? || s.reader.RTestFlag?
    ensures Inv(ReaderAfter(s, c))
  {
    hide Redialled, FirstWritten, SecondWritten, Received, Locks, Phases, WriterKnows, Upload, HalfCloses, Deadlines;
    OutsideMoves(s, ReaderAfter(s, c));
  }

  /** From here on a read that brought octets leads to the end of the provisional phase. */
  lemma ReadResultKeeps(s: State, c: Choice)
    requires Inv(s) && ReaderEnabled(s, c)
    requires s.reader.RRead?
    ensures Inv(ReaderAfter(s, c))
  {
    hide Redialled, FirstWritten, SecondWritten, Carried, HalfCloses, Deadlines, LocksOf;
    ReceiveMoves(s, c.data);
    var r, t := Received(s, c.data), ReaderAfter(s, c);
    CarriedFrame(r, t);
    HalfClosesFrame(r, t);
    DeadlinesFrame(r, t);
  }

  /** Lock and Unlock. */
  lemma ReaderLockKeeps(s: State, c: Choice)
    requires Inv(s) && ReaderEnabled(s, c)
    requires s.reader.RLock? || s.reader.RUnlock?
    ensures Inv(ReaderAfter(s, c))
  {
    hide Redialled, FirstWritten, SecondWritten, Received, Carried, HalfCloses, Deadlines, CloserLocks, SetterLocks;
    var t := ReaderAfter(s, c);
    LocksPass(s, t);
    CarriedFrame(s, t);
    HalfClosesFrame(s, t);
    DeadlinesFrame(s, t);
  }

  lemma CloseOldKeeps(s: State, c: Choice)
    requires Inv(s) && ReaderEnabled(s, c)
    requires s.reader.RCloseOld?
    ensures Inv(ReaderAfter(s, c))
  {
    hide Redialled, FirstWritten, SecondWritten, Received, Carried, HalfCloses, Deadlines, LocksOf;
    CarriedFrame(s, ReaderAfter(s, c));
    CloseOldConn(s, c);
  }

  lemma CloseOldConn(s: State, c: Choice)
    requires HalfCloses(s) && Deadlines(s) && ReaderEnabled(s, c) && s.reader.RCloseOld? && !s.flag
             && s.past.replay.NoRetry?
    ensures HalfCloses(ReaderAfter(s, c)) && Deadlines(ReaderAfter(s, c))
  {
    hide Redialled, FirstWritten, SecondWritten, Received, Pending, CallerDeadlines;
  }

  lemma DialKeeps(s: State, c: Choice)
    requires Inv(s) && ReaderEnabled(s, c)
    requires s.reader.RDial?
    ensures Inv(ReaderAfter(s, c))
  {
    hide Upload, HalfCloses, Deadlines, Locks, Phases, WriterKnows, Download, Redialled, FirstWritten, SecondWritten,
         Received;
    DialOthers(s, c.ok);
    DialUpload(s, c.ok);
    DialHalfCloses(s, c.ok);
    DialDeadlines(s, c.ok);
  }

  lemma DialOthers(s: State, ok: bool)
    requires Locks(s) && Phases(s) && WriterKnows(s) && Download(s) && s.reader.RDial?
    ensures var t := Redialled(s, ok); Locks(t) && Phases(t) && WriterKnows(t) && Download(t)
  {
    hide LocksOf;
  }

  lemma DialUpload(s: State, ok: bool)
    requires Locks(s) && Phases(s) && Upload(s) && s.reader.RDial?
    ensures Upload(Redialled(s, ok))
  {
    hide CloserLocks, SetterLocks, First, Second, SplitsRecord;
    var t := Redialled(s, ok);
    assert s.hello == s.past.accepted;
    if ok {
      assert t.conns == [s.conns[0], FRESH];
      assert t.past.accepted[|t.past.original|..] == [];
    }
  }

  lemma DialHalfCloses(s: State, ok: bool)
    requires Phases(s) && HalfCloses(s) && s.reader.RDial?
    ensures HalfCloses(Redialled(s, ok))
  {
    hide Pending;
  }

  lemma DialDeadlines(s: State, ok: bool)
    requires Locks(s) && Phases(s) && Deadlines(s) && s.reader.RDial?
    ensures Deadlines(Redialled(s, ok))
  {
    hide CallerDeadlines, CloserLocks, SetterLocks;
  }

  /** What the replay does besides sending: it goes on, ends, or fails. */
  predicate ReplayMoves(s: State, t: State) {
    && s.cur < |s.conns| && t == s.(conns := t.conns, hello := t.hello, reader := t.reader, past := t.past)
    && |t.conns| == |s.conns| && t.conns[s.cur] == s.conns[s.cur].(sent := t.conns[s.cur].sent)
    && (forall i :: 0 <= i < |s.conns| && i != s.cur ==> t.conns[i] == s.conns[i])
    && t.past == s.past.(replay := t.past.replay, splitLen := t.past.splitLen, replayed := t.past.replayed)
    && (|| (t.reader.RReplaySecond? && t.past.replay == s.past.replay)
        || (t.reader.RCloseFlag? && t.past.replay.ReplayFailed?)
        || (t.reader.RTestReadClosed? && t.past.replay.Replayed?))
  }

  lemma FirstMoves(s: State, splitLen: nat, n: nat, failed: bool, scratch: seq<byte>)
    requires s.cur < |s.conns| && PossibleSplit(|s.hello|, splitLen) && n <= |FirstWrite(s.hello, splitLen)|
    requires s.reader.RReplayFirst?
    ensures ReplayMoves(s, FirstWritten(s, splitLen, n, failed, scratch))
  {
    hide FirstWrite, First, PossibleSplit;
  }

  lemma SecondMoves(s: State, n: nat, failed: bool)
    requires s.cur < |s.conns| && s.past.splitLen <= |s.past.original|
             && n <= |Second(s.past.original, s.past.splitLen)|
    ensures ReplayMoves(s, SecondWritten(s, n, failed))
  {
    hide Second;
  }

  /** The two writes of splitHello. */
  lemma ReplayFirstKeeps(s: State, c: Choice)
    requires Inv(s) && ReaderEnabled(s, c)
    requires s.reader.RReplayFirst?
    ensures Inv(ReaderAfter(s, c))
  {
    hide Upload, HalfCloses, Deadlines, Locks, Phases, WriterKnows, Download, Redialled, FirstWritten, SecondWritten,
         Received;
    hide FirstWrite, ReplayMoves, PossibleSplit;
    var t := FirstWritten(s, c.splitLen, c.n, c.failed, c.scratch);
    FirstMoves(s, c.splitLen, c.n, c.failed, c.scratch);
    WriterNotAppending(s);
    ReplayFirstCarried(s, c.splitLen, c.n, c.failed, c.scratch);
    ReplayOthers(s, t);
    ReplayHalfCloses(s, t);
    ReplayDeadlines(s, t);
  }

  lemma ReplaySecondKeeps(s: State, c: Choice)
    requires Inv(s) && ReaderEnabled(s, c)
    requires s.reader.RReplaySecond?
    ensures Inv(ReaderAfter(s, c))
  {
    hide Upload, HalfCloses, Deadlines, Locks, Phases, WriterKnows, Download, Redialled, FirstWritten, SecondWritten,
         Received;
    hide Second, ReplayMoves;
    var t := SecondWritten(s, c.n, c.failed);
    SecondMoves(s, c.n, c.failed);
    ReplaySecondCarried(s, c.n, c.failed);
    ReplayOthers(s, t);
    ReplayHalfCloses(s, t);
    ReplayDeadlines(s, t);
  }

  lemma ReplayOthers(s: State, t: State)
    requires Locks(s) && Phases(s) && WriterKnows(s) && Download(s) && Replaying(s.reader) && ReplayMoves(s, t)
    ensures Locks(t) && Phases(t) && WriterKnows(t) && Download(t)
  {
    hide LocksOf;
  }

  /** The reader holds the mutex, so the writer is not between its write and the append. */
  lemma WriterNotAppending(s: State)
    requires Locks(s) && ReaderHolds(s.reader)
    ensures NotYetAppended(s.writer) == []
  {
    hide CloserLocks, SetterLocks;
  }

  lemma ReplayHalfCloses(s: State, t: State)
    requires HalfCloses(s) && Replaying(s.reader) && ReplayMoves(s, t)
    ensures HalfCloses(t)
  {
    hide Pending;
  }

  lemma ReplayDeadlines(s: State, t: State)
    requires Deadlines(s) && Replaying(s.reader) && ReplayMoves(s, t)
    ensures Deadlines(t)
  {
    hide CallerDeadlines;
  }

  /** The first write of a replay; from here on the contents of hello are arbitrary. */
  lemma ReplayFirstCarried(s: State, splitLen: nat, n: nat, failed: bool, scratch: seq<byte>)
    requires Phases(s) && Upload(s) && s.reader.RReplayFirst? && NotYetAppended(s.writer) == []
    requires PossibleSplit(|s.hello|, splitLen) && n <= |FirstWrite(s.hello, splitLen)|
    requires !failed ==> n == |FirstWrite(s.hello, splitLen)|
    ensures Upload(FirstWritten(s, splitLen, n, failed, scratch))
  {
    hide First, Second, SplitsRecord, PossibleSplit, Resent, FirstWrite, NotYetAppended;
    var h, t := s.past, FirstWritten(s, splitLen, n, failed, scratch);
    assert s.hello + [] == s.hello;
    assert h.accepted[|h.original|..] == [];
    NothingReplayed(s.conns[1].sent, h.original, h.splitLen);
    FirstWriteIsPrefix(h.original, splitLen, n);
    assert t.conns[1].sent == [] + FirstWrite(h.original, splitLen)[..n] == Resent(h.original, splitLen)[..n] + [];
  }

  lemma NothingReplayed(sent: seq<byte>, hello: seq<byte>, splitLen: nat)
    requires splitLen <= |hello| && sent == Resent(hello, splitLen)[..0] + []
    ensures sent == []
  {
  }

  lemma FirstWriteIsPrefix(hello: seq<byte>, splitLen: nat, n: nat)
    requires PossibleSplit(|hello|, splitLen) && n <= |FirstWrite(hello, splitLen)|
    ensures splitLen <= |hello| && n <= |Resent(hello, splitLen)|
    ensures FirstWrite(hello, splitLen)[..n] == Resent(hello, splitLen)[..n]
    ensures |hello| <= 1 ==> |Resent(hello, splitLen)| == |hello| == |FirstWrite(hello, splitLen)|
    ensures |hello| > 1 ==> FirstWrite(hello, splitLen) == First(hello, splitLen)
  {
    if |hello| <= 1 {
      PlainResent(hello, splitLen);
    } else {
      ResentPrefix(hello, splitLen, n);
    }
  }

  /** The second write continues where the first ended. */
  lemma ReplaySecondCarried(s: State, n: nat, failed: bool)
    requires Phases(s) && Upload(s) && s.reader.RReplaySecond?
    requires s.past.splitLen <= |s.past.original| && n <= |Second(s.past.original, s.past.splitLen)|
    requires !failed ==> n == |Second(s.past.original, s.past.splitLen)|
    ensures Upload(SecondWritten(s, n, failed))
  {
    hide First, Second, SplitsRecord, PossibleSplit, Resent, NotYetAppended;
    var h, t := s.past, SecondWritten(s, n, failed);
    assert h.accepted[|h.original|..] == [];
    SecondContinues(h.original, h.splitLen, n);
    assert s.conns[1].sent == First(h.original, h.splitLen);
    assert t.conns[1].sent == Resent(h.original, h.splitLen)[..h.replayed + n] + [];
  }

  lemma SecondContinues(hello: seq<byte>, splitLen: nat, n: nat)
    requires splitLen <= |hello| && n <= |Second(hello, splitLen)|
    ensures var first, all := First(hello, splitLen), Resent(hello, splitLen);
            && |first| + n <= |all| && |all| == |first| + |Second(hello, splitLen)|
            && all[..|first|] + [] == first
            && first + Second(hello, splitLen)[..n] == all[..|first| + n]
  {
    hide First, Second, SplitsRecord;
  }

  /** Only settings of the current connection change while they are copied. */
  predicate CopyMoves(s: State, t: State) {
    && s.cur < |s.conns| && t == s.(conns := t.conns, reader := t.reader)
    && |t.conns| == |s.conns| && (forall i :: 0 <= i < |s.conns| && i != s.cur ==> t.conns[i] == s.conns[i])
    && t.conns[s.cur] == s.conns[s.cur].(readShut := t.conns[s.cur].readShut, writeShut := t.conns[s.cur].writeShut,
                                         readDeadline := t.conns[s.cur].readDeadline,
                                         writeDeadline := t.conns[s.cur].writeDeadline)
    && ReaderHolds(t.reader) && !Replaying(t.reader) && !t.reader.RDial? && !Finished(t.reader)
    && !t.reader.RCloseOld?
  }

  lemma CopyOthers(s: State, t: State)
    requires Locks(s) && Phases(s) && WriterKnows(s) && Upload(s) && Download(s) && CopyingState(s.reader)
             && CopyMoves(s, t)
    ensures Locks(t) && Phases(t) && WriterKnows(t) && Upload(t) && Download(t)
  {
    hide LocksOf, Carried;
    CarriedFrame(s, t);
  }

  /** The caller's half-closes are copied to the new connection. */
  lemma CopyHalvesKeeps(s: State, c: Choice)
    requires Inv(s) && ReaderEnabled(s, c)
    requires CopyingHalves(s.reader)
    ensures Inv(ReaderAfter(s, c))
  {
    hide Carried, HalfCloses, Deadlines, Locks, Phases, WriterKnows, Upload, Download, ReaderAfter;
    var t := ReaderAfter(s, c);
    CopyHalvesMoves(s, c);
    CopyOthers(s, t);
    CopyHalvesHalfCloses(s, c);
    DeadlinesFrame(s, t);
  }

  lemma CopyHalvesMoves(s: State, c: Choice)
    requires ReaderEnabled(s, c) && CopyingHalves(s.reader)
    ensures var t := ReaderAfter(s, c);
            CopyMoves(s, t) && SameDeadlines(s, t) && (CopyingHalves(t.reader) || t.reader.RApplyReadDeadline?)
  {
    hide Redialled, FirstWritten, SecondWritten, Received, CopyMoves, SameDeadlines;
    var t := ReaderAfter(s, c);
    if s.reader.RShutRead? {
      ShutMoves(s, t, ReadHalf);
    } else if s.reader.RShutWrite? {
      ShutMoves(s, t, WriteHalf);
    } else {
      TestMoves(s, t);
    }
  }

  lemma TestMoves(s: State, t: State)
    requires s.cur < |s.conns| && t == s.(reader := t.reader)
             && (CopyingHalves(t.reader) || t.reader.RApplyReadDeadline?)
    ensures CopyMoves(s, t) && SameDeadlines(s, t)
  {
  }

  lemma ShutMoves(s: State, t: State, half: Half)
    requires s.cur < |s.conns| && t == s.With(s.Conn().Shut(half)).(reader := t.reader)
    requires CopyingHalves(t.reader) || t.reader.RApplyReadDeadline?
    ensures CopyMoves(s, t) && SameDeadlines(s, t)
  {
  }

  lemma CopyHalvesHalfCloses(s: State, c: Choice)
    requires Phases(s) && HalfCloses(s) && ReaderEnabled(s, c) && CopyingHalves(s.reader)
    ensures HalfCloses(ReaderAfter(s, c))
  {
    hide Redialled, FirstWritten, SecondWritten, Received, Pending;
  }

  /** The caller's deadlines are copied. */
  lemma CopyDeadlinesKeeps(s: State, c: Choice)
    requires Inv(s) && ReaderEnabled(s, c)
    requires s.reader.RApplyReadDeadline? || s.reader.RApplyWriteDeadline?
    ensures Inv(ReaderAfter(s, c))
  {
    hide Carried, HalfCloses, Deadlines, Locks, Phases, WriterKnows, Upload, Download, ReaderAfter;
    var t := ReaderAfter(s, c);
    CopyDeadlinesMoves(s, c);
    CopyOthers(s, t);
    HalfClosesFrame(s, t);
    CopyDeadlines(s, c);
  }

  lemma CopyDeadlinesMoves(s: State, c: Choice)
    requires ReaderEnabled(s, c) && (s.reader.RApplyReadDeadline? || s.reader.RApplyWriteDeadline?)
    ensures var t := ReaderAfter(s, c);
            CopyMoves(s, t) && SameHalves(s, t) && !CopyingHalves(t.reader)
  {
    hide Redialled, FirstWritten, SecondWritten, Received;
  }

  /** The new connection is read for the first time. */
  lemma ReadAgainKeeps(s: State, c: Choice)
    requires Inv(s) && ReaderEnabled(s, c)
    requires s.reader.RReadAgain?
    ensures Inv(ReaderAfter(s, c))
  {
    hide Carried, HalfCloses, Deadlines, Locks, Phases, WriterKnows, Upload, Redialled, FirstWritten, SecondWritten;
    ReceiveMoves(s, c.data);
    var r, t := Received(s, c.data), ReaderAfter(s, c);
    ReadAgainOthers(r, t);
    HalfClosesFrame(r, t);
    DeadlinesFrame(r, t);
  }

  lemma ReadAgainOthers(s: State, t: State)
    requires Locks(s) && Phases(s) && WriterKnows(s) && Upload(s) && s.reader.RReadAgain?
             && t == s.(reader := RCloseFlag)
    ensures Locks(t) && Phases(t) && WriterKnows(t) && Upload(t)
  {
    hide LocksOf, Carried;
    CarriedFrame(s, t);
  }

  lemma CopyDeadlines(s: State, c: Choice)
    requires Locks(s) && Phases(s) && Deadlines(s) && ReaderEnabled(s, c)
    requires s.reader.RApplyReadDeadline? || s.reader.RApplyWriteDeadline?
    ensures Deadlines(ReaderAfter(s, c))
  {
    hide CallerDeadlines, CloserLocks, SetterLocks, Redialled, FirstWritten, SecondWritten, Received;
  }

  /** The flag is closed, the provisional deadline and the hello go. */
  lemma FinishKeeps(s: State, c: Choice)
    requires Inv(s) && ReaderEnabled(s, c)
    requires s.reader.RCloseFlag? || s.reader.RUnsetDeadline? || s.reader.RClearHello?
    ensures Inv(ReaderAfter(s, c))
  {
    hide Redialled, FirstWritten, SecondWritten, Received, Carried, HalfCloses, Deadlines, CloserLocks, SetterLocks;
    var t := ReaderAfter(s, c);
    CarriedFrame(s, t);
    HalfClosesFrame(s, t);
    FinishDeadlines(s, c);
  }

  lemma FinishDeadlines(s: State, c: Choice)
    requires Locks(s) && Deadlines(s) && ReaderEnabled(s, c)
    requires s.reader.RCloseFlag? || s.reader.RUnsetDeadline? || s.reader.RClearHello?
    ensures Deadlines(ReaderAfter(s, c))
  {
    hide Redialled, FirstWritten, SecondWritten, Received, CallerDeadlines, CloserLocks, SetterLocks;
  }

  lemma ReaderKeeps(s: State, c: Choice)
    requires Inv(s) && ReaderEnabled(s, c)
    ensures Inv(ReaderAfter(s, c))
  {
    hide Inv, ReaderEnabled, ReaderAfter;
    var pc := s.reader;
    if pc.RIdle? || pc.RTestFlag? {
      CallReadKeeps(s, c);
    } else if pc.RRead? {
      ReadResultKeeps(s, c);
    } else if pc.RLock? || pc.RUnlock? {
      ReaderLockKeeps(s, c);
    } else if pc.RCloseOld? {
      CloseOldKeeps(s, c);
    } else if pc.RDial? {
      DialKeeps(s, c);
    } else if pc.RReplayFirst? {
      ReplayFirstKeeps(s, c);
    } else if pc.RReplaySecond? {
      ReplaySecondKeeps(s, c);
    } else if CopyingHalves(pc) {
      CopyHalvesKeeps(s, c);
    } else if pc.RReadAgain? {
      ReadAgainKeeps(s, c);
    } else if CopyingState(pc) {
      CopyDeadlinesKeeps(s, c);
    } else {
      FinishKeeps(s, c);
    }
  }

  // ----- Steps of the writer -----

  /** The count of the resumed call covers what was accepted before and after the wait. */
  lemma ResumeCounts(s: State, t: State, m: nat)
    requires WriterKnows(s) && s.writer.pc.WResume? && Writes(s, t, s.writer.conn, s.writer.b[s.writer.n..], m)
    requires t.past.reported == s.past.reported + s.writer.b[..s.writer.n + m] && t.writer == IDLE
    ensures WriterKnows(t)
  {
    var w, h := s.writer, s.past;
    SliceTwice(w.b, w.n, m);
    assert h.accepted + w.b[w.n..][..m] == h.reported + (w.Progress() + w.b[w.n..][..m]);
  }

  lemma SliceTwice(b: seq<byte>, n: nat, m: nat)
    requires n + m <= |b|
    ensures b[..n] + b[n..][..m] == b[..n + m]
  {
  }

  /** A write to the provisional connection is not yet reported. */
  lemma ProvisionalCounts(s: State, t: State, b: seq<byte>, n: nat)
    requires WriterKnows(s) && s.writer.pc.WProvisional? && Writes(s, t, s.cur, b, n)
    requires t.writer == s.writer.(pc := WAppend, n := n, failed := t.writer.failed) && b == s.writer.b
             && t.past.reported == s.past.reported
    ensures WriterKnows(t)
  {
    assert s.writer.Progress() == [];
    assert s.past.accepted + b[..n] == s.past.reported + b[..n];
  }

  /** A write to the final connection, and one of ReadFrom, is reported at once. */
  lemma DirectWriteCounts(s: State, t: State, b: seq<byte>, n: nat)
    requires WriterKnows(s) && (s.writer.pc.WFinal? || s.writer.pc.WBulk?) && Writes(s, t, s.writer.conn, b, n)
    requires t.past.reported == s.past.reported + b[..n] && (t.writer == IDLE || t.writer == s.writer)
    ensures WriterKnows(t)
  {
    assert s.writer.Progress() == [] && t.writer.Progress() == [];
  }

  /** An octet accepted after completion extends what the current connection carries. */
  lemma AcceptedLater(s: State, b: seq<byte>, n: nat)
    requires Phases(s) && Upload(s) && s.flag && n <= |b|
    ensures Carried(Wrote(s, s.cur, b, n))
  {
    hide First, Second, SplitsRecord, PossibleSplit, Resent, NotYetAppended, Finished;
    var h, t := s.past, Wrote(s, s.cur, b, n);
    if |s.conns| == 2 {
      AppendBehind(h.accepted, b[..n], |h.original|);
      assert t.conns[1].sent == s.conns[1].sent + b[..n] && t.conns[0] == s.conns[0];
    }
  }

  lemma AppendBehind(accepted: seq<byte>, more: seq<byte>, k: nat)
    requires k <= |accepted|
    ensures (accepted + more)[k..] == accepted[k..] + more && accepted[..k] == (accepted + more)[..k]
  {
  }

  /** A write changes nothing but the octets that a connection has accepted, and what the writer is at. */
  predicate WriteMoves(s: State, t: State) {
    && t == s.(conns := t.conns, writer := t.writer, past := t.past)
    && |t.conns| == |s.conns|
    && (forall i :: 0 <= i < |s.conns| ==> t.conns[i] == s.conns[i].(sent := t.conns[i].sent))
    && t.past == s.past.(accepted := t.past.accepted, reported := t.past.reported)
    && WriterHolds(t.writer.pc) == WriterHolds(s.writer.pc)
  }

  lemma WriteOthers(s: State, t: State)
    requires Inv(s) && WriteMoves(s, t)
    ensures Locks(t) && Phases(t) && HalfCloses(t) && Deadlines(t) && Download(t)
  {
    hide LocksOf, HalfCloses, Deadlines, WriterKnows, Upload;
    HalfClosesFrame(s, t);
    DeadlinesFrame(s, t);
  }

  /** Connection `i` accepts octets, and the call goes on or returns. */
  predicate Writes(s: State, t: State, i: nat, b: seq<byte>, n: nat) {
    && i < |s.conns| && n <= |b|
    && t == Wrote(s, i, b, n).(writer := t.writer, past := Wrote(s, i, b, n).past.(reported := t.past.reported))
    && WriterHolds(t.writer.pc) == WriterHolds(s.writer.pc)
  }

  lemma WroteReports(s: State, i: nat, b: seq<byte>, n: nat)
    requires i < |s.conns| && n <= |b|
    ensures Wrote(s, i, b, n).past.reported == s.past.reported && Wrote(s, i, b, n).writer == s.writer
  {
  }

  lemma WritesMove(s: State, t: State, i: nat, b: seq<byte>, n: nat)
    requires Writes(s, t, i, b, n)
    ensures WriteMoves(s, t)
  {
  }

  lemma ProvisionalUpload(s: State, t: State, b: seq<byte>, n: nat)
    requires Phases(s) && Upload(s) && !ReaderHolds(s.reader) && !s.flag && NotYetAppended(s.writer) == []
    requires Writes(s, t, s.cur, b, n) && NotYetAppended(t.writer) == b[..n]
    ensures Upload(t)
  {
    hide First, Second, SplitsRecord, PossibleSplit, Resent, NotYetAppended;
    assert s.hello + [] == s.hello;
  }

  lemma LaterUpload(s: State, t: State, b: seq<byte>, n: nat)
    requires Phases(s) && Upload(s) && s.flag && Writes(s, t, s.cur, b, n)
    ensures Upload(t)
  {
    hide Carried;
    AcceptedLater(s, b, n);
    CarriedFrame(Wrote(s, s.cur, b, n), t);
  }

  lemma ProvisionalWriteKeeps(s: State, c: Choice)
    requires Inv(s) && WriterEnabled(s, c)
    requires s.writer.pc.WProvisional?
    ensures Inv(WriterAfter(s, c))
  {
    hide Upload, HalfCloses, Deadlines, Phases, Download, Locks, WriteMoves, Wrote;
    var t := WriterAfter(s, c);
    WroteReports(s, s.cur, s.writer.b, c.n);
    assert Writes(s, t, s.cur, s.writer.b, c.n);
    WritesMove(s, t, s.cur, s.writer.b, c.n);
    WriteOthers(s, t);
    ProvisionalCounts(s, t, s.writer.b, c.n);
    WriterExcludesReader(s);
    ProvisionalUpload(s, t, s.writer.b, c.n);
  }

  lemma ResumeKeeps(s: State, c: Choice)
    requires Inv(s) && WriterEnabled(s, c)
    requires s.writer.pc.WResume?
    ensures Inv(WriterAfter(s, c))
  {
    hide Upload, HalfCloses, Deadlines, Phases, Download, Locks, WriteMoves, Wrote;
    var w, t := s.writer, WriterAfter(s, c);
    if w.n < |w.b| {
      var b := w.b[w.n..];
      WroteReports(s, s.cur, b, c.n);
      assert Writes(s, t, s.cur, b, c.n);
      WritesMove(s, t, s.cur, b, c.n);
      WriteOthers(s, t);
      ResumeCounts(s, t, c.n);
      LaterUpload(s, t, b, c.n);
    } else {
      NothingResumed(s, c);
    }
  }

  lemma NothingResumed(s: State, c: Choice)
    requires Inv(s) && WriterEnabled(s, c) && s.writer.pc.WResume? && s.writer.n == |s.writer.b|
    ensures Inv(WriterAfter(s, c))
  {
    hide Phases, Upload, HalfCloses, Deadlines, LocksOf, Download, Wrote;
    assert s.writer.Progress() == s.writer.b;
    WriterMoves(s, WriterAfter(s, c));
  }

  lemma FinalWriteKeeps(s: State, c: Choice)
    requires Inv(s) && WriterEnabled(s, c)
    requires s.writer.pc.WFinal?
    ensures Inv(WriterAfter(s, c))
  {
    hide Upload, HalfCloses, Deadlines, Phases, Download, Locks, WriteMoves, Wrote;
    var t := WriterAfter(s, c);
    WroteReports(s, s.cur, s.writer.b, c.n);
    assert Writes(s, t, s.cur, s.writer.b, c.n);
    WritesMove(s, t, s.cur, s.writer.b, c.n);
    WriteOthers(s, t);
    DirectWriteCounts(s, t, s.writer.b, c.n);
    LaterUpload(s, t, s.writer.b, c.n);
  }

  lemma BulkKeeps(s: State, c: Choice)
    requires Inv(s) && WriterEnabled(s, c)
    requires s.writer.pc.WBulk?
    ensures Inv(WriterAfter(s, c))
  {
    hide Upload, HalfCloses, Deadlines, Phases, Download, Locks, WriteMoves, Wrote;
    var t := WriterAfter(s, c);
    if c.Chunk? {
      WroteReports(s, s.cur, c.b, c.n);
      assert Writes(s, t, s.cur, c.b, c.n);
      WritesMove(s, t, s.cur, c.b, c.n);
      WriteOthers(s, t);
      DirectWriteCounts(s, t, c.b, c.n);
      LaterUpload(s, t, c.b, c.n);
    } else {
      BulkEnds(s, t);
    }
  }

  lemma BulkEnds(s: State, t: State)
    requires Inv(s) && s.writer.pc.WBulk? && t == s.(writer := IDLE)
    ensures Inv(t)
  {
    hide Phases, Upload, HalfCloses, Deadlines, LocksOf, Download;
    WriterMoves(s, t);
  }

  lemma WriterMovesUpload(s: State, t: State)
    requires Upload(s) && t == s.(writer := t.writer, mutex := t.mutex, past := s.past.(reported := t.past.reported))
    requires NotYetAppended(t.writer) == NotYetAppended(s.writer)
    ensures Upload(t)
  {
    hide Carried;
    CarriedFrame(s, t);
  }

  /** The writer moves without writing, outside the mutex, in it, or across Lock and Unlock. */
  lemma WriterMoves(s: State, t: State)
    requires Inv(s) && t == s.(writer := t.writer, mutex := t.mutex, past := s.past.(reported := t.past.reported))
    requires NotYetAppended(t.writer) == [] && NotYetAppended(s.writer) == []
    requires WriterKnows(t) && Locks(t) && SameApplying(s, t)
    ensures Inv(t)
  {
    hide LocksOf, HalfCloses, Deadlines, WriterKnows, Upload, NotYetAppended, SameApplying;
    WriterMovesUpload(s, t);
    HalfClosesFrame(s, t);
    DeadlinesFrame(s, t);
  }

  lemma OutsideWriterKeeps(s: State, c: Choice)
    requires Inv(s) && WriterEnabled(s, c)
    requires var pc := s.writer.pc;
             || pc.WIdle? || pc.WTestFlag? || pc.WAwaitFlag? || pc.WLoadFinal? || pc.WTestForBulk? || pc.WLoadForBulk?
    ensures Inv(WriterAfter(s, c))
  {
    hide Phases, Upload, HalfCloses, Deadlines, Locks, WriterKnows, Download, WriterAfter;
    var t := WriterAfter(s, c);
    OutsideWriterMoves(s, c);
    OutsideWriterLocks(s, t);
    WriterMoves(s, t);
  }

  lemma OutsideWriterMoves(s: State, c: Choice)
    requires WriterKnows(s) && WriterEnabled(s, c)
    requires var pc := s.writer.pc;
             || pc.WIdle? || pc.WTestFlag? || pc.WAwaitFlag? || pc.WLoadFinal? || pc.WTestForBulk? || pc.WLoadForBulk?
    ensures var t := WriterAfter(s, c);
            && t == s.(writer := t.writer) && WriterKnows(t) && !WriterHolds(t.writer.pc)
            && NotYetAppended(t.writer) == [] && NotYetAppended(s.writer) == []
  {
    hide Wrote, Returned, WriterKnows;
    OutsideWriterKnows(s, c);
  }

  lemma OutsideWriterKnows(s: State, c: Choice)
    requires WriterKnows(s) && WriterEnabled(s, c)
    requires var pc := s.writer.pc;
             || pc.WIdle? || pc.WTestFlag? || pc.WAwaitFlag? || pc.WLoadFinal? || pc.WTestForBulk? || pc.WLoadForBulk?
    ensures WriterKnows(WriterAfter(s, c))
  {
    hide Wrote, Returned;
  }

  lemma OutsideWriterLocks(s: State, t: State)
    requires Locks(s) && t == s.(writer := t.writer) && !WriterHolds(s.writer.pc) && !WriterHolds(t.writer.pc)
    ensures Locks(t)
  {
    hide CloserLocks, SetterLocks;
  }

  /** Holding the mutex, the writer tests the flag or loads the connection. */
  lemma InsideWriterKeeps(s: State, c: Choice)
    requires Inv(s) && WriterEnabled(s, c)
    requires s.writer.pc.WRetest? || s.writer.pc.WLoadConn?
    ensures Inv(WriterAfter(s, c))
  {
    hide Phases, Upload, HalfCloses, Deadlines, LocksOf, Download, Wrote;
    WriterMoves(s, WriterAfter(s, c));
  }

  lemma WriterLockKeeps(s: State, c: Choice)
    requires Inv(s) && WriterEnabled(s, c)
    requires s.writer.pc.WLock? || s.writer.pc.WRelock?
    ensures Inv(WriterAfter(s, c))
  {
    hide Phases, Upload, HalfCloses, Deadlines, CloserLocks, SetterLocks, Download, Wrote;
    LocksPass(s, WriterAfter(s, c));
    WriterMoves(s, WriterAfter(s, c));
  }

  lemma WriterUnlockKeeps(s: State, c: Choice)
    requires Inv(s) && WriterEnabled(s, c)
    requires s.writer.pc.WUnlockUnattempted? || s.writer.pc.WUnlockAgain?
    ensures Inv(WriterAfter(s, c))
  {
    hide Phases, Upload, HalfCloses, Deadlines, CloserLocks, SetterLocks, Download, Wrote;
    LocksPass(s, WriterAfter(s, c));
    WriterMoves(s, WriterAfter(s, c));
  }

  /** The provisional write is over, or waits for completion. */
  lemma ProvisionalUnlockKeeps(s: State, c: Choice)
    requires Inv(s) && WriterEnabled(s, c)
    requires s.writer.pc.WUnlock?
    ensures Inv(WriterAfter(s, c))
  {
    hide Phases, Upload, HalfCloses, Deadlines, Locks, WriterKnows, Download, Wrote, WriterAfter;
    var t := WriterAfter(s, c);
    ProvisionalUnlock(s, c);
    WriterMoves(s, t);
  }

  lemma ProvisionalUnlock(s: State, c: Choice)
    requires Locks(s) && WriterKnows(s) && WriterEnabled(s, c) && s.writer.pc.WUnlock?
    ensures var t := WriterAfter(s, c);
            && t == s.(writer := t.writer, mutex := t.mutex, past := s.past.(reported := t.past.reported))
            && NotYetAppended(t.writer) == [] && NotYetAppended(s.writer) == []
            && WriterKnows(t) && Locks(t) && SameApplying(s, t)
  {
    hide CloserLocks, SetterLocks, Wrote;
    LocksPass(s, WriterAfter(s, c));
  }

  /** What was accepted joins hello. */
  lemma AppendKeeps(s: State, c: Choice)
    requires Inv(s) && WriterEnabled(s, c)
    requires s.writer.pc.WAppend?
    ensures Inv(WriterAfter(s, c))
  {
    hide Carried, HalfCloses, Deadlines, LocksOf, Wrote;
    var t := WriterAfter(s, c);
    assert !ReaderHolds(s.reader) by {
      WriterExcludesReader(s);
    }
    CarriedFrame(s, t);
    HalfClosesFrame(s, t);
    DeadlinesFrame(s, t);
    assert s.writer.Progress() == s.writer.b[..s.writer.n];
    assert t.hello + [] == t.hello;
  }

  lemma WriterExcludesReader(s: State)
    requires Locks(s) && WriterHolds(s.writer.pc)
    ensures !ReaderHolds(s.reader) && !s.mutex.BySetter? && !s.mutex.ByCloser?
  {
  }

  /** The retry timeout becomes the read deadline. */
  lemma SetProvisionalKeeps(s: State, c: Choice)
    requires Inv(s) && WriterEnabled(s, c)
    requires s.writer.pc.WSetDeadline?
    ensures Inv(WriterAfter(s, c))
  {
    hide Carried, HalfCloses, Deadlines, LocksOf, Wrote;
    var t := WriterAfter(s, c);
    CarriedFrame(s, t);
    HalfClosesFrame(s, t);
    SetProvisional(s, t, c.at);
  }

  lemma SetProvisional(s: State, t: State, at: int)
    requires Deadlines(s) && !s.flag && s.cur < |s.conns|
    requires t == s.With(s.Conn().SetReadDeadline(Provisional(at))).(writer := t.writer)
    ensures Deadlines(t)
  {
    hide CallerDeadlines;
  }

  lemma WriterKeeps(s: State, c: Choice)
    requires Inv(s) && WriterEnabled(s, c)
    ensures Inv(WriterAfter(s, c))
  {
    hide Inv, WriterEnabled, WriterAfter;
    match s.writer.pc
    case WProvisional => ProvisionalWriteKeeps(s, c);
    case WAppend => AppendKeeps(s, c);
    case WSetDeadline => SetProvisionalKeeps(s, c);
    case WResume => ResumeKeeps(s, c);
    case WFinal => FinalWriteKeeps(s, c);
    case WBulk => BulkKeeps(s, c);
    case WLock => WriterLockKeeps(s, c);
    case WRelock => WriterLockKeeps(s, c);
    case WUnlock => ProvisionalUnlockKeeps(s, c);
    case WUnlockUnattempted => WriterUnlockKeeps(s, c);
    case WUnlockAgain => WriterUnlockKeeps(s, c);
    case WRetest => InsideWriterKeeps(s, c);
    case WLoadConn => InsideWriterKeeps(s, c);
    case _ => OutsideWriterKeeps(s, c);
  }

  // ----- Steps of the closers -----

  /** Between the calls and Lock, closer `id` is at another point, and the mutex is where it says. */
  lemma LocksCloser(s: State, t: State, id: nat)
    requires Locks(s) && t.reader == s.reader && t.writer == s.writer && t.setters == s.setters
    requires t.closers == s.closers - {id} || (id in t.closers && t.closers == s.closers[id := t.closers[id]])
    requires t.mutex == s.mutex || s.mutex == Owner.ByCloser(id) || (s.mutex == Free && t.mutex == Owner.ByCloser(id))
    requires t.mutex.ByCloser? || t.mutex == s.mutex || t.mutex == Free
    requires t.mutex == Owner.ByCloser(id) <==> id in t.closers && !t.closers[id].CLock?
    requires t.mutex.ByCloser? && t.mutex.id != id ==> t.mutex == s.mutex
    ensures Locks(t)
  {
  }

  /** A closer that was and is either pending or not for this half does not change whether some closer is. */
  lemma PendingFrame(closers: map<nat, CloserPc>, id: nat, pc: CloserPc, half: Half)
    requires IsPending(closers[id := pc], id, half) <==> IsPending(closers, id, half)
    ensures Pending(closers[id := pc], half) <==> Pending(closers, half)
  {
    if i :| IsPending(closers, i, half) {
      assert IsPending(closers[id := pc], i, half);
    }
    var after := closers[id := pc];
    if i :| IsPending(after, i, half) {
      assert IsPending(closers, i, half);
    }
  }

  lemma CallRaisesFlag(s: State, id: nat, half: Half)
    requires HalfCloses(s) && id !in s.closers
    ensures var stored := if half.ReadHalf? then s.(readCloseFlag := true) else s.(writeCloseFlag := true);
            HalfCloses(stored.(closers := s.closers[id := CLock(half)]))
  {
    hide Pending;
    var other := if half.ReadHalf? then WriteHalf else ReadHalf;
    IsPendingNow(s.closers[id := CLock(half)], id, half);
    PendingFrame(s.closers, id, CLock(half), other);
  }

  lemma IsPendingNow(closers: map<nat, CloserPc>, id: nat, half: Half)
    requires IsPending(closers, id, half)
    ensures Pending(closers, half)
  {
  }

  lemma CloserCallKeeps(s: State, id: nat, c: Choice)
    requires Inv(s) && CloserEnabled(s, id, c) && id !in s.closers
    ensures Inv(CloserAfter(s, id, c))
  {
    hide HalfCloses, Deadlines, Phases, WriterKnows, Upload, Download, Locks;
    var t := CloserAfter(s, id, c);
    CloserNotOwner(s, id);
    LocksCloser(s, t, id);
    CallRaisesFlag(s, id, c.half);
    SameUploadKeeps(s, t);
    DeadlinesFrame(s, t);
  }

  lemma CloserNotOwner(s: State, id: nat)
    requires Locks(s)
    ensures id !in s.closers || s.closers[id].CLock? ==> s.mutex != Owner.ByCloser(id)
    ensures id in s.closers && !s.closers[id].CLock? ==> s.mutex == Owner.ByCloser(id)
  {
  }

  lemma CloserLockKeeps(s: State, id: nat, c: Choice)
    requires Inv(s) && CloserEnabled(s, id, c) && id in s.closers && s.closers[id].CLock?
    ensures Inv(CloserAfter(s, id, c))
  {
    hide HalfCloses, Deadlines, Phases, WriterKnows, Upload, Download, Locks;
    var t := CloserAfter(s, id, c);
    CloserNotOwner(s, id);
    LocksCloser(s, t, id);
    LockedStaysPending(s, id);
    SameUploadKeeps(s, t);
    DeadlinesFrame(s, t);
  }

  lemma LockedStaysPending(s: State, id: nat)
    requires HalfCloses(s) && id in s.closers && s.closers[id].CLock?
    ensures HalfCloses(s.(mutex := Owner.ByCloser(id), closers := s.closers[id := CShut(s.closers[id].half)]))
  {
    hide Pending;
    var pc := CShut(s.closers[id].half);
    PendingFrame(s.closers, id, pc, ReadHalf);
    PendingFrame(s.closers, id, pc, WriteHalf);
  }

  /** The half is closed; other closers may still be pending for it. */
  lemma CloserShutKeeps(s: State, id: nat, c: Choice)
    requires Inv(s) && CloserEnabled(s, id, c) && id in s.closers && s.closers[id].CShut?
    ensures Inv(CloserAfter(s, id, c))
  {
    hide HalfCloses, Deadlines, Phases, WriterKnows, Upload, Download, Locks;
    var t := CloserAfter(s, id, c);
    CloserNotOwner(s, id);
    LocksCloser(s, t, id);
    NotReplayingNow(s);
    CloserShuts(s, id);
    SameUploadKeeps(s, t);
    DeadlinesFrame(s, t);
  }

  lemma NotReplayingNow(s: State)
    requires Locks(s) && s.mutex.ByCloser?
    ensures !Replaying(s.reader)
  {
  }

  lemma CloserShuts(s: State, id: nat)
    requires HalfCloses(s) && id in s.closers && s.closers[id].CShut? && !Replaying(s.reader)
    ensures var half := s.closers[id].half;
            HalfCloses(s.With(s.Conn().Shut(half)).(closers := s.closers[id := CUnlock(half)]))
  {
    hide Pending;
    var half := s.closers[id].half;
    var other := if half.ReadHalf? then WriteHalf else ReadHalf;
    IsPendingNow(s.closers, id, half);
    StillPending(s.closers, id, CUnlock(half), half);
    PendingFrame(s.closers, id, CUnlock(half), other);
  }

  lemma StillPending(closers: map<nat, CloserPc>, id: nat, pc: CloserPc, half: Half)
    requires !IsPending(closers[id := pc], id, half)
    ensures Pending(closers[id := pc], half) ==> Pending(closers, half)
  {
    var after := closers[id := pc];
    if i :| IsPending(after, i, half) {
      assert IsPending(closers, i, half);
    }
  }

  lemma CloserUnlockKeeps(s: State, id: nat, c: Choice)
    requires Inv(s) && CloserEnabled(s, id, c) && id in s.closers && s.closers[id].CUnlock?
    ensures Inv(CloserAfter(s, id, c))
  {
    hide HalfCloses, Deadlines, Phases, WriterKnows, Upload, Download, Locks;
    var t := CloserAfter(s, id, c);
    CloserNotOwner(s, id);
    LocksCloser(s, t, id);
    CloserLeaves(s, id);
    SameUploadKeeps(s, t);
    DeadlinesFrame(s, t);
  }

  lemma CloserLeaves(s: State, id: nat)
    requires HalfCloses(s) && id in s.closers && s.closers[id].CUnlock?
    ensures HalfCloses(s.(mutex := Free, closers := s.closers - {id}))
  {
    hide Pending;
    NotPendingLeaves(s.closers, id, ReadHalf);
    NotPendingLeaves(s.closers, id, WriteHalf);
  }

  lemma NotPendingLeaves(closers: map<nat, CloserPc>, id: nat, half: Half)
    requires id in closers && closers[id].CUnlock?
    ensures Pending(closers - {id}, half) <==> Pending(closers, half)
  {
    if i :| IsPending(closers, i, half) {
      assert IsPending(closers - {id}, i, half);
    }
    var after := closers - {id};
    if i :| IsPending(after, i, half) {
      assert IsPending(closers, i, half);
    }
  }

  lemma CloserKeeps(s: State, id: nat, c: Choice)
    requires Inv(s) && CloserEnabled(s, id, c)
    ensures Inv(CloserAfter(s, id, c))
  {
    hide Inv, CloserEnabled, CloserAfter;
    if id !in s.closers {
      CloserCallKeeps(s, id, c);
    } else {
      match s.closers[id]
      case CLock(_) => CloserLockKeeps(s, id, c);
      case CShut(_) => CloserShutKeeps(s, id, c);
      case CUnlock(_) => CloserUnlockKeeps(s, id, c);
    }
  }

  // ----- Steps of the deadline setters -----

  lemma LocksSetter(s: State, t: State, id: nat)
    requires Locks(s) && t.reader == s.reader && t.writer == s.writer && t.closers == s.closers
    requires t.setters == s.setters - {id} || (id in t.setters && t.setters == s.setters[id := t.setters[id]])
    requires t.mutex == s.mutex || s.mutex == Owner.BySetter(id) || (s.mutex == Free && t.mutex == Owner.BySetter(id))
    requires t.mutex.BySetter? || t.mutex == s.mutex || t.mutex == Free
    requires t.mutex == Owner.BySetter(id) <==> id in t.setters && !t.setters[id].SLock?
    requires t.mutex.BySetter? && t.mutex.id != id ==> t.mutex == s.mutex
    ensures Locks(t)
  {
  }

  lemma SetterNotOwner(s: State, id: nat)
    requires Locks(s)
    ensures id !in s.setters || s.setters[id].SLock? ==> s.mutex != Owner.BySetter(id)
    ensures id in s.setters && !s.setters[id].SLock? ==> s.mutex == Owner.BySetter(id)
  {
  }

  /** A call and Lock: no deadline is stored yet. */
  lemma SetterEnters(s: State, t: State, id: nat)
    requires Deadlines(s) && id in t.setters && t == s.(setters := s.setters[id := t.setters[id]], mutex := t.mutex)
    requires !t.setters[id].SUnlock? && !t.setters[id].SApply? && !t.setters[id].d.Provisional?
    requires s.mutex != Owner.BySetter(id) && (t.mutex == s.mutex || (s.mutex == Free && t.mutex == Owner.BySetter(id)))
    ensures Deadlines(t)
  {
  }

  lemma SetterCallKeeps(s: State, id: nat, c: Choice)
    requires Inv(s) && SetterEnabled(s, id, c) && id !in s.setters
    ensures Inv(SetterAfter(s, id, c))
  {
    hide HalfCloses, Deadlines, Phases, WriterKnows, Upload, Download, Locks;
    var t := SetterAfter(s, id, c);
    SetterNotOwner(s, id);
    LocksSetter(s, t, id);
    SetterEnters(s, t, id);
    SameUploadKeeps(s, t);
    HalfClosesFrame(s, t);
  }

  lemma SetterLockKeeps(s: State, id: nat, c: Choice)
    requires Inv(s) && SetterEnabled(s, id, c) && id in s.setters && s.setters[id].SLock?
    ensures Inv(SetterAfter(s, id, c))
  {
    hide HalfCloses, Deadlines, Phases, WriterKnows, Upload, Download, Locks;
    var t := SetterAfter(s, id, c);
    SetterNotOwner(s, id);
    LocksSetter(s, t, id);
    CallersDeadline(s, id);
    SetterEnters(s, t, id);
    SameUploadKeeps(s, t);
    HalfClosesFrame(s, t);
  }

  lemma CallersDeadline(s: State, id: nat)
    requires Deadlines(s) && id in s.setters && !s.setters[id].SUnlock?
    ensures !s.setters[id].d.Provisional?
  {
  }

  lemma SetterStoreKeeps(s: State, id: nat, c: Choice)
    requires Inv(s) && SetterEnabled(s, id, c) && id in s.setters && s.setters[id].SStore?
    ensures Inv(SetterAfter(s, id, c))
  {
    hide HalfCloses, Deadlines, Phases, WriterKnows, Upload, Download, Locks;
    var t := SetterAfter(s, id, c);
    SetterNotOwner(s, id);
    LocksSetter(s, t, id);
    SetterStores(s, id);
    SameUploadKeeps(s, t);
    HalfClosesFrame(s, t);
  }

  lemma SetterStores(s: State, id: nat)
    requires Deadlines(s) && id in s.setters && s.setters[id].SStore? && s.mutex == Owner.BySetter(id)
    ensures var half, d := s.setters[id].half, s.setters[id].d;
            var stored := if half.ReadHalf? then s.(readDeadline := d) else s.(writeDeadline := d);
            Deadlines(stored.(setters := s.setters[id := SApply(half, d)]))
  {
  }

  lemma SetterApplyKeeps(s: State, id: nat, c: Choice)
    requires Inv(s) && SetterEnabled(s, id, c) && id in s.setters && s.setters[id].SApply?
    ensures Inv(SetterAfter(s, id, c))
  {
    hide HalfCloses, Deadlines, Phases, WriterKnows, Upload, Download, Locks;
    var t := SetterAfter(s, id, c);
    SetterNotOwner(s, id);
    LocksSetter(s, t, id);
    if s.setters[id].half.ReadHalf? {
      AppliesRead(s, id);
    } else {
      AppliesWrite(s, id);
    }
    SameUploadKeeps(s, t);
    HalfClosesFrame(s, t);
  }

  lemma AppliesRead(s: State, id: nat)
    requires Deadlines(s) && id in s.setters && s.setters[id].SApply? && s.setters[id].half.ReadHalf?
             && s.mutex == Owner.BySetter(id)
    ensures var d, next := s.setters[id].d, s.(setters := s.setters[id := SUnlock]);
            Deadlines(next) && Deadlines(next.With(s.Conn().SetReadDeadline(d)).(past := s.past.(lastRead := d)))
  {
  }

  lemma AppliesWrite(s: State, id: nat)
    requires Deadlines(s) && id in s.setters && s.setters[id].SApply? && s.setters[id].half.WriteHalf?
             && s.mutex == Owner.BySetter(id)
    ensures Deadlines(s.(setters := s.setters[id := SUnlock]).With(s.Conn().SetWriteDeadline(s.setters[id].d)))
  {
  }

  lemma SetterUnlockKeeps(s: State, id: nat, c: Choice)
    requires Inv(s) && SetterEnabled(s, id, c) && id in s.setters && s.setters[id].SUnlock?
    ensures Inv(SetterAfter(s, id, c))
  {
    hide HalfCloses, Deadlines, Phases, WriterKnows, Upload, Download, Locks;
    var t := SetterAfter(s, id, c);
    SetterNotOwner(s, id);
    LocksSetter(s, t, id);
    SetterLeaves(s, id);
    SameUploadKeeps(s, t);
    HalfClosesFrame(s, t);
  }

  lemma SetterLeaves(s: State, id: nat)
    requires Deadlines(s) && id in s.setters && s.setters[id].SUnlock? && s.mutex == Owner.BySetter(id)
    ensures Deadlines(s.(mutex := Free, setters := s.setters - {id}))
  {
  }

  lemma SetterKeeps(s: State, id: nat, c: Choice)
    requires Inv(s) && SetterEnabled(s, id, c)
    ensures Inv(SetterAfter(s, id, c))
  {
    hide Inv, SetterEnabled, SetterAfter;
    if id !in s.setters {
      SetterCallKeeps(s, id, c);
    } else {
      match s.setters[id]
      case SLock(_, _) => SetterLockKeeps(s, id, c);
      case SStore(_, _) => SetterStoreKeeps(s, id, c);
      case SApply(_, _) => SetterApplyKeeps(s, id, c);
      case SUnlock => SetterUnlockKeeps(s, id, c);
    }
  }

  // ----- All runs -----

  /** No step breaks the invariant. */
  lemma StepKeeps(s: State, step: Step)
    requires Inv(s) && Enabled(s, step)
    ensures Inv(After(s, step))
  {
    hide Inv, ReaderEnabled, WriterEnabled, CloserEnabled, SetterEnabled, ReaderAfter, WriterAfter, CloserAfter,
         SetterAfter;
    match step
    case ByReader(c) => ReaderKeeps(s, c);
    case ByWriter(c) => WriterKeeps(s, c);
    case ByCloser(id, c) => CloserKeeps(s, id, c);
    case BySetter(id, c) => SetterKeeps(s, id, c);
  }

  lemma {:induction false} RunKeeps(s: State, steps: seq<Step>)
    requires Inv(s) && Possible(s, steps)
    ensures Inv(Run(s, steps))
    decreases |steps|
  {
    hide Inv, Enabled, After;
    if steps == [] {
    } else {
      StepKeeps(s, steps[0]);
      RunKeeps(After(s, steps[0]), steps[1..]);
    }
  }
}
