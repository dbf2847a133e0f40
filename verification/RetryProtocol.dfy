/**
 * The retrying connection of transport/split/retrier.go as a step relation.  One reader, one writer
 * and any number of closers and deadline setters interleave; each step is one access to shared
 * state.  The steps are deterministic: everything the environment decides (what a read returns, how
 * much a write accepts, whether a dial succeeds, which split length is drawn) is in the step's `Choice`.
 */
module RetryProtocol {
  import opened Bytes
  import opened TcpConns
  import opened TlsSplit

  datatype Half = ReadHalf | WriteHalf

  datatype Conn = Conn(
    sent: seq<byte>, readShut: bool, writeShut: bool, closed: bool,
    readDeadline: Deadline, writeDeadline: Deadline, received: seq<byte>)
  {
    /** A closed descriptor has no timers, and setting one on it fails. */
    function Close(): Conn {
      this.(closed := true, readDeadline := Unset, writeDeadline := Unset)
    }

    function Shut(half: Half): Conn {
      if closed then this else if half.ReadHalf? then this.(readShut := true) else this.(writeShut := true)
    }

    function SetReadDeadline(d: Deadline): Conn {
      if closed then this else this.(readDeadline := d)
    }

    function SetWriteDeadline(d: Deadline): Conn {
      if closed then this else this.(writeDeadline := d)
    }

    predicate IsShut(half: Half) {
      closed || if half.ReadHalf? then readShut else writeShut
    }

    /** The possible results of Write(b): a short count is an error, and a closed half accepts nothing. */
    predicate MayAccept(b: seq<byte>, n: nat, failed: bool) {
      n <= |b| && (n < |b| ==> failed) && (closed || writeShut ==> n == 0)
    }

    function Receive(data: seq<byte>): Conn {
      this.(received := received + data)
    }

    function Accept(b: seq<byte>, n: nat): Conn
      requires n <= |b|
    {
      this.(sent := sent + b[..n])
    }
  }

  const FRESH := Conn([], false, false, false, Unset, Unset, [])

  datatype Owner = Free | ByReader | ByWriter | ByCloser(id: nat) | BySetter(id: nat)

  /** Where the reader is in Read and retry; each name is the access it performs next. */
  datatype ReaderPc =
    | RIdle
    | RRead                  // r.conn.Read
    | RTestFlag(failed: bool)
    | RLock(failed: bool)
    | RCloseOld              // retry() from here
    | RDial
    | RReplayFirst
    | RReplaySecond
    | RTestReadClosed
    | RShutRead
    | RTestWriteClosed
    | RShutWrite
    | RApplyReadDeadline
    | RApplyWriteDeadline
    | RReadAgain             // to here
    | RCloseFlag
    | RUnsetDeadline
    | RClearHello
    | RUnlock

  /** Where the writer is in Write or ReadFrom. */
  datatype WriterPc =
    | WIdle
    | WTestFlag
    | WLock
    | WRetest
    | WProvisional           // r.conn.Write under the mutex
    | WAppend
    | WSetDeadline
    | WUnlock
    | WUnlockUnattempted
    | WAwaitFlag
    | WRelock
    | WLoadConn
    | WUnlockAgain
    | WResume                // c.Write of the rest of the buffer
    | WLoadFinal
    | WFinal                 // r.conn.Write without the mutex
    | WTestForBulk           // ReadFrom's loop condition
    | WLoadForBulk
    | WBulk                  // r.conn.ReadFrom

  /** The writer's locals: its buffer, how much of it is accepted, whether that write failed, a loaded connection. */
  datatype Writer = Writer(pc: WriterPc, b: seq<byte>, n: nat, failed: bool, conn: nat)
  {
    /** The part of the buffer that some connection has accepted. */
    function Progress(): seq<byte> {
      if n <= |b| then b[..n] else []
    }
  }

  const IDLE := Writer(WIdle, [], 0, false, 0)

  datatype CloserPc = CLock(half: Half) | CShut(half: Half) | CUnlock(half: Half)

  datatype SetterPc =
    | SLock(half: Half, d: Deadline) | SStore(half: Half, d: Deadline)
    | SApply(half: Half, d: Deadline) | SUnlock

  datatype Replay = NoRetry | Dialling | DialFailed | InProgress | ReplayFailed | Replayed

  /**
   * What happened so far.  The code has no such fields; `original` and `splitLen` stand for the locals of
   * splitHello between its two writes, and nothing else here decides a step.
   */
  datatype History = History(
    accepted: seq<byte>,   // octets some connection accepted from the writer, in order
    reported: seq<byte>,   // octets that finished Write and ReadFrom calls counted as written
    replay: Replay,
    original: seq<byte>,   // hello when the replay began
    splitLen: nat,
    replayed: nat,         // octets of the replay that the new connection accepted
    dials: nat,
    flagCloses: nat,
    lastRead: Deadline,    // last read deadline set by the caller after completion
    delivered: seq<byte>)  // octets that Read returns, in order

  datatype State = State(
    conns: seq<Conn>, cur: nat, hello: seq<byte>, flag: bool,
    readCloseFlag: bool, writeCloseFlag: bool,
    readDeadline: Deadline, writeDeadline: Deadline,
    mutex: Owner, reader: ReaderPc, writer: Writer,
    closers: map<nat, CloserPc>, setters: map<nat, SetterPc>,
    past: History)
  {
    function Conn(): Conn
      requires cur < |conns|
    {
      conns[cur]
    }

    function With(c: Conn): State
      requires cur < |conns|
    {
      this.(conns := conns[cur := c])
    }
  }

  const INITIAL := State(
    [FRESH], 0, [], false, false, false, Unset, Unset, Free, RIdle, IDLE, map[], map[],
    History([], [], NoRetry, [], 0, 0, 0, 0, Unset, []))

  datatype Choice =
    | Go
    | ReadResult(data: seq<byte>, failed: bool)
    | DialResult(ok: bool)
    | Split(splitLen: nat, n: nat, failed: bool, scratch: seq<byte>)
    | Accepts(n: nat, failed: bool)
    | CallWrite(b: seq<byte>)
    | CallReadFrom
    | Chunk(b: seq<byte>, n: nat)
    | Eof
    | CallClose(half: Half)
    | CallSetDeadline(half: Half, d: Deadline)
    | RetryDeadline(at: int)

  datatype Step =
    | ByReader(c: Choice)
    | ByWriter(c: Choice)
    | ByCloser(id: nat, c: Choice)
    | BySetter(id: nat, c: Choice)

  /** The first buffer splitHello writes: all of a hello of at most one octet. */
  function FirstWrite(hello: seq<byte>, splitLen: nat): seq<byte>
    requires PossibleSplit(|hello|, splitLen)
  {
    if |hello| <= 1 then hello else First(hello, splitLen)
  }

  // ----- Reader: Read and retry -----

  predicate ReaderEnabled(s: State, c: Choice) {
    && s.cur < |s.conns|
    && match s.reader
       case RRead => c.ReadResult? && (c.failed ==> c.data == [])
       case RLock(_) => s.mutex.Free?
       case RDial => c.DialResult?
       case RReplayFirst =>
         && c.Split? && PossibleSplit(|s.hello|, c.splitLen) && |c.scratch| == |s.hello|
         && s.Conn().MayAccept(FirstWrite(s.hello, c.splitLen), c.n, c.failed)
       case RReplaySecond =>
         && c.Accepts? && s.past.splitLen <= |s.past.original|
         && s.Conn().MayAccept(Second(s.past.original, s.past.splitLen), c.n, c.failed)
       case RReadAgain => c.ReadResult? && (c.failed ==> c.data == [])
       case RCloseFlag => !s.flag  // closing a closed channel panics
       case _ => true
  }

  /** The current connection delivers octets, which Read returns. */
  function Received(s: State, data: seq<byte>): State
    requires s.cur < |s.conns|
  {
    s.With(s.Conn().Receive(data)).(past := s.past.(delivered := s.past.delivered + data))
  }

  function Redialled(s: State, ok: bool): State {
    var h := s.past;
    if ok then s.(conns := s.conns + [FRESH], cur := |s.conns|, reader := RReplayFirst,
      past := h.(replay := InProgress, dials := h.dials + 1, original := s.hello, splitLen := 0, replayed := 0))
    else s.(reader := RCloseFlag, past := h.(replay := DialFailed, dials := h.dials + 1))
  }

  /** splitHello uses hello as its scratch space, so its contents are arbitrary from here on. */
  function FirstWritten(s: State, splitLen: nat, n: nat, failed: bool, scratch: seq<byte>): State
    requires s.cur < |s.conns| && PossibleSplit(|s.hello|, splitLen) && n <= |FirstWrite(s.hello, splitLen)|
  {
    var wrote := s.With(s.Conn().Accept(FirstWrite(s.hello, splitLen), n)).(hello := scratch);
    var h := s.past.(splitLen := splitLen, replayed := n);
    if failed then wrote.(reader := RCloseFlag, past := h.(replay := ReplayFailed))
    else if |s.hello| <= 1 then wrote.(reader := RTestReadClosed, past := h.(replay := Replayed))
    else wrote.(reader := RReplaySecond, past := h)
  }

  function SecondWritten(s: State, n: nat, failed: bool): State
    requires s.cur < |s.conns| && s.past.splitLen <= |s.past.original|
             && n <= |Second(s.past.original, s.past.splitLen)|
  {
    var wrote := s.With(s.Conn().Accept(Second(s.past.original, s.past.splitLen), n));
    var h := s.past.(replayed := s.past.replayed + n);
    if failed then wrote.(reader := RCloseFlag, past := h.(replay := ReplayFailed))
    else wrote.(reader := RTestReadClosed, past := h.(replay := Replayed))
  }

  function ReaderAfter(s: State, c: Choice): State
    requires ReaderEnabled(s, c)
  {
    var h := s.past;
    match s.reader
    case RIdle => s.(reader := RRead)
    case RRead => Received(s, c.data).(reader := if c.data == [] && !c.failed then RIdle else RTestFlag(c.failed))
    case RTestFlag(failed) => if s.flag then s.(reader := RIdle) else s.(reader := RLock(failed))
    case RLock(failed) => s.(mutex := Owner.ByReader, reader := if failed then RCloseOld else RCloseFlag)
    case RCloseOld => s.With(s.Conn().Close()).(reader := RDial, past := h.(replay := Dialling))
    case RDial => Redialled(s, c.ok)
    case RReplayFirst => FirstWritten(s, c.splitLen, c.n, c.failed, c.scratch)
    case RReplaySecond => SecondWritten(s, c.n, c.failed)
    case RTestReadClosed => s.(reader := if s.readCloseFlag then RShutRead else RTestWriteClosed)
    case RShutRead => s.With(s.Conn().Shut(ReadHalf)).(reader := RTestWriteClosed)
    case RTestWriteClosed => s.(reader := if s.writeCloseFlag then RShutWrite else RApplyReadDeadline)
    case RShutWrite => s.With(s.Conn().Shut(WriteHalf)).(reader := RApplyReadDeadline)
    case RApplyReadDeadline => s.With(s.Conn().SetReadDeadline(s.readDeadline)).(reader := RApplyWriteDeadline)
    case RApplyWriteDeadline => s.With(s.Conn().SetWriteDeadline(s.writeDeadline)).(reader := RReadAgain)
    case RReadAgain => Received(s, c.data).(reader := RCloseFlag)
    case RCloseFlag => s.(flag := true, reader := RUnsetDeadline, past := h.(flagCloses := h.flagCloses + 1))
    case RUnsetDeadline =>
      s.With(s.Conn().SetReadDeadline(Unset)).(reader := RClearHello, past := h.(lastRead := Unset))
    case RClearHello => s.(hello := [], reader := RUnlock)
    case RUnlock => s.(mutex := Free, reader := RIdle)
  }

  // ----- Writer: Write, copyOnce and ReadFrom -----

  predicate WriterEnabled(s: State, c: Choice) {
    var w := s.writer;
    && s.cur < |s.conns| && w.conn < |s.conns| && w.n <= |w.b|
    && match w.pc
       case WIdle => c.CallWrite? || c.CallReadFrom?
       case WLock => s.mutex.Free?
       case WProvisional => c.Accepts? && s.Conn().MayAccept(w.b, c.n, c.failed)
       case WSetDeadline => c.RetryDeadline?
       case WAwaitFlag => s.flag
       case WRelock => s.mutex.Free?
       case WResume => c.Accepts? && s.conns[w.conn].MayAccept(w.b[w.n..], c.n, c.failed)
       case WFinal => c.Accepts? && s.conns[w.conn].MayAccept(w.b, c.n, c.failed)
       case WBulk => c.Eof? || (c.Chunk? && s.conns[w.conn].MayAccept(c.b, c.n, c.n < |c.b|))
       case _ => true
  }

  /** Connection `i` accepts the first `n` octets of `b`. */
  function Wrote(s: State, i: nat, b: seq<byte>, n: nat): State
    requires i < |s.conns| && n <= |b|
  {
    s.(conns := s.conns[i := s.conns[i].Accept(b, n)], past := s.past.(accepted := s.past.accepted + b[..n]))
  }

  /** The call returns: `octets` are what its result counts as written. */
  function Returned(s: State, octets: seq<byte>): State {
    s.(writer := IDLE, past := s.past.(reported := s.past.reported + octets))
  }

  function At(s: State, pc: WriterPc): State {
    s.(writer := s.writer.(pc := pc))
  }

  function WriterAfter(s: State, c: Choice): State
    requires WriterEnabled(s, c)
  {
    var w := s.writer;
    match w.pc
    case WIdle => if c.CallWrite? then s.(writer := Writer(WTestFlag, c.b, 0, false, 0)) else At(s, WTestForBulk)
    case WTestFlag => At(s, if s.flag then WLoadFinal else WLock)
    case WLock => At(s, WRetest).(mutex := Owner.ByWriter)
    case WRetest => At(s, if s.flag then WUnlockUnattempted else WProvisional)
    case WProvisional => Wrote(s, s.cur, w.b, c.n).(writer := w.(pc := WAppend, n := c.n, failed := c.failed))
    case WAppend => At(s, WSetDeadline).(hello := s.hello + w.b[..w.n])
    case WSetDeadline => At(s.With(s.Conn().SetReadDeadline(Provisional(c.at))), WUnlock)
    case WUnlock => if w.failed then At(s, WAwaitFlag).(mutex := Free) else Returned(s, w.b[..w.n]).(mutex := Free)
    case WUnlockUnattempted => At(s, WLoadFinal).(mutex := Free)
    case WAwaitFlag => At(s, WRelock)
    case WRelock => At(s, WLoadConn).(mutex := Owner.ByWriter)
    case WLoadConn => s.(writer := w.(pc := WUnlockAgain, conn := s.cur))
    case WUnlockAgain => At(s, WResume).(mutex := Free)
    case WResume =>
      if w.n == |w.b| then Returned(s, w.b)
      else Returned(Wrote(s, w.conn, w.b[w.n..], c.n), w.b[..w.n + c.n])
    case WLoadFinal => s.(writer := w.(pc := WFinal, conn := s.cur))
    case WFinal => Returned(Wrote(s, w.conn, w.b, c.n), w.b[..c.n])
    // ReadFrom: copyOnce writes go through Write; once the flag is closed the rest is copied directly.
    case WTestForBulk => At(s, if s.flag then WLoadForBulk else WIdle)
    case WLoadForBulk => s.(writer := w.(pc := WBulk, conn := s.cur))
    case WBulk => if c.Eof? then s.(writer := IDLE) else Returned(Wrote(s, w.conn, c.b, c.n), c.b[..c.n]).(writer := w)
  }

  // ----- CloseRead and CloseWrite, by any number of threads -----

  predicate CloserEnabled(s: State, id: nat, c: Choice) {
    && s.cur < |s.conns|
    && if id !in s.closers then c.CallClose? else s.closers[id].CLock? ==> s.mutex.Free?
  }

  function CloserAfter(s: State, id: nat, c: Choice): State
    requires CloserEnabled(s, id, c)
  {
    if id !in s.closers then
      var stored := if c.half.ReadHalf? then s.(readCloseFlag := true) else s.(writeCloseFlag := true);
      stored.(closers := s.closers[id := CLock(c.half)])
    else
      match s.closers[id]
      case CLock(half) => s.(mutex := Owner.ByCloser(id), closers := s.closers[id := CShut(half)])
      case CShut(half) => s.With(s.Conn().Shut(half)).(closers := s.closers[id := CUnlock(half)])
      case CUnlock(_) => s.(mutex := Free, closers := s.closers - {id})
  }

  // ----- SetReadDeadline and SetWriteDeadline, by any number of threads -----

  predicate SetterEnabled(s: State, id: nat, c: Choice) {
    && s.cur < |s.conns|
    && if id !in s.setters then c.CallSetDeadline? && !c.d.Provisional?
       else s.setters[id].SLock? ==> s.mutex.Free?
  }

  function SetterAfter(s: State, id: nat, c: Choice): State
    requires SetterEnabled(s, id, c)
  {
    if id !in s.setters then s.(setters := s.setters[id := SLock(c.half, c.d)])
    else
      match s.setters[id]
      case SLock(half, d) => s.(mutex := Owner.BySetter(id), setters := s.setters[id := SStore(half, d)])
      case SStore(half, d) =>
        var stored := if half.ReadHalf? then s.(readDeadline := d) else s.(writeDeadline := d);
        stored.(setters := s.setters[id := SApply(half, d)])
      case SApply(half, d) =>
        var next := s.(setters := s.setters[id := SUnlock]);
        if half.WriteHalf? then next.With(s.Conn().SetWriteDeadline(d))
        else if s.flag then next.With(s.Conn().SetReadDeadline(d)).(past := s.past.(lastRead := d))
        else next
      case SUnlock => s.(mutex := Free, setters := s.setters - {id})
  }

  // ----- Runs -----

  predicate Enabled(s: State, step: Step) {
    match step
    case ByReader(c) => ReaderEnabled(s, c)
    case ByWriter(c) => WriterEnabled(s, c)
    case ByCloser(id, c) => CloserEnabled(s, id, c)
    case BySetter(id, c) => SetterEnabled(s, id, c)
  }

  function After(s: State, step: Step): State
    requires Enabled(s, step)
  {
    match step
    case ByReader(c) => ReaderAfter(s, c)
    case ByWriter(c) => WriterAfter(s, c)
    case ByCloser(id, c) => CloserAfter(s, id, c)
    case BySetter(id, c) => SetterAfter(s, id, c)
  }

  /** The steps can be taken one after the other from `s`. */
  predicate Possible(s: State, steps: seq<Step>)
    decreases |steps|
  {
    steps == [] || (Enabled(s, steps[0]) && Possible(After(s, steps[0]), steps[1..]))
  }

  function Run(s: State, steps: seq<Step>): State
    requires Possible(s, steps)
    decreases |steps|
  {
    if steps == [] then s else Run(After(s, steps[0]), steps[1..])
  }
}
