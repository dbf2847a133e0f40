/**
 * tcpWrapConn of transport/tcp.go: any number of goroutines closing one connection, and the one that
 * reports to the listener when both halves are done.
 */
module TcpWraps {
  import opened TcpConns

  datatype Half = ReadHalf | WriteHalf

  datatype Call = Close | CloseRead | CloseWrite

  /**
   * A closing call about to mark `half`, or about to call wg.Done after winning the CompareAndSwap.
   * `last` is the deferred close of the write half that Close still has to run.
   */
  datatype Closer = Mark(half: Half, last: bool) | Done(last: bool)

  datatype Waiter = Waiting | Woken | Fired

  /** `counter` is the WaitGroup's. */
  datatype State = State(
    counter: int, rDone: bool, wDone: bool, closers: map<nat, Closer>, waiter: Waiter, fired: nat)

  /** makeTCPWrapConn: wg.Add(2) before the waiting goroutine starts. */
  const INITIAL := State(2, false, false, map[], Waiting, 0)

  datatype Step =
    | Begin(t: nat, call: Call)
    | Advance(t: nat)
    | Wake   // wg.Wait returns
    | Fire   // listener.OnTCPSocketClosed

  predicate IsDone(s: State, half: Half) {
    if half.ReadHalf? then s.rDone else s.wDone
  }

  predicate Enabled(s: State, step: Step) {
    match step
    case Begin(t, _) => t !in s.closers
    case Advance(t) => t in s.closers
    case Wake => s.waiter.Waiting? && s.counter == 0
    case Fire => s.waiter.Woken?
  }

  function Next(s: State, t: nat, last: bool): map<nat, Closer> {
    if last then s.closers[t := Mark(WriteHalf, false)] else s.closers - {t}
  }

  function After(s: State, step: Step): State
    requires Enabled(s, step)
  {
    match step
    // Deferred calls run last to first: Close marks the read half and then the write half.
    case Begin(t, call) =>
      s.(closers := s.closers[t := Mark(if call.CloseWrite? then WriteHalf else ReadHalf, call.Close?)])
    case Advance(t) =>
      (match s.closers[t]
       case Mark(half, last) =>
         if IsDone(s, half) then s.(closers := Next(s, t, last))
         else
           var marked := if half.ReadHalf? then s.(rDone := true) else s.(wDone := true);
           marked.(closers := s.closers[t := Done(last)])
       case Done(last) => s.(counter := s.counter - 1, closers := Next(s, t, last)))
    case Wake => s.(waiter := Woken)
    case Fire => s.(waiter := Fired, fired := s.fired + 1)
  }

  /** The goroutines that have marked a half and not yet called wg.Done. */
  function Owing(s: State): set<nat> {
    set t | t in s.closers && s.closers[t].Done?
  }

  function NotDone(s: State): nat {
    (if s.rDone then 0 else 1) + (if s.wDone then 0 else 1)
  }

  /** Every half is either not marked, or owed by one goroutine, or already taken off the counter. */
  ghost predicate Inv(s: State) {
    && s.counter == NotDone(s) + |Owing(s)|
    && (!s.waiter.Waiting? ==> s.counter == 0)
    && s.fired == (if s.waiter.Fired? then 1 else 0)
  }

  lemma BeginKeeps(s: State, t: nat, call: Call)
    requires Inv(s) && Enabled(s, Begin(t, call))
    ensures Inv(After(s, Begin(t, call)))
  {
    assert Owing(After(s, Begin(t, call))) == Owing(s);
  }

  /** The half was marked before: the call owes nothing. */
  lemma MarkedBeforeKeeps(s: State, t: nat)
    requires Inv(s) && t in s.closers && s.closers[t].Mark? && IsDone(s, s.closers[t].half)
    ensures Inv(After(s, Advance(t)))
  {
    assert Owing(After(s, Advance(t))) == Owing(s);
  }

  /** Marking a half makes the call owe a wg.Done. */
  lemma MarkKeeps(s: State, t: nat)
    requires Inv(s) && t in s.closers && s.closers[t].Mark? && !IsDone(s, s.closers[t].half)
    ensures Inv(After(s, Advance(t)))
  {
    assert t !in Owing(s);
    assert Owing(After(s, Advance(t))) == Owing(s) + {t};
  }

  lemma DoneKeeps(s: State, t: nat)
    requires Inv(s) && t in s.closers && s.closers[t].Done?
    ensures Inv(After(s, Advance(t)))
  {
    assert t in Owing(s);
    assert Owing(After(s, Advance(t))) == Owing(s) - {t};
  }

  lemma WaiterKeeps(s: State, step: Step)
    requires Inv(s) && Enabled(s, step) && (step.Wake? || step.Fire?)
    ensures Inv(After(s, step))
  {
    assert Owing(After(s, step)) == Owing(s);
  }

  lemma StepKeeps(s: State, step: Step)
    requires Inv(s) && Enabled(s, step)
    ensures Inv(After(s, step))
  {
    match step
    case Begin(t, call) => BeginKeeps(s, t, call);
    case Advance(t) =>
      if s.closers[t].Done? {
        DoneKeeps(s, t);
      } else if IsDone(s, s.closers[t].half) {
        MarkedBeforeKeeps(s, t);
      } else {
        MarkKeeps(s, t);
      }
    case _ => WaiterKeeps(s, step);
  }

  predicate Possible(s: State, steps: seq<Step>)
    decreases |steps|
  {
    steps == [] || (Enabled(s, steps[0]) && Possible(After(s, steps[0]), steps[1..]))
  }

  function Run(s: State, steps: seq<Step>): State
    requires Possible(s, steps)
    decreases |steps|
  {
    if steps == [] then s else Run(After(s, steps[0]), steps[1..])
  }

  lemma {:induction false} RunKeeps(s: State, steps: seq<Step>)
    requires Inv(s) && Possible(s, steps)
    ensures Inv(Run(s, steps))
    decreases |steps|
  {
    if steps == [] {
    } else {
      StepKeeps(s, steps[0]);
      RunKeeps(After(s, steps[0]), steps[1..]);
    }
  }

  /**
   * Close accounting in every run, whatever is called, how often and by whom: the counter never goes
   * negative, and the listener hears of the connection at most once and only when both halves are done.
   */
  lemma ClosedOnce(steps: seq<Step>)
    requires Possible(INITIAL, steps)
    ensures var s := Run(INITIAL, steps);
            s.counter >= 0 && s.fired <= 1 && (s.fired == 1 ==> s.rDone && s.wDone)
  {
    assert Owing(INITIAL) == {};
    RunKeeps(INITIAL, steps);
  }

  /** Once both halves are marked the report is never out of reach: no wg.Done is lost. */
  lemma {:induction false} ReportFollows(s: State) returns (rest: seq<Step>)
    requires Inv(s) && s.rDone && s.wDone
    ensures Possible(s, rest) && Run(s, rest).fired == 1
    ensures forall i :: 0 <= i < |rest| ==> !rest[i].Begin?
    decreases s.counter
  {
    if s.waiter.Fired? {
      rest := [];
    } else if s.waiter.Woken? {
      rest := [Fire];
      assert rest[1..] == [];
    } else if s.counter == 0 {
      var t := After(s, Wake);
      WaiterKeeps(s, Wake);
      assert [Fire][1..] == [];
      assert Run(t, [Fire]).fired == 1;
      rest := [Wake, Fire];
      assert rest[1..] == [Fire];
    } else {
      assert |Owing(s)| > 0;
      var t :| t in Owing(s);
      DoneKeeps(s, t);
      var later := ReportFollows(After(s, Advance(t)));
      rest := [Advance(t)] + later;
      assert rest[1..] == later;
    }
  }

  /** In particular after any run that has closed both halves. */
  lemma BothHalvesReport(steps: seq<Step>) returns (rest: seq<Step>)
    requires Possible(INITIAL, steps) && Run(INITIAL, steps).rDone && Run(INITIAL, steps).wDone
    ensures Possible(Run(INITIAL, steps), rest) && Run(Run(INITIAL, steps), rest).fired == 1
  {
    assert Owing(INITIAL) == {};
    RunKeeps(INITIAL, steps);
    rest := ReportFollows(Run(INITIAL, steps));
  }

  // ----- The object -----

  /** Some run reaches `t`. */
  ghost predicate Reachable(t: State) {
    exists steps :: Possible(INITIAL, steps) && Run(INITIAL, steps) == t
  }

  lemma {:induction false} RunThen(s: State, steps: seq<Step>, step: Step)
    requires Possible(s, steps) && Enabled(Run(s, steps), step)
    ensures Possible(s, steps + [step]) && Run(s, steps + [step]) == After(Run(s, steps), step)
    decreases |steps|
  {
    if steps == [] {
      assert Possible(After(s, step), []);
      assert (steps + [step])[1..] == [];
    } else {
      RunThen(After(s, steps[0]), steps[1..], step);
      assert (steps + [step])[1..] == steps[1..] + [step];
    }
  }

  lemma ReachableThen(s: State, step: Step) returns (t: State)
    requires Reachable(s) && Enabled(s, step)
    ensures t == After(s, step) && Reachable(t)
  {
    var steps :| Possible(INITIAL, steps) && Run(INITIAL, steps) == s;
    RunThen(INITIAL, steps, step);
    t := After(s, step);
  }

  /** Without a closing call under way, the counter is the number of halves not done. */
  lemma OpenHalves(s: State)
    requires Reachable(s) && s.closers == map[]
    ensures s.counter == NotDone(s)
  {
    var steps :| Possible(INITIAL, steps) && Run(INITIAL, steps) == s;
    assert Owing(INITIAL) == {};
    RunKeeps(INITIAL, steps);
    assert Owing(s) == {};
  }

  /** One uninterrupted closing call, as a run: the halves it closes are marked and taken off the counter. */
  lemma ClosingCall(s: State, call: Call) returns (t: State)
    requires Reachable(s) && s.closers == map[]
    ensures Reachable(t)
    ensures t == s.(rDone := s.rDone || !call.CloseWrite?, wDone := s.wDone || !call.CloseRead?, counter := t.counter)
    ensures t.counter == NotDone(t)
  {
    hide Reachable;
    t := ReachableThen(s, Begin(0, call));
    t := Closed(t);
    if call.Close? {
      t := Closed(t);
    }
    assert t.closers == map[];
    OpenHalves(t);
  }

  /** conn.close for the half that the only active call marks next. */
  lemma Closed(s: State) returns (t: State)
    requires Reachable(s) && s.closers.Keys == {0} && s.closers[0].Mark?
    ensures Reachable(t)
    ensures var half := s.closers[0].half;
            t == s.(rDone := s.rDone || half.ReadHalf?, wDone := s.wDone || half.WriteHalf?,
                    counter := t.counter, closers := Next(s, 0, s.closers[0].last))
  {
    hide Reachable;
    var last := s.closers[0].last;
    t := ReachableThen(s, Advance(0));
    if t.closers != Next(s, 0, last) {
      t := ReachableThen(t, Advance(0));
    }
    assert t.closers == Next(s, 0, last);
  }

  /** tcpWrapConn, with calls that do not overlap; `counter` is that of the WaitGroup. */
  class TcpWrapConn {
    const inner: TcpConn
    var rDone: bool
    var wDone: bool
    var counter: int
    ghost var model: State

    ghost predicate Valid()
      reads this
    {
      && Reachable(model) && model.closers == map[]
      && model.rDone == rDone && model.wDone == wDone && model.counter == counter
    }

    constructor (inner: TcpConn)
      ensures Valid() && this.inner == inner && !rDone && !wDone && counter == 2
    {
      this.inner, rDone, wDone, counter, model := inner, false, false, 2, INITIAL;
      new;
      assert Possible(INITIAL, []) && Run(INITIAL, []) == INITIAL;
    }

    /** close(&conn.rDone) or close(&conn.wDone). */
    method Done(half: Half)
      modifies this`rDone, this`wDone, this`counter
      ensures rDone == (old(rDone) || half.ReadHalf?) && wDone == (old(wDone) || half.WriteHalf?)
      ensures counter == old(counter) - (if (if half.ReadHalf? then old(rDone) else old(wDone)) then 0 else 1)
    {
      if half.ReadHalf? {
        if !rDone {
          rDone := true;
          counter := counter - 1;
        }
      } else if !wDone {
        wDone := true;
        counter := counter - 1;
      }
    }

    /** The connection is closed, and then, deferred calls running last to first, both halves are done. */
    method Close()
      requires Valid()
      modifies this`rDone, this`wDone, this`counter, this`model
      modifies inner`closed, inner`readDeadline, inner`writeDeadline
      ensures Valid() && inner.closed && rDone && wDone && counter == 0
    {
      hide Reachable;
      inner.Close();
      Done(ReadHalf);
      Done(WriteHalf);
      OpenHalves(model);
      model := ClosingCall(model, Call.Close);
    }

    method CloseRead() returns (failed: bool)
      requires Valid()
      modifies this`rDone, this`wDone, this`counter, this`model, inner`readShut
      ensures Valid() && (inner.closed || inner.readShut) && failed == (inner.closed || inner.reset)
      ensures rDone && wDone == old(wDone) && counter == (if wDone then 0 else 1)
    {
      hide Reachable;
      failed := inner.CloseRead();
      Done(ReadHalf);
      OpenHalves(model);
      model := ClosingCall(model, Call.CloseRead);
    }

    method CloseWrite() returns (failed: bool)
      requires Valid()
      modifies this`rDone, this`wDone, this`counter, this`model, inner`writeShut
      ensures Valid() && (inner.closed || inner.writeShut) && failed == (inner.closed || inner.reset)
      ensures wDone && rDone == old(rDone) && counter == (if rDone then 0 else 1)
    {
      hide Reachable;
      failed := inner.CloseWrite();
      Done(WriteHalf);
      OpenHalves(model);
      model := ClosingCall(model, Call.CloseWrite);
    }
  }
}
