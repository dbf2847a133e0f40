/**
 * The responses of one DNS-over-TCP client: forwardQuery as one goroutine runs it, and any number
 * of them writing to the same connection.
 */
module Responders {
  import opened Bytes
  import opened Framing
  import opened TcpConns

  /** What Resolver.Query returned: a response, an error, both, or neither. */
  datatype Answer = Answer(resp: Option<seq<byte>>, failed: bool)

  /** The octets of the response; a nil response has none. */
  function Payload(a: Answer): seq<byte> {
    if a.resp.Some? then a.resp.value else []
  }

  /** forwardQuery writes something: there is a response, or no error to report, and it fits. */
  predicate Writes(a: Answer) {
    (a.resp.Some? || !a.failed) && Fits(Payload(a))
  }

  /** What is written: every response that fits, and an empty one for neither a response nor an error. */
  lemma WritesExactly(a: Answer)
    ensures Writes(a) <==> if a.resp.Some? then |a.resp.value| <= 65535 else !a.failed
    ensures Writes(a) && a.resp.Some? ==>
              Frame(Payload(a)) == [|a.resp.value| / 256, |a.resp.value| % 256] + a.resp.value
    ensures Writes(a) && a.resp.None? ==> Frame(Payload(a)) == [0, 0]
  {
    FrameOctets(Payload(a));
  }

  method ForwardQuery(a: Answer, c: TcpConn) returns (err: bool)
    modifies c`sent, c`writes, c`errors
    ensures !Writes(a) ==> err && c.writes == old(c.writes) && c.sent == old(c.sent)
    ensures Writes(a) ==> c.writes == old(c.writes) + [Frame(Payload(a))]
    ensures Writes(a) ==> exists n ::
              && 0 <= n <= |Frame(Payload(a))| && c.sent == old(c.sent) + Frame(Payload(a))[..n]
              && (n < |Frame(Payload(a))| ==> err)
    ensures err <==> a.failed || !Writes(a) || old(c.errors) < c.errors
    // An error without a response writes nothing; an absent response without an error is a frame without a message.
    ensures a.resp.None? && a.failed ==> err && c.writes == old(c.writes)
    ensures a.resp.None? && !a.failed ==> c.writes == old(c.writes) + [[0, 0]]
    ensures a.resp.Some? ==>
              var r := a.resp.value;
              c.writes == old(c.writes) + (if |r| <= 65535 then [[|r| / 256, |r| % 256] + r] else [])
  {
    if a.resp.None? && a.failed {
      return true;
    }
    WritesExactly(a);
    var resp := Payload(a);
    var rlen := |resp|;
    if rlen > MAX_UINT16 {
      return true;
    }
    var rlbuf := new byte[rlen + 2];
    rlbuf[0], rlbuf[1] := rlen / 0x100, rlen % 0x100;
    forall i | 0 <= i < rlen {
      rlbuf[i + 2] := resp[i];
    }
    assert rlbuf[..] == Frame(resp);
    var n, failed := c.Write(rlbuf[..]);
    assert 0 <= n <= |Frame(resp)| && c.sent == old(c.sent) + Frame(resp)[..n];
    if failed || n != rlbuf.Length {
      return true;
    }
    err := a.failed;
  }

  method ForwardQueryAndCheck(a: Answer, c: TcpConn)
    modifies c
    ensures c.writes == old(c.writes) + (if Writes(a) then [Frame(Payload(a))] else [])
    ensures c.closed == (old(c.closed) || a.failed || !Writes(a) || old(c.errors) < c.errors)
  {
    var err := ForwardQuery(a, c);
    if err {
      c.Close();
    }
  }

  // ----- Any number of responders -----

  datatype Delivery = Delivery(id: nat, payload: seq<byte>)

  /**
   * `dispatched` queries have a responder each, numbered from 0; those in `asking` have not written
   * yet, those in `closing` will close the connection.  `dead` is a connection that accepts nothing more.
   */
  datatype State = State(
    dispatched: nat, asking: set<nat>, closing: set<nat>, dead: bool, out: seq<byte>,
    delivered: seq<Delivery>, torn: seq<byte>, written: multiset<seq<byte>>)

  const INITIAL := State(0, {}, {}, false, [], [], [], multiset{})

  datatype Step =
    | Dispatch                                 // Accept starts a responder
    | Respond(id: nat, answer: Answer, n: nat) // its single Write accepts n octets
    | CloseAfterError(id: nat)
    | StopAccepting                            // Accept's loop ends and closes the connection

  predicate Enabled(s: State, step: Step) {
    match step
    case Dispatch => true
    case Respond(id, a, n) => id in s.asking && (Writes(a) ==> n <= 2 + |Payload(a)| && (s.dead ==> n == 0))
    case CloseAfterError(id) => id in s.closing
    case StopAccepting => true
  }

  function After(s: State, step: Step): State
    requires Enabled(s, step)
  {
    match step
    case Dispatch => s.(dispatched := s.dispatched + 1, asking := s.asking + {s.dispatched})
    case Respond(id, a, n) =>
      var done := s.(asking := s.asking - {id});
      if !Writes(a) then done.(closing := s.closing + {id})
      else
        var f := Frame(Payload(a));
        var wrote := done.(out := s.out + f[..n]);
        if n < |f| then
          // A connection whose write came up short accepts nothing more.
          wrote.(dead := true, torn := s.torn + f[..n], closing := s.closing + {id})
        else
          wrote.(delivered := s.delivered + [Delivery(id, Payload(a))], written := s.written + multiset{Payload(a)},
                 closing := if a.failed then s.closing + {id} else s.closing)
    case CloseAfterError(id) => s.(dead := true, closing := s.closing - {id})
    case StopAccepting => s.(dead := true)
  }

  function Payloads(ds: seq<Delivery>): (ps: seq<seq<byte>>)
    ensures |ps| == |ds| && forall i :: 0 <= i < |ds| ==> ps[i] == ds[i].payload
  {
    seq(|ds|, i requires 0 <= i < |ds| => ds[i].payload)
  }

  /** What the client can decode so far. */
  predicate Decodes(s: State) {
    && AllFit(Payloads(s.delivered))
    && s.out == Frames(Payloads(s.delivered)) + s.torn
    && !HasFrame(s.torn)
    && (s.torn != [] ==> s.dead)
  }

  ghost predicate Distinct(s: State) {
    && (forall id :: id in s.asking || id in s.closing ==> id < s.dispatched)
    && (forall i :: 0 <= i < |s.delivered| ==> s.delivered[i].id < s.dispatched && s.delivered[i].id !in s.asking)
    && (forall i, j :: 0 <= i < j < |s.delivered| ==> s.delivered[i].id != s.delivered[j].id)
  }

  ghost predicate Inv(s: State) {
    Decodes(s) && Distinct(s) && s.written == multiset(Payloads(s.delivered))
  }

  lemma PartOfFrameIsNone(msg: seq<byte>, n: nat)
    requires Fits(msg) && n < 2 + |msg|
    ensures !HasFrame(Frame(msg)[..n])
  {
    if n >= 2 {
      assert Frame(msg)[..n][0] == PutUint16(|msg|)[0] && Frame(msg)[..n][1] == PutUint16(|msg|)[1];
    }
  }

  /** A write that comes up short leaves part of a frame, and only the first one leaves any. */
  lemma ShortWriteKeeps(s: State, id: nat, a: Answer, n: nat)
    requires Inv(s) && Enabled(s, Respond(id, a, n)) && Writes(a) && n < 2 + |Payload(a)|
    ensures Inv(After(s, Respond(id, a, n)))
  {
    hide Frames, Payloads;
    var t, part := After(s, Respond(id, a, n)), Frame(Payload(a))[..n];
    PartOfFrameIsNone(Payload(a), n);
    TornOnce(Frames(Payloads(s.delivered)), s.torn, part);
    assert t == s.(asking := s.asking - {id}, closing := s.closing + {id}, dead := true,
                   out := s.out + part, torn := s.torn + part);
  }

  lemma TornOnce(whole: seq<byte>, torn: seq<byte>, part: seq<byte>)
    requires torn == [] || part == []
    ensures torn + part == (if torn == [] then part else torn)
    ensures (whole + torn) + part == whole + (torn + part)
  {
  }

  lemma WholeWriteDecodes(s: State, p: seq<byte>, t: State)
    requires Decodes(s) && !s.dead && Fits(p)
    requires t.out == s.out + Frame(p) && Payloads(t.delivered) == Payloads(s.delivered) + [p] && t.torn == s.torn
    ensures Decodes(t)
  {
    hide Frames, Frame, Payloads;
    FramesAppend(Payloads(s.delivered), p);
    assert s.out == Frames(Payloads(s.delivered));
    assert t.out == Frames(Payloads(t.delivered)) + [];
  }

  lemma WholeWriteKeeps(s: State, id: nat, a: Answer, n: nat)
    requires Inv(s) && Enabled(s, Respond(id, a, n)) && Writes(a) && n == 2 + |Payload(a)|
    ensures Inv(After(s, Respond(id, a, n)))
  {
    hide Frames, Decodes;
    var t, p := After(s, Respond(id, a, n)), Payload(a);
    assert Frame(p)[..n] == Frame(p);
    assert Payloads(t.delivered) == Payloads(s.delivered) + [p];
    WholeWriteDecodes(s, p, t);
  }

  lemma StepKeeps(s: State, step: Step)
    requires Inv(s) && Enabled(s, step)
    ensures Inv(After(s, step))
  {
    if step.Respond? && Writes(step.answer) {
      if step.n < 2 + |Payload(step.answer)| {
        ShortWriteKeeps(s, step.id, step.answer, step.n);
      } else {
        WholeWriteKeeps(s, step.id, step.answer, step.n);
      }
    }
  }

  lemma InitialInv()
    ensures Inv(INITIAL)
  {
    assert Payloads([]) == [];
  }

  predicate Possible(s: State, steps: seq<Step>)
    decreases |steps|
  {
    steps == [] || (Enabled(s, steps[0]) && Possible(After(s, steps[0]), steps[1..]))
  }

  function Run(s: State, steps: seq<Step>): State
    requires Possible(s, steps)
    decreases |steps|
  {
    if steps == [] then s else Run(After(s, steps[0]), steps[1..])
  }

  lemma {:induction false} RunKeeps(s: State, steps: seq<Step>)
    requires Inv(s) && Possible(s, steps)
    ensures Inv(Run(s, steps))
    decreases |steps|
  {
    if steps == [] {
    } else {
      StepKeeps(s, steps[0]);
      RunKeeps(After(s, steps[0]), steps[1..]);
    }
  }

  /**
   * No misframing, whatever the order in which the responders write: the client decodes exactly the
   * responses written in full, each once and for a different query, and at most a torn last frame.
   */
  lemma ClientDecodesResponses(steps: seq<Step>)
    requires Possible(INITIAL, steps)
    ensures var s := Run(INITIAL, steps);
            && Unframe(s.out) == Unframed(Payloads(s.delivered), s.torn)
            && multiset(Unframe(s.out).msgs) == s.written
            && (forall i, j :: 0 <= i < j < |s.delivered| ==> s.delivered[i].id != s.delivered[j].id)
            && (forall i :: 0 <= i < |s.delivered| ==> s.delivered[i].id < s.dispatched)
            && (s.torn != [] ==> s.dead)
  {
    hide Unframe, Frames, Payloads, HasFrame;
    InitialInv();
    RunKeeps(INITIAL, steps);
    var s := Run(INITIAL, steps);
    FramesThenRest(Payloads(s.delivered), s.torn);
  }

  // ----- What an error costs the others -----

  /** A responder is going to close the connection exactly if its answer was an error, or could not be written whole. */
  lemma ErrorsClose(s: State, id: nat, a: Answer, n: nat)
    requires Enabled(s, Respond(id, a, n)) && id !in s.closing
    ensures var t := After(s, Respond(id, a, n));
            Enabled(t, CloseAfterError(id)) <==> a.failed || !Writes(a) || n < 2 + |Payload(a)|
  {
  }

  lemma {:induction false} DeadStaysSilent(s: State, steps: seq<Step>)
    requires s.dead && Possible(s, steps)
    ensures var t := Run(s, steps);
            t.dead && t.out == s.out && t.delivered == s.delivered && t.torn == s.torn
    decreases |steps|
  {
    if steps == [] {
    } else {
      var t := After(s, steps[0]);
      if steps[0].Respond? && Writes(steps[0].answer) {
        assert t.out == s.out + [] && t.torn == s.torn + [];
      }
      DeadStaysSilent(t, steps[1..]);
    }
  }

  /**
   * After an error, a delivered SERVFAIL included, the client receives nothing more: no query whose
   * responder was still asking is ever answered, in any continuation.
   */
  lemma ErrorSilencesOthers(before: seq<Step>, id: nat, later: seq<Step>)
    requires Possible(INITIAL, before) && Enabled(Run(INITIAL, before), CloseAfterError(id))
    requires Possible(After(Run(INITIAL, before), CloseAfterError(id)), later)
    ensures var s := Run(INITIAL, before);
            var t := Run(After(s, CloseAfterError(id)), later);
            && t.out == s.out && t.delivered == s.delivered
            && (forall i :: 0 <= i < |t.delivered| ==> t.delivered[i].id !in s.asking)
  {
    hide Decodes, Payloads;
    InitialInv();
    RunKeeps(INITIAL, before);
    DeadStaysSilent(After(Run(INITIAL, before), CloseAfterError(id)), later);
  }

  /** Two queries, the first answered with SERVFAIL: the second has an answer that never arrives. */
  lemma SecondAnswerLost(servfail: seq<byte>, answer: seq<byte>) returns (steps: seq<Step>)
    requires Fits(servfail) && Fits(answer)
    ensures Possible(INITIAL, steps) && Respond(1, Answer(Some(answer), false), 0) in steps
    ensures Run(INITIAL, steps).delivered == [Delivery(0, servfail)] && Run(INITIAL, steps).asking == {}
  {
    var first := Respond(0, Answer(Some(servfail), true), 2 + |servfail|);
    var second := Respond(1, Answer(Some(answer), false), 0);
    var s2 := After(After(INITIAL, Dispatch), Dispatch);
    assert s2.asking == {0, 1} && s2.dispatched == 2;
    var s3 := After(s2, first);
    var s4 := After(s3, CloseAfterError(0));
    var s5 := After(s4, second);
    assert s5.asking == {} && s5.delivered == [Delivery(0, servfail)];
    var t5: seq<Step> := [second];
    var t4 := [CloseAfterError(0)] + t5;
    var t3 := [first] + t4;
    var t2 := [Dispatch] + t3;
    steps := [Dispatch] + t2;
    assert t5[1..] == [] && Possible(s5, []);
    assert Possible(s4, t5) && Run(s4, t5) == s5;
    assert t4[1..] == t5 && Possible(s3, t4) && Run(s3, t4) == s5;
    assert t3[1..] == t4 && Possible(s2, t3) && Run(s2, t3) == s5;
    assert t2[1..] == t3 && Possible(After(INITIAL, Dispatch), t2) && Run(After(INITIAL, Dispatch), t2) == s5;
    assert steps[1..] == t2;
  }
}
