/** Length-prefixed DNS messages on a stream (section 4.2.2 of RFC 1035, section 3.3 of RFC 7858). */
module Framing {
  import opened Bytes

  /** A message that the two length octets can announce. */
  predicate Fits(msg: seq<byte>) {
    |msg| <= MAX_UINT16
  }

  predicate AllFit(msgs: seq<seq<byte>>) {
    forall i :: 0 <= i < |msgs| ==> Fits(msgs[i])
  }

  function Frame(msg: seq<byte>): (f: seq<byte>)
    requires Fits(msg)
    ensures |f| == 2 + |msg|
  {
    PutUint16(|msg|) + msg
  }

  function Frames(msgs: seq<seq<byte>>): seq<byte>
    requires AllFit(msgs)
  {
    if msgs == [] then [] else Frame(msgs[0]) + Frames(msgs[1..])
  }

  /** A frame has arrived in full at the front of `s`. */
  predicate HasFrame(s: seq<byte>) {
    |s| >= 2 && |s| >= 2 + GetUint16(s)
  }

  function FirstMessage(s: seq<byte>): seq<byte>
    requires HasFrame(s)
  {
    s[2..2 + GetUint16(s)]
  }

  /** A frame is the length of the message, its high octet first, and then the message. */
  lemma FrameOctets(msg: seq<byte>)
    ensures Fits(msg) <==> |msg| <= 65535
    ensures Fits(msg) ==> Frame(msg) == [|msg| / 256, |msg| % 256] + msg
  {
  }

  lemma FirstFrameOctets(s: seq<byte>)
    ensures HasFrame(s) <==> |s| >= 2 && |s| >= 2 + 256 * (s[0] as int) + s[1] as int
    ensures HasFrame(s) ==> FirstMessage(s) == s[2..2 + 256 * (s[0] as int) + s[1] as int]
  {
    if |s| >= 2 {
      BigEndian(s);
    }
  }

  datatype Unframed = Unframed(msgs: seq<seq<byte>>, rest: seq<byte>)

  /** The messages of a stream as its receiver reads them. */
  function Unframe(s: seq<byte>): Unframed
    decreases |s|
  {
    if !HasFrame(s) then Unframed([], s)
    else
      var tail := Unframe(s[2 + GetUint16(s)..]);
      Unframed([FirstMessage(s)] + tail.msgs, tail.rest)
  }

  lemma FrameFirst(msg: seq<byte>, z: seq<byte>)
    requires Fits(msg)
    ensures var s := Frame(msg) + z;
            HasFrame(s) && GetUint16(s) == |msg| && FirstMessage(s) == msg && s[2 + GetUint16(s)..] == z
  {
    var s := Frame(msg) + z;
    assert s[..2] == PutUint16(|msg|);
    assert GetUint16(s) == GetUint16(s[..2]);
  }

  /** Only one message and rest spell a stream. */
  lemma FrameInjective(a: seq<byte>, y: seq<byte>, b: seq<byte>, z: seq<byte>)
    requires Fits(a) && Fits(b) && Frame(a) + y == Frame(b) + z
    ensures a == b && y == z
  {
    FrameFirst(a, y);
    FrameFirst(b, z);
  }

  lemma NoFrames()
    ensures Frames([]) == []
  {
  }

  lemma UnframeStep(msg: seq<byte>, tail: seq<byte>)
    requires Fits(msg)
    ensures Unframe(Frame(msg) + tail) == Unframed([msg] + Unframe(tail).msgs, Unframe(tail).rest)
  {
    hide Frame;
    FrameFirst(msg, tail);
  }

  lemma {:induction false} UnframeInvertsFrames(msgs: seq<seq<byte>>, z: seq<byte>)
    requires AllFit(msgs)
    ensures Unframe(Frames(msgs) + z) == Unframed(msgs + Unframe(z).msgs, Unframe(z).rest)
    decreases |msgs|
  {
    hide Frame, Unframe;
    if msgs == [] {
      assert Frames(msgs) + z == z && msgs + Unframe(z).msgs == Unframe(z).msgs;
    } else {
      var tail := Frames(msgs[1..]) + z;
      assert Frames(msgs) + z == Frame(msgs[0]) + tail;
      UnframeStep(msgs[0], tail);
      UnframeInvertsFrames(msgs[1..], z);
      assert [msgs[0]] + (msgs[1..] + Unframe(z).msgs) == msgs + Unframe(z).msgs;
    }
  }

  /** Frames and a rest that is none are read as these messages and this rest. */
  lemma FramesThenRest(msgs: seq<seq<byte>>, rest: seq<byte>)
    requires AllFit(msgs) && !HasFrame(rest)
    ensures Unframe(Frames(msgs) + rest) == Unframed(msgs, rest)
  {
    UnframeInvertsFrames(msgs, rest);
    assert Unframe(rest) == Unframed([], rest);
    assert msgs + [] == msgs;
  }

  lemma FirstMessageSpells(s: seq<byte>)
    requires HasFrame(s)
    ensures Fits(FirstMessage(s)) && s == Frame(FirstMessage(s)) + s[2 + GetUint16(s)..]
  {
    PutGetUint16(s[..2]);
    assert GetUint16(s[..2]) == GetUint16(s);
  }

  lemma FramesCons(msg: seq<byte>, msgs: seq<seq<byte>>, rest: seq<byte>)
    requires Fits(msg) && AllFit(msgs)
    ensures AllFit([msg] + msgs) && Frames([msg] + msgs) + rest == Frame(msg) + (Frames(msgs) + rest)
  {
    hide Frame;
    assert ([msg] + msgs)[1..] == msgs;
  }

  /** Reading loses nothing: the messages and the incomplete frame spell the stream again. */
  lemma {:induction false} UnframeLossless(s: seq<byte>)
    ensures var t := Unframe(s); AllFit(t.msgs) && s == Frames(t.msgs) + t.rest && !HasFrame(t.rest)
    decreases |s|
  {
    hide Frame, Frames, FirstMessage;
    if HasFrame(s) {
      var rest := s[2 + GetUint16(s)..];
      FirstMessageSpells(s);
      UnframeLossless(rest);
      FramesCons(FirstMessage(s), Unframe(rest).msgs, Unframe(rest).rest);
    } else {
      NoFrames();
      assert s == [] + s;
    }
  }

  lemma {:induction false} FramesAppend(a: seq<seq<byte>>, b: seq<byte>)
    requires AllFit(a) && Fits(b)
    ensures Frames(a + [b]) == Frames(a) + Frame(b)
    decreases |a|
  {
    if a == [] {
      assert a + [b] == [b] && [b][1..] == [];
    } else {
      assert (a + [b])[1..] == a[1..] + [b];
      FramesAppend(a[1..], b);
    }
  }
}
