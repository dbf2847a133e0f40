/** splitHello of transport/split/retrier.go: the first flight as two segments, and as two TLS records if it is one. */
module TlsSplit {
  import opened Bytes
  import opened TcpConns
  import opened TlsRecords

  const MIN_SPLIT := 6
  const MAX_SPLIT := 64
  const TYPE_HANDSHAKE: byte := 22

  function ClientHelloRecordLen(h: seq<byte>): Option<uint16> {
    if |h| < 5 then None
    else if h[0] != TYPE_HANDSHAKE then None
    else
      var ver := GetUint16(h[1..3]);
      if ver != 0x0301 && ver != 0x0302 && ver != 0x0303 && ver != 0x0304 then None
      else Some(GetUint16(h[3..5]))
  }

  /** The split lengths that some draw of the random number gives: the draw, but at most half of the hello. */
  predicate PossibleSplit(helloLen: nat, splitLen: nat) {
    if helloLen <= 1 then splitLen == 0
    else exists draw :: MIN_SPLIT <= draw <= MAX_SPLIT && splitLen == Min(draw, helloLen / 2)
  }

  /** The hello is fragmented at record level, not only at segment level. */
  predicate SplitsRecord(hello: seq<byte>, splitLen: nat) {
    && ClientHelloRecordLen(hello).Some?
    && 5 < splitLen <= |hello| / 2
    && splitLen - 5 < ClientHelloRecordLen(hello).value
  }

  /** First segment: with a record split its header announces only the fragment it carries. */
  function First(hello: seq<byte>, splitLen: nat): seq<byte>
    requires splitLen <= |hello|
  {
    if SplitsRecord(hello, splitLen)
    then hello[..3] + PutUint16(splitLen - 5) + hello[5..splitLen]
    else hello[..splitLen]
  }

  /** Second segment: with a record split, a header for the remainder precedes the untouched tail. */
  function Second(hello: seq<byte>, splitLen: nat): seq<byte>
    requires splitLen <= |hello|
  {
    if SplitsRecord(hello, splitLen)
    then hello[..3] + PutUint16(ClientHelloRecordLen(hello).value - (splitLen - 5)) + hello[splitLen..]
    else hello[splitLen..]
  }

  function Resent(hello: seq<byte>, splitLen: nat): (r: seq<byte>)
    requires splitLen <= |hello|
    ensures |r| == |hello| + (if SplitsRecord(hello, splitLen) then HEADER_LEN else 0)
  {
    First(hello, splitLen) + Second(hello, splitLen)
  }

  /** Which hellos are fragmented, on their octets: handshake records of TLS 1.0 to 1.3 that are cut inside. */
  lemma SplitsRecordExactly(h: seq<byte>, k: nat)
    ensures SplitsRecord(h, k) <==>
              && |h| >= 5 && h[0] == 22 && h[1] == 3 && 1 <= h[2] <= 4
              && 5 < k <= |h| / 2 && k - 5 < 256 * (h[3] as int) + h[4] as int
  {
    if |h| >= 5 {
      BigEndian(h[1..3]);
      BigEndian(h[3..5]);
    }
  }

  /** Which split lengths are drawn: 6 to 64, and at most half of the hello. */
  lemma PossibleSplitExactly(helloLen: nat, k: nat)
    ensures PossibleSplit(helloLen, k) <==>
              if helloLen <= 1 then k == 0
              else if helloLen / 2 < 6 then k == helloLen / 2
              else 6 <= k <= 64 && k <= helloLen / 2
  {
    if helloLen > 1 && helloLen / 2 >= 6 && 6 <= k <= 64 && k <= helloLen / 2 {
      assert k == Min(k, helloLen / 2);
    } else if helloLen > 1 && helloLen / 2 < 6 {
      assert Min(6, helloLen / 2) == helloLen / 2;
    }
  }

  /** The two segments on their octets: the cut is at `k`, and each fragment announces what it carries. */
  lemma SegmentOctets(h: seq<byte>, k: nat)
    requires k <= |h|
    ensures var first, second := First(h, k), Second(h, k);
            && |first| == k
            && if SplitsRecord(h, k) then
                 && |second| == |h| - k + 5
                 && first[..3] == second[..3] == h[..3]
                 && 256 * (first[3] as int) + first[4] as int == k - 5
                 && 256 * (second[3] as int) + second[4] as int == 256 * (h[3] as int) + h[4] as int - (k - 5)
                 && first[5..] == h[5..k] && second[5..] == h[k..]
               else first == h[..k] && second == h[k..]
  {
    if SplitsRecord(h, k) {
      var first, second := First(h, k), Second(h, k);
      BigEndian(h[3..5]);
      assert first[3..5] == PutUint16(k - 5);
      assert second[3..5] == PutUint16(ClientHelloRecordLen(h).value - (k - 5));
      BigEndian(first[3..5]);
      BigEndian(second[3..5]);
    }
  }

  /** What the first `n` octets of the replay are, for a stop in either segment. */
  lemma ResentPrefix(hello: seq<byte>, splitLen: nat, n: nat)
    requires splitLen <= |hello| && n <= |Resent(hello, splitLen)|
    ensures var first, second := First(hello, splitLen), Second(hello, splitLen);
            Resent(hello, splitLen)[..n] == if n <= |first| then first[..n] else first + second[..n - |first|]
  {
  }

  /** Without a record split the two segments are the hello itself. */
  lemma PlainResent(hello: seq<byte>, splitLen: nat)
    requires splitLen <= |hello| && !SplitsRecord(hello, splitLen)
    ensures Resent(hello, splitLen) == hello
  {
  }

  /**
   * Refragmentation preserves meaning: whatever follows on the connection, merging the first two
   * records the server reads gives exactly the records it would have read from the original hello.
   */
  lemma RefragmentationPreservesMeaning(hello: seq<byte>, splitLen: nat, z: seq<byte>)
    requires SplitsRecord(hello, splitLen)
    ensures var t := Deframe(Resent(hello, splitLen) + z);
            && CanCoalesce(t)
            && 0 < t.records[0].length && 0 < t.records[1].length
            && t.records[0].length + t.records[1].length == ClientHelloRecordLen(hello).value
            && CoalesceFirstTwo(t) == Deframe(hello + z)
  {
    hide Deframe, CanCoalesce, CoalesceFirstTwo, Resent, ClientHelloRecordLen;
    var recordLen, k, body := ClientHelloRecordLen(hello).value, splitLen - 5, hello[5..] + z;
    var body2 := hello[..3] + PutUint16(recordLen - k) + body[k..];
    SplitSpelled(hello, splitLen, z);
    MergeFragments(hello[..3], recordLen, k, body, body2, hello + z, Resent(hello, splitLen) + z);
  }

  /**
   * A replay that stops anywhere, in the middle of either segment or header, gives the server a prefix
   * of what the records of the hello carry, and no octet of a header as content.
   */
  lemma BrokenReplayCarriesPrefix(hello: seq<byte>, splitLen: nat, n: nat)
    requires splitLen <= |hello| && n <= |Resent(hello, splitLen)|
    ensures Contents(Deframe(Resent(hello, splitLen)[..n]).records) <= Contents(Deframe(hello).records)
  {
    hide Deframe, Contents, CanCoalesce, CoalesceFirstTwo, First, Second;
    BrokenOffContents(Resent(hello, splitLen), n);
    if SplitsRecord(hello, splitLen) {
      RefragmentationPreservesMeaning(hello, splitLen, []);
      assert Resent(hello, splitLen) + [] == Resent(hello, splitLen) && hello + [] == hello;
      CoalescedContents(Deframe(Resent(hello, splitLen)));
    } else {
      PlainResent(hello, splitLen);
    }
  }

  /** `out` carries the record at the front of `whole` in two fragments, the first of `k` octets. */
  lemma MergeFragments(tv: seq<byte>, recordLen: uint16, k: uint16, body: seq<byte>, body2: seq<byte>,
                       whole: seq<byte>, out: seq<byte>)
    requires |tv| == 3 && 0 < k < recordLen && k <= |body|
    requires whole == tv + PutUint16(recordLen) + body
    requires body2 == tv + PutUint16(recordLen - k) + body[k..]
    requires out == tv + PutUint16(k) + (body[..k] + body2)
    ensures var t := Deframe(out);
            && CanCoalesce(t)
            && t.records[0].length == k && t.records[1].length == recordLen - k
            && CoalesceFirstTwo(t) == Deframe(whole)
  {
    hide Deframe, FirstRecord, CanCoalesce, CoalesceFirstTwo;
    var have := Min(|body|, recordLen as int);
    FirstRecordSpelled(tv, recordLen, body, whole);
    FirstRecordSpelled(tv, k, body[..k] + body2, out);
    FirstRecordSpelled(tv, recordLen - k, body[k..], body2);
    FragmentSlices(body, body2, k, have);
    MergeRecords(whole, out, body2, body[have..], k);
  }

  lemma FragmentSlices(body: seq<byte>, body2: seq<byte>, k: nat, have: nat)
    requires k <= have <= |body|
    ensures (body[..k] + body2)[k..] == body2 && (body[..k] + body2)[..k] == body[..k]
    ensures body[k..][..have - k] == body[k..have] && body[k..][have - k..] == body[have..]
    ensures body[..k] + body[k..have] == body[..have]
  {
  }

  lemma MergeRecords(whole: seq<byte>, out: seq<byte>, out2: seq<byte>, rest: seq<byte>, k: nat)
    requires |whole| >= 5 && |out| >= 5 && |out2| >= 5
    requires var r, a, b := FirstRecord(whole), FirstRecord(out), FirstRecord(out2);
             && k < r.length
             && a == r.(length := k, payload := a.payload) && |a.payload| == k
             && b == r.(length := r.length - k, payload := b.payload)
             && r.payload == a.payload + b.payload
             && rest == whole[5 + |r.payload|..] == out2[5 + |b.payload|..] && out2 == out[5 + |a.payload|..]
    ensures var t := Deframe(out);
            && CanCoalesce(t)
            && t.records[0].length == k && t.records[1].length == FirstRecord(whole).length - k
            && CoalesceFirstTwo(t) == Deframe(whole)
  {
    var r, a, b := FirstRecord(whole), FirstRecord(out), FirstRecord(out2);
    DeframeStep(whole, r, rest);
    DeframeStep(out, a, out2);
    DeframeStep(out2, b, rest);
    CoalesceTwo(a, b, r, Deframe(rest));
  }

  lemma HelloSpelled(hello: seq<byte>, z: seq<byte>)
    requires ClientHelloRecordLen(hello).Some?
    ensures hello + z == hello[..3] + PutUint16(ClientHelloRecordLen(hello).value) + (hello[5..] + z)
  {
    PutGetUint16(hello[3..5]);
    assert hello == hello[..3] + hello[3..5] + hello[5..];
  }

  /** Both streams as header fields followed by a body; the second header sits inside the body of the first record. */
  lemma SplitSpelled(hello: seq<byte>, splitLen: nat, z: seq<byte>)
    requires SplitsRecord(hello, splitLen)
    ensures var recordLen, k, body := ClientHelloRecordLen(hello).value, splitLen - 5, hello[5..] + z;
            var body2 := hello[..3] + PutUint16(recordLen - k) + body[k..];
            && hello + z == hello[..3] + PutUint16(recordLen) + body
            && Resent(hello, splitLen) + z == hello[..3] + PutUint16(k) + (body[..k] + body2)
  {
    HelloSpelled(hello, z);
    var k, body := splitLen - 5, hello[5..] + z;
    assert hello[5..splitLen] == body[..k];
    assert hello[splitLen..] + z == body[k..];
    var d := PutUint16(ClientHelloRecordLen(hello).value - k);
    assert First(hello, splitLen) == hello[..3] + PutUint16(k) + hello[5..splitLen];
    assert Second(hello, splitLen) == hello[..3] + d + hello[splitLen..];
    Regroup(hello[..3], PutUint16(k), hello[5..splitLen], d, hello[splitLen..], z);
  }

  lemma Regroup(a: seq<byte>, b: seq<byte>, c: seq<byte>, d: seq<byte>, e: seq<byte>, z: seq<byte>)
    ensures ((a + b + c) + (a + d + e)) + z == a + b + (c + (a + d + (e + z)))
  {
  }

  /** Both segments are written, or an error ended it with the first; `n` octets are accepted in all. */
  predicate TwoWrites(before: seq<seq<byte>>, after: seq<seq<byte>>, first: seq<byte>, second: seq<byte>, n: nat,
                      failed: bool) {
    || (after == before + [first, second] && |first| <= n)
    || (failed && after == before + [first] && n <= |first|)
  }

  /**
   * The in-place rewrite.  `hello` is the only buffer: the second header is written over octets
   * that the first write has already handed to `w`, and for split lengths 6 to 9 it overlaps the
   * first header it is copied from.
   */
  method SplitHello(hello: array<byte>, w: TcpConn) returns (n: nat, splitLen: nat, failed: bool)
    modifies hello, w`sent, w`writes, w`errors
    ensures PossibleSplit(hello.Length, splitLen) && splitLen <= hello.Length
    ensures n <= |Resent(old(hello[..]), splitLen)|
    ensures w.sent == old(w.sent) + Resent(old(hello[..]), splitLen)[..n]
    ensures !failed ==> n == |Resent(old(hello[..]), splitLen)|
    ensures failed <==> old(w.errors) < w.errors
    // Five octets are added exactly if the hello is a handshake record of TLS 1.0 to 1.3 that is cut inside.
    ensures !failed ==>
              var h := old(hello[..]);
              n == |h| + (if |h| >= 5 && h[0] == 22 && h[1] == 3 && 1 <= h[2] <= 4 && 5 < splitLen <= |h| / 2
                             && splitLen - 5 < 256 * (h[3] as int) + h[4] as int then 5 else 0)
    ensures n == hello.Length + HEADER_LEN ==> SplitsRecord(old(hello[..]), splitLen)
    ensures hello.Length > 1 ==> splitLen == hello.Length / 2 || 6 <= splitLen <= 64
    // One write for a hello of at most one octet, otherwise two, none of them empty.
    ensures hello.Length <= 1 ==> w.writes == old(w.writes) + [old(hello[..])]
    ensures hello.Length > 1 ==>
              var first, second := First(old(hello[..]), splitLen), Second(old(hello[..]), splitLen);
              && first != [] && second != []
              && TwoWrites(old(w.writes), w.writes, first, second, n, failed)
    // Only octets of the first segment are ever overwritten.
    ensures hello[..][splitLen..] == old(hello[..])[splitLen..]
    ensures !SplitsRecord(old(hello[..]), splitLen) ==> hello[..] == old(hello[..])
  {
    ghost var was := hello[..];
    if hello.Length <= 1 {
      n, failed := w.Write(hello[..]);
      splitLen := 0;
      SplitsRecordExactly(was, splitLen);
      return;
    }
    var draw: int :| MIN_SPLIT <= draw <= MAX_SPLIT;
    splitLen := draw;
    var limit := hello.Length / 2;
    if splitLen > limit {
      splitLen := limit;
    }
    assert splitLen == Min(draw, limit);
    SplitsRecordExactly(was, splitLen);
    var recordLen := ClientHelloRecordLen(hello[..]);
    var recordSplitLen := splitLen - 5;
    if recordLen.None? || recordSplitLen <= 0 || recordSplitLen >= recordLen.value {
      n, failed := SplitSegment(hello[..], w, splitLen);
      return;
    }
    n, failed := SplitRecord(hello, w, splitLen, recordLen.value);
  }

  lemma PlainSegments(hello: seq<byte>, splitLen: nat)
    requires splitLen <= |hello| && !SplitsRecord(hello, splitLen)
    ensures First(hello, splitLen) == hello[..splitLen] && Second(hello, splitLen) == hello[splitLen..]
    ensures |Resent(hello, splitLen)| == |hello|
  {
  }

  /** The branch for anything that is not a Client Hello that can be fragmented: two segments, same octets. */
  method SplitSegment(hello: seq<byte>, w: TcpConn, splitLen: nat) returns (n: nat, failed: bool)
    requires splitLen <= |hello| && !SplitsRecord(hello, splitLen)
    modifies w`sent, w`writes, w`errors
    ensures n <= |Resent(hello, splitLen)|
    ensures w.sent == old(w.sent) + Resent(hello, splitLen)[..n]
    ensures !failed ==> n == |Resent(hello, splitLen)|
    ensures failed <==> old(w.errors) < w.errors
    ensures var first, second := First(hello, splitLen), Second(hello, splitLen);
            TwoWrites(old(w.writes), w.writes, first, second, n, failed)
  {
    hide First, Second, Resent, SplitsRecord;
    PlainSegments(hello, splitLen);
    n, failed := w.Write(hello[..splitLen]);
    if !failed {
      var m;
      m, failed := w.Write(hello[splitLen..]);
      n := n + m;
    }
    ResentPrefix(hello, splitLen, n);
  }

  lemma SplitBounds(hello: seq<byte>, splitLen: nat)
    requires SplitsRecord(hello, splitLen)
    ensures 5 < splitLen <= |hello| && splitLen - 5 < ClientHelloRecordLen(hello).value
  {
  }

  /** The branch that fragments the record. */
  method SplitRecord(hello: array<byte>, w: TcpConn, splitLen: nat, recordLen: uint16) returns (n: nat, failed: bool)
    requires SplitsRecord(hello[..], splitLen) && recordLen == ClientHelloRecordLen(hello[..]).value
    modifies hello, w`sent, w`writes, w`errors
    ensures n <= |Resent(old(hello[..]), splitLen)|
    ensures w.sent == old(w.sent) + Resent(old(hello[..]), splitLen)[..n]
    ensures !failed ==> n == |Resent(old(hello[..]), splitLen)|
    ensures failed <==> old(w.errors) < w.errors
    ensures var first, second := First(old(hello[..]), splitLen), Second(old(hello[..]), splitLen);
            TwoWrites(old(w.writes), w.writes, first, second, n, failed)
    ensures hello[..][splitLen..] == old(hello[..])[splitLen..]
  {
    hide First, Second, SplitsRecord, ClientHelloRecordLen;
    ghost var was := hello[..];
    SplitBounds(was, splitLen);
    PutUint16At(hello, 3, splitLen - 5);
    ghost var h1 := hello[..];
    var pkt := hello[..][..splitLen];
    FirstSpelled(was, h1, splitLen);
    n, failed := w.Write(pkt);
    ResentPrefix(was, splitLen, n);
    if failed {
      return;
    }
    var m;
    m, failed := WriteSecond(hello, w, splitLen, recordLen, was);
    n := n + m;
    ResentPrefix(was, splitLen, n);
  }

  /** The second header overwrites octets of `hello` that the first write has already sent. */
  method WriteSecond(hello: array<byte>, w: TcpConn, splitLen: nat, recordLen: uint16, ghost was: seq<byte>)
    returns (m: nat, failed: bool)
    requires SplitsRecord(was, splitLen) && recordLen == ClientHelloRecordLen(was).value
    requires hello[..] == was[..3] + PutUint16(splitLen - 5) + was[5..]
    modifies hello, w`sent, w`writes, w`errors
    ensures m <= |Second(was, splitLen)| && (m < |Second(was, splitLen)| ==> failed)
    ensures w.sent == old(w.sent) + Second(was, splitLen)[..m]
    ensures w.writes == old(w.writes) + [Second(was, splitLen)] && (failed <==> old(w.errors) < w.errors)
    ensures hello[..][splitLen..] == was[splitLen..]
  {
    ghost var h1 := hello[..];
    MoveHeader(hello, splitLen - 5);
    ghost var h2 := hello[..];
    PutUint16At(hello, splitLen - 2, recordLen - (splitLen - 5));
    SecondSpelled(was, h1, h2, hello[..], splitLen);
    m, failed := w.Write(hello[..][splitLen - 5..]);
  }

  lemma FirstSpelled(was: seq<byte>, h1: seq<byte>, splitLen: nat)
    requires SplitsRecord(was, splitLen)
    requires h1 == was[..3] + PutUint16(splitLen - 5) + was[5..]
    ensures h1[..splitLen] == First(was, splitLen) && h1[splitLen..] == was[splitLen..]
  {
  }

  /** copy(hello[off:], hello[:5]): source and target may overlap. */
  method MoveHeader(hello: array<byte>, off: nat)
    requires off + 5 <= hello.Length
    modifies hello
    ensures hello[..] == old(hello[..])[..off] + old(hello[..])[..5] + old(hello[..])[off + 5..]
  {
    forall i | 0 <= i < 5 {
      hello[off + i] := hello[i];
    }
  }

  /** The three rewrites of the buffer, one after the other, leave the second segment at splitLen - 5. */
  lemma SecondSpelled(was: seq<byte>, h1: seq<byte>, h2: seq<byte>, h3: seq<byte>, splitLen: nat)
    requires SplitsRecord(was, splitLen)
    requires h1 == was[..3] + PutUint16(splitLen - 5) + was[5..]
    requires h2 == h1[..splitLen - 5] + h1[..5] + h1[splitLen..]
    requires h3 == h2[..splitLen - 2] + PutUint16(ClientHelloRecordLen(was).value - (splitLen - 5)) + h2[splitLen..]
    ensures h3[splitLen - 5..] == Second(was, splitLen) && h3[splitLen..] == was[splitLen..]
  {
    assert h1[..3] == was[..3] && h1[splitLen..] == was[splitLen..];
    assert h2[splitLen - 5..splitLen - 2] == h1[..3] && h2[splitLen..] == h1[splitLen..];
    assert h3[splitLen - 5..splitLen - 2] == h2[splitLen - 5..splitLen - 2] && h3[splitLen..] == h2[splitLen..];
    assert h3[splitLen - 2..splitLen] == PutUint16(ClientHelloRecordLen(was).value - (splitLen - 5));
    assert h3[splitLen - 5..] == h3[splitLen - 5..splitLen - 2] + h3[splitLen - 2..splitLen] + h3[splitLen..];
  }

  /** binary.BigEndian.PutUint16 on a slice of `a`. */
  method PutUint16At(a: array<byte>, off: nat, v: uint16)
    requires off + 2 <= a.Length
    modifies a
    ensures a[..] == old(a[..])[..off] + PutUint16(v) + old(a[..])[off + 2..]
  {
    a[off], a[off + 1] := v / 0x100, v % 0x100;
  }
}
