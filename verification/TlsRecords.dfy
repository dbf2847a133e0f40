/** The TLS record layer as a receiver reads it (section 5.1 of RFC 8446). */
module TlsRecords {
  import opened Bytes

  const HEADER_LEN := 5

  /** Only the last record of a stream may hold fewer octets than its header announces. */
  datatype Record = Record(contentType: byte, version: uint16, length: uint16, payload: seq<byte>)

  /** `rest` is a header that has not arrived in full. */
  datatype Stream = Stream(records: seq<Record>, rest: seq<byte>)

  predicate Complete(r: Record) {
    |r.payload| == r.length
  }

  function HeaderOf(r: Record): (h: seq<byte>)
    ensures |h| == HEADER_LEN
  {
    [r.contentType] + PutUint16(r.version) + PutUint16(r.length)
  }

  /** The record announced by the header at the front of `s`, with what has arrived of its payload. */
  function FirstRecord(s: seq<byte>): (r: Record)
    requires |s| >= HEADER_LEN
    ensures |r.payload| <= r.length
  {
    var length := GetUint16(s[3..5]);
    Record(s[0], GetUint16(s[1..3]), length, s[5..Min(|s|, 5 + length)])
  }

  function Deframe(s: seq<byte>): Stream
    decreases |s|
  {
    if |s| < HEADER_LEN then
      Stream([], s)
    else
      var r := FirstRecord(s);
      var tail := Deframe(s[5 + |r.payload|..]);
      Stream([r] + tail.records, tail.rest)
  }

  /** The first record on the wire: a type, two octets of version, two of length, and that many of payload. */
  lemma RecordOctets(s: seq<byte>)
    requires |s| >= 5 && |s| >= 5 + 256 * (s[3] as int) + s[4] as int
    ensures var length := 256 * (s[3] as int) + s[4] as int;
            && |Deframe(s).records| >= 1
            && Deframe(s).records[0] == Record(s[0], 256 * (s[1] as int) + s[2] as int, length, s[5..5 + length])
            && Deframe(s).records[1..] == Deframe(s[5 + length..]).records
  {
    BigEndian(s[1..3]);
    BigEndian(s[3..5]);
    DeframeStep(s, FirstRecord(s), s[5 + |FirstRecord(s).payload|..]);
  }

  /** Reading a stream that is spelled as type and version `tv`, length `k` and `body`. */
  lemma FirstRecordSpelled(tv: seq<byte>, k: uint16, body: seq<byte>, s: seq<byte>)
    requires |tv| == 3 && s == tv + PutUint16(k) + body
    ensures var have := Min(|body|, k);
            && FirstRecord(s) == Record(tv[0], GetUint16(tv[1..3]), k, body[..have])
            && s[5 + have..] == body[have..]
  {
    assert s[1..3] == tv[1..3];
    assert s[3..5] == PutUint16(k);
    var have := Min(|body|, k);
    assert Min(|s|, 5 + k as int) == 5 + have;
    assert s[5..5 + have] == body[..have];
  }

  lemma DeframeStep(s: seq<byte>, r: Record, rest: seq<byte>)
    requires |s| >= HEADER_LEN && r == FirstRecord(s) && rest == s[5 + |r.payload|..]
    ensures Deframe(s) == Stream([r] + Deframe(rest).records, Deframe(rest).rest)
  {
  }

  function Frames(rs: seq<Record>): seq<byte> {
    if rs == [] then [] else HeaderOf(rs[0]) + rs[0].payload + Frames(rs[1..])
  }

  lemma FirstRecordSpells(s: seq<byte>)
    requires |s| >= HEADER_LEN
    ensures var r := FirstRecord(s);
            s == HeaderOf(r) + r.payload + s[5 + |r.payload|..]
  {
    PutGetUint16(s[1..3]);
    PutGetUint16(s[3..5]);
    var r := FirstRecord(s);
    assert s[..5] == [s[0]] + s[1..3] + s[3..5];
    assert s == s[..5] + s[5..5 + |r.payload|] + s[5 + |r.payload|..];
  }

  /** Deframing loses nothing: the records and the incomplete header spell the stream again. */
  lemma {:induction false} DeframeLossless(s: seq<byte>)
    ensures var t := Deframe(s); s == Frames(t.records) + t.rest
    decreases |s|
  {
    if |s| < HEADER_LEN {
    } else {
      var r := FirstRecord(s);
      FirstRecordSpells(s);
      DeframeLossless(s[5 + |r.payload|..]);
      var tail := Deframe(s[5 + |r.payload|..]);
      assert ([r] + tail.records)[1..] == tail.records;
      calc {
        s;
        HeaderOf(r) + r.payload + (Frames(tail.records) + tail.rest);
        HeaderOf(r) + r.payload + Frames(tail.records) + tail.rest;
      }
    }
  }

  /**
   * Fragment boundaries carry no meaning between records of one type, so a complete first record
   * may be merged with a second of the same type and version.
   */
  predicate CanCoalesce(t: Stream) {
    && |t.records| >= 2
    && Complete(t.records[0])
    && t.records[0].contentType == t.records[1].contentType
    && t.records[0].version == t.records[1].version
    && t.records[0].length + t.records[1].length <= MAX_UINT16
  }

  // ----- What the records carry -----

  /** The payloads of all records, one after the other. */
  function Contents(rs: seq<Record>): seq<byte> {
    if rs == [] then [] else rs[0].payload + Contents(rs[1..])
  }

  /** A stream that breaks off carries a prefix of what the whole stream carries. */
  lemma {:induction false} BrokenOffContents(s: seq<byte>, n: nat)
    requires n <= |s|
    ensures Contents(Deframe(s[..n]).records) <= Contents(Deframe(s).records)
    decreases |s|
  {
    hide Deframe, FirstRecord;
    if n < HEADER_LEN {
      NoRecord(s[..n]);
    } else {
      var r, part := FirstRecord(s), FirstRecord(s[..n]);
      FirstRecordOfPrefix(s, n);
      ContentsByFirst(s);
      ContentsByFirst(s[..n]);
      if 5 + |r.payload| <= n {
        BrokenOffContents(s[5 + |r.payload|..], n - (5 + |r.payload|));
        PrefixBehind(s, 5 + |r.payload|, n);
      } else {
        assert s[..n][5 + |part.payload|..] == [];
        NoRecord([]);
      }
    }
  }

  lemma PrefixBehind(s: seq<byte>, k: nat, n: nat)
    requires k <= n <= |s|
    ensures s[..n][k..] == s[k..][..n - k]
  {
  }

  lemma NoRecord(s: seq<byte>)
    requires |s| < HEADER_LEN
    ensures Contents(Deframe(s).records) == []
  {
  }

  lemma ContentsByFirst(s: seq<byte>)
    requires |s| >= HEADER_LEN
    ensures var r := FirstRecord(s);
            Contents(Deframe(s).records) == r.payload + Contents(Deframe(s[5 + |r.payload|..]).records)
  {
    var r := FirstRecord(s);
    DeframeStep(s, r, s[5 + |r.payload|..]);
    var later := Deframe(s[5 + |r.payload|..]).records;
    assert ([r] + later)[1..] == later;
  }

  lemma FirstRecordOfPrefix(s: seq<byte>, n: nat)
    requires HEADER_LEN <= n <= |s|
    ensures var r, part := FirstRecord(s), FirstRecord(s[..n]);
            && part.payload == r.payload[..|part.payload|] && |part.payload| <= |r.payload|
            && |part.payload| == Min(n - 5, |r.payload|)
  {
    assert s[..n][3..5] == s[3..5];
    var len := GetUint16(s[3..5]) as int;
    var have, all := Min(n, 5 + len), Min(|s|, 5 + len);
    assert s[..n][5..have] == s[5..have] == s[5..all][..have - 5];
  }

  /** Merging the first two records keeps what the stream carries. */
  lemma CoalescedContents(t: Stream)
    requires CanCoalesce(t)
    ensures Contents(CoalesceFirstTwo(t).records) == Contents(t.records)
  {
    var a, b, later := t.records[0], t.records[1], t.records[2..];
    assert t.records[1..][1..] == later;
    assert CoalesceFirstTwo(t).records[1..] == later;
    assert a.payload + (b.payload + Contents(later)) == a.payload + b.payload + Contents(later);
  }

  lemma CoalesceTwo(a: Record, b: Record, merged: Record, tail: Stream)
    requires Complete(a) && a.length + b.length == merged.length
    requires a == merged.(length := a.length, payload := a.payload)
    requires b == merged.(length := b.length, payload := b.payload)
    requires a.payload + b.payload == merged.payload
    ensures var t := Stream([a] + ([b] + tail.records), tail.rest);
            CanCoalesce(t) && CoalesceFirstTwo(t) == Stream([merged] + tail.records, tail.rest)
  {
    assert ([a] + ([b] + tail.records))[2..] == tail.records;
  }

  function CoalesceFirstTwo(t: Stream): Stream
    requires CanCoalesce(t)
  {
    var a, b := t.records[0], t.records[1];
    var merged := Record(a.contentType, a.version, a.length + b.length, a.payload + b.payload);
    Stream([merged] + t.records[2..], t.rest)
  }
}
