/** extractHostname of infra/android/bridge.go: the QNAME of a query's first question as text. */
module Hostnames {
  import opened Bytes
  import opened DnsNames
  import opened DnsMessage

  const DOT: byte := 46

  /** Labels on the wire without compression, the root octet last (section 3.1 of RFC 1035). */
  function Qname(name: Name): seq<byte> {
    if name == [] then [0] else [|name[0]|] + name[0] + Qname(name[1..])
  }

  /** Labels separated by dots. */
  function Joined(labels: seq<seq<byte>>): seq<byte>
    decreases |labels|
  {
    if labels == [] then []
    else if |labels| == 1 then labels[0]
    else Joined(labels[..|labels| - 1]) + [DOT] + labels[|labels| - 1]
  }

  /** The root octet, an incomplete label or the end. */
  predicate NoLabel(query: seq<byte>, offset: nat) {
    offset >= |query| || query[offset] == 0 || offset + 1 + query[offset] > |query|
  }

  /** The labels at `offset`, as far as there are any. */
  function LabelsAt(query: seq<byte>, offset: nat): seq<seq<byte>>
    decreases if offset < |query| then |query| - offset else 0
  {
    if NoLabel(query, offset) then []
    else
      var end := offset + 1 + query[offset];
      [query[offset + 1..end]] + LabelsAt(query, end)
  }

  /** What extractHostname returns. */
  function Hostname(query: seq<byte>): seq<byte> {
    if |query| < 13 then [] else Joined(LabelsAt(query, 12))
  }

  lemma NextLabel(query: seq<byte>, offset: nat, done: seq<seq<byte>>)
    ensures NoLabel(query, offset) ==> done + LabelsAt(query, offset) == done
    ensures !NoLabel(query, offset) ==>
              var end := offset + 1 + query[offset];
              done + LabelsAt(query, offset) == done + [query[offset + 1..end]] + LabelsAt(query, end)
  {
  }

  method ExtractHostname(query: array<byte>) returns (result: seq<byte>)
    ensures result == Hostname(query[..])
  {
    hide LabelsAt;
    if query.Length < 13 {
      return [];
    }
    var offset := 12;
    var labels: seq<seq<byte>> := [];
    ghost var q := query[..];
    while offset < query.Length
      invariant 12 <= offset <= query.Length
      invariant LabelsAt(q, 12) == labels + LabelsAt(q, offset)
    {
      NextLabel(q, offset, labels);
      var length := query[offset];
      if length == 0 {
        break;
      }
      if offset + 1 + length > query.Length {
        break;
      }
      labels := labels + [query[offset + 1..offset + 1 + length]];
      offset := offset + 1 + length;
    }
    NextLabel(q, offset, labels);
    if |labels| == 0 {
      return [];
    }
    result := labels[0];
    for i := 1 to |labels|
      invariant result == Joined(labels[..i])
    {
      assert labels[..i + 1][..i] == labels[..i];
      result := result + [DOT] + labels[i];
    }
    assert labels[..|labels|] == labels;
  }

  lemma LabelAt(front: seq<byte>, leaf: Label, rest: seq<byte>)
    ensures var query := front + ([|leaf|] + leaf + rest);
            var end := |front| + 1 + |leaf|;
            !NoLabel(query, |front|) && query[|front|] == |leaf| && query[|front| + 1..end] == leaf
  {
    var query := front + ([|leaf|] + leaf + rest);
    assert query[|front|] == |leaf|;
  }

  /** The labels of an encoded name, whatever stands before and behind it. */
  lemma {:induction false} LabelsOfQname(front: seq<byte>, name: Name, z: seq<byte>)
    ensures LabelsAt(front + Qname(name) + z, |front|) == name
    decreases |name|
  {
    var query := front + Qname(name) + z;
    if name == [] {
    } else {
      var leaf, rest := name[0], name[1..];
      LabelsOfQname(front + ([|leaf|] + leaf), rest, z);
      assert query == front + ([|leaf|] + leaf) + Qname(rest) + z;
      LabelAt(front, leaf, Qname(rest) + z);
      assert query == front + ([|leaf|] + leaf + (Qname(rest) + z));
      assert [leaf] + rest == name;
    }
  }

  /** extractHostname inverts the encoding of every name. */
  lemma HostnameInvertsQname(header: seq<byte>, name: Name, z: seq<byte>)
    requires |header| == 12
    ensures Hostname(header + Qname(name) + z) == Joined(name)
  {
    LabelsOfQname(header, name, z);
  }

  // ----- Every query -----

  /** Labels that a length octet can announce. */
  predicate AreLabels(labels: seq<seq<byte>>) {
    forall l :: l in labels ==> 0 < |l| < 256
  }

  /** Labels behind their lengths. */
  function WireLabels(labels: seq<seq<byte>>): seq<byte>
    requires AreLabels(labels)
  {
    if labels == [] then [] else [|labels[0]|] + labels[0] + WireLabels(labels[1..])
  }

  /** Nothing, the root octet, or a label of which a part is missing. */
  predicate EndsName(tail: seq<byte>) {
    tail == [] || tail[0] == 0 || 1 + tail[0] > |tail|
  }

  lemma WireCons(leaf: seq<byte>, rest: seq<seq<byte>>, tail: seq<byte>)
    requires 0 < |leaf| < 256 && AreLabels(rest)
    ensures AreLabels([leaf] + rest)
    ensures WireLabels([leaf] + rest) + tail == [|leaf|] + leaf + (WireLabels(rest) + tail)
  {
    assert ([leaf] + rest)[1..] == rest;
  }

  lemma LabelFirst(query: seq<byte>, offset: nat)
    requires !NoLabel(query, offset)
    ensures var end := offset + 1 + query[offset];
            query[offset..] == [query[offset]] + query[offset + 1..end] + query[end..]
  {
  }

  lemma {:induction false} LabelsSpell(query: seq<byte>, offset: nat) returns (tail: seq<byte>)
    requires offset <= |query|
    ensures var labels := LabelsAt(query, offset);
            AreLabels(labels) && query[offset..] == WireLabels(labels) + tail && EndsName(tail)
    decreases |query| - offset
  {
    hide AreLabels, WireLabels;
    if NoLabel(query, offset) {
      tail := query[offset..];
      NoLabels(tail);
    } else {
      var end := offset + 1 + query[offset];
      tail := LabelsSpell(query, end);
      LabelFirst(query, offset);
      WireCons(query[offset + 1..end], LabelsAt(query, end), tail);
    }
  }

  lemma NoLabels(tail: seq<byte>)
    ensures AreLabels([]) && WireLabels([]) + tail == tail
  {
  }

  /** The hostname of any query, truncated or not: its whole labels up to the first octet that begins none. */
  lemma HostnameExactly(query: seq<byte>) returns (labels: seq<seq<byte>>, tail: seq<byte>)
    ensures |query| < 13 ==> Hostname(query) == []
    ensures |query| >= 13 ==>
              && AreLabels(labels) && query[12..] == WireLabels(labels) + tail && EndsName(tail)
              && Hostname(query) == Joined(labels)
  {
    labels, tail := [], [];
    if |query| >= 13 {
      labels := LabelsAt(query, 12);
      tail := LabelsSpell(query, 12);
    }
  }

  // ----- Reading the text back -----

  /** The parts between the dots. */
  function Split(text: seq<byte>): (parts: seq<seq<byte>>)
    ensures parts != []
  {
    if text == [] then [[]]
    else
      var rest := Split(text[1..]);
      if text[0] == 46 then [[]] + rest else [[text[0]] + rest[0]] + rest[1..]
  }

  lemma {:induction false} SplitWhole(text: seq<byte>)
    requires 46 !in text
    ensures Split(text) == [text]
  {
    if text == [] {
    } else {
      SplitWhole(text[1..]);
      assert [text[0]] + text[1..] == text;
    }
  }

  lemma {:induction false} SplitAtDot(a: seq<byte>, b: seq<byte>)
    ensures Split(a + [46] + b) == Split(a) + Split(b)
    decreases |a|
  {
    var text := a + [46] + b;
    if a == [] {
      assert text[1..] == b;
    } else {
      assert text[1..] == a[1..] + [46] + b;
      SplitAtDot(a[1..], b);
    }
  }

  /** The labels can be read off the hostname, in order, if none of them holds a dot. */
  lemma {:induction false} JoinedSplits(labels: seq<seq<byte>>)
    requires labels != [] && forall l :: l in labels ==> 46 !in l
    ensures Split(Joined(labels)) == labels
    decreases |labels|
  {
    var front, last := labels[..|labels| - 1], labels[|labels| - 1];
    SplitWhole(last);
    if front != [] {
      JoinedSplits(front);
      SplitAtDot(Joined(front), last);
    }
    assert labels == front + [last];
  }

  // ----- Packed queries -----

  /** A name that shares no suffix with what was packed before is written without a pointer. */
  lemma {:induction false} FirstNameUncompressed(off: nat, offsets: Offsets, name: Name)
    requires forall n :: n in offsets ==> |n| > |name|
    ensures PackName(off, offsets, name).bytes == Qname(name)
    decreases |name|
  {
    if name == [] {
    } else {
      FirstNameUncompressed(off + 1 + |name[0]|, Register(offsets, name, off), name[1..]);
    }
  }

  lemma FirstNamePacked(items: seq<Item>) returns (rest: seq<byte>)
    requires items != []
    ensures PackItems(HEADER_LEN, map[], items).bytes == Qname(items[0].name) + rest
  {
    hide PackName, Qname;
    FirstNameUncompressed(HEADER_LEN, map[], items[0].name);
    var first := PackItem(HEADER_LEN, map[], items[0]);
    rest := items[0].tail + PackItems(HEADER_LEN + |first.bytes|, first.offsets, items[1..]).bytes;
  }

  lemma FirstQuestionItem(m: Message)
    requires Packable(m) && m.questions != []
    ensures Items(m) != [] && Items(m)[0].name == m.questions[0].name
  {
  }

  /** Of a packed query it returns the name of the first question, compression notwithstanding. */
  lemma HostnameOfQuery(m: Message)
    requires Pack(m).Some? && m.questions != []
    ensures Hostname(Pack(m).value) == Joined(m.questions[0].name)
  {
    hide PackItems, Items, Packable, PutHeader, Qname, Hostname;
    FirstQuestionItem(m);
    var rest := FirstNamePacked(Items(m));
    HostnameInvertsQname(PutHeader(m), m.questions[0].name, rest);
    assert Pack(m).value == PutHeader(m) + Qname(m.questions[0].name) + rest;
  }
}
