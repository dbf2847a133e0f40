/** What both resolvers do to the buffers of a query and its response. */
module Queries {
  import opened Bytes
  import opened Servfails

  /** queryError.status; Complete is the absence of an error. */
  datatype Status = SendFailed | HTTPError | BadQuery | BadResponse | InternalError

  /** A message with its ID overwritten. */
  function WithId(msg: seq<byte>, id: uint16): (r: seq<byte>)
    requires |msg| >= 2
    ensures |r| == |msg|
  {
    PutUint16(id) + msg[2..]
  }

  predicate IdIsZero(msg: seq<byte>) {
    |msg| >= 2 && msg[0] == 0 && msg[1] == 0
  }

  /** What came back from the server, with the first two octets of the query. */
  predicate IsAnswer(r: seq<byte>, query: seq<byte>, body: seq<byte>) {
    && |r| == |body| && |r| >= 2 && |query| >= 2
    && r[0] == query[0] && r[1] == query[1] && r[2..] == body[2..]
  }

  lemma WithIdReads(msg: seq<byte>, id: uint16)
    requires |msg| >= 2
    ensures GetUint16(WithId(msg, id)) == id && WithId(msg, id)[2..] == msg[2..]
  {
    assert WithId(msg, id)[..2] == PutUint16(id);
    assert GetUint16(WithId(msg, id)[..2]) == GetUint16(WithId(msg, id));
  }

  lemma WithIdOctets(msg: seq<byte>, id: uint16)
    requires |msg| >= 2
    ensures var r := WithId(msg, id);
            |r| == |msg| && r[0] == id / 256 && r[1] == id % 256 && r[2..] == msg[2..]
  {
  }

  /** Zeroing the ID and restoring it gives the message back. */
  lemma IdRestored(msg: seq<byte>)
    requires |msg| >= 2
    ensures WithId(WithId(msg, 0), GetUint16(msg)) == msg
  {
    PutGetUint16(msg[..2]);
    assert GetUint16(msg[..2]) == GetUint16(msg);
    assert msg == msg[..2] + msg[2..];
  }

  /** Zeroing the ID changes a message exactly if it has another one. */
  lemma ZeroedIsSame(msg: seq<byte>)
    requires |msg| >= 2
    ensures WithId(msg, 0) == msg <==> GetUint16(msg) == 0
  {
    WithIdReads(msg, 0);
    IdRestored(msg);
  }

  /** binary.BigEndian.PutUint16(msg, id). */
  method PutId(msg: array<byte>, id: uint16)
    requires msg.Length >= 2
    modifies msg
    ensures msg[..] == WithId(old(msg[..]), id)
  {
    msg[0], msg[1] := id / 0x100, id % 0x100;
  }

  /** A response is accepted if its ID is the one that was sent, and then gets the query's ID. */
  method CheckResponse(response: array<byte>, id: uint16) returns (qerr: Option<Status>)
    modifies response
    ensures qerr == if response.Length >= 2 && GetUint16(old(response[..])) == 0 then None else Some(BadResponse)
    ensures qerr.None? ==> response[..] == WithId(old(response[..]), id)
    ensures qerr.Some? ==> response[..] == old(response[..])
  {
    hide WithId;
    qerr := None;
    if response.Length >= 2 {
      if GetUint16(response[..]) == 0 {
        PutId(response, id);
      } else {
        qerr := Some(BadResponse);
      }
    } else {
      qerr := Some(BadResponse);
    }
  }

  method NewArray(bytes: seq<byte>) returns (a: array<byte>)
    ensures fresh(a) && a[..] == bytes
  {
    a := new byte[|bytes|](i requires 0 <= i < |bytes| => bytes[i]);
    assert a[..] == bytes;
  }

  /** Both outcomes of tryServfail, the error being a nil response. */
  method TryServfail(q: array<byte>) returns (response: array?<byte>)
    ensures response == null <==> Servfail(q[..]).None?
    ensures response != null ==> fresh(response) && response[..] == Servfail(q[..]).value
  {
    hide Servfail;
    var s := Servfail(q[..]);
    if s.None? {
      return null;
    }
    response := NewArray(s.value);
  }
}
