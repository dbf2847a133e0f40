/** The operating system's end of a TCP connection, as transport/split sees it. */
module TcpConns {
  import opened Bytes

  /** `Provisional` is the retry timeout that the retrying connection sets; `Unset` is the zero time. */
  datatype Deadline = Unset | Caller(at: int) | Provisional(at: int)

  class TcpConn {
    /** Every octet the connection has accepted, in order. */
    var sent: seq<byte>
    /** The buffer given to each Write call, in order: one upstream segment each. */
    var writes: seq<seq<byte>>
    /** Every octet read from the connection, in order. */
    var received: seq<byte>
    /** How many Reads and Writes have returned an error. */
    var errors: nat
    /** The peer has reset the connection. */
    var reset: bool
    var readShut: bool
    var writeShut: bool
    var closed: bool
    var readDeadline: Deadline
    var writeDeadline: Deadline

    constructor ()
      ensures sent == [] && writes == [] && received == [] && errors == 0 && !readShut && !writeShut && !closed
      ensures readDeadline == Unset && writeDeadline == Unset
    {
      sent, writes, received, errors, readShut, writeShut, closed := [], [], [], 0, false, false, false;
      reset := *;
      readDeadline, writeDeadline := Unset, Unset;
    }

    /**
     * net.TCPConn.Write: accepts some prefix of `b`; a short count always comes with an error, and
     * nothing is accepted once the half is closed.
     */
    method Write(b: seq<byte>) returns (n: nat, failed: bool)
      modifies this`sent, this`writes, this`errors
      ensures n <= |b| && errors == old(errors) + (if failed then 1 else 0)
      ensures n < |b| ==> failed
      ensures closed || writeShut ==> n == 0
      ensures sent == old(sent) + b[..n]
      ensures writes == old(writes) + [b]
    {
      n :| 0 <= n <= |b|;
      if closed || writeShut {
        n := 0;
      }
      failed := *;
      if n < |b| {
        failed := true;
      }
      sent, writes, errors := sent + b[..n], writes + [b], errors + if failed then 1 else 0;
    }

    /** net.TCPConn.Read: some octets, or an error, never both. */
    method Read() returns (data: seq<byte>, failed: bool)
      modifies this`received, this`errors
      ensures (failed ==> data == []) && errors == old(errors) + (if failed then 1 else 0)
      ensures received == old(received) + data
    {
      data, failed := *, *;
      if failed {
        data := [];
      }
      received, errors := received + data, errors + if failed then 1 else 0;
    }

    /** A closed descriptor has no timers. */
    method Close()
      modifies this`closed, this`readDeadline, this`writeDeadline
      ensures closed && readDeadline == Unset && writeDeadline == Unset
    {
      closed, readDeadline, writeDeadline := true, Unset, Unset;
    }

    /** Shutting a half down fails on a closed descriptor, and when the peer is gone. */
    method CloseRead() returns (failed: bool)
      modifies this`readShut
      ensures readShut == (old(readShut) || !closed) && failed == (closed || reset)
    {
      readShut, failed := readShut || !closed, closed || reset;
    }

    method CloseWrite() returns (failed: bool)
      modifies this`writeShut
      ensures writeShut == (old(writeShut) || !closed) && failed == (closed || reset)
    {
      writeShut, failed := writeShut || !closed, closed || reset;
    }

    /** Setting a deadline on a closed descriptor fails. */
    method SetReadDeadline(d: Deadline)
      modifies this`readDeadline
      ensures readDeadline == if closed then old(readDeadline) else d
    {
      readDeadline := if closed then readDeadline else d;
    }

    method SetWriteDeadline(d: Deadline)
      modifies this`writeDeadline
      ensures writeDeadline == if closed then old(writeDeadline) else d
    {
      writeDeadline := if closed then writeDeadline else d;
    }
  }
}
