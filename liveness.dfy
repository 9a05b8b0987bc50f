/**
 * The reply matcher of `check_monitor` (monitor_control.c:127-149).
 *
 * After sending "ping" the C code waits up to 500 ms for one datagram,
 * receives at most 15 bytes of it into a 16-byte buffer, NUL-terminates it
 * and compares it with "pong" by `strcmp`. The wait and the socket are left
 * out: the reply is an input, `None` when nothing arrived in time or the
 * receive failed.
 */
module Liveness {
  import opened Common

  /** The probe payload (monitor_control.c:134). */
  const PING: string := "ping"

  /** The expected answer, as bytes: 'p', 'o', 'n', 'g'. */
  const PONG: seq<byte> := [0x70, 0x6F, 0x6E, 0x67]

  /** `sizeof(buf) - 1`: the most bytes one receive stores (monitor_control.c:129, 145). */
  const RECV_CAPACITY := 15

  /** The part of a datagram that fits the receive buffer; the rest of it is discarded. */
  function Received(datagram: seq<byte>): (r: seq<byte>)
    ensures |r| <= RECV_CAPACITY && r <= datagram
    ensures |datagram| <= RECV_CAPACITY ==> r == datagram
    ensures |datagram| > RECV_CAPACITY ==> |r| == RECV_CAPACITY
  {
    if |datagram| <= RECV_CAPACITY then datagram else datagram[..RECV_CAPACITY]
  }

  /** What `strcmp` sees of a buffer: the bytes before the first NUL. */
  function CString(b: seq<byte>): (r: seq<byte>)
    ensures r <= b
    ensures forall k :: 0 <= k < |r| ==> r[k] != 0
    ensures |r| < |b| ==> b[|r|] == 0
  {
    if b == [] || b[0] == 0 then [] else [b[0]] + CString(b[1..])
  }

  /** `check_monitor` returns 1: a non-empty reply arrived whose string is "pong". */
  predicate IsPong(reply: Option<seq<byte>>): (b: bool)
    ensures b ==> reply.Some? && |reply.value| >= |PONG|
  {
    match reply
    case None => false
    case Some(datagram) => |datagram| > 0 && CString(Received(datagram)) == PONG
  }

  /**
   * A reply counts exactly when it starts with "pong" and ends there or
   * continues with a NUL byte (after which `strcmp` looks no further).
   * Anything else, an empty datagram included, counts as no answer.
   */
  lemma IsPongExactly(reply: Option<seq<byte>>)
    ensures IsPong(reply) <==>
      reply.Some? && |reply.value| >= 4 && reply.value[..4] == PONG &&
      (|reply.value| == 4 || reply.value[4] == 0)
  {
    if reply.Some? && |reply.value| > 0 {
      var b := Received(reply.value);
      var c := CString(b);
      if c == PONG {
        assert b[..4] == PONG;
        assert reply.value[..4] == b[..4];
        assert |b| == 4 || b[4] == 0;
      } else if |reply.value| >= 4 && reply.value[..4] == PONG && (|reply.value| == 4 || reply.value[4] == 0) {
        assert b[..4] == PONG;
        CStringOfPrefix(b);
      }
    }
  }

  /** A buffer holding "pong" followed by nothing or by a NUL reads as "pong". */
  lemma CStringOfPrefix(b: seq<byte>)
    requires |b| >= 4 && b[..4] == PONG && (|b| == 4 || b[4] == 0)
    ensures CString(b) == PONG
  {
    assert b[0] != 0 && b[1] != 0 && b[2] != 0 && b[3] != 0;
    assert CString(b[4..]) == [];
    assert b[3..][1..] == b[4..];
    assert b[2..][1..] == b[3..];
    assert b[1..][1..] == b[2..];
  }
}
