/**
 * The receive loop of DatagramClient.run: datagrams are received into one
 * shared 1024-byte packet buffer; the transaction id of the request is
 * compared against a message parsed from the WHOLE buffer, and the first
 * datagram that matches ends the loop, trimmed to its received length.
 * Datagrams that do not match are discarded.
 *
 * The socket is modelled by the finite sequence of datagrams it delivers
 * before a receive call fails; the transaction-id comparison is the
 * parameter `matches`.
 */
module ReplyMatching {
  import opened AttributeDecoder

  /** Size of packetBuffer. */
  const BufferSize: nat := 1024

  /** What the loop passes on: the trimmed reply, or nothing because a receive call threw. */
  datatype Received = Reply(message: seq<Byte>) | NoReply

  /**
   * DatagramPacket.getLength() after a receive into the 1024-byte buffer:
   * a longer datagram is truncated to the buffer.
   */
  function ReceivedLength(payload: seq<Byte>): (n: nat)
    ensures n <= BufferSize && n <= |payload|
    ensures n < |payload| ==> n == BufferSize
  {
    if |payload| < BufferSize then |payload| else BufferSize
  }

  /**
   * The packet buffer after one receive: the received bytes at the front,
   * the bytes of earlier datagrams (or the initial zeros) after them.
   */
  function Overlay(buffer: seq<Byte>, payload: seq<Byte>): (r: seq<Byte>)
    requires |buffer| == BufferSize
    ensures |r| == BufferSize
    ensures r[..ReceivedLength(payload)] == payload[..ReceivedLength(payload)]
    ensures r[ReceivedLength(payload)..] == buffer[ReceivedLength(payload)..]
  {
    var n := ReceivedLength(payload);
    payload[..n] + buffer[n..]
  }

  /**
   * The outcome of the receive loop, starting from the given buffer
   * contents, on the given datagrams.
   */
  function Scan(buffer: seq<Byte>, incoming: seq<seq<Byte>>, matches: seq<Byte> -> bool): (r: Received)
    requires |buffer| == BufferSize
    ensures r.Reply? ==> incoming != [] && |r.message| <= BufferSize
    decreases |incoming|
  {
    if incoming == [] then NoReply
    else
      var next := Overlay(buffer, incoming[0]);
      if matches(next) then Reply(next[..ReceivedLength(incoming[0])])
      else Scan(next, incoming[1..], matches)
  }

  /** The packet buffer after receiving each of the given datagrams in turn. */
  function BufferAfter(buffer: seq<Byte>, received: seq<seq<Byte>>): (r: seq<Byte>)
    requires |buffer| == BufferSize
    ensures |r| == BufferSize
    decreases |received|
  {
    if received == [] then buffer else BufferAfter(Overlay(buffer, received[0]), received[1..])
  }

  /** The k-th datagram is accepted: the buffer it leaves behind carries the request's transaction id. */
  ghost predicate MatchesAt(buffer: seq<Byte>, incoming: seq<seq<Byte>>, matches: seq<Byte> -> bool, k: nat)
    requires |buffer| == BufferSize
  {
    k < |incoming| && matches(BufferAfter(buffer, incoming[..k + 1]))
  }

  /**
   * The loop skips every datagram before the first accepted one and
   * passes on exactly the received bytes of that one.
   */
  lemma {:induction false} ScanStopsAtFirstMatch(buffer: seq<Byte>, incoming: seq<seq<Byte>>, matches: seq<Byte> -> bool, k: nat)
    requires |buffer| == BufferSize
    requires MatchesAt(buffer, incoming, matches, k)
    requires forall j :: 0 <= j < k ==> !MatchesAt(buffer, incoming, matches, j)
    ensures Scan(buffer, incoming, matches) == Reply(incoming[k][..ReceivedLength(incoming[k])])
    decreases k
  {
    var next := Overlay(buffer, incoming[0]);
    assert incoming[..1] == [incoming[0]];
    assert BufferAfter(buffer, incoming[..1]) == next by {
      assert incoming[..1][1..] == [];
    }
    if k == 0 {
    } else {
      assert !MatchesAt(buffer, incoming, matches, 0);
      var rest := incoming[1..];
      forall j | 0 <= j < k
        ensures MatchesAt(next, rest, matches, j) == MatchesAt(buffer, incoming, matches, j + 1)
      {
        assert incoming[..j + 2][1..] == rest[..j + 1];
      }
      ScanStopsAtFirstMatch(next, rest, matches, k - 1);
    }
  }

  /** When no datagram is accepted, the loop ends only by a failing receive call. */
  lemma {:induction false} ScanWithoutMatch(buffer: seq<Byte>, incoming: seq<seq<Byte>>, matches: seq<Byte> -> bool)
    requires |buffer| == BufferSize
    requires forall k :: 0 <= k < |incoming| ==> !MatchesAt(buffer, incoming, matches, k)
    ensures Scan(buffer, incoming, matches) == NoReply
    decreases |incoming|
  {
    if incoming != [] {
      var next := Overlay(buffer, incoming[0]);
      var rest := incoming[1..];
      assert incoming[..1] == [incoming[0]];
      assert BufferAfter(buffer, incoming[..1]) == next by {
        assert incoming[..1][1..] == [];
      }
      assert !MatchesAt(buffer, incoming, matches, 0);
      forall j | 0 <= j < |rest|
        ensures !MatchesAt(next, rest, matches, j)
      {
        assert incoming[..j + 2][1..] == rest[..j + 1];
        assert !MatchesAt(buffer, incoming, matches, j + 1);
      }
      ScanWithoutMatch(next, rest, matches);
    }
  }

  /** A reply is passed on exactly when some datagram is accepted. */
  lemma ScanRepliesIffSomeMatch(buffer: seq<Byte>, incoming: seq<seq<Byte>>, matches: seq<Byte> -> bool)
    requires |buffer| == BufferSize
    ensures Scan(buffer, incoming, matches).Reply?
        <==> exists k :: 0 <= k < |incoming| && MatchesAt(buffer, incoming, matches, k)
  {
    if exists k :: 0 <= k < |incoming| && MatchesAt(buffer, incoming, matches, k) {
      var k := FirstMatch(buffer, incoming, matches, |incoming|);
      ScanStopsAtFirstMatch(buffer, incoming, matches, k);
    } else {
      ScanWithoutMatch(buffer, incoming, matches);
    }
  }

  /** The least index below `bound` that is accepted, given that one is. */
  lemma {:induction false} FirstMatch(buffer: seq<Byte>, incoming: seq<seq<Byte>>, matches: seq<Byte> -> bool, bound: nat)
    returns (k: nat)
    requires |buffer| == BufferSize && bound <= |incoming|
    requires exists k :: 0 <= k < bound && MatchesAt(buffer, incoming, matches, k)
    ensures k < bound && MatchesAt(buffer, incoming, matches, k)
    ensures forall j :: 0 <= j < k ==> !MatchesAt(buffer, incoming, matches, j)
    decreases bound
  {
    if exists j :: 0 <= j < bound - 1 && MatchesAt(buffer, incoming, matches, j) {
      k := FirstMatch(buffer, incoming, matches, bound - 1);
    } else {
      k := bound - 1;
    }
  }

  /**
   * The receive loop.  Each receive overwrites the front of the shared
   * 1024-byte buffer (initially zero); the message whose transaction id is
   * compared is built from the whole buffer; an accepted datagram is
   * copied out with exactly its received length.  Running out of
   * datagrams stands for the receive call that throws.
   */
  method ReceiveReply(incoming: seq<seq<Byte>>, matches: seq<Byte> -> bool) returns (r: Received)
    ensures r == Scan(Zeros(BufferSize), incoming, matches)
  {
    var packetBuffer := new Byte[BufferSize](_ => 0);
    assert packetBuffer[..] == Zeros(BufferSize);
    var i := 0;
    while i < |incoming|
      invariant 0 <= i <= |incoming|
      invariant packetBuffer.Length == BufferSize
      invariant Scan(packetBuffer[..], incoming[i..], matches) == Scan(Zeros(BufferSize), incoming, matches)
    {
      var payload := incoming[i];
      var packetLen := ReceivedLength(payload);
      ghost var before := packetBuffer[..];
      forall j | 0 <= j < packetLen {
        packetBuffer[j] := payload[j];
      }
      assert packetBuffer[..] == Overlay(before, payload) by {
        forall j | 0 <= j < BufferSize
          ensures packetBuffer[..][j] == Overlay(before, payload)[j]
        {
          if j < packetLen {
            assert Overlay(before, payload)[..packetLen][j] == payload[..packetLen][j];
          } else {
            assert Overlay(before, payload)[packetLen..][j - packetLen] == before[packetLen..][j - packetLen];
          }
        }
      }
      if matches(packetBuffer[..]) {
        var msgBuffer := new Byte[packetLen](_ => 0);
        forall j | 0 <= j < packetLen {
          msgBuffer[j] := packetBuffer[j];
        }
        assert msgBuffer[..] == packetBuffer[..][..packetLen];
        r := Reply(msgBuffer[..]);
        return;
      }
      assert incoming[i..][1..] == incoming[i + 1..];
      i := i + 1;
    }
    r := NoReply;
  }
}
