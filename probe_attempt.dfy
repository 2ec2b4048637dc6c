/**
 * One DatagramClient attempt (DatagramClient.run and the onResponse
 * handler): set the socket timeout, send the request, wait for the
 * reply carrying the request's transaction id, decode its address
 * attribute, and decide what to schedule next.
 *
 * The network and the external STUN library are parameters: the send
 * step's outcome and the datagrams received, the transaction-id
 * comparison `matches`, the agent's dispatch of a reply to onResponse
 * (`dispatch`, giving the bytes onResponse receives, or None when the
 * agent calls another handler, all of which are empty), and the
 * attribute factory.
 */
module ProbeAttempt {
  import opened Wrappers
  import opened AttributeDecoder
  import opened ReplyMatching
  import opened Sockets
  import opened RetryScheduler

  /**
   * How building and sending the request ends: normally, with an
   * exception that run() catches, or with an unchecked exception (such as
   * the IllegalArgumentException for a host name that did not resolve).
   */
  datatype SendOutcome = SendOk | SendCaught(failure: FailureKind) | SendEscaped

  /** What the network does during one attempt. */
  datatype AttemptEnv = AttemptEnv(
    soTimeoutFails: bool,          // setSoTimeout throws a SocketException (a closed socket)
    send: SendOutcome,             // building and sending the request
    incoming: seq<seq<Byte>>,      // datagrams received, in order
    receiveFailure: FailureKind)   // thrown by the receive call after the last of them

  /** InetSocketAddress accepts ports 0 to 65535 and throws an unchecked exception otherwise. */
  predicate ValidPort(port: int)
  {
    0 <= port <= 0xFFFF
  }

  /** What the attribute factory yields: a mapped-address attribute, or another kind. */
  datatype FactoryAttribute =
    | MappedAddressAttribute(address: seq<Byte>, port: int)
    | OtherAttribute

  /** InetAddress.getByAddress accepts IPv4 (4 bytes) and IPv6 (16 bytes) addresses only. */
  predicate ValidAddressLength(address: seq<Byte>)
  {
    |address| == 4 || |address| == 16
  }

  /**
   * The result of onResponse on the given bytes: an index or cast
   * exception escapes, an address of the wrong length is swallowed, and
   * otherwise the endpoint is reported.
   */
  function ResponseResult(data: seq<Byte>, factory: (nat, nat, seq<Byte>) -> FactoryAttribute): (r: AttemptResult)
    ensures r.Replied? && r.mapped.Some? ==>
      Decodable(data) && ValidAddressLength(r.mapped.value.address) &&
      factory(Decoded(data).attrType, Decoded(data).length, Decoded(data).value)
        == MappedAddressAttribute(r.mapped.value.address, r.mapped.value.port)
    ensures Decodable(data) ==>
      var f := factory(Decoded(data).attrType, Decoded(data).length, Decoded(data).value);
      f.MappedAddressAttribute? && ValidAddressLength(f.address) ==> r == Replied(Some(Endpoint(f.address, f.port)))
    ensures r == Escaped <==>
      !Decodable(data) || factory(Decoded(data).attrType, Decoded(data).length, Decoded(data).value).OtherAttribute?
    ensures !r.Failed?
  {
    if !Decodable(data) then Escaped
    else
      var a := Decoded(data);
      match factory(a.attrType, a.length, a.value)
      case OtherAttribute => Escaped
      case MappedAddressAttribute(address, port) =>
        if ValidAddressLength(address) then Replied(Some(Endpoint(address, port))) else Replied(None)
  }

  /**
   * The result of one attempt of client c.  setSoTimeout first throws a
   * SocketException on a closed socket, which is caught, and only then an
   * unchecked exception for a negative timeout; a port out of range and an
   * escaping send also throw unchecked exceptions; a caught send failure or
   * a receive call that throws before a matching reply is a caught
   * failure; otherwise the matched reply is dispatched.
   */
  function AttemptOf(c: DatagramClient, env: AttemptEnv, matches: seq<Byte> -> bool,
                     dispatch: seq<Byte> -> Option<seq<Byte>>,
                     factory: (nat, nat, seq<Byte>) -> FactoryAttribute): (r: AttemptResult)
    ensures env.soTimeoutFails ==> r == Failed(SocketFailure)
    ensures (!env.soTimeoutFails &&
             (c.timeout < 0 || !ValidPort(c.serverPort) || env.send == SendEscaped)) ==> r == Escaped
    ensures r.Failed? ==>
      (env.soTimeoutFails && r.failure == SocketFailure) ||
      env.send == SendCaught(r.failure) ||
      (env.send == SendOk && r.failure == env.receiveFailure)
  {
    if env.soTimeoutFails then Failed(SocketFailure)
    else if c.timeout < 0 then Escaped
    else if !ValidPort(c.serverPort) then Escaped
    else match env.send
      case SendCaught(k) => Failed(k)
      case SendEscaped => Escaped
      case SendOk =>
        match Scan(Zeros(BufferSize), env.incoming, matches)
        case NoReply => Failed(env.receiveFailure)
        case Reply(msg) =>
          match dispatch(msg)
          case None => Replied(None)
          case Some(data) => ResponseResult(data, factory)
  }

  /**
   * An attempt fails (and may be retried) exactly when setting the
   * timeout fails on a closed socket, or the timeout is accepted, the port
   * is valid, and sending fails with a caught exception or no received
   * datagram carries the request's transaction id.
   */
  lemma AttemptFailsIffNoMatch(c: DatagramClient, env: AttemptEnv, matches: seq<Byte> -> bool,
                               dispatch: seq<Byte> -> Option<seq<Byte>>,
                               factory: (nat, nat, seq<Byte>) -> FactoryAttribute)
    ensures AttemptOf(c, env, matches, dispatch, factory).Failed?
      <==> env.soTimeoutFails ||
           (c.timeout >= 0 && ValidPort(c.serverPort) &&
            (env.send.SendCaught? ||
             (env.send.SendOk? &&
              forall k :: 0 <= k < |env.incoming| ==> !MatchesAt(Zeros(BufferSize), env.incoming, matches, k))))
  {
    ScanRepliesIffSomeMatch(Zeros(BufferSize), env.incoming, matches);
  }

  /**
   * A matching datagram preceded only by non-matching ones is the reply
   * that is dispatched, trimmed to its received length.
   */
  lemma MatchedReplyIsDispatched(c: DatagramClient, env: AttemptEnv, matches: seq<Byte> -> bool,
                                 dispatch: seq<Byte> -> Option<seq<Byte>>,
                                 factory: (nat, nat, seq<Byte>) -> FactoryAttribute, k: nat)
    requires c.timeout >= 0 && !env.soTimeoutFails && ValidPort(c.serverPort) && env.send == SendOk
    requires MatchesAt(Zeros(BufferSize), env.incoming, matches, k)
    requires forall j :: 0 <= j < k ==> !MatchesAt(Zeros(BufferSize), env.incoming, matches, j)
    ensures var msg := env.incoming[k][..ReceivedLength(env.incoming[k])];
      AttemptOf(c, env, matches, dispatch, factory)
      == if dispatch(msg).None? then Replied(None) else ResponseResult(dispatch(msg).value, factory)
  {
    ScanStopsAtFirstMatch(Zeros(BufferSize), env.incoming, matches, k);
  }

  /**
   * From tryTest: when the first datagram of the first attempt matches and
   * its attribute decodes to an IPv4 mapped address, the sequence is that
   * one attempt followed by established with that address and port and
   * the socket's local port.
   */
  lemma DefaultProbeEstablishes(socket: DatagramSocket, stunServer: string, stunPort: int, uid: int,
                                latitude: Coordinate, longitude: Coordinate, locatetime: int,
                                listener: Listener, env: AttemptEnv, matches: seq<Byte> -> bool,
                                dispatch: seq<Byte> -> Option<seq<Byte>>,
                                factory: (nat, nat, seq<Byte>) -> FactoryAttribute,
                                data: seq<Byte>, address: seq<Byte>, port: int,
                                later: seq<AttemptResult>)
    requires listener != NoListener && ValidPort(stunPort)
    requires !env.soTimeoutFails && env.send == SendOk
    requires MatchesAt(Zeros(BufferSize), env.incoming, matches, 0)
    requires dispatch(env.incoming[0][..ReceivedLength(env.incoming[0])]) == Some(data)
    requires Decodable(data)
    requires factory(Decoded(data).attrType, Decoded(data).length, Decoded(data).value)
             == MappedAddressAttribute(address, port)
    requires |address| == 4
    ensures var s := TryTest(socket, stunServer, stunPort, uid, latitude, longitude, locatetime, listener);
      Chain(s.task.client, s.delayMs, [AttemptOf(s.task.client, env, matches, dispatch, factory)] + later)
      == [Ran(10, 500), Established(address, port, socket.localPort)]
  {
    var s := TryTest(socket, stunServer, stunPort, uid, latitude, longitude, locatetime, listener);
    MatchedReplyIsDispatched(s.task.client, env, matches, dispatch, factory, 0);
  }

  /**
   * onResponse: decode the attribute, have the factory build the
   * mapped-address attribute, and submit the established notification if
   * InetAddress accepts the address; an UnknownHostException is swallowed,
   * so nothing is submitted then.
   */
  method OnResponse(messageData: array<Byte>, factory: (nat, nat, seq<Byte>) -> FactoryAttribute,
                    localPort: int, listener: Listener) returns (submitted: Option<Task>)
    requires Decodable(messageData[..])
    requires factory(Decoded(messageData[..]).attrType, Decoded(messageData[..]).length,
                     Decoded(messageData[..]).value).MappedAddressAttribute?
    ensures var r := ResponseResult(messageData[..], factory);
      r.Replied? &&
      submitted == if r.mapped.Some?
                   then Some(FollowTask(r.mapped.value.address, r.mapped.value.port, localPort, listener))
                   else None
  {
    var attrType, length, valueData := DecodeAttribute(messageData);
    var mappedAttribute := factory(attrType, length, valueData[..]);
    if ValidAddressLength(mappedAttribute.address) {
      submitted := Some(FollowTask(mappedAttribute.address, mappedAttribute.port, localPort, listener));
    } else {
      submitted := None;
    }
  }

  /**
   * DatagramClient.run.  Returns the attempt's result and what it leaves
   * scheduled: the established notification, a retry or the error
   * notification.  The socket's timeout is set to the attempt's.
   */
  method Run(c: DatagramClient, env: AttemptEnv, matches: seq<Byte> -> bool,
             dispatch: seq<Byte> -> Option<seq<Byte>>,
             factory: (nat, nat, seq<Byte>) -> FactoryAttribute)
    returns (result: AttemptResult, next: Option<Scheduled>)
    modifies c.socket
    ensures result == AttemptOf(c, env, matches, dispatch, factory)
    ensures next == FollowUp(c, result)
    ensures c.timeout >= 0 && !env.soTimeoutFails ==> c.socket.soTimeout == c.timeout
    ensures c.timeout < 0 || env.soTimeoutFails ==> unchanged(c.socket)
  {
    var isError := false;
    next := None;
    if env.soTimeoutFails {
      // SocketException from setSoTimeout on a closed socket: caught.
      isError := true;
      result := Failed(SocketFailure);
    } else if c.timeout < 0 {
      // IllegalArgumentException from setSoTimeout: not caught, run() ends.
      result := Escaped;
      return;
    } else {
      c.socket.SetSoTimeout(c.timeout);
      if !ValidPort(c.serverPort) {
        // IllegalArgumentException from InetSocketAddress: not caught.
        result := Escaped;
        return;
      }
      match env.send
      case SendEscaped =>
        result := Escaped;
        return;
      case SendCaught(k) =>
        isError := true;
        result := Failed(k);
      case SendOk =>
        var received := ReceiveReply(env.incoming, matches);
        match received
        case NoReply =>
          isError := true;
          result := Failed(env.receiveFailure);
        case Reply(msgBuffer) =>
          var handled := dispatch(msgBuffer);
          if handled.None? {
            result := Replied(None);
          } else {
            var data := handled.value;
            if !Decodable(data) {
              // ArrayIndexOutOfBoundsException in onResponse: not caught.
              result := Escaped;
              return;
            }
            var a := Decoded(data);
            if factory(a.attrType, a.length, a.value).OtherAttribute? {
              // ClassCastException in onResponse: not caught.
              result := Escaped;
              return;
            }
            var messageData := new Byte[|data|](i requires 0 <= i < |data| => data[i]);
            assert messageData[..] == data;
            var submitted := OnResponse(messageData, factory, c.socket.localPort, c.listener);
            result := ResponseResult(data, factory);
            if submitted.Some? {
              next := Some(Scheduled(FollowTaskDelay, submitted.value));
            }
          }
    }
    if isError && c.listener != NoListener {
      if c.timeout > TimeoutCeiling {
        next := Some(Scheduled(ErrorNotifyDelay, ErrorNotify(c.listener)));
      } else {
        next := Some(Scheduled(RetryDelay, Attempt(c.(timeout := DoubleInt32(c.timeout)))));
      }
    }
  }
}
