/**
 * The probing sequence of UdpPpClient: tryTest schedules a first
 * DatagramClient attempt; after each attempt, a failure either schedules
 * a new attempt with twice the timeout or, once the timeout that just
 * failed is above 3000 ms, an error notification; a decoded reply submits
 * the established notification.  The notifier tasks call the listener
 * only when it is not null.
 *
 * Executors are modelled by the `Scheduled` values an attempt leaves
 * behind; a whole sequence is the trace `Chain` of attempts run and
 * listener callbacks made, given the result of each attempt.
 */
module RetryScheduler {
  import opened Wrappers
  import opened AttributeDecoder
  import opened Sockets

  /** UdpPpClient.timeout: the first attempt's socket timeout, in ms. */
  const InitialTimeout: int := 500
  /** Delay before the first attempt. */
  const InitialDelay: int := 10
  /** An attempt whose timeout is above this gives up instead of retrying. */
  const TimeoutCeiling: int := 3000
  /** Delay before a retry. */
  const RetryDelay: int := 2000
  /** Delay before the error notification. */
  const ErrorNotifyDelay: int := 10
  /** The established notification is submitted to run at once. */
  const FollowTaskDelay: int := 0

  /** A double coordinate, carried as its bit pattern and never interpreted. */
  datatype Coordinate = Coordinate(ieeeBits: int)

  /** The caller's EstablishListener, or null. */
  datatype Listener = NoListener | ListenerRef(id: int)

  /** The fields of a DatagramClient task; none changes after construction. */
  datatype DatagramClient = DatagramClient(
    socket: DatagramSocket,
    stunServer: string,
    serverPort: int,
    uid: int,
    latitude: Coordinate,
    longitude: Coordinate,
    locatetime: int,
    timeout: int,
    listener: Listener)

  /** A mapped address as the reply reports it: raw address bytes and port. */
  datatype Endpoint = Endpoint(address: seq<Byte>, port: int)

  /**
   * How one attempt ended: a caught exception (isError set), a reply
   * that was handled (with the mapped endpoint when one was decoded and
   * accepted by InetAddress), or an unchecked exception that left run().
   */
  datatype AttemptResult =
    | Failed(failure: FailureKind)
    | Replied(mapped: Option<Endpoint>)
    | Escaped

  /** The tasks the client hands to executors. */
  datatype Task =
    | Attempt(client: DatagramClient)
    | ErrorNotify(listener: Listener)
    | FollowTask(publicAddress: seq<Byte>, publicPort: int, localPort: int, listener: Listener)

  datatype Scheduled = Scheduled(delayMs: int, task: Task)

  /** What can be observed of a probing sequence. */
  datatype Event =
    | Ran(delayMs: int, timeout: int)
    | Established(publicAddress: seq<Byte>, publicPort: int, localPort: int)
    | OnError

  /**
   * Java's `timeout * 2` on an `int`: for a 32-bit timeout, the 32-bit
   * value that differs from the true product by a multiple of 2^32, so
   * Integer.MIN_VALUE doubles to 0.  Without wrap-around it is the plain
   * product.
   */
  function DoubleInt32(t: int): (r: int)
    ensures -0x8000_0000 <= t < 0x8000_0000 ==>
      -0x8000_0000 <= r < 0x8000_0000 &&
      (r == 2 * t || r == 2 * t + 0x1_0000_0000 || r == 2 * t - 0x1_0000_0000)
    ensures -0x4000_0000 <= t < 0x4000_0000 ==> r == 2 * t
  {
    if t < -0x4000_0000 then 2 * t + 0x1_0000_0000
    else if t < 0x4000_0000 then 2 * t
    else 2 * t - 0x1_0000_0000
  }

  /** Two clients that differ at most in their timeout. */
  predicate SameProbe(a: DatagramClient, b: DatagramClient)
  {
    a == b.(timeout := a.timeout)
  }

  /** tryTest: the first attempt, with the default timeout, after a short delay. */
  function TryTest(socket: DatagramSocket, stunServer: string, stunPort: int, uid: int,
                   latitude: Coordinate, longitude: Coordinate, locatetime: int,
                   listener: Listener): (s: Scheduled)
    ensures s.delayMs == InitialDelay && s.task.Attempt?
    ensures s.task.client.timeout == InitialTimeout && s.task.client.listener == listener
    ensures s.task.client.socket == socket && s.task.client.stunServer == stunServer
    ensures s.task.client.serverPort == stunPort && s.task.client.uid == uid
    ensures s.task.client.latitude == latitude && s.task.client.longitude == longitude
    ensures s.task.client.locatetime == locatetime
  {
    Scheduled(InitialDelay, Attempt(DatagramClient(socket, stunServer, stunPort, uid,
      latitude, longitude, locatetime, InitialTimeout, listener)))
  }

  /**
   * The decision after the try block of run(): nothing unless an
   * exception was caught and there is a listener; then an error
   * notification if the timeout that failed is above the ceiling, and
   * otherwise one new attempt, identical but for a doubled timeout (with
   * Java's 32-bit wrap-around).
   */
  function AfterTry(c: DatagramClient, isError: bool): (s: Option<Scheduled>)
    ensures s.Some? <==> isError && c.listener != NoListener
    ensures s.Some? && c.timeout > TimeoutCeiling ==> s.value == Scheduled(ErrorNotifyDelay, ErrorNotify(c.listener))
    ensures s.Some? && c.timeout <= TimeoutCeiling ==>
      s.value.delayMs == RetryDelay && s.value.task.Attempt? &&
      s.value.task.client.timeout == DoubleInt32(c.timeout) && SameProbe(s.value.task.client, c)
  {
    if isError && c.listener != NoListener then
      if c.timeout > TimeoutCeiling then Some(Scheduled(ErrorNotifyDelay, ErrorNotify(c.listener)))
      else Some(Scheduled(RetryDelay, Attempt(c.(timeout := DoubleInt32(c.timeout)))))
    else None
  }

  /**
   * Everything an attempt leaves scheduled: the established notification
   * submitted by the reply handler, or what AfterTry decides.  Only a
   * caught exception sets isError.
   */
  function FollowUp(c: DatagramClient, result: AttemptResult): (s: Option<Scheduled>)
    ensures s.Some? && s.value.task.FollowTask? <==> result.Replied? && result.mapped.Some?
    ensures (s.Some? && !s.value.task.FollowTask?) <==> result.Failed? && c.listener != NoListener
  {
    match result
    case Replied(Some(ep)) =>
      Some(Scheduled(FollowTaskDelay, FollowTask(ep.address, ep.port, c.socket.localPort, c.listener)))
    case Replied(None) => AfterTry(c, false)
    case Escaped => None
    case Failed(_) => AfterTry(c, true)
  }

  /** FollowTask.run and ErrorNotify.run: the listener is called only when there is one. */
  function Notify(t: Task): (events: seq<Event>)
    requires !t.Attempt?
    ensures |events| <= 1 && (|events| == 1 <==> t.listener != NoListener)
    ensures forall e :: e in events ==> !e.Ran?
  {
    match t
    case ErrorNotify(l) => if l != NoListener then [OnError] else []
    case FollowTask(addr, port, local, l) => if l != NoListener then [Established(addr, port, local)] else []
  }

  /**
   * The trace of a probing sequence whose next attempt runs `delayMs`
   * after the previous step, given the results of the attempts that run
   * (the trace stops when `results` runs out).
   */
  function Chain(c: DatagramClient, delayMs: int, results: seq<AttemptResult>): (trace: seq<Event>)
    ensures trace == [] <==> results == []
    ensures trace != [] ==> trace[0] == Ran(delayMs, c.timeout)
    ensures |trace| <= |results| + 1
    decreases |results|
  {
    if results == [] then []
    else
      [Ran(delayMs, c.timeout)] +
      match FollowUp(c, results[0])
      case None => []
      case Some(s) => if s.task.Attempt? then Chain(s.task.client, s.delayMs, results[1..]) else Notify(s.task)
  }

  /** The socket timeouts of the attempts in a trace. */
  function Timeouts(trace: seq<Event>): seq<int>
  {
    if trace == [] then []
    else (if trace[0].Ran? then [trace[0].timeout] else []) + Timeouts(trace[1..])
  }

  /**
   * The timeouts of the attempts of a sequence in which every attempt
   * fails: the timeout doubles until one above the ceiling has failed.
   */
  function Attempts(timeout: int): (ts: seq<int>)
    requires timeout > 0
    ensures |ts| >= 1 && ts[0] == timeout && ts[|ts| - 1] > TimeoutCeiling
    ensures forall i :: 0 <= i < |ts| - 1 ==> ts[i] <= TimeoutCeiling && ts[i + 1] == 2 * ts[i]
    decreases TimeoutCeiling + 1 - timeout
  {
    if timeout > TimeoutCeiling then [timeout] else [timeout] + Attempts(timeout * 2)
  }

  /** Attempt events for the given timeouts: the first after `delayMs`, later ones after the retry delay. */
  function Schedule(delayMs: int, timeouts: seq<int>): (trace: seq<Event>)
    ensures |trace| == |timeouts|
    ensures forall i :: 0 <= i < |trace| ==>
      trace[i] == Ran(if i == 0 then delayMs else RetryDelay, timeouts[i])
    decreases |timeouts|
  {
    if timeouts == [] then [] else [Ran(delayMs, timeouts[0])] + Schedule(RetryDelay, timeouts[1..])
  }

  function Pow2(n: nat): nat
  {
    if n == 0 then 1 else 2 * Pow2(n - 1)
  }

  /** With the default timeout, the attempts that can run are those with 500, 1000, 2000 and 4000 ms. */
  lemma DefaultAttempts()
    ensures Attempts(InitialTimeout) == [500, 1000, 2000, 4000]
  {
    assert Attempts(4000) == [4000];
    assert Attempts(2000) == [2000, 4000];
    assert Attempts(1000) == [1000, 2000, 4000];
  }

  /** The i-th attempt of a failing sequence has the starting timeout times 2^i. */
  lemma {:induction false} AttemptsDouble(timeout: int, i: nat)
    requires timeout > 0 && i < |Attempts(timeout)|
    ensures Attempts(timeout)[i] == timeout * Pow2(i)
    decreases i
  {
    if i > 0 {
      AttemptsDouble(timeout, i - 1);
      assert Attempts(timeout)[i] == 2 * (timeout * Pow2(i - 1));
    }
  }

  /** Once timeout * 2^k is above the ceiling, at most k + 1 attempts run. */
  lemma {:induction false} AttemptsBound(timeout: int, k: nat)
    requires timeout > 0 && timeout * Pow2(k) > TimeoutCeiling
    ensures |Attempts(timeout)| <= k + 1
    decreases k
  {
    if timeout <= TimeoutCeiling {
      assert k > 0;
      assert (timeout * 2) * Pow2(k - 1) == timeout * Pow2(k);
      AttemptsBound(timeout * 2, k - 1);
    }
  }

  /** Every positive starting timeout gives up after at most 13 failed attempts (1 ms doubles to 4096 ms). */
  lemma AttemptsAtMostThirteen(timeout: int)
    requires timeout > 0
    ensures |Attempts(timeout)| <= 13
  {
    assert Pow2(12) == 4096;
    AttemptsBound(timeout, 12);
  }

  /**
   * Whatever the attempts' results, the attempts of a sequence are a
   * prefix of those of a sequence that always fails: a sequence started
   * with a positive timeout makes at most |Attempts(timeout)| attempts.
   */
  lemma {:induction false} ChainFollowsAttempts(c: DatagramClient, delayMs: int, results: seq<AttemptResult>)
    requires c.timeout > 0
    ensures Timeouts(Chain(c, delayMs, results)) <= Attempts(c.timeout)
    decreases |results|
  {
    if results != [] {
      var trace := Chain(c, delayMs, results);
      var tail := trace[1..];
      assert trace == [Ran(delayMs, c.timeout)] + tail;
      assert Timeouts(trace) == [c.timeout] + Timeouts(tail);
      match FollowUp(c, results[0])
      case None =>
      case Some(s) =>
        if s.task.Attempt? {
          assert tail == Chain(s.task.client, s.delayMs, results[1..]);
          ChainFollowsAttempts(s.task.client, s.delayMs, results[1..]);
        } else {
          assert tail == Notify(s.task);
          if tail != [] {
            assert Timeouts(tail) == Timeouts(tail[1..]);
          }
        }
    }
  }

  /**
   * At most one listener callback is made, and nothing follows it:
   * established and onError exclude each other and each comes at most once.
   */
  lemma {:induction false} AtMostOneCallback(c: DatagramClient, delayMs: int, results: seq<AttemptResult>)
    ensures forall i :: 0 <= i < |Chain(c, delayMs, results)| - 1 ==> Chain(c, delayMs, results)[i].Ran?
    decreases |results|
  {
    if results != [] {
      match FollowUp(c, results[0])
      case None =>
      case Some(s) =>
        if s.task.Attempt? {
          AtMostOneCallback(s.task.client, s.delayMs, results[1..]);
        }
    }
  }

  /**
   * When every attempt fails and there is a listener, the attempts run
   * with each timeout of Attempts in turn and then onError is called.
   */
  lemma {:induction false} ChainGivesUp(c: DatagramClient, delayMs: int, results: seq<AttemptResult>)
    requires c.timeout > 0 && c.listener != NoListener
    requires |Attempts(c.timeout)| <= |results|
    requires forall i :: 0 <= i < |Attempts(c.timeout)| ==> results[i].Failed?
    ensures Chain(c, delayMs, results) == Schedule(delayMs, Attempts(c.timeout)) + [OnError]
    decreases |results|
  {
    if c.timeout <= TimeoutCeiling {
      var next := c.(timeout := c.timeout * 2);
      var ts, rest := Attempts(c.timeout), Attempts(next.timeout);
      assert ts == [c.timeout] + rest;
      forall i | 0 <= i < |rest|
        ensures results[1..][i].Failed?
      {
        assert results[1..][i] == results[i + 1];
      }
      ChainGivesUp(next, RetryDelay, results[1..]);
      calc {
        Chain(c, delayMs, results);
      ==  { RetryStep(c, delayMs, results); }
        [Ran(delayMs, c.timeout)] + Chain(next, RetryDelay, results[1..]);
      ==
        [Ran(delayMs, c.timeout)] + (Schedule(RetryDelay, rest) + [OnError]);
      ==  { AppendAssociative([Ran(delayMs, c.timeout)], Schedule(RetryDelay, rest), [OnError]); }
        ([Ran(delayMs, c.timeout)] + Schedule(RetryDelay, rest)) + [OnError];
      ==  { assert ts[1..] == rest; }
        Schedule(delayMs, ts) + [OnError];
      }
    }
  }

  lemma AppendAssociative<T>(a: seq<T>, b: seq<T>, c: seq<T>)
    ensures a + (b + c) == (a + b) + c
  {
  }

  /** A failed attempt with a positive timeout of at most 3000 and a listener is followed by the doubled attempt. */
  lemma RetryStep(c: DatagramClient, delayMs: int, results: seq<AttemptResult>)
    requires 0 < c.timeout <= TimeoutCeiling && c.listener != NoListener
    requires results != [] && results[0].Failed?
    ensures Chain(c, delayMs, results)
      == [Ran(delayMs, c.timeout)] + Chain(c.(timeout := c.timeout * 2), RetryDelay, results[1..])
  {
    assert DoubleInt32(c.timeout) == c.timeout * 2;
    assert FollowUp(c, results[0]) == Some(Scheduled(RetryDelay, Attempt(c.(timeout := c.timeout * 2))));
  }

  /**
   * When the first k attempts fail and attempt k is answered, the
   * sequence stops there; it reports established exactly when the reply
   * carried an accepted mapped address.
   */
  lemma {:induction false} ChainStopsAtReply(c: DatagramClient, delayMs: int, results: seq<AttemptResult>, k: nat)
    requires c.timeout > 0 && c.listener != NoListener
    requires k < |Attempts(c.timeout)| && k < |results|
    requires forall i :: 0 <= i < k ==> results[i].Failed?
    requires !results[k].Failed?
    ensures Chain(c, delayMs, results) == Schedule(delayMs, Attempts(c.timeout)[..k + 1]) +
      (if results[k].Replied? && results[k].mapped.Some?
       then [Established(results[k].mapped.value.address, results[k].mapped.value.port, c.socket.localPort)]
       else [])
    decreases k
  {
    if k > 0 {
      var next := c.(timeout := DoubleInt32(c.timeout));
      assert next.timeout == c.timeout * 2;
      assert Attempts(c.timeout) == [c.timeout] + Attempts(next.timeout);
      assert Attempts(c.timeout)[..k + 1][1..] == Attempts(next.timeout)[..k];
      ChainStopsAtReply(next, RetryDelay, results[1..], k - 1);
    }
  }

  /**
   * The sequence tryTest starts, when every attempt fails: attempts with
   * 500, 1000, 2000 and 4000 ms, then a single onError and no established.
   */
  lemma DefaultProbeGivesUp(socket: DatagramSocket, stunServer: string, stunPort: int, uid: int,
                            latitude: Coordinate, longitude: Coordinate, locatetime: int,
                            listener: Listener, results: seq<AttemptResult>)
    requires listener != NoListener
    requires |results| >= 4 && forall i :: 0 <= i < 4 ==> results[i].Failed?
    ensures var s := TryTest(socket, stunServer, stunPort, uid, latitude, longitude, locatetime, listener);
      Chain(s.task.client, s.delayMs, results)
      == [Ran(10, 500), Ran(2000, 1000), Ran(2000, 2000), Ran(2000, 4000), OnError]
  {
    var s := TryTest(socket, stunServer, stunPort, uid, latitude, longitude, locatetime, listener);
    DefaultAttempts();
    ChainGivesUp(s.task.client, s.delayMs, results);
  }

  /** Without a listener, an attempt is never followed by a retry or a callback. */
  lemma NullListenerSingleAttempt(c: DatagramClient, delayMs: int, results: seq<AttemptResult>)
    requires c.listener == NoListener && results != []
    ensures Chain(c, delayMs, results) == [Ran(delayMs, c.timeout)]
  {
  }

  /**
   * With a zero timeout (wait forever) failures are always retried: the
   * ceiling is never reached, so there is no bound on the attempts.
   */
  lemma {:induction false} ZeroTimeoutNeverGivesUp(c: DatagramClient, delayMs: int, results: seq<AttemptResult>)
    requires c.timeout == 0 && c.listener != NoListener
    requires forall i :: 0 <= i < |results| ==> results[i].Failed?
    ensures Chain(c, delayMs, results) == Schedule(delayMs, seq(|results|, _ => 0))
    decreases |results|
  {
    if results != [] {
      ZeroTimeoutNeverGivesUp(c, RetryDelay, results[1..]);
      assert seq(|results|, _ => 0)[1..] == seq(|results| - 1, _ => 0);
    }
  }

  /**
   * A failing attempt with timeout Integer.MIN_VALUE is retried with
   * timeout 0 (the doubling wraps around), and from then on every failure
   * is retried: the sequence never gives up.
   */
  lemma MinTimeoutNeverGivesUp(c: DatagramClient, delayMs: int, results: seq<AttemptResult>)
    requires c.timeout == -0x8000_0000 && c.listener != NoListener
    requires results != [] && forall i :: 0 <= i < |results| ==> results[i].Failed?
    ensures Chain(c, delayMs, results)
      == [Ran(delayMs, -0x8000_0000)] + Schedule(RetryDelay, seq(|results| - 1, _ => 0))
  {
    assert DoubleInt32(c.timeout) == 0;
    ZeroTimeoutNeverGivesUp(c.(timeout := 0), RetryDelay, results[1..]);
  }
}
