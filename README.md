# UdpPpClient NAT-discovery client, modelled in Dafny

`UdpPpClient` finds the public (server-reflexive) address and port that a NAT assigns to a local
UDP socket. It sends a request to a rendezvous server and waits for the reply that carries the
request's transaction id. It decodes the mapped-address attribute of that reply and reports it to
an `EstablishListener`. A failed attempt is retried with a doubled socket timeout until a timeout
above 3000 ms has failed; then the listener's `onError` is called.

This project models the core of `src/main/java/com/didlink/UdpPpClient.java` and proves its
properties:

- `AttributeDecoder` covers `getPaddedLength` and the type-length-value decoding in `onResponse`.
  It reads a 16-bit type and a 16-bit length, then allocates a zero-filled value buffer of the
  padded length and copies exactly the declared bytes into it. This is the attribute layout of
  section 15 of RFC 5389. `Encode` writes that layout; `DecodeEncode` proves that decoding it gives the attribute back.
- `ReplyMatching` covers the receive loop of `DatagramClient.run`. It keeps the shared
  1024-byte packet buffer, discards datagrams whose transaction id does not match, and trims the
  first matching one to its received length.
- `Sockets` holds the socket's receive timeout, which an attempt sets unless `setSoTimeout` throws, and its local port.
- `RetryScheduler` covers the probing sequence. `tryTest` starts it. After each attempt there is
  a retry with a doubled timeout, an error notification, or an established notification. The
  notifier tasks skip the listener when it is null. A whole sequence is modelled as a trace of
  attempts and listener callbacks.
- `ProbeAttempt` covers one attempt: `DatagramClient.run` with its `isError` flag, and the
  `onResponse` handler.

Facts about the code that shape the model:

- The give-up test reads the timeout of the attempt that just failed. Starting from 500 ms, the
  attempts therefore run with 500, 1000, 2000 and 4000 ms, and `onError` fires only after the
  4000 ms attempt fails (`DefaultProbeGivesUp`).
- The code sets `SO_TIMEOUT`, which bounds each `receive` call separately. A new datagram starts
  a new wait, so nothing bounds the total time of one attempt.
- An address that `InetAddress.getByAddress` rejects raises an `UnknownHostException`, which is
  caught inside `onResponse`. `isError` stays false, so nothing is retried and no callback is
  made (`ResponseResult`, `ChainStopsAtReply`).
- The transaction-id comparison parses the whole 1024-byte buffer. That includes bytes left over
  from earlier, longer datagrams. Only the payload that is passed on is trimmed to the received
  length. `Overlay` and `MatchesAt` model this.

## Model

| member | source | states |
|---|---|---|
| `AttributeDecoder.TwoBytesToInt` | src/main/java/com/didlink/UdpPpClient.java:257-258 | a 16-bit field read from two bytes is below 65536 (the byte order is stated by the two round-trip lemmas) |
| `AttributeDecoder.IntToTwoBytesRoundTrip` | src/main/java/com/didlink/UdpPpClient.java:257-258 | writing a 16-bit value as high byte then low byte and reading the two bytes back gives the value |
| `AttributeDecoder.TwoBytesToIntRoundTrip` | src/main/java/com/didlink/UdpPpClient.java:257-258 | reading two bytes and writing the value back gives the same two bytes, so the first byte read is the high byte |
| `AttributeDecoder.PaddedLength` | src/main/java/com/didlink/UdpPpClient.java:240-243 | the padded length is a multiple of 4, is at least the length, and is less than length + 4 |
| `AttributeDecoder.PaddedLengthExact` | src/main/java/com/didlink/UdpPpClient.java:240-243 | no padding is added exactly when the length is a multiple of 4 |
| `AttributeDecoder.PaddedLengthIdempotent` | src/main/java/com/didlink/UdpPpClient.java:240-243 | padding twice is the same as padding once |
| `AttributeDecoder.PaddedLengthLeast` | src/main/java/com/didlink/UdpPpClient.java:240-243 | the padded length is the least multiple of 4 that is not below the length |
| `AttributeDecoder.Decodable` | src/main/java/com/didlink/UdpPpClient.java:256-266 | the input has the four header bytes and the declared number of value bytes, which are the indices `onResponse` reads and `System.arraycopy` checks |
| `AttributeDecoder.Decoded` | src/main/java/com/didlink/UdpPpClient.java:256-269 | the type comes from bytes 0-1 and the length from bytes 2-3; the value buffer has the padded length (empty for length 0); its first `length` bytes are input bytes 4 .. 4+length; every padding byte is zero |
| `AttributeDecoder.DecodeAttribute` | src/main/java/com/didlink/UdpPpClient.java:256-269 | the cursor-based decoding into a newly allocated, zero-filled array gives exactly the attribute that `Decoded` describes; it needs 4 + length input bytes, the bounds that `System.arraycopy` checks |
| `AttributeDecoder.DecodeEncode` | src/main/java/com/didlink/UdpPpClient.java:256-269 | decoding an attribute written in the RFC 5389 layout gives back its type, its length and its value followed by zero padding |
| `AttributeDecoder.DecodedIgnoresTrailingBytes` | src/main/java/com/didlink/UdpPpClient.java:261-266 | the decoded attribute depends only on the header and the declared value bytes; whatever the input holds at the padding offsets, the padding is zero |
| `ReplyMatching.ReceivedLength` | src/main/java/com/didlink/UdpPpClient.java:162-168 | the received length is at most 1024 bytes and at most the datagram's size, and it is smaller than the datagram only when the datagram was truncated to the buffer |
| `ReplyMatching.Overlay` | src/main/java/com/didlink/UdpPpClient.java:159-165 | after a receive, the buffer holds the received bytes at the front and the earlier buffer contents after them |
| `ReplyMatching.Scan` | src/main/java/com/didlink/UdpPpClient.java:159-181 | the reference definition of the receive loop over the shared buffer: receive into the buffer, test the whole buffer, and stop at the first match with its trimmed bytes; a reply passed on needs a received datagram and is at most 1024 bytes |
| `ReplyMatching.ScanStopsAtFirstMatch` | src/main/java/com/didlink/UdpPpClient.java:161-181 | datagrams that do not match are skipped; the first matching datagram ends the loop, and exactly its received bytes are passed on |
| `ReplyMatching.ScanWithoutMatch` | src/main/java/com/didlink/UdpPpClient.java:161-167 | if no datagram matches, the loop ends only when a receive call throws, and it passes nothing on |
| `ReplyMatching.ScanRepliesIffSomeMatch` | src/main/java/com/didlink/UdpPpClient.java:161-181 | a reply is passed on if and only if some received datagram matches the request's transaction id |
| `ReplyMatching.ReceiveReply` | src/main/java/com/didlink/UdpPpClient.java:159-181 | the loop over the shared zero-initialised 1024-byte buffer gives the outcome `Scan` defines: the trimmed first match, or no reply |
| `Sockets.DatagramSocket.SetSoTimeout` | src/main/java/com/didlink/UdpPpClient.java:133 | the socket's receive timeout becomes the attempt's timeout |
| `RetryScheduler.TryTest` | src/main/java/com/didlink/UdpPpClient.java:26-50 | the first attempt runs 10 ms after the call, with timeout 500 and the caller's socket, server, port, uid, latitude, longitude, locatetime and listener |
| `RetryScheduler.AfterTry` | src/main/java/com/didlink/UdpPpClient.java:211-235 | something is scheduled only after a caught exception with a non-null listener; if the failed timeout is above 3000, only an error notification is scheduled, 10 ms later; otherwise one new attempt is scheduled 2000 ms later, with twice the timeout (Java's 32-bit `int` product, which wraps around) and every other field unchanged |
| `RetryScheduler.FollowUp` | src/main/java/com/didlink/UdpPpClient.java:125-236 | the established notification is submitted exactly when a reply yields an accepted mapped address; a retry or error notification follows exactly a caught failure with a listener; a successful or swallowed reply leaves neither |
| `RetryScheduler.Notify` | src/main/java/com/didlink/UdpPpClient.java:69-86 | a notifier task calls its listener once when the listener is not null, and not at all when it is null |
| `RetryScheduler.Chain` | src/main/java/com/didlink/UdpPpClient.java:211-235 | the trace of a probing sequence: each attempt runs, and then comes what it leaves scheduled, either the next attempt or one notifier task (lines 69-86); the trace is empty exactly when no attempt has run, and it starts with the first attempt and its delay |
| `RetryScheduler.Attempts` | src/main/java/com/didlink/UdpPpClient.java:211-235 | when every attempt fails, the timeouts start at the initial one and each doubles the previous; every timeout but the last is at most 3000, and the last is above 3000 |
| `RetryScheduler.DefaultAttempts` | src/main/java/com/didlink/UdpPpClient.java:26-45 | starting from the default timeout, the attempt timeouts are 500, 1000, 2000 and 4000 |
| `RetryScheduler.AttemptsDouble` | src/main/java/com/didlink/UdpPpClient.java:229 | the i-th attempt's timeout is the starting timeout times 2^i |
| `RetryScheduler.AttemptsBound` | src/main/java/com/didlink/UdpPpClient.java:212-229 | once timeout * 2^k is above 3000, at most k + 1 attempts run |
| `RetryScheduler.AttemptsAtMostThirteen` | src/main/java/com/didlink/UdpPpClient.java:212-229 | any positive starting timeout gives up after at most 13 attempts |
| `RetryScheduler.ChainFollowsAttempts` | src/main/java/com/didlink/UdpPpClient.java:211-235 | for a positive starting timeout and any attempt results, the attempt timeouts of the sequence are a prefix of those of an all-failing sequence, so it makes at most as many attempts as `Attempts` lists |
| `RetryScheduler.AtMostOneCallback` | src/main/java/com/didlink/UdpPpClient.java:211-235 | a sequence makes at most one listener callback, and nothing follows it; `established` and `onError` exclude each other |
| `RetryScheduler.ChainGivesUp` | src/main/java/com/didlink/UdpPpClient.java:211-217 | with a listener, if every attempt fails, the attempts run with the timeouts of `Attempts` (the first after the start delay, the rest 2000 ms apart) and then `onError` is called exactly once |
| `RetryScheduler.ChainStopsAtReply` | src/main/java/com/didlink/UdpPpClient.java:254-290 | if the first k attempts fail and attempt k does not, the sequence stops after attempt k; it calls `established` with the mapped address, the mapped port and the socket's local port exactly when the reply yielded an accepted address, and it calls nothing otherwise |
| `RetryScheduler.DefaultProbeGivesUp` | src/main/java/com/didlink/UdpPpClient.java:28-50 | from `tryTest`, if every attempt fails, the attempts run with 500, 1000, 2000 and 4000 ms, followed by one `onError` and no `established` |
| `RetryScheduler.NullListenerSingleAttempt` | src/main/java/com/didlink/UdpPpClient.java:211 | with a null listener, one attempt runs, and it is followed by no retry and no callback |
| `RetryScheduler.ZeroTimeoutNeverGivesUp` | src/main/java/com/didlink/UdpPpClient.java:211-235 | with timeout 0 (wait forever), every failure is retried, so the number of attempts has no bound |
| `RetryScheduler.DoubleInt32` | src/main/java/com/didlink/UdpPpClient.java:229 | `this.timeout * 2` on a Java `int`: for a 32-bit timeout, the 32-bit value that differs from twice the timeout by 0 or by 2^32 either way, so it wraps around; it is the plain product whenever that fits |
| `RetryScheduler.MinTimeoutNeverGivesUp` | src/main/java/com/didlink/UdpPpClient.java:211-235 | a failing attempt with timeout `Integer.MIN_VALUE` is retried with timeout 0, because the doubling wraps around, and after that every failure is retried with timeout 0 and `onError` never comes |
| `ProbeAttempt.ValidAddressLength` | src/main/java/com/didlink/UdpPpClient.java:276 | `InetAddress.getByAddress` accepts a 4-byte (IPv4) or 16-byte (IPv6) address |
| `ProbeAttempt.ValidPort` | src/main/java/com/didlink/UdpPpClient.java:156 | `InetSocketAddress` accepts ports 0 to 65535 |
| `ProbeAttempt.ResponseResult` | src/main/java/com/didlink/UdpPpClient.java:254-290 | `onResponse` never produces a failure that is retried. It reports the endpoint exactly for a decodable attribute that the factory maps to a 4- or 16-byte address, with that address and port. An unchecked exception escapes exactly when the attribute is not decodable or is not a mapped-address attribute. Otherwise the reply is swallowed |
| `ProbeAttempt.AttemptOf` | src/main/java/com/didlink/UdpPpClient.java:129-209 | the reference definition of one attempt's try/catch. A closed socket makes `setSoTimeout` throw a caught `SocketException` first, whatever the timeout. On an open socket, these unchecked exceptions escape: a negative timeout, a port out of range, an escaping send. A caught failure comes only from `setSoTimeout`, from the send step, or from the receive call that ends the loop |
| `ProbeAttempt.AttemptFailsIffNoMatch` | src/main/java/com/didlink/UdpPpClient.java:125-209 | `isError` is set, so an attempt fails, exactly when `setSoTimeout` throws a `SocketException` on a closed socket, whatever the timeout, or when the timeout is not negative, the port is valid, and sending throws a caught exception or no received datagram matches the transaction id |
| `ProbeAttempt.DefaultProbeEstablishes` | src/main/java/com/didlink/UdpPpClient.java:28-50 | from `tryTest`, when the first datagram of the first attempt matches and decodes to an IPv4 mapped address, the sequence is that attempt (10 ms, 500 ms) followed by one `established` with the address, the port and the socket's local port |
| `ProbeAttempt.MatchedReplyIsDispatched` | src/main/java/com/didlink/UdpPpClient.java:161-181 | the first matching datagram, trimmed to its received length, is the message handed to the agent, whatever came before it |
| `ProbeAttempt.OnResponse` | src/main/java/com/didlink/UdpPpClient.java:254-290 | the handler submits the established notification, with the socket's local port, exactly when the address is accepted, and otherwise it submits nothing |
| `ProbeAttempt.Run` | src/main/java/com/didlink/UdpPpClient.java:125-238 | one attempt sets the socket timeout unless `setSoTimeout` throws, on a closed socket or for a negative timeout, in that order of checks; its result is the one `AttemptOf` gives, and it leaves scheduled exactly what `FollowUp` says for that result |

## Left out

- Socket I/O (`send`, `receive`, `InetSocketAddress` resolution) is replaced by an `AttemptEnv` value per attempt. It gives whether `setSoTimeout` throws, how the send step ends, the datagrams received, and the exception that the receive call after the last of them throws. A host name that does not resolve is represented only through that send outcome, which may be caught (`UnknownHostException`) or escape (`IllegalArgumentException`).
- One attempt need not end: `SO_TIMEOUT` bounds each `receive` separately, so a steady stream of non-matching datagrams keeps the receive loop running forever. The model's finite datagram sequence cannot express this, so `ChainFollowsAttempts` bounds the number of attempts, not the time a sequence takes.
- Threads and executors (`newScheduledThreadPool`, `newFixedThreadPool`, `shutdown`) are not modelled. A scheduled task is a `Scheduled` value holding its delay, and a sequence is the `Chain` trace. Ordering between concurrent sequences is not modelled.
- The external STUN library is not part of this model: `Message` building, transaction-id generation and `equalTransactionID`, `Agent.onMessage`, `RFC5389AttributeFactory`, `MappedAddressAttribute`, `LocationAttribute` and `Bytes`. The transaction-id comparison (`matches`), the agent's dispatch (`dispatch`) and the factory (`factory`) are parameters. `Bytes.twoBytesToInt` is assumed to read two bytes as an unsigned big-endian number.
- The request payload (uid, the `double` latitude and longitude, locatetime) is carried without being interpreted. The coordinates are kept as opaque bit patterns.
- `InetAddress.getByAddress` is reduced to its length check: it accepts 4- or 16-byte addresses. `getHostAddress` (the text form) is not modelled; `established` carries the raw address bytes.
- Logging (`System.out.println`, `printStackTrace`) is not modelled.
- Unchecked exceptions end `run()` with no retry and no callback. `DecodeAttribute` and `OnResponse` require their absence: enough input bytes, and a factory result that is a mapped-address attribute. `Run` receives arbitrary network input, so it reports them as the result `Escaped`. It does the same for the `IllegalArgumentException` that `setSoTimeout` throws for a negative timeout on an open socket, for the one `InetSocketAddress` throws for a port out of range, and for a send step that escapes.
- Java `int` overflow: the doubled timeout wraps around to 32 bits (`DoubleInt32`). This matters only for a negative timeout on a closed socket, where the caught `SocketException` retries the attempt with the timeout doubled again and again until it wraps. Decoded lengths are below 65536 and cannot overflow. The other integers are left unbounded. A timeout given to a `DatagramClient` is not checked to lie in the 32-bit range, because every client the model builds starts from 500.
