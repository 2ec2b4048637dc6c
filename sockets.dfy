/**
 * The part of java.net.DatagramSocket the probe touches: its receive
 * timeout, which every attempt sets, and its bound local port, which the
 * established notification reports.  Sending and receiving are modelled
 * by the attempt's environment (see ProbeAttempt).
 */
module Sockets {

  /** The checked exceptions that DatagramClient.run catches; each sets isError. */
  datatype FailureKind =
    | UnknownHost      // UnknownHostException
    | PortUnreachable  // PortUnreachableException
    | SocketTimeout    // SocketTimeoutException
    | SocketFailure    // any other SocketException
    | IoFailure        // any other IOException

  class DatagramSocket {
    /** SO_TIMEOUT in milliseconds; 0 means wait forever. */
    var soTimeout: int
    const localPort: int

    constructor (localPort: int)
      ensures this.localPort == localPort && soTimeout == 0
    {
      this.localPort := localPort;
      soTimeout := 0;
    }

    /** setSoTimeout for a timeout it accepts (a negative one throws). */
    method SetSoTimeout(timeout: int)
      requires timeout >= 0
      modifies this
      ensures soTimeout == timeout
    {
      soTimeout := timeout;
    }
  }
}
