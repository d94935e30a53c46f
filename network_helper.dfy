/** Socket error classification of the server core. */
module NetworkHelper {

  /** `System.Net.Sockets.SocketError`, by its numeric value. */
  type SocketError = int

  const Success: SocketError := 0
  const IOPending: SocketError := 997
  const WouldBlock: SocketError := 10035

  /** The error codes that mean "no failure" or "try again later". */
  const NonFatal: set<SocketError> := {Success, WouldBlock, IOPending}

  /** Whether a socket error ends the connection. */
  function IsFatalError(error: SocketError): (fatal: bool)
    ensures fatal <==> error !in NonFatal
    ensures error == Success || error == WouldBlock || error == IOPending ==> !fatal
  {
    error != Success && error != WouldBlock && error != IOPending
  }
}
