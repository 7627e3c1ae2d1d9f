/**
  Who receives an outbound message (server.js, lines 36, 60, 66, 73 and 79).

  socket.io offers three ways to send that the server uses: `socket.emit`
  (only the requesting connection), `socket.broadcast.emit` (every connection
  but the sender) and `io.emit` (every connection). Delivery itself is left
  to the transport and is not modelled; a connection is only its identifier.
 */
module Routing {

  /** A socket id. */
  type ConnId = string

  datatype Audience =
    | ToRequester(requester: ConnId)  // socket.emit
    | AllExcept(sender: ConnId)       // socket.broadcast.emit
    | Everyone                        // io.emit

  /** The live connections that a message addressed to `audience` reaches. */
  function Recipients(conns: set<ConnId>, audience: Audience): (r: set<ConnId>)
    ensures r <= conns
  {
    match audience
    case ToRequester(c) => conns * {c}
    case AllExcept(c) => conns - {c}
    case Everyone => conns
  }

  /** A broadcast to everyone reaches every live connection; a broadcast to
      the others never reaches the sender, and together with the sender's own
      copy it reaches exactly what a broadcast to everyone reaches, so it
      reaches every other live connection. */
  lemma BroadcastSplitsAtSender(conns: set<ConnId>, sender: ConnId)
    requires sender in conns
    ensures Recipients(conns, Everyone) == conns
    ensures sender !in Recipients(conns, AllExcept(sender))
    ensures Recipients(conns, ToRequester(sender)) == {sender}
    ensures Recipients(conns, AllExcept(sender)) + Recipients(conns, ToRequester(sender))
         == Recipients(conns, Everyone)
  {
  }
}
