/** Results of the storage node's operations. Every `IOException` the
    source throws becomes one `Error` value; which message text it carried
    is not modelled. */
module Outcomes {

  /** The distinct reasons for which an operation of the node throws. */
  datatype Error =
    | UnknownUri       // the URI does not start with "cog://"
    | UnknownHost      // getaddrinfo failed
    | NoSocket         // socket() failed
    | ConnectFailed    // connect() failed
    | NotConnected     // do_send / do_recv called while disconnected
    | SendFailed       // send() returned a negative count
    | RecvFailed       // recv() returned a negative count
    | PeerClosed       // recv() returned 0: the server closed the connection

  /** Result of a step that cannot block. */
  datatype Result<T> = Ok(value: T) | Err(error: Error)

  /** Result of a step that may wait on the socket. `Blocked` means the
      modelled input ran out while the call was still waiting in recv():
      the real call would go on blocking. */
  datatype Outcome<T> = Done(value: T) | Raised(error: Error) | Blocked

  datatype Option<T> = None | Some(value: T)
}
