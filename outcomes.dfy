/** The exceptions of the client, as values, and the Option / Result wrappers
    that carry them. */
module Outcomes {
  import opened Constants

  datatype Option<T> = None | Some(value: T)

  datatype MqttError =
    /** `ArgumentException`: a local misuse, detected before anything is written. */
    | ArgumentError
    /** `MqttProtocolException`: bytes or a packet the protocol does not allow. */
    | ProtocolError
    /** `MqttClientException`: the client was used while the transport is closed. */
    | ClientError
    /** `MqttConnectException`: the broker refused the connection with this code. */
    | ConnectError(code: ConnackReturnCode)
    /** `MqttTimeoutException`: nothing was read for too long. */
    | TimeoutError
    /** An exception raised by an application event handler, passed on unchanged. */
    | HandlerError
    /** `NullReferenceException`. */
    | NullReference
    /** A field runs past the end of the packet's remaining bytes. */
    | MalformedPacket

  datatype Result<T> = Ok(value: T) | Err(error: MqttError) {
    predicate IsFailure() {
      Err?
    }

    function PropagateFailure<U>(): Result<U>
      requires Err?
    {
      Err(error)
    }

    function Extract(): T
      requires Ok?
    {
      value
    }
  }
}
