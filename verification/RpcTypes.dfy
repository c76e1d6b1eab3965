/** Enumerations shared by the RPC modules. */
module RpcTypes {

  datatype MsgStatus = NoBind | Ok | Fail | Timeout | UnpackError | SendError | WaitError

  /** How a request is issued; a reply repeats it. */
  datatype RpcModel = Future | Callback
}
