/**
  The JSON-RPC 2.0 values the transport builds and sends: the method call
  object and the single-or-batch request payload. These mirror the types of
  the `jsonrpc_types` crate that the transport uses; their JSON serialisation
  is not part of this model.
*/
module JsonRpc {
  import opened Wrappers

  /** One more than the largest `u64`. */
  const U64_MODULUS: int := 0x1_0000_0000_0000_0000

  type u64 = x: int | 0 <= x < U64_MODULUS

  /** The protocol version tag; the transport only ever writes "2.0". */
  datatype Version = V2_0

  /** A request identifier: a number or a string. */
  datatype Id = Num(n: u64) | Str(s: string)

  /** A JSON value (numbers kept as integers). */
  datatype Value =
    | Null
    | Bool(b: bool)
    | Number(n: int)
    | String(s: string)
    | Array(items: seq<Value>)
    | Object(members: map<string, Value>)

  /** Call parameters: by position or by name. */
  datatype Params = Array(values: seq<Value>) | Map(members: map<string, Value>)

  /** A method call: `params` absent is distinct from `params` present and empty. */
  datatype MethodCall = MethodCall(jsonrpc: Version, methodName: string, params: Option<Params>, id: Id)

  /** What goes on the wire: one call object, or an array of them in order. */
  datatype MethodCallRequest = Single(call: MethodCall) | Batch(calls: seq<MethodCall>)

  /** The calls a request carries, in the order they are sent. */
  function Calls(request: MethodCallRequest): seq<MethodCall>
  {
    match request
    case Single(call) => [call]
    case Batch(calls) => calls
  }
}
