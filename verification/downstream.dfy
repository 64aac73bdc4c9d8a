/** The backend services the broker posts to, and what a post can come back with. */
module Downstream {
  import opened Payloads
  import opened Replies

  const AuthUrl := "http://authentication-service/authenticate"
  const InventoryUrl := "http://inventory-service/inventory"
  const OrderUrl := "http://order-service/order"

  /** The JSON document a post carries: one sub-payload, marshalled field for field. */
  datatype Body = AuthBody(auth: AuthPayload) | InventoryBody(inventory: InventoryPayload) | OrderBody(order: OrderPayload)

  /** The Content-Type header value of a JSON request; "" stands for no header set. */
  const JsonContentType := "application/json"

  /** One POST the broker hands to the HTTP client: its URL, its Content-Type header
      ("" when none is set) and the document it carries. */
  datatype Post = Post(url: string, contentType: string, body: Body)

  /** Where each kind of document is meant to go. */
  function Address(b: Body): string {
    match b
    case AuthBody(_) => AuthUrl
    case InventoryBody(_) => InventoryUrl
    case OrderBody(_) => OrderUrl
  }

  /** Decoding a downstream reply body into a response envelope. */
  datatype Decoded = Decoded(envelope: JsonResponse) | Undecodable(err: string)

  /** How building the one post and the one client call end: the request could not be built
      (the client is never called), the client call returned an error (whether or not
      anything reached the wire), or the service answered with a status and a body. */
  datatype Outcome =
    | RequestFailed(err: string)
    | TransportFailed(err: string)
    | Responded(statusCode: int, body: Decoded)

  /** The service answered 202 Accepted. */
  predicate AcceptedBy(o: Outcome) {
    o.Responded? && o.statusCode == StatusAccepted
  }
}
