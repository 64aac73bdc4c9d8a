/** The broker's entry points: a liveness probe, and the submission handler that routes an
    envelope to one of three translators, each making at most one downstream post. */
module Handlers {
  import opened Payloads
  import opened Replies
  import opened Downstream

  /** A handled request: the reply written to the caller and the posts handed to the HTTP
      client, one per client call attempted. */
  datatype Handled = Handled(reply: Reply, calls: seq<Post>)

  /** The liveness probe. */
  function Broker(): (r: Reply)
    ensures r.WriteJson? && r.status == StatusOK
    ensures r.payload == JsonResponse(false, "Hit the broker", Null)
  {
    WriteJson(StatusOK, JsonResponse(false, "Hit the broker", Null))
  }

  /** The posts handed to the HTTP client for `call`: none when the request could not be
      built, and otherwise exactly one client call, whatever came back — there is no retry. */
  function Attempted(call: Post, o: Outcome): (calls: seq<Post>)
    ensures |calls| <= 1
    ensures calls == [] <==> o.RequestFailed?
    ensures forall c | c in calls :: c == call
  {
    if o.RequestFailed? then [] else [call]
  }

  /** The catalog translator: forwards the item, and on 202 relays the service's decoded
      envelope unchanged. */
  function AddItem(entry: InventoryPayload, o: Outcome): (h: Handled)
    ensures h.calls == Attempted(Post(InventoryUrl, JsonContentType, InventoryBody(entry)), o)
    ensures Accepted(h.reply) <==> AcceptedBy(o) && o.body.Decoded?
    ensures Accepted(h.reply) ==> h.reply.payload == o.body.envelope
    ensures !Accepted(h.reply) ==> DefaultError(h.reply)
    ensures o.Responded? && o.statusCode != StatusAccepted ==>
              h.reply.fault == New("error calling inventory service")
    ensures o.RequestFailed? || o.TransportFailed? ==> h.reply.fault == Relayed(o.err)
    ensures AcceptedBy(o) && o.body.Undecodable? ==> h.reply.fault == Relayed(o.body.err)
  {
    var calls := Attempted(Post(InventoryUrl, JsonContentType, InventoryBody(entry)), o);
    match o
    case RequestFailed(err) => Handled(ErrorJson(Relayed(err), DefaultErrStatus), calls)
    case TransportFailed(err) => Handled(ErrorJson(Relayed(err), DefaultErrStatus), calls)
    case Responded(code, body) =>
      if code != StatusAccepted then
        Handled(ErrorJson(New("error calling inventory service"), DefaultErrStatus), calls)
      else
        match body
        case Undecodable(err) => Handled(ErrorJson(Relayed(err), DefaultErrStatus), calls)
        case Decoded(envelope) => Handled(WriteJson(StatusAccepted, envelope), calls)
  }

  /** The order translator: forwards the order, and on 202 answers with a fixed success
      envelope without reading the service's body. */
  function AddOrder(order: OrderPayload, o: Outcome): (h: Handled)
    ensures h.calls == Attempted(Post(OrderUrl, JsonContentType, OrderBody(order)), o)
    ensures Accepted(h.reply) <==> AcceptedBy(o)
    ensures Accepted(h.reply) ==> h.reply.payload == JsonResponse(false, "Order added!", Null)
    ensures !Accepted(h.reply) ==> DefaultError(h.reply)
    ensures o.Responded? && o.statusCode != StatusAccepted ==>
              h.reply.fault == New("error calling order service")
    ensures o.RequestFailed? || o.TransportFailed? ==> h.reply.fault == Relayed(o.err)
  {
    var calls := Attempted(Post(OrderUrl, JsonContentType, OrderBody(order)), o);
    match o
    case RequestFailed(err) => Handled(ErrorJson(Relayed(err), DefaultErrStatus), calls)
    case TransportFailed(err) => Handled(ErrorJson(Relayed(err), DefaultErrStatus), calls)
    case Responded(code, _) =>
      if code != StatusAccepted then
        Handled(ErrorJson(New("error calling order service"), DefaultErrStatus), calls)
      else
        Handled(WriteJson(StatusAccepted, JsonResponse(false, "Order added!", Null)), calls)
  }

  /** The auth translator: forwards the credentials, without a Content-Type header, then judges 401 before any other
      non-202 status, and a 202 whose envelope carries the error flag as a rejection. */
  function Authenticate(auth: AuthPayload, o: Outcome): (h: Handled)
    ensures h.calls == Attempted(Post(AuthUrl, "", AuthBody(auth)), o)
    ensures Accepted(h.reply) <==> AcceptedBy(o) && o.body.Decoded? && !o.body.envelope.error
    ensures Accepted(h.reply) ==>
              h.reply.payload == JsonResponse(false, "Authenticated!", o.body.envelope.data)
    ensures (h.reply.ErrorJson? && h.reply.errStatus.Explicit?) <==>
              AcceptedBy(o) && o.body.Decoded? && o.body.envelope.error
    ensures h.reply.ErrorJson? && h.reply.errStatus.Explicit? ==>
              h.reply == ErrorJson(Nil, Explicit(StatusUnauthorized))
    ensures o.Responded? && o.statusCode == StatusUnauthorized ==>
              h.reply == ErrorJson(New("invalid credentials"), DefaultErrStatus)
    ensures o.Responded? && o.statusCode != StatusUnauthorized && o.statusCode != StatusAccepted ==>
              h.reply == ErrorJson(New("error calling auth service"), DefaultErrStatus)
    ensures o.RequestFailed? || o.TransportFailed? ==>
              h.reply == ErrorJson(Relayed(o.err), DefaultErrStatus)
    ensures AcceptedBy(o) && o.body.Undecodable? ==>
              h.reply == ErrorJson(Relayed(o.body.err), DefaultErrStatus)
  {
    var calls := Attempted(Post(AuthUrl, "", AuthBody(auth)), o);
    match o
    case RequestFailed(err) => Handled(ErrorJson(Relayed(err), DefaultErrStatus), calls)
    case TransportFailed(err) => Handled(ErrorJson(Relayed(err), DefaultErrStatus), calls)
    case Responded(code, body) =>
      if code == StatusUnauthorized then
        Handled(ErrorJson(New("invalid credentials"), DefaultErrStatus), calls)
      else if code != StatusAccepted then
        Handled(ErrorJson(New("error calling auth service"), DefaultErrStatus), calls)
      else
        match body
        case Undecodable(err) => Handled(ErrorJson(Relayed(err), DefaultErrStatus), calls)
        case Decoded(envelope) =>
          if envelope.error then
            // the error value in scope here is the nil result of the successful decode
            Handled(ErrorJson(Nil, Explicit(StatusUnauthorized)), calls)
          else
            Handled(WriteJson(StatusAccepted, JsonResponse(false, "Authenticated!", envelope.data)), calls)
  }

  /** The action tags the dispatcher routes; every other tag is unknown. */
  predicate Routed(action: string) {
    action == "auth" || action == "inventory" || action == "order"
  }

  /** The document a routed envelope has forwarded: the sub-payload its tag names. */
  function Selected(p: RequestPayload): Body
    requires Routed(p.action)
  {
    if p.action == "auth" then AuthBody(p.auth)
    else if p.action == "inventory" then InventoryBody(p.inventory)
    else OrderBody(p.order)
  }

  /** The submission handler: read the envelope, then switch on its action tag. */
  function HandleSubmission(read: ReadResult, o: Outcome): (h: Handled)
    ensures |h.calls| <= 1
    ensures forall c | c in h.calls ::
              c.url == Address(c.body) && (c.contentType == JsonContentType <==> !c.body.AuthBody?)
    ensures read.ReadFailed? ==> h == Handled(ErrorJson(Relayed(read.err), DefaultErrStatus), [])
    ensures read.Read? && !Routed(read.payload.action) ==>
              h == Handled(ErrorJson(New("unknown action"), DefaultErrStatus), [])
    ensures h.calls != [] <==> read.Read? && Routed(read.payload.action) && !o.RequestFailed?
    ensures h.calls != [] ==> h.calls[0].body == Selected(read.payload)
    ensures Accepted(h.reply) || h.reply.ErrorJson?
    ensures h.reply.ErrorJson? && h.reply.errStatus.Explicit? ==>
              h.reply.errStatus.code == StatusUnauthorized && read.Read? && read.payload.action == "auth"
  {
    match read
    case ReadFailed(err) => Handled(ErrorJson(Relayed(err), DefaultErrStatus), [])
    case Read(p) =>
      if p.action == "auth" then Authenticate(p.auth, o)
      else if p.action == "inventory" then AddItem(p.inventory, o)
      else if p.action == "order" then AddOrder(p.order, o)
      else Handled(ErrorJson(New("unknown action"), DefaultErrStatus), [])
  }
}
