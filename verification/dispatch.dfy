/** Properties of the dispatcher and translators that relate several calls. */
module Dispatch {
  import opened Payloads
  import opened Replies
  import opened Downstream
  import opened Handlers

  /** Each routed tag selects its own translator and hands it its own sub-payload; every
      other tag, "product" among them, is an unknown action. */
  lemma RoutesByTag(p: RequestPayload, o: Outcome)
    ensures p.action == "auth" ==> HandleSubmission(Read(p), o) == Authenticate(p.auth, o)
    ensures p.action == "inventory" ==> HandleSubmission(Read(p), o) == AddItem(p.inventory, o)
    ensures p.action == "order" ==> HandleSubmission(Read(p), o) == AddOrder(p.order, o)
    ensures !Routed(p.action) ==> HandleSubmission(Read(p), o).reply == ErrorJson(New("unknown action"), DefaultErrStatus)
    ensures p.action == "product" ==> HandleSubmission(Read(p), o).calls == []
  {
  }

  /** Only the sub-payload the tag names influences the outcome: two envelopes with the same
      tag and the same selected sub-payload are handled alike, whatever else they carry. */
  lemma OtherSubPayloadsIgnored(p: RequestPayload, q: RequestPayload, o: Outcome)
    requires p.action == q.action
    requires Routed(p.action) ==> Selected(p) == Selected(q)
    ensures HandleSubmission(Read(p), o) == HandleSubmission(Read(q), o)
  {
  }

  /** A malformed envelope or an unknown tag is answered without looking at the downstream
      at all: the reply is the same whatever the outcome would have been. */
  lemma UndispatchedIgnoresOutcome(read: ReadResult, o1: Outcome, o2: Outcome)
    requires read.ReadFailed? || !Routed(read.payload.action)
    ensures HandleSubmission(read, o1) == HandleSubmission(read, o2)
    ensures HandleSubmission(read, o1).calls == []
  {
  }

  /** The order translator never reads the order service's body. */
  lemma AddOrderIgnoresBody(order: OrderPayload, code: int, b1: Decoded, b2: Decoded)
    ensures AddOrder(order, Responded(code, b1)) == AddOrder(order, Responded(code, b2))
  {
  }

  /** The inventory translator relays the service's envelope as it is: a 202 whose envelope
      carries the error flag reaches the caller as a 202 reply with the error flag set. */
  lemma AddItemRelaysErrorFlag(entry: InventoryPayload, envelope: JsonResponse)
    requires envelope.error
    ensures var r := AddItem(entry, Responded(StatusAccepted, Decoded(envelope))).reply;
      Accepted(r) && r.payload.error && r.payload == envelope
  {
  }

  /** A 202 that carries the error flag is the only way to an explicit status, and the
      status is then 401; every other failure uses the error helper's default. */
  lemma ExplicitStatusOnlyFromAuthErrorFlag(read: ReadResult, o: Outcome)
    ensures var r := HandleSubmission(read, o).reply;
      r.ErrorJson? && r.errStatus == Explicit(StatusUnauthorized) <==>
        read.Read? && read.payload.action == "auth" && AcceptedBy(o) &&
        o.body.Decoded? && o.body.envelope.error
  {
  }

  /** An order with one line item, accepted by the order service. */
  lemma OrderScenario(o: Outcome)
    requires o.Responded? && o.statusCode == StatusAccepted
    ensures var order := OrderPayload(1, "", "", 0, [OrderItemPayload("sku1", "", 0, 2)]);
      var p := RequestPayload("order", AuthPayload("", ""), InventoryPayload("", "", 0, 0, ""), order);
      HandleSubmission(Read(p), o) ==
        Handled(WriteJson(StatusAccepted, JsonResponse(false, "Order added!", Null)),
                [Post(OrderUrl, JsonContentType, OrderBody(order))])
  {
  }
}
