# Broker dispatch-and-translate layer

A model of the request broker of the go-warehouse system: the single entry point that
reads a tagged envelope (`action` plus one sub-payload per action kind), routes it to the
auth, inventory or order translator, lets that translator make one POST to its backend
service, and maps what comes back to the reply written to the caller.

The model is functional. Reading the inbound JSON body and the downstream exchange are
abstract inputs, not I/O:

- `ReadResult` is what the JSON reader gave: an error, or a decoded `RequestPayload`.
- `Outcome` is how building the single POST and the one `client.Do` call ended:
  - the request could not be built, and the client was never called;
  - the client call returned an error (no connection, a transport failure, or anything
    else the client reports);
  - the service answered with a status code and a body, which either decoded into a
    response envelope or did not.
- A handled request is a `Handled(reply, calls)` value. `reply` is what the caller gets.
  `calls` lists the POSTs handed to the HTTP client, one per `client.Do` call attempted,
  each with its URL, its Content-Type header and the document it carried.

The helpers that write JSON replies are outside the model. So a reply records their
arguments, not rendered bytes:

- `WriteJson(status, envelope)` is a reply written with an explicit status.
- `ErrorJson(fault, status)` is a reply written by the error helper. The fault is the Go
  error value passed to it. The status is either the helper's own default
  (`DefaultErrStatus`, whose number is unknown) or an explicit one.

`DefaultErrStatus` is a constructor, so it differs from the explicit 401 by construction.

Modules: `Payloads` (the envelope types), `Replies` (response envelope, reply, status
codes), `Downstream` (service URLs, posts, outcomes), `Handlers` (the liveness probe,
the submission handler and the three translators), `Dispatch` (properties that relate
several calls), `Serving` (a run of independent submissions and its downstream log).

Behaviour of `broker-service/cmd/api/handlers.go` worth knowing:

- Only "auth", "inventory" and "order" are routed (handlers.go:63-72). "product" is an
  unknown action, like any other tag.
- A downstream 401 on the auth path is reported with the error helper's default status,
  not with 401 (handlers.go:171-172). An explicit 401 is used only when a 202 reply
  carries the error flag (handlers.go:189-190).
- Upstream failures, unknown tags and malformed envelopes all use the same default error
  status (handlers.go:59, 71, 98, 138, 175). The reply status does not tell client errors
  from upstream ones.
- When a 202 auth reply carries the error flag, the error value handed to the error
  helper is the nil result of the successful decode (handlers.go:183-190). It is not an
  "invalid credentials" error.
- An inventory 202 does not guarantee a reply with the error flag clear. The service's
  envelope is relayed as it is (handlers.go:112), so an error flag in it reaches the
  caller inside a 202 reply (`Dispatch.AddItemRelaysErrorFlag`). A 202 whose body does not
  decode gives an error reply (handlers.go:106-110).
- `ClientID` is an `int32` (handlers.go:38). An order whose `client_id` is a string such
  as "c1" fails to decode and takes the read-error path (handlers.go:57-61).
  `Dispatch.OrderScenario` therefore uses a numeric client id.
- The inventory and order requests set `Content-Type: application/json`
  (handlers.go:86, 126). The auth request sets no Content-Type (handlers.go:156-163).

## Model

| member | source | states |
|---|---|---|
| `Handlers.Broker` | broker-service/cmd/api/handlers.go:45-52 | The liveness probe answers 200 OK with the error flag clear, the message "Hit the broker" and no data. |
| `Handlers.Attempted` | broker-service/cmd/api/handlers.go:80-93 | A translator never calls the HTTP client when the request cannot be built. Otherwise it makes exactly one `client.Do` call with its POST, whatever comes back. There is no retry. |
| `Handlers.AddItem` | broker-service/cmd/api/handlers.go:75-113 | The item goes unchanged to the inventory URL with the JSON content type, in at most one client call. The reply is 202 exactly when the service answered 202 with a decodable body. That body is then relayed unchanged. Any other status gives "error calling inventory service". Transport and decode errors are relayed. Every failure uses the default error status. |
| `Handlers.AddOrder` | broker-service/cmd/api/handlers.go:115-149 | The order, line items included, goes unchanged to the order URL with the JSON content type. The reply is 202 exactly when the service answered 202. It is then always "Order added!" with the error flag clear. Any other status gives "error calling order service", with the default error status. |
| `Handlers.Authenticate` | broker-service/cmd/api/handlers.go:151-200 | The credentials go unchanged to the auth URL, with no Content-Type header. A 401 gives "invalid credentials", checked before any other non-202 status, which gives "error calling auth service". Both use the default status. A 202 whose envelope has the error flag gives the only explicit status, 401. Success happens exactly on 202 with a decoded, error-free envelope. It answers "Authenticated!" with the service's data. |
| `Handlers.HandleSubmission` | broker-service/cmd/api/handlers.go:54-73 | A malformed envelope or an unknown tag gets an error and no POST. A POST happens exactly when the tag is routed and the request can be built. It carries the sub-payload the tag names, to that sub-payload's own URL, with the JSON content type exactly when it is not the credentials. There is at most one POST. Every reply is either 202 or an error. An explicit error status is 401 and only on the auth path. |
| `Dispatch.RoutesByTag` | broker-service/cmd/api/handlers.go:63-72 | "auth", "inventory" and "order" each run their own translator on their own sub-payload. Any other tag, "product" included, is "unknown action" with no POST. |
| `Dispatch.OtherSubPayloadsIgnored` | broker-service/cmd/api/handlers.go:64-69 | Two envelopes with the same tag and the same selected sub-payload are handled identically, whatever their other sub-payloads hold. |
| `Dispatch.UndispatchedIgnoresOutcome` | broker-service/cmd/api/handlers.go:57-72 | Malformed envelopes and unknown tags are answered the same whatever the downstream would have done, and with no POST. |
| `Dispatch.AddItemRelaysErrorFlag` | broker-service/cmd/api/handlers.go:102-112 | An inventory 202 whose envelope carries the error flag reaches the caller as a 202 reply carrying that same envelope, error flag set. |
| `Dispatch.AddOrderIgnoresBody` | broker-service/cmd/api/handlers.go:142-148 | The order translator's result does not depend on the order service's reply body. |
| `Dispatch.ExplicitStatusOnlyFromAuthErrorFlag` | broker-service/cmd/api/handlers.go:189-192 | A reply has the explicit 401 status if and only if it is an auth submission whose 202 reply decoded with the error flag set. |
| `Dispatch.OrderScenario` | broker-service/cmd/api/handlers.go:115-148 | An order envelope with one line item, accepted by the order service, gets 202 "Order added!". It makes exactly one POST of that order. |
| `Serving.Log` | broker-service/cmd/api/handlers.go:54-73 | A run of submissions makes at most one client call per submission. Every POST goes to the URL its document kind belongs to. |
| `Serving.LogIsForwardedSubmissions` | broker-service/cmd/api/handlers.go:63-69 | The log of a run equals a separately defined reference. It holds the selected sub-payload of each routed, buildable submission, once and in arrival order, each to its own URL with its own Content-Type. It holds nothing else. |
| `Serving.LogCountsReachingSubmissions` | broker-service/cmd/api/handlers.go:54-73 | A run makes exactly one client call per submission with a routed tag and a buildable request, and none for the others. |
| `Serving.RepeatedSubmissionPostsEachTime` | broker-service/cmd/api/handlers.go:54-73 | Submissions are not deduplicated. The same routed, buildable envelope sent n times gives n identical client calls, each with the post that envelope's sub-payload is meant to travel in. |

## Left out

- The JSON helpers that read the request and write replies (`readJSON`, `writeJSON`, `errorJSON`) are not part of this model. Their outcome is an input, and a reply records their arguments. The numeric value of the default error status is therefore unknown.
- `Handlers.Authenticate`: the reply for a 202 with the error flag carries the nil error value, as the code passes it. What the error helper does with a nil error (most likely a nil dereference) is not modelled, because that helper is not part of this model.
- The HTTP transport (`http.NewRequest`, `client.Do`, closing the body) is reduced to the `Outcome` input. The fresh client per call and the default transport timeout are not modelled. A `client.Do` error may mean nothing reached the wire. The model still counts it as one attempted call.
- Redirect-following is not modelled. On a 307 or 308 the default client sends the POST again, possibly to another URL, so one `client.Do` call can put several requests on the wire.
- Request headers other than Content-Type are not modelled.
- JSON marshalling of the forwarded sub-payload is treated as field-for-field. The indentation and the wire bytes are not modelled, and neither is any decode/encode round trip of the envelope.
- `float32` prices are opaque 32-bit patterns that are only copied through. The decoder produces only finite values, so the type excludes NaN and infinity patterns. For the same reason the marshal error discarded at handlers.go:77, 117 and 153 cannot occur in the model. The range checks of `int16`, `int32` and 64-bit `int` are part of decoding, so decoded values are in range by type.
- The backend services (inventory, product and order handlers and their database models) are left out. They are document-database inserts with timestamps and no decision logic. The broker sees them only through the `Outcome` input.
- Concurrency between requests is not modelled. That handlers share no state is a modelling assumption: each submission is a pure function of its own inputs, and nothing proves it.
