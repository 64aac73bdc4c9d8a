/** What the broker writes back to its caller. */
module Replies {

  const StatusOK := 200
  const StatusAccepted := 202
  const StatusUnauthorized := 401

  /** The free-form `data` member of a response envelope, as raw JSON when present. */
  datatype Data = Null | Raw(json: string)

  /** The response envelope shared by the broker and the services behind it. */
  datatype JsonResponse = JsonResponse(error: bool, message: string, data: Data)

  /** The Go error value handed to the error writer: one built from a fixed text, one
      returned by a library call and relayed as is, or the nil error. */
  datatype Fault = New(text: string) | Relayed(detail: string) | Nil

  /** The status the error writer uses: its own default, or one its caller passes. */
  datatype ErrStatus = DefaultErrStatus | Explicit(code: int)

  /** A reply is either an envelope written with an explicit status, or an error written
      by the error helper from a Go error and an optional status. */
  datatype Reply =
    | WriteJson(status: int, payload: JsonResponse)
    | ErrorJson(fault: Fault, errStatus: ErrStatus)

  /** The reply reports a dispatch that went through: written with 202 Accepted. */
  predicate Accepted(r: Reply) {
    r.WriteJson? && r.status == StatusAccepted
  }

  /** The reply is an error written with the error helper's default status. */
  predicate DefaultError(r: Reply) {
    r.ErrorJson? && r.errStatus == DefaultErrStatus
  }
}
