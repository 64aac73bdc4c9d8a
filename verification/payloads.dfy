/** The request envelope the broker decodes and the per-action sub-payloads it carries. */
module Payloads {

  /** Go's `int16`, `int32` and (64-bit) `int`: decoding an out-of-range JSON number into
      them fails, so a decoded envelope always holds values in range. */
  type Int16 = x: int | -0x8000 <= x < 0x8000
  type Int32 = x: int | -0x8000_0000 <= x < 0x8000_0000
  type Int64 = x: int | -0x8000_0000_0000_0000 <= x < 0x8000_0000_0000_0000

  /** A finite `float32`, kept as its bit pattern: the broker only copies prices through.
      The JSON decoder yields no NaN or infinity, so the all-ones exponent is excluded. */
  type Float32 = b: bv32 | (b >> 23) & 0xFF != 0xFF

  datatype AuthPayload = AuthPayload(email: string, password: string)

  datatype InventoryPayload = InventoryPayload(
    name: string,
    description: string,
    price: Float32,
    stock: Int64,
    category: string)

  datatype OrderItemPayload = OrderItemPayload(
    itemId: string,
    itemName: string,
    itemPrice: Float32,
    quantity: Int16)

  datatype OrderPayload = OrderPayload(
    clientId: Int32,
    orderDate: string,
    status: string,
    totalPrice: Float32,
    items: seq<OrderItemPayload>)

  /** The decoded envelope: an action tag and one sub-payload per action kind. Sub-payloads
      absent from the JSON hold their zero value; all three are always present. */
  datatype RequestPayload = RequestPayload(
    action: string,
    auth: AuthPayload,
    inventory: InventoryPayload,
    order: OrderPayload)

  /** What reading the inbound body gave: an error from the JSON reader, or an envelope. */
  datatype ReadResult = ReadFailed(err: string) | Read(payload: RequestPayload)
}
