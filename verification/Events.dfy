/**
The vocabulary of the matching engine: sides, commands, resting orders and the
events a command produces. Prices, quantities and ids are unbounded integers;
`Bounds.dfy` proves when they fit the 64-bit fields of the program.
*/
module Events {

  // A side is an 8-bit code, not an enumeration: the Go engine accepts any code
  // and only ever compares it with these two.
  const BUY := 0
  const SELL := 1

  predicate ProperSide(side: int) {
    side == BUY || side == SELL
  }

  datatype RejectReason = NoReason | BadQty | BadPrice | UnknownOrder | NotOwner

  datatype Event =
    | Accepted(orderId: int, clientOrderId: int, owner: int, side: int, price: int, qty: int)
    | Rejected(orderId: int, clientOrderId: int, owner: int, reason: RejectReason)
    | Trade(price: int, qty: int, makerOrderId: int, takerOrderId: int, makerOwner: int, takerOwner: int)
    | Filled(orderId: int, clientOrderId: int, owner: int, side: int, price: int, qty: int, remainingQty: int)
    | Canceled(orderId: int, clientOrderId: int, owner: int, side: int, price: int, remainingQty: int)
    | BookUpdate(side: int, price: int, aggregateQty: int)

  datatype Command =
    | NewOrder(clientOrderId: int, owner: int, side: int, price: int, qty: int)
    | Cancel(orderId: int, owner: int)

  // A resting order; `qty` is what remains of it.
  datatype Order = Order(id: int, clientOrderId: int, owner: int, side: int, price: int, qty: int)
}
