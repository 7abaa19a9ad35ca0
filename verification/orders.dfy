/** Order records as the back office reads them, and the four fulfilment statuses. */
module Orders {
  import opened Wrappers

  const Received: string := "received"
  const Printing: string := "printing"
  const Shipped: string := "shipped"
  const Delivered: string := "delivered"

  /** The statuses in the order the admin page shows their counters. */
  const Statuses: seq<string> := [Received, Printing, Shipped, Delivered]

  /**
   * A stored order. `status` is the raw stored string, so values outside
   * `Statuses` can be represented; `frameDetails` is the JSON text written
   * at checkout. Timestamps are not modelled.
   */
  datatype Order = Order(
    id: string,
    userId: string,
    designId: string,
    customerName: string,
    customerEmail: string,
    shippingAddress: string,
    status: string,
    totalAmount: int,
    frameDetails: string,
    notes: Option<string>)
}
