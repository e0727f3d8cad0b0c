/** The rows of the dashboard's input tables, reduced to the columns the
    metrics read. Timestamps are seconds since the Unix epoch in UTC, `None`
    where the text did not parse; money is in integer cents. */
module Tables {
  import opened Options

  /** One line item of an order, or of an abandoned checkout: both files
      have one row per line item and repeat the order-level columns on
      every row. The customer id, product name and quantity are `None`
      where the cell is empty (NaN). */
  datatype OrderLine = OrderLine(
    orderId: int,
    customerId: Option<int>,
    customerName: Option<string>,
    totalPrice: int,
    createdAt: Option<int>,
    cancelledAt: Option<int>,
    referringSite: Option<string>,
    productId: int,
    productName: Option<string>,
    quantity: Option<int>)

  /** One page-view event of the customer journey. `session` counts the
      visits of one IP upward from 1. */
  datatype Visit = Visit(
    ip: string,
    session: int,
    event: string,
    eventTime: Option<int>,
    timeOnPage: Option<int>,
    productId: Option<int>,
    productName: Option<string>,
    collectionName: Option<string>)

  /** One variant row of the product catalogue. `productType` is `None`
      where the cell is missing (NaN) and `Some("")` for an empty string.
      `publishedAt` is the publication time as the file writes it (the
      loader does not parse this column), `None` where the cell is empty. */
  datatype Product = Product(
    id: int,
    title: string,
    productType: Option<string>,
    variantPrice: int,
    publishedAt: Option<string>)

  /** One customer record. */
  datatype Customer = Customer(
    id: int,
    province: Option<string>,
    country: Option<string>,
    createdAt: Option<int>)
}
