/** The records the product ledger works on (models/operations.go,
    models/products.go). */
module Models {

  /** The kinds of entries in the operations table. */
  datatype OperationType = AddStock | RemoveStock | AdjustProduct | AddProduct | DelProduct

  /** The text stored in the operations table for each kind. */
  function TypeCode(t: OperationType): string {
    match t
    case AddStock => "ADD_STOCK"
    case RemoveStock => "REMOVE_STOCK"
    case AdjustProduct => "ADJUST_PRODUCT"
    case AddProduct => "CREATE_PRODUCT"
    case DelProduct => "DELETE_PRODUCT"
  }

  /** The stored codes tell the five kinds apart. */
  lemma TypeCodeInjective(s: OperationType, t: OperationType)
    requires TypeCode(s) == TypeCode(t)
    ensures s == t
  {
  }

  /** The request a handler passes to the database layer. Go's float64 unit
      price is a `real`: only its sign is ever tested. */
  datatype Operation = Operation(
    productId: int,
    quantity: int,
    name: string,
    unitPrice: real,
    reason: string,
    opType: OperationType,
    userId: int)

  /** A row of the products table; `deleted` stands for deleted_at being set. */
  datatype Product = Product(name: string, unitPrice: real, quantity: int, deleted: bool)

  /** A row of the operations table. */
  datatype OperationRecord = OperationRecord(
    productId: int,
    opType: OperationType,
    reason: string,
    createdBy: int)
}
