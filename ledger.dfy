/** The write side of the products database: stock in and out, product
    adjustment, creation and soft deletion. Each runs in one transaction that
    changes the products table and appends one row to the operations table;
    an early return rolls the transaction back, so either both changes become
    visible or neither does.

    The database itself is not modelled: the two tables are fields, a
    transaction works on copies of them that only a successful commit
    publishes, and a database call that fails is named by a `Fault` argument
    saying at which step it fails. */
module ProductLedger {
  import opened Models
  import opened UpdateQuery

  /** The step at which the database reports an error, if any. */
  datatype Fault =
    | NoFault
    | BeginFault         // db.Begin
    | QueryFault         // tx.QueryRow, with an error other than "no rows"
    | ExecFault          // tx.Exec of the products statement
    | RowsAffectedFault  // result.RowsAffected
    | RecordFault        // the INSERT into the operations table
    | CommitFault        // tx.Commit

  /** The errors the functions return, by message. */
  datatype LedgerError =
    | BeginFailed          // "failed to begin transaction: ..."
    | UpdateStockFailed    // "failed to update stock: ..."
    | ProductNotFound      // "product not found"
    | DatabaseError        // "database error: ..."
    | InsufficientStock    // "insufficient stock"
    | UpdateProductFailed  // "failed to update product: ..."
    | AddProductFailed     // "failed to add product: ..."
    | DeleteProductFailed  // "failed to delete product: ..."
    | AffectedRowsFailed   // "failed to get affected rows: ..."
    | NoRows               // sql.ErrNoRows
    | RecordFailed         // "failed to record operation: ..."
    | CommitFailed         // the error of tx.Commit

  datatype Outcome = Ok | Err(error: LedgerError)

  class Ledger {
    /** The products table by id; soft-deleted rows stay in it. */
    var products: map<int, Product>
    /** The operations table, in insertion order. */
    var operations: seq<OperationRecord>

    /** Every operation row refers to a product row. */
    ghost predicate Valid()
      reads this
    {
      forall k :: 0 <= k < |operations| ==> operations[k].productId in products
    }

    /** No product has negative stock. */
    ghost predicate StockNonNegative()
      reads this
    {
      forall id :: id in products ==> products[id].quantity >= 0
    }

    constructor ()
      ensures Valid() && StockNonNegative()
      ensures products == map[] && operations == []
    {
      products := map[];
      operations := [];
    }

    /** AddProductStock: quantity := quantity + op.quantity on the row, whether
        or not it is soft-deleted, and an ADD_STOCK record. */
    method AddProductStock(op: Operation, fault: Fault) returns (result: Outcome)
      requires Valid()
      modifies this
      ensures Valid()
      ensures result == if fault == BeginFault then Err(BeginFailed)
                        else if fault == ExecFault then Err(UpdateStockFailed)
                        else if fault == RowsAffectedFault || op.productId !in old(products) then Err(ProductNotFound)
                        else if fault == RecordFault then Err(RecordFailed)
                        else if fault == CommitFault then Err(CommitFailed)
                        else Ok
      ensures result.Ok? ==>
        var p := old(products)[op.productId];
        && products == old(products)[op.productId := p.(quantity := p.quantity + op.quantity)]
        && operations == old(operations) + [OperationRecord(op.productId, AddStock, "Import stock", op.userId)]
      ensures result.Err? ==> products == old(products) && operations == old(operations)
      ensures old(StockNonNegative()) && op.quantity >= 0 ==> StockNonNegative()
    {
      if fault == BeginFault {
        return Err(BeginFailed);
      }
      var txProducts, txOperations := products, operations;

      if fault == ExecFault {
        return Err(UpdateStockFailed);
      }
      var rowsAffected := 0;
      if op.productId in txProducts {
        var p := txProducts[op.productId];
        txProducts := txProducts[op.productId := p.(quantity := p.quantity + op.quantity)];
        rowsAffected := 1;
      }
      if fault == RowsAffectedFault {
        // the error of RowsAffected is discarded and the count reads as 0
        rowsAffected := 0;
      }
      if rowsAffected == 0 {
        return Err(ProductNotFound);
      }

      if fault == RecordFault {
        return Err(RecordFailed);
      }
      txOperations := txOperations + [OperationRecord(op.productId, AddStock, "Import stock", op.userId)];

      if fault == CommitFault {
        return Err(CommitFailed);
      }
      products, operations := txProducts, txOperations;
      return Ok;
    }

    /** RemoveProductStock: reads the current quantity, refuses to go below
        zero, then quantity := quantity - op.quantity and a REMOVE_STOCK
        record. Soft-deleted rows are not excluded. */
    method RemoveProductStock(op: Operation, fault: Fault) returns (result: Outcome)
      requires Valid()
      modifies this
      ensures Valid()
      ensures result == if fault == BeginFault then Err(BeginFailed)
                        else if fault == QueryFault then Err(DatabaseError)
                        else if op.productId !in old(products) then Err(ProductNotFound)
                        else if old(products)[op.productId].quantity < op.quantity then Err(InsufficientStock)
                        else if fault == ExecFault then Err(UpdateStockFailed)
                        else if fault == RecordFault then Err(RecordFailed)
                        else if fault == CommitFault then Err(CommitFailed)
                        else Ok
      ensures result.Ok? ==>
        var p := old(products)[op.productId];
        && p.quantity - op.quantity >= 0
        && products == old(products)[op.productId := p.(quantity := p.quantity - op.quantity)]
        && operations == old(operations) + [OperationRecord(op.productId, RemoveStock, "Deliver stock", op.userId)]
      ensures result.Err? ==> products == old(products) && operations == old(operations)
      ensures old(StockNonNegative()) ==> StockNonNegative()
    {
      if fault == BeginFault {
        return Err(BeginFailed);
      }
      var txProducts, txOperations := products, operations;

      if fault == QueryFault {
        return Err(DatabaseError);
      }
      if op.productId !in txProducts {
        return Err(ProductNotFound);
      }
      var currentQuantity := txProducts[op.productId].quantity;

      if currentQuantity < op.quantity {
        return Err(InsufficientStock);
      }

      if fault == ExecFault {
        return Err(UpdateStockFailed);
      }
      var p := txProducts[op.productId];
      txProducts := txProducts[op.productId := p.(quantity := p.quantity - op.quantity)];

      if fault == RecordFault {
        return Err(RecordFailed);
      }
      txOperations := txOperations + [OperationRecord(op.productId, RemoveStock, "Deliver stock", op.userId)];

      if fault == CommitFault {
        return Err(CommitFailed);
      }
      products, operations := txProducts, txOperations;
      return Ok;
    }

    /** UpdateProduct: runs the statement BuildUpdate produces on the row,
        whether or not it is soft-deleted, and records ADJUST_PRODUCT with the
        request's reason. */
    method UpdateProduct(op: Operation, fault: Fault) returns (result: Outcome)
      requires Valid()
      modifies this
      ensures Valid()
      ensures result == if fault == BeginFault then Err(BeginFailed)
                        else if fault == ExecFault then Err(UpdateProductFailed)
                        else if fault == RowsAffectedFault || op.productId !in old(products) then Err(ProductNotFound)
                        else if fault == RecordFault then Err(RecordFailed)
                        else if fault == CommitFault then Err(CommitFailed)
                        else Ok
      ensures result.Ok? ==>
        && products == old(products)[op.productId := Updated(old(products)[op.productId], op)]
        && operations == old(operations) + [OperationRecord(op.productId, AdjustProduct, op.reason, op.userId)]
      ensures result.Err? ==> products == old(products) && operations == old(operations)
      ensures old(StockNonNegative()) ==> StockNonNegative()
    {
      if fault == BeginFault {
        return Err(BeginFailed);
      }
      var txProducts, txOperations := products, operations;

      if fault == ExecFault {
        return Err(UpdateProductFailed);
      }
      var rowsAffected;
      txProducts, rowsAffected := ExecProductUpdate(txProducts, op);
      if op.productId in products && products[op.productId].quantity >= 0 {
        UpdatedKeepsStock(products[op.productId], op);
      }
      if fault == RowsAffectedFault {
        // the error of RowsAffected is discarded and the count reads as 0
        rowsAffected := 0;
      }
      if rowsAffected == 0 {
        return Err(ProductNotFound);
      }

      if fault == RecordFault {
        return Err(RecordFailed);
      }
      txOperations := txOperations + [OperationRecord(op.productId, AdjustProduct, op.reason, op.userId)];

      if fault == CommitFault {
        return Err(CommitFailed);
      }
      products, operations := txProducts, txOperations;
      return Ok;
    }

    /** CreateProduct: inserts a row under the id the database hands out
        (`newId`; a clash with an existing id fails the INSERT) and records
        the request's type and reason. */
    method CreateProduct(op: Operation, newId: int, fault: Fault) returns (result: Outcome)
      requires Valid()
      modifies this
      ensures Valid()
      ensures result == if fault == BeginFault then Err(BeginFailed)
                        else if fault == QueryFault || newId in old(products) then Err(AddProductFailed)
                        else if fault == RecordFault then Err(RecordFailed)
                        else if fault == CommitFault then Err(CommitFailed)
                        else Ok
      ensures result.Ok? ==>
        && products == old(products)[newId := Product(op.name, op.unitPrice, op.quantity, false)]
        && operations == old(operations) + [OperationRecord(newId, op.opType, op.reason, op.userId)]
      ensures result.Err? ==> products == old(products) && operations == old(operations)
      ensures old(StockNonNegative()) && op.quantity >= 0 ==> StockNonNegative()
    {
      if fault == BeginFault {
        return Err(BeginFailed);
      }
      var txProducts, txOperations := products, operations;

      if fault == QueryFault || newId in txProducts {
        return Err(AddProductFailed);
      }
      var productId := newId;
      txProducts := txProducts[productId := Product(op.name, op.unitPrice, op.quantity, false)];

      if fault == RecordFault {
        return Err(RecordFailed);
      }
      txOperations := txOperations + [OperationRecord(productId, op.opType, op.reason, op.userId)];

      if fault == CommitFault {
        return Err(CommitFailed);
      }
      products, operations := txProducts, txOperations;
      return Ok;
    }

    /** DeleteProduct: sets the soft-delete mark on a row that does not carry
        it yet; no such row is sql.ErrNoRows. Records the request's type and
        reason. */
    method DeleteProduct(op: Operation, fault: Fault) returns (result: Outcome)
      requires Valid()
      modifies this
      ensures Valid()
      ensures result == if fault == BeginFault then Err(BeginFailed)
                        else if fault == ExecFault then Err(DeleteProductFailed)
                        else if fault == RowsAffectedFault then Err(AffectedRowsFailed)
                        else if op.productId !in old(products) || old(products)[op.productId].deleted then Err(NoRows)
                        else if fault == RecordFault then Err(RecordFailed)
                        else if fault == CommitFault then Err(CommitFailed)
                        else Ok
      ensures result.Ok? ==>
        && products == old(products)[op.productId := old(products)[op.productId].(deleted := true)]
        && operations == old(operations) + [OperationRecord(op.productId, op.opType, op.reason, op.userId)]
      ensures result.Err? ==> products == old(products) && operations == old(operations)
      ensures old(StockNonNegative()) ==> StockNonNegative()
    {
      if fault == BeginFault {
        return Err(BeginFailed);
      }
      var txProducts, txOperations := products, operations;

      if fault == ExecFault {
        return Err(DeleteProductFailed);
      }
      var rows := 0;
      if op.productId in txProducts && !txProducts[op.productId].deleted {
        var p := txProducts[op.productId];
        txProducts := txProducts[op.productId := p.(deleted := true)];
        rows := 1;
      }
      if fault == RowsAffectedFault {
        return Err(AffectedRowsFailed);
      }
      if rows == 0 {
        return Err(NoRows);
      }

      if fault == RecordFault {
        return Err(RecordFailed);
      }
      txOperations := txOperations + [OperationRecord(op.productId, op.opType, op.reason, op.userId)];

      if fault == CommitFault {
        return Err(CommitFailed);
      }
      products, operations := txProducts, txOperations;
      return Ok;
    }
  }

  /** The statement UpdateProduct builds, run against the products table.
      Returns the new table and the number of rows hit. */
  method ExecProductUpdate(rows: map<int, Product>, op: Operation)
    returns (rows': map<int, Product>, affected: nat)
    ensures affected == if op.productId in rows then 1 else 0
    ensures op.productId in rows ==> rows' == rows[op.productId := Updated(rows[op.productId], op)]
    ensures op.productId !in rows ==> rows' == rows
  {
    var query, params := BuildUpdate(op);
    rows', affected := RunStatement(rows, op, query, params);
  }

  /** tx.Exec(query, params...) for the statement BuildUpdate produced. The
      text itself is not parsed: its SET list is Columns(op) and its WHERE
      clause names the last parameter (UpdateQuery.PlaceholderBinds,
      UpdateQuery.QueryFrame), so executing it is ApplyParams. */
  method RunStatement(rows: map<int, Product>, op: Operation, query: string, params: seq<SqlValue>)
    returns (rows': map<int, Product>, affected: nat)
    requires query == Query(op) && params == Params(op)
    ensures affected == if op.productId in rows then 1 else 0
    ensures op.productId in rows ==> rows' == rows[op.productId := Updated(rows[op.productId], op)]
    ensures op.productId !in rows ==> rows' == rows
  {
    rows', affected := ApplyParams(rows, op, params);
  }

  /** The SET values are the parameters before the last, assigned in the
      order of the SET list; the last parameter is the id the WHERE clause
      selects. */
  method ApplyParams(rows: map<int, Product>, op: Operation, params: seq<SqlValue>)
    returns (rows': map<int, Product>, affected: nat)
    requires params == Params(op)
    ensures affected == if op.productId in rows then 1 else 0
    ensures op.productId in rows ==> rows' == rows[op.productId := Updated(rows[op.productId], op)]
    ensures op.productId !in rows ==> rows' == rows
  {
    ParamsSplit(op);
    var cols := Columns(op);
    var setValues := params[..|params| - 1];
    var id := params[|params| - 1].integer;
    BoundValuesFit(op, cols);
    if id in rows {
      assert AssignAll(rows[id], cols, setValues) == Updated(rows[id], op);
      rows' := rows[id := AssignAll(rows[id], cols, setValues)];
      affected := 1;
    } else {
      rows' := rows;
      affected := 0;
    }
  }

  // ---------------------------------------------------------------------
  // Sequences of calls

  /** Stock taken in and then delivered in the same amount leaves the
      products table as it was and two records in the log. */
  method AddThenRemoveRestores(l: Ledger, op: Operation)
    requires l.Valid() && l.StockNonNegative()
    requires op.productId in l.products
    modifies l
    ensures l.Valid() && l.StockNonNegative()
    ensures l.products == old(l.products)
    ensures l.operations == old(l.operations) + [
      OperationRecord(op.productId, AddStock, "Import stock", op.userId),
      OperationRecord(op.productId, RemoveStock, "Deliver stock", op.userId)]
  {
    var r1 := l.AddProductStock(op, NoFault);
    var r2 := l.RemoveProductStock(op, NoFault);
    assert r2 == Ok;
  }

  /** A second delete of the same product finds no row and records nothing:
      the first call marks a live row deleted and changes nothing else, and
      the log holds at most the first call's record. */
  method DeleteTwice(l: Ledger, op: Operation) returns (first: Outcome, second: Outcome)
    requires l.Valid()
    modifies l
    ensures l.Valid()
    ensures second == Err(NoRows)
    ensures l.products ==
      if op.productId in old(l.products) && !old(l.products)[op.productId].deleted
      then old(l.products)[op.productId := old(l.products)[op.productId].(deleted := true)]
      else old(l.products)
    ensures first == Ok <==> op.productId in old(l.products) && !old(l.products[op.productId].deleted)
    ensures l.operations == old(l.operations) + (if first.Ok? then [OperationRecord(op.productId, op.opType, op.reason, op.userId)] else [])
  {
    first := l.DeleteProduct(op, NoFault);
    second := l.DeleteProduct(op, NoFault);
  }
}
