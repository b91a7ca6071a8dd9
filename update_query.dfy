/** The dynamic UPDATE statement of `UpdateProduct`: a SET list that grows
    with the fields the request carries, numbered PostgreSQL placeholders
    `$1, $2, ...`, and the parameter list bound to them. */
module UpdateQuery {
  import opened GoStrings
  import opened Models

  /** The columns the statement can assign besides updated_at. */
  datatype Column = NameColumn | UnitPriceColumn | QuantityColumn

  /** A value bound to a placeholder. */
  datatype SqlValue = Text(text: string) | Float(number: real) | Int(integer: int)

  const QueryHead: string := "UPDATE products SET updated_at = CURRENT_TIMESTAMP"

  function ColumnName(c: Column): string {
    match c
    case NameColumn => "name"
    case UnitPriceColumn => "unit_price"
    case QuantityColumn => "quantity"
  }

  /** Position of a column in the order the statement writes them. */
  function Rank(c: Column): nat {
    match c
    case NameColumn => 0
    case UnitPriceColumn => 1
    case QuantityColumn => 2
  }

  /** The columns the request assigns, in statement order: a name when it is
      non-empty, a unit price when it is positive, a quantity when it is not
      negative (so 0 is written and -1 is not). */
  function Columns(op: Operation): (cols: seq<Column>)
    ensures NameColumn in cols <==> op.name != ""
    ensures UnitPriceColumn in cols <==> op.unitPrice > 0.0
    ensures QuantityColumn in cols <==> op.quantity >= 0
    ensures forall i, j :: 0 <= i < j < |cols| ==> Rank(cols[i]) < Rank(cols[j])
  {
    (if op.name != "" then [NameColumn] else [])
    + (if op.unitPrice > 0.0 then [UnitPriceColumn] else [])
    + (if op.quantity >= 0 then [QuantityColumn] else [])
  }

  /** The request field bound to a column's placeholder. */
  function Bound(op: Operation, c: Column): SqlValue {
    match c
    case NameColumn => Text(op.name)
    case UnitPriceColumn => Float(op.unitPrice)
    case QuantityColumn => Int(op.quantity)
  }

  /** ", <column> = $<n>" */
  function SetClause(c: Column, n: nat): string {
    ", " + ColumnName(c) + " = $" + FormatNat(n)
  }

  /** `f` of each column of `cols` with its placeholder number, numbered
      from `first` on. */
  function Numbered(f: (Column, nat) -> string, cols: seq<Column>, first: nat): seq<string> {
    seq(|cols|, k requires 0 <= k < |cols| => f(cols[k], first + k))
  }

  /** The SET clauses for `cols` as they appear in the statement. */
  function SetClauses(cols: seq<Column>, first: nat): string {
    Concat(Numbered(SetClause, cols, first))
  }

  /** " WHERE id = $<n>" */
  function WhereClause(n: nat): string {
    " WHERE id = $" + FormatNat(n)
  }

  /** The values bound to the SET placeholders, in order. */
  function BoundValues(op: Operation, cols: seq<Column>): (vals: seq<SqlValue>)
    ensures |vals| == |cols|
    ensures forall k :: 0 <= k < |cols| ==> vals[k] == Bound(op, cols[k])
  {
    if cols == [] then [] else [Bound(op, cols[0])] + BoundValues(op, cols[1..])
  }

  /** The statement text for the SET list `cols`. */
  function QueryText(cols: seq<Column>): string {
    QueryHead + SetClauses(cols, 1) + WhereClause(|cols| + 1)
  }

  /** The statement text UpdateProduct sends. */
  function Query(op: Operation): string {
    QueryText(Columns(op))
  }

  /** The parameters UpdateProduct sends with it: the assigned values, then
      the product id. */
  function Params(op: Operation): seq<SqlValue> {
    BoundValues(op, Columns(op)) + [Int(op.productId)]
  }

  /** The construction as the code does it: the text and the parameter list
      grow together while a counter names the next placeholder. */
  method BuildUpdate(op: Operation) returns (query: string, params: seq<SqlValue>)
    ensures query == Query(op)
    ensures params == Params(op)
  {
    query := QueryHead;
    params := [];
    var paramCount := 1;
    ghost var cols: seq<Column> := [];
    assert Built(op, cols, query, params, paramCount);

    if op.name != "" {
      query, params, paramCount := AppendAssignment(op, cols, NameColumn, query, params, paramCount);
      cols := cols + [NameColumn];
    }
    ghost var named := cols;
    assert named == if op.name != "" then [NameColumn] else [];
    if op.unitPrice > 0.0 {
      query, params, paramCount := AppendAssignment(op, cols, UnitPriceColumn, query, params, paramCount);
      cols := cols + [UnitPriceColumn];
    }
    assert cols == named + if op.unitPrice > 0.0 then [UnitPriceColumn] else [];
    ghost var priced := cols;
    if op.quantity >= 0 {
      query, params, paramCount := AppendAssignment(op, cols, QuantityColumn, query, params, paramCount);
      cols := cols + [QuantityColumn];
    }
    assert cols == priced + if op.quantity >= 0 then [QuantityColumn] else [];

    FinishStep(op, cols, query, params, paramCount);
    query := query + WhereClause(paramCount);
    params := params + [Int(op.productId)];
  }

  /** One guarded step of the construction: the clause for `c` with the
      current counter, its value, and the counter moved on. */
  method AppendAssignment(op: Operation, ghost cols: seq<Column>, c: Column,
                          query: string, params: seq<SqlValue>, paramCount: nat)
    returns (query': string, params': seq<SqlValue>, paramCount': nat)
    requires Built(op, cols, query, params, paramCount)
    ensures Built(op, cols + [c], query', params', paramCount')
  {
    AppendStep(op, cols, c, query, params, paramCount);
    query' := query + SetClause(c, paramCount);
    params' := params + [Bound(op, c)];
    paramCount' := paramCount + 1;
  }

  /** What the code has built after writing the SET clauses for `cols`: the
      head and those clauses, their values, and the next placeholder number,
      one more than the number of parameters. */
  ghost predicate Built(op: Operation, cols: seq<Column>, query: string, params: seq<SqlValue>, paramCount: nat) {
    query == QueryHead + SetClauses(cols, 1) && params == BoundValues(op, cols) && paramCount == |params| + 1
  }

  lemma AppendStep(op: Operation, cols: seq<Column>, c: Column, query: string, params: seq<SqlValue>, paramCount: nat)
    requires Built(op, cols, query, params, paramCount)
    ensures Built(op, cols + [c], query + SetClause(c, paramCount), params + [Bound(op, c)], paramCount + 1)
  {
    SetClausesSnoc(cols, c, 1);
    Associative(QueryHead, SetClauses(cols, 1), SetClause(c, paramCount));
    BoundValuesSnoc(op, cols, c);
  }

  lemma FinishStep(op: Operation, cols: seq<Column>, query: string, params: seq<SqlValue>, paramCount: nat)
    requires Built(op, cols, query, params, paramCount)
    ensures query + WhereClause(paramCount) == QueryText(cols)
  {
    assert paramCount == |cols| + 1;
  }

  lemma {:induction false} BoundValuesSnoc(op: Operation, cols: seq<Column>, c: Column)
    ensures BoundValues(op, cols + [c]) == BoundValues(op, cols) + [Bound(op, c)]
  {
    var l := BoundValues(op, cols + [c]);
    var r := BoundValues(op, cols) + [Bound(op, c)];
    assert |l| == |r|;
    forall k | 0 <= k < |l| ensures l[k] == r[k] {
      assert (cols + [c])[k] == if k < |cols| then cols[k] else c;
    }
  }

  lemma Associative(a: string, b: string, c: string)
    ensures (a + b) + c == a + (b + c)
  {
  }

  lemma NumberedSnoc(f: (Column, nat) -> string, cols: seq<Column>, c: Column, first: nat)
    ensures Numbered(f, cols + [c], first) == Numbered(f, cols, first) + [f(c, first + |cols|)]
  {
    var l, r := Numbered(f, cols + [c], first), Numbered(f, cols, first) + [f(c, first + |cols|)];
    forall i | 0 <= i < |l| ensures l[i] == r[i] {
      if i < |cols| {
        assert (cols + [c])[i] == cols[i];
      }
    }
  }

  lemma NumberedAt(f: (Column, nat) -> string, cols: seq<Column>, first: nat, k: nat)
    requires k < |cols|
    ensures Numbered(f, cols, first) ==
            Numbered(f, cols[..k], first) + [f(cols[k], first + k)] + Numbered(f, cols[k + 1..], first + k + 1)
  {
    var l := Numbered(f, cols, first);
    var r := Numbered(f, cols[..k], first) + [f(cols[k], first + k)] + Numbered(f, cols[k + 1..], first + k + 1);
    forall i | 0 <= i < |l| ensures l[i] == r[i] {
      if i < k {
        assert cols[..k][i] == cols[i];
      } else if i > k {
        assert cols[k + 1..][i - k - 1] == cols[i];
      }
    }
  }

  /** Appending a clause numbers it after those already there. */
  lemma SetClausesSnoc(cols: seq<Column>, c: Column, first: nat)
    ensures SetClauses(cols + [c], first) == SetClauses(cols, first) + SetClause(c, first + |cols|)
  {
    var x := SetClause(c, first + |cols|);
    NumberedSnoc(SetClause, cols, c, first);
    ConcatAppend(Numbered(SetClause, cols, first), [x]);
    ConcatSingle(x);
  }

  // ---------------------------------------------------------------------
  // Properties of the generated statement

  /** SET clauses split around any position: the clause at position k (from
      0) carries placeholder first + k. */
  lemma SetClausesAt(cols: seq<Column>, first: nat, k: nat)
    requires k < |cols|
    ensures SetClauses(cols, first) ==
            SetClauses(cols[..k], first) + SetClause(cols[k], first + k) + SetClauses(cols[k + 1..], first + k + 1)
  {
    var front, back := Numbered(SetClause, cols[..k], first), Numbered(SetClause, cols[k + 1..], first + k + 1);
    var x := SetClause(cols[k], first + k);
    NumberedAt(SetClause, cols, first, k);
    calc {
      SetClauses(cols, first);
      Concat(front + [x] + back);
      { ConcatAppend(front + [x], back); }
      Concat(front + [x]) + Concat(back);
      { ConcatAppend(front, [x]); ConcatSingle(x); }
      Concat(front) + x + Concat(back);
    }
  }

  /** Between one and four parameters, the product id last, and the WHERE
      placeholder is the number of parameters. */
  lemma ParamsShape(op: Operation)
    ensures 1 <= |Params(op)| <= 4
    ensures |Params(op)| == |Columns(op)| + 1
    ensures Params(op)[|Params(op)| - 1] == Int(op.productId)
    ensures Query(op) == QueryHead + SetClauses(Columns(op), 1) + WhereClause(|Params(op)|)
  {
    var cols := Columns(op);
    assert |cols| <= 3;
  }

  /** The parameter list read back: the SET values, then the product id. */
  lemma ParamsSplit(op: Operation)
    ensures |Params(op)| >= 1
    ensures Params(op)[..|Params(op)| - 1] == BoundValues(op, Columns(op))
    ensures Params(op)[|Params(op)| - 1] == Int(op.productId)
  {
    assert Params(op)[..|Params(op)| - 1] == BoundValues(op, Columns(op));
  }

  lemma ConcatEnds(a: string, b: string)
    ensures HasPrefix(a + b, a) && HasSuffix(a + b, b)
  {
    assert (a + b)[..|a|] == a;
    assert (a + b)[|a + b| - |b|..] == b;
  }

  /** The statement starts with the fixed head and ends with the WHERE clause
      whose placeholder is the number of parameters. */
  lemma QueryFrame(op: Operation)
    ensures HasPrefix(Query(op), QueryHead)
    ensures HasSuffix(Query(op), WhereClause(|Params(op)|))
  {
    ParamsShape(op);
    var s, w := SetClauses(Columns(op), 1), WhereClause(|Params(op)|);
    Associative(QueryHead, s, w);
    ConcatEnds(QueryHead, s + w);
    ConcatEnds(QueryHead + s, w);
  }

  /** Placeholder $k (k from 1) assigns the k-th written column and binds the
      k-th parameter, which is the request's value for that column. */
  lemma PlaceholderBinds(op: Operation, k: nat)
    requires 1 <= k <= |Columns(op)|
    ensures var cols := Columns(op);
      Query(op) == QueryHead + SetClauses(cols[..k - 1], 1) + SetClause(cols[k - 1], k)
                   + SetClauses(cols[k..], k + 1) + WhereClause(|Params(op)|)
    ensures Params(op)[k - 1] == Bound(op, Columns(op)[k - 1])
  {
    ParamsShape(op);
    var cols := Columns(op);
    var a, b, c := SetClauses(cols[..k - 1], 1), SetClause(cols[k - 1], k), SetClauses(cols[k..], k + 1);
    var w := WhereClause(|Params(op)|);
    SetClausesAt(cols, 1, k - 1);
    calc {
      Query(op);
      QueryHead + (a + b + c) + w;
      { Associative(QueryHead, a + b, c); }
      QueryHead + (a + b) + c + w;
      { Associative(QueryHead, a, b); }
      QueryHead + a + b + c + w;
    }
  }

  /** Quantity 0 is written; a negative quantity is not. */
  lemma QuantityGuard(op: Operation)
    ensures op.quantity == 0 ==> Int(0) in Params(op)[..|Params(op)| - 1]
    ensures op.quantity < 0 ==> QuantityColumn !in Columns(op)
  {
    ParamsShape(op);
    var cols := Columns(op);
    if op.quantity == 0 {
      var k :| 0 <= k < |cols| && cols[k] == QuantityColumn;
      assert Params(op)[..|Params(op)| - 1] == BoundValues(op, cols);
      assert BoundValues(op, cols)[k] == Int(0);
    }
  }

  // ---------------------------------------------------------------------
  // What the statement does to the row it hits

  /** A value of the column's SQL type. */
  predicate FitsColumn(c: Column, v: SqlValue) {
    match c
    case NameColumn => v.Text?
    case UnitPriceColumn => v.Float?
    case QuantityColumn => v.Int?
  }

  /** One assignment `column = value`. */
  function Assign(p: Product, c: Column, v: SqlValue): Product
    requires FitsColumn(c, v)
  {
    match c
    case NameColumn => p.(name := v.text)
    case UnitPriceColumn => p.(unitPrice := v.number)
    case QuantityColumn => p.(quantity := v.integer)
  }

  /** The SET list applied left to right. */
  function AssignAll(p: Product, cols: seq<Column>, vals: seq<SqlValue>): Product
    requires |cols| == |vals|
    requires forall k :: 0 <= k < |cols| ==> FitsColumn(cols[k], vals[k])
    decreases |cols|
  {
    if cols == [] then p else AssignAll(Assign(p, cols[0], vals[0]), cols[1..], vals[1..])
  }

  /** Each bound value has the type of the column it is assigned to. */
  lemma BoundValuesFit(op: Operation, cols: seq<Column>)
    ensures forall k :: 0 <= k < |cols| ==> FitsColumn(cols[k], BoundValues(op, cols)[k])
  {
    forall k | 0 <= k < |cols| ensures FitsColumn(cols[k], BoundValues(op, cols)[k]) {
      assert BoundValues(op, cols)[k] == Bound(op, cols[k]);
    }
  }

  /** The row after the statement runs on it. */
  function Updated(p: Product, op: Operation): Product {
    var cols := Columns(op);
    AssignAll(p, cols, BoundValues(op, cols))
  }

  /** Executing the statement replaces exactly the guarded fields and keeps
      the soft-delete mark. */
  lemma UpdatedFields(p: Product, op: Operation)
    ensures Updated(p, op).name == if op.name != "" then op.name else p.name
    ensures Updated(p, op).unitPrice == if op.unitPrice > 0.0 then op.unitPrice else p.unitPrice
    ensures Updated(p, op).quantity == if op.quantity >= 0 then op.quantity else p.quantity
    ensures Updated(p, op).deleted == p.deleted
  {
    var cols := Columns(op);
    var vals := BoundValues(op, cols);
    AssignAllSorted(p, op, cols);
  }

  /** The statement never leaves a negative quantity behind on a row that
      had none: a negative request quantity is not written. */
  lemma UpdatedKeepsStock(p: Product, op: Operation)
    requires p.quantity >= 0
    ensures Updated(p, op).quantity >= 0
  {
    UpdatedFields(p, op);
  }

  /** Assigning a sorted list of distinct columns, each bound to the request's
      value, gives each listed column the request's value. */
  lemma {:induction false} AssignAllSorted(p: Product, op: Operation, cols: seq<Column>)
    requires forall i, j :: 0 <= i < j < |cols| ==> Rank(cols[i]) < Rank(cols[j])
    ensures var r := AssignAll(p, cols, BoundValues(op, cols));
      && r.name == (if NameColumn in cols then op.name else p.name)
      && r.unitPrice == (if UnitPriceColumn in cols then op.unitPrice else p.unitPrice)
      && r.quantity == (if QuantityColumn in cols then op.quantity else p.quantity)
      && r.deleted == p.deleted
    decreases |cols|
  {
    if cols != [] {
      var p' := Assign(p, cols[0], Bound(op, cols[0]));
      assert BoundValues(op, cols)[1..] == BoundValues(op, cols[1..]);
      AssignAllSorted(p', op, cols[1..]);
      assert cols[0] !in cols[1..] by {
        forall j | 0 <= j < |cols| - 1 ensures cols[1..][j] != cols[0] {
          assert Rank(cols[0]) < Rank(cols[j + 1]);
        }
      }
      assert forall c :: c in cols <==> c == cols[0] || c in cols[1..];
    }
  }
}
