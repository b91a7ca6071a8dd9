# Inventory service: path matcher, token gate and product ledger in Dafny

This project models the parts of the inventory HTTP service that decide something:

- **`CustomKeyMatch`** (module `KeyMatch`) is the REST path matcher the access-control layer can use. It compares a request path (key1) with a route pattern (key2), segment by segment. A pattern segment is one of three kinds:
  - a named parameter `{name}`: digits only when `name` ends in `ID`, otherwise `[a-zA-Z0-9_.-]+`;
  - the wildcard `*`;
  - a literal, which needs the identical segment.
  
  The model has:
  - the method as written, with its index loop;
  - a reference predicate `Matches`;
  - lemmas giving its meaning and its behaviour on the service's own routes.
- **`extractToken` and the first gate of `Authenticate`** (module `Authen`):
  - the case-sensitive `"Bearer "` prefix is removed once;
  - a header without that prefix is taken as the raw token;
  - an empty token ends the request with "No token provided".
  
  JWT validation is a parameter.
- **The dynamic UPDATE of `UpdateProduct`** (module `UpdateQuery`):
  - the SET list grows with the request's fields: name if non-empty, unit price if positive, quantity if not negative;
  - each clause gets the next `$n` placeholder;
  - the parameter list is bound in the same order, with the product id bound by the final `WHERE id = $n`.
  
  The builder is a method with the same counter the code uses. It is proved equal to a reference text and parameter list. Lemmas show that placeholder `$k` assigns the k-th column and binds the k-th value. A function gives the effect of the statement on a product row.
- **The write side of the products database** (module `ProductLedger`) is a class with two fields:
  - the products table, a map from id to row;
  - the operations table, an append-only log.
  
  Its methods are `AddProductStock`, `RemoveProductStock`, `UpdateProduct`, `CreateProduct` and `DeleteProduct`. Each one's contract gives:
  - the exact error returned for every database failure point and data condition, in the code's order;
  - the exact new tables on success;
  - unchanged tables on any error, because the transaction rolls back;
  - preservation of referential integrity, meaning every log row names a product;
  - preservation of non-negative stock.
- Module `GoStrings` holds the small pieces of Go's `strings` and `fmt` packages that the code relies on: `Trim`, `Split`, `HasPrefix`, `TrimPrefix` and `%d`. Their edge cases are explicit, e.g. `Split("")` is `[""]`, and `"a//b"` has an empty middle piece.

Two consequences of the code as written:

- The service's routes spell the parameter `{productId}` (main.go:58-62). The matcher's suffix test for `ID` is case-sensitive, so `/products/ab` **matches** `/products/{productId}`; only a pattern spelled `{productID}` demands digits. `KeyMatch.ProductRouteAcceptsIdentifiers` and `KeyMatch.NumericRouteRejectsWords` prove both sides.
- The wildcard `*` accepts any segment, **including the empty segment** left by a doubled slash. See `KeyMatch.EmptySegmentPassesOnlyWildcard`.

## Model

| member | source | states |
|---|---|---|
| GoStrings.HasPrefix | enforcer/utils.go:19 | Defines strings.HasPrefix: the string is at least as long as the prefix and begins with it. |
| GoStrings.HasSuffix | enforcer/utils.go:19-22 | Defines strings.HasSuffix: the string is at least as long as the suffix and ends with it. |
| GoStrings.TrimPrefix | middlewares/authen.go:32-33 | The prefix is removed exactly once when present: `prefix + r == s`. Otherwise the string is returned unchanged. |
| GoStrings.Trim | enforcer/utils.go:10-11 | Trimming never lengthens the string. The result is empty iff the input is all cut characters. A non-empty result neither starts nor ends with the cut character. |
| GoStrings.TrimIgnoresOuter | enforcer/utils.go:10-11 | One more leading or trailing cut character does not change the trimmed string. |
| GoStrings.TrimUntouched | enforcer/utils.go:10-11 | A string that neither starts nor ends with the cut character is returned as is. |
| GoStrings.Split | enforcer/utils.go:10-11 | Split gives at least one piece, and no piece contains the separator. Joining the pieces with the separator gives the input back. |
| GoStrings.SplitJoin | enforcer/utils.go:10-11 | Split inverts Join on pieces free of the separator. |
| GoStrings.ConcatAppend | database/utils.go:112-128 | Concatenating two lists of clauses is concatenating their texts. |
| GoStrings.FormatNat | database/utils.go:113-130 | Defines `fmt.Sprintf("%d", n)` for the placeholder counter: the decimal digits of n, most significant first (its meaning is stated by FormatNatDigits). |
| GoStrings.FormatNatDigits | database/utils.go:113 | `%d` of n is a non-empty digit string with no leading zero whose decimal value is n. |
| GoStrings.FormatNatInjective | database/utils.go:113 | Different placeholder numbers print differently. |
| Models.TypeCode | models/operations.go:5-11 | Defines the text stored for each operation kind: ADD_STOCK, REMOVE_STOCK, ADJUST_PRODUCT, CREATE_PRODUCT, DELETE_PRODUCT. |
| Models.TypeCodeInjective | models/operations.go:5-11 | The five operation-type codes stored in the operations table are pairwise distinct, so a stored code identifies its kind. |
| KeyMatch.Segments | enforcer/utils.go:10-11 | A path has at least one segment, and no segment holds a slash. Joined with slashes, the segments give the path with its outer slashes trimmed. |
| KeyMatch.SegmentsIgnoreOuterSlashes | enforcer/utils.go:10-11 | A leading or trailing slash does not change the segments. |
| KeyMatch.SegmentsOfRoot | enforcer/utils.go:10-11 | "" and "/" are both the single empty segment. |
| KeyMatch.SegmentsOfDoubledSlash | enforcer/utils.go:10-11 | "a//b" has three segments, the middle one empty. |
| KeyMatch.SegmentsOfJoin | enforcer/utils.go:10-11 | Slash-free segments written with slashes come back as exactly those segments, provided the outer segments are non-empty. |
| KeyMatch.ParamSegmentShape | enforcer/utils.go:19-20 | A segment starting with `{` and ending with `}` is at least two characters, so the parameter name slice is well defined. |
| KeyMatch.IsNumeric | enforcer/utils.go:24 | Defines the regular expression `^[0-9]+$`: a non-empty string of ASCII digits. |
| KeyMatch.IsIdentifier | enforcer/utils.go:29 | Defines the regular expression `^[a-zA-Z0-9_\-\.]+$`: a non-empty string of ASCII letters, digits, `_`, `-` and `.`. |
| KeyMatch.SegmentMatches | enforcer/utils.go:19-44 | Defines the verdict for one position: a parameter segment asks for IsNumeric when its name ends in "ID" and IsIdentifier otherwise, `*` accepts anything, any other segment asks for equality. |
| KeyMatch.Matches | enforcer/utils.go:8-48 | Defines the value CustomKeyMatch returns: equal segment counts and a successful positional pass (its meaning is stated by MatchesIff). |
| KeyMatch.CheckSegment | enforcer/utils.go:19-44 | One position's verdict equals the reference check. The parameter test comes first, then the wildcard, then literal equality. |
| KeyMatch.CustomKeyMatch | enforcer/utils.go:8-48 | The loop with its early `return false` returns exactly `Matches(key1, key2)`. |
| KeyMatch.AllSegmentsMatchIff | enforcer/utils.go:17-47 | The positional pass succeeds iff every position passes its own check, in both directions. |
| KeyMatch.MatchesIff | enforcer/utils.go:8-48 | A match holds iff the segment counts are equal and every request segment passes the check of the pattern segment at the same index. |
| KeyMatch.CountMismatchFails | enforcer/utils.go:13-15 | Different segment counts never match. |
| KeyMatch.LiteralSegmentMatches | enforcer/utils.go:41-44 | A literal pattern segment accepts exactly the identical segment. |
| KeyMatch.WildcardMatchesAny | enforcer/utils.go:36-39 | `*` accepts every segment, the empty one included. |
| KeyMatch.ParamSegmentMatches | enforcer/utils.go:19-33 | `{name}` accepts a non-empty digit string when `name` ends in "ID", otherwise a non-empty `[a-zA-Z0-9_.-]` string. |
| KeyMatch.BraceStarIsParameter | enforcer/utils.go:19-39 | `{*}` is a parameter, not a wildcard: it rejects the empty segment that `*` accepts. |
| KeyMatch.MatchesItself | enforcer/utils.go:8-48 | A path without parameter segments matches itself. |
| KeyMatch.ProductRouteAcceptsIdentifiers | enforcer/utils.go:19-31 | `/products/{productId}` accepts both `/products/12` and `/products/ab`, because "Id" is not the suffix "ID". |
| KeyMatch.NumericRouteRejectsWords | enforcer/utils.go:19-26 | `/products/{productID}` accepts `/products/12` and rejects `/products/ab`. |
| KeyMatch.WildcardIsOneSegment | enforcer/utils.go:13-39 | `/a/*` matches `/a/b` but not `/a/b/c`. |
| KeyMatch.EmptySegmentPassesOnlyWildcard | enforcer/utils.go:10-39 | `a//b` matches `a/*/b` and does not match `a/{x}/b`. |
| Authen.ExtractToken | middlewares/authen.go:25-38 | The token is a suffix of the header. It is strictly shorter iff the header starts with "Bearer ", and then "Bearer " + token is the header. |
| Authen.ExtractBearer | middlewares/authen.go:32-33 | Extraction inverts the scheme prefix: extracting from "Bearer " + t gives t for every t. |
| Authen.ExtractRaw | middlewares/authen.go:36-37 | A header without the exact prefix is the token. |
| Authen.ExtractOnce | middlewares/authen.go:32-33 | The prefix is removed once only: "Bearer Bearer x" gives "Bearer x". |
| Authen.LowerCaseSchemeKept | middlewares/authen.go:32-37 | The prefix test is case-sensitive: "bearer x" is taken whole. |
| Authen.EmptyTokenIff | middlewares/authen.go:25-38 | The token is empty iff the header is empty or is exactly "Bearer ". |
| Authen.Authenticate | middlewares/authen.go:43-59 | NoToken iff the extracted token is empty. The next handler gets the extracted, non-empty, valid token. InvalidToken only for a token that fails validation. |
| Authen.NoHeaderNoForward | middlewares/authen.go:43-47 | A missing header and a bare "Bearer " are both refused with NoToken, whatever the validator says. |
| UpdateQuery.Columns | database/utils.go:112-128 | A column is assigned iff its guard holds: name non-empty, price > 0, quantity >= 0. Columns appear in the fixed order name, unit_price, quantity, without repetition. |
| UpdateQuery.BoundValues | database/utils.go:112-128 | One value per assigned column, position by position the request's value for that column. |
| UpdateQuery.Query | database/utils.go:108-131 | Defines the statement text: the fixed head, the SET clauses of Columns(op) numbered from `$1`, then ` WHERE id = $n` with n one past the last clause. |
| UpdateQuery.Params | database/utils.go:109-131 | Defines the parameter list: the request's value for each assigned column in order, then the product id. |
| UpdateQuery.BuildUpdate | database/utils.go:107-131 | The counter-driven construction produces exactly the reference statement text and parameter list. |
| UpdateQuery.AppendAssignment | database/utils.go:112-128 | One guarded step appends the column's clause with the current counter and the column's value, and moves the counter on, keeping the counter one past the parameter count. |
| UpdateQuery.SetClausesSnoc | database/utils.go:113-115 | An appended clause is numbered after all clauses already there. |
| UpdateQuery.SetClausesAt | database/utils.go:112-128 | The clause at position k carries placeholder first + k, so placeholders are consecutive. |
| UpdateQuery.ParamsShape | database/utils.go:108-131 | There are one to four parameters, one per assigned column plus the id. The id comes last, and the WHERE placeholder number equals the parameter count. |
| UpdateQuery.ParamsSplit | database/utils.go:130-131 | The parameters before the last are the SET values, and the last is the product id. |
| UpdateQuery.QueryFrame | database/utils.go:108-131 | The statement starts with the fixed head and ends with ` WHERE id = $n`, where n is the number of parameters. |
| UpdateQuery.PlaceholderBinds | database/utils.go:112-131 | For every k, `$k` appears in the clause of the k-th assigned column, and the k-th parameter is the request's value for that column. |
| UpdateQuery.QuantityGuard | database/utils.go:124-128 | Quantity 0 is written, and a negative quantity is not. |
| UpdateQuery.BoundValuesFit | database/utils.go:112-133 | Every bound value has the SQL type of the column it is assigned to. |
| UpdateQuery.AssignAllSorted | database/utils.go:112-133 | Applying a sorted, repetition-free SET list gives each listed column the request's value and leaves the other fields alone. |
| UpdateQuery.Updated | database/utils.go:133 | Defines the row after the statement runs on it: the SET list of Columns(op) applied left to right with the values of Params(op) (its meaning is stated by UpdatedFields). |
| UpdateQuery.UpdatedFields | database/utils.go:112-133 | After the statement, each field is the request's value when its guard holds and the old value otherwise. The soft-delete mark is kept. |
| UpdateQuery.UpdatedKeepsStock | database/utils.go:124-128 | The statement never leaves a negative quantity on a row that had none. |
| ProductLedger.Ledger.AddProductStock | database/utils.go:34-61 | Errors, in order: begin fails; exec fails; rows affected reads 0 (unknown id, or the discarded RowsAffected error); record fails; commit fails. On success quantity += q, even on a soft-deleted row, and an ADD_STOCK "Import stock" record is appended. On error nothing changes. Integrity is preserved, and stock stays non-negative for q >= 0. |
| ProductLedger.Ledger.RemoveProductStock | database/utils.go:63-98 | Errors, in order: begin fails; query error; unknown id; current < q (insufficient stock); exec fails; record fails; commit fails. On success quantity -= q with the result non-negative, and a REMOVE_STOCK "Deliver stock" record is appended. On error nothing changes. Non-negative stock is preserved. |
| ProductLedger.Ledger.UpdateProduct | database/utils.go:100-148 | Error chain as in the code. On success the row becomes `Updated(row, op)`, and an ADJUST_PRODUCT record with the request's reason is appended. On error nothing changes. Non-negative stock is preserved. |
| ProductLedger.Ledger.CreateProduct | database/utils.go:181-204 | The INSERT fails on a query error or on an id already in use. On success a live row with the request's fields is added under the new id, and a record with the request's type and reason is appended. On error nothing changes. |
| ProductLedger.Ledger.DeleteProduct | database/utils.go:206-237 | Errors: exec fails; RowsAffected fails; no live row with that id (sql.ErrNoRows); record fails; commit fails. On success only the soft-delete mark is set, and a record is appended. On error nothing changes. |
| ProductLedger.ExecProductUpdate | database/utils.go:107-141 | Building and running the statement hits one row iff the id exists. That row becomes `Updated(row, op)`, and nothing else changes. |
| ProductLedger.RunStatement | database/utils.go:133 | Executing the statement BuildUpdate produced, with its parameters, hits one row iff the id exists and turns it into `Updated(row, op)`; other rows are untouched. |
| ProductLedger.ApplyParams | database/utils.go:130-133 | The parameters before the last are assigned, in the order of the SET list, to the row the last parameter selects; the result is `Updated(row, op)` on that row and nothing else. |
| ProductLedger.AddThenRemoveRestores | database/utils.go:34-98 | With no database fault, adding and then removing the same quantity restores the whole products table and appends the two records, in order. |
| ProductLedger.DeleteTwice | database/utils.go:206-237 | With no database fault, a second delete always fails with sql.ErrNoRows. The first succeeds iff the row was live; the table afterwards is the old table with only that row's soft-delete mark set (unchanged otherwise), and only the first can add a record. |

## Left out

- The role hierarchy, policy store and `Enforce` decision belong to the casbin library. They are not part of this model. The registration of `CustomKeyMatch` with the enforcer is commented out in the code.
- JWT parsing and HMAC signature checking are not modelled. They are the `tokenIsValid` parameter of `Authen.Authenticate`. The claims put into the request context are not modelled either.
- The request header is modelled as a string argument. A missing `Authorization` header is the empty string, as `Header.Get` returns it.
- Not modelled: the HTTP handlers, routing, JSON decoding, password hashing, user accounts, and the read queries (`GetAllProducts`, `GetProductByID`, `GetProductsReport`).
- The database is the two tables held as class fields. Connection errors and driver errors are the `Fault` argument, which names the step that fails. Timestamps (`updated_at`, `created_at`) are not modelled, and `deleted_at` is a boolean.
- ProductLedger.Ledger.CreateProduct: the database assigns the new id. Here it is the `newId` argument, and an id already in use stands for a failed INSERT.
- Concurrency is not modelled. Each call runs alone on the tables. This includes the gap between RemoveProductStock's SELECT and its UPDATE.
- Go's `float64` unit price is a `real`, because only its sign is tested.
- Quantities are unbounded integers, and the database's integer range is not modelled. An out-of-range `quantity + $1` or `quantity - $1` (computed by PostgreSQL) makes the UPDATE fail, which the model can express only as `ExecFault`, not as a consequence of the values.
- The SQL text is checked as text. The SQL engine is not modelled beyond the effect of the one UPDATE on the row it selects. That effect is `UpdateQuery.Updated`.
- ProductLedger.Ledger.AddProductStock: non-negative stock is promised only for a non-negative quantity. The code does not check the sign, and a negative quantity can drive stock below zero.
- ProductLedger.Ledger.CreateProduct: non-negative stock is promised only for a non-negative initial quantity, for the same reason.
- `strings.Trim` is modelled for the one-character cutset `"/"` that the matcher uses. `strings.Split` is modelled for a one-character separator.
- The regular expressions `^[0-9]+$` and `^[a-zA-Z0-9_\-\.]+$` are the predicates `IsNumeric` and `IsIdentifier` over ASCII characters. Go's regexp engine itself is not modelled.
