/**
 * What a route handler sends back, and the normalisation of the `sortBy` and
 * `order` query parameters that the listing routes interpolate into their
 * ORDER BY clause.
 */
module Http {
  import opened JsValues
  import opened Validation

  /** The JSON body of a reply: `{ message }`, `{ errors }` or a payload. */
  datatype Body<T> = Message(text: string) | Errors(errors: seq<FieldError>) | Json(value: T)

  datatype Reply<T> = Reply(status: int, body: Body<T>)

  const StatusOk := 200
  const StatusCreated := 201
  const StatusBadRequest := 400
  const StatusNotFound := 404
  const StatusServerError := 500

  /** The reply of every catch block. */
  function ServerError<T>(): Reply<T>
  {
    Reply(StatusServerError, Message("Server error"))
  }

  /** The column and direction spliced into `ORDER BY ${sort} ${ord}`. */
  datatype OrderBy = OrderBy(column: string, direction: string)

  /** `sortAllowed.includes(sortBy) ? sortBy : 'name'`, with `sortBy`
      defaulting to 'name' when the query omits it. */
  function SortColumn(sortBy: Option<string>, allowed: seq<string>): (col: string)
    requires "name" in allowed
    ensures col in allowed
    ensures sortBy.Some? && sortBy.value in allowed ==> col == sortBy.value
    ensures !(sortBy.Some? && sortBy.value in allowed) ==> col == "name"
  {
    var s := if sortBy.Some? then sortBy.value else "name";
    if s in allowed then s else "name"
  }

  /** `order.toLowerCase() === 'desc' ? 'DESC' : 'ASC'`, with `order`
      defaulting to 'asc'. */
  function SortDirection(order: Option<string>): (dir: string)
    ensures dir == "ASC" || dir == "DESC"
    ensures dir == "DESC" <==> order.Some? && LowersToDesc(order.value)
  {
    var o := if order.Some? then order.value else "asc";
    if LowersToDesc(o) then "DESC" else "ASC"
  }
}
