/** What the AppSync runtime hands a resolver and what the platform library
    returns. The library's internals are not modelled: its results are opaque
    constructors, and its compilers are parameters of the resolvers. */
module AppSync {
  import opened Js

  /** The result of `util.dynamodb.toMapValues(plain)`: the plain object
      marshalled into DynamoDB attribute values, in a format left open. */
  datatype AttributeMap = ToMapValues(plain: Props<Value>)

  /** The error the store surfaced, `ctx.error`, with its `message` and `type`. */
  datatype StoreError = StoreError(message: string, errorType: string)

  /** The part of the request context the resolvers read: `ctx.args`,
      `ctx.error` (absent when the store call succeeded) and `ctx.result`. */
  datatype Context = Context(args: Props<Value>, error: Option<StoreError>, result: Value)

  /** What a `response` step produces: a value it returns, the value of
      `util.appendError(message, type, data)`, or the `TypeError` that
      destructuring `null` or `undefined` throws. */
  datatype Outcome =
    | Returned(value: Value)
    | ErrorAppended(message: string, errorType: string, data: Value)
    | TypeError
}
