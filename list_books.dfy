/** The list-books resolver: `request` builds a DynamoDB `Scan` from the
    optional filter, page size and continuation cursor; `response` returns
    one page of items with the store's cursor, or passes the store's error on. */
module ListBooks {
  import opened Js
  import opened AppSync

  /** The page size used when the caller gives none. */
  const DefaultLimit: int := 20

  /** The operation descriptor handed to the DynamoDB data source. */
  datatype ScanRequest = ScanRequest(operation: string, filter: Value, limit: Value, nextToken: Value)

  /** `dynamoDBScanRequest`: a truthy filter is compiled (`compileFilter` is
      the platform's filter compiler followed by `JSON.parse`), anything else
      means no filter; page size and cursor are passed on as given. */
  function ScanRequestOf(f: Value, limit: Value, nextToken: Value, compileFilter: Value -> Value)
    : (r: ScanRequest)
    ensures r.operation == "Scan"
    ensures !IsTruthy(f) ==> r.filter == Null
    ensures IsTruthy(f) ==> r.filter == compileFilter(f)
    ensures r.limit == limit && r.nextToken == nextToken
  {
    var filter := if IsTruthy(f) then compileFilter(f) else Null;
    ScanRequest("Scan", filter, limit, nextToken)
  }

  /** The `request` step. The page size defaults to 20 only when the argument
      is absent (`undefined`); any supplied value, `null` included, is kept. */
  function Request(args: Props<Value>, compileFilter: Value -> Value): (r: ScanRequest)
    ensures r.operation == "Scan"
    ensures Get(args, "limit") == Undefined ==> r.limit == Num(DefaultLimit)
    ensures Get(args, "limit") != Undefined ==> r.limit == Get(args, "limit")
    ensures r.nextToken == Get(args, "nextToken")
    ensures !IsTruthy(Get(args, "filter")) ==> r.filter == Null
    ensures IsTruthy(Get(args, "filter")) ==> r.filter == compileFilter(Get(args, "filter"))
  {
    var limit := match Get(args, "limit")
                 case Undefined => Num(DefaultLimit)
                 case given => given;
    ScanRequestOf(Get(args, "filter"), limit, Get(args, "nextToken"), compileFilter)
  }

  /** The page returned on success: the result's items, or `[]` when it has
      none, and the result's cursor. */
  function Page(result: Value): (page: Value)
    requires !result.Null? && !result.Undefined?
    ensures page.Obj? && Keys(page.props) == ["items", "nextToken"]
    ensures Member(result, "items") == Undefined ==> Get(page.props, "items") == Arr([])
    ensures Member(result, "items") != Undefined ==> Get(page.props, "items") == Member(result, "items")
    ensures Get(page.props, "nextToken") == Member(result, "nextToken")
  {
    var items := match Member(result, "items")
                 case Undefined => Arr([])
                 case given => given;
    var props := [("items", items), ("nextToken", Member(result, "nextToken"))];
    assert props[1..] == [("nextToken", Member(result, "nextToken"))];
    assert Keys(props) == ["items", "nextToken"];
    assert Get(props, "items") == items;
    assert "items" != "nextToken" by { assert |"items"| != |"nextToken"|; }
    assert Lookup(props, "nextToken") == Lookup(props[1..], "nextToken");
    Obj(props)
  }

  /** The `response` step. A store error is appended to whatever result came
      back; without one, destructuring a `null` or `undefined` result throws,
      and any other result is reshaped into a page. */
  function Response(ctx: Context): (r: Outcome)
    ensures ctx.error.Some? ==>
              r == ErrorAppended(ctx.error.value.message, ctx.error.value.errorType, ctx.result)
    ensures ctx.error.None? && (ctx.result.Null? || ctx.result.Undefined?) ==> r == TypeError
    ensures ctx.error.None? && !ctx.result.Null? && !ctx.result.Undefined? ==>
              r == Returned(Page(ctx.result))
  {
    match ctx.error
    case Some(error) => ErrorAppended(error.message, error.errorType, ctx.result)
    case None =>
      if ctx.result.Null? || ctx.result.Undefined? then TypeError
      else Returned(Page(ctx.result))
  }

  /** The cursor in the response is the store's, never the caller's: the
      response does not read the arguments, so a caller's `nextToken` is not
      echoed even when the store returns none. */
  lemma ResponseIgnoresArguments(ctx: Context, args: Props<Value>)
    ensures Response(ctx.(args := args)) == Response(ctx)
  {
  }

  /** A successful page has exactly the two properties `items` and
      `nextToken`: any other property of the result is dropped. */
  lemma PageDropsOtherFields(result: Value, k: string)
    requires !result.Null? && !result.Undefined?
    requires k != "items" && k != "nextToken"
    ensures Get(Page(result).props, k) == Undefined
  {
  }
}
