/** The update-book resolver: `request` builds a DynamoDB `UpdateItem`
    operation that sets the fields given a truthy value, removes the fields
    given a falsy one, and only applies when the item already exists;
    `response` passes the store's result or error on. */
module UpdateBook {
  import opened Js
  import opened AppSync
  import opened UpdateExpression

  /** The `update` part of the operation. */
  datatype UpdateClause = UpdateClause(
    expression: string,
    expressionNames: Props<string>,
    expressionValues: AttributeMap)

  /** The operation descriptor handed to the DynamoDB data source;
      `condition` is absent when no condition object was given. */
  datatype UpdateItemRequest = UpdateItemRequest(
    operation: string,
    key: AttributeMap,
    condition: Option<Props<Value>>,
    update: UpdateClause)

  /** `{ attributeExists: true }`, the condition that an attribute is present. */
  const AttributeExists: Value := Obj([("attributeExists", Bool(true))])

  /** Whether a compiled condition carries a truthy `expressionValues`
      with no keys. */
  predicate HasEmptyValues(c: Props<Value>) {
    var ev := Get(c, "expressionValues");
    IsTruthy(ev) && KeyCount(ev) == 0
  }

  /** The compiled condition as sent: an `expressionValues` entry without keys
      is dropped, and nothing else changes. */
  function PruneEmptyValues(c: Props<Value>): (r: Props<Value>)
    ensures "expressionValues" in Keys(r) <==> "expressionValues" in Keys(c) && !HasEmptyValues(c)
    ensures forall k :: k != "expressionValues" ==> Lookup(r, k) == Lookup(c, k)
    ensures !HasEmptyValues(c) ==> r == c
  {
    if HasEmptyValues(c) then Delete(c, "expressionValues") else c
  }

  /** The condition that every key attribute already exists, built one key
      attribute at a time. */
  method ExistenceCondition(key: Props<Value>) returns (condition: Props<Value>)
    requires DistinctKeys(key)
    ensures Keys(condition) == Keys(key)
    ensures forall i :: 0 <= i < |condition| ==> condition[i].1 == AttributeExists
  {
    condition := [];
    var i := 0;
    while i < |key|
      invariant 0 <= i <= |key|
      invariant |condition| == i
      invariant forall j :: 0 <= j < i ==> condition[j] == (key[j].0, AttributeExists)
    {
      var k := key[i].0;
      assert k !in Keys(condition);
      condition := Put(condition, k, AttributeExists);
      i := i + 1;
    }
    assert forall j :: 0 <= j < |key| ==> Keys(condition)[j] == Keys(key)[j];
  }

  /** The `for…in` loop of the builder: each field is named; a truthy one
      gets an assignment and a bound value, a falsy one becomes a removal. */
  method CollectClauses(values: Props<Value>)
    returns (sets: seq<string>, removes: seq<string>, expressionNames: Props<string>, expValues: Props<Value>)
    requires DistinctKeys(values)
    ensures sets == SetClauses(SetFields(values))
    ensures removes == RemoveClauses(RemoveFields(values))
    ensures expressionNames == NameBindings(values)
    ensures expValues == ValueBindings(values)
  {
    sets, removes, expressionNames, expValues := [], [], [], [];
    var i := 0;
    assert values[..0] == [];
    while i < |values|
      invariant 0 <= i <= |values|
      invariant sets == SetClauses(SetFields(values[..i]))
      invariant removes == RemoveClauses(RemoveFields(values[..i]))
      invariant expressionNames == NameBindings(values[..i])
      invariant expValues == ValueBindings(values[..i])
    {
      var k := values[i].0;
      GetAt(values, i);
      var value := Get(values, k);
      FreshKey(values, i);
      NameStep(values, i);
      ClauseStep(values, i);
      ValueStep(values, i);
      expressionNames := Put(expressionNames, Placeholder(k), k);
      if IsTruthy(value) {
        sets := sets + [SetClause(k)];
        expValues := Put(expValues, ValueToken(k), value);
      } else {
        removes := removes + [Placeholder(k)];
      }
      i := i + 1;
    }
    assert values[..i] == values;
  }

  /** `dynamodbUpdateRequest`: the `UpdateItem` operation for the item at
      `key`, with the update built from `values` and, when a condition object
      is given, that condition compiled (`compile` is the platform's condition
      compiler followed by `JSON.parse`) and pruned. */
  method BuildUpdateRequest(
    key: Props<Value>,
    values: Props<Value>,
    inCondition: Option<Props<Value>>,
    compile: Props<Value> -> Props<Value>)
    returns (r: UpdateItemRequest)
    requires DistinctKeys(values)
    ensures r.operation == "UpdateItem"
    ensures r.key == ToMapValues(key)
    ensures r.condition == match inCondition
                           case None => None
                           case Some(c) => Some(PruneEmptyValues(compile(c)))
    ensures r.update.expression == UpdateExpressionOf(values)
    ensures r.update.expressionNames == NameBindings(values)
    ensures r.update.expressionValues == ToMapValues(ValueBindings(values))
  {
    var sets, removes, expressionNames, expValues := CollectClauses(values);

    var expression := "";
    expression := expression + (if |sets| > 0 then "SET " + Join(sets, ", ") else "");
    assert expression == if |sets| > 0 then "SET " + Join(sets, ", ") else "";
    expression := expression + (if |removes| > 0 then " REMOVE " + Join(removes, ", ") else "");
    assert expression == Expression(sets, removes);

    var condition: Option<Props<Value>> := None;
    if inCondition.Some? {
      condition := Some(PruneEmptyValues(compile(inCondition.value)));
    }

    r := UpdateItemRequest(
      "UpdateItem",
      ToMapValues(key),
      condition,
      UpdateClause(expression, expressionNames, ToMapValues(expValues)));
  }

  /** The `request` step: the key is `{ id }`, the condition requires `id` to
      exist, and every other input field is set or removed. */
  method Request(args: Props<Value>, compile: Props<Value> -> Props<Value>)
    returns (r: UpdateItemRequest)
    requires Get(args, "input").Obj? && DistinctKeys(Get(args, "input").props)
    ensures var input := Get(args, "input").props;
            var values := Delete(input, "id");
            && r.operation == "UpdateItem"
            && r.key == ToMapValues([("id", Get(input, "id"))])
            && r.condition == Some(PruneEmptyValues(compile([("id", AttributeExists)])))
            && r.update.expression == UpdateExpressionOf(values)
            && r.update.expressionNames == NameBindings(values)
            && r.update.expressionValues == ToMapValues(ValueBindings(values))
    ensures Lookup(r.update.expressionNames, "#id") == None
    ensures Lookup(r.update.expressionValues.plain, ":id") == None
  {
    var input := Get(args, "input").props;
    var id := Get(input, "id");
    var values := Delete(input, "id");
    var key := [("id", id)];
    var condition := ExistenceCondition(key);
    assert |condition| == 1 && condition[0] == ("id", AttributeExists);
    assert condition == [("id", AttributeExists)];
    r := BuildUpdateRequest(key, values, Some(condition), compile);
    NameBindingsLookup(values, "#id");
    ValueBindingsLookup(values, ":id");
    assert "#id"[1..] == "id" && ":id"[1..] == "id";
  }

  /** Running `request` twice on the same arguments gives the same operation. */
  method RequestIsDeterministic(args: Props<Value>, compile: Props<Value> -> Props<Value>)
    returns (first: UpdateItemRequest, second: UpdateItemRequest)
    requires Get(args, "input").Obj? && DistinctKeys(Get(args, "input").props)
    ensures first == second
  {
    first := Request(args, compile);
    second := Request(args, compile);
  }

  /** The `response` step: the store's error, when there is one, is appended
      to whatever result came back; otherwise the result is returned as is. */
  function Response(ctx: Context): (r: Outcome)
    ensures ctx.error.Some? ==>
              r == ErrorAppended(ctx.error.value.message, ctx.error.value.errorType, ctx.result)
    ensures ctx.error.None? ==> r == Returned(ctx.result)
  {
    match ctx.error
    case Some(error) => ErrorAppended(error.message, error.errorType, ctx.result)
    case None => Returned(ctx.result)
  }
}
