# Books API resolvers: a verified model

This project models two AppSync JavaScript resolvers of the books API:

- **update book**: `appsync/resolvers/booksApi/js/mutationUpdateBook.js`
  - Its `request` step splits the input into the key `{ id }` and the other fields.
  - It builds a condition that the item already exists.
  - Its helper `dynamodbUpdateRequest` turns the fields into a DynamoDB `UpdateItem` operation.
    - A field with a truthy value becomes a `SET #k = :k` assignment with `:k` bound to the value.
    - A field with a falsy value becomes a `REMOVE #k` target.
    - Every field is named `#k`.
    - The compiled condition loses its `expressionValues` entry when that entry is truthy and has no keys. A falsy entry is kept.
  - Its `response` step passes the store's error or result on.
- **list books**: `appsync/resolvers/booksApi/js/queryListBooks.js`
  - Its `request` step builds a `Scan` operation. The page size defaults to 20. A falsy filter becomes `null`.
  - Its `response` step returns `{ items, nextToken }` taken from the store's result. It defaults `items` to `[]` and passes a store error on.

The project has these modules:

- `Js` (`js.dfy`)
  - JavaScript values and `ToBoolean` (`IsTruthy`).
  - Plain objects as sequences of properties in `for…in` order (`Props`).
  - Property read (`Lookup`, `Get`, `Member`), assignment (`Put`) and deletion (`Delete`).
- `AppSync` (`appsync.dfy`)
  - The request context the resolvers read.
  - The opaque results of the platform library `util`.
- `UpdateExpression` (`update_expression.dfy`)
  - The specification of the update builder, one field at a time in input order.
  - This covers the set and removed fields, their clauses, the expression string, `expressionNames` and `expressionValues`.
  - It also holds the lemmas about them.
- `UpdateBook` (`update_book.dfy`)
  - The update-book resolver.
  - Its two `for…in` loops are methods with `while` loops.
  - The field loop `CollectClauses` is proved against the `UpdateExpression` functions.
  - The key loop `ExistenceCondition` is proved to map each key attribute to `{ attributeExists: true }`, in order.
- `ListBooks` (`list_books.dfy`)
  - The list-books resolver, as functions, because the source has no loop or mutation.

## Model

| member | source | states |
|---|---|---|
| UpdateBook.Request | appsync/resolvers/booksApi/js/mutationUpdateBook.js:12-21 | The key is exactly `{ id: input.id }`. The condition compiled is exactly `{ id: { attributeExists: true } }`. The update is the one built from the input without `id`. Neither `#id` nor `:id` is bound. |
| UpdateBook.ExistenceCondition | appsync/resolvers/booksApi/js/mutationUpdateBook.js:16-19 | The condition has the key's attributes, in order, each mapped to `{ attributeExists: true }`. |
| UpdateBook.CollectClauses | appsync/resolvers/booksApi/js/mutationUpdateBook.js:42-60 | After the loop, `sets`, `removes`, `expressionNames` and `expValues` are the clauses and bindings the field-by-field specification gives for all the fields. |
| UpdateBook.BuildUpdateRequest | appsync/resolvers/booksApi/js/mutationUpdateBook.js:39-83 | The operation is `UpdateItem` with the marshalled key. The condition is absent without a condition object; otherwise it is the compiled condition, pruned. The expression, names and marshalled values are those of the specification. |
| UpdateBook.PruneEmptyValues | appsync/resolvers/booksApi/js/mutationUpdateBook.js:69-71 | `expressionValues` survives if and only if it was there and is not a truthy value without keys. Every other property reads as before. A condition without such an entry is unchanged. |
| UpdateBook.RequestIsDeterministic | appsync/resolvers/booksApi/js/mutationUpdateBook.js:12-21 | Two requests on the same arguments give the same operation. |
| UpdateBook.Response | appsync/resolvers/booksApi/js/mutationUpdateBook.js:27-33 | With a store error, the outcome is `appendError(error.message, error.type, result)`. Otherwise it is the result, unchanged. |
| UpdateExpression.PartitionExact | appsync/resolvers/booksApi/js/mutationUpdateBook.js:48-60 | The set fields and the removed fields together are the input's keys, as multisets. |
| UpdateExpression.PartitionSizes | appsync/resolvers/booksApi/js/mutationUpdateBook.js:48-60 | The number of set fields plus the number of removed fields is the number of fields. |
| UpdateExpression.SetFieldsMember | appsync/resolvers/booksApi/js/mutationUpdateBook.js:51-55 | A key is set if and only if it is a field and its value is truthy. |
| UpdateExpression.RemoveFieldsMember | appsync/resolvers/booksApi/js/mutationUpdateBook.js:56-59 | A key is removed if and only if it is a field and its value is falsy. |
| UpdateExpression.PartitionDisjoint | appsync/resolvers/booksApi/js/mutationUpdateBook.js:52-59 | No field is both set and removed. |
| UpdateExpression.PartitionKeepsOrder | appsync/resolvers/booksApi/js/mutationUpdateBook.js:48-60 | The set and removed fields of `a + b` are those of `a` followed by those of `b`, so clauses follow input order. |
| UpdateExpression.SetClausesAt | appsync/resolvers/booksApi/js/mutationUpdateBook.js:54 | There is one `#k = :k` assignment per set field, at the field's position. |
| UpdateExpression.RemoveClausesAt | appsync/resolvers/booksApi/js/mutationUpdateBook.js:58 | There is one `#k` target per removed field, at the field's position. |
| UpdateExpression.AllFalsy | appsync/resolvers/booksApi/js/mutationUpdateBook.js:51-59 | When every value is falsy, nothing is set and every field is removed, in order. |
| UpdateExpression.AllTruthy | appsync/resolvers/booksApi/js/mutationUpdateBook.js:51-59 | When every value is truthy, every field is set, in order, and nothing is removed. |
| UpdateExpression.ExpressionEmptyIff | appsync/resolvers/booksApi/js/mutationUpdateBook.js:62-64 | The expression is `""` if and only if there are no fields. |
| UpdateExpression.RemoveOnlyExpression | appsync/resolvers/booksApi/js/mutationUpdateBook.js:62-64 | When every value is falsy, the expression is `" REMOVE "` (leading space) followed by the targets joined by `", "`. |
| UpdateExpression.SetOnlyExpression | appsync/resolvers/booksApi/js/mutationUpdateBook.js:62-64 | When every value is truthy, the expression is `"SET "` followed by the assignments joined by `", "`. |
| UpdateExpression.SetThenRemoveExample | appsync/resolvers/booksApi/js/mutationUpdateBook.js:48-64 | `{ a: "x", b: null }` gives `SET #a = :a REMOVE #b`, names `#a` and `#b`, and binds only `:a`. |
| UpdateExpression.NameBindingsLookup | appsync/resolvers/booksApi/js/mutationUpdateBook.js:48-50 | `expressionNames[n]` is `k` exactly when `n` is `#k` for a field `k`, set or removed. Every other name is absent. |
| UpdateExpression.NameBindingsAt | appsync/resolvers/booksApi/js/mutationUpdateBook.js:48-50 | `expressionNames` holds one `#k → k` entry per field, in input order. |
| UpdateExpression.ValueBindingsLookup | appsync/resolvers/booksApi/js/mutationUpdateBook.js:52-55 | `expValues[n]` is the value of `k` exactly when `n` is `:k` for a field `k` whose value is truthy. Every other name is absent. |
| UpdateExpression.ValueBindingsAt | appsync/resolvers/booksApi/js/mutationUpdateBook.js:52-55 | `expValues` holds one entry per set field, in the order of the set fields. |
| UpdateExpression.PlaceholderInjective | appsync/resolvers/booksApi/js/mutationUpdateBook.js:50-55 | Distinct fields get distinct `#k` names and distinct `:k` value tokens. |
| Js.Put | appsync/resolvers/booksApi/js/mutationUpdateBook.js:50 | After `o[k] = v`, reading `k` gives `v`. A new key is appended at the end. |
| Js.PutOthers | appsync/resolvers/booksApi/js/mutationUpdateBook.js:55 | `o[k] = v` leaves the other properties' values alone. It keeps the keys in place when `k` was present. |
| Js.Delete | appsync/resolvers/booksApi/js/mutationUpdateBook.js:13 | `{ id, ...values }` and `delete`: the key is gone, every other property reads as before and no key is added. An object without the key is unchanged. Distinct keys stay distinct. |
| Js.DeleteAppend | appsync/resolvers/booksApi/js/mutationUpdateBook.js:13 | Deleting a key from `a + b` gives the deletion from `a` followed by the deletion from `b`. So `{ id, ...values }` keeps the other fields in their input order. |
| Js.FalsyValues | appsync/resolvers/booksApi/js/mutationUpdateBook.js:52 | `if (value)` fails exactly for `undefined`, `null`, `false`, `0` and `""`. |
| Js.KeyCount | appsync/resolvers/booksApi/js/mutationUpdateBook.js:69 | `Object.keys(v).length` of an object is its number of properties. A boolean or number has none. |
| Js.LookupAt | appsync/resolvers/booksApi/js/mutationUpdateBook.js:51 | In an object with distinct keys, reading an entry's key gives that entry's value. |
| Js.GetAt | appsync/resolvers/booksApi/js/mutationUpdateBook.js:48-51 | `values[key]`, read for the key the loop is at, is that entry's own value. `CollectClauses` reads each value this way. |
| ListBooks.Request | appsync/resolvers/booksApi/js/queryListBooks.js:9-12 | The operation is `Scan`. `limit` is 20 when the argument is absent; otherwise it is the given value, `null` included. The caller's `nextToken` is passed on. A falsy filter gives `null`, a truthy one its compiled form. |
| ListBooks.ScanRequestOf | appsync/resolvers/booksApi/js/queryListBooks.js:32-36 | `{ operation: 'Scan', filter, limit, nextToken }`, where `filter` is `null` exactly when the given filter is falsy. |
| ListBooks.Page | appsync/resolvers/booksApi/js/queryListBooks.js:24-25 | The page has exactly the properties `items` and `nextToken`. `items` is `[]` when the result's items are absent; otherwise it is those items, unchanged. `nextToken` is the result's. |
| ListBooks.Response | appsync/resolvers/booksApi/js/queryListBooks.js:18-26 | With a store error, the outcome is `appendError(error.message, error.type, result)` whatever the result holds. Without one, a `null` or `undefined` result throws. Any other result gives the page. |
| ListBooks.ResponseIgnoresArguments | appsync/resolvers/booksApi/js/queryListBooks.js:18-26 | The response does not depend on the arguments, so the `nextToken` returned is the store's and never the caller's. |
| ListBooks.PageDropsOtherFields | appsync/resolvers/booksApi/js/queryListBooks.js:24-25 | Every property of the result other than `items` and `nextToken` is dropped. |

## Left out

- Library calls are not modelled:
  - `util.dynamodb.toMapValues` is the opaque constructor `ToMapValues`. The attribute-value format is not modelled.
  - `util.appendError` is the opaque outcome `ErrorAppended`.
  - `util.transform.toDynamoDBConditionExpression` and `util.transform.toDynamoDBFilterExpression`, each followed by `JSON.parse`, are function parameters. Their output format and JSON round-trips are not modelled.
- The condition compiler's result is taken to be a plain object. Parsing it could in principle give another JSON value.
- `UpdateBook.Request` requires `ctx.args.input` to be an object with distinct keys. The GraphQL schema guarantees this for a mutation's input argument. Destructuring a missing input, which would throw, is not modelled.
- `ctx.error` is modelled as present or absent. An error object is always truthy.
- For numbers, only truthiness is modelled, with integers standing in: `NaN` and `-0` are not modelled.
- String lengths count characters, not UTF-16 code units.
- `for…in` enumerates integer-like keys first. The model enumerates in insertion order, and GraphQL field names cannot be integer-like.
- DynamoDB's own behaviour is the store's and not part of this model. This includes rejecting an empty update expression, scan pagination and consistency.
- `queryGetBook.js` and `mutationDeleteBook.js` are not part of this model. Each is one `toMapValues` call plus the same error handling as `mutationUpdateBook.js`'s `response`.
- The CDK stacks (`lib/*.js`, `bin/*.js`) are declarative infrastructure. Their one computation is an expiry date taken from the clock. They are not part of this model.
- Resolvers the stack refers to whose source is not available are not part of this model.
