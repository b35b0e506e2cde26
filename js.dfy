/** JavaScript values and plain objects, as far as the resolvers use them. */
module Js {

  datatype Option<T> = None | Some(value: T)

  /** A JavaScript value. Numbers are modelled as integers: the resolvers only
      test them for truthiness, where 0 is the one falsy number. */
  datatype Value =
    | Undefined
    | Null
    | Bool(b: bool)
    | Num(n: int)
    | Str(s: string)
    | Arr(elems: seq<Value>)
    | Obj(props: Props<Value>)

  /** The own enumerable properties of a plain object, in `for…in` order.
      A well-formed object has distinct keys (see DistinctKeys). */
  type Props<T> = seq<(string, T)>

  /** JavaScript's `ToBoolean`: what `if (v)` and `v ? a : b` test. */
  predicate IsTruthy(v: Value) {
    match v
    case Undefined => false
    case Null => false
    case Bool(b) => b
    case Num(n) => n != 0
    case Str(s) => s != ""
    case Arr(_) => true
    case Obj(_) => true
  }

  /** The falsy values are exactly undefined, null, false, 0 and "". */
  lemma FalsyValues(v: Value)
    ensures !IsTruthy(v) <==> v in {Undefined, Null, Bool(false), Num(0), Str("")}
  {
  }

  /** `Object.keys(v).length` for a truthy value: the properties of an object,
      the indices of an array or a string, none for a boolean or a number. */
  function KeyCount(v: Value): (n: nat)
    ensures v.Obj? ==> n == |v.props|
    ensures !v.Obj? && !v.Arr? && !v.Str? ==> n == 0
  {
    match v
    case Obj(props) => |props|
    case Arr(elems) => |elems|
    case Str(s) => |s|
    case _ => 0
  }

  /** The keys of an object, in order. */
  function Keys<T>(o: Props<T>): (ks: seq<string>)
    ensures |ks| == |o|
    ensures forall i :: 0 <= i < |o| ==> ks[i] == o[i].0
  {
    if o == [] then [] else [o[0].0] + Keys(o[1..])
  }

  lemma KeysAppend<T>(a: Props<T>, b: Props<T>)
    ensures Keys(a + b) == Keys(a) + Keys(b)
  {
    assert forall i :: 0 <= i < |a + b| ==> Keys(a + b)[i] == (Keys(a) + Keys(b))[i];
  }

  predicate DistinctKeys<T>(o: Props<T>) {
    forall i, j :: 0 <= i < j < |o| ==> o[i].0 != o[j].0
  }

  /** Reading property `k`: the value of the first entry with that key. */
  function Lookup<T>(o: Props<T>, k: string): (r: Option<T>)
    ensures r.Some? <==> k in Keys(o)
  {
    if o == [] then None
    else if o[0].0 == k then Some(o[0].1)
    else Lookup(o[1..], k)
  }

  /** Appending an entry changes only the lookups of keys the object did not have. */
  lemma {:induction false} LookupAppend<T>(o: Props<T>, k: string, v: T, k': string)
    ensures Lookup(o + [(k, v)], k') ==
            if k' in Keys(o) then Lookup(o, k') else if k' == k then Some(v) else None
  {
    if o != [] {
      assert (o + [(k, v)])[1..] == o[1..] + [(k, v)];
      LookupAppend(o[1..], k, v, k');
    }
  }

  /** In a well-formed object, every entry is what reading its key gives. */
  lemma {:induction false} LookupAt<T>(o: Props<T>, i: nat)
    requires DistinctKeys(o) && i < |o|
    ensures Lookup(o, o[i].0) == Some(o[i].1)
  {
    if i > 0 {
      LookupAt(o[1..], i - 1);
    }
  }

  /** A property read on an object, `undefined` when the key is absent. */
  function Get(o: Props<Value>, k: string): (v: Value)
    ensures k !in Keys(o) ==> v == Undefined
    ensures k in Keys(o) ==> Lookup(o, k) == Some(v)
  {
    match Lookup(o, k)
    case Some(v) => v
    case None => Undefined
  }

  /** In a well-formed object, reading the key of an entry gives that entry's
      value. */
  lemma GetAt(o: Props<Value>, i: nat)
    requires DistinctKeys(o) && i < |o|
    ensures Get(o, o[i].0) == o[i].1
  {
    LookupAt(o, i);
    assert Keys(o)[i] == o[i].0;
  }

  /** A property read `v.k` on a value that is neither null nor undefined:
      only objects have the named properties the resolvers read. */
  function Member(v: Value, k: string): (r: Value)
    ensures !v.Obj? ==> r == Undefined
    ensures v.Obj? ==> r == Get(v.props, k)
  {
    if v.Obj? then Get(v.props, k) else Undefined
  }

  /** The assignment `o[k] = v`: an existing property keeps its place and takes
      the new value, a new property goes at the end. */
  function Put<T>(o: Props<T>, k: string, v: T): (r: Props<T>)
    ensures Lookup(r, k) == Some(v)
    ensures k !in Keys(o) ==> r == o + [(k, v)]
  {
    if o == [] then [(k, v)]
    else if o[0].0 == k then [(k, v)] + o[1..]
    else
      var rest := Put(o[1..], k, v);
      LookupCons(o[0], rest, k);
      SplitFirst(o, [(k, v)]);
      assert Keys(o) == [o[0].0] + Keys(o[1..]);
      [o[0]] + rest
  }

  /** Reading from an object whose first entry is `x`. */
  lemma LookupCons<T>(x: (string, T), rest: Props<T>, k: string)
    ensures Lookup([x] + rest, k) == if x.0 == k then Some(x.1) else Lookup(rest, k)
  {
    assert ([x] + rest)[0] == x && ([x] + rest)[1..] == rest;
  }

  /** The assignment `o[k] = v` leaves every other property as it was, and
      keeps the keys in place when `k` was already there. */
  lemma {:induction false} PutOthers<T>(o: Props<T>, k: string, v: T, k': string)
    requires k' != k
    ensures Lookup(Put(o, k, v), k') == Lookup(o, k')
    ensures k in Keys(o) ==> Keys(Put(o, k, v)) == Keys(o)
  {
    if o != [] && o[0].0 != k {
      PutOthers(o[1..], k, v, k');
      assert Put(o, k, v)[1..] == Put(o[1..], k, v);
    }
  }

  /** The statement `delete o[k]`, and equally what the rest pattern
      `{ k, ...rest }` leaves in `rest`: the other properties, in order. */
  function Delete<T>(o: Props<T>, k: string): (r: Props<T>)
    ensures k !in Keys(r)
    ensures forall k' :: k' != k ==> Lookup(r, k') == Lookup(o, k')
    ensures forall k' :: k' in Keys(r) ==> k' in Keys(o)
    ensures k !in Keys(o) ==> r == o
    ensures DistinctKeys(o) ==> DistinctKeys(r)
  {
    if o == [] then []
    else if o[0].0 == k then Delete(o[1..], k)
    else
      var rest := Delete(o[1..], k);
      assert o[0].0 in Keys(rest) ==> Lookup(rest, o[0].0).Some?;
      [o[0]] + rest
  }

  /** Deleting from a list that starts with `x`. */
  lemma DeleteCons<T>(x: (string, T), rest: Props<T>, k: string)
    ensures Delete([x] + rest, k) == if x.0 == k then Delete(rest, k) else [x] + Delete(rest, k)
  {
    assert ([x] + rest)[0] == x && ([x] + rest)[1..] == rest;
  }

  /** Deleting from a concatenation deletes from each part and keeps the parts
      in order: the remaining properties keep their relative order. */
  lemma {:induction false} DeleteAppend<T>(a: Props<T>, b: Props<T>, k: string)
    ensures Delete(a + b, k) == Delete(a, k) + Delete(b, k)
  {
    if a == [] {
      assert a + b == b;
    } else {
      var x, rest := a[0], a[1..];
      SplitFirst(a, b);
      DeleteCons(x, rest + b, k);
      DeleteCons(x, rest, k);
      DeleteAppend(rest, b, k);
      AppendAssoc([x], Delete(rest, k), Delete(b, k));
    }
  }

  lemma SplitFirst<X>(a: seq<X>, b: seq<X>)
    requires a != []
    ensures a == [a[0]] + a[1..] && a + b == [a[0]] + (a[1..] + b)
  {
    assert a + b == [a[0]] + (a[1..] + b);
  }

  lemma SplitLast<X>(s: seq<X>)
    requires s != []
    ensures s == s[..|s| - 1] + [s[|s| - 1]]
  {
  }

  lemma AppendAssoc<X>(p: seq<X>, q: seq<X>, r: seq<X>)
    ensures p + (q + r) == (p + q) + r
  {
  }
}
