/** The specification of the update-expression builder of the update-book
    resolver: what the `SET` and `REMOVE` clauses, the expression string, the
    attribute-name placeholders and the bound values are for a given set of
    field values, stated one field at a time in input order. */
module UpdateExpression {
  import opened Js

  /** `#k`, the placeholder that stands for attribute name `k`. */
  function Placeholder(k: string): string { "#" + k }

  /** `:k`, the placeholder that stands for the new value of attribute `k`. */
  function ValueToken(k: string): string { ":" + k }

  /** `#k = :k`, the assignment for field `k` in the `SET` clause. */
  function SetClause(k: string): string { Placeholder(k) + " = " + ValueToken(k) }

  /** Distinct fields get distinct `#k` names and distinct `:k` value tokens. */
  lemma PlaceholderInjective(a: string, b: string)
    ensures Placeholder(a) == Placeholder(b) ==> a == b
    ensures ValueToken(a) == ValueToken(b) ==> a == b
  {
    assert Placeholder(a)[1..] == a && Placeholder(b)[1..] == b;
    assert ValueToken(a)[1..] == a && ValueToken(b)[1..] == b;
  }

  /** The fields whose new value is truthy, in input order: they are set. */
  function SetFields(vs: Props<Value>): seq<string>
  {
    if vs == [] then []
    else
      var (k, v) := vs[|vs| - 1];
      SetFields(vs[..|vs| - 1]) + (if IsTruthy(v) then [k] else [])
  }

  /** The fields whose new value is falsy, in input order: they are removed. */
  function RemoveFields(vs: Props<Value>): seq<string>
  {
    if vs == [] then []
    else
      var (k, v) := vs[|vs| - 1];
      RemoveFields(vs[..|vs| - 1]) + (if IsTruthy(v) then [] else [k])
  }

  /** The `SET` assignments of the given fields, one per field, in order. */
  function SetClauses(fields: seq<string>): seq<string>
  {
    if fields == [] then []
    else SetClauses(fields[..|fields| - 1]) + [SetClause(fields[|fields| - 1])]
  }

  /** The `REMOVE` targets of the given fields, one per field, in order. */
  function RemoveClauses(fields: seq<string>): seq<string>
  {
    if fields == [] then []
    else RemoveClauses(fields[..|fields| - 1]) + [Placeholder(fields[|fields| - 1])]
  }

  /** `Array.prototype.join` on strings: the parts with `sep` between them. */
  function Join(parts: seq<string>, sep: string): string
  {
    if |parts| == 0 then ""
    else if |parts| == 1 then parts[0]
    else Join(parts[..|parts| - 1], sep) + sep + parts[|parts| - 1]
  }

  /** The expression made of the `SET` assignments and the `REMOVE` targets:
      each clause only when it has entries, the `REMOVE` clause always
      introduced by a space. */
  function Expression(sets: seq<string>, removes: seq<string>): string
  {
    (if |sets| > 0 then "SET " + Join(sets, ", ") else "")
    + (if |removes| > 0 then " REMOVE " + Join(removes, ", ") else "")
  }

  /** The update expression for the field values `vs`. */
  function UpdateExpressionOf(vs: Props<Value>): string
  {
    Expression(SetClauses(SetFields(vs)), RemoveClauses(RemoveFields(vs)))
  }

  /** The `expressionNames` object: `#k` names `k` for every field, set or removed. */
  function NameBindings(vs: Props<Value>): Props<string>
  {
    if vs == [] then []
    else
      var k := vs[|vs| - 1].0;
      NameBindings(vs[..|vs| - 1]) + [(Placeholder(k), k)]
  }

  /** The `expressionValues` object before marshalling: `:k` is bound to the
      new value of every field that is set. */
  function ValueBindings(vs: Props<Value>): Props<Value>
  {
    if vs == [] then []
    else
      var (k, v) := vs[|vs| - 1];
      ValueBindings(vs[..|vs| - 1]) + (if IsTruthy(v) then [(ValueToken(k), v)] else [])
  }

  // ---------------------------------------------------------------------------
  // One field more

  lemma FieldsAppend(done: Props<Value>, k: string, v: Value)
    ensures SetFields(done + [(k, v)]) == SetFields(done) + (if IsTruthy(v) then [k] else [])
    ensures RemoveFields(done + [(k, v)]) == RemoveFields(done) + (if IsTruthy(v) then [] else [k])
    ensures NameBindings(done + [(k, v)]) == NameBindings(done) + [(Placeholder(k), k)]
    ensures ValueBindings(done + [(k, v)]) ==
            ValueBindings(done) + (if IsTruthy(v) then [(ValueToken(k), v)] else [])
  {
    var vs := done + [(k, v)];
    assert vs[..|vs| - 1] == done;
  }

  lemma ClausesAppend(fields: seq<string>, k: string)
    ensures SetClauses(fields + [k]) == SetClauses(fields) + [SetClause(k)]
    ensures RemoveClauses(fields + [k]) == RemoveClauses(fields) + [Placeholder(k)]
  {
    var fs := fields + [k];
    assert fs[..|fs| - 1] == fields;
  }

  /** In a well-formed object, the key of entry `i` is new among the entries
      before it, and those entries form a well-formed object too. */
  lemma FreshKey(vs: Props<Value>, i: nat)
    requires DistinctKeys(vs) && i < |vs|
    ensures vs[i].0 !in Keys(vs[..i]) && DistinctKeys(vs[..i])
  {
  }

  /** Naming field `i` of `vs`, whose key is new among the fields before it,
      appends its name binding. */
  lemma NameStep(vs: Props<Value>, i: nat)
    requires i < |vs| && vs[i].0 !in Keys(vs[..i])
    ensures Put(NameBindings(vs[..i]), Placeholder(vs[i].0), vs[i].0) == NameBindings(vs[..i + 1])
  {
    var (k, v) := vs[i];
    assert vs[..i + 1] == vs[..i] + [(k, v)];
    FieldsAppend(vs[..i], k, v);
    NameBindingsLookup(vs[..i], Placeholder(k));
    assert Placeholder(k)[1..] == k;
  }

  /** Field `i` of `vs`, whose key is new among the fields before it, appends
      its value binding when its value is truthy and adds none otherwise. */
  lemma ValueStep(vs: Props<Value>, i: nat)
    requires i < |vs| && DistinctKeys(vs[..i]) && vs[i].0 !in Keys(vs[..i])
    ensures IsTruthy(vs[i].1) ==>
              Put(ValueBindings(vs[..i]), ValueToken(vs[i].0), vs[i].1) == ValueBindings(vs[..i + 1])
    ensures !IsTruthy(vs[i].1) ==> ValueBindings(vs[..i]) == ValueBindings(vs[..i + 1])
  {
    var (k, v) := vs[i];
    assert vs[..i + 1] == vs[..i] + [(k, v)];
    FieldsAppend(vs[..i], k, v);
    if IsTruthy(v) {
      ValueBindingsLookup(vs[..i], ValueToken(k));
      assert ValueToken(k)[1..] == k;
    }
  }

  /** Field `i` of `vs` adds its clause to the end of the `SET` or the
      `REMOVE` list. */
  lemma ClauseStep(vs: Props<Value>, i: nat)
    requires i < |vs|
    ensures SetClauses(SetFields(vs[..i])) + (if IsTruthy(vs[i].1) then [SetClause(vs[i].0)] else [])
            == SetClauses(SetFields(vs[..i + 1]))
    ensures RemoveClauses(RemoveFields(vs[..i])) + (if IsTruthy(vs[i].1) then [] else [Placeholder(vs[i].0)])
            == RemoveClauses(RemoveFields(vs[..i + 1]))
  {
    var (k, v) := vs[i];
    var done := vs[..i];
    assert vs[..i + 1] == done + [(k, v)];
    FieldsAppend(done, k, v);
    if IsTruthy(v) {
      ClausesAppend(SetFields(done), k);
      assert RemoveFields(done) + [] == RemoveFields(done);
    } else {
      ClausesAppend(RemoveFields(done), k);
      assert SetFields(done) + [] == SetFields(done);
    }
  }

  // ---------------------------------------------------------------------------
  // The partition of the fields into set and removed ones

  lemma KeysLast(vs: Props<Value>)
    requires vs != []
    ensures Keys(vs) == Keys(vs[..|vs| - 1]) + [vs[|vs| - 1].0]
  {
    SplitLast(vs);
    KeysAppend(vs[..|vs| - 1], [vs[|vs| - 1]]);
  }

  /** Every field lands in exactly one of the two clauses: together they hold
      the keys of the input, each as often as the input has it. */
  lemma {:induction false} PartitionExact(vs: Props<Value>)
    ensures multiset(SetFields(vs)) + multiset(RemoveFields(vs)) == multiset(Keys(vs))
  {
    if vs != [] {
      var init, last := vs[..|vs| - 1], vs[|vs| - 1];
      PartitionExact(init);
      var added := multiset{last.0};
      assert multiset(Keys(vs)) == multiset(Keys(init)) + added by {
        KeysLast(vs);
      }
      if IsTruthy(last.1) {
        assert multiset(SetFields(vs)) == multiset(SetFields(init)) + added;
        assert multiset(RemoveFields(vs)) == multiset(RemoveFields(init));
      } else {
        assert multiset(SetFields(vs)) == multiset(SetFields(init));
        assert multiset(RemoveFields(vs)) == multiset(RemoveFields(init)) + added;
      }
    }
  }

  /** There are as many clauses as fields. */
  lemma {:induction false} PartitionSizes(vs: Props<Value>)
    ensures |SetFields(vs)| + |RemoveFields(vs)| == |vs|
  {
    if vs != [] {
      PartitionSizes(vs[..|vs| - 1]);
    }
  }

  /** A field is set if and only if its new value is truthy. */
  lemma {:induction false} SetFieldsMember(vs: Props<Value>, k: string)
    requires DistinctKeys(vs)
    ensures k in SetFields(vs) <==> k in Keys(vs) && IsTruthy(Get(vs, k))
  {
    if vs != [] {
      var init, last := vs[..|vs| - 1], vs[|vs| - 1];
      assert vs == init + [last];
      SetFieldsMember(init, k);
      KeysLast(vs);
      LookupAppend(init, last.0, last.1, k);
      assert last.0 !in Keys(init);
    }
  }

  /** A field is removed if and only if its new value is falsy. */
  lemma {:induction false} RemoveFieldsMember(vs: Props<Value>, k: string)
    requires DistinctKeys(vs)
    ensures k in RemoveFields(vs) <==> k in Keys(vs) && !IsTruthy(Get(vs, k))
  {
    if vs != [] {
      var init, last := vs[..|vs| - 1], vs[|vs| - 1];
      assert vs == init + [last];
      RemoveFieldsMember(init, k);
      KeysLast(vs);
      LookupAppend(init, last.0, last.1, k);
      assert last.0 !in Keys(init);
    }
  }

  /** No field is both set and removed. */
  lemma PartitionDisjoint(vs: Props<Value>, k: string)
    requires DistinctKeys(vs)
    ensures !(k in SetFields(vs) && k in RemoveFields(vs))
  {
    SetFieldsMember(vs, k);
    RemoveFieldsMember(vs, k);
  }

  /** The partition keeps input order: the fields of a longer input follow
      those of its prefix in both clauses. */
  lemma {:induction false} PartitionKeepsOrder(a: Props<Value>, b: Props<Value>)
    ensures SetFields(a + b) == SetFields(a) + SetFields(b)
    ensures RemoveFields(a + b) == RemoveFields(a) + RemoveFields(b)
  {
    if b == [] {
      assert a + b == a;
    } else {
      var init, last := b[..|b| - 1], b[|b| - 1];
      PartitionKeepsOrder(a, init);
      var setPart := if IsTruthy(last.1) then [last.0] else [];
      var removePart := if IsTruthy(last.1) then [] else [last.0];
      assert SetFields(a + b) == SetFields(a + init) + setPart
          && RemoveFields(a + b) == RemoveFields(a + init) + removePart by {
        assert (a + b)[..|a + b| - 1] == a + init;
      }
      AppendAssoc(SetFields(a), SetFields(init), setPart);
      AppendAssoc(RemoveFields(a), RemoveFields(init), removePart);
    }
  }

  // ---------------------------------------------------------------------------
  // The clauses and the expression string

  /** There is one `SET` assignment `#k = :k` per set field, in order. */
  lemma {:induction false} SetClausesAt(fields: seq<string>, i: nat)
    requires i < |fields|
    ensures |SetClauses(fields)| == |fields|
    ensures SetClauses(fields)[i] == SetClause(fields[i])
  {
    if i < |fields| - 1 {
      SetClausesAt(fields[..|fields| - 1], i);
    } else if |fields| > 1 {
      SetClausesAt(fields[..|fields| - 1], 0);
    }
  }

  /** There is one `REMOVE` target `#k` per removed field, in order. */
  lemma {:induction false} RemoveClausesAt(fields: seq<string>, i: nat)
    requires i < |fields|
    ensures |RemoveClauses(fields)| == |fields|
    ensures RemoveClauses(fields)[i] == Placeholder(fields[i])
  {
    if i < |fields| - 1 {
      RemoveClausesAt(fields[..|fields| - 1], i);
    } else if |fields| > 1 {
      RemoveClausesAt(fields[..|fields| - 1], 0);
    }
  }

  /** The expression is empty exactly when there are no fields at all. */
  lemma ExpressionEmptyIff(vs: Props<Value>)
    ensures UpdateExpressionOf(vs) == "" <==> vs == []
  {
    PartitionSizes(vs);
    var sets, removes := SetFields(vs), RemoveFields(vs);
    var e := Expression(SetClauses(sets), RemoveClauses(removes));
    assert UpdateExpressionOf(vs) == e;
    if sets != [] {
      SetClausesAt(sets, 0);
      assert |e| >= 4;
    } else if removes != [] {
      RemoveClausesAt(removes, 0);
      assert |e| >= 8;
    } else {
      assert SetClauses(sets) == [] && RemoveClauses(removes) == [];
    }
  }

  lemma {:induction false} AllFalsy(vs: Props<Value>)
    requires forall i :: 0 <= i < |vs| ==> !IsTruthy(vs[i].1)
    ensures SetFields(vs) == [] && RemoveFields(vs) == Keys(vs)
  {
    if vs != [] {
      AllFalsy(vs[..|vs| - 1]);
      KeysLast(vs);
    }
  }

  lemma {:induction false} AllTruthy(vs: Props<Value>)
    requires forall i :: 0 <= i < |vs| ==> IsTruthy(vs[i].1)
    ensures SetFields(vs) == Keys(vs) && RemoveFields(vs) == []
  {
    if vs != [] {
      AllTruthy(vs[..|vs| - 1]);
      KeysLast(vs);
    }
  }

  /** When every field is cleared, there is no `SET` clause and the expression
      starts with the space that introduces `REMOVE`. */
  lemma RemoveOnlyExpression(vs: Props<Value>)
    requires vs != []
    requires forall i :: 0 <= i < |vs| ==> !IsTruthy(vs[i].1)
    ensures UpdateExpressionOf(vs) == " REMOVE " + Join(RemoveClauses(Keys(vs)), ", ")
  {
    AllFalsy(vs);
  }

  /** When every field is set, there is only the `SET` clause. */
  lemma SetOnlyExpression(vs: Props<Value>)
    requires vs != []
    requires forall i :: 0 <= i < |vs| ==> IsTruthy(vs[i].1)
    ensures UpdateExpressionOf(vs) == "SET " + Join(SetClauses(Keys(vs)), ", ")
  {
    AllTruthy(vs);
  }

  /** Setting `a` and clearing `b` gives `SET #a = :a REMOVE #b`, names both
      and binds only `:a`. */
  lemma SetThenRemoveExample()
    ensures UpdateExpressionOf([("a", Str("x")), ("b", Null)]) == "SET #a = :a REMOVE #b"
    ensures NameBindings([("a", Str("x")), ("b", Null)]) == [("#a", "a"), ("#b", "b")]
    ensures ValueBindings([("a", Str("x")), ("b", Null)]) == [(":a", Str("x"))]
  {
    var vs: Props<Value> := [("a", Str("x")), ("b", Null)];
    assert vs[..1] == [("a", Str("x"))];
    assert vs[..1][..0] == [];
    assert SetFields(vs) == ["a"];
    assert RemoveFields(vs) == ["b"];
    assert ["a"][..0] == [] && ["b"][..0] == [];
    var first: Props<Value> := [("a", Str("x"))];
    assert vs[..1] == first && first[..0] == [];
    assert Placeholder("a") == "#a" && Placeholder("b") == "#b" && ValueToken("a") == ":a";
    assert NameBindings(first) == [("#a", "a")];
    assert ValueBindings(first) == [(":a", Str("x"))];
  }

  // ---------------------------------------------------------------------------
  // The attribute names and the bound values

  /** `expressionNames` maps `#k` to `k` for every field `k` of the input,
      set or removed, and has no other entry. */
  lemma {:induction false} NameBindingsLookup(vs: Props<Value>, n: string)
    ensures Lookup(NameBindings(vs), n) ==
            if |n| > 0 && n[0] == '#' && n[1..] in Keys(vs) then Some(n[1..]) else None
  {
    if vs != [] {
      var init, k := vs[..|vs| - 1], vs[|vs| - 1].0;
      NameBindingsLookup(init, n);
      LookupAppend(NameBindings(init), Placeholder(k), k, n);
      KeysLast(vs);
      assert Placeholder(k)[1..] == k;
    }
  }

  /** `expressionNames` lists the names in input order, one per field. */
  lemma {:induction false} NameBindingsAt(vs: Props<Value>, i: nat)
    requires i < |vs|
    ensures |NameBindings(vs)| == |vs|
    ensures NameBindings(vs)[i] == (Placeholder(vs[i].0), vs[i].0)
  {
    if i < |vs| - 1 {
      NameBindingsAt(vs[..|vs| - 1], i);
    } else if |vs| > 1 {
      NameBindingsAt(vs[..|vs| - 1], 0);
    }
  }

  /** What reading the `:`-placeholder `n` of the input should give: the new
      value of the field `n` names, when that field is set. */
  function BoundValue(vs: Props<Value>, n: string): Option<Value>
  {
    if |n| > 0 && n[0] == ':' && n[1..] in Keys(vs) && IsTruthy(Get(vs, n[1..]))
    then Some(Get(vs, n[1..])) else None
  }

  /** `expressionValues` binds `:k` to the new value of `k` exactly when `k`
      is a field of the input whose new value is truthy; removed fields bind
      nothing. */
  lemma {:induction false} ValueBindingsLookup(vs: Props<Value>, n: string)
    requires DistinctKeys(vs)
    ensures Lookup(ValueBindings(vs), n) == BoundValue(vs, n)
  {
    if vs != [] {
      var init, last := vs[..|vs| - 1], vs[|vs| - 1];
      FreshKey(vs, |vs| - 1);
      ValueBindingsLookup(init, n);
      ValueBindingsStep(init, last.0, last.1, n);
      SplitLast(vs);
    }
  }

  /** One step of ValueBindingsLookup: adding a field with a fresh key. */
  lemma ValueBindingsStep(init: Props<Value>, k: string, v: Value, n: string)
    requires k !in Keys(init)
    requires Lookup(ValueBindings(init), n) == BoundValue(init, n)
    ensures Lookup(ValueBindings(init + [(k, v)]), n) == BoundValue(init + [(k, v)], n)
  {
    var vs := init + [(k, v)];
    var before := ValueBindings(init);
    assert ValueBindings(vs) == before + (if IsTruthy(v) then [(ValueToken(k), v)] else []) by {
      assert vs[..|vs| - 1] == init;
    }
    assert Keys(vs) == Keys(init) + [k] by {
      KeysAppend(init, [(k, v)]);
    }
    if |n| > 0 && n[0] == ':' {
      GetAppend(init, k, v, n[1..]);
      if n[1..] == k {
        BoundNewField(init, k, v, n);
      } else {
        BoundOldField(init, k, v, n);
      }
    } else {
      assert ValueToken(k)[0] == ':';
    }
    if IsTruthy(v) {
      LookupAppend(before, ValueToken(k), v, n);
    } else {
      assert ValueBindings(vs) == before;
    }
  }

  lemma BoundNewField(init: Props<Value>, k: string, v: Value, n: string)
    requires k !in Keys(init) && |n| > 0 && n[0] == ':' && n[1..] == k
    requires Lookup(ValueBindings(init), n) == BoundValue(init, n)
    requires Keys(init + [(k, v)]) == Keys(init) + [k]
    requires Get(init + [(k, v)], k) == v
    ensures n == ValueToken(k) && Lookup(ValueBindings(init), n) == None
    ensures BoundValue(init + [(k, v)], n) == if IsTruthy(v) then Some(v) else None
  {
    assert n == ValueToken(n[1..]);
  }

  lemma BoundOldField(init: Props<Value>, k: string, v: Value, n: string)
    requires |n| > 0 && n[0] == ':' && n[1..] != k
    requires Keys(init + [(k, v)]) == Keys(init) + [k]
    requires Get(init + [(k, v)], n[1..]) == Get(init, n[1..])
    ensures n != ValueToken(k)
    ensures BoundValue(init + [(k, v)], n) == BoundValue(init, n)
  {
    PlaceholderInjective(n[1..], k);
    assert n == ValueToken(n[1..]);
  }

  lemma GetAppend(o: Props<Value>, k: string, v: Value, k': string)
    ensures Get(o + [(k, v)], k') ==
            if k' in Keys(o) then Get(o, k') else if k' == k then v else Undefined
  {
    LookupAppend(o, k, v, k');
  }

  lemma {:induction false} ValueBindingsLength(vs: Props<Value>)
    ensures |ValueBindings(vs)| == |SetFields(vs)|
  {
    if vs != [] {
      ValueBindingsLength(vs[..|vs| - 1]);
    }
  }

  /** `expressionValues` has one entry per set field, in the same order. */
  lemma {:induction false} ValueBindingsAt(vs: Props<Value>, i: nat)
    requires i < |SetFields(vs)|
    ensures |ValueBindings(vs)| == |SetFields(vs)|
    ensures ValueBindings(vs)[i].0 == ValueToken(SetFields(vs)[i])
  {
    var init := vs[..|vs| - 1];
    ValueBindingsLength(vs);
    ValueBindingsLength(init);
    if i < |SetFields(init)| {
      ValueBindingsAt(init, i);
    }
  }
}
