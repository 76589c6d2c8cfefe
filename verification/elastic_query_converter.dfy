/** `convertQuery` of `search-index/elastic/query-converter.ts`: a
    repository query rewritten into an Elasticsearch query. A level holding a
    logical operator must hold nothing else; every other property becomes
    term, terms, range, regexp and match clauses of a bool query. The
    `BoolQueryBuilder` is modelled as the three clause lists it collects. */
module ElasticQueryConverter {
  import opened Wrappers
  import opened JsValue
  import JsObject

  datatype EQuery =
    | MatchAll
    | BoolQuery(must: seq<EQuery>, should: seq<EQuery>, mustNot: seq<EQuery>)
    | Term(field: string, value: Json)
    | Terms(field: string, values: Json)
    | Range(field: string, lt: Option<Json>, lte: Option<Json>, gt: Option<Json>, gte: Option<Json>)
    | Regexp(field: string, pattern: Json)
    | Match(field: string, query: Json, operator: Option<Json>)
    | MultiMatch(fields: Json, text: Json, kind: Option<string>, textOperator: Json)

  const OnlyOneLogicalMessage := "only one logical operator per level allowed"
  const UnknownModeMessage := "unknown ComplexTextSpanQueryMode"

  function UnsupportedMessage(rawProperty: string): string {
    "unsupported query type \"" + rawProperty + "\""
  }

  /** `convertComplexTextSpanQueryMode`: the Elasticsearch multi-match type
      is the mode followed by `_fields`. */
  function ConvertMode(mode: Json): (r: Result<Option<string>, string>)
    ensures r.Err? <==> !(mode.Undefined? || mode in {Str("best"), Str("most"), Str("cross")})
    ensures r.Err? ==> r.error == UnknownModeMessage
    ensures r == Ok(None) <==> mode.Undefined?
    ensures r.Ok? && r.value.Some? ==> mode.Str? && r.value.value == mode.s + "_fields"
  {
    match mode
    case Undefined => Ok(None)
    case Str(s) =>
      if s == "best" then Ok(Some("best_fields"))
      else if s == "most" then Ok(Some("most_fields"))
      else if s == "cross" then Ok(Some("cross_fields"))
      else Err(UnknownModeMessage)
    case _ => Err(UnknownModeMessage)
  }

  /** The clauses the default bool query builder has collected. */
  datatype Clauses = Clauses(must: seq<EQuery>, mustNot: seq<EQuery>) {
    function Total(): nat { |must| + |mustNot| }
  }

  /** An own property of the value as an optional operand. */
  function Operand(value: Json, op: string): (r: Option<Json>)
    ensures r.Some? <==> HasOwn(value, op) == Some(true)
    ensures value.Obj? ==> r == JsObject.Lookup(value.entries, op)
    ensures !value.Obj? ==> r.None?
  {
    if HasOwn(value, op) == Some(true) then Some(Prop(value, op)) else None
  }

  /** The clause of a `$text` operand: a string is the query itself; an
      object supplies `text` and `operator`; `null` throws. */
  function TextClause(property: string, text: Json): Result<EQuery, string> {
    if text.Str? then Ok(Match(property, text, None))
    else if IsNullish(text) then Err(TypeErrorMessage)
    else Ok(Match(property, Prop(text, "text"), Some(Prop(text, "operator"))))
  }

  function OptionToSeq<T>(o: Option<T>): (r: seq<T>)
    ensures |r| == if o.Some? then 1 else 0
  {
    if o.Some? then [o.value] else []
  }


  /** `$textSpan`: a `multi_match` clause; destructuring `null` or
      `undefined` throws, as does an unknown mode. */
  function SpanClause(rawProperty: string, value: Json): (r: Result<Option<EQuery>, string>)
    ensures rawProperty != "$textSpan" ==> r == Ok(None)
    ensures r.Ok? && rawProperty == "$textSpan" ==> r.value.Some? && r.value.value.MultiMatch?
  {
    if rawProperty != "$textSpan" then Ok(None)
    else if IsNullish(value) then Err(TypeErrorMessage)
    else
      match ConvertMode(Prop(value, "mode"))
      case Err(e) => Err(e)
      case Ok(kind) => Ok(Some(MultiMatch(Prop(value, "fields"), Prop(value, "text"), kind, Prop(value, "operator"))))
  }

  /** A primitive value, or the `$eq` operand: a `term` clause. */
  function EqClause(property: string, value: Json): (r: Option<EQuery>)
    ensures !value.Obj? ==> (r.Some? <==> IsPrimitive(value))
    ensures r.Some? ==> r.value.Term? && r.value.field == property
  {
    if IsPrimitive(value) then Some(Term(property, value))
    else if HasOwn(value, "$eq") == Some(true) then Some(Term(property, Prop(value, "$eq")))
    else None
  }

  /** Some range operand is present. */
  predicate InRange(value: Json) {
    Operand(value, "$lt").Some? || Operand(value, "$lte").Some? || Operand(value, "$gt").Some? || Operand(value, "$gte").Some?
  }

  /** The one `range` clause collecting every range operand. */
  function RangeOf(property: string, value: Json): EQuery {
    Range(property, Operand(value, "$lt"), Operand(value, "$lte"), Operand(value, "$gt"), Operand(value, "$gte"))
  }

  /** A `must` clause of an operator comes from `$in`, the range operands
      or `$regex` of the value. */
  predicate MustFrom(property: string, value: Json, q: EQuery) {
    || (q.Terms? && q.field == property && Operand(value, "$in") == Some(q.values))
    || (InRange(value) && q == RangeOf(property, value))
    || (q.Regexp? && q.field == property && Operand(value, "$regex") == Some(q.pattern))
  }

  /** A `mustNot` clause comes from `$neq` or `$nin` of the value. */
  predicate MustNotFrom(property: string, value: Json, q: EQuery) {
    || (q.Term? && q.field == property && Operand(value, "$neq") == Some(q.value))
    || (q.Terms? && q.field == property && Operand(value, "$nin") == Some(q.values))
  }

  /** The clauses of the `$in`, range and `$regex` operands (for `must`) and
      of the `$neq` and `$nin` operands (for `mustNot`). All range operands
      go into one `range` clause. */
  function OperatorClauses(property: string, value: Json): (r: (seq<EQuery>, seq<EQuery>))
    ensures !value.Obj? ==> r == ([], [])
    ensures |r.0| <= 3 && |r.1| <= 2
    ensures Operand(value, "$in").Some? ==> Terms(property, Operand(value, "$in").value) in r.0
    ensures Operand(value, "$regex").Some? ==> Regexp(property, Operand(value, "$regex").value) in r.0
    ensures InRange(value) ==> RangeOf(property, value) in r.0
    ensures Operand(value, "$neq").Some? ==> Term(property, Operand(value, "$neq").value) in r.1
    ensures Operand(value, "$nin").Some? ==> Terms(property, Operand(value, "$nin").value) in r.1
    ensures forall q :: q in r.0 ==> MustFrom(property, value, q)
    ensures forall q :: q in r.1 ==> MustNotFrom(property, value, q)
  {
    var lt := Operand(value, "$lt");
    var lte := Operand(value, "$lte");
    var gt := Operand(value, "$gt");
    var gte := Operand(value, "$gte");
    var inValues := Operand(value, "$in");
    var regex := Operand(value, "$regex");
    var neq := Operand(value, "$neq");
    var ninValues := Operand(value, "$nin");
    var must :=
      (if inValues.Some? then [Terms(property, inValues.value)] else [])
      + (if lt.Some? || lte.Some? || gt.Some? || gte.Some? then [Range(property, lt, lte, gt, gte)] else [])
      + (if regex.Some? then [Regexp(property, regex.value)] else []);
    var mustNot :=
      (if neq.Some? then [Term(property, neq.value)] else [])
      + (if ninValues.Some? then [Terms(property, ninValues.value)] else []);
    (must, mustNot)
  }

  /** The `$text` operand, when present. */
  function TextOperandClause(property: string, value: Json): (r: Result<Option<EQuery>, string>)
    ensures !value.Obj? ==> r == Ok(None)
    ensures Operand(value, "$text").None? ==> r == Ok(None)
    ensures Operand(value, "$text").Some? && Operand(value, "$text").value.Str? ==>
      r == Ok(Some(Match(property, Operand(value, "$text").value, None)))
    ensures Operand(value, "$text").Some? && IsNullish(Operand(value, "$text").value) ==> r == Err(TypeErrorMessage)
    ensures Operand(value, "$text").Some? && !Operand(value, "$text").value.Str? && !IsNullish(Operand(value, "$text").value) ==>
      var text := Operand(value, "$text").value;
      r == Ok(Some(Match(property, Prop(text, "text"), Some(Prop(text, "operator")))))
  {
    match Operand(value, "$text")
    case None => Ok(None)
    case Some(text) =>
      match TextClause(property, text)
      case Err(e) => Err(e)
      case Ok(q) => Ok(Some(q))
  }

  /** One non-logical property: the clauses it contributes, in the order the
      source adds them. A property no rule handles throws. */
  function PropertyClauses(rawProperty: string, value: Json): (r: Result<Clauses, string>)
    ensures r.Ok? ==> r.value.Total() > 0
    ensures IsNullish(value) ==> r.Err?
  {
    var property := PropertyName(rawProperty);
    match SpanClause(rawProperty, value)
    case Err(e) => Err(e)
    case Ok(span) =>
      var eq := EqClause(property, value);
      if IsNullish(value) then Err(TypeErrorMessage)
      else
        var (operatorMust, operatorMustNot) := OperatorClauses(property, value);
        match TextOperandClause(property, value)
        case Err(e) => Err(e)
        case Ok(text) =>
          var must := OptionToSeq(span) + OptionToSeq(eq) + operatorMust + OptionToSeq(text);
          if |must| + |operatorMustNot| == 0 then Err(UnsupportedMessage(rawProperty))
          else Ok(Clauses(must, operatorMustNot))
  }

  /** The first failure among the converted sub-queries, or all of them. */
  function AllOk(rs: seq<Result<EQuery, string>>): (r: Result<seq<EQuery>, string>)
    ensures r.Ok? <==> forall j :: 0 <= j < |rs| ==> rs[j].Ok?
    ensures r.Ok? ==> |r.value| == |rs| && forall j :: 0 <= j < |rs| ==> r.value[j] == rs[j].value
  {
    if |rs| == 0 then Ok([])
    else if rs[0].Err? then Err(rs[0].error)
    else
      var rest := AllOk(rs[1..]);
      if rest.Err? then
        Err(rest.error)
      else
        var r := [rs[0].value] + rest.value;
        assert forall j :: 1 <= j < |rs| ==> rs[j] == rs[1..][j - 1] && r[j] == rest.value[j - 1];
        Ok(r)
  }

  /** `convertQuery` on any value. */
  function Convert(q: Json): (r: Result<EQuery, string>)
    ensures IsNullish(q) ==> r == Err(TypeErrorMessage)
    ensures r.Ok? ==> (r.value == MatchAll <==> |Entries(q).value| == 0)
    decreases q, 1
  {
    match Entries(q)
    case Err(e) => Err(e)
    case Ok(entries) => Loop(q, entries, 0, Clauses([], []))
  }

  /** The loop over `Object.entries(query)`. A logical operator returns from
      inside the loop; the bool query is built after it. Only an object can
      have a property named like an operator: the entries of an array or a
      string have index keys. */
  function Loop(q: Json, entries: JsObject.Object<Json>, i: nat, c: Clauses): (r: Result<EQuery, string>)
    requires i <= |entries|
    requires q.Obj? ==> entries == q.entries
    requires !q.Obj? ==> forall j :: 0 <= j < |entries| ==> IsIndexKey(entries[j].0)
    ensures r.Ok? ==> (r.value == MatchAll <==> i == |entries| && c.Total() == 0)
    decreases q, 0, |entries| - i
  {
    if i == |entries| then
      Ok(if c.Total() == 0 then MatchAll else BoolQuery(c.must, [], c.mustNot))
    else
      var rawProperty := entries[i].0;
      var value := entries[i].1;
      if IsLogical(rawProperty) && q.Obj? then
        if |entries| > 1 then Err(OnlyOneLogicalMessage)
        else if !value.Arr? then Err(TypeErrorMessage)
        else
          assert entries[i] in q.entries;
          var items := value.items;
          var subs := AllOk(seq(|items|, j requires 0 <= j < |items| => Convert(items[j])));
          match subs
          case Err(e) => Err(e)
          case Ok(queries) =>
            Ok(if rawProperty == "$and" then BoolQuery(queries, [], [])
              else if rawProperty == "$or" then BoolQuery([], queries, [])
              else BoolQuery([], [], queries))
      else
        match PropertyClauses(rawProperty, value)
        case Err(e) => Err(e)
        case Ok(p) => Loop(q, entries, i + 1, Clauses(c.must + p.must, c.mustNot + p.mustNot))
  }

  /** The public `convertQuery`. */
  function ConvertQuery(query: JsObject.Object<Json>): Result<EQuery, string> {
    Convert(Obj(query))
  }

  /** A query of one non-logical property is the bool query of that
      property's clauses. */
  lemma SingleProperty(k: string, v: Json)
    requires !IsLogical(k)
    ensures ConvertQuery([(k, v)]) ==
      match PropertyClauses(k, v)
      case Err(e) => Err(e)
      case Ok(p) => Ok(BoolQuery(p.must, [], p.mustNot))
  {
    var q := Obj([(k, v)]);
    assert ConvertQuery([(k, v)]) == Loop(q, q.entries, 0, Clauses([], []));
    match PropertyClauses(k, v)
    case Err(e) =>
    case Ok(p) =>
      assert [] + p.must == p.must && [] + p.mustNot == p.mustNot;
      assert Loop(q, q.entries, 1, Clauses(p.must, p.mustNot)) == Ok(BoolQuery(p.must, [], p.mustNot));
  }

  /** An empty query matches everything, and a successful conversion of a
      non-empty query never does. */
  lemma MatchAllIffEmpty(query: JsObject.Object<Json>)
    ensures ConvertQuery([]) == Ok(MatchAll)
    ensures ConvertQuery(query).Ok? ==> (ConvertQuery(query).value == MatchAll <==> |query| == 0)
  {
  }

  /** A logical operator next to any other property at the same level makes
      the conversion fail. */
  lemma {:induction false} LogicalMustStandAlone(q: Json, entries: JsObject.Object<Json>, i: nat, c: Clauses, k: nat)
    requires i <= k < |entries| && |entries| > 1 && IsLogical(entries[k].0)
    requires q.Obj? && entries == q.entries
    ensures Loop(q, entries, i, c).Err?
    decreases |entries| - i
  {
    if IsLogical(entries[i].0) {
      LoopLogicalWithOthers(q, entries, i, c);
    } else {
      assert i < k by { assert entries[i].0 != entries[k].0; }
      LoopStep(q, entries, i, c);
      var p := PropertyClauses(entries[i].0, entries[i].1);
      if p.Ok? {
        var next := Clauses(c.must + p.value.must, c.mustNot + p.value.mustNot);
        LogicalMustStandAlone(q, entries, i + 1, next, k);
      }
    }
  }

  /** A logical property in a level of several properties. */
  lemma LoopLogicalWithOthers(q: Json, entries: JsObject.Object<Json>, i: nat, c: Clauses)
    requires i < |entries| && |entries| > 1 && IsLogical(entries[i].0)
    requires q.Obj? && entries == q.entries
    ensures Loop(q, entries, i, c) == Err(OnlyOneLogicalMessage)
  {
  }

  /** One pass of the loop over a non-logical property. */
  lemma LoopStep(q: Json, entries: JsObject.Object<Json>, i: nat, c: Clauses)
    requires i < |entries| && !IsLogical(entries[i].0)
    requires q.Obj? ==> entries == q.entries
    requires !q.Obj? ==> forall j :: 0 <= j < |entries| ==> IsIndexKey(entries[j].0)
    ensures Loop(q, entries, i, c) ==
      match PropertyClauses(entries[i].0, entries[i].1)
      case Err(e) => Err(e)
      case Ok(p) => Loop(q, entries, i + 1, Clauses(c.must + p.must, c.mustNot + p.mustNot))
  {
  }

  /** The same, for a whole query. */
  lemma LogicalWithOthersFails(query: JsObject.Object<Json>, k: nat)
    requires k < |query| && |query| > 1 && IsLogical(query[k].0)
    ensures ConvertQuery(query).Err?
    ensures k == 0 ==> ConvertQuery(query) == Err(OnlyOneLogicalMessage)
  {
    assert ConvertQuery(query) == Loop(Obj(query), query, 0, Clauses([], []));
    LogicalMustStandAlone(Obj(query), query, 0, Clauses([], []), k);
  }

  /** `$and`, `$or` and `$nor` become `must`, `should` and `mustNot` over the
      converted sub-queries, in order. */
  lemma LogicalOperators(op: string, items: seq<Json>)
    requires IsLogical(op)
    ensures var r := ConvertQuery([(op, Arr(items))]);
      r.Ok? <==> forall j :: 0 <= j < |items| ==> Convert(items[j]).Ok?
    ensures var r := ConvertQuery([(op, Arr(items))]);
      r.Ok? ==> exists subs: seq<EQuery> ::
        |subs| == |items| && (forall j :: 0 <= j < |items| ==> Convert(items[j]) == Ok(subs[j]))
        && r.value == (if op == "$and" then BoolQuery(subs, [], []) else if op == "$or" then BoolQuery([], subs, []) else BoolQuery([], [], subs))
  {
    var q := Obj([(op, Arr(items))]);
    assert ConvertQuery([(op, Arr(items))]) == Loop(q, q.entries, 0, Clauses([], []));
    assert q.entries[0] in q.entries;
    var rs := seq(|items|, j requires 0 <= j < |items| => Convert(items[j]));
    var subs := AllOk(rs);
    if subs.Ok? {
      assert forall j :: 0 <= j < |items| ==> Convert(items[j]) == Ok(subs.value[j]);
    }
  }

  /** A primitive other than `null`/`undefined` becomes one `term` in
      `must`; `null` and `undefined` throw when the operators are probed. */
  lemma PrimitiveTerm(k: string, v: Json)
    requires !IsLogical(k) && k != "$textSpan" && IsPrimitive(v)
    ensures !IsNullish(v) ==> ConvertQuery([(k, v)]) == Ok(BoolQuery([Term(PropertyName(k), v)], [], []))
    ensures IsNullish(v) ==> ConvertQuery([(k, v)]).Err?
  {
    SingleProperty(k, v);
    if !IsNullish(v) {
      var p := PropertyName(k);
      assert SpanClause(k, v) == Ok(None);
      assert EqClause(p, v) == Some(Term(p, v));
      assert OperatorClauses(p, v) == ([], []);
      assert TextOperandClause(p, v) == Ok(None);
      assert [] + [Term(p, v)] + [] + [] == [Term(p, v)];
    }
  }

  /** The operands of a two-operator object. */
  lemma OperandPair(k1: string, v1: Json, k2: string, v2: Json, op: string)
    requires k1 != k2
    ensures Operand(Obj([(k1, v1), (k2, v2)]), op) == if op == k1 then Some(v1) else if op == k2 then Some(v2) else None
  {
    JsObject.LookupPair(k1, v1, k2, v2, op);
  }

  /** A property whose value holds only operator operands (no `$eq`, no
      `$text`) is the bool query of its operator clauses. */
  lemma OperatorsOnly(k: string, v: Json)
    requires !IsLogical(k) && k != "$textSpan" && v.Obj?
    requires Operand(v, "$eq").None? && Operand(v, "$text").None?
    requires |OperatorClauses(PropertyName(k), v).0| + |OperatorClauses(PropertyName(k), v).1| > 0
    ensures ConvertQuery([(k, v)]) == Ok(BoolQuery(OperatorClauses(PropertyName(k), v).0, [], OperatorClauses(PropertyName(k), v).1))
  {
    var p := PropertyName(k);
    var ops := OperatorClauses(p, v);
    SingleProperty(k, v);
    assert SpanClause(k, v) == Ok(None);
    assert EqClause(p, v) == None;
    assert TextOperandClause(p, v) == Ok(None);
    assert [] + [] + ops.0 + [] == ops.0;
    assert PropertyClauses(k, v) == Ok(Clauses(ops.0, ops.1));
  }

  /** `{ k: { $eq: a } }` and `{ k: { $in: a } }` go to `must`. */
  lemma EqAndIn(k: string, a: Json)
    requires !IsLogical(k) && k != "$textSpan"
    ensures ConvertQuery([(k, Obj([("$eq", a)]))]) == Ok(BoolQuery([Term(PropertyName(k), a)], [], []))
    ensures ConvertQuery([(k, Obj([("$in", a)]))]) == Ok(BoolQuery([Terms(PropertyName(k), a)], [], []))
  {
    var p := PropertyName(k);
    var eq := Obj([("$eq", a)]);
    SingleProperty(k, eq);
    assert SpanClause(k, eq) == Ok(None);
    assert EqClause(p, eq) == Some(Term(p, a));
    assert OperatorClauses(p, eq) == ([], []);
    assert TextOperandClause(p, eq) == Ok(None);
    assert [] + [Term(p, a)] + [] + [] == [Term(p, a)];
    var inValues := Obj([("$in", a)]);
    assert Operand(inValues, "$in") == Some(a);
    assert OperatorClauses(p, inValues).0 == [Terms(p, a)];
    assert OperatorClauses(p, inValues).1 == [];
    OperatorsOnly(k, inValues);
  }

  /** `{ k: { $nin: a, $neq: b } }` goes to `mustNot`, `$neq` first. */
  lemma NeqAndNin(k: string, a: Json, b: Json)
    requires !IsLogical(k) && k != "$textSpan"
    ensures ConvertQuery([(k, Obj([("$nin", a), ("$neq", b)]))]) == Ok(BoolQuery([], [], [Term(PropertyName(k), b), Terms(PropertyName(k), a)]))
  {
    var p := PropertyName(k);
    var v := Obj([("$nin", a), ("$neq", b)]);
    forall op ensures Operand(v, op) == if op == "$nin" then Some(a) else if op == "$neq" then Some(b) else None {
      OperandPair("$nin", a, "$neq", b, op);
    }
    assert OperatorClauses(p, v).0 == [];
    assert OperatorClauses(p, v).1 == [Term(p, b), Terms(p, a)];
    OperatorsOnly(k, v);
  }

  /** The range operators of one property are merged into a single `range`
      clause. */
  lemma RangeMerged(k: string, low: Json, high: Json)
    requires !IsLogical(k) && k != "$textSpan"
    ensures ConvertQuery([(k, Obj([("$gte", low), ("$lt", high)]))])
      == Ok(BoolQuery([Range(PropertyName(k), Some(high), None, None, Some(low))], [], []))
  {
    var p := PropertyName(k);
    var v := Obj([("$gte", low), ("$lt", high)]);
    forall op ensures Operand(v, op) == if op == "$gte" then Some(low) else if op == "$lt" then Some(high) else None {
      OperandPair("$gte", low, "$lt", high, op);
    }
    assert OperatorClauses(p, v).0 == [Range(p, Some(high), None, None, Some(low))];
    assert OperatorClauses(p, v).1 == [];
    OperatorsOnly(k, v);
  }

  /** An operator object none of whose operators is known throws, naming the
      property as written. */
  lemma UnknownOperatorThrows(k: string, op: string, a: Json)
    requires !IsLogical(k) && k != "$textSpan"
    requires op !in {"$eq", "$neq", "$in", "$nin", "$lt", "$lte", "$gt", "$gte", "$regex", "$text"}
    ensures ConvertQuery([(k, Obj([(op, a)]))]) == Err(UnsupportedMessage(k))
  {
    var v := Obj([(op, a)]);
    assert OperatorClauses(PropertyName(k), v) == ([], []);
    SingleProperty(k, v);
  }

  /** `id` is searched as `_id`. */
  lemma IdRenamed(v: Json)
    requires IsPrimitive(v) && !IsNullish(v)
    ensures ConvertQuery([("id", v)]) == Ok(BoolQuery([Term("_id", v)], [], []))
  {
    PrimitiveTerm("id", v);
  }
}
