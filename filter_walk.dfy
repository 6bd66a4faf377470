/**
 * The filter-tree walk: a node with an `and`, `or` or `not` key becomes one bracketed
 * `andWhere` over its children; any other node is a leaf whose fields and operators
 * each add one predicate, after the allow-list and operator checks.
 */
module FilterWalk {
  import opened Wrappers
  import opened Exceptions
  import opened JsValues
  import opened FilterConstants
  import opened QueryBuilders
  import opened Emissions
  import opened FilterUtils
  import opened FilterOperators
  import Text

  /** What every call of the walk passes along; `stringify` stands for `JSON.stringify`. */
  datatype FilterContext = FilterContext(
    entityName: string,
    allowedFields: seq<string>,
    joinedFields: seq<string>,
    stringify: JsValue -> string)

  // ---------------------------------------------------------------- leaves

  /** The text before the first `.` of a field path. */
  function HeadSegment(field: string): string {
    Text.Split(field, '.')[0]
  }

  predicate FieldAllowed(ctx: FilterContext, field: string) {
    HeadSegment(field) in ctx.allowedFields || HeadSegment(field) in ctx.joinedFields
  }

  function FieldNotAllowed(field: string): Error {
    BadRequest("Field " + field + " is not allowed for filtering")
  }

  /** The parameter name of a field and operator: only the first `.` becomes `_`. */
  function ParamName(field: string, operator: string): string {
    Text.ReplaceFirst(field, '.', "_") + operator
  }

  /** The column a leaf filters on, as `applyCondition` builds it. */
  function FieldExpression(entityName: string, field: string, pf: ParsedField): string {
    if IsTruthy(pf.relation) then
      var column := pf.relation.value + "." + pf.field;
      if IsTruthy(pf.jsonPath) then "JSON_EXTRACT(" + column + ", '$." + pf.jsonPath.value + "')" else column
    else if IsTruthy(pf.jsonPath) then
      "JSON_EXTRACT(" + entityName + "." + pf.field + ", '$." + pf.jsonPath.value + "')"
    else
      entityName + "." + field
  }

  /** One operator of one field: checked, resolved, then handed to its emitter. */
  function OperatorEmission(ctx: FilterContext, field: string, operator: string, value: JsValue): Emission {
    match FromName(operator)
    case None => Throws(BadRequest("Invalid operator: " + operator))
    case Some(op) =>
      match ParseField(field, ctx.joinedFields)
      case Err(e) => Throws(e)
      case Ok(pf) =>
        match OperatorCondition(op, FieldExpression(ctx.entityName, field, pf), ParamName(field, operator), value, ctx.stringify)
        case Err(e) => Throws(e)
        case Ok(c) => Emission([AndWhere(c)], None)
  }

  function OperatorSteps(ctx: FilterContext, field: string, ops: seq<Prop>): (es: seq<Emission>)
    ensures |es| == |ops|
  {
    seq(|ops|, i requires 0 <= i < |ops| => OperatorEmission(ctx, field, ops[i].key, ops[i].value))
  }

  /** One field of a leaf: the allow-list is checked before any of its operators. */
  function FieldEmission(ctx: FilterContext, field: string, operators: JsValue): Emission {
    if !FieldAllowed(ctx, field) then Throws(FieldNotAllowed(field))
    else match Entries(operators)
      case None => Throws(TypeError("Object.entries"))
      case Some(ops) => Steps(OperatorSteps(ctx, field, ops))
  }

  function FieldSteps(ctx: FilterContext, fields: seq<Prop>): (es: seq<Emission>)
    ensures |es| == |fields|
  {
    seq(|fields|, i requires 0 <= i < |fields| => FieldEmission(ctx, fields[i].key, fields[i].value))
  }

  /** `applyCondition`: the fields of a leaf in enumeration order. */
  function ConditionEmission(ctx: FilterContext, condition: JsValue): Emission {
    match Entries(condition)
    case None => Throws(TypeError("Object.entries"))
    case Some(fields) => Steps(FieldSteps(ctx, fields))
  }

  // ---------------------------------------------------------------- logical nodes

  /** `'and' in filter || 'or' in filter || 'not' in filter`. */
  predicate IsLogical(filter: JsValue) {
    HasProperty(filter, "and") == Some(true) || HasProperty(filter, "or") == Some(true) || HasProperty(filter, "not") == Some(true)
  }

  lemma LogicalIsObject(filter: JsValue)
    requires IsLogical(filter)
    ensures filter.Obj? && |filter.props| > 0
  {
    assert "and"[0] == 'a' && "or"[0] == 'o' && "not"[0] == 'n';
  }

  /** How children join inside the group: `andWhere` for `and`, `orWhere` for anything else. */
  function JoinClause(operator: string, c: Condition): Clause {
    if operator == "and" then AndWhere(c) else OrWhere(c)
  }

  /** `applyFilter`: logical node or leaf; `in` on a value that is no object throws. */
  function FilterEmission(ctx: FilterContext, filter: JsValue): Emission
    decreases filter, 2, 0
  {
    if HasProperty(filter, "and").None? then Throws(TypeError("in"))
    else if IsLogical(filter) then
      LogicalIsObject(filter);
      LogicalEmission(ctx, filter)
    else ConditionEmission(ctx, filter)
  }

  /** `applyLogicalOperator`: only the first entry counts; an error anywhere inside adds nothing. */
  function LogicalEmission(ctx: FilterContext, filter: JsValue): Emission
    requires filter.Obj? && |filter.props| > 0
    decreases filter, 1, 0
  {
    var first := filter.props[0];
    if !IsArray(first.value) then Throws(BadRequest("Invalid logical operator or conditions"))
    else
      var inner := Steps(ChildSteps(ctx, first.key, first.value));
      if inner.error.Some? then Throws(inner.error.value)
      else Emission([AndWhere(Brackets(inner.clauses))], None)
  }

  function ChildSteps(ctx: FilterContext, operator: string, conditions: JsValue): (es: seq<Emission>)
    requires conditions.Arr?
    ensures |es| == |conditions.items|
    decreases conditions, 0, 0
  {
    seq(|conditions.items|, i requires 0 <= i < |conditions.items| => ChildEmission(ctx, operator, conditions.items[i]))
  }

  /** One child: its own walk on a fresh builder, added as one bracket if it did not throw. */
  function ChildEmission(ctx: FilterContext, operator: string, child: JsValue): Emission
    decreases child, 3, 0
  {
    var e := FilterEmission(ctx, child);
    if e.error.Some? then Throws(e.error.value)
    else Emission([JoinClause(operator, Brackets(e.clauses))], None)
  }

  // ---------------------------------------------------------------- properties of the walk

  /**
   * A logical node is decided by its first entry alone, and `not` joins its children
   * exactly as `or` does: it does not negate them.
   */
  lemma NotJoinsLikeOr(ctx: FilterContext, conditions: JsValue, rest: seq<Prop>, rest': seq<Prop>)
    ensures FilterEmission(ctx, Obj([Prop("not", conditions)] + rest))
         == FilterEmission(ctx, Obj([Prop("or", conditions)] + rest'))
  {
    var a := [Prop("not", conditions)] + rest;
    var b := [Prop("or", conditions)] + rest';
    assert Keys(a)[0] == "not" && Keys(b)[0] == "or";
    assert IsLogical(Obj(a)) && IsLogical(Obj(b));
    if conditions.Arr? {
      var sa := ChildSteps(ctx, "not", conditions);
      var sb := ChildSteps(ctx, "or", conditions);
      assert sa == sb by {
        assert "not" != "and" && "or" != "and" by { assert "not"[0] == 'n' && "or"[0] == 'o' && "and"[0] == 'a'; }
        forall i | 0 <= i < |sa| ensures sa[i] == sb[i] {
          assert sa[i] == ChildEmission(ctx, "not", conditions.items[i]);
          assert sb[i] == ChildEmission(ctx, "or", conditions.items[i]);
        }
      }
    }
  }

  /** A logical node whose first entry holds no array throws, whatever else it holds. */
  lemma LogicalNeedsArray(ctx: FilterContext, filter: JsValue)
    requires filter.Obj? && |filter.props| > 0 && IsLogical(filter) && !filter.props[0].value.Arr?
    ensures FilterEmission(ctx, filter) == Throws(BadRequest("Invalid logical operator or conditions"))
  {
  }

  /**
   * When no child throws, a logical node adds exactly one bracketed `andWhere`, holding
   * one bracket per child in order, joined by `andWhere` under `and` and by `orWhere`
   * under any other key.
   */
  lemma LogicalGroupShape(ctx: FilterContext, filter: JsValue)
    requires filter.Obj? && |filter.props| > 0 && IsLogical(filter) && filter.props[0].value.Arr?
    requires forall i :: 0 <= i < |filter.props[0].value.items| ==> FilterEmission(ctx, filter.props[0].value.items[i]).error.None?
    ensures var first := filter.props[0]; var e := FilterEmission(ctx, filter);
      && e.error.None? && |e.clauses| == 1 && e.clauses[0].AndWhere? && e.clauses[0].condition.Brackets?
      && |e.clauses[0].condition.clauses| == |first.value.items|
      && forall i :: 0 <= i < |first.value.items| ==>
           e.clauses[0].condition.clauses[i] == JoinClause(first.key, Brackets(FilterEmission(ctx, first.value.items[i]).clauses))
  {
    var first := filter.props[0];
    var items := first.value.items;
    var steps := ChildSteps(ctx, first.key, first.value);
    forall i | 0 <= i < |items|
      ensures steps[i] == Emission([JoinClause(first.key, Brackets(FilterEmission(ctx, items[i]).clauses))], None)
    {
      assert steps[i] == ChildEmission(ctx, first.key, items[i]);
    }
    StepsNoThrow(steps);
    FlattenSingletons(steps);
  }

  /**
   * The first child that throws decides what a logical node throws, and the node then
   * adds nothing: the brackets built for the children before it are dropped.
   */
  lemma LogicalGroupFirstThrow(ctx: FilterContext, filter: JsValue, k: nat)
    requires filter.Obj? && |filter.props| > 0 && IsLogical(filter) && filter.props[0].value.Arr?
    requires k < |filter.props[0].value.items| && FilterEmission(ctx, filter.props[0].value.items[k]).error.Some?
    requires forall i :: 0 <= i < k ==> FilterEmission(ctx, filter.props[0].value.items[i]).error.None?
    ensures FilterEmission(ctx, filter) == Throws(FilterEmission(ctx, filter.props[0].value.items[k]).error.value)
  {
    var first := filter.props[0];
    var items := first.value.items;
    var steps := ChildSteps(ctx, first.key, first.value);
    assert steps[k] == ChildEmission(ctx, first.key, items[k]);
    assert NoneThrows(steps[..k]) by {
      forall i | 0 <= i < k ensures steps[..k][i].error.None? {
        assert steps[..k][i] == steps[i] == ChildEmission(ctx, first.key, items[i]);
      }
    }
    StepsFirstThrow(steps, k);
  }

  /** Every clause a leaf adds, even one that then throws, is a plain `andWhere` predicate: leaves never nest. */
  lemma LeafAddsOnlyPredicates(ctx: FilterContext, condition: JsValue)
    ensures forall c :: c in ConditionEmission(ctx, condition).clauses ==> c.AndWhere? && c.condition.Predicate?
  {
    var P := (c: Clause) => c.AndWhere? && c.condition.Predicate?;
    if Entries(condition).Some? {
      var fields := Entries(condition).value;
      var steps := FieldSteps(ctx, fields);
      forall i, c | 0 <= i < |steps| && c in steps[i].clauses ensures P(c) {
        var field := fields[i].key;
        assert steps[i] == FieldEmission(ctx, field, fields[i].value);
        if FieldAllowed(ctx, field) && Entries(fields[i].value).Some? {
          var ops := Entries(fields[i].value).value;
          var opSteps := OperatorSteps(ctx, field, ops);
          forall j, d | 0 <= j < |opSteps| && d in opSteps[j].clauses ensures P(d) {
            assert opSteps[j] == OperatorEmission(ctx, field, ops[j].key, ops[j].value);
            var op := FromName(ops[j].key).value;
            var pf := ParseField(field, ctx.joinedFields).value;
            OperatorPredicateShape(op, FieldExpression(ctx.entityName, field, pf), ParamName(field, ops[j].key), ops[j].value, ctx.stringify);
          }
          StepsClausesFrom(opSteps, P);
        }
      }
      StepsClausesFrom(steps, P);
    }
  }

  /** At the top of the tree the walk only ever adds `andWhere` clauses, whether it throws or not. */
  lemma FilterAddsOnlyAndWhere(ctx: FilterContext, filter: JsValue)
    ensures forall c :: c in FilterEmission(ctx, filter).clauses ==> c.AndWhere?
  {
    if HasProperty(filter, "and").Some? && !IsLogical(filter) {
      LeafAddsOnlyPredicates(ctx, filter);
    }
  }

  /** A field that passes its checks adds one `andWhere` per operator, in the operators' order. */
  lemma FieldOnePredicatePerOperator(ctx: FilterContext, field: string, ops: seq<Prop>)
    requires FieldEmission(ctx, field, Obj(ops)).error.None?
    ensures var e := FieldEmission(ctx, field, Obj(ops));
      && |e.clauses| == |ops|
      && forall j :: 0 <= j < |ops| ==>
           OperatorEmission(ctx, field, ops[j].key, ops[j].value).clauses == [e.clauses[j]] && e.clauses[j].AndWhere?
  {
    var steps := OperatorSteps(ctx, field, ops);
    StepsNoThrow(steps);
    forall j | 0 <= j < |ops| ensures |steps[j].clauses| == 1 && steps[j].clauses[0].AndWhere? {
      assert steps[j] == OperatorEmission(ctx, field, ops[j].key, ops[j].value);
    }
    FlattenSingletons(steps);
  }

  /**
   * The first field of a leaf that fails the allow-list decides the error; none of its
   * operators is applied, and the predicates of the fields before it stay.
   */
  lemma FieldCheckedBeforeOperators(ctx: FilterContext, fields: seq<Prop>, k: nat)
    requires k < |fields| && !FieldAllowed(ctx, fields[k].key)
    requires forall i :: 0 <= i < k ==> FieldEmission(ctx, fields[i].key, fields[i].value).error.None?
    ensures ConditionEmission(ctx, Obj(fields))
         == Emission(Flatten(FieldSteps(ctx, fields)[..k]), Some(FieldNotAllowed(fields[k].key)))
  {
    var steps := FieldSteps(ctx, fields);
    assert NoneThrows(steps[..k]) by {
      forall i | 0 <= i < k ensures steps[..k][i].error.None? { assert steps[..k][i] == steps[i]; }
    }
    assert steps[k] == Throws(FieldNotAllowed(fields[k].key));
    StepsFirstThrow(steps, k);
  }

  /**
   * The parameter name replaces only the first `.` of the field by `_`. It depends on
   * nothing but the field and the operator, so the same pair names the same parameter
   * wherever it occurs in the tree; distinct fields such as `a.b` and `a_b` share one too.
   */
  lemma ParamNameForm(field: string, operator: string, head: string, tail: string)
    ensures '.' !in field ==> ParamName(field, operator) == field + operator
    ensures field == head + "." + tail && '.' !in head ==> ParamName(field, operator) == head + "_" + tail + operator
    ensures field == head + "." + tail && '.' !in head && '.' !in tail ==> ParamName(field, operator) == ParamName(head + "_" + tail, operator)
  {
    if field == head + "." + tail && '.' !in head {
      assert field == head + ['.'] + tail;
      Text.ReplaceFirstAt(head, '.', tail, "_");
      var other := head + "_" + tail;
      assert '.' !in "_";
      if '.' !in tail {
        assert '.' !in other by {
          forall k | 0 <= k < |other| ensures other[k] != '.' {
            if k < |head| { assert other[k] == head[k]; }
            else if k == |head| { assert other[k] == '_'; }
            else { assert other[k] == tail[k - |head| - 1]; }
          }
        }
      }
    }
  }

  /**
   * Apart from an empty relation or JSON path, a leaf filters on what `getFieldExpression`
   * yields for the column its path names: `relation.field` on a joined relation, and
   * `entity.field` otherwise. When neither part is truthy, the raw path is written after
   * the entity name, whatever the parse made of it.
   */
  lemma FieldExpressionColumn(ctx: FilterContext, field: string)
    requires ParseField(field, ctx.joinedFields).Ok?
    ensures var pf := ParseField(field, ctx.joinedFields).value;
      pf.relation != Some("") && pf.jsonPath != Some("") ==>
        FieldExpression(ctx.entityName, field, pf)
        == GetFieldExpression((if pf.relation.Some? then pf.relation.value else ctx.entityName) + "." + pf.field, pf.jsonPath)
    ensures var pf := ParseField(field, ctx.joinedFields).value;
      !IsTruthy(pf.relation) && !IsTruthy(pf.jsonPath) ==> FieldExpression(ctx.entityName, field, pf) == ctx.entityName + "." + field
  {
    ParseFieldSound(field, ctx.joinedFields);
  }

  /**
   * A path ending in a dot after an unjoined name parses to that name with the empty JSON
   * path, which is falsy, so the leaf filters on the raw path, trailing dot included.
   */
  lemma TrailingDotKeepsRawPath(ctx: FilterContext, name: string)
    requires '.' !in name && name !in ctx.joinedFields
    ensures ParseField(name + ".", ctx.joinedFields) == Ok(ParsedField(name, Some(""), None))
    ensures FieldExpression(ctx.entityName, name + ".", ParseField(name + ".", ctx.joinedFields).value) == ctx.entityName + "." + name + "."
  {
    Text.SplitConcat(name, '.', "");
    Text.SplitNoSeparator("", '.');
    assert name + "." == name + ['.'] + "";
  }

  /** An empty leaf adds nothing; an empty list under a logical key adds one empty bracket. */
  lemma EmptyNodes(ctx: FilterContext, key: string)
    requires key in {"and", "or", "not"}
    ensures FilterEmission(ctx, Obj([])) == Nothing
    ensures FilterEmission(ctx, Obj([Prop(key, Arr([]))])) == Emission([AndWhere(Brackets([]))], None)
  {
    assert Keys([Prop(key, Arr([]))]) == [key];
  }

  // ---------------------------------------------------------------- the walk

  method ApplyFilter(qb: QueryBuilder, ctx: FilterContext, filter: JsValue) returns (err: Option<Error>)
    modifies qb
    ensures qb.log == old(qb.log) + FilterEmission(ctx, filter).clauses
    ensures err == FilterEmission(ctx, filter).error
    decreases filter, 2
  {
    var hasAnd := HasProperty(filter, "and");
    if hasAnd.None? {
      return Some(TypeError("in"));
    }
    if hasAnd == Some(true) || HasProperty(filter, "or") == Some(true) || HasProperty(filter, "not") == Some(true) {
      LogicalIsObject(filter);
      err := ApplyLogicalOperator(qb, ctx, filter);
    } else {
      err := ApplyCondition(qb, ctx, filter);
    }
  }

  method ApplyLogicalOperator(qb: QueryBuilder, ctx: FilterContext, filter: JsValue) returns (err: Option<Error>)
    requires filter.Obj? && |filter.props| > 0
    modifies qb
    ensures qb.log == old(qb.log) + LogicalEmission(ctx, filter).clauses
    ensures err == LogicalEmission(ctx, filter).error
    decreases filter, 1
  {
    var operator := filter.props[0].key;
    var conditions := filter.props[0].value;
    if !IsArray(conditions) {
      return Some(BadRequest("Invalid logical operator or conditions"));
    }
    ghost var steps := ChildSteps(ctx, operator, conditions);
    var group := new QueryBuilder();
    var i := 0;
    while i < |conditions.items|
      invariant 0 <= i <= |conditions.items|
      invariant fresh(group)
      invariant qb.log == old(qb.log)
      invariant Steps(steps[..i]).error.None? && group.log == Steps(steps[..i]).clauses
    {
      var sub := new QueryBuilder();
      var e := ApplyFilter(sub, ctx, conditions.items[i]);
      assert steps[i] == ChildEmission(ctx, operator, conditions.items[i]);
      if e.Some? {
        StepThrows(steps, i);
        return e;
      }
      assert sub.log == FilterEmission(ctx, conditions.items[i]).clauses;
      assert steps[i].clauses == [JoinClause(operator, Brackets(sub.log))];
      StepOk(steps, i);
      if operator == "and" {
        group.AndWhere(Brackets(sub.log));
      } else {
        group.OrWhere(Brackets(sub.log));
      }
      i := i + 1;
    }
    StepsDone(steps, i);
    qb.AndWhere(Brackets(group.log));
    return None;
  }

  /** `applyCondition`: every field of the leaf, in enumeration order. */
  method ApplyCondition(qb: QueryBuilder, ctx: FilterContext, condition: JsValue) returns (err: Option<Error>)
    modifies qb
    ensures qb.log == old(qb.log) + ConditionEmission(ctx, condition).clauses
    ensures err == ConditionEmission(ctx, condition).error
  {
    var entries := Entries(condition);
    if entries.None? {
      return Some(TypeError("Object.entries"));
    }
    var fields := entries.value;
    ghost var steps := FieldSteps(ctx, fields);
    var i := 0;
    while i < |fields|
      invariant 0 <= i <= |fields|
      invariant Steps(steps[..i]).error.None? && qb.log == old(qb.log) + Steps(steps[..i]).clauses
    {
      var e := ApplyField(qb, ctx, fields[i].key, fields[i].value);
      assert steps[i] == FieldEmission(ctx, fields[i].key, fields[i].value);
      AppendAssoc(old(qb.log), Steps(steps[..i]).clauses, steps[i].clauses);
      if e.Some? {
        StepThrows(steps, i);
        return e;
      }
      StepOk(steps, i);
      i := i + 1;
    }
    StepsDone(steps, i);
    return None;
  }

  /** The per-field callback of `applyCondition`. */
  method ApplyField(qb: QueryBuilder, ctx: FilterContext, field: string, operators: JsValue) returns (err: Option<Error>)
    modifies qb
    ensures qb.log == old(qb.log) + FieldEmission(ctx, field, operators).clauses
    ensures err == FieldEmission(ctx, field, operators).error
  {
    var head := Text.Split(field, '.')[0];
    if head !in ctx.allowedFields && head !in ctx.joinedFields {
      return Some(BadRequest("Field " + field + " is not allowed for filtering"));
    }
    var operatorEntries := Entries(operators);
    if operatorEntries.None? {
      return Some(TypeError("Object.entries"));
    }
    err := ApplyFieldOperators(qb, ctx, field, operatorEntries.value);
  }

  /** The loop of the per-field callback over the field's operators, in enumeration order. */
  method ApplyFieldOperators(qb: QueryBuilder, ctx: FilterContext, field: string, ops: seq<Prop>) returns (err: Option<Error>)
    modifies qb
    ensures qb.log == old(qb.log) + Steps(OperatorSteps(ctx, field, ops)).clauses
    ensures err == Steps(OperatorSteps(ctx, field, ops)).error
  {
    ghost var steps := OperatorSteps(ctx, field, ops);
    var j := 0;
    while j < |ops|
      invariant 0 <= j <= |ops|
      invariant Steps(steps[..j]).error.None? && qb.log == old(qb.log) + Steps(steps[..j]).clauses
    {
      var e := ApplyFieldOperator(qb, ctx, field, ops[j].key, ops[j].value);
      assert steps[j] == OperatorEmission(ctx, field, ops[j].key, ops[j].value);
      AppendAssoc(old(qb.log), Steps(steps[..j]).clauses, steps[j].clauses);
      if e.Some? {
        StepThrows(steps, j);
        return e;
      }
      StepOk(steps, j);
      j := j + 1;
    }
    StepsDone(steps, j);
    return None;
  }

  /** The per-operator callback of `applyCondition`. */
  method ApplyFieldOperator(qb: QueryBuilder, ctx: FilterContext, field: string, operator: string, value: JsValue) returns (err: Option<Error>)
    modifies qb
    ensures qb.log == old(qb.log) + OperatorEmission(ctx, field, operator, value).clauses
    ensures err == OperatorEmission(ctx, field, operator, value).error
  {
    var op := FromName(operator);
    if op.None? {
      return Some(BadRequest("Invalid operator: " + operator));
    }
    var paramName := Text.ReplaceFirst(field, '.', "_") + operator;
    var parsedField := ParseField(field, ctx.joinedFields);
    if parsedField.Err? {
      return Some(parsedField.error);
    }
    var pf := parsedField.value;
    var fieldExpression;
    if IsTruthy(pf.relation) {
      fieldExpression := pf.relation.value + "." + pf.field;
      if IsTruthy(pf.jsonPath) {
        fieldExpression := "JSON_EXTRACT(" + fieldExpression + ", '$." + pf.jsonPath.value + "')";
      }
    } else {
      fieldExpression := ctx.entityName + "." + field;
      if IsTruthy(pf.jsonPath) {
        fieldExpression := "JSON_EXTRACT(" + ctx.entityName + "." + pf.field + ", '$." + pf.jsonPath.value + "')";
      }
    }
    err := ApplyOperator(qb, op.value, fieldExpression, paramName, value, ctx.stringify);
  }
}
