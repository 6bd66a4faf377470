/**
 * The operator emitters: each checks the shape of the value it is given and then adds
 * exactly one predicate to the query builder with `andWhere`, or throws and adds nothing.
 */
module FilterOperators {
  import opened Wrappers
  import opened Exceptions
  import opened JsValues
  import opened FilterConstants
  import opened QueryBuilders
  import FilterUtils
  import Text

  // ---------------------------------------------------------------- what each emitter adds

  /** `applySimpleOperator`: `field OP :param`, bound to the raw value. */
  function SimpleCondition(fieldExpression: string, op: AllowedOperator, paramName: string, value: JsValue): Condition {
    Predicate(fieldExpression + " " + Sql(op) + " :" + paramName, [Binding(paramName, value)])
  }

  /** `applyListOperator`: `field IN (:...param)` over an array value; anything else throws. */
  function ListCondition(fieldExpression: string, op: AllowedOperator, paramName: string, value: JsValue): Result<Condition, Error>
    requires IsListOperator(op)
  {
    if !IsArray(value) then Err(BadRequest("Invalid value for " + Name(op) + " operator. Expected array."))
    else Ok(Predicate(fieldExpression + " " + Sql(op) + " (:..." + paramName + ")", [Binding(paramName, value)]))
  }

  /** `applyLikeOperator`: `field LIKE :param`, bound to the escaped value inside its wildcards. */
  function LikeCondition(fieldExpression: string, op: AllowedOperator, paramName: string, value: JsValue): Result<Condition, Error>
    requires IsLikeOperator(op)
  {
    if !IsString(value) then Err(BadRequest("Invalid value for " + Name(op) + " operator. Expected string."))
    else
      var pattern := FilterUtils.GetLikePattern(Name(op), FilterUtils.EscapeLikeString(value.s));
      Ok(Predicate(fieldExpression + " " + Sql(op) + " :" + paramName, [Binding(paramName, Str(pattern.value))]))
  }

  /** `applyJsonContainsOperator`: `JSON_CONTAINS(field, :param)`, bound to the JSON text of the value. */
  function JsonContainsCondition(fieldExpression: string, paramName: string, value: JsValue, stringify: JsValue -> string): Condition {
    Predicate("JSON_CONTAINS(" + fieldExpression + ", :" + paramName + ")", [Binding(paramName, Str(stringify(value)))])
  }

  /**
   * `applyIsOperator`: a boolean literal is compared with `=`/`!=`, anything else is
   * written after `IS`/`IS NOT` as it is. Neither binds a parameter. `toUpperCase` on a
   * value that is not a string throws a TypeError.
   */
  function IsCondition(fieldExpression: string, op: AllowedOperator, value: JsValue): Result<Condition, Error>
    requires IsBoolOrNullOperator(op)
  {
    if !IsString(value) then Err(TypeError("value.toUpperCase"))
    else
      var upper := Text.ToUpper(value.s);
      if upper == "TRUE" || upper == "FALSE" then
        Ok(Predicate(fieldExpression + " " + Sql(if op == Is then Eq else Neq) + " " + upper, []))
      else
        Ok(Predicate(fieldExpression + " " + Sql(op) + " " + value.s, []))
  }

  /** `applyOperator`: the emitter the operator selects, and the condition it adds. */
  function OperatorCondition(op: AllowedOperator, fieldExpression: string, paramName: string, value: JsValue, stringify: JsValue -> string): Result<Condition, Error> {
    if IsListOperator(op) then ListCondition(fieldExpression, op, paramName, value)
    else if IsLikeOperator(op) then LikeCondition(fieldExpression, op, paramName, value)
    else if op == JsonContains then Ok(JsonContainsCondition(fieldExpression, paramName, value, stringify))
    else if IsBoolOrNullOperator(op) then IsCondition(fieldExpression, op, value)
    else Ok(SimpleCondition(fieldExpression, op, paramName, value))
  }

  // ---------------------------------------------------------------- properties

  /** Each bound parameter appears in the SQL text as a placeholder (`:name` or, for a list, `:...name`). */
  predicate BindingsReferenced(c: Condition) {
    c.Predicate? ==> forall b :: b in c.params ==> Text.Contains(c.sql, ":" + b.name) || Text.Contains(c.sql, ":..." + b.name)
  }

  /** An operator throws exactly on a value of the wrong shape for it. */
  lemma OperatorErrors(op: AllowedOperator, fieldExpression: string, paramName: string, value: JsValue, stringify: JsValue -> string)
    ensures var r := OperatorCondition(op, fieldExpression, paramName, value, stringify);
      && (r.Err? <==> (IsListOperator(op) && !value.Arr?) || ((IsLikeOperator(op) || IsBoolOrNullOperator(op)) && !value.Str?))
      && (r.Err? && IsListOperator(op) ==> r.error == BadRequest("Invalid value for " + Name(op) + " operator. Expected array."))
      && (r.Err? && IsLikeOperator(op) ==> r.error == BadRequest("Invalid value for " + Name(op) + " operator. Expected string."))
      && (r.Err? && IsBoolOrNullOperator(op) ==> r.error.TypeError?)
  {
    var r := OperatorCondition(op, fieldExpression, paramName, value, stringify);
    if IsListOperator(op) {
      assert r == ListCondition(fieldExpression, op, paramName, value);
    } else if IsLikeOperator(op) {
      assert r == LikeCondition(fieldExpression, op, paramName, value);
    } else if op == JsonContains {
      assert r.Ok?;
    } else if IsBoolOrNullOperator(op) {
      assert r == IsCondition(fieldExpression, op, value);
    } else {
      assert r.Ok?;
    }
  }

  /** The shape every emitted predicate has, as `OperatorPredicateShape` states it. */
  predicate WellShaped(c: Condition, fieldExpression: string, paramName: string, binds: bool) {
    && c.Predicate?
    && Text.Contains(c.sql, fieldExpression)
    && (c.params == [] <==> !binds)
    && (forall b :: b in c.params ==> b.name == paramName)
    && BindingsReferenced(c)
  }

  /** `before + marker + paramName + tail`, bound once to `paramName`, where `before` names the field. */
  lemma BoundShape(before: string, fieldExpression: string, marker: string, paramName: string, tail: string, v: JsValue)
    requires marker == ":" || marker == ":..."
    requires Text.Contains(before, fieldExpression)
    ensures WellShaped(Predicate(before + marker + paramName + tail, [Binding(paramName, v)]), fieldExpression, paramName, true)
  {
    Text.ContainsGrow(before, fieldExpression, marker);
    Text.ContainsGrow(before + marker, fieldExpression, paramName);
    Text.ContainsGrow(before + marker + paramName, fieldExpression, tail);
    Text.ConcatAssoc(before, marker, paramName);
    Text.ContainsSuffix(before, marker + paramName);
    Text.ContainsGrow(before + (marker + paramName), marker + paramName, tail);
  }

  /** `fieldExpression + tail`, with nothing bound. */
  lemma UnboundShape(fieldExpression: string, paramName: string, tail: string)
    ensures WellShaped(Predicate(fieldExpression + tail, []), fieldExpression, paramName, false)
  {
    Text.ContainsPrefix(fieldExpression, tail);
  }

  /** `field + " " + op`, the start of every simple, list and LIKE predicate, names the field. */
  lemma OperatorPrefix(fieldExpression: string, sqlOp: string, gap: string)
    ensures Text.Contains(fieldExpression + " " + sqlOp + gap, fieldExpression)
  {
    Text.ContainsPrefix(fieldExpression, " ");
    Text.ContainsGrow(fieldExpression + " ", fieldExpression, sqlOp);
    Text.ContainsGrow(fieldExpression + " " + sqlOp, fieldExpression, gap);
  }

  lemma ListShape(fieldExpression: string, sqlOp: string, paramName: string, v: JsValue)
    ensures WellShaped(Predicate(fieldExpression + " " + sqlOp + " (:..." + paramName + ")", [Binding(paramName, v)]), fieldExpression, paramName, true)
  {
    var before := fieldExpression + " " + sqlOp + " (";
    OperatorPrefix(fieldExpression, sqlOp, " (");
    BoundShape(before, fieldExpression, ":...", paramName, ")", v);
    assert " (" + ":..." == " (:...";
    Text.ConcatAssoc(fieldExpression + " " + sqlOp, " (", ":...");
  }

  lemma PlaceholderShape(fieldExpression: string, sqlOp: string, paramName: string, v: JsValue)
    ensures WellShaped(Predicate(fieldExpression + " " + sqlOp + " :" + paramName, [Binding(paramName, v)]), fieldExpression, paramName, true)
  {
    var before := fieldExpression + " " + sqlOp + " ";
    OperatorPrefix(fieldExpression, sqlOp, " ");
    BoundShape(before, fieldExpression, ":", paramName, "", v);
    assert " " + ":" == " :";
    Text.ConcatAssoc(fieldExpression + " " + sqlOp, " ", ":");
    assert before + ":" + paramName + "" == before + ":" + paramName;
  }

  lemma InlineShape(fieldExpression: string, sqlOp: string, paramName: string, text: string)
    ensures WellShaped(Predicate(fieldExpression + " " + sqlOp + " " + text, []), fieldExpression, paramName, false)
  {
    OperatorPrefix(fieldExpression, sqlOp, " ");
    Text.ContainsGrow(fieldExpression + " " + sqlOp + " ", fieldExpression, text);
  }

  /**
   * A successful operator yields one plain predicate naming the field expression, with
   * at most one binding, called `paramName` and referenced in the SQL; `is`/`nis` bind
   * nothing and every other operator binds.
   */
  lemma OperatorPredicateShape(op: AllowedOperator, fieldExpression: string, paramName: string, value: JsValue, stringify: JsValue -> string)
    requires OperatorCondition(op, fieldExpression, paramName, value, stringify).Ok?
    ensures WellShaped(OperatorCondition(op, fieldExpression, paramName, value, stringify).value,
                       fieldExpression, paramName, !IsBoolOrNullOperator(op))
  {
    var r := OperatorCondition(op, fieldExpression, paramName, value, stringify);
    if IsListOperator(op) {
      assert r == ListCondition(fieldExpression, op, paramName, value);
      ListShape(fieldExpression, Sql(op), paramName, value);
    } else if IsLikeOperator(op) {
      assert r == LikeCondition(fieldExpression, op, paramName, value);
      LikeShape(fieldExpression, op, paramName, value);
    } else if op == JsonContains {
      assert r == Ok(JsonContainsCondition(fieldExpression, paramName, value, stringify));
      JsonShape(fieldExpression, paramName, Str(stringify(value)));
    } else if IsBoolOrNullOperator(op) {
      assert r == IsCondition(fieldExpression, op, value);
      IsShape(fieldExpression, op, paramName, value);
    } else {
      assert r == Ok(SimpleCondition(fieldExpression, op, paramName, value));
      PlaceholderShape(fieldExpression, Sql(op), paramName, value);
    }
  }

  lemma JsonShape(fieldExpression: string, paramName: string, v: JsValue)
    ensures WellShaped(Predicate("JSON_CONTAINS(" + fieldExpression + ", :" + paramName + ")", [Binding(paramName, v)]), fieldExpression, paramName, true)
  {
    var head := "JSON_CONTAINS(" + fieldExpression;
    Text.ContainsSuffix("JSON_CONTAINS(", fieldExpression);
    Text.ContainsGrow(head, fieldExpression, ", ");
    BoundShape(head + ", ", fieldExpression, ":", paramName, ")", v);
    assert ", " + ":" == ", :";
    Text.ConcatAssoc(head, ", ", ":");
  }

  lemma LikeShape(fieldExpression: string, op: AllowedOperator, paramName: string, value: JsValue)
    requires IsLikeOperator(op) && value.Str?
    ensures WellShaped(LikeCondition(fieldExpression, op, paramName, value).value, fieldExpression, paramName, true)
  {
    var pattern := FilterUtils.GetLikePattern(Name(op), FilterUtils.EscapeLikeString(value.s)).value;
    PlaceholderShape(fieldExpression, Sql(op), paramName, Str(pattern));
  }

  lemma IsShape(fieldExpression: string, op: AllowedOperator, paramName: string, value: JsValue)
    requires IsBoolOrNullOperator(op) && value.Str?
    ensures WellShaped(IsCondition(fieldExpression, op, value).value, fieldExpression, paramName, false)
  {
    var upper := Text.ToUpper(value.s);
    if upper == "TRUE" || upper == "FALSE" {
      InlineShape(fieldExpression, Sql(if op == Is then Eq else Neq), paramName, upper);
    } else {
      InlineShape(fieldExpression, Sql(op), paramName, value.s);
    }
  }

  /** A LIKE predicate matches the user's value literally, between the operator's wildcards. */
  lemma LikeBindsLiteralPattern(op: AllowedOperator, fieldExpression: string, paramName: string, v: string, stringify: JsValue -> string)
    requires IsLikeOperator(op)
    ensures var r := OperatorCondition(op, fieldExpression, paramName, Str(v), stringify);
      && r.Ok? && r.value.Predicate? && |r.value.params| == 1 && r.value.params[0].value.Str?
      && var ts := FilterUtils.LikeTokens(r.value.params[0].value.s);
      && (op == Contains || op == NotContains ==> ts == [FilterUtils.AnySequence] + FilterUtils.Literals(v) + [FilterUtils.AnySequence])
      && (op == StartsWith ==> ts == FilterUtils.Literals(v) + [FilterUtils.AnySequence])
      && (op == EndsWith ==> ts == [FilterUtils.AnySequence] + FilterUtils.Literals(v))
  {
    FilterUtils.EscapedLikePattern(Name(op), v);
  }

  /**
   * `is`/`nis` with a string that is not a boolean literal put that string into the SQL
   * text itself, unparameterized; a boolean literal in any letter case becomes upper case.
   */
  lemma IsOperatorInlinesValue(op: AllowedOperator, fieldExpression: string, v: string, stringify: JsValue -> string)
    requires IsBoolOrNullOperator(op)
    ensures var r := OperatorCondition(op, fieldExpression, "", Str(v), stringify);
      && r.Ok? && r.value.Predicate? && r.value.params == []
      && (Text.ToUpper(v) in {"TRUE", "FALSE"} ==> r.value.sql == fieldExpression + (if op == Is then " = " else " != ") + Text.ToUpper(v))
      && (Text.ToUpper(v) !in {"TRUE", "FALSE"} ==> r.value.sql == fieldExpression + (if op == Is then " IS " else " IS NOT ") + v)
  {
    assert OperatorCondition(op, fieldExpression, "", Str(v), stringify) == IsCondition(fieldExpression, op, Str(v));
    if Text.ToUpper(v) in {"TRUE", "FALSE"} {
      IsBooleanLiteral(op, fieldExpression, v);
    } else {
      IsRawText(op, fieldExpression, v);
    }
  }

  lemma IsBooleanLiteral(op: AllowedOperator, fieldExpression: string, v: string)
    requires IsBoolOrNullOperator(op) && Text.ToUpper(v) in {"TRUE", "FALSE"}
    ensures IsCondition(fieldExpression, op, Str(v)) == Ok(Predicate(fieldExpression + (if op == Is then " = " else " != ") + Text.ToUpper(v), []))
  {
    var cmp := if op == Is then Eq else Neq;
    assert " " + Sql(cmp) + " " == (if op == Is then " = " else " != ");
    SpacedInfix(fieldExpression, Sql(cmp), Text.ToUpper(v));
  }

  lemma IsRawText(op: AllowedOperator, fieldExpression: string, v: string)
    requires IsBoolOrNullOperator(op) && Text.ToUpper(v) !in {"TRUE", "FALSE"}
    ensures IsCondition(fieldExpression, op, Str(v)) == Ok(Predicate(fieldExpression + (if op == Is then " IS " else " IS NOT ") + v, []))
  {
    assert " " + Sql(op) + " " == (if op == Is then " IS " else " IS NOT ");
    SpacedInfix(fieldExpression, Sql(op), v);
  }

  lemma SpacedInfix(left: string, infix: string, right: string)
    ensures left + " " + infix + " " + right == left + (" " + infix + " ") + right
  {
  }

  // ---------------------------------------------------------------- the emitters

  method ApplySimpleOperator(qb: QueryBuilder, fieldExpression: string, op: AllowedOperator, paramName: string, value: JsValue)
    modifies qb
    ensures qb.log == old(qb.log) + [AndWhere(SimpleCondition(fieldExpression, op, paramName, value))]
  {
    qb.AndWhere(Predicate(fieldExpression + " " + Sql(op) + " :" + paramName, [Binding(paramName, value)]));
  }

  method ApplyListOperator(qb: QueryBuilder, fieldExpression: string, op: AllowedOperator, paramName: string, value: JsValue)
    returns (err: Option<Error>)
    requires IsListOperator(op)
    modifies qb
    ensures var r := ListCondition(fieldExpression, op, paramName, value);
      && (r.Ok? ==> qb.log == old(qb.log) + [AndWhere(r.value)] && err.None?)
      && (r.Err? ==> qb.log == old(qb.log) && err == Some(r.error))
  {
    if !IsArray(value) {
      return Some(BadRequest("Invalid value for " + Name(op) + " operator. Expected array."));
    }
    qb.AndWhere(Predicate(fieldExpression + " " + Sql(op) + " (:..." + paramName + ")", [Binding(paramName, value)]));
    return None;
  }

  method ApplyLikeOperator(qb: QueryBuilder, fieldExpression: string, op: AllowedOperator, paramName: string, value: JsValue)
    returns (err: Option<Error>)
    requires IsLikeOperator(op)
    modifies qb
    ensures var r := LikeCondition(fieldExpression, op, paramName, value);
      && (r.Ok? ==> qb.log == old(qb.log) + [AndWhere(r.value)] && err.None?)
      && (r.Err? ==> qb.log == old(qb.log) && err == Some(r.error))
  {
    if !IsString(value) {
      return Some(BadRequest("Invalid value for " + Name(op) + " operator. Expected string."));
    }
    var escapedValue := FilterUtils.EscapeLikeString(value.s);
    var likePattern := FilterUtils.GetLikePattern(Name(op), escapedValue);
    qb.AndWhere(Predicate(fieldExpression + " " + Sql(op) + " :" + paramName, [Binding(paramName, Str(likePattern.value))]));
    return None;
  }

  method ApplyJsonContainsOperator(qb: QueryBuilder, fieldExpression: string, paramName: string, value: JsValue, stringify: JsValue -> string)
    modifies qb
    ensures qb.log == old(qb.log) + [AndWhere(JsonContainsCondition(fieldExpression, paramName, value, stringify))]
  {
    qb.AndWhere(Predicate("JSON_CONTAINS(" + fieldExpression + ", :" + paramName + ")", [Binding(paramName, Str(stringify(value)))]));
  }

  method ApplyIsOperator(qb: QueryBuilder, fieldExpression: string, op: AllowedOperator, value: JsValue)
    returns (err: Option<Error>)
    requires IsBoolOrNullOperator(op)
    modifies qb
    ensures var r := IsCondition(fieldExpression, op, value);
      && (r.Ok? ==> qb.log == old(qb.log) + [AndWhere(r.value)] && err.None?)
      && (r.Err? ==> qb.log == old(qb.log) && err == Some(r.error))
  {
    if !IsString(value) {
      return Some(TypeError("value.toUpperCase"));
    }
    var upper := Text.ToUpper(value.s);
    if upper == "TRUE" || upper == "FALSE" {
      qb.AndWhere(Predicate(fieldExpression + " " + Sql(if op == Is then Eq else Neq) + " " + upper, []));
      return None;
    }
    qb.AndWhere(Predicate(fieldExpression + " " + Sql(op) + " " + value.s, []));
    return None;
  }

  /** `applyOperator`: dispatch on the operator; on success exactly one `andWhere` is added. */
  method ApplyOperator(qb: QueryBuilder, op: AllowedOperator, fieldExpression: string, paramName: string, value: JsValue, stringify: JsValue -> string)
    returns (err: Option<Error>)
    modifies qb
    ensures var r := OperatorCondition(op, fieldExpression, paramName, value, stringify);
      && (r.Ok? ==> qb.log == old(qb.log) + [AndWhere(r.value)] && err.None?)
      && (r.Err? ==> qb.log == old(qb.log) && err == Some(r.error))
  {
    match op
    case In | Nin =>
      assert OperatorCondition(op, fieldExpression, paramName, value, stringify) == ListCondition(fieldExpression, op, paramName, value);
      err := ApplyListOperator(qb, fieldExpression, op, paramName, value);
    case Contains | NotContains | StartsWith | EndsWith =>
      assert OperatorCondition(op, fieldExpression, paramName, value, stringify) == LikeCondition(fieldExpression, op, paramName, value);
      err := ApplyLikeOperator(qb, fieldExpression, op, paramName, value);
    case JsonContains =>
      assert OperatorCondition(op, fieldExpression, paramName, value, stringify) == Ok(JsonContainsCondition(fieldExpression, paramName, value, stringify));
      ApplyJsonContainsOperator(qb, fieldExpression, paramName, value, stringify);
      err := None;
    case Is | Nis =>
      assert OperatorCondition(op, fieldExpression, paramName, value, stringify) == IsCondition(fieldExpression, op, value);
      err := ApplyIsOperator(qb, fieldExpression, op, value);
    case _ =>
      assert OperatorCondition(op, fieldExpression, paramName, value, stringify) == Ok(SimpleCondition(fieldExpression, op, paramName, value));
      ApplySimpleOperator(qb, fieldExpression, op, paramName, value);
      err := None;
  }
}
