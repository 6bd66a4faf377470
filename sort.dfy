/**
 * `applySort`: the ordering step of a search. A sort path is checked against the same
 * allow-lists as the filter, resolved like a filter field, and turned into at most one
 * join, at most one JSON selection and exactly one `orderBy`.
 */
module Sorting {
  import opened Wrappers
  import opened Exceptions
  import opened QueryBuilders
  import opened FilterUtils
  import Text

  /**
   * The sort part of a request. Absent fields take the defaults `_id` and `ASC`; the
   * request validation only lets `ASC` and `DESC` through as `sortOrder`, which is
   * passed on to `orderBy` as it is.
   */
  datatype SortDto = SortDto(sortBy: Option<string>, sortOrder: string)

  const DefaultSort := SortDto(Some("_id"), "ASC")

  /** `isValidSortField`: the text before the first `.` is an allowed or a joined field. */
  predicate IsValidSortField(sortBy: string, allowedFields: seq<string>, joinedFields: seq<string>) {
    var key := Text.Split(sortBy, '.')[0];
    key in allowedFields || key in joinedFields
  }

  /** `getSortExpression`: the JSON selection's alias, or the column itself. */
  function SortExpression(entityName: string, field: string, jsonPath: Option<string>, relation: Option<string>): string {
    if IsTruthy(relation) then
      if IsTruthy(jsonPath) then relation.value + "_" + field + "_" + jsonPath.value
      else relation.value + "." + field
    else if IsTruthy(jsonPath) then entityName + "_" + field + "_" + jsonPath.value
    else entityName + "." + field
  }

  /** The join and the JSON selection that `applySort` adds ahead of its `orderBy`. */
  function SortJoins(entityName: string, pf: ParsedField): seq<Clause> {
    if IsTruthy(pf.relation) then
      var relation := pf.relation.value;
      [LeftJoin(entityName + "." + relation, entityName + "_" + relation)]
      + (if IsTruthy(pf.jsonPath) then
           [AddSelect("JSON_EXTRACT(" + relation + "." + pf.field + ", '$." + pf.jsonPath.value + "')",
                      relation + "_" + pf.field + "_" + pf.jsonPath.value)]
         else [])
    else if IsTruthy(pf.jsonPath) then
      [AddSelect("JSON_EXTRACT(" + entityName + "." + pf.field + ", '$." + pf.jsonPath.value + "')",
                 entityName + "_" + pf.field + "_" + pf.jsonPath.value)]
    else []
  }

  /** What `applySort` adds to the builder, or what it throws, in which case it has added nothing. */
  function SortClauses(entityName: string, dto: SortDto, allowedFields: seq<string>, joinedFields: seq<string>): Result<seq<Clause>, Error> {
    if !IsTruthy(dto.sortBy) then Ok([])
    else
      var sortBy := dto.sortBy.value;
      if !IsValidSortField(sortBy, allowedFields, joinedFields) then Err(InvalidSortField(sortBy))
      else match ParseField(sortBy, joinedFields)
        case Err(e) => Err(e)
        case Ok(pf) =>
          Ok(SortJoins(entityName, pf) + [OrderBy(SortExpression(entityName, pf.field, pf.jsonPath, pf.relation), dto.sortOrder)])
  }

  method ApplySort(qb: QueryBuilder, entityName: string, dto: SortDto, allowedFields: seq<string>, joinedFields: seq<string>)
      returns (err: Option<Error>)
    modifies qb
    ensures SortClauses(entityName, dto, allowedFields, joinedFields).Ok? ==>
      qb.log == old(qb.log) + SortClauses(entityName, dto, allowedFields, joinedFields).value && err.None?
    ensures SortClauses(entityName, dto, allowedFields, joinedFields).Err? ==>
      qb.log == old(qb.log) && err == Some(SortClauses(entityName, dto, allowedFields, joinedFields).error)
  {
    if dto.sortBy.None? || |dto.sortBy.value| == 0 {
      return None;
    }
    var sortBy := dto.sortBy.value;
    if !IsValidSortField(sortBy, allowedFields, joinedFields) {
      return Some(BadRequest("Invalid sort field: " + sortBy));
    }
    var parsed := ParseField(sortBy, joinedFields);
    if parsed.Err? {
      return Some(parsed.error);
    }
    var pf := parsed.value;
    ghost var start := qb.log;
    if IsTruthy(pf.relation) {
      var relation := pf.relation.value;
      qb.LeftJoin(entityName + "." + relation, entityName + "_" + relation);
      if IsTruthy(pf.jsonPath) {
        var jsonExtractAlias := relation + "_" + pf.field + "_" + pf.jsonPath.value;
        qb.AddSelect("JSON_EXTRACT(" + relation + "." + pf.field + ", '$." + pf.jsonPath.value + "')", jsonExtractAlias);
      }
    } else if IsTruthy(pf.jsonPath) {
      var jsonExtractAlias := entityName + "_" + pf.field + "_" + pf.jsonPath.value;
      qb.AddSelect("JSON_EXTRACT(" + entityName + "." + pf.field + ", '$." + pf.jsonPath.value + "')", jsonExtractAlias);
    }
    assert qb.log == start + SortJoins(entityName, pf);
    var sortExpression := SortExpression(entityName, pf.field, pf.jsonPath, pf.relation);
    qb.OrderBy(sortExpression, dto.sortOrder);
    return None;
  }

  /** The key checked is exactly the text before the first `.`, or the whole path when it has none. */
  lemma SortKeyBeforeFirstDot(sortBy: string, key: string, rest: string, allowedFields: seq<string>, joinedFields: seq<string>)
    ensures '.' !in sortBy ==>
      (IsValidSortField(sortBy, allowedFields, joinedFields) <==> sortBy in allowedFields || sortBy in joinedFields)
    ensures sortBy == key + "." + rest && '.' !in key ==>
      (IsValidSortField(sortBy, allowedFields, joinedFields) <==> key in allowedFields || key in joinedFields)
  {
    if '.' !in sortBy {
      Text.SplitNoSeparator(sortBy, '.');
    }
    if sortBy == key + "." + rest && '.' !in key {
      assert sortBy == key + ['.'] + rest;
      Text.SplitConcat(key, '.', rest);
    }
  }

  /**
   * Every error of the sort step carries the one message `Invalid sort field: <sortBy>`;
   * it is thrown exactly when a sort path is given whose key is not allowed or which
   * does not resolve.
   */
  lemma SortErrors(entityName: string, dto: SortDto, allowedFields: seq<string>, joinedFields: seq<string>)
    ensures SortClauses(entityName, dto, allowedFields, joinedFields).Err? <==>
      IsTruthy(dto.sortBy) &&
      (!IsValidSortField(dto.sortBy.value, allowedFields, joinedFields) || ParseField(dto.sortBy.value, joinedFields).Err?)
    ensures SortClauses(entityName, dto, allowedFields, joinedFields).Err? ==>
      SortClauses(entityName, dto, allowedFields, joinedFields).error == BadRequest("Invalid sort field: " + dto.sortBy.value)
  {
  }

  /**
   * With a sort path, the step ends in exactly one `orderBy` carrying the requested
   * order; before it come at most one `leftJoin` and at most one `addSelect`, in that
   * order. Without one, it adds nothing.
   */
  lemma SortOneOrderBy(entityName: string, dto: SortDto, allowedFields: seq<string>, joinedFields: seq<string>)
    requires SortClauses(entityName, dto, allowedFields, joinedFields).Ok?
    ensures var cs := SortClauses(entityName, dto, allowedFields, joinedFields).value;
      && (!IsTruthy(dto.sortBy) <==> cs == [])
      && (IsTruthy(dto.sortBy) ==>
            && 1 <= |cs| <= 3
            && cs[|cs| - 1].OrderBy? && cs[|cs| - 1].order == dto.sortOrder
            && (forall i :: 0 <= i < |cs| - 1 ==> !cs[i].OrderBy?)
            && (forall i :: 0 < i < |cs| - 1 ==> cs[i].AddSelect?)
            && (|cs| > 1 ==> cs[0].LeftJoin? || cs[0].AddSelect?))
  {
    if IsTruthy(dto.sortBy) {
      var pf := ParseField(dto.sortBy.value, joinedFields).value;
      var joins := SortJoins(entityName, pf);
      var cs := SortClauses(entityName, dto, allowedFields, joinedFields).value;
      assert cs == joins + [OrderBy(SortExpression(entityName, pf.field, pf.jsonPath, pf.relation), dto.sortOrder)];
      assert |joins| <= 2 && (forall i :: 0 <= i < |joins| ==> !joins[i].OrderBy?) && (forall i :: 0 < i < |joins| ==> joins[i].AddSelect?);
      forall i | 0 <= i < |cs| - 1 ensures cs[i] == joins[i] { }
    }
  }

  /**
   * How a resolved sort path orders the rows: a JSON path is selected under an alias
   * and the rows are ordered by that same alias; a relation is joined as
   * `entity.relation` under `entity_relation`, yet a relation column without JSON path
   * is ordered by `relation.field`, the bare relation name; a plain column by `entity.field`.
   */
  lemma SortOrderExpression(entityName: string, dto: SortDto, allowedFields: seq<string>, joinedFields: seq<string>)
    requires IsTruthy(dto.sortBy) && SortClauses(entityName, dto, allowedFields, joinedFields).Ok?
    ensures var cs := SortClauses(entityName, dto, allowedFields, joinedFields).value;
      var pf := ParseField(dto.sortBy.value, joinedFields).value;
      var order := cs[|cs| - 1].sort;
      && (IsTruthy(pf.jsonPath) <==> |cs| >= 2 && cs[|cs| - 2].AddSelect?)
      && (IsTruthy(pf.jsonPath) ==> order == cs[|cs| - 2].selectionAlias)
      && (IsTruthy(pf.relation) <==> cs[0].LeftJoin?)
      && (IsTruthy(pf.relation) ==> cs[0] == LeftJoin(entityName + "." + pf.relation.value, entityName + "_" + pf.relation.value))
      && (IsTruthy(pf.relation) && !IsTruthy(pf.jsonPath) ==> order == pf.relation.value + "." + pf.field)
      && (!IsTruthy(pf.relation) && !IsTruthy(pf.jsonPath) ==> order == entityName + "." + pf.field)
  {
  }
}
