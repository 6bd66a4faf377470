/** The closed operator set of the filter engine and the SQL fragment of each operator. */
module FilterConstants {
  import opened Wrappers

  datatype AllowedOperator =
    | Eq | Neq | Gt | Gte | Lt | Lte
    | In | Nin
    | Contains | NotContains | StartsWith | EndsWith
    | JsonContains
    | Is | Nis

  /** `ALLOWED_OPERATORS`, in declaration order. */
  const AllowedOperators: seq<string> := [
    "eq", "neq", "gt", "gte", "lt", "lte", "in", "nin",
    "contains", "not_contains", "starts_with", "ends_with",
    "json_contains", "is", "nis"
  ]

  /** `OPERATOR_MAP`: the SQL fragment keyed by operator name. */
  const OperatorMap: map<string, string> := map[
    "eq" := "=", "neq" := "!=", "gt" := ">", "gte" := ">=", "lt" := "<", "lte" := "<=",
    "in" := "IN", "nin" := "NOT IN",
    "contains" := "LIKE", "not_contains" := "NOT LIKE", "starts_with" := "LIKE", "ends_with" := "LIKE",
    "json_contains" := "JSON_CONTAINS",
    "is" := "IS", "nis" := "IS NOT"
  ]

  /** The operator's name as it appears in a filter. */
  function Name(op: AllowedOperator): (s: string)
    ensures s in AllowedOperators
  {
    match op
    case Eq => "eq"
    case Neq => "neq"
    case Gt => "gt"
    case Gte => "gte"
    case Lt => "lt"
    case Lte => "lte"
    case In => "in"
    case Nin => "nin"
    case Contains => "contains"
    case NotContains => "not_contains"
    case StartsWith => "starts_with"
    case EndsWith => "ends_with"
    case JsonContains => "json_contains"
    case Is => "is"
    case Nis => "nis"
  }

  /** `ALLOWED_OPERATORS.includes(s)`, together with the operator so named. */
  function FromName(s: string): (r: Option<AllowedOperator>)
    ensures r.Some? <==> s in AllowedOperators
    ensures r.Some? ==> Name(r.value) == s
  {
    if s == "eq" then Some(Eq)
    else if s == "neq" then Some(Neq)
    else if s == "gt" then Some(Gt)
    else if s == "gte" then Some(Gte)
    else if s == "lt" then Some(Lt)
    else if s == "lte" then Some(Lte)
    else if s == "in" then Some(In)
    else if s == "nin" then Some(Nin)
    else if s == "contains" then Some(Contains)
    else if s == "not_contains" then Some(NotContains)
    else if s == "starts_with" then Some(StartsWith)
    else if s == "ends_with" then Some(EndsWith)
    else if s == "json_contains" then Some(JsonContains)
    else if s == "is" then Some(Is)
    else if s == "nis" then Some(Nis)
    else None
  }

  /** `OPERATOR_MAP[op]`: the lookup is defined for every operator, so the record is total. */
  function Sql(op: AllowedOperator): string {
    OperatorMap[Name(op)]
  }

  /** Names pick out operators one-to-one. */
  lemma NameInjective(a: AllowedOperator, b: AllowedOperator)
    ensures Name(a) == Name(b) ==> a == b
    ensures FromName(Name(a)) == Some(a)
  {
    NameRoundTrip(a);
    NameRoundTrip(b);
  }

  /** Looking up an operator's name gives back the operator. */
  lemma NameRoundTrip(a: AllowedOperator)
    ensures FromName(Name(a)) == Some(a)
  {
    match a
    case Eq => case Neq => case Gt => case Gte => case Lt => case Lte =>
    case In => case Nin =>
    case Contains => case NotContains => case StartsWith => case EndsWith =>
    case JsonContains =>
    case Is => case Nis =>
  }

  /** `ALLOWED_OPERATORS` lists exactly fifteen distinct operators, each one once. */
  lemma AllowedOperatorsDistinct()
    ensures |AllowedOperators| == 15
    ensures forall i, j :: 0 <= i < j < |AllowedOperators| ==> AllowedOperators[i] != AllowedOperators[j]
    ensures forall op: AllowedOperator :: Name(op) in AllowedOperators
  {
  }

  /** `OPERATOR_MAP` has a fragment for exactly the allowed operators. */
  lemma OperatorMapTotal()
    ensures forall s :: s in OperatorMap <==> s in AllowedOperators
  {
  }

  /** The four pattern operators share `LIKE`, except `not_contains`, which is its negation. */
  lemma LikeFragments()
    ensures Sql(Contains) == Sql(StartsWith) == Sql(EndsWith) == "LIKE"
    ensures Sql(NotContains) == "NOT " + Sql(Contains)
  {
  }

  /** The negated pairs: eq/neq, in/nin and is/nis. */
  lemma NegatedPairs()
    ensures Sql(Eq) == "=" && Sql(Neq) == "!="
    ensures Sql(In) == "IN" && Sql(Nin) == "NOT " + Sql(In)
    ensures Sql(Is) == "IS" && Sql(Nis) == Sql(Is) + " NOT"
  {
    EqualityPair();
    ListPair();
    NullPair();
  }

  lemma EqualityPair()
    ensures Sql(Eq) == "=" && Sql(Neq) == "!="
  {
  }

  lemma ListPair()
    ensures Sql(In) == "IN" && Sql(Nin) == "NOT " + Sql(In)
  {
  }

  lemma NullPair()
    ensures Sql(Is) == "IS" && Sql(Nis) == Sql(Is) + " NOT"
  {
  }

  predicate IsListOperator(op: AllowedOperator) { op.In? || op.Nin? }
  predicate IsLikeOperator(op: AllowedOperator) { op.Contains? || op.NotContains? || op.StartsWith? || op.EndsWith? }
  predicate IsBoolOrNullOperator(op: AllowedOperator) { op.Is? || op.Nis? }
  predicate IsComparisonOperator(op: AllowedOperator) { op.Eq? || op.Neq? || op.Gt? || op.Gte? || op.Lt? || op.Lte? }
}
