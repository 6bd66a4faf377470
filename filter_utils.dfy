/**
 * Field-path resolution and LIKE-pattern construction shared by the filter and sort
 * engines: JSON-path extraction, LIKE wildcards around an escaped value, and the
 * split of a dotted path into relation, column and JSON path.
 */
module FilterUtils {
  import opened Wrappers
  import opened Exceptions
  import Text

  /** JavaScript truthiness of an optional string: absent and `""` are both false. */
  predicate IsTruthy(s: Option<string>) {
    s.Some? && |s.value| > 0
  }

  /** `getFieldExpression`: the column itself, or the JSON extraction of `jsonPath` from it. */
  function GetFieldExpression(column: string, jsonPath: Option<string>): (r: string)
    ensures !IsTruthy(jsonPath) ==> r == column
    ensures IsTruthy(jsonPath) ==> r == "JSON_EXTRACT(" + column + ", '$." + jsonPath.value + "')"
  {
    if IsTruthy(jsonPath) then "JSON_EXTRACT(" + column + ", '$." + jsonPath.value + "')" else column
  }

  // ---------------------------------------------------------------- LIKE patterns

  const LikeOperatorNames: set<string> := {"contains", "not_contains", "starts_with", "ends_with"}

  /** `getLikePattern`: the value between the wildcards its operator asks for. */
  function GetLikePattern(operator: string, value: string): (r: Result<string, Error>)
    ensures r.Ok? <==> operator in LikeOperatorNames
    ensures r.Err? ==> r.error == BadRequest("Invalid LIKE operator: " + operator)
    ensures operator == "contains" || operator == "not_contains" ==> r == Ok("%" + value + "%")
    ensures operator == "starts_with" ==> r == Ok(value + "%")
    ensures operator == "ends_with" ==> r == Ok("%" + value)
  {
    if operator == "contains" || operator == "not_contains" then Ok("%" + value + "%")
    else if operator == "starts_with" then Ok(value + "%")
    else if operator == "ends_with" then Ok("%" + value)
    else Err(BadRequest("Invalid LIKE operator: " + operator))
  }

  /** The characters LIKE gives a meaning to: its two wildcards and its escape character. */
  predicate IsLikeSpecial(c: char) {
    c == '%' || c == '_' || c == '\\'
  }

  function CountLikeSpecial(s: string): nat {
    if |s| == 0 then 0 else (if IsLikeSpecial(s[0]) then 1 else 0) + CountLikeSpecial(s[1..])
  }

  /** `escapeLikeString`: a backslash before every `%`, `_` and `\`. */
  function EscapeLikeString(s: string): (r: string)
    ensures |r| == |s| + CountLikeSpecial(s)
  {
    if |s| == 0 then ""
    else (if IsLikeSpecial(s[0]) then ['\\', s[0]] else [s[0]]) + EscapeLikeString(s[1..])
  }

  /** How a LIKE pattern reads, with `\` as its escape character. */
  datatype LikeToken = Literal(c: char) | AnySequence | AnyChar

  function LikeTokens(p: string): seq<LikeToken>
    decreases |p|
  {
    if |p| == 0 then []
    else if p[0] == '\\' && |p| >= 2 then [Literal(p[1])] + LikeTokens(p[2..])
    else if p[0] == '%' then [AnySequence] + LikeTokens(p[1..])
    else if p[0] == '_' then [AnyChar] + LikeTokens(p[1..])
    else [Literal(p[0])] + LikeTokens(p[1..])
  }

  /** A pattern matching exactly the characters of `v`. */
  function Literals(v: string): (ts: seq<LikeToken>)
    ensures |ts| == |v|
  {
    seq(|v|, i requires 0 <= i < |v| => Literal(v[i]))
  }

  lemma LikeTokensEscaped(c: char, rest: string)
    ensures LikeTokens(['\\', c] + rest) == [Literal(c)] + LikeTokens(rest)
  {
    var p := ['\\', c] + rest;
    assert p[0] == '\\' && p[1] == c && p[2..] == rest;
  }

  lemma LikeTokensPlain(c: char, rest: string)
    requires !IsLikeSpecial(c)
    ensures LikeTokens([c] + rest) == [Literal(c)] + LikeTokens(rest)
  {
    var p := [c] + rest;
    assert p[0] == c && p[1..] == rest;
  }

  /** An escaped value reads back as its own characters, taken literally, whatever follows it. */
  lemma {:induction false} EscapedReadsLiterally(v: string, suffix: string)
    ensures LikeTokens(EscapeLikeString(v) + suffix) == Literals(v) + LikeTokens(suffix)
    decreases |v|
  {
    if |v| == 0 {
      assert EscapeLikeString(v) + suffix == suffix;
    } else {
      EscapedReadsLiterally(v[1..], suffix);
      var head := if IsLikeSpecial(v[0]) then ['\\', v[0]] else [v[0]];
      var rest := EscapeLikeString(v[1..]) + suffix;
      assert EscapeLikeString(v) == head + EscapeLikeString(v[1..]);
      Text.ConcatAssoc(head, EscapeLikeString(v[1..]), suffix);
      assert Literals(v) == [Literal(v[0])] + Literals(v[1..]);
      TokensAssoc([Literal(v[0])], Literals(v[1..]), LikeTokens(suffix));
      if IsLikeSpecial(v[0]) {
        LikeTokensEscaped(v[0], rest);
      } else {
        LikeTokensPlain(v[0], rest);
      }
    }
  }

  lemma TokensAssoc(a: seq<LikeToken>, b: seq<LikeToken>, c: seq<LikeToken>)
    ensures a + b + c == a + (b + c)
  {
  }


  /**
   * A LIKE filter over an escaped value matches the value literally: the only
   * wildcards of the bound pattern are those its operator adds.
   */
  lemma EscapedLikePattern(operator: string, v: string)
    requires operator in LikeOperatorNames
    ensures GetLikePattern(operator, EscapeLikeString(v)).Ok?
    ensures var ts := LikeTokens(GetLikePattern(operator, EscapeLikeString(v)).value);
      && (operator == "contains" || operator == "not_contains" ==> ts == [AnySequence] + Literals(v) + [AnySequence])
      && (operator == "starts_with" ==> ts == Literals(v) + [AnySequence])
      && (operator == "ends_with" ==> ts == [AnySequence] + Literals(v))
  {
    var e := EscapeLikeString(v);
    assert LikeTokens("%") == [AnySequence];
    assert LikeTokens("") == [];
    if operator == "contains" || operator == "not_contains" {
      EscapedReadsLiterally(v, "%");
      var p := "%" + e + "%";
      assert p[1..] == e + "%";
    } else if operator == "starts_with" {
      EscapedReadsLiterally(v, "%");
    } else {
      EscapedReadsLiterally(v, "");
      var p := "%" + e;
      assert p[1..] == e + "";
    }
  }

  // ---------------------------------------------------------------- field paths

  /** The result of `parseField`: optional keys are `None` when the object lacks them. */
  datatype ParsedField = ParsedField(field: string, jsonPath: Option<string>, relation: Option<string>)

  /** The message both `parseField` and the sort validation throw. */
  function InvalidSortField(path: string): Error {
    BadRequest("Invalid sort field: " + path)
  }

  /** `parseField(path, joinedFields)`: split a dotted path into relation, column and JSON path. */
  function ParseField(path: string, joinedFields: seq<string>): (r: Result<ParsedField, Error>)
    ensures r.Err? ==> r.error == InvalidSortField(path)
    ensures r.Ok? && r.value.relation.Some? ==> r.value.relation.value in joinedFields
  {
    var parts := Text.Split(path, '.');
    if |parts| == 1 then Ok(ParsedField(parts[0], None, None))
    else if |parts| == 2 then
      if parts[0] in joinedFields then Ok(ParsedField(parts[1], None, Some(parts[0])))
      else Ok(ParsedField(parts[0], Some(parts[1]), None))
    else if |parts| == 3 then
      if parts[0] !in joinedFields then Err(InvalidSortField(path))
      else Ok(ParsedField(parts[1], Some(parts[2]), Some(parts[0])))
    else Err(InvalidSortField(path))
  }

  /** The dotted path a parsed field stands for. */
  function Unparse(pf: ParsedField): string {
    (if pf.relation.Some? then pf.relation.value + "." else "")
    + pf.field
    + (if pf.jsonPath.Some? then "." + pf.jsonPath.value else "")
  }

  /**
   * The parsed fields `parseField` can return: dot-free parts, a relation only when it
   * is joined, and a two-part path without relation only when its head is not joined.
   */
  predicate WellFormed(pf: ParsedField, joinedFields: seq<string>) {
    && '.' !in pf.field
    && (pf.jsonPath.Some? ==> '.' !in pf.jsonPath.value)
    && (pf.relation.Some? ==> '.' !in pf.relation.value && pf.relation.value in joinedFields)
    && (pf.relation.None? && pf.jsonPath.Some? ==> pf.field !in joinedFields)
  }

  /** Whatever `parseField` returns spells the path it was given, and is well formed. */
  lemma ParseFieldSound(path: string, joinedFields: seq<string>)
    requires ParseField(path, joinedFields).Ok?
    ensures Unparse(ParseField(path, joinedFields).value) == path
    ensures WellFormed(ParseField(path, joinedFields).value, joinedFields)
  {
    var parts := Text.Split(path, '.');
    Text.JoinSplit(path, '.');
    Text.SplitParts(path, '.');
    if |parts| == 2 {
      assert Text.Join(parts[1..], '.') == parts[1];
    } else if |parts| == 3 {
      assert Text.Join(parts[2..], '.') == parts[2];
      assert Text.Join(parts[1..], '.') == parts[1] + "." + parts[2];
    }
  }

  /** The segments of the path a parsed field spells. */
  function Segments(pf: ParsedField): seq<string> {
    (if pf.relation.Some? then [pf.relation.value] else [])
    + [pf.field]
    + (if pf.jsonPath.Some? then [pf.jsonPath.value] else [])
  }

  lemma SplitUnparse(pf: ParsedField)
    requires '.' !in pf.field
    requires pf.jsonPath.Some? ==> '.' !in pf.jsonPath.value
    requires pf.relation.Some? ==> '.' !in pf.relation.value
    ensures Text.Split(Unparse(pf), '.') == Segments(pf)
  {
    var tail := pf.field + (if pf.jsonPath.Some? then "." + pf.jsonPath.value else "");
    if pf.jsonPath.Some? {
      Text.SplitNoSeparator(pf.jsonPath.value, '.');
      Text.SplitConcat(pf.field, '.', pf.jsonPath.value);
      assert tail == pf.field + ['.'] + pf.jsonPath.value;
      assert Text.Split(tail, '.') == [pf.field, pf.jsonPath.value];
    } else {
      Text.SplitNoSeparator(pf.field, '.');
      assert tail == pf.field;
    }
    if pf.relation.Some? {
      Text.SplitConcat(pf.relation.value, '.', tail);
      assert Unparse(pf) == pf.relation.value + ['.'] + tail;
    } else {
      assert Unparse(pf) == tail;
    }
  }

  /** Every well-formed parsed field is recovered by `parseField` from the path it spells. */
  lemma ParseFieldComplete(pf: ParsedField, joinedFields: seq<string>)
    requires WellFormed(pf, joinedFields)
    ensures ParseField(Unparse(pf), joinedFields) == Ok(pf)
  {
    SplitUnparse(pf);
    var parts := Segments(pf);
    if pf.relation.Some? && pf.jsonPath.Some? {
      assert parts == [pf.relation.value, pf.field, pf.jsonPath.value];
    } else if pf.relation.Some? {
      assert parts == [pf.relation.value, pf.field];
    } else if pf.jsonPath.Some? {
      assert parts == [pf.field, pf.jsonPath.value];
    } else {
      assert parts == [pf.field];
    }
  }

  /**
   * `parseField` by the number of dots: none gives the bare column; one gives a
   * relation exactly when the head is joined; two demand a joined head; more throw.
   */
  lemma ParseFieldBySegments(path: string, joinedFields: seq<string>)
    ensures var r := ParseField(path, joinedFields); var dots := Text.CountChar(path, '.');
      && (dots == 0 ==> r == Ok(ParsedField(path, None, None)))
      && (dots == 1 ==> r.Ok? && (r.value.relation.Some? <==> Text.Split(path, '.')[0] in joinedFields))
      && (dots == 1 ==> (r.value.relation.Some? <==> r.value.jsonPath.None?))
      && (dots == 2 ==> (r.Ok? <==> Text.Split(path, '.')[0] in joinedFields))
      && (dots == 2 && r.Ok? ==> r.value.relation.Some? && r.value.jsonPath.Some?)
      && (dots >= 3 ==> r == Err(InvalidSortField(path)))
  {
    Text.SplitParts(path, '.');
    if Text.CountChar(path, '.') == 0 {
      Text.JoinSplit(path, '.');
    }
  }
}
