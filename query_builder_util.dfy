/**
 * The older query-builder helpers: `parseField(entityName, field)` splits a dotted
 * field into the column to select and the JSON path below it, and `escapeLikeString`
 * escapes the LIKE wildcards exactly as the filter engine does.
 */
module QueryBuilderUtil {
  import opened Wrappers
  import Text
  import FilterUtils

  /** `parseField(entityName, field)`: `[column, jsonPath]`, with `null` for a field without a dot. */
  function ParseColumn(entityName: string, field: string): (r: (string, Option<string>))
    ensures r.1.None? <==> '.' !in field
  {
    var parts := Text.Split(field, '.');
    Text.SplitParts(field, '.');
    if |parts| == 1 then
      assert '.' !in field by { Text.JoinSplit(field, '.'); }
      (entityName + "." + field, None)
    else
      assert '.' in field by { CountedCharOccurs(field, '.'); }
      (entityName + "." + parts[0], Some(Text.Join(parts[1..], '.')))
  }

  /** A character counted at least once occurs. */
  lemma {:induction false} CountedCharOccurs(s: string, c: char)
    requires Text.CountChar(s, c) > 0
    ensures c in s
    decreases |s|
  {
    if s[0] != c {
      CountedCharOccurs(s[1..], c);
      var k :| 0 <= k < |s| - 1 && s[1..][k] == c;
      assert s[k + 1] == c;
    }
  }

  /** A field without a dot is a column of the entity itself, with no JSON path. */
  lemma ParseOneSegment(entityName: string, field: string)
    requires '.' !in field
    ensures ParseColumn(entityName, field) == (entityName + "." + field, None)
  {
    Text.SplitNoSeparator(field, '.');
  }

  /**
   * A dotted field selects the column named before its first dot; everything after that
   * dot, further dots included, is the JSON path.
   */
  lemma ParseAtFirstDot(entityName: string, first: string, rest: string)
    requires '.' !in first
    ensures ParseColumn(entityName, first + "." + rest) == (entityName + "." + first, Some(rest))
  {
    var field := first + "." + rest;
    assert field == first + ['.'] + rest;
    Text.SplitConcat(first, '.', rest);
    var parts := Text.Split(field, '.');
    assert parts[0] == first && parts[1..] == Text.Split(rest, '.');
    Text.JoinSplit(rest, '.');
  }

  /** Every dotted field is the parsed column's name, a dot and the JSON path, in that order. */
  lemma ParseReconstructs(entityName: string, field: string)
    requires '.' in field
    ensures var (column, jsonPath) := ParseColumn(entityName, field);
      exists first :: '.' !in first && column == entityName + "." + first &&
        jsonPath.Some? && field == first + "." + jsonPath.value
  {
    var i := FirstIndex(field, '.');
    var first, rest := field[..i], field[i + 1..];
    assert field == first + "." + rest;
    ParseAtFirstDot(entityName, first, rest);
  }

  /** The index of the first occurrence of `c` in `s`. */
  lemma {:induction false} FirstIndex(s: string, c: char) returns (i: nat)
    requires c in s
    ensures i < |s| && s[i] == c && c !in s[..i]
    decreases |s|
  {
    if s[0] == c {
      i := 0;
    } else {
      assert c in s[1..];
      var j := FirstIndex(s[1..], c);
      i := j + 1;
      assert s[..i] == [s[0]] + s[1..][..j];
    }
  }

  /** `value.replace(/[%_\\]/g, '\\$&')`: each character is replaced by its own escaped form. */
  function EscapeLikeString(value: string): (r: string)
    ensures r == FilterUtils.EscapeLikeString(value)
    decreases |value|
  {
    if |value| == 0 then ""
    else
      var init := value[..|value| - 1];
      var last := value[|value| - 1];
      assert value == init + [last];
      EscapeAppend(init, last);
      EscapeLikeString(init) + EscapedChar(last)
  }

  /** The replacement the pattern `[%_\\]` with `\\$&` makes for one character. */
  function EscapedChar(c: char): string {
    if FilterUtils.IsLikeSpecial(c) then ['\\', c] else [c]
  }

  lemma {:induction false} EscapeAppend(s: string, c: char)
    ensures FilterUtils.EscapeLikeString(s + [c]) == FilterUtils.EscapeLikeString(s) + EscapedChar(c)
    decreases |s|
  {
    if |s| == 0 {
      assert [c][1..] == "";
    } else {
      assert (s + [c])[1..] == s[1..] + [c];
      EscapeAppend(s[1..], c);
    }
  }
}
