/**
 * The compact filter syntax `[and_|or_]key-operator-value,...` of the second search
 * endpoint, read into the filter tree the walk consumes: one logical node whose children
 * are one-field, one-operator leaves.
 */
module FilterGrammar {
  import opened Wrappers
  import opened Exceptions
  import opened JsValues
  import opened Text

  // ---------------------------------------------------------------- Number()

  predicate AllDigits(s: string) {
    forall i :: 0 <= i < |s| ==> IsDigit(s[i])
  }

  /** The value of the digits after a decimal point: `0.d1d2...`. */
  function FractionValue(s: string): real
    requires AllDigits(s)
  {
    if |s| == 0 then 0.0 else (DigitValue(s[0]) as real + FractionValue(s[1..])) / 10.0
  }

  /** An unsigned decimal literal: digits, optionally a `.` and more digits, at least one digit in all. */
  predicate IsUnsignedDecimal(b: string) {
    var p := Split(b, '.');
    || (|p| == 1 && |p[0]| > 0 && AllDigits(p[0]))
    || (|p| == 2 && AllDigits(p[0]) && AllDigits(p[1]) && |p[0]| + |p[1]| > 0)
  }

  /** The value of an unsigned decimal literal. */
  function DecimalValue(b: string): real
    requires IsUnsignedDecimal(b)
  {
    var p := Split(b, '.');
    DigitsValue(p[0]) as real + (if |p| == 2 then FractionValue(p[1]) else 0.0)
  }

  function UnsignedDecimal(b: string): Option<real> {
    if IsUnsignedDecimal(b) then Some(DecimalValue(b)) else None
  }

  /** A trimmed numeric text: empty is 0, and one sign may lead an unsigned literal. `None` stands for `NaN`. */
  function SignedDecimal(t: string): Option<real> {
    if |t| == 0 then Some(0.0)
    else if t[0] == '-' then
      match UnsignedDecimal(t[1..]) case None => None case Some(x) => Some(-x)
    else if t[0] == '+' then UnsignedDecimal(t[1..])
    else UnsignedDecimal(t)
  }

  /** `Number(s)` for the decimal forms: surrounding white space is ignored. */
  function NumberOf(s: string): Option<real> {
    SignedDecimal(Trim(s))
  }

  /** `isNaN(Number(v)) ? v : Number(v)`. */
  function Coerce(v: string): JsValue {
    match NumberOf(v)
    case Some(x) => Num(x)
    case None => Str(v)
  }

  lemma TrimPlain(s: string)
    requires |s| > 0 && !IsSpace(s[0]) && !IsSpace(s[|s| - 1])
    ensures Trim(s) == s
  {
  }

  lemma DigitsHaveNoPoint(d: string)
    requires AllDigits(d)
    ensures '.' !in d
  {
  }

  lemma UnsignedWhole(d: string)
    requires |d| > 0 && AllDigits(d)
    ensures UnsignedDecimal(d) == Some(DigitsValue(d) as real)
  {
    DigitsHaveNoPoint(d);
    SplitNoSeparator(d, '.');
  }

  lemma SplitAtPoint(d: string, b: string)
    requires AllDigits(d) && AllDigits(b)
    ensures Split(d + "." + b, '.') == [d, b]
  {
    DigitsHaveNoPoint(d);
    DigitsHaveNoPoint(b);
    assert d + "." + b == d + ['.'] + b;
    SplitConcat(d, '.', b);
    SplitNoSeparator(b, '.');
  }

  /** A text that splits at its one point into two digit runs is an unsigned literal with that value. */
  lemma DecimalOfParts(s: string, d: string, b: string)
    requires Split(s, '.') == [d, b] && AllDigits(d) && AllDigits(b) && |d| + |b| > 0
    ensures UnsignedDecimal(s) == Some(DigitsValue(d) as real + FractionValue(b))
  {
    var p := Split(s, '.');
    assert |p| == 2 && p[0] == d && p[1] == b;
    assert IsUnsignedDecimal(s);
    assert DecimalValue(s) == DigitsValue(p[0]) as real + FractionValue(p[1]);
  }

  lemma UnsignedFraction(d: string, b: string)
    requires AllDigits(d) && AllDigits(b) && |d| + |b| > 0
    ensures UnsignedDecimal(d + "." + b) == Some(DigitsValue(d) as real + FractionValue(b))
  {
    SplitAtPoint(d, b);
    DecimalOfParts(d + "." + b, d, b);
  }

  /** A trimmed literal that starts with a digit is read as an unsigned literal. */
  lemma NumberOfUnsigned(t: string)
    requires |t| > 0 && IsDigit(t[0]) && !IsSpace(t[|t| - 1])
    ensures NumberOf(t) == UnsignedDecimal(t)
  {
    TrimPlain(t);
    assert NumberOf(t) == SignedDecimal(t);
  }

  /** A leading minus sign negates what follows it. */
  lemma NumberOfNegated(t: string)
    requires |t| == 0 || !IsSpace(t[|t| - 1])
    ensures UnsignedDecimal(t).None? ==> NumberOf("-" + t).None?
    ensures UnsignedDecimal(t).Some? ==> NumberOf("-" + t) == Some(-UnsignedDecimal(t).value)
  {
    var m := "-" + t;
    assert m[0] == '-' && (|t| > 0 ==> m[|m| - 1] == t[|t| - 1]);
    TrimPlain(m);
    assert NumberOf(m) == SignedDecimal(m);
    assert m[1..] == t;
  }

  /** A string of digits is read as the whole number it denotes. */
  lemma NumberOfDigits(d: string)
    requires |d| > 0 && AllDigits(d)
    ensures NumberOf(d) == Some(DigitsValue(d) as real)
  {
    assert IsDigit(d[0]) && IsDigit(d[|d| - 1]);
    UnsignedWhole(d);
    NumberOfUnsigned(d);
  }

  /** The base-ten text of a whole number reads back as that number. */
  lemma NumberOfNatural(n: nat)
    ensures NumberOf(NatToString(n)) == Some(n as real)
  {
    var d := NatToString(n);
    assert AllDigits(d);
    NumberOfDigits(d);
    DigitsOfNatToString(n);
  }

  /** The digits after a point make up a fraction below one. */
  lemma {:induction false} FractionBelowOne(s: string)
    requires AllDigits(s)
    ensures 0.0 <= FractionValue(s) < 1.0
  {
    if |s| > 0 {
      assert AllDigits(s[1..]) by { forall i | 0 <= i < |s| - 1 ensures IsDigit(s[1..][i]) { assert s[1..][i] == s[i + 1]; } }
      FractionBelowOne(s[1..]);
    }
  }

  /** A number with a fraction is read digit for digit: `a.b` has the value a + 0.b, whose whole part is a. */
  lemma NumberOfFraction(a: nat, b: string)
    requires |b| > 0 && AllDigits(b)
    ensures NumberOf(NatToString(a) + "." + b) == Some(a as real + FractionValue(b))
    ensures (a as real) <= NumberOf(NatToString(a) + "." + b).value < (a + 1) as real
  {
    var d := NatToString(a);
    var s := d + "." + b;
    DigitsOfNatToString(a);
    UnsignedFraction(d, b);
    assert s[0] == d[0] && s[|s| - 1] == b[|b| - 1];
    NumberOfUnsigned(s);
    FractionBelowOne(b);
  }

  /** The empty and the blank string are the number 0. */
  lemma NumberOfBlank()
    ensures NumberOf("") == Some(0.0)
    ensures NumberOf(" ") == Some(0.0)
  {
    assert Trim(" ") == "" by { assert TrimStart(" ") == TrimStart(" "[1..]) == ""; }
  }

  /** A trimmed text holding a letter and no point is not a number. */
  lemma WordIsNaN(w: string, k: nat)
    requires |w| > 0 && w[0] != '-' && w[0] != '+'
    requires !IsSpace(w[0]) && !IsSpace(w[|w| - 1]) && '.' !in w
    requires k < |w| && !IsDigit(w[k])
    ensures NumberOf(w) == None
  {
    TrimPlain(w);
    assert NumberOf(w) == SignedDecimal(w);
    SplitNoSeparator(w, '.');
    assert !AllDigits(w);
  }

  lemma LoneSignIsNaN()
    ensures NumberOf("-") == None
  {
    NumberOfNegated("");
    SplitNoSeparator("", '.');
  }

  lemma LonePointIsNaN()
    ensures NumberOf(".") == None
  {
    TrimPlain(".");
    assert NumberOf(".") == SignedDecimal(".");
    assert "." == "" + ['.'] + "";
    SplitConcat("", '.', "");
  }

  /** A lone sign, a lone point and text with a letter are not numbers. */
  lemma NotANumber()
    ensures NumberOf("abc") == None
    ensures NumberOf("-") == None
    ensures NumberOf(".") == None
    ensures NumberOf("12abc") == None
  {
    WordIsNaN("abc", 0);
    LoneSignIsNaN();
    LonePointIsNaN();
    WordIsNaN("12abc", 2);
  }

  // ---------------------------------------------------------------- grammar

  /**
   * `parseFilterCondition`: `key-operator-value`, split on `-`, parts after the third
   * dropped. A missing operator becomes the key `undefined` and a missing value the value
   * `undefined`; `in` and `nin` split the value on `|`, which throws when it is missing.
   */
  function ParseFilterCondition(condition: string): Result<JsValue, Error> {
    var parts := Split(condition, '-');
    var key := parts[0];
    var operator := if |parts| > 1 then Some(parts[1]) else None;
    var value := if |parts| > 2 then Some(parts[2]) else None;
    var operatorKey := if operator.Some? then operator.value else "undefined";
    if operator == Some("in") || operator == Some("nin") then
      match value
      case None => Err(TypeError("value.split"))
      case Some(v) =>
        var elements := Split(v, '|');
        Ok(Obj([Prop(key, Obj([Prop(operatorKey, Arr(seq(|elements|, i requires 0 <= i < |elements| => Coerce(elements[i]))))]))]))
    else
      var parsed := match value case None => Undefined case Some(v) => Coerce(v);
      Ok(Obj([Prop(key, Obj([Prop(operatorKey, parsed)]))]))
  }

  /** The leaves of the pieces, in order; the first piece that throws ends the parse. */
  function ParseConditions(pieces: seq<string>): (r: Result<seq<JsValue>, Error>)
    ensures r.Ok? ==> |r.value| == |pieces|
    ensures r.Ok? ==> forall i :: 0 <= i < |pieces| ==> ParseFilterCondition(pieces[i]) == Ok(r.value[i])
  {
    if |pieces| == 0 then Ok([])
    else match ParseFilterCondition(pieces[0])
      case Err(e) => Err(e)
      case Ok(first) =>
        match ParseConditions(pieces[1..])
        case Err(e) => Err(e)
        case Ok(rest) => Ok([first] + rest)
  }

  /** `value.replace(/^(or|and)_/, '')`. */
  function StripLogicalPrefix(v: string): string {
    if StartsWith(v, "or_") then v[3..] else if StartsWith(v, "and_") then v[4..] else v
  }

  /** `transformFilterExpression`: absent or empty input is the empty filter `{}`. */
  function TransformFilterExpression(value: Option<string>): Result<JsValue, Error> {
    if value.None? || value.value == "" then Ok(Obj([]))
    else
      var v := value.value;
      var logicalOperator := if StartsWith(v, "or_") then "or" else "and";
      match ParseConditions(Split(StripLogicalPrefix(v), ','))
      case Err(e) => Err(e)
      case Ok(conditions) => Ok(Obj([Prop(logicalOperator, Arr(conditions))]))
  }

  // ---------------------------------------------------------------- properties

  /** A leaf, as this grammar produces it: one field mapped to one operator. */
  predicate IsLeaf(v: JsValue) {
    v.Obj? && |v.props| == 1 && v.props[0].value.Obj? && |v.props[0].value.props| == 1
  }

  /** Every piece that parses is one leaf whose field is the text before the first `-`. */
  lemma ConditionIsLeaf(condition: string)
    requires ParseFilterCondition(condition).Ok?
    ensures var v := ParseFilterCondition(condition).value;
      IsLeaf(v) && v.props[0].key == Split(condition, '-')[0]
  {
  }

  /**
   * Reading `key-operator-value` back: the leaf maps `key` to `operator`, with the value
   * coerced once, or split on `|` and coerced element by element for `in` and `nin`;
   * whatever follows a third `-` is ignored.
   */
  lemma ConditionParts(key: string, operator: string, value: string, rest: string)
    requires '-' !in key && '-' !in operator && '-' !in value
    ensures var c := key + "-" + operator + "-" + value;
      && ParseFilterCondition(c + "-" + rest) == ParseFilterCondition(c)
      && (operator != "in" && operator != "nin" ==>
            ParseFilterCondition(c) == Ok(Obj([Prop(key, Obj([Prop(operator, Coerce(value))]))])))
      && (operator == "in" || operator == "nin" ==>
            var elements := Split(value, '|');
            ParseFilterCondition(c) ==
              Ok(Obj([Prop(key, Obj([Prop(operator, Arr(seq(|elements|, i requires 0 <= i < |elements| => Coerce(elements[i]))))]))])))
  {
    var c := key + "-" + operator + "-" + value;
    SeparatorSplit3(key, operator, value, []);
    SeparatorSplit3(key, operator, value, [rest]);
    assert c + "-" + rest == key + ['-'] + (operator + ['-'] + (value + ['-'] + rest));
    assert c == key + ['-'] + (operator + ['-'] + value);
  }

  lemma SeparatorSplit3(key: string, operator: string, value: string, rest: seq<string>)
    requires '-' !in key && '-' !in operator && '-' !in value && |rest| <= 1
    ensures |rest| == 0 ==> Split(key + ['-'] + (operator + ['-'] + value), '-') == [key, operator, value]
    ensures |rest| == 1 ==>
      Split(key + ['-'] + (operator + ['-'] + (value + ['-'] + rest[0])), '-') == [key, operator, value] + Split(rest[0], '-')
  {
    if |rest| == 0 {
      SplitNoSeparator(value, '-');
      SplitConcat(operator, '-', value);
      SplitConcat(key, '-', operator + ['-'] + value);
    } else {
      SplitConcat(value, '-', rest[0]);
      SplitConcat(operator, '-', value + ['-'] + rest[0]);
      SplitConcat(key, '-', operator + ['-'] + (value + ['-'] + rest[0]));
    }
  }

  /**
   * The shape of the whole filter: empty input gives `{}`; otherwise one node, `or`
   * exactly when the input starts with `or_` and `and` for everything else, holding one
   * leaf per comma-separated piece of the input without its one leading `or_`/`and_`, in order.
   */
  lemma TransformShape(value: Option<string>)
    requires TransformFilterExpression(value).Ok?
    ensures var r := TransformFilterExpression(value).value;
      && (value.None? || value.value == "" <==> r == Obj([]))
      && (value.Some? && value.value != "" ==>
            var pieces := Split(StripLogicalPrefix(value.value), ',');
            && |r.props| == 1
            && r.props[0].key == (if StartsWith(value.value, "or_") then "or" else "and")
            && r.props[0].value.Arr? && |r.props[0].value.items| == |pieces|
            && forall i :: 0 <= i < |pieces| ==>
                 ParseFilterCondition(pieces[i]) == Ok(r.props[0].value.items[i]) && IsLeaf(r.props[0].value.items[i]))
  {
    if value.Some? && value.value != "" {
      var pieces := Split(StripLogicalPrefix(value.value), ',');
      forall i | 0 <= i < |pieces| ensures IsLeaf(ParseFilterCondition(pieces[i]).value) {
        ConditionIsLeaf(pieces[i]);
      }
    }
  }

  /** The parse fails exactly when some piece uses `in` or `nin` without a value, and then the first such piece decides. */
  lemma {:induction false} ParseConditionsErrors(pieces: seq<string>)
    ensures ParseConditions(pieces).Err? <==> exists i :: 0 <= i < |pieces| && ParseFilterCondition(pieces[i]).Err?
    ensures ParseConditions(pieces).Err? ==> ParseConditions(pieces).error == TypeError("value.split")
  {
    if |pieces| > 0 {
      ParseConditionsErrors(pieces[1..]);
      if ParseFilterCondition(pieces[0]).Ok? && exists i :: 0 <= i < |pieces| && ParseFilterCondition(pieces[i]).Err? {
        var i :| 0 <= i < |pieces| && ParseFilterCondition(pieces[i]).Err?;
        assert pieces[1..][i - 1] == pieces[i];
      }
      if exists i :: 0 <= i < |pieces| - 1 && ParseFilterCondition(pieces[1..][i]).Err? {
        var i :| 0 <= i < |pieces| - 1 && ParseFilterCondition(pieces[1..][i]).Err?;
        assert pieces[i + 1] == pieces[1..][i];
      }
    }
  }
}
