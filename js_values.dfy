/**
 * JavaScript values as the core receives them: decoded JSON (`JSON.parse` of the
 * query string), plus `undefined` and `Date`. An object lists its own properties in
 * JavaScript's enumeration order, which is the order `Object.keys`, `Object.entries`
 * and `for ... in` visit them.
 */
module JsValues {
  import opened Wrappers
  import Text

  datatype JsValue =
    | Undefined
    | Null
    | Bool(b: bool)
    | Num(n: real)
    | Str(s: string)
    | Arr(items: seq<JsValue>)
    | Obj(props: seq<Prop>)
    | Date(epochMs: int)

  datatype Prop = Prop(key: string, value: JsValue)

  function Keys(props: seq<Prop>): (ks: seq<string>)
    ensures |ks| == |props| && forall i :: 0 <= i < |props| ==> ks[i] == props[i].key
  {
    seq(|props|, i requires 0 <= i < |props| => props[i].key)
  }

  /** A JavaScript object never holds two properties with the same key. */
  predicate UniqueKeys(props: seq<Prop>) {
    forall i, j :: 0 <= i < j < |props| ==> props[i].key != props[j].key
  }

  /** `obj[key] = value`: an existing key keeps its position and takes the new value; a new key goes last. */
  function Put(props: seq<Prop>, key: string, value: JsValue): (r: seq<Prop>)
    ensures key in Keys(props) ==> |r| == |props|
    ensures key !in Keys(props) ==> r == props + [Prop(key, value)]
    ensures key in Keys(r)
    ensures forall i :: 0 <= i < |r| ==> r[i].key in Keys(props) || r[i].key == key
  {
    if |props| == 0 then
      assert Keys([Prop(key, value)])[0] == key;
      [Prop(key, value)]
    else if props[0].key == key then
      assert Keys([Prop(key, value)] + props[1..])[0] == key;
      [Prop(key, value)] + props[1..]
    else
      var rest := Put(props[1..], key, value);
      assert Keys(props) == [props[0].key] + Keys(props[1..]);
      assert Keys([props[0]] + rest) == [props[0].key] + Keys(rest);
      [props[0]] + rest
  }

  /** `obj[key]` on an object's own properties (`undefined` when absent). */
  function Get(props: seq<Prop>, key: string): JsValue {
    if |props| == 0 then Undefined
    else if props[0].key == key then props[0].value
    else Get(props[1..], key)
  }

  /** After `obj[key] = value`, reading `obj[key]` gives `value` and every other key reads as before. */
  lemma {:induction false} GetPut(props: seq<Prop>, key: string, value: JsValue, other: string)
    ensures Get(Put(props, key, value), key) == value
    ensures other != key ==> Get(Put(props, key, value), other) == Get(props, other)
  {
    if |props| > 0 && props[0].key != key {
      GetPut(props[1..], key, value, other);
    }
  }

  /** `obj[key] = value` removes no key the object had. */
  lemma {:induction false} PutKeepsKeys(props: seq<Prop>, key: string, value: JsValue, k: string)
    requires k in Keys(props)
    ensures k in Keys(Put(props, key, value))
  {
    var r := Put(props, key, value);
    var i :| 0 <= i < |props| && Keys(props)[i] == k;
    if props[0].key == key {
      assert r == [Prop(key, value)] + props[1..];
      assert Keys(r)[i] == k;
    } else if i == 0 {
      assert Keys(r)[0] == k;
    } else {
      var rest := Put(props[1..], key, value);
      assert r == [props[0]] + rest;
      assert Keys(props[1..])[i - 1] == k;
      PutKeepsKeys(props[1..], key, value, k);
      var j :| 0 <= j < |rest| && Keys(rest)[j] == k;
      assert Keys(r)[j + 1] == k;
    }
  }

  /** Assigning a property keeps an object's keys distinct. */
  lemma {:induction false} PutUnique(props: seq<Prop>, key: string, value: JsValue)
    requires UniqueKeys(props)
    ensures UniqueKeys(Put(props, key, value))
  {
    if |props| > 0 && props[0].key != key {
      var rest := Put(props[1..], key, value);
      PutUnique(props[1..], key, value);
      assert props[0].key !in Keys(rest) by {
        assert props[0].key !in Keys(props[1..]);
      }
      ConsUnique(props[0], rest);
    }
  }

  /** A property whose key the rest lacks keeps the keys distinct when put in front. */
  lemma ConsUnique(p: Prop, rest: seq<Prop>)
    requires UniqueKeys(rest) && p.key !in Keys(rest)
    ensures UniqueKeys([p] + rest)
  {
    var r := [p] + rest;
    forall i, j | 0 <= i < j < |r| ensures r[i].key != r[j].key {
      if i == 0 {
        assert r[j].key == Keys(rest)[j - 1];
      } else {
        assert r[i] == rest[i - 1] && r[j] == rest[j - 1];
      }
    }
  }

  /** `"0"`, `"1"`, ...: the keys JavaScript enumerates before all others, in ascending numeric order. */
  predicate IsArrayIndex(k: string) {
    && |k| >= 1
    && (forall i :: 0 <= i < |k| ==> Text.IsDigit(k[i]))
    && (k[0] == '0' ==> |k| == 1)
    && Text.DigitsValue(k) < 0xFFFF_FFFF
  }

  /** The index-keyed properties of an array or a string, as `Object.entries` lists them. */
  function IndexProps(values: seq<JsValue>): (ps: seq<Prop>)
    ensures |ps| == |values|
    ensures forall i :: 0 <= i < |values| ==> ps[i] == Prop(Text.NatToString(i), values[i])
  {
    seq(|values|, i requires 0 <= i < |values| => Prop(Text.NatToString(i), values[i]))
  }

  /**
   * `Object.entries(v)`: `None` when JavaScript throws a TypeError (`null`, `undefined`);
   * primitives other than strings have no own enumerable properties.
   */
  function Entries(v: JsValue): (r: Option<seq<Prop>>)
    ensures r.None? <==> v.Undefined? || v.Null?
    ensures v.Obj? ==> r == Some(v.props)
    ensures v.Bool? || v.Num? || v.Date? ==> r == Some([])
  {
    match v
    case Undefined => None
    case Null => None
    case Bool(_) => Some([])
    case Num(_) => Some([])
    case Date(_) => Some([])
    case Str(s) => Some(IndexProps(seq(|s|, i requires 0 <= i < |s| => Str([s[i]]))))
    case Arr(items) => Some(IndexProps(items))
    case Obj(props) => Some(props)
  }

  /** `key in v`: `None` when JavaScript throws a TypeError (the right operand is not an object). */
  function HasProperty(v: JsValue, key: string): (r: Option<bool>)
    ensures r.Some? <==> v.Arr? || v.Obj? || v.Date?
    ensures v.Obj? ==> r == Some(key in Keys(v.props))
  {
    match v
    case Obj(props) => Some(key in Keys(props))
    case Arr(items) => Some(IsArrayIndex(key) && Text.DigitsValue(key) < |items|)
    case Date(_) => Some(false)
    case _ => None
  }

  /** `typeof v === 'string'`. */
  predicate IsString(v: JsValue) { v.Str? }

  /** `Array.isArray(v)`. */
  predicate IsArray(v: JsValue) { v.Arr? }
}
