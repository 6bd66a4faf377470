/**
 * `CaseConverterInterceptor`: request bodies and query objects arrive with snake_case
 * keys and are renamed to camelCase before they reach a handler; handler results are
 * renamed back to snake_case. The renaming recurses through arrays and objects, keeps
 * every other value, and rebuilds each object by assigning its renamed properties in
 * key order into a fresh object, so when two keys rename to the same key the later one
 * wins.
 */
module CaseConverter {
  import opened JsValues
  import Text

  /** No uppercase ASCII letter occurs in `k`. */
  predicate NoUpper(k: string) {
    forall i :: 0 <= i < |k| ==> !Text.IsUpper(k[i])
  }

  /** No `_` in `k` is followed by a lowercase ASCII letter: nothing for `/_([a-z])/` to match. */
  predicate NoSnakeJoint(k: string) {
    forall i :: 0 <= i < |k| - 1 && k[i] == '_' ==> !Text.IsLower(k[i + 1])
  }

  /**
   * `key.replace(/_([a-z])/g, (_, letter) => letter.toUpperCase())`: the matches are
   * taken from left to right without overlapping.
   */
  function SnakeToCamelKey(k: string): (r: string)
    ensures |k| > 0 ==> |r| > 0 && (!Text.IsLower(k[0]) ==> !Text.IsLower(r[0]))
    ensures NoSnakeJoint(r)
    decreases |k|
  {
    if |k| == 0 then ""
    else if k[0] == '_' && |k| >= 2 && Text.IsLower(k[1]) then
      var r := [Text.UpperChar(k[1])] + SnakeToCamelKey(k[2..]);
      assert forall i :: 1 <= i < |r| ==> r[i] == SnakeToCamelKey(k[2..])[i - 1];
      r
    else
      var rest := SnakeToCamelKey(k[1..]);
      var r := [k[0]] + rest;
      assert forall i :: 1 <= i < |r| ==> r[i] == rest[i - 1];
      r
  }

  /** `key.replace(/[A-Z]/g, (letter) => `_${letter.toLowerCase()}`)`. */
  function CamelToSnakeKey(k: string): (r: string)
    ensures NoUpper(r)
    decreases |k|
  {
    if |k| == 0 then ""
    else
      var rest := CamelToSnakeKey(k[1..]);
      var r := (if Text.IsUpper(k[0]) then ['_', Text.LowerChar(k[0])] else [k[0]]) + rest;
      assert forall i :: |r| - |rest| <= i < |r| ==> r[i] == rest[i - (|r| - |rest|)];
      r
  }

  /** A key without an underscore survives the round trip to snake_case and back. */
  lemma {:induction false} CamelKeyRoundTrip(k: string)
    requires '_' !in k
    ensures SnakeToCamelKey(CamelToSnakeKey(k)) == k
    decreases |k|
  {
    if |k| > 0 {
      assert '_' !in k[1..];
      CamelKeyRoundTrip(k[1..]);
      var rest := CamelToSnakeKey(k[1..]);
      if Text.IsUpper(k[0]) {
        var l := Text.LowerChar(k[0]);
        assert CamelToSnakeKey(k) == ['_', l] + rest;
        assert (['_', l] + rest)[2..] == rest;
        assert Text.UpperChar(l) == k[0];
      } else {
        assert CamelToSnakeKey(k) == [k[0]] + rest;
        assert ([k[0]] + rest)[1..] == rest;
      }
      assert k == [k[0]] + k[1..];
    }
  }

  /** A key without uppercase letters survives the round trip to camelCase and back. */
  lemma {:induction false} SnakeKeyRoundTrip(k: string)
    requires NoUpper(k)
    ensures CamelToSnakeKey(SnakeToCamelKey(k)) == k
    decreases |k|
  {
    if |k| > 0 {
      if k[0] == '_' && |k| >= 2 && Text.IsLower(k[1]) {
        assert NoUpper(k[2..]) by {
          forall i | 0 <= i < |k| - 2 ensures !Text.IsUpper(k[2..][i]) { assert k[2..][i] == k[i + 2]; }
        }
        SnakeKeyRoundTrip(k[2..]);
        var u := Text.UpperChar(k[1]);
        var r := [u] + SnakeToCamelKey(k[2..]);
        assert r[1..] == SnakeToCamelKey(k[2..]);
        assert CamelToSnakeKey(r) == ['_', Text.LowerChar(u)] + k[2..];
        assert k == ['_', k[1]] + k[2..];
      } else {
        assert NoUpper(k[1..]) by {
          forall i | 0 <= i < |k| - 1 ensures !Text.IsUpper(k[1..][i]) { assert k[1..][i] == k[i + 1]; }
        }
        SnakeKeyRoundTrip(k[1..]);
        var r := [k[0]] + SnakeToCamelKey(k[1..]);
        assert r[1..] == SnakeToCamelKey(k[1..]);
        assert k == [k[0]] + k[1..];
      }
    }
  }

  /** A key already in snake_case is left as it is. */
  lemma {:induction false} SnakeKeyFixed(k: string)
    requires NoUpper(k)
    ensures CamelToSnakeKey(k) == k
    decreases |k|
  {
    if |k| > 0 {
      assert NoUpper(k[1..]) by {
        forall i | 0 <= i < |k| - 1 ensures !Text.IsUpper(k[1..][i]) { assert k[1..][i] == k[i + 1]; }
      }
      SnakeKeyFixed(k[1..]);
      assert k == [k[0]] + k[1..];
    }
  }

  /** A key with nothing left to match is left as it is. */
  lemma {:induction false} CamelKeyFixed(k: string)
    requires NoSnakeJoint(k)
    ensures SnakeToCamelKey(k) == k
    decreases |k|
  {
    if |k| > 0 {
      assert NoSnakeJoint(k[1..]) by {
        forall i | 0 <= i < |k| - 2 && k[1..][i] == '_' ensures !Text.IsLower(k[1..][i + 1]) {
          assert k[1..][i] == k[i + 1] && k[1..][i + 1] == k[i + 2];
        }
      }
      CamelKeyFixed(k[1..]);
      assert k == [k[0]] + k[1..];
    }
  }

  /** Renaming twice renames no more than renaming once, in both directions. */
  lemma KeysIdempotent(k: string)
    ensures SnakeToCamelKey(SnakeToCamelKey(k)) == SnakeToCamelKey(k)
    ensures CamelToSnakeKey(CamelToSnakeKey(k)) == CamelToSnakeKey(k)
  {
    CamelKeyFixed(SnakeToCamelKey(k));
    SnakeKeyFixed(CamelToSnakeKey(k));
  }

  /**
   * `keys.reduce((result, key) => { result[key'] = value'; return result; }, {})`: the
   * renamed properties assigned one after another into a fresh object.
   */
  function AssignAll(ps: seq<Prop>): seq<Prop>
    decreases |ps|
  {
    if |ps| == 0 then []
    else Put(AssignAll(ps[..|ps| - 1]), ps[|ps| - 1].key, ps[|ps| - 1].value)
  }

  /** The assembled object is a JavaScript object: no key occurs twice. */
  lemma {:induction false} AssignAllUnique(ps: seq<Prop>)
    ensures UniqueKeys(AssignAll(ps))
    decreases |ps|
  {
    if |ps| > 0 {
      AssignAllUnique(ps[..|ps| - 1]);
      PutUnique(AssignAll(ps[..|ps| - 1]), ps[|ps| - 1].key, ps[|ps| - 1].value);
    }
  }

  /** The assembled object has exactly the keys assigned to it. */
  lemma {:induction false} AssignAllKeys(ps: seq<Prop>, k: string)
    ensures k in Keys(AssignAll(ps)) <==> k in Keys(ps)
    decreases |ps|
  {
    if |ps| > 0 {
      var n := |ps| - 1;
      AssignAllKeys(ps[..n], k);
      PutKeysExactly(AssignAll(ps[..n]), ps[n].key, ps[n].value, k);
      KeysSnoc(ps, k);
    }
  }

  lemma PutKeysExactly(props: seq<Prop>, key: string, value: JsValue, k: string)
    ensures k in Keys(Put(props, key, value)) <==> k in Keys(props) || k == key
  {
    var r := Put(props, key, value);
    if k in Keys(props) {
      PutKeepsKeys(props, key, value, k);
    }
    if k in Keys(r) {
      var i :| 0 <= i < |r| && Keys(r)[i] == k;
      assert r[i].key == k;
    }
  }

  lemma KeysSnoc(ps: seq<Prop>, k: string)
    requires |ps| > 0
    ensures k in Keys(ps) <==> k in Keys(ps[..|ps| - 1]) || k == ps[|ps| - 1].key
  {
    var n := |ps| - 1;
    if k in Keys(ps) {
      var i :| 0 <= i < |ps| && Keys(ps)[i] == k;
      if i < n {
        assert Keys(ps[..n])[i] == k;
      }
    }
    if k in Keys(ps[..n]) {
      var j :| 0 <= j < n && Keys(ps[..n])[j] == k;
      assert Keys(ps)[j] == k;
    }
    assert Keys(ps)[n] == ps[n].key;
  }

  /** A key's value in the assembled object is the one assigned last under that key. */
  lemma {:induction false} AssignAllLastWins(ps: seq<Prop>, i: nat)
    requires i < |ps|
    requires forall j :: i < j < |ps| ==> ps[j].key != ps[i].key
    ensures Get(AssignAll(ps), ps[i].key) == ps[i].value
    decreases |ps|
  {
    var n := |ps| - 1;
    var init, last := AssignAll(ps[..n]), ps[n];
    assert AssignAll(ps) == Put(init, last.key, last.value);
    GetPut(init, last.key, last.value, ps[i].key);
    if i < n {
      var front := ps[..n];
      assert front[i] == ps[i];
      assert forall j :: i < j < |front| ==> front[j].key != front[i].key by {
        forall j | i < j < |front| ensures front[j].key != front[i].key { assert front[j] == ps[j]; }
      }
      AssignAllLastWins(front, i);
    }
  }

  /** Properties whose keys are already distinct are assembled unchanged, in their order. */
  lemma {:induction false} AssignAllDistinct(ps: seq<Prop>)
    requires UniqueKeys(ps)
    ensures AssignAll(ps) == ps
    decreases |ps|
  {
    if |ps| > 0 {
      var n := |ps| - 1;
      UniqueFrontLastFresh(ps);
      AssignAllDistinct(ps[..n]);
      PutFreshSnoc(ps);
    }
  }

  /** Dropping the last property keeps the keys distinct, and the last key is not among the others. */
  lemma UniqueFrontLastFresh(ps: seq<Prop>)
    requires UniqueKeys(ps) && |ps| > 0
    ensures UniqueKeys(ps[..|ps| - 1])
    ensures ps[|ps| - 1].key !in Keys(ps[..|ps| - 1])
  {
    var n := |ps| - 1;
    var front := ps[..n];
    forall i, j | 0 <= i < j < n ensures front[i].key != front[j].key { assert front[i] == ps[i] && front[j] == ps[j]; }
    forall j | 0 <= j < n ensures Keys(front)[j] != ps[n].key { assert front[j] == ps[j]; }
  }

  /** Putting the last property, with a fresh key, after the others rebuilds the sequence. */
  lemma PutFreshSnoc(ps: seq<Prop>)
    requires |ps| > 0 && ps[|ps| - 1].key !in Keys(ps[..|ps| - 1])
    ensures Put(ps[..|ps| - 1], ps[|ps| - 1].key, ps[|ps| - 1].value) == ps
  {
    var n := |ps| - 1;
    var front, last := ps[..n], ps[n];
    assert Put(front, last.key, last.value) == front + [Prop(last.key, last.value)];
    assert ps[n..] == [last];
    assert ps == front + ps[n..];
  }

  /** `convertSnakeToCamel(obj)`: Dates are kept as they are. */
  function SnakeToCamel(v: JsValue): (r: JsValue)
    ensures v.Arr? <==> r.Arr?
    ensures v.Arr? ==> |r.items| == |v.items|
    ensures v.Obj? <==> r.Obj?
    ensures v.Obj? ==> UniqueKeys(r.props)
    ensures !v.Arr? && !v.Obj? ==> r == v
    decreases v
  {
    match v
    case Arr(items) => Arr(seq(|items|, i requires 0 <= i < |items| => SnakeToCamel(items[i])))
    case Obj(props) => AssignAllUnique(SnakeProps(props)); Obj(AssignAll(SnakeProps(props)))
    case _ => v
  }

  /** The properties of an object with their keys and values converted to camelCase. */
  function SnakeProps(props: seq<Prop>): (ps: seq<Prop>)
    ensures |ps| == |props|
    decreases props
  {
    seq(|props|, i requires 0 <= i < |props| => Prop(SnakeToCamelKey(props[i].key), SnakeToCamel(props[i].value)))
  }

  /**
   * `convertCamelToSnake(obj)`: a Date becomes its ISO-8601 text, given here by `iso`
   * on the Date's epoch milliseconds.
   */
  function CamelToSnake(v: JsValue, iso: int -> string): (r: JsValue)
    ensures v.Arr? <==> r.Arr?
    ensures v.Arr? ==> |r.items| == |v.items|
    ensures v.Obj? <==> r.Obj?
    ensures v.Obj? ==> UniqueKeys(r.props)
    ensures v.Date? ==> r == Str(iso(v.epochMs))
    ensures !v.Arr? && !v.Obj? && !v.Date? ==> r == v
    decreases v
  {
    match v
    case Date(ms) => Str(iso(ms))
    case Arr(items) => Arr(seq(|items|, i requires 0 <= i < |items| => CamelToSnake(items[i], iso)))
    case Obj(props) => AssignAllUnique(CamelProps(props, iso)); Obj(AssignAll(CamelProps(props, iso)))
    case _ => v
  }

  /** The properties of an object with their keys and values converted to snake_case. */
  function CamelProps(props: seq<Prop>, iso: int -> string): (ps: seq<Prop>)
    ensures |ps| == |props|
    decreases props
  {
    seq(|props|, i requires 0 <= i < |props| => Prop(CamelToSnakeKey(props[i].key), CamelToSnake(props[i].value, iso)))
  }

  /** Arrays are converted element by element, in order. */
  lemma ArraysElementwise(items: seq<JsValue>, iso: int -> string, i: nat)
    requires i < |items|
    ensures SnakeToCamel(Arr(items)).items[i] == SnakeToCamel(items[i])
    ensures CamelToSnake(Arr(items), iso).items[i] == CamelToSnake(items[i], iso)
  {
  }

  /**
   * A converted object holds one key per renamed source key, and when several source
   * keys rename to the same key, that key holds the converted value of the last of them.
   */
  lemma SnakeObjectLaterKeyWins(props: seq<Prop>, i: nat)
    requires i < |props|
    requires forall j :: i < j < |props| ==> SnakeToCamelKey(props[j].key) != SnakeToCamelKey(props[i].key)
    ensures Get(SnakeToCamel(Obj(props)).props, SnakeToCamelKey(props[i].key)) == SnakeToCamel(props[i].value)
  {
    AssignAllLastWins(SnakeProps(props), i);
  }

  lemma CamelObjectLaterKeyWins(props: seq<Prop>, iso: int -> string, i: nat)
    requires i < |props|
    requires forall j :: i < j < |props| ==> CamelToSnakeKey(props[j].key) != CamelToSnakeKey(props[i].key)
    ensures Get(CamelToSnake(Obj(props), iso).props, CamelToSnakeKey(props[i].key)) == CamelToSnake(props[i].value, iso)
  {
    AssignAllLastWins(CamelProps(props, iso), i);
  }

  /** The converted object's keys are exactly the renamed keys of the source object. */
  lemma ObjectKeys(props: seq<Prop>, iso: int -> string, k: string)
    ensures k in Keys(SnakeToCamel(Obj(props)).props) <==> exists i :: 0 <= i < |props| && SnakeToCamelKey(props[i].key) == k
    ensures k in Keys(CamelToSnake(Obj(props), iso).props) <==> exists i :: 0 <= i < |props| && CamelToSnakeKey(props[i].key) == k
  {
    SnakeObjectKeys(props, k);
    CamelObjectKeys(props, iso, k);
  }

  /** `ObjectKeys` for snake_case to camelCase. */
  lemma SnakeObjectKeys(props: seq<Prop>, k: string)
    ensures k in Keys(AssignAll(SnakeProps(props))) <==> exists i :: 0 <= i < |props| && SnakeToCamelKey(props[i].key) == k
  {
    var ps := SnakeProps(props);
    AssignAllKeys(ps, k);
    if k in Keys(ps) {
      var j :| 0 <= j < |ps| && Keys(ps)[j] == k;
      assert SnakeToCamelKey(props[j].key) == k;
    }
    if exists i :: 0 <= i < |props| && SnakeToCamelKey(props[i].key) == k {
      var i :| 0 <= i < |props| && SnakeToCamelKey(props[i].key) == k;
      assert Keys(ps)[i] == k;
    }
  }

  /** `ObjectKeys` for camelCase to snake_case. */
  lemma CamelObjectKeys(props: seq<Prop>, iso: int -> string, k: string)
    ensures k in Keys(AssignAll(CamelProps(props, iso))) <==> exists i :: 0 <= i < |props| && CamelToSnakeKey(props[i].key) == k
  {
    var ps := CamelProps(props, iso);
    AssignAllKeys(ps, k);
    if k in Keys(ps) {
      var j :| 0 <= j < |ps| && Keys(ps)[j] == k;
      assert CamelToSnakeKey(props[j].key) == k;
    }
    if exists i :: 0 <= i < |props| && CamelToSnakeKey(props[i].key) == k {
      var i :| 0 <= i < |props| && CamelToSnakeKey(props[i].key) == k;
      assert Keys(ps)[i] == k;
    }
  }

  /**
   * A value a handler can return and get back unchanged after a round trip: no Dates
   * (they come back as text), and object keys that are distinct and hold no underscore.
   */
  predicate CamelShaped(v: JsValue)
    decreases v
  {
    match v
    case Date(_) => false
    case Arr(items) => forall i :: 0 <= i < |items| ==> CamelShaped(items[i])
    case Obj(props) =>
      && UniqueKeys(props)
      && (forall i :: 0 <= i < |props| ==> '_' !in props[i].key)
      && (forall i :: 0 <= i < |props| ==> CamelShaped(props[i].value))
    case _ => true
  }

  /** Converting a camelCase value to snake_case and back yields the value itself. */
  lemma {:induction false} ValueRoundTrip(v: JsValue, iso: int -> string)
    requires CamelShaped(v)
    ensures SnakeToCamel(CamelToSnake(v, iso)) == v
    decreases v
  {
    match v
    case Arr(items) =>
      var back := SnakeToCamel(CamelToSnake(v, iso));
      forall i | 0 <= i < |items| ensures back.items[i] == items[i] {
        ValueRoundTrip(items[i], iso);
      }
    case Obj(props) =>
      var there := CamelProps(props, iso);
      assert UniqueKeys(there) by { RenamedDistinct(props, iso); }
      AssignAllDistinct(there);
      var back := SnakeProps(there);
      forall i | 0 <= i < |props| ensures back[i] == props[i] {
        CamelKeyRoundTrip(props[i].key);
        ValueRoundTrip(props[i].value, iso);
      }
      assert back == props;
      AssignAllDistinct(props);
    case _ =>
  }

  /** Distinct keys without underscores stay distinct in snake_case. */
  lemma RenamedDistinct(props: seq<Prop>, iso: int -> string)
    requires UniqueKeys(props)
    requires forall i :: 0 <= i < |props| ==> '_' !in props[i].key
    ensures UniqueKeys(CamelProps(props, iso))
  {
    var there := CamelProps(props, iso);
    forall i, j | 0 <= i < j < |there| ensures there[i].key != there[j].key {
      CamelKeyRoundTrip(props[i].key);
      CamelKeyRoundTrip(props[j].key);
    }
  }
}
