/** The values that rows are made of: what `JSON.parse` returns, and what the
    CSV reader builds. A JavaScript object is the list of its properties in
    `Object.keys` enumeration order; a number carries the text `String(n)`
    gives for it, since the components only ever print numbers. */
module Json {
  import opened Wrappers
  import opened Text

  datatype Value =
    | Null
    | Bool(b: bool)
    | Number(shown: string)
    | Str(s: string)
    | Array(items: seq<Value>)
    | Object(props: seq<(string, Value)>)

  type Props = seq<(string, Value)>

  /** `Object.keys(obj)` of an object with these properties. */
  function Keys(props: Props): (ks: seq<string>)
    ensures |ks| == |props|
    ensures forall i :: 0 <= i < |props| ==> ks[i] == props[i].0
  {
    if props == [] then [] else [props[0].0] + Keys(props[1..])
  }

  /** A JavaScript object never holds the same key twice. */
  predicate UniqueKeys(props: Props) {
    forall i, j :: 0 <= i < j < |props| ==> props[i].0 != props[j].0
  }

  /** `obj[key]`, `undefined` being `None`. */
  function Get(props: Props, key: string): Option<Value> {
    if props == [] then None
    else if props[0].0 == key then Some(props[0].1)
    else Get(props[1..], key)
  }

  /** Reading a key gives `undefined` exactly when the object lacks it, and
      otherwise the value stored with it. */
  lemma {:induction false} GetFinds(props: Props, key: string)
    ensures Get(props, key).None? <==> key !in Keys(props)
    ensures Get(props, key).Some? ==> exists i :: 0 <= i < |props| && props[i] == (key, Get(props, key).value)
  {
    if props != [] {
      assert Keys(props) == [props[0].0] + Keys(props[1..]);
      if props[0].0 != key {
        GetFinds(props[1..], key);
        var r := Get(props[1..], key);
        if r.Some? {
          var i :| 0 <= i < |props[1..]| && props[1..][i] == (key, r.value);
          assert props[i + 1] == (key, r.value);
        }
      } else {
        assert props[0] == (key, Get(props, key).value);
      }
    }
  }

  /** `obj[key] = value`: a key already present keeps its place and takes the
      new value; a new key is added last. */
  function Set(props: Props, key: string, v: Value): Props {
    if props == [] then [(key, v)]
    else if props[0].0 == key then [(key, v)] + props[1..]
    else [props[0]] + Set(props[1..], key, v)
  }

  /** Assignment keeps the order of the keys and appends a new one. */
  lemma {:induction false} SetKeys(props: Props, key: string, v: Value)
    ensures Keys(Set(props, key, v)) == if key in Keys(props) then Keys(props) else Keys(props) + [key]
  {
    if props != [] {
      assert Keys(props) == [props[0].0] + Keys(props[1..]);
      if props[0].0 == key {
        assert Keys([(key, v)] + props[1..]) == [key] + Keys(props[1..]);
      } else {
        var rest := Set(props[1..], key, v);
        SetKeys(props[1..], key, v);
        assert Set(props, key, v) == [props[0]] + rest;
        assert Keys([props[0]] + rest) == [props[0].0] + Keys(rest);
        assert key in Keys(props) <==> key in Keys(props[1..]);
        if key !in Keys(props) {
          assert [props[0].0] + (Keys(props[1..]) + [key]) == Keys(props) + [key];
        }
      }
    }
  }

  /** After `obj[key] = v`, reading `key` gives `v` and every other key reads as before. */
  lemma {:induction false} GetAfterSet(props: Props, key: string, v: Value, k: string)
    ensures Get(Set(props, key, v), k) == if k == key then Some(v) else Get(props, k)
  {
    if props != [] && props[0].0 != key {
      GetAfterSet(props[1..], key, v, k);
      assert Set(props, key, v)[1..] == Set(props[1..], key, v);
    } else if props != [] {
      assert Set(props, key, v)[1..] == props[1..];
    }
  }

  /** Assignment never duplicates a key. */
  lemma SetKeepsKeysUnique(props: Props, key: string, v: Value)
    requires UniqueKeys(props)
    ensures UniqueKeys(Set(props, key, v))
  {
    var r := Set(props, key, v);
    SetKeys(props, key, v);
    forall i, j | 0 <= i < j < |r| ensures r[i].0 != r[j].0 {
      assert Keys(r)[i] == r[i].0 && Keys(r)[j] == r[j].0;
    }
  }

  /** `row[key]` for any value: only objects have the properties rows are read by. */
  function Lookup(row: Value, key: string): Option<Value> {
    if row.Object? then Get(row.props, key) else None
  }

  /** `Object.keys(v)`; `None` where it throws (for `null`). */
  function ObjectKeys(v: Value): (r: Option<seq<string>>)
    ensures r.None? <==> v.Null?
    ensures v.Object? ==> r == Some(Keys(v.props))
  {
    match v
    case Null => None
    case Bool(_) => Some([])
    case Number(_) => Some([])
    case Str(s) => Some(Indices(|s|))
    case Array(items) => Some(Indices(|items|))
    case Object(props) => Some(Keys(props))
  }

  /** The index keys "0", "1", ... of a string or an array. */
  function Indices(n: nat): seq<string> {
    seq(n, i requires 0 <= i < n => Decimal(i))
  }

  /** `String(v)`, which is also what a template literal `${v}` writes. */
  function AsString(v: Value): string
    decreases v, 0
  {
    match v
    case Null => "null"
    case Bool(b) => if b then "true" else "false"
    case Number(shown) => shown
    case Str(s) => s
    case Array(items) => Join(seq(|items|, i requires 0 <= i < |items| => ElementString(items[i])), ",")
    case Object(_) => "[object Object]"
  }

  /** How `Array.prototype.join` writes one element: `null` as the empty string. */
  function ElementString(v: Value): string
    decreases v, 1
  {
    if v.Null? then "" else AsString(v)
  }

  /** `${row[key]}`, `undefined` included. */
  function Template(v: Option<Value>): string {
    if v.None? then "undefined" else AsString(v.value)
  }
}
