/**
 JSON values as the handlers see them after `json.loads` (and as `json.dumps`
 would write them). Objects keep their fields in insertion order, like Python
 dicts, and are assumed to have distinct keys. Numbers are Python `int`s,
 Python `float`s and `decimal.Decimal`s; a float or decimal is held exactly as
 `digits` times ten to the power `-scale` (every finite float is such a number).
 */
module Json {
  import opened Wrappers
  import Text = Strings

  datatype Value =
    | Null
    | Bool(b: bool)
    | Num(n: int)
    | Float(digits: int, scale: nat)
    | Decimal(digits: int, scale: nat)
    | Str(s: string)
    | Arr(items: seq<Value>)
    | Obj(fields: seq<(string, Value)>)

  /** Python truthiness: what `if value:` and `value or default` test. */
  predicate Truthy(v: Value) {
    match v
    case Null => false
    case Bool(b) => b
    case Num(n) => n != 0
    case Float(d, _) => d != 0
    case Decimal(d, _) => d != 0
    case Str(s) => s != ""
    case Arr(items) => items != []
    case Obj(fields) => fields != []
  }

  /** `value or default`. */
  function Or(v: Value, default: Value): (r: Value)
    ensures Truthy(v) ==> r == v
    ensures !Truthy(v) ==> r == default
  {
    if Truthy(v) then v else default
  }

  /** The value stored under `key` in a dict, if any: the first field with that key. */
  function Lookup<V(==)>(fields: seq<(string, V)>, key: string): (r: Option<V>)
    ensures r.None? <==> forall i :: 0 <= i < |fields| ==> fields[i].0 != key
    ensures r.Some? ==> exists i :: 0 <= i < |fields| && fields[i] == (key, r.value)
  {
    if fields == [] then None
    else if fields[0].0 == key then Some(fields[0].1)
    else
      var r := Lookup(fields[1..], key);
      assert r.Some? ==> exists i :: 1 <= i < |fields| && fields[i] == (key, r.value) by {
        if r.Some? {
          var j :| 0 <= j < |fields[1..]| && fields[1..][j] == (key, r.value);
          assert fields[j + 1] == (key, r.value);
        }
      }
      r
  }

  /** The fields of a dict have distinct keys. */
  predicate DistinctKeys<V>(fields: seq<(string, V)>) {
    forall i, j :: 0 <= i < j < |fields| ==> fields[i].0 != fields[j].0
  }

  /** A field whose key no earlier field has is what a lookup of that key finds. */
  lemma {:induction false} LookupAt<V>(fields: seq<(string, V)>, i: nat)
    requires i < |fields|
    requires forall j :: 0 <= j < i ==> fields[j].0 != fields[i].0
    ensures Lookup(fields, fields[i].0) == Some(fields[i].1)
  {
    if i > 0 {
      assert forall j :: 0 <= j < i - 1 ==> fields[1..][j] == fields[j + 1];
      LookupAt(fields[1..], i - 1);
    }
  }

  /** A key the leading fields lack is looked up among the rest. */
  lemma {:induction false} LookupAppend<V>(a: seq<(string, V)>, b: seq<(string, V)>, key: string)
    requires Lookup(a, key).None?
    ensures Lookup(a + b, key) == Lookup(b, key)
  {
    if a != [] {
      assert (a + b)[0] == a[0] && a[0].0 != key;
      assert (a + b)[1..] == a[1..] + b;
      LookupAppend(a[1..], b, key);
    } else {
      assert a + b == b;
    }
  }

  /** A key the leading fields have is found there, whatever follows. */
  lemma {:induction false} LookupPrefix<V>(a: seq<(string, V)>, b: seq<(string, V)>, key: string)
    requires Lookup(a, key).Some?
    ensures Lookup(a + b, key) == Lookup(a, key)
  {
    assert (a + b)[0] == a[0];
    if a[0].0 != key {
      assert (a + b)[1..] == a[1..] + b;
      LookupPrefix(a[1..], b, key);
    }
  }

  /** A field whose name is new keeps the names distinct when appended. */
  lemma AppendNewKey<V>(a: seq<(string, V)>, key: string, v: V)
    requires DistinctKeys(a) && Lookup(a, key).None?
    ensures DistinctKeys(a + [(key, v)])
  {
    var b := a + [(key, v)];
    forall i, j | 0 <= i < j < |b|
      ensures b[i].0 != b[j].0
    {
      assert b[i] == a[i];
    }
  }

  /** `d.get(key, default)` on a dict `d`. */
  function GetOr(fields: seq<(string, Value)>, key: string, default: Value): Value {
    Lookup(fields, key).GetOr(default)
  }

  /**
   `v.get(key, default)` on any value: `None` when `v` is not a dict, where
   Python raises AttributeError.
   */
  function Get(v: Value, key: string, default: Value): (r: Option<Value>)
    ensures r.Some? <==> v.Obj?
  {
    if v.Obj? then Some(GetOr(v.fields, key, default)) else None
  }

  /** `list(d.keys())`. */
  function Keys(fields: seq<(string, Value)>): (ks: seq<string>)
    ensures |ks| == |fields|
    ensures forall i :: 0 <= i < |fields| ==> ks[i] == fields[i].0
  {
    seq(|fields|, i requires 0 <= i < |fields| => fields[i].0)
  }

  /** `len(v)`; `None` where Python raises TypeError. */
  function Size(v: Value): Option<nat> {
    match v
    case Str(s) => Some(|s|)
    case Arr(items) => Some(|items|)
    case Obj(fields) => Some(|fields|)
    case _ => None
  }

  /** The string inside a string value; `None` for every other value. */
  function AsString(v: Value): Option<string> {
    if v.Str? then Some(v.s) else None
  }

  /** A list of strings as a JSON array. */
  function Strings(xs: seq<string>): (v: Value)
    ensures v.Arr? && |v.items| == |xs|
  {
    Arr(seq(|xs|, i requires 0 <= i < |xs| => Str(xs[i])))
  }

  /**
   `str(v)`, as an f-string renders a value: strings as themselves, integers
   in decimal, `True`/`False`/`None` by name. Floats, decimals, lists and dicts
   are rendered by a fixed marker rather than by their `repr`.
   */
  function Display(v: Value): string {
    match v
    case Null => "None"
    case Bool(b) => if b then "True" else "False"
    case Num(n) => Text.IntToString(n)
    case Float(_, _) => "<float>"
    case Decimal(_, _) => "<decimal>"
    case Str(s) => s
    case Arr(_) => "[...]"
    case Obj(_) => "{...}"
  }
}
