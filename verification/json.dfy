/** The values `JSON.parse` can produce, and the few JavaScript operations the
    modelled code applies to them: truthiness, named property reads, `Array.isArray`
    and the own enumerable properties an object spread (`...v`) copies. */
module Json {
  import opened Wrappers
  import Text

  datatype Value =
    | Null
    | Bool(b: bool)
    | Num(n: real)
    | Str(s: string)
    | Arr(items: seq<Value>)
    | Obj(fields: map<string, Value>)

  /** JavaScript truthiness of a JSON value (`NaN` cannot come out of `JSON.parse`). */
  predicate Truthy(v: Value) {
    match v
    case Null => false
    case Bool(b) => b
    case Num(n) => n != 0.0
    case Str(s) => |s| > 0
    case Arr(_) => true
    case Obj(_) => true
  }

  /** Truthiness of a property read; an absent property is `undefined`, which is falsy. */
  predicate TruthyOpt(o: Option<Value>) {
    o.Some? && Truthy(o.value)
  }

  /** Reading a named property `v.key` (or `v?.key`) of a non-null value. Only
      objects carry named properties: arrays and strings have index properties
      and `length`, none of which the modelled code reads, and `null` is handled
      at each call site because reading from it throws. */
  function Field(v: Value, key: string): (r: Option<Value>)
    ensures r.Some? <==> v.Obj? && key in v.fields
  {
    if v.Obj? && key in v.fields then Some(v.fields[key]) else None
  }

  /** `Array.isArray` of a property that may be absent. */
  predicate IsArrayOpt(o: Option<Value>) {
    o.Some? && o.value.Arr?
  }

  /** The own enumerable properties `{...v}` copies: an object's fields, an array's
      elements under their decimal indices, a string's characters likewise, and
      nothing for `null`, booleans and numbers. */
  function OwnProps(v: Value): (r: map<string, Value>)
    ensures v.Obj? ==> r == v.fields
    ensures v.Arr? ==> |r| == |v.items|
    ensures v.Null? || v.Bool? || v.Num? ==> r == map[]
  {
    match v
    case Obj(fields) => fields
    case Arr(items) => IndexedProps(items)
    case Str(s) => IndexedProps(seq(|s|, i requires 0 <= i < |s| => Str([s[i]])))
    case _ => map[]
  }

  /** Elements keyed by the decimal rendering of their index. */
  function IndexedProps(items: seq<Value>): (r: map<string, Value>)
    ensures |r| == |items|
    ensures forall i :: 0 <= i < |items| ==> Text.NatToString(i) in r && r[Text.NatToString(i)] == items[i]
    ensures r.Keys == IndexKeys(|items|)
  {
    forall i: nat, j: nat ensures Text.NatToString(i) == Text.NatToString(j) ==> i == j {
      Text.NatToStringInjective(i, j);
    }
    var r := map i | 0 <= i < |items| :: Text.NatToString(i) := items[i];
    assert r.Keys == IndexKeys(|items|);
    IndexKeysCardinality(|items|);
    r
  }

  /** The decimal renderings of the indices 0 .. n-1. */
  function IndexKeys(n: nat): set<string> {
    set i | 0 <= i < n :: Text.NatToString(i)
  }

  /** The decimal renderings of 0 .. n-1 are n distinct strings. */
  lemma {:induction false} IndexKeysCardinality(n: nat)
    ensures |IndexKeys(n)| == n
  {
    if n > 0 {
      IndexKeysCardinality(n - 1);
      var last := Text.NatToString(n - 1);
      forall i | 0 <= i < n - 1 ensures Text.NatToString(i) != last {
        Text.NatToStringInjective(i, n - 1);
      }
      assert last !in IndexKeys(n - 1);
      assert IndexKeys(n) == IndexKeys(n - 1) + {last};
    }
  }
}
